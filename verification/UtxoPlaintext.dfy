/** The plaintext inside an encrypted output: hexadecimal fields, each introduced by the mark 0x. */
module UtxoPlaintext {
  import opened Wrappers
  import opened Numerals

  type Byte = n: nat | n < 256

  datatype Point = Point(x: int, y: int)

  /** The mint is held as the bytes behind its base58 text. */
  datatype PlainUtxo = PlainUtxo(
    amount: int, token: string, randomization: Option<int>, stealth: string, timestamp: string,
    isNewStyle: bool, h0: Option<Point>, mint: Option<seq<Byte>>)

  datatype PlainError = BadTimestamp | TooFewFields | BadNumber(field: nat)

  const MINT_BYTES: nat := 32

  /* ---------------- printing ---------------- */

  function Ensure0x(s: string): string {
    if HasPrefix(s, "0x") then s else "0x" + s
  }

  /** The text after the mark. */
  function Body(s: string): string {
    if HasPrefix(s, "0x") then s[2..] else s
  }

  lemma EnsureIsMarked(s: string)
    ensures Ensure0x(s) == "0x" + Body(s)
  {
    if HasPrefix(s, "0x") {
      assert s == s[..2] + s[2..];
    }
  }

  function HexEncode(bytes: seq<Byte>): string {
    if bytes == [] then [] else [DigitChar(bytes[0] / 16), DigitChar(bytes[0] % 16)] + HexEncode(bytes[1..])
  }

  function PrintedH0(u: PlainUtxo): Point {
    if u.h0.Some? then u.h0.value else Point(0, 0)
  }

  function PrintedRandomization(u: PlainUtxo): int {
    if u.randomization.Some? then u.randomization.value else 0
  }

  function NumberFields(u: PlainUtxo, time: int): seq<string> {
    Layout(
      EvenHex(u.amount), Body(u.token), EvenHex(PrintedRandomization(u)), Body(u.stealth), EvenHex(time),
      EvenHex(if u.isNewStyle then 1 else 0), EvenHex(PrintedH0(u).x), EvenHex(PrintedH0(u).y))
  }

  function Layout(
      amount: string, token: string, randomization: string, stealth: string, time: string, style: string,
      x: string, y: string): seq<string> {
    [amount, token, randomization, stealth, time, style, x, y]
  }

  function MintField(u: PlainUtxo): seq<string> {
    if u.mint.Some? then [HexEncode(u.mint.value)] else []
  }

  function Fields(u: PlainUtxo, time: int): seq<string> {
    NumberFields(u, time) + MintField(u)
  }

  function Marked(fields: seq<string>): string {
    if fields == [] then [] else "0x" + fields[0] + Marked(fields[1..])
  }

  /** Amount, token, randomization, stealth address, time, style, the two coordinates and, if any, the mint. */
  predicate InLayout(u: PlainUtxo, time: int, f: seq<string>) {
    && |f| == (if u.mint.Some? then 9 else 8)
    && f[0] == EvenHex(u.amount) && f[1] == Body(u.token)
    && f[2] == EvenHex(if u.randomization.Some? then u.randomization.value else 0)
    && f[3] == Body(u.stealth) && f[4] == EvenHex(time) && f[5] == EvenHex(if u.isNewStyle then 1 else 0)
    && f[6] == EvenHex(if u.h0.Some? then u.h0.value.x else 0)
    && f[7] == EvenHex(if u.h0.Some? then u.h0.value.y else 0)
    && (u.mint.Some? ==> f[8] == HexEncode(u.mint.value))
  }

  /** The buffer handed to encryption. */
  method Print(u: PlainUtxo) returns (r: Result<string, PlainError>)
    ensures match ParseBigInt(u.timestamp)
            case None => r == Err(BadTimestamp)
            case Some(time) => r == Ok(Marked(Fields(u, time))) && InLayout(u, time, Fields(u, time))
  {
    var time := ParseBigInt(u.timestamp);
    if time.None? {
      return Err(BadTimestamp);
    }
    var parts := [
      ToBeHex(u.amount), Ensure0x(u.token), ToBeHex(PrintedRandomization(u)), Ensure0x(u.stealth), ToBeHex(time.value),
      ToBeHex(if u.isNewStyle then 1 else 0), ToBeHex(PrintedH0(u).x), ToBeHex(PrintedH0(u).y)];
    EnsureIsMarked(u.token);
    EnsureIsMarked(u.stealth);
    EightParts(parts, NumberFields(u, time.value));
    if u.mint.Some? {
      parts := parts + ["0x" + HexEncode(u.mint.value)];
    }
    var buffer := JoinParts(parts, Fields(u, time.value));
    r := Ok(buffer);
  }

  /** Each part is the mark followed by the field. */
  predicate AreMarked(parts: seq<string>, fields: seq<string>) {
    |parts| == |fields| && forall i :: 0 <= i < |parts| ==> parts[i] == "0x" + fields[i]
  }

  lemma EightParts(parts: seq<string>, f: seq<string>)
    requires |f| == 8
    requires parts == ["0x" + f[0], "0x" + f[1], "0x" + f[2], "0x" + f[3], "0x" + f[4], "0x" + f[5],
      "0x" + f[6], "0x" + f[7]]
    ensures AreMarked(parts, f)
  {
  }

  method JoinParts(parts: seq<string>, ghost fields: seq<string>) returns (buffer: string)
    requires AreMarked(parts, fields)
    ensures buffer == Marked(fields)
  {
    buffer := [];
    for i := 0 to |parts|
      invariant buffer + Marked(fields[i..]) == Marked(fields)
    {
      assert fields[i..][1..] == fields[i + 1..];
      assert Marked(fields[i..]) == parts[i] + Marked(fields[i + 1..]);
      buffer := buffer + parts[i];
    }
    assert fields[|parts|..] == [];
  }

  /* ---------------- reading ---------------- */

  predicate MarkAt(s: string, i: nat) {
    i + 1 < |s| && s[i] == '0' && s[i + 1] == 'x'
  }

  /** The first mark, or the length. */
  function FirstMark(s: string): (k: nat)
    ensures k <= |s|
    ensures k < |s| ==> MarkAt(s, k)
    ensures forall i: nat :: i < k ==> !MarkAt(s, i)
  {
    if |s| < 2 then |s|
    else if MarkAt(s, 0) then 0
    else
      var k := 1 + FirstMark(s[1..]);
      assert forall i: nat :: 0 < i && MarkAt(s, i) ==> MarkAt(s[1..], i - 1);
      k
  }

  function Split(s: string): seq<string>
    decreases |s|
  {
    var k := FirstMark(s);
    if k == |s| then [s] else [s[..k]] + Split(s[k + 2..])
  }

  function NonEmpty(parts: seq<string>): seq<string> {
    if parts == [] then []
    else if parts[0] == [] then NonEmpty(parts[1..])
    else [parts[0]] + NonEmpty(parts[1..])
  }

  lemma NonEmptyStep(parts: seq<string>, i: nat)
    requires i < |parts|
    ensures NonEmpty(parts[i..])
            == if parts[i] == [] then NonEmpty(parts[i + 1..]) else [parts[i]] + NonEmpty(parts[i + 1..])
  {
    assert parts[i..][1..] == parts[i + 1..];
  }

  lemma AppendPart(out: seq<string>, part: string, rest: seq<string>)
    ensures out + ([part] + rest) == (out + [part]) + rest
  {
  }

  method SplitHexParts(s: string) returns (out: seq<string>)
    ensures out == NonEmpty(Split(s))
  {
    var raw := Split(s);
    out := [];
    for i := 0 to |raw|
      invariant out + NonEmpty(raw[i..]) == NonEmpty(raw)
    {
      NonEmptyStep(raw, i);
      if raw[i] != [] {
        AppendPart(out, raw[i], NonEmpty(raw[i + 1..]));
        out := out + [raw[i]];
      }
    }
    assert out + [] == out;
  }

  function HexDecode(s: string): Option<seq<Byte>> {
    if s == [] then Some([])
    else if |s| == 1 || DigitValue(s[0]) >= 16 || DigitValue(s[1]) >= 16 then None
    else
      match HexDecode(s[2..])
      case None => None
      case Some(rest) => Some([DigitValue(s[0]) * 16 + DigitValue(s[1])] + rest)
  }

  function HexField(part: string): Option<int> {
    ParseBigInt("0x" + part)
  }

  /** A mint counts only when it decodes to exactly 32 bytes. */
  function ReadMint(parts: seq<string>): Option<seq<Byte>> {
    var at := if |parts| >= 8 then 8 else 6;
    if at < |parts| && HexDecode(parts[at]).Some? then KeptMint(HexDecode(parts[at])) else None
  }

  function KeptMint(mint: Option<seq<Byte>>): Option<seq<Byte>> {
    if mint.Some? && |mint.value| == MINT_BYTES then mint else None
  }

  predicate Is32Bytes(mint: Option<seq<Byte>>) {
    mint.Some? && |mint.value| == 32
  }

  /** Five to seven fields are the old layout; from eight on a style flag and a point follow. */
  function ReadFields(parts: seq<string>): Result<PlainUtxo, PlainError> {
    if |parts| < 5 then Err(TooFewFields)
    else
      var newLayout := |parts| >= 8;
      Assemble(
        HexField(parts[0]), "0x" + parts[1], HexField(parts[2]), "0x" + parts[3], HexField(parts[4]),
        if newLayout then HexField(parts[5]) else Some(0),
        if newLayout then HexField(parts[6]) else None,
        if newLayout then HexField(parts[7]) else None,
        ReadMint(parts))
  }

  /** The first unreadable number is the error; the point matters only in the new style. */
  function Assemble(
      amount: Option<int>, token: string, randomization: Option<int>, stealth: string, time: Option<int>,
      style: Option<int>, x: Option<int>, y: Option<int>, mint: Option<seq<Byte>>): Result<PlainUtxo, PlainError> {
    if amount.None? then Err(BadNumber(0))
    else if randomization.None? then Err(BadNumber(2))
    else if time.None? then Err(BadNumber(4))
    else if style.None? then Err(BadNumber(5))
    else if style.value != 0 && x.None? then Err(BadNumber(6))
    else if style.value != 0 && y.None? then Err(BadNumber(7))
    else Ok(PlainUtxo(
      amount.value, token, randomization, stealth, Text(time.value, 10), style.value != 0,
      if style.value != 0 then Some(Point(x.value, y.value)) else None, mint))
  }

  /** Five to seven fields: no style, no point, and the mint, if any, as the seventh field. */
  lemma OldLayout(parts: seq<string>)
    requires 5 <= |parts| < 8
    ensures var r := ReadFields(parts);
            && (r.Ok? <==> HexField(parts[0]).Some? && HexField(parts[2]).Some? && HexField(parts[4]).Some?)
            && (r.Ok? ==> && Some(r.value.amount) == HexField(parts[0]) && r.value.token == "0x" + parts[1]
                          && r.value.randomization == HexField(parts[2]) && r.value.stealth == "0x" + parts[3]
                          && ParseBigInt(r.value.timestamp) == HexField(parts[4])
                          && !r.value.isNewStyle && r.value.h0 == None
                          && r.value.mint == (if |parts| == 7 && Is32Bytes(HexDecode(parts[6])) then HexDecode(parts[6])
                                              else None))
  {
    if HexField(parts[4]).Some? {
      DecimalTextParses(HexField(parts[4]).value);
    }
  }

  /* ---------------- splitting undoes joining ---------------- */

  predicate NoMark(s: string) {
    forall i: nat :: i < |s| ==> !MarkAt(s, i)
  }

  predicate FieldText(s: string) {
    s != [] && NoMark(s)
  }

  predicate AreFields(fields: seq<string>) {
    forall f :: f in fields ==> FieldText(f)
  }

  lemma MarkAfter(f: string, rest: string)
    requires NoMark(f)
    ensures FirstMark(f + "0x" + rest) == |f|
  {
    var s := f + "0x" + rest;
    assert MarkAt(s, |f|);
    forall i: nat | i < |f| ensures !MarkAt(s, i) {
      assert !MarkAt(f, i);
      assert s[i] == f[i] && (i + 1 < |f| ==> s[i + 1] == f[i + 1]) && (i + 1 == |f| ==> s[i + 1] == '0');
    }
  }

  lemma SplitStep(f: string, tail: string)
    requires NoMark(f)
    ensures Split(f + "0x" + tail) == [f] + Split(tail)
  {
    MarkAfter(f, tail);
    assert (f + "0x" + tail)[|f| + 2..] == tail && (f + "0x" + tail)[..|f|] == f;
  }

  lemma Regroup(f: string, g: string, tail: string)
    ensures f + "0x" + (g + tail) == f + ("0x" + g + tail)
  {
  }

  lemma {:induction false} SplitMarked(f: string, rest: seq<string>)
    requires NoMark(f) && forall g :: g in rest ==> NoMark(g)
    ensures Split(f + Marked(rest)) == [f] + rest
    decreases |rest|
  {
    if rest == [] {
      assert f + Marked(rest) == f;
    } else {
      assert rest[0] in rest && forall g :: g in rest[1..] ==> g in rest;
      SplitMarked(rest[0], rest[1..]);
      SplitStep(f, rest[0] + Marked(rest[1..]));
      Regroup(f, rest[0], Marked(rest[1..]));
      assert [rest[0]] + rest[1..] == rest;
    }
  }

  lemma {:induction false} SplitRebuilds(s: string)
    ensures Split(s) != [] && s == Split(s)[0] + Marked(Split(s)[1..])
    ensures forall p :: p in Split(s) ==> NoMark(p)
    decreases |s|
  {
    var k := FirstMark(s);
    if k == |s| {
      assert s == s + Marked([]);
    } else {
      var rest := Split(s[k + 2..]);
      SplitRebuilds(s[k + 2..]);
      assert Split(s)[1..] == rest && s == s[..k] + "0x" + s[k + 2..];
      Regroup(s[..k], rest[0], Marked(rest[1..]));
      assert forall i: nat :: MarkAt(s[..k], i) ==> MarkAt(s, i);
    }
  }

  predicate Without0x(s: string) {
    forall i :: 0 <= i < |s| - 1 ==> !(s[i] == '0' && s[i + 1] == 'x')
  }

  lemma NoMarkIs(s: string)
    ensures NoMark(s) <==> Without0x(s)
  {
    if NoMark(s) {
      forall i | 0 <= i < |s| - 1 ensures !(s[i] == '0' && s[i + 1] == 'x') {
        assert !MarkAt(s, i);
      }
    }
  }

  /** The parts of a text are those without 0x inside that give the text when joined by 0x. */
  lemma SplitExactly(s: string, parts: seq<string>)
    requires parts != []
    ensures Split(s) == parts <==> s == parts[0] + Marked(parts[1..]) && forall p :: p in parts ==> Without0x(p)
  {
    SplitRebuilds(s);
    forall p | p in parts ensures NoMark(p) <==> Without0x(p) {
      NoMarkIs(p);
    }
    if s == parts[0] + Marked(parts[1..]) && forall p :: p in parts ==> NoMark(p) {
      SplitMarked(parts[0], parts[1..]);
      assert parts == [parts[0]] + parts[1..];
    }
  }

  /** Fields without a mark inside come back from the joined text, all but the empty ones. */
  lemma FieldsRoundTrip(fields: seq<string>)
    requires forall f :: f in fields ==> NoMark(f)
    ensures NonEmpty(Split(Marked(fields))) == NonEmpty(fields)
  {
    SplitMarked([], fields);
    assert [] + Marked(fields) == Marked(fields);
    assert ([[]] + fields)[1..] == fields;
  }

  lemma {:induction false} AllNonEmpty(fields: seq<string>)
    requires forall f :: f in fields ==> FieldText(f)
    ensures NonEmpty(fields) == fields
  {
    if fields != [] {
      assert fields[0] in fields && forall f :: f in fields[1..] ==> f in fields;
      AllNonEmpty(fields[1..]);
    }
  }

  lemma {:induction false} NonEmptyMembers(parts: seq<string>)
    ensures forall p :: p in NonEmpty(parts) <==> p in parts && p != []
  {
    if parts != [] {
      NonEmptyMembers(parts[1..]);
      assert parts == [parts[0]] + parts[1..];
    }
  }

  /* ---------------- single fields ---------------- */

  /** Negative numbers survive only with an odd number of digits: otherwise the padding zero lands before the sign. */
  predicate Readable(n: int) {
    n >= 0 || |NatText(-n, 16)| % 2 == 1
  }

  lemma NumberIsPlain(n: int)
    ensures FieldText(EvenHex(n))
  {
    var digits := NatText(if n < 0 then -n else n, 16);
    TextRoundTrip(if n < 0 then -n else n, 16);
    NumeralIsPlain(digits);
    assert forall i :: 0 <= i < |EvenHex(n)| ==> EvenHex(n)[i] != 'x';
  }

  lemma NumberRoundTrip(n: int)
    ensures HexField(EvenHex(n)) == Kept(Readable(n), n)
  {
    if n >= 0 {
      HexRoundTrip(n);
    } else {
      TextRoundTrip(-n, 16);
      NegativeField(NatText(-n, 16), n);
      EvenedSign(NatText(-n, 16));
    }
  }

  lemma EvenedSign(digits: string)
    ensures Evened("-" + digits) == if |digits| % 2 == 1 then "-" + digits else "0-" + digits
  {
    assert "0" + ("-" + digits) == "0-" + digits;
  }

  lemma NegativeField(digits: string, n: int)
    requires n < 0 && IsNumeral(digits, 16) && NatValue(digits, 16) == -n
    ensures HexField("-" + digits) == Some(n)
    ensures HexField("0-" + digits) == None
  {
    NumeralIsPlain(digits);
    var s, t := "0x" + ("-" + digits), "0x" + ("0-" + digits);
    assert TrimSpace(s) == s && TrimSpace(t) == t;
    assert s[..2] == "0x" && s[2..] == "-" + digits && ("-" + digits)[1..] == digits;
    assert t[..2] == "0x" && t[2..] == "0-" + digits;
    assert ("0-" + digits)[1] == '-' && t[1] == 'x' && DigitValue('-') == DigitValue('x') == 16;
  }

  lemma {:induction false} BytesRoundTrip(bytes: seq<Byte>)
    ensures HexDecode(HexEncode(bytes)) == Some(bytes)
    ensures |HexEncode(bytes)| == 2 * |bytes|
    ensures forall c :: c in HexEncode(bytes) ==> c != 'x'
  {
    if bytes != [] {
      BytesRoundTrip(bytes[1..]);
      ByteRoundTrip(bytes[0], HexEncode(bytes[1..]), bytes[1..]);
      assert bytes == [bytes[0]] + bytes[1..];
    }
  }

  lemma ByteRoundTrip(b: Byte, text: string, rest: seq<Byte>)
    requires HexDecode(text) == Some(rest)
    ensures var pair := [DigitChar(b / 16), DigitChar(b % 16)];
            HexDecode(pair + text) == Some([b] + rest) && pair[0] != 'x' && pair[1] != 'x'
  {
    DigitRoundTrip(b / 16);
    DigitRoundTrip(b % 16);
    assert ([DigitChar(b / 16), DigitChar(b % 16)] + text)[2..] == text;
  }

  /* ---------------- the whole output ---------------- */

  /** An address whose text after the mark is there and holds no further mark. */
  predicate Address(s: string) {
    FieldText(Body(s))
  }

  predicate WellFormed(u: PlainUtxo, time: int) {
    && Address(u.token) && Address(u.stealth)
    && NumbersReadable(u, time)
  }

  predicate NumbersReadable(u: PlainUtxo, time: int) {
    && Readable(u.amount) && Readable(PrintedRandomization(u)) && Readable(time)
    && (u.isNewStyle ==> Readable(PrintedH0(u).x) && Readable(PrintedH0(u).y))
  }

  /** What a reader gets back: marks added, the time in decimal, the point only in the new style. */
  function Recovered(u: PlainUtxo, time: int): PlainUtxo {
    PlainUtxo(
      u.amount, Ensure0x(u.token), Some(PrintedRandomization(u)), Ensure0x(u.stealth), Text(time, 10), u.isNewStyle,
      if u.isNewStyle then Some(PrintedH0(u)) else None, KeptMint(u.mint))
  }

  lemma LayoutIsPlain(a: string, b: string, c: string, d: string, e: string, f: string, g: string, h: string)
    requires FieldText(a) && FieldText(b) && FieldText(c) && FieldText(d)
    requires FieldText(e) && FieldText(f) && FieldText(g) && FieldText(h)
    ensures forall s :: s in Layout(a, b, c, d, e, f, g, h) ==> FieldText(s)
  {
  }

  lemma FieldsArePlain(u: PlainUtxo, time: int)
    requires Address(u.token) && Address(u.stealth)
    ensures forall f :: f in NumberFields(u, time) ==> FieldText(f)
  {
    NumberIsPlain(u.amount);
    NumberIsPlain(PrintedRandomization(u));
    NumberIsPlain(time);
    NumberIsPlain(if u.isNewStyle then 1 else 0);
    NumberIsPlain(PrintedH0(u).x);
    NumberIsPlain(PrintedH0(u).y);
    LayoutIsPlain(
      EvenHex(u.amount), Body(u.token), EvenHex(PrintedRandomization(u)), Body(u.stealth), EvenHex(time),
      EvenHex(if u.isNewStyle then 1 else 0), EvenHex(PrintedH0(u).x), EvenHex(PrintedH0(u).y));
  }

  lemma MintIsPlain(u: PlainUtxo)
    ensures forall f :: f in MintField(u) ==> NoMark(f)
  {
    if u.mint.Some? {
      var f := HexEncode(u.mint.value);
      BytesRoundTrip(u.mint.value);
      assert forall i :: 0 <= i < |f| ==> f[i] in f;
    }
  }

  /** The parts read back are the printed fields, an empty mint dropped. */
  lemma PartsRead(u: PlainUtxo, time: int) returns (mint: seq<string>)
    requires Address(u.token) && Address(u.stealth)
    ensures NonEmpty(Split(Marked(Fields(u, time)))) == NumberFields(u, time) + mint
    ensures ReadMint(NumberFields(u, time) + mint) == KeptMint(u.mint)
  {
    var numbers := NumberFields(u, time);
    FieldsArePlain(u, time);
    MintIsPlain(u);
    FieldsRoundTrip(Fields(u, time));
    AllNonEmpty(numbers);
    mint := NonEmpty(MintField(u));
    NonEmptyConcat(numbers, MintField(u));
    if u.mint.Some? {
      BytesRoundTrip(u.mint.value);
      assert MintField(u)[1..] == [];
      if mint != [] {
        assert (numbers + mint)[8] == HexEncode(u.mint.value);
      }
    }
  }

  lemma ConsConcat(f: string, a: seq<string>, b: seq<string>)
    ensures [f] + (a + b) == [f] + a + b
  {
  }

  lemma {:induction false} NonEmptyConcat(a: seq<string>, b: seq<string>)
    ensures NonEmpty(a + b) == NonEmpty(a) + NonEmpty(b)
  {
    if a == [] {
      assert a + b == b;
    } else {
      NonEmptyConcat(a[1..], b);
      assert (a + b)[1..] == a[1..] + b && (a + b)[0] == a[0];
      ConsConcat(a[0], NonEmpty(a[1..]), NonEmpty(b));
    }
  }

  function Kept(ok: bool, n: int): Option<int> {
    if ok then Some(n) else None
  }

  lemma Assembled(u: PlainUtxo, time: int, amount: bool, randomization: bool, timeOk: bool, x: bool, y: bool)
    ensures Assemble(
              Kept(amount, u.amount), Ensure0x(u.token),
              Kept(randomization, PrintedRandomization(u)), Ensure0x(u.stealth),
              Kept(timeOk, time), Some(if u.isNewStyle then 1 else 0), Kept(x, PrintedH0(u).x), Kept(y, PrintedH0(u).y),
              KeptMint(u.mint)) == Ok(Recovered(u, time))
            <==> amount && randomization && timeOk && (u.isNewStyle ==> x && y)
  {
  }

  lemma NumbersRead(u: PlainUtxo, time: int, mint: seq<string>)
    requires ReadMint(NumberFields(u, time) + mint) == KeptMint(u.mint)
    ensures ReadFields(NumberFields(u, time) + mint) == Ok(Recovered(u, time)) <==> NumbersReadable(u, time)
  {
    LayoutReads(
      EvenHex(u.amount), Body(u.token), EvenHex(PrintedRandomization(u)), Body(u.stealth), EvenHex(time),
      EvenHex(if u.isNewStyle then 1 else 0), EvenHex(PrintedH0(u).x), EvenHex(PrintedH0(u).y), mint);
    NumberRoundTrip(u.amount);
    NumberRoundTrip(PrintedRandomization(u));
    NumberRoundTrip(time);
    NumberRoundTrip(if u.isNewStyle then 1 else 0);
    NumberRoundTrip(PrintedH0(u).x);
    NumberRoundTrip(PrintedH0(u).y);
    EnsureIsMarked(u.token);
    EnsureIsMarked(u.stealth);
    Assembled(u, time, Readable(u.amount), Readable(PrintedRandomization(u)), Readable(time),
      Readable(PrintedH0(u).x), Readable(PrintedH0(u).y));
  }

  lemma LayoutReads(
      a: string, b: string, c: string, d: string, e: string, f: string, g: string, h: string, mint: seq<string>)
    ensures var parts := Layout(a, b, c, d, e, f, g, h) + mint;
            ReadFields(parts) == Assemble(
              HexField(a), "0x" + b, HexField(c), "0x" + d, HexField(e), HexField(f), HexField(g), HexField(h),
              ReadMint(parts))
  {
  }

  /** Addresses read from any text are well-formed, so one that is not cannot come back. */
  lemma ReadAddresses(plain: string, token: string, stealth: string)
    requires var r := ReadFields(NonEmpty(Split(plain)));
             r.Ok? && r.value.token == Ensure0x(token) && r.value.stealth == Ensure0x(stealth)
    ensures Address(token) && Address(stealth)
  {
    var parts := NonEmpty(Split(plain));
    SplitRebuilds(plain);
    NonEmptyMembers(Split(plain));
    assert parts[1] in parts && parts[3] in parts;
    SameBody(token, parts[1]);
    SameBody(stealth, parts[3]);
  }

  lemma SameBody(s: string, part: string)
    requires Ensure0x(s) == "0x" + part
    ensures Body(s) == part
  {
    assert Ensure0x(s)[2..] == part;
    assert !HasPrefix(s, "0x") ==> ("0x" + s)[2..] == s;
  }

  /** Reading the printed text recovers the output exactly when its addresses and numbers are well-formed. */
  lemma PlaintextRoundTrip(u: PlainUtxo, time: int)
    ensures ReadFields(NonEmpty(Split(Marked(Fields(u, time))))) == Ok(Recovered(u, time)) <==> WellFormed(u, time)
    ensures Recovers(u, time, Recovered(u, time))
  {
    RecoveredRecovers(u, time);
    var plain := Marked(Fields(u, time));
    if Address(u.token) && Address(u.stealth) {
      var mint := PartsRead(u, time);
      NumbersRead(u, time, mint);
    } else if ReadFields(NonEmpty(Split(plain))) == Ok(Recovered(u, time)) {
      ReadAddresses(plain, u.token, u.stealth);
    }
  }

  /** The read output `r` in terms of the fields of the printed one. */
  predicate Recovers(u: PlainUtxo, time: int, r: PlainUtxo) {
    && r.amount == u.amount
    && r.token == (if HasPrefix(u.token, "0x") then u.token else "0x" + u.token)
    && r.randomization == (if u.randomization.Some? then u.randomization else Some(0))
    && r.stealth == (if HasPrefix(u.stealth, "0x") then u.stealth else "0x" + u.stealth)
    && ParseBigInt(r.timestamp) == Some(time)
    && r.isNewStyle == u.isNewStyle
    && r.h0 == (if !u.isNewStyle then None else if u.h0.Some? then u.h0 else Some(Point(0, 0)))
    && r.mint == (if u.mint.Some? && |u.mint.value| == 32 then u.mint else None)
  }

  lemma RecoveredRecovers(u: PlainUtxo, time: int)
    ensures Recovers(u, time, Recovered(u, time))
  {
    DecimalTextParses(time);
  }

  /** An amount of -16 is printed as 0x0-10, which no reader accepts. */
  lemma NegativeAmountIsLost() returns (u: PlainUtxo)
    ensures u.amount == -16 && Address(u.token) && Address(u.stealth)
    ensures ReadFields(NonEmpty(Split(Marked(Fields(u, 0))))) != Ok(Recovered(u, 0))
  {
    u := PlainUtxo(-16, "1", None, "2", "0", false, None, None);
    assert NatText(16, 16) == NatText(1, 16) + ['0'] && |NatText(1, 16)| == 1;
    assert !Readable(u.amount);
    assert Body(u.token) == "1" && Body(u.stealth) == "2";
    PlaintextRoundTrip(u, 0);
  }

  /** Reading a printed output recovers it, and fails or differs for every output that is not well-formed. */
  method Read(plain: string) returns (r: Result<PlainUtxo, PlainError>)
    ensures forall u, time :: plain == Marked(Fields(u, time)) ==>
      (r == Ok(Recovered(u, time)) <==> WellFormed(u, time))
    ensures forall u, time :: plain == Marked(Fields(u, time)) && WellFormed(u, time) ==>
      r.Ok? && Recovers(u, time, r.value)
    ensures r.Ok? ==> Address(r.value.token) && Address(r.value.stealth) && KeptMint(r.value.mint) == r.value.mint
    ensures forall fields :: plain == Marked(fields) && AreFields(fields) ==> r == ReadFields(fields)
  {
    var parts := SplitHexParts(plain);
    r := ReadFields(parts);
    forall u, time | plain == Marked(Fields(u, time))
      ensures r == Ok(Recovered(u, time)) <==> WellFormed(u, time)
      ensures Recovers(u, time, Recovered(u, time))
    {
      PlaintextRoundTrip(u, time);
      RecoveredRecovers(u, time);
    }
    forall fields | plain == Marked(fields) && AreFields(fields) ensures parts == fields {
      FieldsRoundTrip(fields);
      AllNonEmpty(fields);
    }
    if r.Ok? {
      ReadIsMarked(plain);
    }
  }

  lemma ReadIsMarked(plain: string)
    requires ReadFields(NonEmpty(Split(plain))).Ok?
    ensures var u := ReadFields(NonEmpty(Split(plain))).value;
            Address(u.token) && Address(u.stealth) && KeptMint(u.mint) == u.mint
  {
    var u := ReadFields(NonEmpty(Split(plain))).value;
    ReadAddresses(plain, u.token, u.stealth);
  }

  /** Printing and reading back, as the two ends of an encrypted output do it. */
  method PrintThenRead(u: PlainUtxo) returns (r: Result<PlainUtxo, PlainError>)
    ensures match ParseBigInt(u.timestamp)
            case None => r == Err(BadTimestamp)
            case Some(time) =>
              && (r == Ok(Recovered(u, time)) <==> WellFormed(u, time))
              && (WellFormed(u, time) ==> r.Ok? && Recovers(u, time, r.value))
  {
    var text := Print(u);
    if text.Err? {
      return Err(text.error);
    }
    r := Read(text.value);
  }

  /** For non-negative numbers and addresses of hexadecimal digits the text always reads back. */
  lemma HexAddressesRoundTrip(u: PlainUtxo, time: nat)
    requires u.amount >= 0 && PrintedRandomization(u) >= 0 && PrintedH0(u).x >= 0 && PrintedH0(u).y >= 0
    requires IsNumeral(Body(u.token), 16) && IsNumeral(Body(u.stealth), 16)
    ensures var r := ReadFields(NonEmpty(Split(Marked(Fields(u, time)))));
            r.Ok? && Recovers(u, time, r.value)
  {
    NumeralIsPlain(Body(u.token));
    NumeralIsPlain(Body(u.stealth));
    PlaintextRoundTrip(u, time);
  }
}
