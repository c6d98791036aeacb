/** Positional numerals as the big-integer library prints and reads them. */
module Numerals {
  import opened Wrappers

  const DIGITS: string := "0123456789abcdef"

  predicate IsBase(base: nat) {
    base == 10 || base == 16
  }

  function DigitChar(d: nat): char
    requires d < 16
  {
    DIGITS[d]
  }

  /** Upper and lower case letters are both read. */
  function DigitValue(c: char): nat {
    if '0' <= c <= '9' then c as nat - '0' as nat
    else if 'a' <= c <= 'f' then c as nat - 'a' as nat + 10
    else if 'A' <= c <= 'F' then c as nat - 'A' as nat + 10
    else 16
  }

  predicate IsNumeral(s: string, base: nat) {
    s != [] && forall i :: 0 <= i < |s| ==> DigitValue(s[i]) < base
  }

  function NatText(n: nat, base: nat): string
    requires IsBase(base)
  {
    if n < base then [DigitChar(n)] else NatText(n / base, base) + [DigitChar(n % base)]
  }

  function NatValue(s: string, base: nat): nat {
    if s == [] then 0 else NatValue(s[..|s| - 1], base) * base + DigitValue(s[|s| - 1])
  }

  function Text(n: int, base: nat): string
    requires IsBase(base)
  {
    if n < 0 then "-" + NatText(-n, base) else NatText(n, base)
  }

  /** An optional sign, then at least one digit and nothing else. */
  function ParseInt(s: string, base: nat): Option<int> {
    if s != [] && s[0] == '-' then Signed(s[1..], base, -1)
    else if s != [] && s[0] == '+' then Signed(s[1..], base, 1)
    else Signed(s, base, 1)
  }

  function Signed(s: string, base: nat, sign: int): Option<int> {
    if IsNumeral(s, base) then Some(sign * NatValue(s, base)) else None
  }

  lemma DigitRoundTrip(d: nat)
    requires d < 16
    ensures DigitValue(DigitChar(d)) == d
    ensures DigitChar(d) != 'x' && DigitChar(d) != '-' && DigitChar(d) != '.' && DigitChar(d) > ' '
  {
    if d < 10 {
      assert DigitChar(d) == ('0' as nat + d) as char;
    } else {
      assert DigitChar(d) == ('a' as nat + d - 10) as char;
    }
  }

  /** The sixteen digits, letters in either case; nothing else is one. */
  lemma DigitValues(c: char, d: nat)
    requires d < 16
    ensures DigitValue(c) == d <==> c == "0123456789abcdef"[d] || c == "0123456789ABCDEF"[d]
  {
    if d >= 10 {
      assert "0123456789abcdef"[d] == ('a' as nat + d - 10) as char;
      assert "0123456789ABCDEF"[d] == ('A' as nat + d - 10) as char;
    } else {
      assert "0123456789abcdef"[d] == "0123456789ABCDEF"[d] == ('0' as nat + d) as char;
    }
  }

  /** One sign in front is read, and no second one. */
  lemma SignsParse(s: string, base: nat)
    requires base <= 16
    ensures ParseInt("+" + s, base).Some? <==> IsNumeral(s, base)
    ensures ParseInt("-" + s, base).Some? <==> IsNumeral(s, base)
    ensures IsNumeral(s, base) ==> ParseInt("+" + s, base).value == NatValue(s, base)
    ensures IsNumeral(s, base) ==> ParseInt("-" + s, base).value == 0 - NatValue(s, base)
    ensures ParseInt(s, base).Some? ==>
      IsNumeral(s, base) || (s[0] == '-' && IsNumeral(s[1..], base)) || (s[0] == '+' && IsNumeral(s[1..], base))
  {
    assert ("+" + s)[1..] == s && ("-" + s)[1..] == s;
  }

  /** Characters that can occur in a numeral. */
  predicate PlainDigits(s: string) {
    forall i :: 0 <= i < |s| ==> s[i] != 'x' && s[i] != '-' && s[i] != '+' && s[i] != '.' && s[i] > ' '
  }

  lemma NumeralIsPlain(s: string)
    requires IsNumeral(s, 16) || IsNumeral(s, 10)
    ensures PlainDigits(s)
  {
  }

  lemma {:induction false} TextRoundTrip(n: nat, base: nat)
    requires IsBase(base)
    ensures IsNumeral(NatText(n, base), base)
    ensures NatValue(NatText(n, base), base) == n
  {
    if n < base {
      DigitRoundTrip(n);
      assert NatText(n, base)[..0] == [];
    } else {
      TextRoundTrip(n / base, base);
      DigitRoundTrip(n % base);
      var t := NatText(n / base, base);
      assert NatText(n, base)[..|t|] == t;
    }
  }

  function Zeros(k: nat): (z: string)
    ensures |z| == k && forall i :: 0 <= i < k ==> z[i] == '0'
  {
    seq(k, _ => '0')
  }

  function Pow(b: nat, k: nat): nat {
    if k == 0 then 1 else b * Pow(b, k - 1)
  }

  /** Leading zeros add nothing. */
  lemma {:induction false} LeadingZeros(k: nat, s: string, base: nat)
    ensures NatValue(Zeros(k) + s, base) == NatValue(s, base)
    decreases |s|, k
  {
    if s == [] {
      assert Zeros(k) + s == Zeros(k);
      if k > 0 {
        assert Zeros(k)[..k - 1] == Zeros(k - 1) + [];
        LeadingZeros(k - 1, [], base);
      }
    } else {
      LeadingZeros(k, s[..|s| - 1], base);
      assert (Zeros(k) + s)[..k + |s| - 1] == Zeros(k) + s[..|s| - 1];
    }
  }

  /** Trailing zeros multiply by a power of the base. */
  lemma {:induction false} TrailingZeros(s: string, k: nat, base: nat)
    ensures NatValue(s + Zeros(k), base) == NatValue(s, base) * Pow(base, k)
  {
    if k == 0 {
      assert s + Zeros(0) == s;
    } else {
      TrailingZeros(s, k - 1, base);
      assert (s + Zeros(k))[..|s| + k - 1] == s + Zeros(k - 1);
      assert NatValue(s + Zeros(k), base) == NatValue(s + Zeros(k - 1), base) * base;
      TimesAssoc(NatValue(s, base), Pow(base, k - 1), base);
    }
  }

  lemma TimesAssoc(a: nat, b: nat, c: nat)
    ensures a * b * c == a * (c * b)
  {
  }

  /* ---------------- trimming ---------------- */

  predicate IsSpace(c: char) {
    c == ' ' || c == '\t' || c == '\n' || c == '\r' || c == 11 as char || c == 12 as char
  }

  lemma SpacesAre(c: char)
    ensures IsSpace(c) <==> c in " \t\n\r\U{0B}\U{0C}"
  {
    assert '\U{0B}' as nat == 11 && '\U{0C}' as nat == 12;
  }

  function TrimLeft(s: string): string {
    if s != [] && IsSpace(s[0]) then TrimLeft(s[1..]) else s
  }

  function TrimRight(s: string): string {
    if s != [] && IsSpace(s[|s| - 1]) then TrimRight(s[..|s| - 1]) else s
  }

  function TrimSpace(s: string): string {
    TrimRight(TrimLeft(s))
  }

  /* ---------------- hexadecimal integers ---------------- */

  predicate HasPrefix(s: string, p: string) {
    |p| <= |s| && s[..|p|] == p
  }

  /** Hexadecimal with the 0x prefix, else decimal. */
  function ParseBigInt(text: string): Option<int> {
    var s := TrimSpace(text);
    if (HasPrefix(s, "0x") || HasPrefix(s, "0X")) && ParseInt(s[2..], 16).Some? then ParseInt(s[2..], 16)
    else ParseInt(s, 10)
  }

  function Evened(s: string): string {
    if |s| % 2 == 1 then "0" + s else s
  }

  function EvenHex(n: int): string {
    Evened(Text(n, 16))
  }

  function ToBeHex(n: int): string {
    "0x" + EvenHex(n)
  }

  /** The printed form has an even number of characters. */
  lemma EvenHexIsEven(n: int)
    ensures |EvenHex(n)| % 2 == 0
  {
    EvenedIsEven(Text(n, 16));
  }

  lemma EvenedIsEven(s: string)
    ensures |Evened(s)| % 2 == 0
  {
  }

  lemma EvenHexRoundTrip(n: nat)
    ensures IsNumeral(EvenHex(n), 16) && NatValue(EvenHex(n), 16) == n && PlainDigits(EvenHex(n))
  {
    var s := NatText(n, 16);
    TextRoundTrip(n, 16);
    if |s| % 2 == 1 {
      assert "0" + s == Zeros(1) + s;
      LeadingZeros(1, s, 16);
      assert DigitValue('0') == 0;
    }
    NumeralIsPlain(EvenHex(n));
  }

  /** The printed form reads back as the same number. */
  lemma HexRoundTrip(n: nat)
    ensures ParseBigInt(ToBeHex(n)) == Some(n)
  {
    EvenHexRoundTrip(n);
    PrefixedHexParses(EvenHex(n));
  }

  lemma CapitalPrefixParses(h: string)
    requires IsNumeral(h, 16)
    ensures ParseBigInt("0X" + h) == Some(NatValue(h, 16))
  {
    NumeralIsPlain(h);
    var s := "0X" + h;
    assert TrimSpace(s) == s;
    assert s[2..] == h && s[..2] == "0X";
  }

  /** Trimming takes white space off both ends and leaves none there. */
  lemma TrimSpaceIs(s: string) returns (before: string, after: string)
    ensures s == before + TrimSpace(s) + after
    ensures forall c :: c in before || c in after ==> IsSpace(c)
    ensures var t := TrimSpace(s); t != [] ==> !IsSpace(t[0]) && !IsSpace(t[|t| - 1])
  {
    before := TrimLeftIs(s);
    after := TrimRightIs(TrimLeft(s));
    assert s == before + (TrimSpace(s) + after);
  }

  lemma {:induction false} TrimLeftIs(s: string) returns (before: string)
    ensures s == before + TrimLeft(s) && forall c :: c in before ==> IsSpace(c)
    ensures TrimLeft(s) != [] ==> !IsSpace(TrimLeft(s)[0])
  {
    if s != [] && IsSpace(s[0]) {
      before := TrimLeftIs(s[1..]);
      before := [s[0]] + before;
    } else {
      before := [];
    }
  }

  lemma {:induction false} TrimRightIs(s: string) returns (after: string)
    ensures s == TrimRight(s) + after && forall c :: c in after ==> IsSpace(c)
    ensures TrimRight(s) != [] ==> !IsSpace(TrimRight(s)[|TrimRight(s)| - 1]) && TrimRight(s)[0] == s[0]
  {
    if s != [] && IsSpace(s[|s| - 1]) {
      after := TrimRightIs(s[..|s| - 1]);
      assert s == s[..|s| - 1] + [s[|s| - 1]];
      after := after + [s[|s| - 1]];
    } else {
      after := [];
    }
  }

  /** A prefixed hexadecimal numeral is read as its value. */
  lemma PrefixedHexParses(h: string)
    requires IsNumeral(h, 16)
    ensures ParseBigInt("0x" + h) == Some(NatValue(h, 16))
  {
    NumeralIsPlain(h);
    var s := "0x" + h;
    assert TrimSpace(s) == s;
    assert s[2..] == h && s[..2] == "0x";
  }

  /** A decimal numeral is read as its value. */
  lemma DecimalParses(s: string)
    requires IsNumeral(s, 10)
    ensures ParseBigInt(s) == Some(NatValue(s, 10))
  {
    NumeralIsPlain(s);
    assert TrimSpace(s) == s;
    assert |s| >= 2 ==> DigitValue(s[1]) < 10 && DigitValue('x') == DigitValue('X') == 16;
    assert |s| >= 2 ==> s[..2][1] == s[1];
  }

  /** The decimal text of any integer is read as that integer. */
  lemma DecimalTextParses(n: int)
    ensures ParseBigInt(Text(n, 10)) == Some(n)
  {
    TextRoundTrip(if n < 0 then -n else n, 10);
    if n < 0 {
      NegativeParses(NatText(-n, 10), n);
    } else {
      DecimalParses(NatText(n, 10));
    }
  }

  lemma NegativeParses(digits: string, n: int)
    requires n < 0 && IsNumeral(digits, 10) && NatValue(digits, 10) == -n
    ensures ParseBigInt("-" + digits) == Some(n)
  {
    NumeralIsPlain(digits);
    var s := "-" + digits;
    assert TrimSpace(s) == s;
    assert s[..1] == "-" && s[1..] == digits && (|s| >= 2 ==> s[..2][0] == '-');
  }
}
