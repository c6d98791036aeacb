/** Compacting swap instructions: account keys become indices into one shared table. */
module OkxInstructions {
  import opened Wrappers

  datatype AccountRef = AccountRef(pubkey: string, isWritable: bool)

  datatype OkxInstruction = OkxInstruction(programId: string, accounts: seq<AccountRef>, data: string)

  datatype AccountMeta = AccountMeta(key: string, isWritable: bool)

  datatype HinkalInstruction = HinkalInstruction(accountIndexes: seq<nat>, data: seq<nat>, programIndex: nat)

  datatype ConversionError = BadPublicKey(key: string) | BadData(data: string)

  const USE_CPI_SIGNER: nat := 255

  /** The conversion to a byte drops everything above the low eight bits. */
  function Byte(n: nat): nat {
    n % 256
  }

  /** Key syntax and base64 decoding are foreign code. */
  datatype Codec = Codec(isKey: string -> bool, decode: string -> Option<seq<nat>>)

  /* ---------------- the meaning of the result ---------------- */

  predicate NoDuplicates(table: seq<AccountMeta>) {
    forall i, j :: 0 <= i < j < |table| ==> table[i].key != table[j].key
  }

  /** The table only ever grows at its end. */
  predicate Extends(table: seq<AccountMeta>, before: seq<AccountMeta>) {
    |before| <= |table| && forall j :: 0 <= j < |before| ==> table[j].key == before[j].key
  }

  /** The index stands for the reference: the signer marker, or the low byte of its table position. */
  ghost predicate Denotes(table: seq<AccountMeta>, cpi: string, a: AccountRef, index: nat) {
    if a.pubkey == cpi then index == USE_CPI_SIGNER
    else exists j :: 0 <= j < |table| && table[j].key == a.pubkey && index == Byte(j)
  }

  ghost predicate AllDenote(table: seq<AccountMeta>, cpi: string, accounts: seq<AccountRef>, indexes: seq<nat>) {
    |indexes| == |accounts| && forall k :: 0 <= k < |accounts| ==> Denotes(table, cpi, accounts[k], indexes[k])
  }

  ghost predicate Converts(
      table: seq<AccountMeta>, cpi: string, codec: Codec, i: OkxInstruction, h: HinkalInstruction) {
    && AllDenote(table, cpi, i.accounts, h.accountIndexes)
    && codec.decode(i.data) == Some(h.data)
    && h.programIndex < |table| && table[h.programIndex].key == i.programId
  }

  /** All references to table accounts; those to the signer are not looked up. */
  function Refs(accounts: seq<AccountRef>, cpi: string): set<AccountRef> {
    set a | a in accounts && a.pubkey != cpi
  }

  /** The references and the keys, of accounts and programs, that the table has to serve. */
  datatype Needs = Needs(refs: set<AccountRef>, keys: set<string>) {
    function Plus(accounts: seq<AccountRef>, cpi: string): Needs {
      Needs(refs + Refs(accounts, cpi), keys + set a | a in Refs(accounts, cpi) :: a.pubkey)
    }

    function PlusKey(key: string): Needs {
      this.(keys := keys + {key})
    }
  }

  function NeedsOf(instructions: seq<OkxInstruction>, cpi: string): Needs {
    if instructions == [] then Needs({}, {})
    else
      var i := instructions[|instructions| - 1];
      NeedsOf(instructions[..|instructions| - 1], cpi).Plus(i.accounts, cpi).PlusKey(i.programId)
  }

  /** One entry per needed key and no other, writable exactly when one of the references to it is. */
  ghost predicate TableOk(table: seq<AccountMeta>, needs: Needs, codec: Codec) {
    && NoDuplicates(table)
    && (forall j :: 0 <= j < |table| ==> codec.isKey(table[j].key) && table[j].key in needs.keys)
    && (forall j :: 0 <= j < |table| ==> (table[j].isWritable <==> AccountRef(table[j].key, true) in needs.refs))
    && (forall k :: k in needs.keys ==> exists j :: 0 <= j < |table| && table[j].key == k)
    && (forall a :: a in needs.refs ==> a.pubkey in needs.keys)
  }

  predicate BadAccounts(accounts: seq<AccountRef>, cpi: string, codec: Codec) {
    exists a :: a in accounts && a.pubkey != cpi && !codec.isKey(a.pubkey)
  }

  predicate Bad(i: OkxInstruction, cpi: string, codec: Codec) {
    BadAccounts(i.accounts, cpi, codec) || codec.decode(i.data).None? || !codec.isKey(i.programId)
  }

  /** What is needed, read off the instructions: all references but the signer's, their keys and the programs. */
  lemma {:induction false} NeedsMembers(instructions: seq<OkxInstruction>, cpi: string)
    ensures forall a ::
      a in NeedsOf(instructions, cpi).refs <==> a.pubkey != cpi && exists i :: i in instructions && a in i.accounts
    ensures forall key :: key in NeedsOf(instructions, cpi).keys <==> Named(instructions, cpi, key)
  {
    if instructions != [] {
      var init, last := instructions[..|instructions| - 1], instructions[|instructions| - 1];
      NeedsMembers(init, cpi);
      assert instructions == init + [last];
      forall key ensures key in NeedsOf(instructions, cpi).keys <==> Named(instructions, cpi, key) {
        assert Named(instructions, cpi, key) <==> Named(init, cpi, key) || Names(last, cpi, key);
      }
    }
  }

  /** The key of a program, or of an account that is not the signer. */
  predicate Names(i: OkxInstruction, cpi: string, key: string) {
    i.programId == key || exists a :: a in i.accounts && a.pubkey == key && key != cpi
  }

  predicate Named(instructions: seq<OkxInstruction>, cpi: string, key: string) {
    exists i :: i in instructions && Names(i, cpi, key)
  }

  lemma DenotesExtends(table: seq<AccountMeta>, after: seq<AccountMeta>, cpi: string, a: AccountRef, index: nat)
    requires Denotes(table, cpi, a, index) && Extends(after, table)
    ensures Denotes(after, cpi, a, index)
  {
    if a.pubkey != cpi {
      var j :| 0 <= j < |table| && table[j].key == a.pubkey && index == Byte(j);
      assert after[j].key == a.pubkey;
    }
  }

  lemma ConvertsExtends(
      table: seq<AccountMeta>, after: seq<AccountMeta>, cpi: string, codec: Codec, i: OkxInstruction,
      h: HinkalInstruction)
    requires Converts(table, cpi, codec, i, h) && Extends(after, table)
    ensures Converts(after, cpi, codec, i, h)
  {
    forall k | 0 <= k < |i.accounts| ensures Denotes(after, cpi, i.accounts[k], h.accountIndexes[k]) {
      DenotesExtends(table, after, cpi, i.accounts[k], h.accountIndexes[k]);
    }
  }

  /* ---------------- the conversion ---------------- */

  method FindKey(table: seq<AccountMeta>, key: string) returns (found: int)
    ensures -1 <= found < |table|
    ensures found >= 0 ==> table[found].key == key
    ensures found < 0 ==> forall j :: 0 <= j < |table| ==> table[j].key != key
  {
    for j := 0 to |table|
      invariant forall k :: 0 <= k < j ==> table[k].key != key
    {
      if table[j].key == key {
        return j;
      }
    }
    found := -1;
  }

  /** One reference: reuse the entry of its key, merging the writable flag, or append a new one. */
  method AddAccount(table: seq<AccountMeta>, a: AccountRef, ghost needs: Needs, codec: Codec)
    returns (r: Result<seq<AccountMeta>, ConversionError>, position: nat)
    requires TableOk(table, needs, codec)
    ensures r.Err? <==> !codec.isKey(a.pubkey)
    ensures r.Ok? ==> && Extends(r.value, table)
                      && TableOk(r.value, Needs(needs.refs + {a}, needs.keys + {a.pubkey}), codec)
                      && position < |r.value| && r.value[position].key == a.pubkey
  {
    var found := FindKey(table, a.pubkey);
    position := 0;
    if found != -1 {
      var entry := table[found];
      var merged := if entry.isWritable != a.isWritable then entry.(isWritable := true) else entry;
      MergeKeeps(table, found, a, needs, codec);
      return Ok(table[found := merged]), found;
    }
    if !codec.isKey(a.pubkey) {
      return Err(BadPublicKey(a.pubkey)), 0;
    }
    AppendKeeps(table, AccountMeta(a.pubkey, a.isWritable), {a}, needs, codec);
    r, position := Ok(table + [AccountMeta(a.pubkey, a.isWritable)]), |table|;
  }

  lemma MergeKeeps(table: seq<AccountMeta>, found: nat, a: AccountRef, needs: Needs, codec: Codec)
    requires TableOk(table, needs, codec) && found < |table| && table[found].key == a.pubkey
    ensures var entry := table[found];
            var merged := if entry.isWritable != a.isWritable then entry.(isWritable := true) else entry;
            TableOk(table[found := merged], Needs(needs.refs + {a}, needs.keys + {a.pubkey}), codec)
  {
    var entry := table[found];
    var merged := if entry.isWritable != a.isWritable then entry.(isWritable := true) else entry;
    var table' := table[found := merged];
    assert needs.keys + {a.pubkey} == needs.keys;
    assert forall j :: 0 <= j < |table| ==> table'[j].key == table[j].key;
    forall k | k in needs.keys ensures exists j :: 0 <= j < |table'| && table'[j].key == k {
      var j :| 0 <= j < |table| && table[j].key == k;
      assert table'[j].key == k;
    }
  }

  lemma AppendKeeps(table: seq<AccountMeta>, entry: AccountMeta, more: set<AccountRef>, needs: Needs, codec: Codec)
    requires TableOk(table, needs, codec) && codec.isKey(entry.key)
    requires forall j :: 0 <= j < |table| ==> table[j].key != entry.key
    requires if entry.isWritable then more == {AccountRef(entry.key, true)} else more <= {AccountRef(entry.key, false)}
    ensures TableOk(table + [entry], Needs(needs.refs + more, needs.keys + {entry.key}), codec)
  {
    var table' := table + [entry];
    assert entry.key !in needs.keys;
    forall k | k in needs.keys + {entry.key} ensures exists j :: 0 <= j < |table'| && table'[j].key == k {
      if k in needs.keys {
        var j :| 0 <= j < |table| && table[j].key == k;
        assert table'[j].key == k;
      } else {
        assert table'[|table|].key == k;
      }
    }
  }

  method ConvertAccounts(
      table: seq<AccountMeta>, accounts: seq<AccountRef>, cpi: string, ghost needs: Needs, codec: Codec)
    returns (r: Result<seq<AccountMeta>, ConversionError>, indexes: seq<nat>)
    requires TableOk(table, needs, codec)
    ensures r.Err? <==> exists a :: a in accounts && a.pubkey != cpi && !codec.isKey(a.pubkey)
    ensures r.Ok? ==> && Extends(r.value, table) && TableOk(r.value, needs.Plus(accounts, cpi), codec)
                      && AllDenote(r.value, cpi, accounts, indexes)
  {
    var now := table;
    indexes := [];
    assert needs.Plus([], cpi) == needs;
    for k := 0 to |accounts|
      invariant Extends(now, table) && TableOk(now, needs.Plus(accounts[..k], cpi), codec)
      invariant AllDenote(now, cpi, accounts[..k], indexes)
      invariant !BadAccounts(accounts[..k], cpi, codec)
    {
      var a := accounts[k];
      assert accounts[..k + 1] == accounts[..k] + [a];
      NeedsOneMore(needs, accounts[..k], a, cpi);
      if a.pubkey == cpi {
        indexes := indexes + [USE_CPI_SIGNER];
        continue;
      }
      var added, position := AddAccount(now, a, needs.Plus(accounts[..k], cpi), codec);
      if added.Err? {
        assert a in accounts;
        return added, [];
      }
      DenoteOneMore(now, added.value, cpi, accounts[..k], indexes, a, position);
      now := added.value;
      indexes := indexes + [Byte(position)];
    }
    assert accounts[..|accounts|] == accounts;
    r := Ok(now);
  }

  lemma NeedsOneMore(needs: Needs, accounts: seq<AccountRef>, a: AccountRef, cpi: string)
    ensures var before := needs.Plus(accounts, cpi);
            needs.Plus(accounts + [a], cpi)
            == if a.pubkey == cpi then before else Needs(before.refs + {a}, before.keys + {a.pubkey})
  {
    assert Refs(accounts + [a], cpi) == if a.pubkey == cpi then Refs(accounts, cpi) else Refs(accounts, cpi) + {a};
  }

  lemma DenoteOneMore(
      table: seq<AccountMeta>, after: seq<AccountMeta>, cpi: string, accounts: seq<AccountRef>,
      indexes: seq<nat>, a: AccountRef, position: nat)
    requires AllDenote(table, cpi, accounts, indexes) && Extends(after, table)
    requires a.pubkey != cpi && position < |after| && after[position].key == a.pubkey
    ensures AllDenote(after, cpi, accounts + [a], indexes + [Byte(position)])
  {
    forall k | 0 <= k < |accounts| ensures Denotes(after, cpi, accounts[k], indexes[k]) {
      DenotesExtends(table, after, cpi, accounts[k], indexes[k]);
    }
    assert Denotes(after, cpi, a, Byte(position));
  }

  method AddProgram(table: seq<AccountMeta>, programId: string, ghost needs: Needs, codec: Codec)
    returns (r: Result<seq<AccountMeta>, ConversionError>, position: nat)
    requires TableOk(table, needs, codec)
    ensures r.Err? <==> !codec.isKey(programId)
    ensures r.Ok? ==> && Extends(r.value, table) && TableOk(r.value, needs.PlusKey(programId), codec)
                      && position < |r.value| && r.value[position].key == programId
  {
    var found := FindKey(table, programId);
    if found != -1 {
      assert needs.keys + {programId} == needs.keys;
      return Ok(table), found;
    }
    if !codec.isKey(programId) {
      return Err(BadPublicKey(programId)), 0;
    }
    AppendKeeps(table, AccountMeta(programId, false), {}, needs, codec);
    assert needs.refs + {} == needs.refs;
    r, position := Ok(table + [AccountMeta(programId, false)]), |table|;
  }

  datatype Converted = Converted(instructions: seq<HinkalInstruction>, table: seq<AccountMeta>)

  method ConvertOne(table: seq<AccountMeta>, i: OkxInstruction, cpi: string, ghost needs: Needs, codec: Codec)
    returns (r: Result<Converted, ConversionError>)
    requires TableOk(table, needs, codec)
    ensures r.Err? <==>
            || (exists a :: a in i.accounts && a.pubkey != cpi && !codec.isKey(a.pubkey))
            || codec.decode(i.data).None? || !codec.isKey(i.programId)
    ensures r.Ok? ==> && Extends(r.value.table, table)
                      && TableOk(r.value.table, needs.Plus(i.accounts, cpi).PlusKey(i.programId), codec)
                      && |r.value.instructions| == 1 && Converts(r.value.table, cpi, codec, i, r.value.instructions[0])
  {
    var accounts, indexes := ConvertAccounts(table, i.accounts, cpi, needs, codec);
    if accounts.Err? {
      return Err(accounts.error);
    }
    var data := codec.decode(i.data);
    if data.None? {
      return Err(BadData(i.data));
    }
    var program, position := AddProgram(accounts.value, i.programId, needs.Plus(i.accounts, cpi), codec);
    if program.Err? {
      return Err(program.error);
    }
    forall k | 0 <= k < |i.accounts| ensures Denotes(program.value, cpi, i.accounts[k], indexes[k]) {
      DenotesExtends(accounts.value, program.value, cpi, i.accounts[k], indexes[k]);
    }
    r := Ok(Converted([HinkalInstruction(indexes, data.value, position)], program.value));
  }

  ghost predicate AllConvert(
      table: seq<AccountMeta>, cpi: string, codec: Codec, from: seq<OkxInstruction>, out: seq<HinkalInstruction>) {
    |out| == |from| && forall n :: 0 <= n < |from| ==> Converts(table, cpi, codec, from[n], out[n])
  }

  lemma ConvertOneMore(
      table: seq<AccountMeta>, after: seq<AccountMeta>, cpi: string, codec: Codec,
      from: seq<OkxInstruction>, out: seq<HinkalInstruction>, i: OkxInstruction, more: seq<HinkalInstruction>)
    requires AllConvert(table, cpi, codec, from, out) && Extends(after, table)
    requires |more| == 1 && Converts(after, cpi, codec, i, more[0])
    ensures AllConvert(after, cpi, codec, from + [i], out + more)
  {
    forall m | 0 <= m < |from| ensures Converts(after, cpi, codec, from[m], out[m]) {
      ConvertsExtends(table, after, cpi, codec, from[m], out[m]);
    }
  }

  /** The table of a conversion in terms of the instructions. */
  lemma TableServes(table: seq<AccountMeta>, instructions: seq<OkxInstruction>, cpi: string, codec: Codec)
    requires TableOk(table, NeedsOf(instructions, cpi), codec)
    ensures forall key ::
      Named(instructions, cpi, key) <==> exists j :: 0 <= j < |table| && table[j].key == key
    ensures forall j :: 0 <= j < |table| ==>
      var key := table[j].key;
      table[j].isWritable <==>
      key != cpi && exists i :: i in instructions && AccountRef(key, true) in i.accounts
  {
    NeedsMembers(instructions, cpi);
  }

  method Convert(
      instructions: seq<OkxInstruction>, cpi: string, codec: Codec)
    returns (r: Result<Converted, ConversionError>)
    ensures r.Err? <==> exists i :: i in instructions && Bad(i, cpi, codec)
    ensures r.Ok? ==> forall k, j :: 0 <= k < j < |r.value.table| ==> r.value.table[k].key != r.value.table[j].key
    ensures r.Ok? ==> forall key ::
      Named(instructions, cpi, key) <==> exists j :: 0 <= j < |r.value.table| && r.value.table[j].key == key
    ensures r.Ok? ==> forall j :: 0 <= j < |r.value.table| ==>
      var key := r.value.table[j].key;
      r.value.table[j].isWritable <==>
      key != cpi && exists i :: i in instructions && AccountRef(key, true) in i.accounts
    ensures r.Ok? ==> && TableOk(r.value.table, NeedsOf(instructions, cpi), codec)
                      && AllConvert(r.value.table, cpi, codec, instructions, r.value.instructions)
  {
    var table: seq<AccountMeta> := [];
    var out: seq<HinkalInstruction> := [];
    for n := 0 to |instructions|
      invariant TableOk(table, NeedsOf(instructions[..n], cpi), codec)
      invariant AllConvert(table, cpi, codec, instructions[..n], out)
      invariant forall i :: i in instructions[..n] ==> !Bad(i, cpi, codec)
    {
      var i := instructions[n];
      assert instructions[..n + 1] == instructions[..n] + [i];
      assert instructions[..n + 1][..n] == instructions[..n];
      var one := ConvertOne(table, i, cpi, NeedsOf(instructions[..n], cpi), codec);
      if one.Err? {
        assert i in instructions;
        return Err(one.error);
      }
      ConvertOneMore(table, one.value.table, cpi, codec, instructions[..n], out, i, one.value.instructions);
      table, out := one.value.table, out + one.value.instructions;
    }
    assert instructions[..|instructions|] == instructions;
    TableServes(table, instructions, cpi, codec);
    r := Ok(Converted(out, table));
  }

  /* ---------------- resolving the indices back ---------------- */

  function Resolve(table: seq<AccountMeta>, cpi: string, index: nat): Option<string> {
    if index == USE_CPI_SIGNER then Some(cpi)
    else if index < |table| then Some(table[index].key)
    else None
  }

  /**
   An account index resolves to its original key exactly when that key is the signer's or sits among
   the first 255 entries; later positions collide with the signer marker or wrap around.
   */
  lemma ResolvesExactlyBelow255(table: seq<AccountMeta>, cpi: string, a: AccountRef, index: nat, position: nat)
    requires NoDuplicates(table) && Denotes(table, cpi, a, index)
    requires position < |table| && table[position].key == a.pubkey && a.pubkey != cpi
    ensures Resolve(table, cpi, index) == Some(a.pubkey) <==> position < 255
    ensures position < 256 ==> index == position
  {
    var j :| 0 <= j < |table| && table[j].key == a.pubkey && index == Byte(j);
    assert j == position;
    if position > USE_CPI_SIGNER && index != USE_CPI_SIGNER {
      assert index < position;
      assert table[index].key != table[position].key;
    }
  }

  /** With 256 keys the last one gets the signer's marker and is resolved to the signer. */
  lemma LateAccountIsMisread() returns (table: seq<AccountMeta>, cpi: string, a: AccountRef, index: nat)
    ensures NoDuplicates(table) && |table| == 256 && table[255].key == a.pubkey != cpi
    ensures Denotes(table, cpi, a, index) && Resolve(table, cpi, index) == Some(cpi)
  {
    table := seq(256, i requires 0 <= i < 256 => AccountMeta(seq(i, _ => 'a'), false));
    assert forall i :: 0 <= i < 256 ==> |table[i].key| == i;
    cpi, a, index := "b", AccountRef(table[255].key, false), 255;
    assert index == Byte(255) && |cpi| == 1;
  }

  function KeysOf(table: seq<AccountMeta>): set<string> {
    if table == [] then {} else KeysOf(table[..|table| - 1]) + {table[|table| - 1].key}
  }

  lemma {:induction false} KeysOfMembers(table: seq<AccountMeta>)
    ensures forall k :: k in KeysOf(table) <==> exists j :: 0 <= j < |table| && table[j].key == k
  {
    if table != [] {
      var init := table[..|table| - 1];
      KeysOfMembers(init);
      assert forall j :: 0 <= j < |init| ==> table[j] == init[j];
    }
  }

  lemma {:induction false} KeysOfSize(table: seq<AccountMeta>)
    requires NoDuplicates(table)
    ensures |KeysOf(table)| == |table|
  {
    if table != [] {
      var init := table[..|table| - 1];
      KeysOfSize(init);
      KeysOfMembers(init);
      assert table[|table| - 1].key !in KeysOf(init);
    }
  }

  /** The table has as many entries as there are different keys in the input. */
  lemma TableSize(table: seq<AccountMeta>, needs: Needs, codec: Codec)
    requires TableOk(table, needs, codec)
    ensures |table| == |needs.keys|
  {
    KeysOfMembers(table);
    KeysOfSize(table);
    assert KeysOf(table) == needs.keys;
  }

  /**
   If the input names at most 255 different keys, every account index of every instruction resolves
   to its original key and every program index to its program.
   */
  lemma FewKeysPreserveMeaning(
      r: Converted, cpi: string, codec: Codec, instructions: seq<OkxInstruction>, n: nat, k: nat)
    requires TableOk(r.table, NeedsOf(instructions, cpi), codec)
    requires AllConvert(r.table, cpi, codec, instructions, r.instructions)
    requires |NeedsOf(instructions, cpi).keys| <= 255 && n < |instructions| && k < |instructions[n].accounts|
    ensures Converts(r.table, cpi, codec, instructions[n], r.instructions[n])
    ensures Resolve(r.table, cpi, r.instructions[n].accountIndexes[k]) == Some(instructions[n].accounts[k].pubkey)
    ensures r.table[r.instructions[n].programIndex].key == instructions[n].programId
  {
    var a, index := instructions[n].accounts[k], r.instructions[n].accountIndexes[k];
    TableSize(r.table, NeedsOf(instructions, cpi), codec);
    assert Converts(r.table, cpi, codec, instructions[n], r.instructions[n]);
    assert Denotes(r.table, cpi, a, index);
    if a.pubkey != cpi {
      var j :| 0 <= j < |r.table| && r.table[j].key == a.pubkey && index == Byte(j);
      ResolvesExactlyBelow255(r.table, cpi, a, index, j);
    }
  }
}
