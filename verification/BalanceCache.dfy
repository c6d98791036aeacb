/** Reading a user's outputs: incremental decryption over a cache, against a full scan. */
module BalanceCache {
  import opened Wrappers
  import opened Utxos
  import opened Commitments
  import opened Subsequences

  /** Decryption with the user's keys: it fails on outputs that belong to others. */
  type Decoder = Output -> Option<Utxo>

  /** Computing a nullifier may fail. */
  type Nullifying = Utxo -> Option<string>

  datatype Cache = Cache(encrypted: seq<Output>, lastOutput: string)

  const EMPTY_CACHE: Cache := Cache([], "")

  /* ---------------- what a full scan gives ---------------- */

  function Owned(outputs: seq<Output>, decode: Decoder): seq<Output> {
    if outputs == [] then []
    else if decode(outputs[|outputs| - 1]).Some? then Owned(outputs[..|outputs| - 1], decode) + [outputs[|outputs| - 1]]
    else Owned(outputs[..|outputs| - 1], decode)
  }

  function Decoded(outputs: seq<Output>, decode: Decoder): seq<Utxo> {
    if outputs == [] then []
    else
      var out, rest := outputs[|outputs| - 1], Decoded(outputs[..|outputs| - 1], decode);
      if decode(out).Some? then rest + [decode(out).value.(isBlocked := out.isBlocked)] else rest
  }

  lemma {:induction false} OwnedConcat(a: seq<Output>, b: seq<Output>, decode: Decoder)
    ensures Owned(a + b, decode) == Owned(a, decode) + Owned(b, decode)
  {
    if b == [] {
      assert a + b == a;
    } else {
      OwnedConcat(a, b[..|b| - 1], decode);
      assert (a + b)[..|a + b| - 1] == a + b[..|b| - 1];
    }
  }

  /** Decrypting the owned outputs is decrypting all of them. */
  lemma {:induction false} DecodedOwned(outputs: seq<Output>, decode: Decoder)
    ensures Decoded(Owned(outputs, decode), decode) == Decoded(outputs, decode)
  {
    if outputs != [] {
      var init, out := outputs[..|outputs| - 1], outputs[|outputs| - 1];
      DecodedOwned(init, decode);
      if decode(out).Some? {
        assert (Owned(init, decode) + [out])[..|Owned(init, decode)|] == Owned(init, decode);
      }
    }
  }

  /** The owned outputs are those that decrypt, in order. */
  lemma {:induction false} OwnedKeeps(outputs: seq<Output>, decode: Decoder)
    ensures Keeps(Owned(outputs, decode), outputs, (o: Output) => decode(o).Some?)
  {
    var test := (o: Output) => decode(o).Some?;
    if outputs == [] {
      KeepsNothing(test);
    } else {
      var init, o := outputs[..|outputs| - 1], outputs[|outputs| - 1];
      OwnedKeeps(init, decode);
      KeepsAppend(Owned(init, decode), init, test, o, Owned(outputs, decode), outputs);
    }
  }

  /** Decryption gives one entry per owned output, with the blocked flag of the list. */
  lemma {:induction false} DecodedEntries(outputs: seq<Output>, decode: Decoder)
    ensures |Decoded(outputs, decode)| == |Owned(outputs, decode)|
    ensures forall k :: 0 <= k < |Owned(outputs, decode)| ==>
      var o := Owned(outputs, decode)[k];
      decode(o).Some? && Decoded(outputs, decode)[k] == decode(o).value.(isBlocked := o.isBlocked)
  {
    if outputs != [] {
      DecodedEntries(outputs[..|outputs| - 1], decode);
    }
  }

  /* ---------------- the chunked parallel filter ---------------- */

  const PARALLEL_THRESHOLD: nat := 256

  datatype Worker = Worker(next: nat, end: nat)

  /** The workers' ranges lie end to end and fill 0..n. */
  ghost predicate Tiled(workers: seq<Worker>, n: nat) {
    && workers != [] && workers[|workers| - 1].end == n
    && (forall w :: 0 <= w < |workers| ==> workers[w].next <= workers[w].end)
    && workers[0].next == 0
    && (forall v, w :: 0 <= v < w < |workers| && w == v + 1 ==> workers[v].end == workers[w].next)
  }

  /** Every position up to the end of worker `last` belongs to a worker. */
  lemma {:induction false} WorkerOf(workers: seq<Worker>, n: nat, i: nat, last: nat) returns (w: nat)
    requires Tiled(workers, n) && last < |workers| && i < workers[last].end
    ensures w < |workers| && workers[w].next <= i < workers[w].end
    decreases last
  {
    if workers[last].next <= i {
      w := last;
    } else {
      assert workers[last - 1].end == workers[last].next;
      w := WorkerOf(workers, n, i, last - 1);
    }
  }

  lemma {:induction false} TiledWithin(workers: seq<Worker>, n: nat, w: nat)
    requires Tiled(workers, n) && w < |workers|
    ensures workers[w].end <= n
    decreases |workers| - w
  {
    if w < |workers| - 1 {
      assert workers[w].end == workers[w + 1].next;
      TiledWithin(workers, n, w + 1);
    }
  }

  /** Chunks of ceil(n / workers) each, the last ones shorter or missing. */
  method CutChunks(n: nat, cpus: nat) returns (workers: seq<Worker>)
    requires n >= 1 && cpus >= 1
    ensures Tiled(workers, n)
  {
    var count := if cpus > n then n else cpus;
    var chunk := (n + count - 1) / count;
    ChunksCover(n, count, chunk);
    workers := [];
    var start := 0;
    for w := 0 to count
      invariant |workers| == w && start == w * chunk
      invariant w > 0 ==> Tiled(workers, if start < n then start else n)
    {
      if start >= n {
        break;
      }
      TiledGrows(workers, start, if start + chunk > n then n else start + chunk);
      workers := workers + [Worker(start, if start + chunk > n then n else start + chunk)];
      start := start + chunk;
      assert start == (w + 1) * chunk;
    }
  }

  lemma TiledGrows(workers: seq<Worker>, start: nat, end: nat)
    requires (workers == [] && start == 0) || Tiled(workers, start)
    requires start <= end
    ensures Tiled(workers + [Worker(start, end)], end)
  {
  }

  lemma ChunksCover(n: nat, count: nat, chunk: nat)
    requires count >= 1 && n >= 1 && chunk == (n + count - 1) / count
    ensures chunk >= 1 && count * chunk >= n
  {
  }

  /** The workers run in any interleaving, one position at a time; `:|` stands for the scheduler. */
  method RunWorkers(outputs: seq<Output>, decode: Decoder, started: seq<Worker>, flags: array<bool>)
    requires flags.Length == |outputs| && forall i :: 0 <= i < flags.Length ==> !flags[i]
    requires Tiled(started, |outputs|)
    modifies flags
    ensures forall i :: 0 <= i < flags.Length ==> flags[i] == decode(outputs[i]).Some?
  {
    var workers := started;
    forall w | 0 <= w < |started| ensures started[w].end <= |outputs| {
      TiledWithin(started, |outputs|, w);
    }
    while exists w :: 0 <= w < |workers| && workers[w].next < workers[w].end
      invariant Progress(outputs, decode, started, workers, flags[..])
      decreases Left(workers)
    {
      var w :| 0 <= w < |workers| && workers[w].next < workers[w].end;
      ghost var before := flags[..];
      var i := workers[w].next;
      if decode(outputs[i]).Some? {
        flags[i] := true;
      }
      assert flags[..] == if decode(outputs[i]).Some? then before[i := true] else before;
      StepProgress(outputs, decode, started, workers, before, w);
      LeftShrinks(workers, w);
      workers := workers[w := Worker(i + 1, workers[w].end)];
    }
    forall i | 0 <= i < flags.Length ensures flags[i] == decode(outputs[i]).Some? {
      var w := WorkerOf(started, |outputs|, i, |started| - 1);
      assert Scanned(outputs, decode, flags[..], started[w].next, workers[w].next);
    }
  }

  /** Each worker has flagged what it has passed, and nothing unowned is flagged. */
  ghost predicate Progress(
      outputs: seq<Output>, decode: Decoder, started: seq<Worker>, workers: seq<Worker>, flags: seq<bool>) {
    && |flags| == |outputs| && |workers| == |started|
    && (forall w :: 0 <= w < |workers| ==>
          && started[w].next <= workers[w].next <= workers[w].end == started[w].end <= |outputs|
          && Scanned(outputs, decode, flags, started[w].next, workers[w].next))
    && (forall i :: 0 <= i < |flags| && flags[i] ==> decode(outputs[i]).Some?)
  }

  lemma StepProgress(
      outputs: seq<Output>, decode: Decoder, started: seq<Worker>, workers: seq<Worker>, flags: seq<bool>,
      w: nat)
    requires Progress(outputs, decode, started, workers, flags)
    requires w < |workers| && workers[w].next < workers[w].end
    ensures var i := workers[w].next;
            Progress(outputs, decode, started, workers[w := Worker(i + 1, workers[w].end)],
                     if decode(outputs[i]).Some? then flags[i := true] else flags)
  {
    var i := workers[w].next;
    var flags' := if decode(outputs[i]).Some? then flags[i := true] else flags;
    forall v | 0 <= v < |workers| ensures Scanned(outputs, decode, flags', started[v].next, workers[v].next) {
      assert Scanned(outputs, decode, flags, started[v].next, workers[v].next);
    }
  }

  ghost predicate Scanned(outputs: seq<Output>, decode: Decoder, flags: seq<bool>, from: nat, to: nat)
    requires |flags| == |outputs| && to <= |outputs|
  {
    forall i :: from <= i < to ==> flags[i] == decode(outputs[i]).Some?
  }

  function Left(workers: seq<Worker>): nat {
    if workers == [] then 0
    else Left(workers[1..]) + (if workers[0].next < workers[0].end then workers[0].end - workers[0].next else 0)
  }

  lemma {:induction false} LeftShrinks(workers: seq<Worker>, w: nat)
    requires w < |workers| && workers[w].next < workers[w].end
    ensures Left(workers[w := Worker(workers[w].next + 1, workers[w].end)]) < Left(workers)
  {
    var after := workers[w := Worker(workers[w].next + 1, workers[w].end)];
    if w == 0 {
      assert after[1..] == workers[1..];
    } else {
      assert after[1..] == workers[1..][w - 1 := after[w]];
      LeftShrinks(workers[1..], w - 1);
    }
  }

  /** Whatever the worker count and interleaving, the filter keeps exactly the owned outputs in order. */
  method FilterOwnedOutputs(outputs: seq<Output>, decode: Decoder, cpus: nat) returns (owned: seq<Output>)
    requires cpus >= 1
    ensures owned == Owned(outputs, decode) && Keeps(owned, outputs, (o: Output) => decode(o).Some?)
  {
    OwnedKeeps(outputs, decode);
    var flags := new bool[|outputs|](_ => false);
    if |outputs| < PARALLEL_THRESHOLD {
      for i := 0 to |outputs|
        invariant forall j :: 0 <= j < |outputs| ==> flags[j] == (j < i && decode(outputs[j]).Some?)
      {
        if decode(outputs[i]).Some? {
          flags[i] := true;
        }
      }
    } else {
      var workers := CutChunks(|outputs|, cpus);
      RunWorkers(outputs, decode, workers, flags);
    }
    owned := CollectFlagged(outputs, decode, flags);
  }

  /** The marked outputs, in order. */
  method CollectFlagged(outputs: seq<Output>, decode: Decoder, flags: array<bool>) returns (owned: seq<Output>)
    requires flags.Length == |outputs|
    requires forall j :: 0 <= j < |outputs| ==> flags[j] == decode(outputs[j]).Some?
    ensures owned == Owned(outputs, decode)
  {
    owned := [];
    for i := 0 to |outputs|
      invariant owned == Owned(outputs[..i], decode)
    {
      assert outputs[..i + 1][..i] == outputs[..i];
      if flags[i] {
        owned := owned + [outputs[i]];
      }
    }
    assert outputs[..|outputs|] == outputs;
  }

  /* ---------------- the cached query ---------------- */

  function IndexOfOutput(outputs: seq<Output>, value: string): (i: int)
    ensures -1 <= i < |outputs|
    ensures i >= 0 ==> outputs[i].value == value && forall j :: 0 <= j < i ==> outputs[j].value != value
    ensures i < 0 ==> forall j :: 0 <= j < |outputs| ==> outputs[j].value != value
  {
    if outputs == [] then -1
    else
      var i := IndexOfOutput(outputs[..|outputs| - 1], value);
      if i >= 0 then i else if outputs[|outputs| - 1].value == value then |outputs| - 1 else -1
  }

  /** The scan resumes after the cached position. */
  function LocalScan(cache: Cache, outputs: seq<Output>, decode: Decoder): Cache {
    var from := IndexOfOutput(outputs, cache.lastOutput) + 1;
    Cache(
      cache.encrypted + Owned(outputs[from..], decode),
      if outputs == [] then cache.lastOutput else outputs[|outputs| - 1].value)
  }

  /** Scan when the cached position is found, or when there is none yet; otherwise serve the cache. */
  predicate Scans(cache: Cache, outputs: seq<Output>, readFromCache: bool) {
    !readFromCache && (IndexOfOutput(outputs, cache.lastOutput) > -1 || cache.lastOutput == "")
  }

  /** A device that may or may not keep what it is given. */
  class CacheDevice {
    const keeps: bool
    var stored: Option<Cache>

    constructor (keeps: bool)
      ensures this.keeps == keeps && stored == None
    {
      this.keeps, stored := keeps, None;
    }

    function Get(): Cache
      reads this
    {
      if stored.None? then EMPTY_CACHE else stored.value
    }

    method Set(cache: Cache)
      modifies this
      ensures stored == if keeps then Some(cache) else old(stored)
    {
      if keeps {
        stored := Some(cache);
      }
    }

    /** All of the user's outputs, spent ones included. */
    method GetAllUtxos(outputs: seq<Output>, decode: Decoder, cpus: nat, resetBefore: bool, readFromCache: bool)
      returns (utxos: seq<Utxo>)
      requires cpus >= 1
      modifies this
      ensures var before := if resetBefore && keeps then EMPTY_CACHE else old(Get());
              var after := Updated(before, outputs, decode, readFromCache);
              utxos == Decoded(after.encrypted, decode) && Get() == if keeps then after else before
    {
      if resetBefore {
        Set(EMPTY_CACHE);
      }
      var cache := UpdateCache(Get(), outputs, decode, cpus, readFromCache);
      if cache != Get() {
        Set(cache);
      }
      utxos := DecodeOutputs(cache.encrypted, decode);
    }
  }

  function Updated(cache: Cache, outputs: seq<Output>, decode: Decoder, readFromCache: bool): Cache {
    if Scans(cache, outputs, readFromCache) then LocalScan(cache, outputs, decode) else cache
  }

  method UpdateCache(
      cache: Cache, outputs: seq<Output>, decode: Decoder, cpus: nat, readFromCache: bool)
    returns (r: Cache)
    requires cpus >= 1
    ensures r == Updated(cache, outputs, decode, readFromCache)
    ensures readFromCache ==> r == cache
    ensures cache.lastOutput != "" && (forall o :: o in outputs ==> o.value != cache.lastOutput) ==> r == cache
    ensures r != cache ==> outputs != [] && r.lastOutput == outputs[|outputs| - 1].value
    ensures cache.encrypted <= r.encrypted
  {
    assert forall j :: 0 <= j < |outputs| ==> outputs[j] in outputs;
    var lastIndex := IndexOfOutput(outputs, cache.lastOutput);
    if readFromCache || (lastIndex == -1 && cache.lastOutput != "") {
      return cache;
    }
    var more := FilterOwnedOutputs(outputs[lastIndex + 1..], decode, cpus);
    r := Cache(cache.encrypted + more, if |outputs| > 0 then outputs[|outputs| - 1].value else cache.lastOutput);
  }

  method DecodeOutputs(outputs: seq<Output>, decode: Decoder) returns (utxos: seq<Utxo>)
    ensures utxos == Decoded(outputs, decode)
    ensures |utxos| == |Owned(outputs, decode)|
    ensures forall k :: 0 <= k < |utxos| ==>
      var o := Owned(outputs, decode)[k];
      decode(o).Some? && utxos[k] == decode(o).value.(isBlocked := o.isBlocked)
  {
    DecodedEntries(outputs, decode);
    utxos := [];
    for i := 0 to |outputs|
      invariant utxos == Decoded(outputs[..i], decode)
    {
      assert outputs[..i + 1][..i] == outputs[..i];
      var u := decode(outputs[i]);
      if u.Some? {
        utxos := utxos + [u.value.(isBlocked := outputs[i].isBlocked)];
      }
    }
    assert outputs[..|outputs|] == outputs;
  }

  /* ---------------- every run of queries ---------------- */

  predicate DistinctNonEmpty(outputs: seq<Output>) {
    && (forall i :: 0 <= i < |outputs| ==> outputs[i].value != "")
    && (forall i, j :: 0 <= i < j < |outputs| ==> outputs[i].value != outputs[j].value)
  }

  /** The cache holds the owned outputs of the first `k`, and remembers where it stopped. */
  ghost predicate UpTo(cache: Cache, outputs: seq<Output>, decode: Decoder, k: nat) {
    && k <= |outputs|
    && cache.encrypted == Owned(outputs[..k], decode)
    && cache.lastOutput == if k == 0 then "" else outputs[k - 1].value
  }

  ghost predicate CacheOk(cache: Cache, outputs: seq<Output>, decode: Decoder) {
    exists k :: UpTo(cache, outputs, decode, k)
  }

  lemma ScanIsFull(cache: Cache, outputs: seq<Output>, decode: Decoder, k: nat)
    requires UpTo(cache, outputs, decode, k) && DistinctNonEmpty(outputs)
    ensures Scans(cache, outputs, false)
    ensures LocalScan(cache, outputs, decode).encrypted == Owned(outputs, decode)
    ensures UpTo(LocalScan(cache, outputs, decode), outputs, decode, |outputs|)
  {
    IndexOfRemembered(cache, outputs, decode, k);
    OwnedConcat(outputs[..k], outputs[k..], decode);
    assert outputs == outputs[..k] + outputs[k..] == outputs[..|outputs|];
  }

  lemma IndexOfRemembered(cache: Cache, outputs: seq<Output>, decode: Decoder, k: nat)
    requires UpTo(cache, outputs, decode, k) && DistinctNonEmpty(outputs)
    ensures IndexOfOutput(outputs, cache.lastOutput) == k - 1
  {
  }

  datatype Event = Grow(more: seq<Output>) | Query | Forget

  datatype World = World(outputs: seq<Output>, cache: Cache, answers: seq<seq<Utxo>>)

  /** New outputs are appended; a query scans and its cache may be kept; a device may lose its cache. */
  function Next(w: World, e: Event, decode: Decoder): World {
    match e
    case Grow(more) => w.(outputs := w.outputs + more)
    case Forget => w.(cache := EMPTY_CACHE)
    case Query =>
      var after := Updated(w.cache, w.outputs, decode, false);
      w.(cache := after, answers := w.answers + [Decoded(after.encrypted, decode)])
  }

  function Play(es: seq<Event>, decode: Decoder): World {
    if es == [] then World([], EMPTY_CACHE, []) else Next(Play(es[..|es| - 1], decode), es[|es| - 1], decode)
  }

  /** Everything that was appended. */
  function Grown(es: seq<Event>): seq<Output> {
    if es == [] then []
    else
      match es[|es| - 1]
      case Grow(more) => Grown(es[..|es| - 1]) + more
      case _ => Grown(es[..|es| - 1])
  }

  /** In every run, the answer of each query is the full scan of the outputs appended so far. */
  lemma {:induction false} EveryQueryIsAFullScan(es: seq<Event>, decode: Decoder)
    requires DistinctNonEmpty(Play(es, decode).outputs)
    ensures Play(es, decode).outputs == Grown(es)
    ensures CacheOk(Play(es, decode).cache, Play(es, decode).outputs, decode)
    ensures es != [] && es[|es| - 1].Query? ==>
      var w := Play(es, decode);
      |w.answers| > 0 && w.answers[|w.answers| - 1] == Decoded(Grown(es), decode)
  {
    if es == [] {
      assert UpTo(EMPTY_CACHE, [], decode, 0);
    } else {
      var w := Play(es[..|es| - 1], decode);
      DistinctBefore(w, es[|es| - 1], decode);
      EveryQueryIsAFullScan(es[..|es| - 1], decode);
      StepIsFull(w, es[|es| - 1], decode);
    }
  }

  lemma DistinctBefore(w: World, e: Event, decode: Decoder)
    requires DistinctNonEmpty(Next(w, e, decode).outputs)
    ensures DistinctNonEmpty(w.outputs)
  {
    var after := Next(w, e, decode).outputs;
    assert |w.outputs| <= |after| && forall i :: 0 <= i < |w.outputs| ==> w.outputs[i] == after[i];
  }

  lemma GrowKeeps(cache: Cache, outputs: seq<Output>, more: seq<Output>, decode: Decoder, k: nat)
    requires UpTo(cache, outputs, decode, k)
    ensures UpTo(cache, outputs + more, decode, k)
  {
    assert (outputs + more)[..k] == outputs[..k];
  }

  lemma StepIsFull(w: World, e: Event, decode: Decoder)
    requires CacheOk(w.cache, w.outputs, decode) && DistinctNonEmpty(w.outputs)
    ensures CacheOk(Next(w, e, decode).cache, Next(w, e, decode).outputs, decode)
    ensures e.Query? ==> Next(w, e, decode).answers == w.answers + [Decoded(w.outputs, decode)]
  {
    var k :| UpTo(w.cache, w.outputs, decode, k);
    match e
    case Grow(more) =>
      GrowKeeps(w.cache, w.outputs, more, decode, k);
    case Forget =>
      assert UpTo(EMPTY_CACHE, w.outputs, decode, 0);
    case Query =>
      ScanIsFull(w.cache, w.outputs, decode, k);
      DecodedOwned(w.outputs, decode);
  }

  /* ---------------- lists that also lose outputs ---------------- */

  /** The part of the list a query takes to be covered by the cache already. */
  function Covered(cache: Cache, outputs: seq<Output>): seq<Output> {
    if Scans(cache, outputs, false) then outputs[..IndexOfOutput(outputs, cache.lastOutput) + 1] else outputs
  }

  /** A query gives the full scan exactly when the cache holds the owned outputs of the part it takes as covered. */
  lemma FullScanExactlyWhen(cache: Cache, outputs: seq<Output>, decode: Decoder)
    ensures Updated(cache, outputs, decode, false).encrypted == Owned(outputs, decode)
            <==> cache.encrypted == Owned(Covered(cache, outputs), decode)
  {
    if Scans(cache, outputs, false) {
      var from := IndexOfOutput(outputs, cache.lastOutput) + 1;
      var seen, rest := Owned(outputs[..from], decode), Owned(outputs[from..], decode);
      OwnedConcat(outputs[..from], outputs[from..], decode);
      assert outputs == outputs[..from] + outputs[from..];
      SameSuffix(cache.encrypted, seen, rest);
    }
  }

  lemma SameSuffix(a: seq<Output>, b: seq<Output>, rest: seq<Output>)
    ensures a + rest == b + rest <==> a == b
  {
    if a + rest == b + rest {
      assert a == (a + rest)[..|a|] && b == (b + rest)[..|b|];
    }
  }

  /** The cache after a full scan of `outputs`. */
  function ScannedCache(outputs: seq<Output>, decode: Decoder): Cache
    requires outputs != []
  {
    Cache(Owned(outputs, decode), outputs[|outputs| - 1].value)
  }

  /**
   The last scanned output `x` is replaced and leaves the list. From then on the cache is served as it is,
   which is right exactly when neither `x` nor any output added since is the user's.
   */
  lemma RemovedOutputFreezesTheCache(kept: seq<Output>, x: Output, added: seq<Output>, decode: Decoder)
    requires DistinctNonEmpty(kept + [x] + added)
    ensures var cache := ScannedCache(kept + [x], decode);
            && Updated(cache, kept + added, decode, false) == cache
            && (cache.encrypted == Owned(kept + added, decode) <==> decode(x).None? && Owned(added, decode) == [])
  {
    LeftTheList(kept, x, added);
    OwnedConcat(kept, [x], decode);
    OwnedConcat(kept, added, decode);
    SamePrefix(Owned(kept, decode), Owned([x], decode), Owned(added, decode));
    NotAmongAdded(kept, x, added, decode);
  }

  lemma NotAmongAdded(kept: seq<Output>, x: Output, added: seq<Output>, decode: Decoder)
    requires DistinctNonEmpty(kept + [x] + added)
    ensures Owned([x], decode) == Owned(added, decode) <==> decode(x).None? && Owned(added, decode) == []
  {
    var before := kept + [x] + added;
    assert before[|kept|] == x && forall i :: 0 <= i < |added| ==> added[i] == before[|kept| + 1 + i];
    OwnedMembers(added, decode);
    assert [x][..0] == [] && Owned([x], decode) == if decode(x).Some? then [x] else [];
    assert x !in added;
  }

  lemma {:induction false} OwnedMembers(outputs: seq<Output>, decode: Decoder)
    ensures forall o :: o in Owned(outputs, decode) ==> o in outputs
  {
    if outputs != [] {
      assert outputs == outputs[..|outputs| - 1] + [outputs[|outputs| - 1]];
      OwnedMembers(outputs[..|outputs| - 1], decode);
    }
  }

  lemma LeftTheList(kept: seq<Output>, x: Output, added: seq<Output>)
    requires DistinctNonEmpty(kept + [x] + added)
    ensures x.value != "" && IndexOfOutput(kept + added, x.value) == -1
  {
    var before, outputs := kept + [x] + added, kept + added;
    assert before[|kept|] == x;
    assert forall i :: 0 <= i < |kept| ==> outputs[i] == before[i];
    assert forall i :: |kept| <= i < |outputs| ==> outputs[i] == before[i + 1];
  }

  lemma SamePrefix(first: seq<Output>, a: seq<Output>, b: seq<Output>)
    ensures first + a == first + b <==> a == b
  {
    if first + a == first + b {
      assert a == (first + a)[|first|..] && b == (first + b)[|first|..];
    }
  }

  /**
   An earlier output `x` is replaced while the remembered one stays. The query scans, but keeps serving `x`:
   its answer is the full scan exactly when `x` was not the user's.
   */
  lemma ReplacedOutputLingers(kept: seq<Output>, x: Output, later: seq<Output>, added: seq<Output>, decode: Decoder)
    requires later != [] && DistinctNonEmpty(kept + [x] + later + added)
    ensures var cache, outputs := ScannedCache(kept + [x] + later, decode), kept + later + added;
            && Updated(cache, outputs, decode, false).encrypted == Owned(kept + [x] + later + added, decode)
            && (Updated(cache, outputs, decode, false).encrypted == Owned(outputs, decode) <==> decode(x).None?)
  {
    StillServed(kept, x, later, added, decode);
    FullScanExactlyWhen(ScannedCache(kept + [x] + later, decode), kept + later + added, decode);
    OwnedWithout(kept, x, later, decode);
  }

  lemma StillServed(kept: seq<Output>, x: Output, later: seq<Output>, added: seq<Output>, decode: Decoder)
    requires later != [] && DistinctNonEmpty(kept + [x] + later + added)
    ensures var cache, outputs := ScannedCache(kept + [x] + later, decode), kept + later + added;
            && Updated(cache, outputs, decode, false).encrypted == Owned(kept + [x] + later + added, decode)
            && Covered(cache, outputs) == kept + later
  {
    var outputs := kept + later + added;
    RememberedAt(kept, x, later, added);
    assert outputs[|kept + later|..] == added && outputs[..|kept + later|] == kept + later;
    OwnedConcat(kept + [x] + later, added, decode);
  }

  /** Leaving out one output leaves the owned ones alone exactly when it was not owned. */
  lemma OwnedWithout(kept: seq<Output>, x: Output, later: seq<Output>, decode: Decoder)
    ensures Owned(kept + [x] + later, decode) == Owned(kept + later, decode) <==> decode(x).None?
  {
    OwnedConcat(kept + [x], later, decode);
    OwnedConcat(kept, [x], decode);
    OwnedConcat(kept, later, decode);
    assert [x][..0] == [] && Owned([x], decode) == if decode(x).Some? then [x] else [];
    if decode(x).None? {
      assert Owned(kept, decode) + [] == Owned(kept, decode);
    }
  }

  lemma RememberedAt(kept: seq<Output>, x: Output, later: seq<Output>, added: seq<Output>)
    requires later != [] && DistinctNonEmpty(kept + [x] + later + added)
    ensures IndexOfOutput(kept + later + added, later[|later| - 1].value) == |kept + later| - 1
  {
    var before, outputs, at := kept + [x] + later + added, kept + later + added, |kept + later| - 1;
    assert forall i :: 0 <= i < |kept| ==> outputs[i] == before[i];
    assert forall i :: |kept| <= i < |outputs| ==> outputs[i] == before[i + 1];
    assert outputs[at] == later[|later| - 1];
    assert forall i :: 0 <= i < at ==> outputs[i].value != outputs[at].value;
  }

  /* ---------------- spent and blocked outputs, and the balance report ---------------- */

  predicate Spendable(u: Utxo, nullifying: Nullifying, spent: set<string>, blocked: bool) {
    nullifying(u).Some? && nullifying(u).value !in spent && u.isBlocked == blocked
  }

  function Available(us: seq<Utxo>, nullifying: Nullifying, spent: set<string>, blocked: bool): seq<Utxo> {
    if us == [] then []
    else
      var rest := Available(us[..|us| - 1], nullifying, spent, blocked);
      if Spendable(us[|us| - 1], nullifying, spent, blocked) then rest + [us[|us| - 1]] else rest
  }

  /** Unspent, with a nullifier, and on the asked side of the blocked flag. */
  lemma {:induction false} AvailableKeeps(us: seq<Utxo>, nullifying: Nullifying, spent: set<string>, blocked: bool)
    ensures Keeps(
      Available(us, nullifying, spent, blocked), us,
      (u: Utxo) => nullifying(u).Some? && nullifying(u).value !in spent && u.isBlocked == blocked)
  {
    var test := (u: Utxo) => nullifying(u).Some? && nullifying(u).value !in spent && u.isBlocked == blocked;
    if us == [] {
      KeepsNothing(test);
    } else {
      var init, u := us[..|us| - 1], us[|us| - 1];
      AvailableKeeps(init, nullifying, spent, blocked);
      KeepsAppend(
        Available(init, nullifying, spent, blocked), init, test, u, Available(us, nullifying, spent, blocked), us);
    }
  }

  lemma AvailableMembers(us: seq<Utxo>, nullifying: Nullifying, spent: set<string>, blocked: bool)
    ensures forall u :: u in Available(us, nullifying, spent, blocked) <==>
      u in us && nullifying(u).Some? && nullifying(u).value !in spent && u.isBlocked == blocked
  {
    AvailableKeeps(us, nullifying, spent, blocked);
    KeepsMembers(
      Available(us, nullifying, spent, blocked), us,
      (u: Utxo) => nullifying(u).Some? && nullifying(u).value !in spent && u.isBlocked == blocked);
  }

  function TokenTotal(us: seq<Utxo>, key: string -> string, k: string): int {
    if us == [] then 0
    else TokenTotal(us[..|us| - 1], key, k) + (if key(us[|us| - 1].token) == k then us[|us| - 1].amount else 0)
  }

  /** A token's total is the sum of its outputs. */
  lemma {:induction false} TokenTotalIsSum(us: seq<Utxo>, key: string -> string, k: string, p: Utxo -> bool)
    requires forall u :: p(u) <==> key(u.token) == k
    ensures TokenTotal(us, key, k) == Sum(Filter(us, p))
  {
    if us != [] {
      var init, u := us[..|us| - 1], us[|us| - 1];
      TokenTotalIsSum(init, key, k, p);
      FilterConcat(init, [u], p);
      SumConcat(Filter(init, p), Filter([u], p));
      assert us == init + [u] && [u][1..] == [];
      assert Filter([u], p) == if p(u) then [u] else [];
      SumSingle(u);
    }
  }

  /** First the spent outputs go, then those on the wrong side of the blocked flag. */
  method FilterAvailable(
      us: seq<Utxo>, nullifying: Nullifying, spent: set<string>, useBlocked: bool)
    returns (r: seq<Utxo>)
    ensures r == Available(us, nullifying, spent, useBlocked)
    ensures Keeps(
      r, us, (u: Utxo) => nullifying(u).Some? && nullifying(u).value !in spent && u.isBlocked == useBlocked)
    ensures forall u :: u in r <==>
      u in us && nullifying(u).Some? && nullifying(u).value !in spent && u.isBlocked == useBlocked
  {
    AvailableKeeps(us, nullifying, spent, useBlocked);
    AvailableMembers(us, nullifying, spent, useBlocked);
    r := [];
    for i := 0 to |us|
      invariant r == Available(us[..i], nullifying, spent, useBlocked)
    {
      assert us[..i + 1][..i] == us[..i];
      var nul := nullifying(us[i]);
      if nul.Some? && nul.value !in spent && us[i].isBlocked == useBlocked {
        r := r + [us[i]];
      }
    }
    assert us[..|us|] == us;
  }

  /** The balances list exactly the tokens of `us`, each with its total. */
  ghost predicate Reports(balances: map<string, int>, us: seq<Utxo>, key: string -> string) {
    && (forall u :: u in us ==> key(u.token) in balances)
    && (forall k :: k in balances ==>
          (exists u :: u in us && key(u.token) == k) && balances[k] == TokenTotal(us, key, k))
  }

  lemma {:induction false} AbsentTokenHasNoTotal(us: seq<Utxo>, key: string -> string, k: string)
    requires forall u :: u in us ==> key(u.token) != k
    ensures TokenTotal(us, key, k) == 0
  {
    if us != [] {
      var init := us[..|us| - 1];
      assert forall u :: u in init ==> u in us;
      assert us[|us| - 1] in us;
      AbsentTokenHasNoTotal(init, key, k);
    }
  }

  lemma ReportsOneMore(balances: map<string, int>, us: seq<Utxo>, key: string -> string, u: Utxo)
    requires Reports(balances, us, key)
    ensures var t := key(u.token);
            Reports(balances[t := (if t in balances then balances[t] else 0) + u.amount], us + [u], key)
  {
    var t, us' := key(u.token), us + [u];
    assert us'[..|us|] == us && u in us';
    if t !in balances {
      AbsentTokenHasNoTotal(us, key, t);
    }
    forall k | k in balances ensures exists v :: v in us' && key(v.token) == k {
      var v :| v in us && key(v.token) == k;
      assert v in us';
    }
  }

  lemma DecodedStep(outputs: seq<Output>, i: nat, decode: Decoder)
    requires i < |outputs|
    ensures Decoded(outputs[..i + 1], decode)
            == if decode(outputs[i]).None? then Decoded(outputs[..i], decode)
               else Decoded(outputs[..i], decode) + [decode(outputs[i]).value.(isBlocked := outputs[i].isBlocked)]
  {
    assert outputs[..i + 1][..i] == outputs[..i];
  }

  lemma AvailableStep(us: seq<Utxo>, u: Utxo, nullifying: Nullifying, spent: set<string>, blocked: bool)
    ensures Available(us + [u], nullifying, spent, blocked)
            == if Spendable(u, nullifying, spent, blocked) then Available(us, nullifying, spent, blocked) + [u]
               else Available(us, nullifying, spent, blocked)
  {
    assert (us + [u])[..|us|] == us;
  }

  /** The one-pass report: the unspent, unblocked outputs of a full scan, and their totals per token. */
  method Compute(
      outputs: seq<Output>, decode: Decoder, nullifying: Nullifying, spent: set<string>, key: string -> string)
    returns (balances: map<string, int>, utxos: seq<Utxo>)
    ensures utxos == Available(Decoded(outputs, decode), nullifying, spent, false)
    ensures Keeps(
      utxos, Decoded(outputs, decode),
      (u: Utxo) => nullifying(u).Some? && nullifying(u).value !in spent && u.isBlocked == false)
    ensures forall u :: u in utxos ==> nullifying(u).Some? && nullifying(u).value !in spent && !u.isBlocked
    ensures Reports(balances, utxos, key)
  {
    AvailableKeeps(Decoded(outputs, decode), nullifying, spent, false);
    AvailableMembers(Decoded(outputs, decode), nullifying, spent, false);
    balances, utxos := map[], [];
    ghost var all: seq<Utxo> := [];
    for i := 0 to |outputs|
      invariant all == Decoded(outputs[..i], decode)
      invariant utxos == Available(all, nullifying, spent, false) && Reports(balances, utxos, key)
    {
      DecodedStep(outputs, i, decode);
      var decoded := decode(outputs[i]);
      if decoded.Some? {
        var u := decoded.value.(isBlocked := outputs[i].isBlocked);
        AvailableStep(all, u, nullifying, spent, false);
        all := all + [u];
        var nul := nullifying(u);
        if nul.Some? && nul.value !in spent && !u.isBlocked {
          balances := AddToBalance(balances, utxos, key, u);
          utxos := utxos + [u];
        }
      }
    }
    assert outputs[..|outputs|] == outputs;
  }

  method AddToBalance(balances: map<string, int>, ghost us: seq<Utxo>, key: string -> string, u: Utxo)
    returns (r: map<string, int>)
    requires Reports(balances, us, key)
    ensures Reports(r, us + [u], key)
  {
    ReportsOneMore(balances, us, key, u);
    var token := key(u.token);
    r := balances[token := (if token in balances then balances[token] else 0) + u.amount];
  }

  /** The query of every run decodes to the full scan. */
  lemma QueryDecodesAll(es: seq<Event>, decode: Decoder)
    requires DistinctNonEmpty(Play(es, decode).outputs)
    ensures var w := Play(es, decode);
            Decoded(Updated(w.cache, w.outputs, decode, false).encrypted, decode) == Decoded(w.outputs, decode)
  {
    var w := Play(es, decode);
    EveryQueryIsAFullScan(es, decode);
    var k :| UpTo(w.cache, w.outputs, decode, k);
    ScanIsFull(w.cache, w.outputs, decode, k);
    DecodedOwned(w.outputs, decode);
  }

  /** The cached query, filtered: update, decode, and drop what is spent or blocked. */
  method QueryAvailable(
      cache: Cache, outputs: seq<Output>, decode: Decoder, nullifying: Nullifying, spent: set<string>, cpus: nat)
    returns (utxos: seq<Utxo>)
    requires cpus >= 1
    ensures var encrypted := Updated(cache, outputs, decode, false).encrypted;
            utxos == Available(Decoded(encrypted, decode), nullifying, spent, false)
  {
    var updated := UpdateCache(cache, outputs, decode, cpus, false);
    var all := DecodeOutputs(updated.encrypted, decode);
    utxos := FilterAvailable(all, nullifying, spent, false);
  }

  /** After every query of every run, filtering the cached answer gives exactly the report's outputs. */
  method QueryAndReport(
      es: seq<Event>, decode: Decoder, nullifying: Nullifying, spent: set<string>, key: string -> string, cpus: nat)
    returns (utxos: seq<Utxo>, balances: map<string, int>, reported: seq<Utxo>)
    requires cpus >= 1 && DistinctNonEmpty(Play(es, decode).outputs)
    ensures utxos == reported && Reports(balances, utxos, key)
    ensures Keeps(
      utxos, Decoded(Play(es, decode).outputs, decode),
      (u: Utxo) => nullifying(u).Some? && nullifying(u).value !in spent && u.isBlocked == false)
    ensures forall u :: u in utxos ==> nullifying(u).Some? && nullifying(u).value !in spent && !u.isBlocked
  {
    var w := Play(es, decode);
    QueryDecodesAll(es, decode);
    utxos := QueryAvailable(w.cache, w.outputs, decode, nullifying, spent, cpus);
    balances, reported := Compute(w.outputs, decode, nullifying, spent, key);
  }
}
