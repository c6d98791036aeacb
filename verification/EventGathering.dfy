/** Gathering events by block range: pages, bisection on failed queries, and Solana's backward paging. */
module EventGathering {
  import opened Wrappers
  import opened Subsequences

  /** A decodable log of one contract. */
  datatype Log = Log(block: nat, contract: nat, id: nat)

  const RETRY_MIN_PAGE_SIZE: nat := 100
  const MAX_RETRIES: nat := 20

  /** What an exact query returns: the logs of a contract in a block range, in chain order. */
  function LogsIn(chain: seq<Log>, contract: nat, from: nat, to: int): seq<Log> {
    if chain == [] then []
    else
      var l := chain[|chain| - 1];
      LogsIn(chain[..|chain| - 1], contract, from, to) +
      (if l.contract == contract && from <= l.block <= to then [l] else [])
  }

  /** Chain order is block order. */
  predicate InBlockOrder(chain: seq<Log>) {
    forall a, b :: 0 <= a <= b < |chain| ==> chain[a].block <= chain[b].block
  }

  /** Adjacent ranges concatenate: nothing lost, nothing twice, order kept. */
  lemma {:induction false} RangesConcatenate(chain: seq<Log>, contract: nat, from: nat, mid: int, to: int)
    requires InBlockOrder(chain) && from <= mid + 1 && mid <= to
    ensures LogsIn(chain, contract, from, mid) + LogsIn(chain, contract, mid + 1, to) ==
      LogsIn(chain, contract, from, to)
  {
    if chain != [] {
      var init, l := chain[..|chain| - 1], chain[|chain| - 1];
      RangesConcatenate(init, contract, from, mid, to);
      var a, b := LogsIn(init, contract, from, mid), LogsIn(init, contract, mid + 1, to);
      if l.block <= mid {
        NothingLater(init, contract, mid + 1, to);
        JoinEnds(a, b, if l.contract == contract && from <= l.block then [l] else [], []);
      } else {
        JoinEnds(a, b, [], if l.contract == contract && l.block <= to then [l] else []);
      }
    }
  }

  lemma JoinEnds(a: seq<Log>, b: seq<Log>, x: seq<Log>, y: seq<Log>)
    requires x == [] || b == []
    ensures (a + x) + (b + y) == (a + b) + (x + y)
    ensures y == [] ==> x + y == x
    ensures x == [] ==> x + y == y
  {
  }

  /** A query returns exactly the logs of its contract and range. */
  lemma {:induction false} LogsInMembers(chain: seq<Log>, contract: nat, from: nat, to: int, l: Log)
    ensures l in LogsIn(chain, contract, from, to) <==> l in chain && l.contract == contract && from <= l.block <= to
  {
    if chain != [] {
      var init := chain[..|chain| - 1];
      assert chain == init + [chain[|chain| - 1]];
      LogsInMembers(init, contract, from, to, l);
    }
  }

  /** A query's answer keeps chain order. */
  lemma {:induction false} LogsInKeeps(chain: seq<Log>, contract: nat, from: nat, to: int)
    ensures Keeps(LogsIn(chain, contract, from, to), chain, (l: Log) => l.contract == contract && from <= l.block <= to)
  {
    var test := (l: Log) => l.contract == contract && from <= l.block <= to;
    if chain == [] {
      KeepsNothing(test);
    } else {
      var init, l := chain[..|chain| - 1], chain[|chain| - 1];
      LogsInKeeps(init, contract, from, to);
      assert LogsIn(init, contract, from, to) + [] == LogsIn(init, contract, from, to);
      KeepsAppend(LogsIn(init, contract, from, to), init, test, l, LogsIn(chain, contract, from, to), chain);
    }
  }

  lemma {:induction false} NothingLater(chain: seq<Log>, contract: nat, from: nat, to: int)
    requires forall l :: l in chain ==> l.block < from
    ensures LogsIn(chain, contract, from, to) == []
  {
    if chain != [] {
      var init := chain[..|chain| - 1];
      assert forall l :: l in init ==> l in chain;
      NothingLater(init, contract, from, to);
      assert chain[|chain| - 1] in chain;
    }
  }

  /** The failure pattern: which query fails at which retry depth. */
  type Failures = (nat, nat, nat) -> bool

  datatype QueryError = QueryFailed(from: nat, to: nat)

  /** Query a range; when it fails and is still large, query its halves. */
  function Gather(
      chain: seq<Log>, contract: nat, from: nat, last: nat, retry: nat, fails: Failures): Result<seq<Log>, QueryError>
    requires from <= last
    decreases last - from
  {
    if !fails(from, last, retry) then Ok(LogsIn(chain, contract, from, last))
    else if retry < MAX_RETRIES && last - from > RETRY_MIN_PAGE_SIZE then
      var mid := (from + last) / 2;
      var a := Gather(chain, contract, from, mid, retry + 1, fails);
      if a.Err? then a
      else
        var b := Gather(chain, contract, mid + 1, last, retry + 1, fails);
        if b.Err? then b else Ok(a.value + b.value)
    else Err(QueryFailed(from, last))
  }

  /** Whatever queries fail on the way, a result that arrives is exact. */
  lemma {:induction false} GatherIsExact(
      chain: seq<Log>, contract: nat, from: nat, last: nat, retry: nat, fails: Failures)
    requires from <= last && InBlockOrder(chain)
    ensures var r := Gather(chain, contract, from, last, retry, fails);
            r.Ok? ==> r.value == LogsIn(chain, contract, from, last)
    decreases last - from
  {
    if fails(from, last, retry) && retry < MAX_RETRIES && last - from > RETRY_MIN_PAGE_SIZE {
      var mid := (from + last) / 2;
      GatherIsExact(chain, contract, from, mid, retry + 1, fails);
      GatherIsExact(chain, contract, mid + 1, last, retry + 1, fails);
      RangesConcatenate(chain, contract, from, mid, last);
    }
  }

  /** An error names a query inside the range that failed with no retry left or too small to halve. */
  lemma {:induction false} GatherErrorIsReal(
      chain: seq<Log>, contract: nat, from: nat, last: nat, retry: nat, fails: Failures)
    requires from <= last && retry <= MAX_RETRIES
    ensures var r := Gather(chain, contract, from, last, retry, fails);
            r.Err? ==> && from <= r.error.from <= r.error.to <= last
                       && exists k :: retry <= k <= 20 && fails(r.error.from, r.error.to, k)
                            && (k == 20 || r.error.to - r.error.from <= 100)
    decreases last - from
  {
    if fails(from, last, retry) && retry < MAX_RETRIES && last - from > RETRY_MIN_PAGE_SIZE {
      var mid := (from + last) / 2;
      GatherErrorIsReal(chain, contract, from, mid, retry + 1, fails);
      GatherErrorIsReal(chain, contract, mid + 1, last, retry + 1, fails);
    }
  }

  /** Queries small enough to succeed at every depth always end in success. */
  lemma GatherSucceeds(
      chain: seq<Log>, contract: nat, from: nat, last: nat, retry: nat, fails: Failures)
    requires from <= last && retry <= MAX_RETRIES
    requires forall a, b, k :: from <= a <= b <= last && (b - a <= 100 || k == 20) ==>
      !fails(a, b, k)
    ensures Gather(chain, contract, from, last, retry, fails).Ok?
  {
    GatherErrorIsReal(chain, contract, from, last, retry, fails);
  }

  /* ---------------- pages ---------------- */

  datatype Page = Page(from: nat, to: nat)

  /** The pages tile the blocks from `from` up to, but not including, `next`. */
  ghost predicate Tiles(pages: seq<Page>, from: nat, next: nat) {
    && (forall k :: 0 <= k < |pages| ==> pages[k].from <= pages[k].to)
    && (forall j, k :: 0 <= j < k < |pages| && k == j + 1 ==> pages[j].to + 1 == pages[k].from)
    && (if pages == [] then next == from else pages[0].from == from && pages[|pages| - 1].to + 1 == next)
  }

  /** The pages of a range: one after the other, each of the page size or up to the end. */
  function PagesOf(from: nat, to: nat, maxPage: Option<nat>): seq<Page>
    decreases 1 + to - from
  {
    if from > to then []
    else if maxPage.None? || maxPage.value == 0 then [Page(from, to)]
    else [Page(from, EndOf(from, to, maxPage.value))] + PagesOf(from + maxPage.value, to, maxPage)
  }

  function EndOf(from: nat, to: nat, size: nat): nat
    requires size > 0
  {
    if from + size - 1 < to then from + size - 1 else to
  }

  lemma {:induction false} PagesTile(from: nat, to: nat, maxPage: Option<nat>)
    requires from <= to
    ensures Tiles(PagesOf(from, to, maxPage), from, to + 1)
    decreases 1 + to - from
  {
    if maxPage.Some? && 0 < maxPage.value {
      var p, rest := Page(from, EndOf(from, to, maxPage.value)), PagesOf(from + maxPage.value, to, maxPage);
      if from + maxPage.value <= to {
        PagesTile(from + maxPage.value, to, maxPage);
        TilesCons(p, rest, to + 1);
      } else {
        assert PagesOf(from, to, maxPage) == [p] + [];
      }
    }
  }

  predicate FullUpToLast(pages: seq<Page>, size: nat) {
    && (forall k :: 0 <= k < |pages| ==> pages[k].to + 1 - pages[k].from <= size)
    && (forall k :: 0 <= k < |pages| - 1 ==> pages[k].to + 1 - pages[k].from == size)
  }

  lemma {:induction false} PagesAreFull(from: nat, to: nat, size: nat)
    requires size > 0
    ensures FullUpToLast(PagesOf(from, to, Some(size)), size)
    decreases 1 + to - from
  {
    if from <= to {
      PagesAreFull(from + size, to, size);
      FullCons(Page(from, EndOf(from, to, size)), PagesOf(from + size, to, Some(size)), size);
    }
  }

  lemma FullCons(p: Page, rest: seq<Page>, size: nat)
    requires FullUpToLast(rest, size) && p.to + 1 - p.from <= size && (rest != [] ==> p.to + 1 - p.from == size)
    ensures FullUpToLast([p] + rest, size)
  {
  }

  lemma TilesCons(p: Page, rest: seq<Page>, next: nat)
    requires p.from <= p.to && rest != [] && Tiles(rest, p.to + 1, next)
    ensures Tiles([p] + rest, p.from, next)
  {
  }

  method BuildPages(from: nat, to: nat, maxPage: Option<nat>) returns (pages: seq<Page>)
    requires from <= to
    ensures pages == PagesOf(from, to, maxPage) && Tiles(pages, from, to + 1)
    ensures maxPage.Some? && maxPage.value > 0 ==>
      && (forall k :: 0 <= k < |pages| ==> pages[k].to + 1 - pages[k].from <= maxPage.value)
      && (forall k :: 0 <= k < |pages| - 1 ==> pages[k].to + 1 - pages[k].from == maxPage.value)
    ensures maxPage.None? || maxPage.value == 0 ==> pages == [Page(from, to)]
  {
    if maxPage.None? || maxPage.value == 0 {
      pages := [Page(from, to)];
    } else {
      pages := CutPages(from, to, maxPage.value);
      PagesAreFull(from, to, maxPage.value);
    }
    PagesTile(from, to, maxPage);
  }

  method CutPages(from: nat, to: nat, size: nat) returns (pages: seq<Page>)
    requires size > 0
    ensures pages == PagesOf(from, to, Some(size))
  {
    pages := [];
    var cur := from;
    while cur <= to
      invariant pages + PagesOf(cur, to, Some(size)) == PagesOf(from, to, Some(size))
      decreases 1 + to - cur
    {
      var end := if cur + size - 1 < to then cur + size - 1 else to;
      AppendPage(pages, Page(cur, end), PagesOf(cur + size, to, Some(size)));
      pages := pages + [Page(cur, end)];
      cur := cur + size;
    }
    assert pages + [] == pages;
  }

  lemma AppendPage(pages: seq<Page>, p: Page, rest: seq<Page>)
    ensures pages + ([p] + rest) == (pages + [p]) + rest
  {
  }

  /** The pages of one contract, gathered one by one. */
  method GatherPages(chain: seq<Log>, contract: nat, pages: seq<Page>, ghost from: nat, ghost to: nat, fails: Failures)
    returns (r: Result<seq<Log>, QueryError>)
    requires InBlockOrder(chain) && Tiles(pages, from, to + 1)
    ensures r.Ok? ==> r.value == LogsIn(chain, contract, from, to)
    ensures r.Ok? <==> AllAnswered(chain, contract, pages, |pages|, fails)
  {
    var all: seq<Log> := [];
    EmptyRange(chain, contract, from);
    for k := 0 to |pages|
      invariant GatheredTo(chain, contract, pages, from, k, all)
      invariant AllAnswered(chain, contract, pages, k, fails)
    {
      var p := pages[k];
      r := GatherPage(chain, contract, p, fails);
      if r.Err? {
        return;
      }
      NextPage(chain, contract, pages, from, to + 1, k, all);
      all := all + r.value;
    }
    r := Ok(all);
  }

  /** The first `k` pages are gathered: everything from `from` up to the end of the last of them. */
  ghost predicate GatheredTo(chain: seq<Log>, contract: nat, pages: seq<Page>, from: nat, k: nat, all: seq<Log>)
    requires k <= |pages|
  {
    var next := if k == 0 then from else pages[k - 1].to + 1;
    from <= next && all == LogsIn(chain, contract, from, next - 1)
  }

  lemma NextPage(chain: seq<Log>, contract: nat, pages: seq<Page>, from: nat, next: nat, k: nat, all: seq<Log>)
    requires InBlockOrder(chain) && Tiles(pages, from, next) && k < |pages|
    requires GatheredTo(chain, contract, pages, from, k, all)
    ensures GatheredTo(chain, contract, pages, from, k + 1, all + LogsIn(chain, contract, pages[k].from, pages[k].to))
  {
    assert k > 0 ==> pages[k - 1].to + 1 == pages[k].from;
    RangesConcatenate(chain, contract, from, pages[k].from - 1, pages[k].to);
  }

  method GatherPage(chain: seq<Log>, contract: nat, p: Page, fails: Failures) returns (r: Result<seq<Log>, QueryError>)
    requires InBlockOrder(chain) && p.from <= p.to
    ensures r.Ok? <==> Answered(chain, contract, p, fails)
    ensures r.Ok? ==> r.value == LogsIn(chain, contract, p.from, p.to)
  {
    GatherIsExact(chain, contract, p.from, p.to, 0, fails);
    r := Gather(chain, contract, p.from, p.to, 0, fails);
  }

  /** The queries for this page end in success. */
  predicate Answered(chain: seq<Log>, contract: nat, p: Page, fails: Failures) {
    p.from <= p.to ==> Gather(chain, contract, p.from, p.to, 0, fails).Ok?
  }

  predicate AllAnswered(chain: seq<Log>, contract: nat, pages: seq<Page>, k: nat, fails: Failures)
    requires k <= |pages|
  {
    forall j :: 0 <= j < k ==> Answered(chain, contract, pages[j], fails)
  }

  lemma {:induction false} EmptyRange(chain: seq<Log>, contract: nat, from: nat)
    ensures LogsIn(chain, contract, from, from - 1) == []
  {
    if chain != [] {
      EmptyRange(chain[..|chain| - 1], contract, from);
    }
  }

  /** Both contracts over the same pages: the main contract's logs first, then the deposit contract's. */
  method GetEventsInRange(
      chain: seq<Log>, main: nat, deposit: Option<nat>, from: nat, to: nat, maxPage: Option<nat>,
      fails: Failures, fails': Failures)
    returns (r: Result<seq<Log>, QueryError>)
    requires from <= to && InBlockOrder(chain)
    ensures var pages := PagesOf(from, to, maxPage);
            r.Ok? <==>
            && AllAnswered(chain, main, pages, |pages|, fails)
            && (deposit.Some? ==> AllAnswered(chain, deposit.value, pages, |pages|, fails'))
    ensures r.Ok? ==> r.value == LogsIn(chain, main, from, to) +
                                 (if deposit.Some? then LogsIn(chain, deposit.value, from, to) else [])
    ensures r.Ok? ==> forall l :: l in r.value <==>
      l in chain && from <= l.block <= to && (l.contract == main || deposit == Some(l.contract))
  {
    var pages := BuildPages(from, to, maxPage);
    r := GatherPages(chain, main, pages, from, to, fails);
    LogsOfBoth(chain, main, deposit, from, to);
    if r.Err? || deposit.None? {
      return;
    }
    var more := GatherPages(chain, deposit.value, pages, from, to, fails');
    r := if more.Err? then more else Ok(r.value + more.value);
  }

  lemma LogsOfBoth(chain: seq<Log>, main: nat, deposit: Option<nat>, from: nat, to: nat)
    ensures var logs := LogsIn(chain, main, from, to) +
                        (if deposit.Some? then LogsIn(chain, deposit.value, from, to) else []);
            forall l :: l in logs <==>
              l in chain && from <= l.block <= to && (l.contract == main || deposit == Some(l.contract))
    ensures LogsIn(chain, main, from, to) + [] == LogsIn(chain, main, from, to)
  {
    LogsOfOne(chain, main, from, to);
    if deposit.Some? {
      LogsOfOne(chain, deposit.value, from, to);
    }
  }

  lemma LogsOfOne(chain: seq<Log>, contract: nat, from: nat, to: nat)
    ensures forall l :: l in LogsIn(chain, contract, from, to) <==>
      l in chain && l.contract == contract && from <= l.block <= to
  {
    forall l ensures l in LogsIn(chain, contract, from, to) <==>
      l in chain && l.contract == contract && from <= l.block <= to
    {
      LogsInMembers(chain, contract, from, to, l);
    }
  }

  /* ---------------- Solana: newest first, one batch at a time ---------------- */

  /** A transaction's signature; `failed` is the error the chain recorded for it. */
  datatype Signature = Signature(slot: nat, id: nat, failed: bool)

  datatype ProgramEvent = ProgramEvent(id: nat, slot: nat)

  predicate NewestFirst(sigs: seq<Signature>) {
    forall a, b :: 0 <= a <= b < |sigs| ==> sigs[a].slot >= sigs[b].slot
  }

  /** The signatures of a slot range, in the order they are kept. */
  function InSlots(sigs: seq<Signature>, from: nat, to: nat): seq<Signature> {
    if sigs == [] then []
    else
      InSlots(sigs[..|sigs| - 1], from, to) +
      (var s := sigs[|sigs| - 1]; if from <= s.slot <= to then [s] else [])
  }

  lemma {:induction false} InSlotsKeeps(sigs: seq<Signature>, from: nat, to: nat)
    ensures Keeps(InSlots(sigs, from, to), sigs, (s: Signature) => from <= s.slot <= to)
  {
    var test := (s: Signature) => from <= s.slot <= to;
    if sigs == [] {
      KeepsNothing(test);
    } else {
      var init, s := sigs[..|sigs| - 1], sigs[|sigs| - 1];
      InSlotsKeeps(init, from, to);
      assert InSlots(init, from, to) + [] == InSlots(init, from, to);
      KeepsAppend(InSlots(init, from, to), init, test, s, InSlots(sigs, from, to), sigs);
    }
  }

  /** One RPC answer: at most `limit` signatures after the first `skip` newest ones. */
  function Batch(sigs: seq<Signature>, skip: nat, limit: nat): seq<Signature>
    requires skip <= |sigs|
  {
    if skip + limit <= |sigs| then sigs[skip..skip + limit] else sigs[skip..]
  }

  lemma {:induction false} OlderAddNothing(sigs: seq<Signature>, k: nat, from: nat, to: nat)
    requires k <= |sigs| && forall i :: k <= i < |sigs| ==> sigs[i].slot < from
    ensures InSlots(sigs, from, to) == InSlots(sigs[..k], from, to)
    decreases |sigs|
  {
    if k < |sigs| {
      OlderAddNothing(sigs[..|sigs| - 1], k, from, to);
      assert sigs[..|sigs| - 1][..k] == sigs[..k];
    } else {
      assert sigs[..k] == sigs;
    }
  }

  /** Paging backwards until a batch is short, empty or reaches below the range. */
  method CollectSignatures(history: seq<Signature>, from: nat, limit: nat) returns (sigs: seq<Signature>)
    requires NewestFirst(history) && limit >= 1
    ensures |sigs| <= |history| && sigs == history[..|sigs|]
    ensures forall i :: |sigs| <= i < |history| ==> history[i].slot < from
  {
    sigs := Batch(history, 0, limit);
    var batchLen := |sigs|;
    while batchLen >= limit && sigs[|sigs| - 1].slot >= from
      invariant |sigs| <= |history| && sigs == history[..|sigs|]
      invariant batchLen >= limit ==> sigs != []
      invariant batchLen < limit ==> |sigs| == |history|
      decreases |history| - |sigs|
    {
      var next := Batch(history, |sigs|, limit);
      if next == [] {
        break;
      }
      assert sigs + next == history[..|sigs + next|];
      sigs := sigs + next;
      batchLen := |next|;
    }
  }

  /** The events of the successful transactions; `lookup` is empty when a transaction cannot be had. */
  function EventsOf(sigs: seq<Signature>, lookup: Signature -> seq<ProgramEvent>): seq<ProgramEvent> {
    if sigs == [] then []
    else
      var s := sigs[|sigs| - 1];
      EventsOf(sigs[..|sigs| - 1], lookup) + if s.failed then [] else lookup(s)
  }

  /** Every successful transaction of the slot range gives its events, newest first, each once. */
  method GetProgramEvents(
      history: seq<Signature>, from: nat, to: nat, limit: nat, lookup: Signature -> seq<ProgramEvent>)
    returns (events: seq<ProgramEvent>)
    requires NewestFirst(history) && limit >= 1
    ensures events == EventsOf(InSlots(history, from, to), lookup)
  {
    var sigs := CollectSignatures(history, from, limit);
    OlderAddNothing(history, |sigs|, from, to);
    events := [];
    for i := 0 to |sigs|
      invariant events == EventsOf(InSlots(sigs[..i], from, to), lookup)
    {
      NextSignature(sigs, i, from, to, lookup);
      if !(sigs[i].slot < from || sigs[i].slot > to || sigs[i].failed) {
        events := events + lookup(sigs[i]);
      }
    }
    assert sigs[..|sigs|] == sigs;
  }

  lemma NextSignature(sigs: seq<Signature>, i: nat, from: nat, to: nat, lookup: Signature -> seq<ProgramEvent>)
    requires i < |sigs|
    ensures EventsOf(InSlots(sigs[..i + 1], from, to), lookup)
            == EventsOf(InSlots(sigs[..i], from, to), lookup)
               + if from <= sigs[i].slot <= to && !sigs[i].failed then lookup(sigs[i]) else []
  {
    InSlotsStep(sigs, i, from, to);
    EventsOfStep(InSlots(sigs[..i], from, to), sigs[i], lookup);
  }

  lemma InSlotsStep(sigs: seq<Signature>, i: nat, from: nat, to: nat)
    requires i < |sigs|
    ensures InSlots(sigs[..i + 1], from, to)
            == if from <= sigs[i].slot <= to then InSlots(sigs[..i], from, to) + [sigs[i]]
               else InSlots(sigs[..i], from, to)
  {
    assert sigs[..i + 1][..i] == sigs[..i];
    assert InSlots(sigs[..i], from, to) + [] == InSlots(sigs[..i], from, to);
  }

  lemma EventsOfStep(before: seq<Signature>, s: Signature, lookup: Signature -> seq<ProgramEvent>)
    ensures EventsOf(before + [s], lookup) == EventsOf(before, lookup) + if s.failed then [] else lookup(s)
    ensures EventsOf(before, lookup) + [] == EventsOf(before, lookup)
  {
    assert (before + [s])[..|before|] == before;
  }

  /** An event is gathered exactly when a successful transaction of the range has it. */
  lemma {:induction false} EventsOfMembers(
      sigs: seq<Signature>, from: nat, to: nat, lookup: Signature -> seq<ProgramEvent>, e: ProgramEvent)
    ensures e in EventsOf(InSlots(sigs, from, to), lookup) <==>
            exists s :: s in sigs && from <= s.slot <= to && !s.failed && e in lookup(s)
  {
    if sigs != [] {
      var init := sigs[..|sigs| - 1];
      EventsOfMembers(init, from, to, lookup, e);
      assert sigs == init + [sigs[|sigs| - 1]] && sigs[..|sigs|] == sigs;
      NextSignature(sigs, |sigs| - 1, from, to, lookup);
    }
  }
}
