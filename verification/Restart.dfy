/** From event logs to service states: restarts and mixed snapshots end where a full replay ends. */
module Restart {
  import opened Wrappers
  import opened MT = MerkleTree
  import opened MerkleInvariant
  import opened MerkleRoots
  import opened ChainEvents
  import opened Commitments
  import opened Replay
  import opened EventSync
  import Nullifiers

  ghost function CommitmentState(p: Params, w: World, log: seq<ChainEvent>): State
    requires p.levels >= 1
  {
    AcceptAll(Initial(p), EventsIn(log, w.history))
  }

  function NullifierState(log: seq<ChainEvent>): set<string> {
    Nullifiers.AcceptPage({}, log)
  }

  /** The history the contracts promise: one event per leaf, commitment and output; one block per transaction. */
  ghost predicate GoodHistory(p: Params, w: World)
    requires p.levels >= 1
  {
    && InRange(p, EventsIn(w.history, w.history))
    && Coherent(Events(EventsIn(w.history, w.history)))
    && OneBlockPerTx(w.history)
    && (forall e :: e in w.history ==> e.block >= 1)
  }

  /** What a service computes page by page is the state of the concatenated log. */
  lemma PageExtendsState(p: Params, w: World, log: seq<ChainEvent>, page: seq<ChainEvent>, from: nat, to: nat)
    requires p.levels >= 1 && OneBlockPerTx(w.history) && IsRange(page, w.history, from, to)
    ensures AcceptAll(CommitmentState(p, w, log), EventsIn(page, page)) == CommitmentState(p, w, log + page)
  {
    FlagsArePageIndependent(w.history, page, page, from, to);
    EventsInConcat(log, page, w.history);
    AcceptAllConcat(Initial(p), EventsIn(log, w.history), EventsIn(page, w.history));
  }

  ghost predicate SameEvents(a: seq<ChainEvent>, b: seq<ChainEvent>) {
    forall e :: e in a <==> e in b
  }

  /** Equal up to the order of the output list, tree included once it is complete. */
  ghost predicate Agree(a: State, b: State)
    requires a.tree.p == b.tree.p && a.tree.p.levels >= 1
  {
    && a.byCommitment == b.byCommitment && multiset(a.outputs) == multiset(b.outputs)
    && SameLeaves(a.tree, b.tree)
    && (Complete(a.tree) ==> SameState(a, b))
  }

  /** Two logs with the same events give the same services, whatever their order and repetitions. */
  lemma LogsConverge(p: Params, w: World, a: seq<ChainEvent>, b: seq<ChainEvent>)
    requires p.levels >= 1 && GoodHistory(p, w)
    requires SameEvents(a, b) && forall e :: e in a ==> e in w.history
    ensures Agree(CommitmentState(p, w, a), CommitmentState(p, w, b))
    ensures NullifierState(a) == NullifierState(b)
  {
    var h := w.history;
    forall x ensures x in EventsIn(a, h) <==> x in EventsIn(b, h)
             ensures x in EventsIn(a, h) ==> x in EventsIn(h, h)
    {
      EventsInMembers(a, h, x);
      EventsInMembers(b, h, x);
      EventsInMembers(h, h, x);
    }
    assert Events(EventsIn(a, h)) == Events(EventsIn(b, h));
    assert Coherent(Events(EventsIn(a, h))) by {
      assert forall x :: x in Events(EventsIn(a, h)) ==> x in Events(EventsIn(h, h));
    }
    RunsConverge(p, EventsIn(a, h), EventsIn(b, h));
    SameNullifiers(a, b);
  }

  /** The leaves that a set of events gives, in order of their positions. */
  ghost predicate ByIndex(p: Params, es: set<CommitmentEvent>, leaves: seq<int>)
    requires p.levels >= 1
  {
    && (forall e :: e in es ==>
          Start(p) <= PositionOf(e) < Start(p) + |leaves| && leaves[PositionOf(e) - Start(p)] == e.commitment)
    && (forall j: nat :: Start(p) <= j < Start(p) + |leaves| ==> j in PositionsOf(es))
  }

  lemma ReflectedLeaves(t: Tree, es: set<CommitmentEvent>, leaves: seq<int>)
    requires Valid(t) && LeavesReflect(t, es) && ByIndex(t.p, es, leaves)
    ensures Complete(t) && LeafSeq(t) == leaves
  {
    ReflectedPositions(t, es, leaves);
    CompleteIsContiguous(t);
    ReflectedValues(t, es, leaves);
  }

  lemma ReflectedValues(t: Tree, es: set<CommitmentEvent>, leaves: seq<int>)
    requires t.p.levels >= 1 && LeavesReflect(t, es) && ByIndex(t.p, es, leaves)
    ensures forall k :: 0 <= k < |leaves| ==> ValueAt(t.p, t.nodes, Start(t.p) + k) == leaves[k]
  {
    forall k | 0 <= k < |leaves| ensures ValueAt(t.p, t.nodes, Start(t.p) + k) == leaves[k] {
      ReflectedLeaf(t, es, leaves, k);
    }
  }

  lemma ReflectedPositions(t: Tree, es: set<CommitmentEvent>, leaves: seq<int>)
    requires t.p.levels >= 1 && Bounded(t) && LeavesReflect(t, es) && ByIndex(t.p, es, leaves)
    ensures Leaves(t) == Positions(Start(t.p), |leaves|) && t.index == Start(t.p) + |leaves|
  {
    assert forall j :: j in PositionsOf(es) ==> Start(t.p) <= j < Start(t.p) + |leaves|;
    if |leaves| > 0 {
      assert Start(t.p) + |leaves| - 1 in Leaves(t);
    }
  }

  lemma ReflectedLeaf(t: Tree, es: set<CommitmentEvent>, leaves: seq<int>, k: nat)
    requires t.p.levels >= 1 && LeavesReflect(t, es) && ByIndex(t.p, es, leaves) && k < |leaves|
    ensures Start(t.p) + k in t.nodes && t.nodes[Start(t.p) + k] == leaves[k]
  {
    assert Start(t.p) + k in PositionsOf(es);
    var e :| e in es && PositionOf(e) == Start(t.p) + k;
  }

  /**
   From the chain to the root: whatever pages a service was given, in whatever order and how often, if the
   commitments they hold fill the positions from the first on, its root is the canonical root of the commitments
   by index.
   */
  lemma RootOfTheService(p: Params, w: World, log: seq<ChainEvent>, leaves: seq<int>)
    requires p.levels >= 1 && GoodHistory(p, w) && HashNeverZero(p) && Genuine(w, log)
    requires ByIndex(p, Events(EventsIn(log, w.history)), leaves)
    ensures RootHash(CommitmentState(p, w, log).tree)
            == Ok(if leaves == [0] then p.default else CanonicalRoot(p, leaves))
  {
    var es := EventsIn(log, w.history);
    GoodEvents(p, w, log);
    RunReflects(p, es);
    ReflectedLeaves(AcceptAll(Initial(p), es).tree, Events(es), leaves);
    RootWithNonZeroHash(AcceptAll(Initial(p), es).tree);
  }

  lemma GoodEvents(p: Params, w: World, log: seq<ChainEvent>)
    requires p.levels >= 1 && GoodHistory(p, w) && Genuine(w, log)
    ensures InRange(p, EventsIn(log, w.history)) && Coherent(Events(EventsIn(log, w.history)))
  {
    forall x | x in EventsIn(log, w.history) ensures x in EventsIn(w.history, w.history) {
      EventsInMembers(log, w.history, x);
      EventsInMembers(w.history, w.history, x);
    }
    assert forall x :: x in Events(EventsIn(log, w.history)) ==> x in Events(EventsIn(w.history, w.history));
  }

  /** Every event of the history up to block `to`, and nothing later. */
  ghost predicate IsFullLog(w: World, log: seq<ChainEvent>, to: nat) {
    IsRange(log, w.history, 0, to)
  }

  /**
   A crash and a restart from any snapshot of any run, then a replay from the block after the
   snapshot's, reaches the state of a run that was never interrupted.
   */
  lemma RestartReachesTheSameState(
      p: Params, w: World, trace: seq<Machine>, steps: seq<Step>, k: nat, i: nat, snap: Snapshot,
      page: seq<ChainEvent>, to: nat, uninterrupted: seq<ChainEvent>)
    requires p.levels >= 1 && GoodHistory(p, w)
    requires IsRun(w, trace, steps) && HarmlessLoads(w, trace, steps) && k < |trace|
    requires i < w.count && |trace[k].store| == w.count && snap in trace[k].store[i]
    requires IsRange(page, w.history, snap.upTo + 1, to) && IsFullLog(w, uninterrupted, to)
    requires forall e :: e in snap.log ==> e.block <= to
    ensures Agree(CommitmentState(p, w, snap.log + page), CommitmentState(p, w, uninterrupted))
    ensures NullifierState(snap.log + page) == NullifierState(uninterrupted)
  {
    SnapshotsNeverOverclaim(w, trace, steps, k, i, snap);
    SnapshotPlusPage(w, snap, page, snap.upTo + 1, to, uninterrupted);
    LogsConverge(p, w, snap.log + page, uninterrupted);
  }

  function Lower(a: nat, b: nat): nat {
    if a < b then a else b
  }

  /** The reset sequence: load both snapshots, then retrieve from the watermark plus one up to `to`. */
  function Reset(w: World, m: Machine, c: Snapshot, n: Snapshot, to: nat, page: seq<ChainEvent>): Machine
    requires Shaped(w, m) && w.count == 2 && m.batch == None && to > Latest(w, Loaded(w, m, c, n))
  {
    var polled := Do(w, Loaded(w, m, c, n), StartPoll(false));
    var begun := Do(w, polled, BeginPoll(Latest(w, polled) + 1, to, page));
    var processed := Do(w, Do(w, begun, RunProcessor(true, false)), RunProcessor(true, false));
    Do(w, processed, Commit)
  }

  function Loaded(w: World, m: Machine, c: Snapshot, n: Snapshot): (r: Machine)
    requires Shaped(w, m) && w.count == 2
    ensures Shaped(w, r) && r.batch == m.batch
  {
    Do(w, Do(w, m, Load(0, c)), Load(1, n))
  }

  lemma ResetSteps(w: World, m: Machine, c: Snapshot, n: Snapshot, to: nat, page: seq<ChainEvent>)
    requires Shaped(w, m) && w.count == 2 && m.watermark == None && m.batch == None && to > Lower(c.upTo, n.upTo)
    ensures Latest(w, Loaded(w, m, c, n)) == Lower(c.upTo, n.upTo)
    ensures Reset(w, m, c, n, to, page).watermark == Some(to)
    ensures Reset(w, m, c, n, to, page).services == [Service(true, c.log + page), Service(true, n.log + page)]
  {
    var loaded := Loaded(w, m, c, n);
    assert loaded.services == [Service(true, c.log), Service(true, n.log)];
  }

  lemma SnapshotPlusPage(w: World, snap: Snapshot, page: seq<ChainEvent>, from: nat, to: nat, full: seq<ChainEvent>)
    requires Honest(w, snap) && from <= snap.upTo + 1 && (forall e :: e in snap.log ==> e.block <= to)
    requires IsRange(page, w.history, from, to) && IsFullLog(w, full, to)
    ensures SameEvents(snap.log + page, full)
  {
    forall e ensures e in snap.log + page <==> e in full {
      assert e in snap.log + page <==> e in snap.log || e in page;
    }
  }

  /**
   A commitment snapshot and a nullifier snapshot taken at different blocks, loaded together and
   followed by one retrieval from the lower block plus one, end as a replay of the whole history.
   */
  lemma ResetMatchesFullReplay(
      p: Params, w: World, m: Machine, c: Snapshot, n: Snapshot, to: nat, page: seq<ChainEvent>, full: seq<ChainEvent>)
    requires p.levels >= 1 && GoodHistory(p, w) && w.count == 2
    requires Shaped(w, m) && m.watermark == None && m.batch == None && Honest(w, c) && Honest(w, n)
    requires forall e :: e in c.log || e in n.log ==> e.block <= to
    requires to > Lower(c.upTo, n.upTo)
    requires IsRange(page, w.history, Lower(c.upTo, n.upTo) + 1, to) && IsFullLog(w, full, to)
    ensures var done := Reset(w, m, c, n, to, page);
            && done.watermark == Some(to)
            && Agree(CommitmentState(p, w, done.services[0].log), CommitmentState(p, w, full))
            && NullifierState(done.services[1].log) == NullifierState(full)
  {
    ResetSteps(w, m, c, n, to, page);
    SnapshotPlusPage(w, c, page, Lower(c.upTo, n.upTo) + 1, to, full);
    SnapshotPlusPage(w, n, page, Lower(c.upTo, n.upTo) + 1, to, full);
    LogsConverge(p, w, c.log + page, full);
    LogsConverge(p, w, n.log + page, full);
  }

  /* ---------------- in block order: the same state exactly ---------------- */

  predicate InBlockOrder(history: seq<ChainEvent>) {
    forall a, b :: 0 <= a <= b < |history| ==> history[a].block <= history[b].block
  }

  /** One commitment per leaf, leaves in range, and no event before block 1. */
  ghost predicate OrderedHistory(p: Params, w: World)
    requires p.levels >= 1
  {
    && InBlockOrder(w.history)
    && InRange(p, EventsIn(w.history, w.history)) && OneCommitmentPerIndex(EventsIn(w.history, w.history))
    && (forall e :: e in w.history ==> e.block >= 1)
  }

  lemma {:induction false} PagesJoin(history: seq<ChainEvent>, from: nat, mid: nat, to: nat)
    requires InBlockOrder(history) && from <= mid + 1 && mid <= to
    ensures PageOf(history, from, mid) + PageOf(history, mid + 1, to) == PageOf(history, from, to)
  {
    if history != [] {
      var init, e := history[..|history| - 1], history[|history| - 1];
      PagesJoin(init, from, mid, to);
      var a, b := PageOf(init, from, mid), PageOf(init, mid + 1, to);
      if e.block <= mid {
        assert PageOf(init, mid + 1, to) == [] by { NothingLater(init, mid + 1, to); }
        assert (a + [e]) + [] == a + [e] && a + [] == a;
      } else {
        assert a + (b + [e]) == (a + b) + [e];
      }
    }
  }

  lemma HasMember(page: seq<ChainEvent>)
    ensures page != [] ==> exists e :: e in page
  {
    if page != [] {
      assert page[0] in page;
    }
  }

  lemma NothingLater(history: seq<ChainEvent>, from: nat, to: nat)
    requires forall e :: e in history ==> e.block < from
    ensures PageOf(history, from, to) == []
  {
    HasMember(PageOf(history, from, to));
  }

  datatype Range = Range(from: nat, to: nat)

  /** What a service has been given after retrievals of these ranges. */
  function LogOf(history: seq<ChainEvent>, ranges: seq<Range>): seq<ChainEvent> {
    if ranges == [] then []
    else
      var r := ranges[|ranges| - 1];
      LogOf(history, ranges[..|ranges| - 1]) + PageOf(history, r.from, r.to)
  }

  function Higher(a: nat, b: nat): nat {
    if a > b then a else b
  }

  /** The last block read. */
  function ReadTo(ranges: seq<Range>): nat {
    if ranges == [] then 0 else Higher(ReadTo(ranges[..|ranges| - 1]), ranges[|ranges| - 1].to)
  }

  /** Every retrieval starts at or before the first unread block, so ranges may overlap but leave no gap. */
  predicate Chained(ranges: seq<Range>) {
    || ranges == []
    || (Chained(ranges[..|ranges| - 1]) && 1 <= ranges[|ranges| - 1].from <= ReadTo(ranges[..|ranges| - 1]) + 1)
  }

  lemma EventsStayWithin(p: Params, w: World, log: seq<ChainEvent>)
    requires p.levels >= 1 && OrderedHistory(p, w) && Genuine(w, log)
    ensures InRange(p, EventsIn(log, w.history)) && OneCommitmentPerIndex(EventsIn(log, w.history))
  {
    forall x | x in EventsIn(log, w.history) ensures x in EventsIn(w.history, w.history) {
      EventsInMembers(log, w.history, x);
      EventsInMembers(w.history, w.history, x);
    }
  }

  /** A page of blocks that the log has already changes nothing. */
  lemma PageRepeats(p: Params, w: World, log: seq<ChainEvent>, page: seq<ChainEvent>)
    requires p.levels >= 1 && OrderedHistory(p, w) && Genuine(w, log) && forall e :: e in page ==> e in log
    ensures CommitmentState(p, w, log + page) == CommitmentState(p, w, log)
  {
    var es, more := EventsIn(log, w.history), EventsIn(page, w.history);
    EventsStayWithin(p, w, log);
    AcceptedStay(p, es);
    forall x | x in more ensures x in es {
      EventsInMembers(page, w.history, x);
      EventsInMembers(log, w.history, x);
    }
    RepeatsChangeNothing(AcceptAll(Initial(p), es), more);
    EventsInConcat(log, page, w.history);
    AcceptAllConcat(Initial(p), es, more);
  }

  /** A page that starts inside what the log has and goes on behind it. */
  lemma PageOverlaps(p: Params, w: World, x: seq<ChainEvent>, y: seq<ChainEvent>, z: seq<ChainEvent>)
    requires p.levels >= 1 && OrderedHistory(p, w) && Genuine(w, x + y + z)
    ensures CommitmentState(p, w, (x + y) + (y + z)) == CommitmentState(p, w, x + y + z)
  {
    var h := w.history;
    var a, b, c := EventsIn(x, h), EventsIn(y, h), EventsIn(z, h);
    EventsStayWithin(p, w, x + y + z);
    EventsInConcat(x, y, h);
    EventsInConcat(y, z, h);
    EventsInConcat(x + y, z, h);
    EventsInConcat(x + y, y + z, h);
    OverlappingReplay(p, a, b, c);
    AcceptAllConcat(Initial(p), a + b, b + c);
  }

  /** The next range extends the covered part of the history, or repeats some of it. */
  lemma RangeExtends(p: Params, w: World, read: nat, r: Range)
    requires p.levels >= 1 && OrderedHistory(p, w) && 1 <= r.from <= read + 1
    ensures CommitmentState(p, w, PageOf(w.history, 1, read) + PageOf(w.history, r.from, r.to))
            == CommitmentState(p, w, PageOf(w.history, 1, Higher(read, r.to)))
  {
    if r.to > read {
      var x, y, z := RangeSplits(w.history, read, r);
      PageOverlaps(p, w, x, y, z);
    } else {
      PageRepeats(p, w, PageOf(w.history, 1, read), PageOf(w.history, r.from, r.to));
    }
  }

  /** Before the range, the part read twice, and the part read for the first time. */
  lemma RangeSplits(history: seq<ChainEvent>, read: nat, r: Range)
    returns (x: seq<ChainEvent>, y: seq<ChainEvent>, z: seq<ChainEvent>)
    requires InBlockOrder(history) && 1 <= r.from <= read + 1 <= r.to
    ensures PageOf(history, 1, read) == x + y && PageOf(history, r.from, r.to) == y + z
    ensures PageOf(history, 1, r.to) == x + y + z
  {
    x, y, z := PageOf(history, 1, r.from - 1), PageOf(history, r.from, read), PageOf(history, read + 1, r.to);
    PagesJoin(history, 1, r.from - 1, read);
    PagesJoin(history, r.from, read, r.to);
    PagesJoin(history, 1, read, r.to);
  }

  /** States with the same log go on alike. */
  lemma SameStateGoesOn(p: Params, w: World, a: seq<ChainEvent>, b: seq<ChainEvent>, page: seq<ChainEvent>)
    requires p.levels >= 1 && CommitmentState(p, w, a) == CommitmentState(p, w, b)
    ensures CommitmentState(p, w, a + page) == CommitmentState(p, w, b + page)
  {
    var h := w.history;
    EventsInConcat(a, page, h);
    EventsInConcat(b, page, h);
    AcceptAllConcat(Initial(p), EventsIn(a, h), EventsIn(page, h));
    AcceptAllConcat(Initial(p), EventsIn(b, h), EventsIn(page, h));
  }

  /** Equal states stay equal when the same page is added. */
  ghost predicate Appends<T(!new)>(state: seq<ChainEvent> -> T) {
    forall a, b, page :: state(a) == state(b) ==> state(a + page) == state(b + page)
  }

  /** A range that starts inside the covered part, or right behind it, extends it. */
  ghost predicate Extends<T(!new)>(history: seq<ChainEvent>, state: seq<ChainEvent> -> T) {
    forall read: nat, r: Range :: 1 <= r.from <= read + 1 ==>
      state(PageOf(history, 1, read) + PageOf(history, r.from, r.to)) == state(PageOf(history, 1, Higher(read, r.to)))
  }

  lemma {:induction false} RetrievalsExtend<T(!new)>(
      history: seq<ChainEvent>, ranges: seq<Range>, state: seq<ChainEvent> -> T)
    requires Chained(ranges) && Appends(state) && Extends(history, state)
    ensures state(LogOf(history, ranges)) == state(PageOf(history, 1, ReadTo(ranges)))
  {
    if ranges == [] {
      NothingBefore(history);
    } else {
      var init, r := ranges[..|ranges| - 1], ranges[|ranges| - 1];
      RetrievalsExtend(history, init, state);
      var read := ReadTo(init);
      assert state(PageOf(history, 1, read) + PageOf(history, r.from, r.to)) ==
        state(PageOf(history, 1, Higher(read, r.to)));
    }
  }

  /** The commitment service as a function of the log. */
  ghost function CommitmentService(p: Params, w: World): seq<ChainEvent> -> State
    requires p.levels >= 1
  {
    (log: seq<ChainEvent>) => CommitmentState(p, w, log)
  }

  lemma CommitmentsExtend(p: Params, w: World)
    requires p.levels >= 1 && OrderedHistory(p, w)
    ensures Appends(CommitmentService(p, w)) && Extends(w.history, CommitmentService(p, w))
  {
    var state := CommitmentService(p, w);
    forall a, b, page | state(a) == state(b) ensures state(a + page) == state(b + page) {
      SameStateGoesOn(p, w, a, b, page);
    }
    forall read: nat, r: Range | 1 <= r.from <= read + 1
      ensures state(PageOf(w.history, 1, read) + PageOf(w.history, r.from, r.to))
              == state(PageOf(w.history, 1, Higher(read, r.to)))
    {
      RangeExtends(p, w, read, r);
    }
  }

  /**
   With one commitment per leaf and pages in block order, any sequence of overlapping retrievals gives exactly
   the state of one pass over the history: the same tree, the same map and the same list in the same order.
   */
  lemma OverlappingRetrievals(p: Params, w: World, ranges: seq<Range>)
    requires p.levels >= 1 && OrderedHistory(p, w) && Chained(ranges)
    ensures CommitmentState(p, w, LogOf(w.history, ranges)) ==
      CommitmentState(p, w, PageOf(w.history, 1, ReadTo(ranges)))
  {
    CommitmentsExtend(p, w);
    RetrievalsExtend(w.history, ranges, CommitmentService(p, w));
  }

  lemma NothingBefore(history: seq<ChainEvent>)
    ensures PageOf(history, 1, 0) == []
  {
    HasMember(PageOf(history, 1, 0));
  }

  lemma SameNullifiers(a: seq<ChainEvent>, b: seq<ChainEvent>)
    requires SameEvents(a, b)
    ensures NullifierState(a) == NullifierState(b)
  {
    forall x ensures x in NullifierState(a) <==> x in NullifierState(b) {
      Nullifiers.PageMembers({}, a, x);
      Nullifiers.PageMembers({}, b, x);
    }
  }
}
