/** Pages in block order: every log and snapshot of every run has the state of one pass over the history. */
module OrderedRuns {
  import opened Wrappers
  import opened MT = MerkleTree
  import opened ChainEvents
  import opened Commitments
  import opened EventSync
  import opened Restart

  /** Retrievals return the events of their range in the order of the history. */
  predicate OrderedPages(w: World, trace: seq<Machine>, steps: seq<Step>)
    requires |trace| == |steps| + 1
  {
    forall k :: 0 <= k < |steps| ==> OrderedPage(w, trace[k], steps[k])
  }

  predicate OrderedPage(w: World, m: Machine, step: Step) {
    && (step.BeginPoll? ==> step.page == PageOf(w.history, step.from, step.lastBlock))
    && (step.BeginPush? && m.fetchFrom.Some? ==> step.page == PageOf(w.history, m.fetchFrom.value, step.latest))
  }

  /** In block order, with no event before block 1. */
  ghost predicate Ordered(w: World) {
    InBlockOrder(w.history) && forall e :: e in w.history ==> e.block >= 1
  }

  /** The log holds exactly the events up to block `r`. */
  ghost predicate Holds(w: World, log: seq<ChainEvent>, r: nat) {
    forall e :: e in log <==> e in w.history && e.block <= r
  }

  /** The log holds the events up to some block, and its state is that of one pass up to there. */
  ghost predicate OnePass<T(!new)>(w: World, log: seq<ChainEvent>, state: seq<ChainEvent> -> T) {
    exists r: nat :: Holds(w, log, r) && state(log) == state(PageOf(w.history, 1, r))
  }

  /* ---------------- one page ---------------- */

  /** Blocks without events do not change what has been read. */
  lemma EmptyStretch(w: World, a: nat, b: nat)
    requires Ordered(w) && a <= b && forall e :: e in w.history ==> !(a < e.block <= b)
    ensures PageOf(w.history, 1, a) == PageOf(w.history, 1, b)
  {
    PagesJoin(w.history, 1, a, b);
    HasMember(PageOf(w.history, a + 1, b));
    assert PageOf(w.history, 1, a) + [] == PageOf(w.history, 1, a);
  }

  lemma FromBlockZero(w: World, to: nat)
    requires Ordered(w)
    ensures PageOf(w.history, 0, to) == PageOf(w.history, 1, to)
  {
    PagesJoin(w.history, 0, 0, to);
    HasMember(PageOf(w.history, 0, 0));
    assert [] + PageOf(w.history, 1, to) == PageOf(w.history, 1, to);
  }

  /** A page that leaves no gap takes a log from one pass to a longer one. */
  lemma PassGrows<T(!new)>(w: World, log: seq<ChainEvent>, from: nat, to: nat, state: seq<ChainEvent> -> T)
    requires Ordered(w) && Appends(state) && Extends(w.history, state) && OnePass(w, log, state)
    requires forall e :: e in w.history && e.block < from ==> e in log
    ensures OnePass(w, log + PageOf(w.history, from, to), state)
  {
    if from == 0 {
      FromBlockZero(w, to);
      PassGrowsFrom(w, log, 1, to, state);
    } else {
      PassGrowsFrom(w, log, from, to, state);
    }
  }

  lemma PassGrowsFrom<T(!new)>(w: World, log: seq<ChainEvent>, from: nat, to: nat, state: seq<ChainEvent> -> T)
    requires Ordered(w) && Appends(state) && Extends(w.history, state) && OnePass(w, log, state)
    requires from >= 1 && forall e :: e in w.history && e.block < from ==> e in log
    ensures OnePass(w, log + PageOf(w.history, from, to), state)
  {
    var r := PassReaches(w, log, from - 1, state);
    HoldsMore(w, log, r, from, to);
    StateGrows(w.history, log, r, Range(from, to), state);
  }

  lemma HoldsMore(w: World, log: seq<ChainEvent>, r: nat, from: nat, to: nat)
    requires Holds(w, log, r) && from <= r + 1
    ensures Holds(w, log + PageOf(w.history, from, to), Higher(r, to))
  {
  }

  lemma StateGrows<T(!new)>(
      history: seq<ChainEvent>, log: seq<ChainEvent>, read: nat, r: Range, state: seq<ChainEvent> -> T)
    requires Appends(state) && Extends(history, state) && 1 <= r.from <= read + 1
    requires state(log) == state(PageOf(history, 1, read))
    ensures state(log + PageOf(history, r.from, r.to)) == state(PageOf(history, 1, Higher(read, r.to)))
  {
    assert state(PageOf(history, 1, read) + PageOf(history, r.from, r.to))
        == state(PageOf(history, 1, Higher(read, r.to)));
  }

  /** A log that has every event up to a block is one pass up to there at least. */
  lemma PassReaches<T(!new)>(w: World, log: seq<ChainEvent>, b: nat, state: seq<ChainEvent> -> T) returns (r: nat)
    requires Ordered(w) && OnePass(w, log, state) && forall e :: e in w.history && e.block <= b ==> e in log
    ensures r >= b && Holds(w, log, r) && state(log) == state(PageOf(w.history, 1, r))
  {
    var a: nat :| Holds(w, log, a) && state(log) == state(PageOf(w.history, 1, a));
    r := Higher(a, b);
    if a < b {
      EmptyStretch(w, a, b);
    }
  }

  /* ---------------- every step of every run ---------------- */

  ghost predicate AllOnePass<T(!new)>(w: World, m: Machine, state: seq<ChainEvent> -> T) {
    && Shaped(w, m)
    && (forall i :: 0 <= i < w.count ==> OnePass(w, m.services[i].log, state))
    && (forall i, snap :: 0 <= i < w.count && snap in m.store[i] ==> OnePass(w, snap.log, state))
    && (m.batch.Some? ==> m.batch.value.page == PageOf(w.history, m.batch.value.from, m.batch.value.to))
  }

  lemma EmptyPass<T(!new)>(w: World, state: seq<ChainEvent> -> T)
    requires Ordered(w)
    ensures OnePass(w, [], state)
  {
    NothingBefore(w.history);
    assert Holds(w, [], 0);
  }

  lemma ProcessorPass<T(!new)>(w: World, m: Machine, step: Step, state: seq<ChainEvent> -> T)
    requires Ordered(w) && Appends(state) && Extends(w.history, state)
    requires Inv(w, m) && AllOnePass(w, m, state) && step.RunProcessor? && Enabled(w, m, step)
    ensures AllOnePass(w, Do(w, m, step), state)
  {
    var r, b := Do(w, m, step), m.batch.value;
    assert Synced(w, m, b.next);
    PassGrows(w, m.services[b.next].log, b.from, b.to, state);
    forall i, snap | 0 <= i < w.count && snap in r.store[i] ensures OnePass(w, snap.log, state) {
      if snap !in m.store[i] {
        assert snap.log == r.services[b.next].log;
      }
    }
  }

  lemma StepPass<T(!new)>(w: World, m: Machine, step: Step, state: seq<ChainEvent> -> T)
    requires Ordered(w) && Appends(state) && Extends(w.history, state)
    requires Inv(w, m) && AllOnePass(w, m, state) && Enabled(w, m, step) && OrderedPage(w, m, step)
    ensures AllOnePass(w, Do(w, m, step), state)
  {
    if step.RunProcessor? {
      ProcessorPass(w, m, step, state);
    } else {
      EmptyPass(w, state);
    }
  }

  lemma {:induction false} RunPass<T(!new)>(
      w: World, trace: seq<Machine>, steps: seq<Step>, k: nat, state: seq<ChainEvent> -> T)
    requires Ordered(w) && Appends(state) && Extends(w.history, state)
    requires IsRun(w, trace, steps) && HarmlessLoads(w, trace, steps) && OrderedPages(w, trace, steps) && k < |trace|
    ensures AllOnePass(w, trace[k], state)
  {
    if k == 0 {
      EmptyPass(w, state);
    } else {
      RunPass(w, trace, steps, k - 1, state);
      RunKeeps(w, trace, steps, k - 1);
      StepPass(w, trace[k - 1], steps[k - 1], state);
    }
  }

  /* ---------------- restart and reset ---------------- */

  /** A run in block order, with one commitment per leaf. */
  ghost predicate OrderedRun(p: Params, w: World, trace: seq<Machine>, steps: seq<Step>)
    requires p.levels >= 1
  {
    OrderedHistory(p, w) && IsRun(w, trace, steps) && HarmlessLoads(w, trace, steps) && OrderedPages(w, trace, steps)
  }

  /** A pass that has every event before `from` and none after `to`, and the page in between, is the pass up to `to`. */
  lemma PassCompletes<T(!new)>(w: World, log: seq<ChainEvent>, from: nat, to: nat, state: seq<ChainEvent> -> T)
    requires Ordered(w) && Appends(state) && Extends(w.history, state) && OnePass(w, log, state)
    requires forall e :: e in w.history && e.block < from ==> e in log
    requires from <= to + 1 && forall e :: e in log ==> e.block <= to
    ensures state(log + PageOf(w.history, from, to)) == state(PageOf(w.history, 1, to))
  {
    PassGrows(w, log, from, to, state);
    PassEnds(w, log + PageOf(w.history, from, to), to, state);
  }

  lemma PassEnds<T(!new)>(w: World, log: seq<ChainEvent>, to: nat, state: seq<ChainEvent> -> T)
    requires Ordered(w) && OnePass(w, log, state)
    requires forall e :: e in w.history && e.block <= to ==> e in log
    requires forall e :: e in log ==> e.block <= to
    ensures state(log) == state(PageOf(w.history, 1, to))
  {
    var r := PassReaches(w, log, to, state);
    EmptyStretch(w, to, r);
  }

  /**
   For every snapshot saved at any point of any run: restarting from it and replaying from the block after its
   label, or from an earlier one, gives exactly the state of one pass over the history: the tree, the map and
   the list in order.
   */
  lemma RestartIsExactInOrder(
      p: Params, w: World, trace: seq<Machine>, steps: seq<Step>, k: nat, i: nat, snap: Snapshot, from: nat, to: nat)
    requires p.levels >= 1 && OrderedRun(p, w, trace, steps) && k < |trace|
    requires i < w.count && |trace[k].store| == w.count && snap in trace[k].store[i]
    requires from <= snap.upTo + 1 && from <= to + 1 && forall e :: e in snap.log ==> e.block <= to
    ensures CommitmentState(p, w, snap.log + PageOf(w.history, from, to))
            == CommitmentState(p, w, PageOf(w.history, 1, to))
  {
    CommitmentsExtend(p, w);
    RunPass(w, trace, steps, k, CommitmentService(p, w));
    SnapshotsNeverOverclaim(w, trace, steps, k, i, snap);
    PassCompletes(w, snap.log, from, to, CommitmentService(p, w));
  }

  /** The nullifier set ends as one pass over the history. */
  lemma NullifiersRestart(
      w: World, trace: seq<Machine>, steps: seq<Step>, k: nat, i: nat, snap: Snapshot, from: nat, to: nat)
    requires IsRun(w, trace, steps) && HarmlessLoads(w, trace, steps) && k < |trace|
    requires forall x :: x in w.history ==> x.block >= 1
    requires i < w.count && |trace[k].store| == w.count && snap in trace[k].store[i]
    requires from <= snap.upTo + 1 && from <= to + 1 && forall e :: e in snap.log ==> e.block <= to
    ensures NullifierState(snap.log + PageOf(w.history, from, to)) == NullifierState(PageOf(w.history, 1, to))
  {
    var page, full := PageOf(w.history, from, to), PageOf(w.history, 1, to);
    SnapshotsNeverOverclaim(w, trace, steps, k, i, snap);
    SnapshotPlusPage(w, snap, page, from, to, full);
    SameNullifiers(snap.log + page, full);
  }

  /**
   The reset after any run: the stored commitment and nullifier snapshots, whatever their blocks, and one
   retrieval from the lower block plus one give exactly the state of one pass, for both services.
   */
  lemma ResetIsExactInOrder(
      p: Params, w: World, trace: seq<Machine>, steps: seq<Step>, k: nat,
      m: Machine, c: Snapshot, n: Snapshot, to: nat, page: seq<ChainEvent>)
    requires p.levels >= 1 && OrderedRun(p, w, trace, steps) && k < |trace| && w.count == 2
    requires |trace[k].store| == 2 && c in trace[k].store[0] && n in trace[k].store[1]
    requires Shaped(w, m) && m.watermark == None && m.batch == None && to > Lower(c.upTo, n.upTo)
    requires forall e :: e in c.log || e in n.log ==> e.block <= to
    requires page == PageOf(w.history, Lower(c.upTo, n.upTo) + 1, to)
    ensures Latest(w, Loaded(w, m, c, n)) == Lower(c.upTo, n.upTo)
    ensures Reset(w, m, c, n, to, page).services == [Service(true, c.log + page), Service(true, n.log + page)]
    ensures CommitmentState(p, w, c.log + page) == CommitmentState(p, w, PageOf(w.history, 1, to))
    ensures NullifierState(n.log + page) == NullifierState(PageOf(w.history, 1, to))
  {
    var from := Lower(c.upTo, n.upTo) + 1;
    ResetSteps(w, m, c, n, to, page);
    RestartIsExactInOrder(p, w, trace, steps, k, 0, c, from, to);
    NullifiersRestart(w, trace, steps, k, 1, n, from, to);
  }
}
