/**
 The synchronisation protocol: several snapshot services behind one emitter, as a step machine
 over a fixed chain history. A retrieval takes the lock, runs the processors one by one and then
 moves the watermark; the client listener moves its own cursor afterwards, without the lock. Loads,
 saves and crashes may come between any two of these steps.
 */
module EventSync {
  import opened Wrappers
  import opened ChainEvents

  /* ---------------- the watermark ---------------- */

  function Advance(latest: Option<nat>, block: nat): (r: Option<nat>)
    ensures r.Some? && r.value >= block && (latest.Some? ==> r.value >= latest.value)
    ensures r == latest || r == Some(block)
  {
    if latest.None? || block > latest.value then Some(block) else latest
  }

  function SyncFromAtMost(latest: Option<nat>, block: nat): (r: Option<nat>)
    ensures r.Some? && r.value <= block && (latest.Some? ==> r.value <= latest.value)
    ensures r == latest || r == Some(block)
  {
    if latest.None? || block < latest.value then Some(block) else latest
  }

  class BlockchainEventEmitter {
    const initialBlockNumber: nat
    var latestBlockNumber: Option<nat>

    constructor (initial: nat)
      ensures initialBlockNumber == initial && latestBlockNumber == None
    {
      initialBlockNumber, latestBlockNumber := initial, None;
    }

    function LatestBlockNumber(): nat
      reads this
    {
      if latestBlockNumber.None? then initialBlockNumber else latestBlockNumber.value
    }

    method AdvanceLatestBlockNumber(block: nat)
      modifies this
      ensures latestBlockNumber == Advance(old(latestBlockNumber), block)
      ensures LatestBlockNumber() >= block
    {
      if latestBlockNumber.None? || block > latestBlockNumber.value {
        latestBlockNumber := Some(block);
      }
    }

    method SyncAtMost(block: nat)
      modifies this
      ensures latestBlockNumber == SyncFromAtMost(old(latestBlockNumber), block)
      ensures LatestBlockNumber() <= block
    {
      if latestBlockNumber.None? || block < latestBlockNumber.value {
        latestBlockNumber := Some(block);
      }
    }
  }

  /* ---------------- the machine ---------------- */

  datatype Snapshot = Snapshot(upTo: nat, log: seq<ChainEvent>)

  /** A service is represented by the chain events it has been given since its snapshot's beginning. */
  datatype Service = Service(loaded: bool, log: seq<ChainEvent>)

  /** The batch whose retrieval holds the lock; processors before `next` have taken its page. */
  datatype Batch = Batch(from: nat, to: nat, page: seq<ChainEvent>, next: nat, pushed: bool)

  datatype Machine = Machine(
    watermark: Option<nat>,
    services: seq<Service>,
    polls: set<nat>,            // start blocks read by polls that have not taken the lock yet
    fetchFrom: Option<nat>,     // the client listener's own cursor
    batch: Option<Batch>,
    settling: Option<nat>,      // the block the listener is about to settle on, after the lock is released
    store: seq<set<Snapshot>>)  // what each service has persisted

  datatype Step =
    | Load(i: nat, snap: Snapshot)
    | StartPoll(again: bool)
    | BeginPoll(from: nat, lastBlock: nat, page: seq<ChainEvent>)
    | StartListener
    | BeginPush(latest: nat, page: seq<ChainEvent>)
    | RunProcessor(ok: bool, save: bool)
    | Commit
    | Settle
    | Save(i: nat)
    | Crash

  datatype World = World(history: seq<ChainEvent>, initialBlock: nat, count: nat)

  function Latest(w: World, m: Machine): nat {
    if m.watermark.None? then w.initialBlock else m.watermark.value
  }

  function Fresh(w: World): (s: seq<Service>)
    ensures |s| == w.count && forall i :: 0 <= i < |s| ==> s[i] == Service(false, [])
  {
    seq(w.count, _ => Service(false, []))
  }

  /** Nothing loaded, and the server can always hand out the empty snapshot up to block 0. */
  function Boot(w: World): Machine {
    Machine(None, Fresh(w), {}, None, None, None, seq(w.count, _ => {Snapshot(0, [])}))
  }

  predicate Shaped(w: World, m: Machine) {
    |m.services| == |m.store| == w.count && (m.batch.Some? ==> m.batch.value.next <= w.count)
  }

  predicate AllLoaded(m: Machine) {
    forall i :: 0 <= i < |m.services| ==> m.services[i].loaded
  }

  /** The listener waits for nothing; an empty answer does not need the lock. */
  predicate ListenerIsFree(m: Machine, page: seq<ChainEvent>) {
    m.settling.None? && (m.batch.None? || (page == [] && !m.batch.value.pushed))
  }

  ghost predicate Enabled(w: World, m: Machine, step: Step)
    requires Shaped(w, m)
  {
    match step
    case Load(i, snap) => i < w.count && snap in m.store[i]
    case StartPoll(_) => true
    case BeginPoll(from, lastBlock, page) =>
      m.batch.None? && AllLoaded(m) && from in m.polls && IsRange(page, w.history, from, lastBlock)
    case StartListener => m.fetchFrom.None?
    case BeginPush(latest, page) =>
      && AllLoaded(m) && m.fetchFrom.Some? && ListenerIsFree(m, page)
      && IsRange(page, w.history, m.fetchFrom.value, latest)
    case RunProcessor(_, _) => m.batch.Some? && m.batch.value.next < w.count
    case Commit => m.batch.Some? && m.batch.value.next == w.count
    case Settle => m.settling.Some?
    case Save(i) => i < w.count && AllLoaded(m)
    case Crash => true
  }

  /**
   A processor takes the whole page and may persist a snapshot, labelled with the watermark of the
   moment; if it then fails, the lock is released and later processors never see the page.
   */
  function Process(w: World, m: Machine, ok: bool, save: bool): (r: Machine)
    requires Shaped(w, m) && m.batch.Some? && m.batch.value.next < w.count
    ensures Shaped(w, r)
  {
    var b := m.batch.value;
    var log := m.services[b.next].log + b.page;
    m.(services := m.services[b.next := m.services[b.next].(log := log)],
       store := if save then m.store[b.next := m.store[b.next] + {Snapshot(Latest(w, m), log)}] else m.store,
       batch := if ok then Some(b.(next := b.next + 1)) else None)
  }

  function Do(w: World, m: Machine, step: Step): (r: Machine)
    requires Shaped(w, m)
    requires step.Load? || step.Save? ==> step.i < w.count
    requires step.BeginPush? ==> m.fetchFrom.Some?
    requires step.RunProcessor? ==> m.batch.Some? && m.batch.value.next < w.count
    requires step.Commit? ==> m.batch.Some?
    requires step.Settle? ==> m.settling.Some?
    ensures Shaped(w, r)
  {
    match step
    case Load(i, snap) =>
      m.(services := m.services[i := Service(true, snap.log)], watermark := SyncFromAtMost(m.watermark, snap.upTo))
    case StartPoll(again) =>
      m.(polls := m.polls + {if again then Latest(w, m) else Latest(w, m) + 1})
    case BeginPoll(from, lastBlock, page) =>
      m.(polls := m.polls - {from},
         batch := if lastBlock < from then m.batch else Some(Batch(from, lastBlock, page, 0, false)))
    case StartListener =>
      m.(fetchFrom := Some(Latest(w, m) + 1))
    case BeginPush(latest, page) =>
      if page != [] then m.(batch := Some(Batch(m.fetchFrom.value, latest, page, 0, true)))
      else if latest >= m.fetchFrom.value then m.(settling := Some(latest))
      else m
    case RunProcessor(ok, save) => Process(w, m, ok, save)
    case Commit =>
      var b := m.batch.value;
      if b.pushed then m.(watermark := Advance(m.watermark, b.to), batch := None, settling := Some(b.to))
      else m.(watermark := Some(b.to), batch := None)
    case Settle =>
      m.(watermark := Advance(m.watermark, m.settling.value), fetchFrom := Some(m.settling.value + 1), settling := None)
    case Save(i) =>
      m.(store := m.store[i := m.store[i] + {Snapshot(Latest(w, m), m.services[i].log)}])
    case Crash =>
      Machine(None, Fresh(w), {}, None, None, None, m.store)
  }

  /* ---------------- what every step keeps ---------------- */

  ghost predicate Genuine(w: World, log: seq<ChainEvent>) {
    forall e :: e in log ==> e in w.history
  }

  /** The snapshot has every event up to its block, and invents nothing. */
  ghost predicate Honest(w: World, snap: Snapshot) {
    Genuine(w, snap.log) && forall e :: e in w.history && e.block <= snap.upTo ==> e in snap.log
  }

  /** The batch in flight takes service `i` to have every event below this block. */
  function BatchBound(b: Batch, i: nat): nat {
    if i < b.next then b.to + 1 else b.from
  }

  /** Some poll, the listener or the batch in flight takes the block as read by service `i`. */
  ghost predicate BelowCursor(m: Machine, i: nat, block: nat) {
    || (m.fetchFrom.Some? && block < m.fetchFrom.value)
    || (m.settling.Some? && block <= m.settling.value)
    || (m.batch.Some? && block < BatchBound(m.batch.value, i))
    || exists from :: from in m.polls && block < from
  }

  /** An event at the listener's own cursor, so that its next answer is not empty and has to wait for the lock. */
  ghost predicate ListenerMustWait(w: World, m: Machine) {
    m.fetchFrom.Some? && exists x :: x in w.history && x.block == m.fetchFrom.value
  }

  /**
   The batch in flight is about to bring the event to service `i`, before the watermark can pass it: it is the
   service's turn, the listener does not settle there, and cannot without the lock.
   */
  ghost predicate Coming(w: World, m: Machine, i: nat, e: ChainEvent) {
    && m.batch.Some? && m.batch.value.next == i && m.batch.value.from <= e.block <= m.batch.value.to
    && !(m.settling.Some? && e.block <= m.settling.value)
    && (m.fetchFrom.Some? && e.block < m.fetchFrom.value ==> ListenerMustWait(w, m))
  }

  /** A loaded service has every event at or below the watermark, and every event below a cursor or coming. */
  ghost predicate Synced(w: World, m: Machine, i: nat)
    requires Shaped(w, m) && i < w.count
  {
    m.services[i].loaded ==>
      && m.watermark.Some? && Genuine(w, m.services[i].log)
      && (forall e :: e in w.history && e.block <= Latest(w, m) ==> e in m.services[i].log)
      && (forall e :: e in w.history && BelowCursor(m, i, e.block) ==> e in m.services[i].log || Coming(w, m, i, e))
  }

  /** The batch in flight is a page of the history; the listener settles beyond its cursor. */
  ghost predicate InFlight(w: World, m: Machine) {
    && (m.batch.Some? ==>
          && AllLoaded(m) && m.batch.value.from <= m.batch.value.to
          && IsRange(m.batch.value.page, w.history, m.batch.value.from, m.batch.value.to))
    && (m.batch.Some? && m.batch.value.pushed ==> m.settling.None? && m.fetchFrom == Some(m.batch.value.from))
    && (m.settling.Some? ==> m.fetchFrom.Some? && m.fetchFrom.value <= m.settling.value)
  }

  ghost predicate Inv(w: World, m: Machine) {
    && Shaped(w, m) && InFlight(w, m)
    && (forall i :: 0 <= i < w.count ==> Synced(w, m, i) && m.store[i] != {})
    && (forall i, snap :: 0 <= i < w.count && snap in m.store[i] ==> Honest(w, snap))
  }

  /** The event is taken as read by service `i`, but is neither in the snapshot nor about to come. */
  ghost predicate Missed(w: World, m: Machine, i: nat, snap: Snapshot, e: ChainEvent) {
    && e in w.history && BelowCursor(m, i, e.block) && e.block > snap.upTo
    && e !in snap.log && !Coming(w, m, i, e)
  }

  /**
   A load may pull the watermark down, but not a cursor that was read from it earlier. Nothing is
   lost when the snapshot already has every event between its block and such a cursor.
   */
  ghost predicate Harmless(w: World, m: Machine, step: Step) {
    step.Load? ==> forall e :: !Missed(w, m, step.i, step.snap, e)
  }

  /** Block numbers alone tell that a load is harmless. */
  predicate CursorsBelow(m: Machine, i: nat, upTo: nat) {
    && (m.fetchFrom.Some? ==> m.fetchFrom.value <= upTo + 1)
    && (m.settling.Some? ==> m.settling.value <= upTo)
    && (m.batch.Some? ==> BatchBound(m.batch.value, i) <= upTo + 1)
    && (forall from :: from in m.polls ==> from <= upTo + 1)
  }

  lemma CursorsBelowIsHarmless(w: World, m: Machine, step: Step)
    requires step.Load? && CursorsBelow(m, step.i, step.snap.upTo)
    ensures Harmless(w, m, step)
  {
  }

  lemma LoadKeeps(w: World, m: Machine, step: Step)
    requires Inv(w, m) && step.Load? && Enabled(w, m, step) && Harmless(w, m, step)
    ensures Inv(w, Do(w, m, step))
  {
    var r := Do(w, m, step);
    forall i | 0 <= i < w.count ensures Synced(w, r, i) {
      assert Synced(w, m, i);
      assert i == step.i ==> Honest(w, step.snap);
      forall e | e in w.history && BelowCursor(r, i, e.block) && r.services[i].loaded
        ensures e in r.services[i].log || Coming(w, r, i, e)
      {
        assert BelowCursor(m, i, e.block) && (Coming(w, r, i, e) <==> Coming(w, m, i, e));
        assert i == step.i ==> !Missed(w, m, i, step.snap, e);
      }
    }
  }

  /** Reading a start block from the watermark, for a poll or for the listener. */
  lemma CursorKeeps(w: World, m: Machine, step: Step)
    requires Inv(w, m) && (step.StartPoll? || step.StartListener?) && Enabled(w, m, step)
    ensures Inv(w, Do(w, m, step))
  {
    var r := Do(w, m, step);
    forall i | 0 <= i < w.count ensures Synced(w, r, i) {
      assert Synced(w, m, i);
      assert forall b: nat :: BelowCursor(r, i, b) ==> b <= Latest(w, m) || BelowCursor(m, i, b);
    }
  }

  lemma BeginPollKeeps(w: World, m: Machine, step: Step)
    requires Inv(w, m) && step.BeginPoll? && Enabled(w, m, step)
    ensures Inv(w, Do(w, m, step))
  {
    var r := Do(w, m, step);
    forall i | 0 <= i < w.count ensures Synced(w, r, i) {
      assert Synced(w, m, i);
      assert forall b: nat :: BelowCursor(r, i, b) ==> BelowCursor(m, i, b);
    }
  }

  lemma BeginPushKeeps(w: World, m: Machine, step: Step)
    requires Inv(w, m) && step.BeginPush? && Enabled(w, m, step)
    ensures Inv(w, Do(w, m, step))
  {
    var r := Do(w, m, step);
    assert step.page == [] || step.page[0] in step.page;
    forall i | 0 <= i < w.count ensures Synced(w, r, i) {
      assert Synced(w, m, i);
      assert forall b: nat :: BelowCursor(r, i, b) ==>
        BelowCursor(m, i, b) || (step.page == [] && m.fetchFrom.value <= b <= step.latest);
    }
  }

  /** The processor whose turn it is has the page afterwards; the others have what they had. */
  lemma ProcessorKeeps(w: World, m: Machine, step: Step)
    requires Inv(w, m) && step.RunProcessor? && Enabled(w, m, step)
    ensures Inv(w, Do(w, m, step))
  {
    var r, b := Do(w, m, step), m.batch.value;
    forall i | 0 <= i < w.count ensures Synced(w, r, i) {
      assert Synced(w, m, i);
      assert forall k: nat :: BelowCursor(r, i, k) ==> BelowCursor(m, i, k) || (i == b.next && b.from <= k <= b.to);
      if i == b.next {
        assert forall e :: e in r.services[i].log <==> e in m.services[i].log || e in b.page;
      }
    }
    SavedByProcessor(w, m, step);
  }

  lemma SavedByProcessor(w: World, m: Machine, step: Step)
    requires Inv(w, m) && step.RunProcessor? && Enabled(w, m, step)
    ensures forall i, snap :: 0 <= i < w.count && snap in Do(w, m, step).store[i] ==> Honest(w, snap)
  {
    var r, b := Do(w, m, step), m.batch.value;
    forall i, snap | 0 <= i < w.count && snap in r.store[i] ensures Honest(w, snap) {
      if snap !in m.store[i] {
        assert Synced(w, m, b.next);
        assert forall e :: e in snap.log <==> e in m.services[b.next].log || e in b.page;
      }
    }
  }

  /** The watermark and the listener's block move only to where every service has arrived. */
  lemma CommitKeeps(w: World, m: Machine, step: Step)
    requires Inv(w, m) && (step.Commit? || step.Settle?) && Enabled(w, m, step)
    ensures Inv(w, Do(w, m, step))
  {
    var r := Do(w, m, step);
    forall i | 0 <= i < w.count ensures Synced(w, r, i) {
      assert Synced(w, m, i);
      assert forall b: nat :: b <= Latest(w, r) || BelowCursor(r, i, b) ==> b <= Latest(w, m) || BelowCursor(m, i, b);
    }
  }

  lemma SaveKeeps(w: World, m: Machine, step: Step)
    requires Inv(w, m) && step.Save? && Enabled(w, m, step)
    ensures Inv(w, Do(w, m, step))
  {
    var r := Do(w, m, step);
    assert Synced(w, m, step.i);
    forall i | 0 <= i < w.count ensures Synced(w, r, i) {
      assert Synced(w, m, i);
      assert forall b :: BelowCursor(r, i, b) <==> BelowCursor(m, i, b);
    }
  }

  lemma StepKeeps(w: World, m: Machine, step: Step)
    requires Inv(w, m) && Enabled(w, m, step) && Harmless(w, m, step)
    ensures Inv(w, Do(w, m, step))
  {
    match step
    case Load(_, _) => LoadKeeps(w, m, step);
    case StartPoll(_) => CursorKeeps(w, m, step);
    case StartListener => CursorKeeps(w, m, step);
    case BeginPoll(_, _, _) => BeginPollKeeps(w, m, step);
    case BeginPush(_, _) => BeginPushKeeps(w, m, step);
    case RunProcessor(_, _) => ProcessorKeeps(w, m, step);
    case Commit => CommitKeeps(w, m, step);
    case Settle => CommitKeeps(w, m, step);
    case Save(_) => SaveKeeps(w, m, step);
    case Crash =>
      forall i | 0 <= i < w.count ensures Synced(w, Do(w, m, step), i) {}
  }

  /** What is saved is the service's log of that moment, labelled with the watermark from before the step. */
  lemma SavesAreLabelled(w: World, m: Machine, step: Step, i: nat, snap: Snapshot)
    requires Shaped(w, m) && Enabled(w, m, step) && i < w.count
    requires snap in Do(w, m, step).store[i] && snap !in m.store[i]
    ensures snap.upTo == Latest(w, m) && snap.log == Do(w, m, step).services[i].log
  {
  }

  /** Where each step leaves the watermark and the listener's cursor. */
  lemma WatermarkMoves(w: World, m: Machine, step: Step)
    requires Shaped(w, m) && Enabled(w, m, step)
    ensures var r := Do(w, m, step);
            && (step.Load? && m.watermark.Some? ==>
                  r.watermark == Some(if step.snap.upTo < m.watermark.value then step.snap.upTo else m.watermark.value))
            && (step.Load? && m.watermark.None? ==> r.watermark == Some(step.snap.upTo))
            && (step.Commit? && !m.batch.value.pushed ==> r.watermark == Some(m.batch.value.to))
            && (step.Commit? && m.batch.value.pushed ==>
                  r.settling == Some(m.batch.value.to) && Latest(w, r) >= m.batch.value.to)
            && (step.Settle? ==> r.fetchFrom == Some(m.settling.value + 1) && Latest(w, r) >= m.settling.value)
            && (step.StartPoll? ==> r.polls == m.polls + {Latest(w, m) + if step.again then 0 else 1})
            && (step.StartListener? ==> r.fetchFrom == Some(Latest(w, m) + 1))
            && (step.Crash? ==> r.watermark == None && r.store == m.store)
            && (!(step.Load? || step.Commit? || step.Settle? || step.Crash?) ==> r.watermark == m.watermark)
  {
  }

  /* ---------------- whole runs ---------------- */

  /** `trace` is a run: it boots, and each state follows from the one before by an enabled step. */
  ghost predicate IsRun(w: World, trace: seq<Machine>, steps: seq<Step>) {
    && |trace| == |steps| + 1
    && trace[0] == Boot(w)
    && forall k :: 0 <= k < |steps| ==>
         Shaped(w, trace[k]) && Enabled(w, trace[k], steps[k]) && trace[k + 1] == Do(w, trace[k], steps[k])
  }

  ghost predicate HarmlessLoads(w: World, trace: seq<Machine>, steps: seq<Step>)
    requires |trace| == |steps| + 1
  {
    forall k :: 0 <= k < |steps| ==> Harmless(w, trace[k], steps[k])
  }

  lemma {:induction false} RunKeeps(w: World, trace: seq<Machine>, steps: seq<Step>, k: nat)
    requires IsRun(w, trace, steps) && HarmlessLoads(w, trace, steps) && k < |trace|
    requires forall e :: e in w.history ==> e.block >= 1
    ensures Inv(w, trace[k])
  {
    if k == 0 {
      forall i, snap | 0 <= i < w.count && snap in Boot(w).store[i] ensures Honest(w, snap) {
        assert snap == Snapshot(0, []);
      }
      forall i | 0 <= i < w.count ensures Synced(w, Boot(w), i) {}
    } else {
      RunKeeps(w, trace, steps, k - 1);
      StepKeeps(w, trace[k - 1], steps[k - 1]);
    }
  }

  /** In every run with harmless loads, every event at or below the watermark is in every loaded service. */
  lemma WatermarkIsReached(w: World, trace: seq<Machine>, steps: seq<Step>, k: nat, i: nat, e: ChainEvent)
    requires IsRun(w, trace, steps) && HarmlessLoads(w, trace, steps) && k < |trace|
    requires forall x :: x in w.history ==> x.block >= 1
    requires i < w.count && |trace[k].services| == w.count && trace[k].services[i].loaded
    requires e in w.history && e.block <= Latest(w, trace[k])
    ensures e in trace[k].services[i].log
  {
    RunKeeps(w, trace, steps, k);
    assert Synced(w, trace[k], i);
  }

  /** In every run with harmless loads, no snapshot claims more than it holds. */
  lemma SnapshotsNeverOverclaim(w: World, trace: seq<Machine>, steps: seq<Step>, k: nat, i: nat, snap: Snapshot)
    requires IsRun(w, trace, steps) && HarmlessLoads(w, trace, steps) && k < |trace|
    requires forall x :: x in w.history ==> x.block >= 1
    requires i < w.count && |trace[k].store| == w.count && snap in trace[k].store[i]
    ensures Honest(w, snap)
  {
    RunKeeps(w, trace, steps, k);
  }

  /* ---------------- the condition on loads is exact ---------------- */

  /** The machine after a sequence of enabled steps. */
  ghost predicate Leads(w: World, m: Machine, steps: seq<Step>, last: Machine)
    decreases |steps|
  {
    if steps == [] then m == last
    else Shaped(w, m) && Enabled(w, m, steps[0]) && Leads(w, Do(w, m, steps[0]), steps[1..], last)
  }

  /** The guarantee is broken: an event at or below the watermark that a loaded service lacks. */
  ghost predicate Broken(w: World, m: Machine, i: nat, e: ChainEvent) {
    i < |m.services| && m.services[i].loaded && e.block <= Latest(w, m) && e !in m.services[i].log
  }

  /** The events of a block range, as a page. */
  function PageOf(history: seq<ChainEvent>, from: nat, to: nat): (page: seq<ChainEvent>)
    ensures forall e :: e in page <==> e in history && from <= e.block <= to
  {
    if history == [] then []
    else
      var e, init := history[|history| - 1], history[..|history| - 1];
      assert history == init + [e];
      if from <= e.block <= to then PageOf(init, from, to) + [e] else PageOf(init, from, to)
  }

  lemma {:induction false} Onward(w: World, m: Machine, a: seq<Step>, mid: Machine, b: seq<Step>, last: Machine)
    requires Leads(w, m, a, mid) && Leads(w, mid, b, last)
    ensures Leads(w, m, a + b, last)
    decreases |a|
  {
    if a == [] {
      assert a + b == b;
    } else {
      assert (a + b)[1..] == a[1..] + b;
      Onward(w, Do(w, m, a[0]), a[1..], mid, b, last);
    }
  }

  lemma OneStep(w: World, m: Machine, step: Step, steps: seq<Step>, last: Machine)
    requires Shaped(w, m) && Enabled(w, m, step) && Leads(w, Do(w, m, step), steps, last)
    ensures Leads(w, m, [step] + steps, last)
  {
    assert ([step] + steps)[1..] == steps;
  }

  /** The batch in flight runs to its end: the remaining processors take the page, and the watermark moves. */
  lemma {:induction false} BatchCompletes(w: World, m: Machine, i: nat) returns (steps: seq<Step>, last: Machine)
    requires Shaped(w, m) && m.batch.Some? && i < w.count
    ensures Leads(w, m, steps, last) && Shaped(w, last)
    ensures last.watermark.Some? && Latest(w, last) >= m.batch.value.to
    ensures last.services[i].loaded == m.services[i].loaded
    ensures last.services[i].log == m.services[i].log + if i < m.batch.value.next then [] else m.batch.value.page
    decreases w.count - m.batch.value.next
  {
    var b := m.batch.value;
    if b.next == w.count {
      steps, last := [Commit], Do(w, m, Commit);
      OneStep(w, m, Commit, [], last);
      assert m.services[i].log + [] == m.services[i].log;
    } else {
      var step := RunProcessor(true, false);
      var rest;
      rest, last := BatchCompletes(w, Do(w, m, step), i);
      steps := [step] + rest;
      OneStep(w, m, step, rest, last);
      var log := m.services[i].log;
      assert log + [] == log && log + b.page + [] == log + b.page;
    }
  }

  /** Service `i` is loaded and lacks the event. */
  ghost predicate Lacks(w: World, m: Machine, i: nat, e: ChainEvent) {
    Shaped(w, m) && i < w.count && m.services[i].loaded && e !in m.services[i].log
  }

  lemma BatchBreaks(w: World, m: Machine, i: nat, e: ChainEvent) returns (steps: seq<Step>, last: Machine)
    requires Lacks(w, m, i, e) && InFlight(w, m)
    requires m.batch.Some? && e.block < BatchBound(m.batch.value, i)
    ensures Leads(w, m, steps, last) && Broken(w, last, i, e)
  {
    steps, last := BatchCompletes(w, m, i);
  }

  lemma SettleBreaks(w: World, m: Machine, i: nat, e: ChainEvent) returns (steps: seq<Step>, last: Machine)
    requires Lacks(w, m, i, e) && m.settling.Some? && e.block <= m.settling.value
    ensures Leads(w, m, steps, last) && Broken(w, last, i, e)
  {
    steps, last := [Settle], Do(w, m, Settle);
    OneStep(w, m, Settle, [], last);
  }

  lemma PollBreaks(w: World, m: Machine, i: nat, e: ChainEvent, from: nat) returns (steps: seq<Step>, last: Machine)
    requires Lacks(w, m, i, e) && AllLoaded(m) && m.batch.None? && from in m.polls && e.block < from
    ensures Leads(w, m, steps, last) && Broken(w, last, i, e)
  {
    var begin := BeginPoll(from, from, PageOf(w.history, from, from));
    var rest;
    rest, last := BatchCompletes(w, Do(w, m, begin), i);
    steps := [begin] + rest;
    OneStep(w, m, begin, rest, last);
  }

  lemma PushBreaks(w: World, m: Machine, i: nat, e: ChainEvent) returns (steps: seq<Step>, last: Machine)
    requires Lacks(w, m, i, e) && AllLoaded(m) && m.batch.None? && m.settling.None?
    requires m.fetchFrom.Some? && e.block < m.fetchFrom.value
    ensures Leads(w, m, steps, last) && Broken(w, last, i, e)
  {
    var from := m.fetchFrom.value;
    var begin := BeginPush(from, PageOf(w.history, from, from));
    var rest, begun := [], Do(w, m, begin);
    if begin.page == [] {
      rest, last := SettleBreaks(w, begun, i, e);
    } else {
      rest, last := BatchCompletes(w, begun, i);
    }
    steps := [begin] + rest;
    OneStep(w, m, begin, rest, last);
  }

  /** Without events at its cursor the listener gets an empty answer and settles beside the batch in flight. */
  lemma EmptyPushBreaks(w: World, m: Machine, i: nat, e: ChainEvent) returns (steps: seq<Step>, last: Machine)
    requires Lacks(w, m, i, e) && AllLoaded(m) && m.settling.None? && (m.batch.Some? ==> !m.batch.value.pushed)
    requires m.fetchFrom.Some? && e.block < m.fetchFrom.value && !ListenerMustWait(w, m)
    ensures Leads(w, m, steps, last) && Broken(w, last, i, e)
  {
    var begin := BeginPush(m.fetchFrom.value, []);
    var rest;
    rest, last := SettleBreaks(w, Do(w, m, begin), i, e);
    steps := [begin] + rest;
    OneStep(w, m, begin, rest, last);
  }

  /** The lock is released without the event reaching the service: the batch ends, or a processor fails. */
  lemma LockReleased(w: World, m: Machine, i: nat, e: ChainEvent) returns (step: Step)
    requires Lacks(w, m, i, e) && InFlight(w, m) && m.batch.Some?
    requires m.batch.value.next == i ==> !(m.batch.value.from <= e.block <= m.batch.value.to)
    ensures Enabled(w, m, step) && (step.RunProcessor? || step.Commit?)
    ensures var r := Do(w, m, step);
            && Lacks(w, r, i, e) && AllLoaded(r) && r.batch.None?
            && r.polls == m.polls && r.fetchFrom == m.fetchFrom
            && (r.settling == m.settling || (m.batch.value.pushed && r.settling == Some(m.batch.value.to)))
  {
    step := if m.batch.value.next == w.count then Commit else RunProcessor(false, false);
  }

  /** A gap below a waiting poll or the listener's cursor, with nobody else's batch in the way. */
  lemma IdleBreaks(w: World, m: Machine, i: nat, e: ChainEvent) returns (steps: seq<Step>, last: Machine)
    requires Lacks(w, m, i, e) && AllLoaded(m) && m.batch.None?
    requires BelowCursor(m, i, e.block)
    requires m.settling.Some? ==> m.fetchFrom.Some? && m.fetchFrom.value <= m.settling.value
    ensures Leads(w, m, steps, last) && Broken(w, last, i, e)
  {
    if m.settling.Some? && e.block <= m.settling.value {
      steps, last := SettleBreaks(w, m, i, e);
    } else if m.fetchFrom.Some? && e.block < m.fetchFrom.value {
      steps, last := PushBreaks(w, m, i, e);
    } else {
      var from :| from in m.polls && e.block < from;
      steps, last := PollBreaks(w, m, i, e, from);
    }
  }

  /** The services not loaded yet can be loaded, which moves no cursor. */
  lemma {:induction false} OthersLoad(w: World, m: Machine, k: nat, i: nat, e: ChainEvent)
    returns (steps: seq<Step>, last: Machine)
    requires Lacks(w, m, i, e) && k <= w.count && forall j :: 0 <= j < k ==> m.services[j].loaded
    requires forall j :: 0 <= j < w.count ==> m.store[j] != {}
    ensures Leads(w, m, steps, last) && Lacks(w, last, i, e) && AllLoaded(last)
    ensures last == m.(services := last.services, watermark := last.watermark)
    decreases w.count - k
  {
    if k == w.count {
      steps, last := [], m;
    } else if m.services[k].loaded {
      steps, last := OthersLoad(w, m, k + 1, i, e);
    } else {
      assert m.store[k] != {};
      var snap :| snap in m.store[k];
      var rest;
      rest, last := OthersLoad(w, Do(w, m, Load(k, snap)), k + 1, i, e);
      steps := [Load(k, snap)] + rest;
      OneStep(w, m, Load(k, snap), rest, last);
    }
  }

  /** With a batch in flight, an event that is missing and not coming is passed by the watermark. */
  lemma FlightBreaks(w: World, m: Machine, i: nat, e: ChainEvent) returns (steps: seq<Step>, last: Machine)
    requires Lacks(w, m, i, e) && InFlight(w, m) && m.batch.Some? && BelowCursor(m, i, e.block) && !Coming(w, m, i, e)
    ensures Leads(w, m, steps, last) && Broken(w, last, i, e)
  {
    var b := m.batch.value;
    if m.settling.Some? && e.block <= m.settling.value {
      steps, last := SettleBreaks(w, m, i, e);
    } else if e.block < BatchBound(b, i) {
      steps, last := BatchBreaks(w, m, i, e);
    } else if b.next == i && b.from <= e.block <= b.to {
      steps, last := EmptyPushBreaks(w, m, i, e);
    } else {
      var step := LockReleased(w, m, i, e);
      var rest;
      rest, last := IdleBreaks(w, Do(w, m, step), i, e);
      steps := [step] + rest;
      OneStep(w, m, step, rest, last);
    }
  }

  /**
   The condition on loads is exact: after a load that misses an event, the machine can go on by itself to a
   state whose watermark is above an event that the loaded service lacks.
   */
  lemma MissedBreaks(w: World, m: Machine, load: Step, e: ChainEvent) returns (steps: seq<Step>, last: Machine)
    requires Inv(w, m) && load.Load? && Enabled(w, m, load) && Missed(w, m, load.i, load.snap, e)
    ensures !Harmless(w, m, load)
    ensures Leads(w, Do(w, m, load), steps, last) && Broken(w, last, load.i, e)
  {
    var m1 := Do(w, m, load);
    if m1.batch.Some? {
      assert Coming(w, m1, load.i, e) <==> Coming(w, m, load.i, e);
      steps, last := FlightBreaks(w, m1, load.i, e);
    } else {
      var loads, m2 := OthersLoad(w, m1, 0, load.i, e);
      var rest;
      rest, last := IdleBreaks(w, m2, load.i, e);
      steps := loads + rest;
      Onward(w, m1, loads, m2, rest, last);
    }
  }

  /* ---------------- a run that breaks the guarantee ---------------- */

  /** One more enabled step makes a longer run. */
  lemma RunGrows(w: World, trace: seq<Machine>, steps: seq<Step>, m: Machine, step: Step, next: Machine)
    returns (trace': seq<Machine>, steps': seq<Step>)
    requires IsRun(w, trace, steps) && trace[|steps|] == m && Shaped(w, m)
    requires Enabled(w, m, step) && Do(w, m, step) == next
    ensures IsRun(w, trace', steps') && |steps'| == |steps| + 1 && trace'[|steps'|] == next && Shaped(w, next)
  {
    trace', steps' := trace + [next], steps + [step];
    forall k | 0 <= k < |steps'|
      ensures Shaped(w, trace'[k]) && Enabled(w, trace'[k], steps'[k]) && trace'[k + 1] == Do(w, trace'[k], steps'[k])
    {
      if k < |steps| {
        assert trace'[k] == trace[k] && steps'[k] == steps[k] && trace'[k + 1] == trace[k + 1];
      }
    }
  }

  /** The machine with one service that has only its empty snapshot stored. */
  function OneService(watermark: Option<nat>, service: Service, polls: set<nat>, batch: Option<Batch>): Machine {
    Machine(watermark, [service], polls, None, batch, None, [{Snapshot(0, [])}])
  }

  /** A poll of a block range by the one service, from taking the lock to moving the watermark. */
  lemma PollRuns(
      w: World, trace: seq<Machine>, steps: seq<Step>, watermark: Option<nat>, log: seq<ChainEvent>,
      from: nat, to: nat, page: seq<ChainEvent>)
    returns (trace': seq<Machine>, steps': seq<Step>)
    requires w.count == 1 && from <= to && IsRange(page, w.history, from, to)
    requires IsRun(w, trace, steps) && trace[|steps|] == OneService(watermark, Service(true, log), {from}, None)
    ensures IsRun(w, trace', steps') && |steps'| == |steps| + 3
    ensures trace'[|steps'|] == OneService(Some(to), Service(true, log + page), {}, None)
  {
    var before, after := Service(true, log), Service(true, log + page);
    var m1 := OneService(watermark, before, {}, Some(Batch(from, to, page, 0, false)));
    var m2 := OneService(watermark, after, {}, Some(Batch(from, to, page, 1, false)));
    var m0 := OneService(watermark, before, {from}, None);
    trace', steps' := RunGrows(w, trace, steps, m0, BeginPoll(from, to, page), m1);
    trace', steps' := RunGrows(w, trace', steps', m1, RunProcessor(true, false), m2);
    trace', steps' := RunGrows(w, trace', steps', m2, Commit, OneService(Some(to), after, {}, None));
  }

  /**
   One service and one event at block 3. A poll reads it and another notes the watermark as its start; then the
   empty snapshot is loaded again and the second poll finishes: the watermark is 5 and the event is gone.
   */
  lemma ReloadBreaks() returns (w: World, trace: seq<Machine>, steps: seq<Step>, e: ChainEvent)
    ensures IsRun(w, trace, steps) && |steps| == 10
    ensures e in w.history && Broken(w, trace[10], 0, e)
  {
    e := OtherEvent("", 3);
    w := World([e], 0, 1);
    var load := Load(0, Snapshot(0, []));
    var none, full := Service(true, []), Service(true, [e]);
    trace, steps := [Boot(w)], [];
    assert Boot(w) == OneService(None, Service(false, []), {}, None);
    trace, steps := RunGrows(w, trace, steps, Boot(w), load, OneService(Some(0), none, {}, None));
    trace, steps := RunGrows(
      w, trace, steps, OneService(Some(0), none, {}, None), StartPoll(false), OneService(Some(0), none, {1}, None));
    trace, steps := PollRuns(w, trace, steps, Some(0), [], 1, 5, [e]);
    assert [] + [e] == [e];
    trace, steps := RunGrows(
      w, trace, steps, OneService(Some(5), full, {}, None), StartPoll(true), OneService(Some(5), full, {5}, None));
    trace, steps := RunGrows(
      w, trace, steps, OneService(Some(5), full, {5}, None), load, OneService(Some(0), none, {5}, None));
    trace, steps := PollRuns(w, trace, steps, Some(0), [], 5, 5, []);
  }
}
