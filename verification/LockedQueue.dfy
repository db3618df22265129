/** The monitor of core/locked_queue.hpp: a queue under one mutex with two condition variables.
    The steps are taking and releasing the mutex, testing the wait predicate, changing the queue and
    notifying; a run interleaves the steps of any number of threads with spurious wakeups.
    A Bound of zero means unbounded. */
module LockedQueue {

  type Item = int

  datatype Op = Push(item: Item) | Pop | TryPush(item: Item) | TryPop

  datatype Result = Stored | Taken(item: Item) | Refused

  datatype Phase =
    | Outside
    | Locking(op: Op)                 // waits for the mutex at the start of the call
    | Testing(op: Op)                 // holds the mutex, tests the predicate
    | Acting(op: Op)                  // holds the mutex, the predicate was true
    | Notifying(op: Op, result: Result)  // holds the mutex, has changed the queue
    | Unlocking(result: Result)       // holds the mutex, is about to return
    | Waiting(op: Op)                 // blocked on full_ (Push) or empty_ (Pop)
    | Woken(op: Op)                   // signalled or spuriously awake, waits for the mutex
    | Returned(result: Result)

  datatype Owner = Free | By(thread: nat)

  /** queue_ and mutex_, the threads, and two histories: the items stored and the items taken. */
  datatype State = State(queue: seq<Item>, owner: Owner, threads: map<nat, Phase>, stored: seq<Item>, taken: seq<Item>)

  datatype Move = Call(thread: nat, op: Op) | Go(thread: nat) | Signal(thread: nat, waiter: nat) | Spurious(thread: nat)

  /** Producers block on full_, consumers on empty_. */
  datatype Side = Producers | Consumers

  predicate Full(bound: nat, queue: seq<Item>) { bound > 0 && |queue| >= bound }

  predicate Holding(p: Phase) { p.Testing? || p.Acting? || p.Notifying? || p.Unlocking? }

  predicate InCall(p: Phase) { !p.Outside? && !p.Returned? }

  predicate On(op: Op, side: Side) { if side.Producers? then op.Push? else op.Pop? }

  predicate IsBlocked(p: Phase, side: Side) { p.Waiting? && On(p.op, side) }

  /** Awake and still to test, or done testing, the predicate of its side. */
  predicate IsActive(p: Phase, side: Side) { (p.Woken? || p.Testing? || p.Acting?) && On(p.op, side) }

  function Blocked(threads: map<nat, Phase>, side: Side): set<nat> {
    set t | t in threads && IsBlocked(threads[t], side)
  }

  function Active(threads: map<nat, Phase>, side: Side): set<nat> {
    set t | t in threads && IsActive(threads[t], side)
  }

  /** The side that a finished change of the queue must notify. */
  function Other(op: Op): Side { if op.Push? || op.TryPush? then Consumers else Producers }

  // ----- the steps

  ghost predicate Enabled(s: State, m: Move) {
    m.thread in s.threads &&
    var p := s.threads[m.thread];
    match m
    case Call(_, _) => p.Outside? || p.Returned?
    case Spurious(_) => p.Waiting?
    case Signal(_, w) => p.Notifying? && w in Blocked(s.threads, Other(p.op))
    case Go(_) =>
      ((p.Locking? || p.Woken?) && s.owner == Free) ||
      p.Testing? || p.Acting? || p.Unlocking? ||
      (p.Notifying? && Blocked(s.threads, Other(p.op)) == {})
  }

  function Goto(s: State, t: nat, p: Phase): State { s.(threads := s.threads[t := p]) }

  function Release(s: State, t: nat, p: Phase): State { Goto(s, t, p).(owner := Free) }

  function Test(bound: nat, s: State, t: nat, op: Op): State {
    match op
    case Push(_) => if Full(bound, s.queue) then Release(s, t, Waiting(op)) else Goto(s, t, Acting(op))
    case Pop => if s.queue == [] then Release(s, t, Waiting(op)) else Goto(s, t, Acting(op))
    case TryPush(_) => Goto(s, t, if Full(bound, s.queue) then Unlocking(Refused) else Acting(op))
    case TryPop => Goto(s, t, if s.queue == [] then Unlocking(Refused) else Acting(op))
  }

  function Act(bound: nat, s: State, t: nat, op: Op): State {
    if op.Push? || op.TryPush? then
      Goto(s, t, Notifying(op, Stored)).(queue := s.queue + [op.item], stored := s.stored + [op.item])
    else if s.queue == [] then s  // the predicate was true, so this does not happen
    else
      var x := s.queue[0];
      Goto(s, t, if bound > 0 then Notifying(op, Taken(x)) else Unlocking(Taken(x)))
        .(queue := s.queue[1..], taken := s.taken + [x])
  }

  function Do(bound: nat, s: State, m: Move): State
    requires Enabled(s, m)
  {
    var t := m.thread;
    match m
    case Call(_, op) => Goto(s, t, Locking(op))
    case Spurious(_) => Goto(s, t, Woken(s.threads[t].op))
    case Signal(_, w) =>
      Goto(Goto(s, w, Woken(s.threads[w].op)), t, Unlocking(s.threads[t].result))
    case Go(_) =>
      match s.threads[t]
      case Locking(op) => Goto(s, t, Testing(op)).(owner := By(t))
      case Woken(op) => Goto(s, t, Testing(op)).(owner := By(t))
      case Testing(op) => Test(bound, s, t, op)
      case Acting(op) => Act(bound, s, t, op)
      case Notifying(_, r) => Goto(s, t, Unlocking(r))
      case Unlocking(r) => Release(s, t, Returned(r))
      case _ => s
  }

  ghost predicate Init(s: State) {
    s.queue == s.stored == s.taken == [] && s.owner == Free &&
    forall t :: t in s.threads ==> s.threads[t] == Outside
  }

  ghost predicate Reaches(bound: nat, first: State, run: seq<Move>, last: State)
    decreases |run|
  {
    if run == [] then first == last
    else Enabled(first, run[0]) && Reaches(bound, Do(bound, first, run[0]), run[1..], last)
  }

  ghost predicate Reachable(bound: nat, s: State) {
    exists first, run :: Init(first) && Reaches(bound, first, run, s)
  }

  // ----- what every state keeps

  /** Items a consumer could take, slots a producer could fill. */
  function Supply(bound: nat, queue: seq<Item>, side: Side): int {
    if side.Consumers? then |queue| else bound - |queue|
  }

  /** 1 while the owner of the mutex still has to notify this side. */
  function Pending(s: State, side: Side): nat {
    if s.owner.By? && s.owner.thread in s.threads && s.threads[s.owner.thread].Notifying? &&
       Other(s.threads[s.owner.thread].op) == side then 1 else 0
  }

  ghost predicate WakeupsKept(bound: nat, s: State, side: Side) {
    Blocked(s.threads, side) != {} ==>
      (side.Producers? ==> bound > 0) &&
      Supply(bound, s.queue, side) <= |Active(s.threads, side)| + Pending(s, side)
  }

  ghost predicate Exclusive(s: State) {
    (s.owner.By? ==> s.owner.thread in s.threads && Holding(s.threads[s.owner.thread])) &&
    forall t :: t in s.threads && Holding(s.threads[t]) ==> s.owner == By(t)
  }

  ghost predicate PhaseOk(bound: nat, s: State, p: Phase) {
    (p.Acting? && (p.op.Push? || p.op.TryPush?) ==> !Full(bound, s.queue)) &&
    (p.Acting? && (p.op.Pop? || p.op.TryPop?) ==> s.queue != []) &&
    (p.Waiting? || p.Woken? ==> p.op.Push? || p.op.Pop?) &&
    (p.Notifying? && Other(p.op).Producers? ==> bound > 0)
  }

  ghost predicate Inv(bound: nat, s: State) {
    Exclusive(s) && (bound > 0 ==> |s.queue| <= bound) && s.stored == s.taken + s.queue &&
    (forall t :: t in s.threads ==> PhaseOk(bound, s, s.threads[t])) &&
    WakeupsKept(bound, s, Producers) && WakeupsKept(bound, s, Consumers)
  }

  // ----- every step keeps it

  function ActiveOthers(threads: map<nat, Phase>, t: nat, side: Side): set<nat> {
    set u | u in threads && u != t && IsActive(threads[u], side)
  }

  lemma ActiveSplit(threads: map<nat, Phase>, t: nat, side: Side)
    requires t in threads
    ensures |Active(threads, side)| == |ActiveOthers(threads, t, side)| + if IsActive(threads[t], side) then 1 else 0
  {
    var others := ActiveOthers(threads, t, side);
    if IsActive(threads[t], side) {
      assert Active(threads, side) == others + {t};
    } else {
      assert Active(threads, side) == others;
    }
  }

  lemma ActiveAfter(threads: map<nat, Phase>, t: nat, p: Phase, side: Side)
    requires t in threads
    ensures |Active(threads[t := p], side)| ==
      |Active(threads, side)| - (if IsActive(threads[t], side) then 1 else 0) + (if IsActive(p, side) then 1 else 0)
  {
    ActiveSplit(threads, t, side);
    ActiveSplit(threads[t := p], t, side);
    assert ActiveOthers(threads[t := p], t, side) == ActiveOthers(threads, t, side);
  }

  lemma BlockedAfter(threads: map<nat, Phase>, t: nat, p: Phase, side: Side)
    requires t in threads
    ensures Blocked(threads[t := p], side) ==
      if IsBlocked(p, side) then Blocked(threads, side) + {t} else Blocked(threads, side) - {t}
  {}

  lemma StepKeepsOwner(bound: nat, s: State, m: Move)
    requires Exclusive(s) && Enabled(s, m)
    ensures Exclusive(Do(bound, s, m))
  {}

  lemma StepKeepsQueue(bound: nat, s: State, m: Move)
    requires Inv(bound, s) && Enabled(s, m)
    ensures var s' := Do(bound, s, m);
            (bound > 0 ==> |s'.queue| <= bound) && s'.stored == s'.taken + s'.queue
  {
    hide WakeupsKept;
    assert PhaseOk(bound, s, s.threads[m.thread]);
  }

  lemma StepKeepsPhases(bound: nat, s: State, m: Move, t: nat)
    requires Inv(bound, s) && Enabled(s, m) && t in s.threads
    ensures PhaseOk(bound, Do(bound, s, m), Do(bound, s, m).threads[t])
  {
    hide WakeupsKept;
    assert PhaseOk(bound, s, s.threads[m.thread]) && PhaseOk(bound, s, s.threads[t]);
  }

  lemma StepKeepsWakeups(bound: nat, s: State, m: Move, side: Side)
    requires Inv(bound, s) && Enabled(s, m)
    ensures WakeupsKept(bound, Do(bound, s, m), side)
  {
    var s' := Do(bound, s, m);
    var t := m.thread;
    var p := s.threads[t];
    assert PhaseOk(bound, s, p);
    if m.Signal? {
      var w := m.waiter;
      var mid := s.threads[w := Woken(s.threads[w].op)];
      ActiveAfter(s.threads, w, mid[w], side);
      BlockedAfter(s.threads, w, mid[w], side);
      ActiveAfter(mid, t, s'.threads[t], side);
      BlockedAfter(mid, t, s'.threads[t], side);
    } else {
      assert s'.threads == s.threads[t := s'.threads[t]];
      ActiveAfter(s.threads, t, s'.threads[t], side);
      BlockedAfter(s.threads, t, s'.threads[t], side);
    }
  }

  lemma SameThreads(bound: nat, s: State, m: Move)
    requires Enabled(s, m)
    ensures Do(bound, s, m).threads.Keys == s.threads.Keys
  {}

  lemma StepKeepsInv(bound: nat, s: State, m: Move)
    requires Inv(bound, s) && Enabled(s, m)
    ensures Inv(bound, Do(bound, s, m))
  {
    hide WakeupsKept, PhaseOk, Exclusive;
    StepKeepsOwner(bound, s, m);
    StepKeepsQueue(bound, s, m);
    forall t | t in Do(bound, s, m).threads ensures PhaseOk(bound, Do(bound, s, m), Do(bound, s, m).threads[t]) {
      SameThreads(bound, s, m);
      StepKeepsPhases(bound, s, m, t);
    }
    StepKeepsWakeups(bound, s, m, Producers);
    StepKeepsWakeups(bound, s, m, Consumers);
  }

  lemma {:induction false} RunKeepsInv(bound: nat, first: State, run: seq<Move>, last: State)
    requires Inv(bound, first) && Reaches(bound, first, run, last)
    ensures Inv(bound, last)
    decreases |run|
  {
    if run != [] {
      StepKeepsInv(bound, first, run[0]);
      RunKeepsInv(bound, Do(bound, first, run[0]), run[1..], last);
    }
  }

  lemma ReachableInv(bound: nat, s: State)
    requires Reachable(bound, s)
    ensures Inv(bound, s)
  {
    var first, run :| Init(first) && Reaches(bound, first, run, s);
    assert Blocked(first.threads, Producers) == {} && Blocked(first.threads, Consumers) == {};
    RunKeepsInv(bound, first, run, s);
  }

  // ----- what a user of the queue sees

  function Awake(threads: map<nat, Phase>, side: Side): set<nat> {
    set t | t in threads && threads[t].Woken? && On(threads[t].op, side)
  }

  /** No lost wakeup: while the mutex is free and a consumer is blocked unsignalled, every item in the
      queue has a signalled consumer on its way to it; dually for producers and free slots. */
  lemma NoLostWakeup(bound: nat, s: State)
    requires Reachable(bound, s) && s.owner == Free
    ensures Blocked(s.threads, Consumers) != {} ==> |s.queue| <= |Awake(s.threads, Consumers)|
    ensures Blocked(s.threads, Producers) != {} ==>
      bound > 0 && bound - |s.queue| <= |Awake(s.threads, Producers)|
  {
    ReachableInv(bound, s);
    assert Active(s.threads, Consumers) == Awake(s.threads, Consumers);
    assert Active(s.threads, Producers) == Awake(s.threads, Producers);
  }

  /** A thread that can take a step of its call, without a spurious wakeup. */
  ghost predicate CanMove(s: State, t: nat) {
    Enabled(s, Go(t)) || exists w :: Enabled(s, Signal(t, w))
  }

  /** All calls that are left are consumers blocked on an empty queue, or producers on a full one. */
  ghost predicate Settled(bound: nat, s: State) {
    (forall t :: t in s.threads && InCall(s.threads[t]) ==> s.threads[t] == Waiting(Pop) && s.queue == []) ||
    (forall t :: t in s.threads && InCall(s.threads[t]) ==>
       s.threads[t].Waiting? && s.threads[t].op.Push? && Full(bound, s.queue))
  }

  lemma StuckIsSettled(bound: nat, s: State)
    requires Inv(bound, s) && forall t :: t in s.threads ==> !CanMove(s, t)
    ensures Settled(bound, s)
  {
    hide CanMove;
    forall t | t in s.threads && InCall(s.threads[t]) ensures s.threads[t].Waiting? { StuckWaits(bound, s, t); }
    if t :| t in s.threads && InCall(s.threads[t]) {
      assert PhaseOk(bound, s, s.threads[t]);
      assert Active(s.threads, Consumers) == {} && Active(s.threads, Producers) == {};
      forall u | u in s.threads && InCall(s.threads[u])
        ensures u in Blocked(s.threads, Consumers) || u in Blocked(s.threads, Producers)
      {
        assert PhaseOk(bound, s, s.threads[u]);
      }
    }
  }

  /** When calls are in progress and none of them can move, all of them are blocked on the same side
      with good reason: consumers of an empty queue, or producers of a full one. */
  lemma NoDeadlock(bound: nat, s: State)
    requires Reachable(bound, s)
    requires forall t :: t in s.threads ==> !CanMove(s, t)
    ensures Settled(bound, s)
  {
    hide Inv, CanMove, Settled, Reachable;
    ReachableInv(bound, s);
    StuckIsSettled(bound, s);
  }

  lemma StuckWaits(bound: nat, s: State, t: nat)
    requires Inv(bound, s) && t in s.threads && InCall(s.threads[t])
    requires forall u :: u in s.threads ==> !CanMove(s, u)
    ensures s.threads[t].Waiting? && s.owner == Free
  {
    if s.owner.By? {
      var o := s.owner.thread;
      assert !Enabled(s, Go(o)) by { assert !CanMove(s, o); }
      var w :| w in Blocked(s.threads, Other(s.threads[o].op));
      assert Enabled(s, Signal(o, w));
      assert false;
    }
    assert !CanMove(s, t);
  }

  // ----- progress

  /** Steps a thread has left in its call, with one wakeup of a blocked thread reckoned to the notifier. */
  function Weight(p: Phase): (w: nat)
    ensures w <= 7
  {
    match p
    case Locking(_) => 7
    case Woken(_) => 7
    case Testing(_) => 6
    case Acting(_) => 5
    case Waiting(_) => 5
    case Notifying(_, _) => 4
    case Unlocking(_) => 1
    case _ => 0
  }

  function AtLeast(threads: map<nat, Phase>, level: nat): set<nat> {
    set t | t in threads && Weight(threads[t]) >= level
  }

  /** The sum of the weights, each counted up to `level`. */
  function Work(threads: map<nat, Phase>, level: nat): nat {
    if level == 0 then 0 else |AtLeast(threads, level)| + Work(threads, level - 1)
  }

  function Min(x: nat, y: nat): nat { if x < y then x else y }

  function WeightyOthers(threads: map<nat, Phase>, t: nat, level: nat): set<nat> {
    set u | u in threads && u != t && Weight(threads[u]) >= level
  }

  lemma AtLeastSplit(threads: map<nat, Phase>, t: nat, level: nat)
    requires t in threads
    ensures |AtLeast(threads, level)| ==
      |WeightyOthers(threads, t, level)| + if Weight(threads[t]) >= level then 1 else 0
  {
    hide Weight;
    var others := WeightyOthers(threads, t, level);
    if Weight(threads[t]) >= level {
      assert AtLeast(threads, level) == others + {t};
    } else {
      assert AtLeast(threads, level) == others;
    }
  }

  lemma {:induction false} WorkAfter(threads: map<nat, Phase>, t: nat, p: Phase, level: nat)
    requires t in threads
    ensures Work(threads[t := p], level) + Min(Weight(threads[t]), level) ==
      Work(threads, level) + Min(Weight(p), level)
  {
    hide Weight;
    if level > 0 {
      AtLeastSplit(threads, t, level);
      AtLeastSplit(threads[t := p], t, level);
      assert WeightyOthers(threads[t := p], t, level) == WeightyOthers(threads, t, level);
      WorkAfter(threads, t, p, level - 1);
    }
  }

  /** At most seven for each thread. */
  lemma {:induction false} WorkAtMost(threads: map<nat, Phase>, level: nat)
    ensures Work(threads, level) <= level * |threads|
  {
    hide Weight;
    if level > 0 {
      var others := threads.Keys - AtLeast(threads, level);
      assert threads.Keys == AtLeast(threads, level) + others;
      WorkAtMost(threads, level - 1);
      OneMore(level, |threads|);
    }
  }

  lemma OneMore(level: nat, n: nat)
    requires level > 0
    ensures (level - 1) * n + n == level * n
  {}

  predicate IsQuiet(m: Move) { m.Go? || m.Signal? }

  lemma QuietStep(bound: nat, s: State, m: Move)
    requires Inv(bound, s) && Enabled(s, m) && IsQuiet(m)
    ensures Work(Do(bound, s, m).threads, 7) < Work(s.threads, 7)
  {
    hide WakeupsKept, Work;
    var t, s' := m.thread, Do(bound, s, m);
    assert PhaseOk(bound, s, s.threads[t]);
    if m.Signal? {
      var w := m.waiter;
      var mid := s.threads[w := Woken(s.threads[w].op)];
      WorkAfter(s.threads, w, mid[w], 7);
      WorkAfter(mid, t, s'.threads[t], 7);
    } else {
      assert s'.threads == s.threads[t := s'.threads[t]];
      WorkAfter(s.threads, t, s'.threads[t], 7);
    }
  }

  /** Without new calls and spurious wakeups every run ends: it has at most seven moves for each thread. */
  lemma {:induction false} QuietRunsEnd(bound: nat, s: State, run: seq<Move>, last: State)
    requires Inv(bound, s) && Reaches(bound, s, run, last) && forall i :: 0 <= i < |run| ==> IsQuiet(run[i])
    ensures |run| + Work(last.threads, 7) <= Work(s.threads, 7) <= 7 * |s.threads|
    decreases |run|
  {
    hide Inv, Do, Enabled, Work, IsQuiet;
    WorkAtMost(s.threads, 7);
    if run != [] {
      QuietStep(bound, s, run[0]);
      StepKeepsInv(bound, s, run[0]);
      QuietRunsEnd(bound, Do(bound, s, run[0]), run[1..], last);
    }
  }

  /** Progress: from every reachable state, once no more calls are made, the calls in progress run on, in
      whatever order the threads move, for at most seven moves each thread, until they have returned or are
      blocked with good reason. A run that has not come to that can go on. */
  lemma CallsSettle(bound: nat, s: State, run: seq<Move>, last: State)
    requires Reachable(bound, s) && Reaches(bound, s, run, last)
    requires forall i :: 0 <= i < |run| ==> IsQuiet(run[i])
    ensures |run| <= 7 * |s.threads|
    ensures Settled(bound, last) || exists m :: IsQuiet(m) && Enabled(last, m)
  {
    hide Inv, Enabled, Settled, Reachable, Work;
    ReachableInv(bound, s);
    QuietRunsEnd(bound, s, run, last);
    RunKeepsInv(bound, s, run, last);
    if forall m :: IsQuiet(m) ==> !Enabled(last, m) {
      forall t | t in last.threads ensures !CanMove(last, t) {
        assert IsQuiet(Go(t)) && forall w :: IsQuiet(Signal(t, w));
      }
      StuckIsSettled(bound, last);
    }
  }

  /** First in, first out, within Bound, in every interleaving: a step that stores appends to a queue
      with room, a step that takes removes and returns the front, no other step changes the queue. */
  lemma StaysFifo(bound: nat, s: State, m: Move)
    requires Reachable(bound, s) && Enabled(s, m)
    ensures s.stored == s.taken + s.queue && (bound > 0 ==> |s.queue| <= bound)
    ensures var p, s' := s.threads[m.thread], Do(bound, s, m);
            if m.Go? && p.Acting? then
              if p.op.Push? || p.op.TryPush? then
                s'.queue == s.queue + [p.op.item] && (bound > 0 ==> |s.queue| < bound)
              else
                s.queue != [] && s.queue == [s.queue[0]] + s'.queue && s'.taken == s.taken + [s.queue[0]] &&
                (s'.threads[m.thread].Notifying? || s'.threads[m.thread].Unlocking?) &&
                s'.threads[m.thread].result == Taken(s.queue[0])
            else s'.queue == s.queue && s'.stored == s.stored && s'.taken == s.taken
    ensures var p, s' := s.threads[m.thread], Do(bound, s, m);
            (p.Notifying? ==> s'.threads[m.thread] == Unlocking(p.result)) &&
            (p.Unlocking? ==> s'.threads[m.thread] == Returned(p.result))
    ensures var p, s' := s.threads[m.thread], Do(bound, s, m);
            m.Go? && p.Testing? ==>
              (s'.threads[m.thread] == Unlocking(Refused) <==>
                 (p.op.TryPush? && bound > 0 && |s.queue| == bound) || (p.op.TryPop? && s.queue == []))
  {
    ReachableInv(bound, s);
    assert PhaseOk(bound, s, s.threads[m.thread]);
  }

  // ----- what a call returns, and what it has done to the queue

  datatype Effect = Put(item: Item) | Took(item: Item)

  /** What has happened to the queue between two states. */
  ghost function EffectOf(before: seq<Item>, after: seq<Item>): seq<Effect> {
    if before == after then []
    else if before <= after then [Put(after[|after| - 1])]
    else if before != [] then [Took(before[0])]
    else []
  }

  /** What the moves of thread t in a run have done to the queue, in order. */
  ghost function Effects(bound: nat, s: State, run: seq<Move>, t: nat): seq<Effect>
    decreases |run|
  {
    if run == [] || !Enabled(s, run[0]) then []
    else
      var s' := Do(bound, s, run[0]);
      (if run[0].thread == t then EffectOf(s.queue, s'.queue) else []) + Effects(bound, s', run[1..], t)
  }

  /** The result of a call, its operation and what it has done to the queue belong together. */
  ghost predicate Honest(op: Op, r: Result, done: seq<Effect>) {
    match r
    case Stored => (op.Push? || op.TryPush?) && done == [Put(op.item)]
    case Taken(x) => (op.Pop? || op.TryPop?) && done == [Took(x)]
    case Refused => (op.TryPush? || op.TryPop?) && done == []
  }

  /** The same on the way: a call that began with op has done `done` when it is at p. */
  ghost predicate OnItsWay(op: Op, p: Phase, done: seq<Effect>) {
    match p
    case Outside => false
    case Locking(o) => o == op && done == []
    case Testing(o) => o == op && done == []
    case Acting(o) => o == op && done == []
    case Waiting(o) => o == op && done == []
    case Woken(o) => o == op && done == []
    case Notifying(_, r) => Honest(op, r, done)
    case Unlocking(r) => Honest(op, r, done)
    case Returned(r) => Honest(op, r, done)
  }

  /** An append is seen as one, and so is the removal of the front. */
  lemma EffectIs(q: seq<Item>, x: Item)
    ensures EffectOf(q, q) == [] && EffectOf(q, q + [x]) == [Put(x)]
    ensures q != [] ==> EffectOf(q, q[1..]) == [Took(q[0])]
  {}

  lemma OwnStep(bound: nat, s: State, m: Move, op: Op, done: seq<Effect>)
    requires Inv(bound, s) && Enabled(s, m) && !m.Call? && OnItsWay(op, s.threads[m.thread], done)
    ensures var s' := Do(bound, s, m);
            OnItsWay(op, s'.threads[m.thread], done + EffectOf(s.queue, s'.queue))
  {
    hide WakeupsKept, EffectOf;
    assert PhaseOk(bound, s, s.threads[m.thread]);
    assert done + [] == done;
    EffectIs(s.queue, if op.Push? || op.TryPush? then op.item else 0);
  }

  lemma OtherStep(bound: nat, s: State, m: Move, t: nat, op: Op, done: seq<Effect>)
    requires Enabled(s, m) && t in s.threads && t != m.thread && OnItsWay(op, s.threads[t], done)
    ensures t in Do(bound, s, m).threads && OnItsWay(op, Do(bound, s, m).threads[t], done)
  {}

  lemma {:induction false} RunIsHonest(bound: nat, s: State, run: seq<Move>, last: State, t: nat, op: Op,
                                       done: seq<Effect>)
    requires Inv(bound, s) && Reaches(bound, s, run, last) && t in s.threads && OnItsWay(op, s.threads[t], done)
    requires forall m :: m in run && m.thread == t ==> !m.Call?
    ensures t in last.threads && OnItsWay(op, last.threads[t], done + Effects(bound, s, run, t))
    decreases |run|
  {
    hide Inv, Do, Enabled, OnItsWay, EffectOf;
    if run == [] {
      assert done + [] == done;
    } else {
      var m, s' := run[0], Do(bound, s, run[0]);
      var effect := if m.thread == t then EffectOf(s.queue, s'.queue) else [];
      assert m in run;
      if m.thread == t { OwnStep(bound, s, m, op, done); } else { OtherStep(bound, s, m, t, op, done); }
      SameThreads(bound, s, m);
      assert done + [] == done;
      StepKeepsInv(bound, s, m);
      RunIsHonest(bound, s', run[1..], last, t, op, done + effect);
      assert done + (effect + Effects(bound, s', run[1..], t)) == done + effect + Effects(bound, s', run[1..], t);
    }
  }

  /** In every interleaving, for every call, from its first move to its return: a call that returns Stored is
      a push or a try_push of some item, and its moves have appended this item and done nothing else to the
      queue; one that returns Taken(x) is a pop or a try_pop, and its moves have removed x from the front and
      done nothing else; one that is refused is a try_push or a try_pop that has done nothing. */
  lemma CallIsHonest(bound: nat, s: State, run: seq<Move>, last: State, t: nat, op: Op, r: Result)
    requires Reachable(bound, s) && Reaches(bound, s, run, last)
    requires run != [] && run[0] == Call(t, op) && forall m :: m in run[1..] && m.thread == t ==> !m.Call?
    requires t in last.threads && last.threads[t] == Returned(r)
    ensures Honest(op, r, Effects(bound, s, run, t))
  {
    hide Inv, Reachable, Honest;
    ReachableInv(bound, s);
    StepKeepsInv(bound, s, run[0]);
    var called := Do(bound, s, run[0]);
    RunIsHonest(bound, called, run[1..], last, t, op, []);
    assert Effects(bound, s, run, t) == [] + Effects(bound, called, run[1..], t);
  }
}
