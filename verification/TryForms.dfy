/** try_push and try_pop of exercises/concurrent.cpp: a test of full() or empty(), which is two loads in
    either order, and past the test the blocking form. */
module TryForms {
  import opened TicketQueue

  // ----- a try form that nobody disturbs

  lemma SizeIs(head: int, tail: int)
    requires 0 <= head - tail < SIZE_WRAP
    ensures SizeOf(head, tail) == head - tail
  {}

  /** A try_push that runs alone comes to its end exactly when the queue is full or no push waits, and its
      test refuses exactly when the queue is full. So it is not wait free: with room, behind another
      push, it waits. */
  lemma TryPushAlone(N: nat, s: State, t: nat, v: Item)
    requires Reachable(N, s) && N < SIZE_WRAP && t in s.threads
    requires !InCall(s.threads[t]) && !s.threads[t].Aborted?
    ensures N > 0 && |s.buffer| == N
    ensures var s' := Do(N, s, Move(t, CallTryPush(v)));
            (FinishesAlone(N, s', t) <==> Full(N, s) || s.headTicket == s.head) &&
            forall run, last :: SoloRun(N, s', t, run, last) && |run| == 2 ==>
              t in last.threads && last.threads[t] == if Full(N, s) then Refused else EnterPush(v)
  {
    ReachableInv(N, s);
    var m := Move(t, CallTryPush(v));
    StepKeepsInv(N, s, m);
    var s' := Do(N, s, m);
    assert s'.threads[t] == TryPush(v, NothingRead) && s'.head == s.head && s'.tail == s.tail;
    SizeIs(s.head, s.tail);
    FinishesIff(N, s', t);
    hide Inv, Do, FinishesAlone, SizeOf, Reachable;
    forall run, last | SoloRun(N, s', t, run, last) && |run| == 2
      ensures t in last.threads && last.threads[t] == if Full(N, s) then Refused else EnterPush(v)
    {
      TestPush(N, s', t, v, run, last);
    }
  }

  lemma TryPopAlone(N: nat, s: State, t: nat)
    requires Reachable(N, s) && N < SIZE_WRAP && t in s.threads
    requires !InCall(s.threads[t]) && !s.threads[t].Aborted?
    ensures N > 0 && |s.buffer| == N
    ensures var s' := Do(N, s, Move(t, CallTryPop));
            (FinishesAlone(N, s', t) <==> Empty(s) || s.tailTicket == s.tail) &&
            forall run, last :: SoloRun(N, s', t, run, last) && |run| == 2 ==>
              t in last.threads && last.threads[t] == if Empty(s) then Refused else EnterPop
  {
    ReachableInv(N, s);
    var m := Move(t, CallTryPop);
    StepKeepsInv(N, s, m);
    var s' := Do(N, s, m);
    assert s'.threads[t] == TryPop(NothingRead) && s'.head == s.head && s'.tail == s.tail;
    SizeIs(s.head, s.tail);
    FinishesIff(N, s', t);
    forall run, last | SoloRun(N, s', t, run, last) && |run| == 2
      ensures t in last.threads && last.threads[t] == if Empty(s) then Refused else EnterPop
    {
      TestPop(N, s', t, run, last);
    }
  }

  /** The two loads of full(), in either order. */
  lemma TestPush(N: nat, s: State, t: nat, v: Item, run: seq<Move>, last: State)
    requires t in s.threads && s.threads[t] == TryPush(v, NothingRead)
    requires SoloRun(N, s, t, run, last) && |run| == 2
    ensures t in last.threads
    ensures last.threads[t] == if SizeOf(s.head, s.tail) == N then Refused else EnterPush(v)
  {
    hide SizeOf;
    TwoMoves(N, s, run, last);
  }

  lemma TestPop(N: nat, s: State, t: nat, run: seq<Move>, last: State)
    requires t in s.threads && s.threads[t] == TryPop(NothingRead)
    requires SoloRun(N, s, t, run, last) && |run| == 2
    ensures t in last.threads
    ensures last.threads[t] == if SizeOf(s.head, s.tail) == 0 then Refused else EnterPop
  {
    hide SizeOf;
    TwoMoves(N, s, run, last);
  }

  lemma TwoMoves(N: nat, s: State, run: seq<Move>, last: State)
    requires Reaches(N, s, run, last) && |run| == 2
    ensures N > 0 && |s.buffer| == N && Enabled(s, run[0])
    ensures var s' := Do(N, s, run[0]);
            |s'.buffer| == N && Enabled(s', run[1]) && last == Do(N, s', run[1])
  {
    hide Do, Enabled;
    var s' := Do(N, s, run[0]);
    assert Reaches(N, s', run[1..], last);
    assert Reaches(N, Do(N, s', run[1..][0]), run[1..][1..], last);
  }

  // ----- a test among the steps of others

  /** int64_t counters below 2^63, a capacity that is an int. */
  const HALF_WRAP := 0x8000_0000_0000_0000

  lemma SizeEquals(head: int, tail: int, n: int)
    requires -HALF_WRAP < head - tail < HALF_WRAP && 0 <= n < HALF_WRAP
    ensures SizeOf(head, tail) == n <==> head - tail == n
  {}

  /** What the second load of a test decides, in every interleaving. A try_push that has loaded head_ first
      is refused exactly when the queue is full now and head_ has not moved; so its refusal is right. Dually
      for a try_pop that has loaded tail_ first. In the other order a refusal is right exactly when the
      counter loaded first has not moved since. */
  lemma RefusalIff(N: nat, s: State, m: Move)
    requires Reachable(N, s) && Enabled(s, m) && s.head < HALF_WRAP && N < HALF_WRAP
    ensures N > 0 && |s.buffer| == N && m.thread in Do(N, s, m).threads
    ensures var p, refused := s.threads[m.thread], Do(N, s, m).threads[m.thread] == Refused;
            (p.TryPush? && p.read.HeadRead? ==> (refused <==> Full(N, s) && s.head == p.read.head)) &&
            (p.TryPop? && p.read.TailRead? ==> (refused <==> Empty(s) && s.tail == p.read.tail))
    ensures var p, refused := s.threads[m.thread], Do(N, s, m).threads[m.thread] == Refused;
            (p.TryPush? && p.read.TailRead? && refused ==> (Full(N, s) <==> s.tail == p.read.tail)) &&
            (p.TryPop? && p.read.HeadRead? && refused ==> (Empty(s) <==> s.head == p.read.head))
  {
    hide Inv, SizeOf, Reachable;
    ReachableInv(N, s);
    var p := s.threads[m.thread];
    ThreadOk(N, s, m.thread);
    if p.TryPush? && p.read.HeadRead? { SizeEquals(p.read.head, s.tail, N); }
    if p.TryPush? && p.read.TailRead? { SizeEquals(s.head, p.read.tail, N); }
    if p.TryPop? && p.read.HeadRead? { SizeEquals(p.read.head, s.tail, 0); }
    if p.TryPop? && p.read.TailRead? { SizeEquals(s.head, p.read.tail, 0); }
  }

  // ----- runs of two threads: thread 1 tries, thread 0 pushes and pops

  lemma TwoThreads(N: nat) returns (first: State)
    requires N > 0
    ensures Init(N, first) && Inv(N, first)
    ensures first.threads == map[0 := Idle, 1 := Idle] && first.head == first.tail == 0
    ensures first.headTicket == first.tailTicket == 0
  {
    first := State(0, 0, 0, 0, seq(N, _ => 0), map[0 := Idle, 1 := Idle], [], []);
    InitInv(N, first);
  }

  /** Thread u is where it was. */
  ghost predicate Stays(s: State, last: State, u: nat) {
    u in s.threads && u in last.threads && last.threads[u] == s.threads[u]
  }

  ghost predicate CanCall(s: State, t: nat) { t in s.threads && !InCall(s.threads[t]) && !s.threads[t].Aborted? }

  /** A step that moves no counter, and not thread u. */
  ghost predicate Quietly(N: nat, s: State, m: Move, u: nat, last: State) {
    Inv(N, last) && Reaches(N, s, [m], last) && m.thread in last.threads && Stays(s, last, u) &&
    last.head == s.head && last.tail == s.tail &&
    last.headTicket == s.headTicket && last.tailTicket == s.tailTicket
  }

  lemma Calls(N: nat, s: State, t: nat, a: Action, u: nat) returns (last: State)
    requires Inv(N, s) && CanCall(s, t) && (a.CallTryPush? || a.CallTryPop?) && u in s.threads && u != t
    ensures Quietly(N, s, Move(t, a), u, last)
    ensures last.threads[t] == if a.CallTryPush? then TryPush(a.value, NothingRead) else TryPop(NothingRead)
  {
    hide Inv, Reaches;
    StepKeepsInv(N, s, Move(t, a));
    ThreadOk(N, s, t);
    OneMove(N, s, Move(t, a));
    last := Do(N, s, Move(t, a));
  }

  /** The first load of a test. */
  lemma LoadsFirst(N: nat, s: State, t: nat, a: Action, u: nat) returns (last: State)
    requires Inv(N, s) && t in s.threads && (a.LoadHead? || a.LoadTail?) && u in s.threads && u != t
    requires (s.threads[t].TryPush? || s.threads[t].TryPop?) && s.threads[t].read == NothingRead
    ensures Quietly(N, s, Move(t, a), u, last)
    ensures var read := if a.LoadHead? then HeadRead(s.head) else TailRead(s.tail);
            last.threads[t] == if s.threads[t].TryPush? then TryPush(s.threads[t].value, read) else TryPop(read)
  {
    hide Inv, Reaches, SizeOf;
    ThreadOk(N, s, t);
    StepKeepsInv(N, s, Move(t, a));
    OneMove(N, s, Move(t, a));
    last := Do(N, s, Move(t, a));
  }

  /** The second load. */
  lemma LoadsSecond(N: nat, s: State, t: nat, a: Action, u: nat) returns (last: State)
    requires Inv(N, s) && t in s.threads && (s.threads[t].TryPush? || s.threads[t].TryPop?) && u in s.threads && u != t
    requires s.threads[t].read != NothingRead && a == (if s.threads[t].read.HeadRead? then LoadTail else LoadHead)
    ensures Quietly(N, s, Move(t, a), u, last)
    ensures var size := SizeSeen(s, s.threads[t].read);
            last.threads[t] ==
              if s.threads[t].TryPush? then (if size == N then Refused else EnterPush(s.threads[t].value))
              else if size == 0 then Refused else EnterPop
  {
    hide Inv, Reaches, SizeOf;
    ThreadOk(N, s, t);
    StepKeepsInv(N, s, Move(t, a));
    OneMove(N, s, Move(t, a));
    last := Do(N, s, Move(t, a));
  }

  /** A try call and the first load of its test. */
  lemma TestStarts(N: nat, s: State, t: nat, call: Action, load: Action, u: nat) returns (last: State)
    requires Inv(N, s) && CanCall(s, t) && (call.CallTryPush? || call.CallTryPop?) && u in s.threads && u != t
    requires load.LoadHead? || load.LoadTail?
    ensures Inv(N, last) && Reaches(N, s, [Move(t, call)] + [Move(t, load)], last)
    ensures last.head == s.head && last.tail == s.tail
    ensures last.headTicket == s.headTicket && last.tailTicket == s.tailTicket
    ensures Stays(s, last, u) && t in last.threads
    ensures var read := if load.LoadHead? then HeadRead(s.head) else TailRead(s.tail);
            last.threads[t] == if call.CallTryPush? then TryPush(call.value, read) else TryPop(read)
  {
    hide Inv, Reaches;
    var called := Calls(N, s, t, call, u);
    last := LoadsFirst(N, called, t, load, u);
    RunsJoin(N, s, [Move(t, call)], called, [Move(t, load)], last);
  }

  /** Thread t pushes, from the call to its end, with room and no push before it. */
  lemma Pushes(N: nat, s: State, t: nat, v: Item, u: nat) returns (run: seq<Move>, last: State)
    requires Inv(N, s) && CanCall(s, t) && PushFree(N, s) && u in s.threads && u != t
    ensures Reaches(N, s, run, last) && Inv(N, last) && forall m :: m in run ==> m.thread == t
    ensures last.head == s.head + 1 && last.tail == s.tail
    ensures last.headTicket == s.headTicket + 1 && last.tailTicket == s.tailTicket
    ensures CanCall(last, t) && Stays(s, last, u)
  {
    hide Inv, Reaches, Do, StepsLeft;
    var called := CallsPush(N, s, t, v, u);
    var solo;
    solo, last := Finishes(N, called, t);
    SoloKeepsOthers(N, called, t, solo, last, u);
    RunKeepsInv(N, called, solo, last);
    ThreadOk(N, last, t);
    RunsJoin(N, s, [Move(t, CallPush(v))], called, solo, last);
    run := [Move(t, CallPush(v))] + solo;
  }

  lemma CallsPush(N: nat, s: State, t: nat, v: Item, u: nat) returns (last: State)
    requires Inv(N, s) && CanCall(s, t) && PushFree(N, s) && u in s.threads && u != t
    ensures Reaches(N, s, [Move(t, CallPush(v))], last) && Inv(N, last)
    ensures last.head == s.head && last.tail == s.tail
    ensures last.headTicket == s.headTicket + 1 && last.tailTicket == s.tailTicket
    ensures t in last.threads && Pushing(last.threads[t]) && CanFinish(N, last, last.threads[t])
    ensures Stays(s, last, u)
  {
    hide Inv, Reaches;
    var m := Move(t, CallPush(v));
    StepKeepsInv(N, s, m);
    ThreadOk(N, s, t);
    OneMove(N, s, m);
    last := Do(N, s, m);
  }

  /** Thread t pops, with an item and no pop before it. */
  lemma Pops(N: nat, s: State, t: nat, u: nat) returns (run: seq<Move>, last: State)
    requires Inv(N, s) && CanCall(s, t) && PopFree(s) && u in s.threads && u != t
    ensures Reaches(N, s, run, last) && Inv(N, last) && forall m :: m in run ==> m.thread == t
    ensures last.head == s.head && last.tail == s.tail + 1
    ensures last.headTicket == s.headTicket && last.tailTicket == s.tailTicket + 1
    ensures CanCall(last, t) && Stays(s, last, u)
  {
    hide Inv, Reaches, Do, StepsLeft;
    var called := CallsPop(N, s, t, u);
    var solo;
    solo, last := Finishes(N, called, t);
    SoloKeepsOthers(N, called, t, solo, last, u);
    RunKeepsInv(N, called, solo, last);
    ThreadOk(N, last, t);
    RunsJoin(N, s, [Move(t, CallPop)], called, solo, last);
    run := [Move(t, CallPop)] + solo;
  }

  lemma CallsPop(N: nat, s: State, t: nat, u: nat) returns (last: State)
    requires Inv(N, s) && CanCall(s, t) && PopFree(s) && u in s.threads && u != t
    ensures Reaches(N, s, [Move(t, CallPop)], last) && Inv(N, last)
    ensures last.head == s.head && last.tail == s.tail
    ensures last.headTicket == s.headTicket && last.tailTicket == s.tailTicket + 1
    ensures t in last.threads && Popping(last.threads[t]) && CanFinish(N, last, last.threads[t])
    ensures Stays(s, last, u)
  {
    hide Inv, Reaches;
    var m := Move(t, CallPop);
    StepKeepsInv(N, s, m);
    ThreadOk(N, s, t);
    OneMove(N, s, m);
    last := Do(N, s, m);
  }

  // ----- a try_push that waits

  /** Thread 1 finds an empty queue of one slot not full, thread 0 pushes, and thread 1 takes its ticket:
      its try_push, the only call it ever makes, now waits on a full queue until somebody pops. */
  lemma TryPushWaits() returns (first: State, run: seq<Move>, last: State)
    ensures Init(1, first) && Reaches(1, first, run, last)
    ensures forall m :: m in run && m.thread == 1 && IsCall(m.action) ==> m.action == CallTryPush(7)
    ensures Full(1, last) && 1 in last.threads && Pushing(last.threads[1]) && !FinishesAlone(1, last, 1)
  {
    hide Inv, Do, Enabled, FinishesAlone, Init, Reaches, SizeOf;
    first := TwoThreads(1);
    var loaded := TestStarts(1, first, 1, CallTryPush(7), LoadHead, 0);
    SizeIs(0, 0);
    var tested := LoadsSecond(1, loaded, 1, LoadTail, 0);
    var push, pushed := Pushes(1, tested, 0, 5, 1);
    last := TakesTicket(pushed);
    var c, h, t, m := Move(1, CallTryPush(7)), Move(1, LoadHead), Move(1, LoadTail), Move(1, Go);
    RunsJoin(1, first, [c] + [h], loaded, [t], tested);
    RunsJoin(1, first, [c] + [h] + [t], tested, push, pushed);
    RunsJoin(1, first, [c] + [h] + [t] + push, pushed, [m], last);
    run := [c] + [h] + [t] + push + [m];
  }

  lemma TakesTicket(s: State) returns (last: State)
    requires Inv(1, s) && Full(1, s) && 1 in s.threads && s.threads[1] == EnterPush(7)
    ensures Reaches(1, s, [Move(1, Go)], last)
    ensures Full(1, last) && 1 in last.threads && Pushing(last.threads[1]) && !FinishesAlone(1, last, 1)
  {
    hide Inv, FinishesAlone, Reaches;
    var m := Move(1, Go);
    ThreadOk(1, s, 1);
    StepKeepsInv(1, s, m);
    OneMove(1, s, m);
    last := Do(1, s, m);
    FinishesIff(1, last, 1);
  }

  // ----- refusals that are wrong

  /** In every state of the run the queue has from `low` to `high` values. */
  ghost predicate SizesWithin(N: nat, s: State, run: seq<Move>, low: int, high: int)
    decreases |run|
  {
    low <= s.head - s.tail <= high &&
    (run == [] ||
     (N > 0 && |s.buffer| == N && Enabled(s, run[0]) && SizesWithin(N, Do(N, s, run[0]), run[1..], low, high)))
  }

  /** The counters only grow, so the first and the last state of a run bound what lies between. */
  lemma {:induction false} SizesBetween(N: nat, s: State, run: seq<Move>, last: State, low: int, high: int)
    requires Inv(N, s) && Reaches(N, s, run, last) && low <= s.head - last.tail && last.head - s.tail <= high
    ensures SizesWithin(N, s, run, low, high)
    decreases |run|
  {
    hide Inv, Do, Enabled;
    RunKeepsTurn(N, s, 0, run, last);
    if run != [] {
      TurnStep(N, s, run[0], 0);
      StepKeepsInv(N, s, run[0]);
      SizesBetween(N, Do(N, s, run[0]), run[1..], last, low, high);
    }
  }

  lemma {:induction false} SizesJoin(N: nat, s: State, run: seq<Move>, mid: State, run': seq<Move>, low: int, high: int)
    requires Reaches(N, s, run, mid) && SizesWithin(N, s, run, low, high) && SizesWithin(N, mid, run', low, high)
    ensures SizesWithin(N, s, run + run', low, high)
    decreases |run|
  {
    hide Do, Enabled;
    if run == [] {
      assert run + run' == run';
    } else {
      SizesJoin(N, Do(N, s, run[0]), run[1..], mid, run', low, high);
      assert (run + run')[1..] == run[1..] + run';
    }
  }

  /** A run from s to last with the queue within the bounds. */
  ghost predicate Leg(N: nat, s: State, run: seq<Move>, last: State, low: int, high: int) {
    Reaches(N, s, run, last) && SizesWithin(N, s, run, low, high)
  }

  lemma LegIs(N: nat, s: State, run: seq<Move>, last: State, low: int, high: int)
    requires Inv(N, s) && Reaches(N, s, run, last) && low <= s.head - last.tail && last.head - s.tail <= high
    ensures Leg(N, s, run, last, low, high)
  {
    SizesBetween(N, s, run, last, low, high);
  }

  lemma LegsJoin(N: nat, s: State, run: seq<Move>, mid: State, run': seq<Move>, last: State, low: int, high: int)
    requires Leg(N, s, run, mid, low, high) && Leg(N, mid, run', last, low, high)
    ensures Leg(N, s, run + run', last, low, high)
  {
    hide Reaches, SizesWithin;
    RunsJoin(N, s, run, mid, run', last);
    SizesJoin(N, s, run, mid, run', low, high);
  }

  /** The only call of thread t in the run is its first move. */
  ghost predicate OneCall(run: seq<Move>, t: nat, call: Action) {
    run != [] && run[0] == Move(t, call) && forall m :: m in run[1..] && m.thread == t ==> !IsCall(m.action)
  }

  lemma OneCallIs(run: seq<Move>, call: Move, m: Move, r: seq<Move>, r': seq<Move>, m': Move)
    requires run == [call] + [m] + r + r' + [m'] && !IsCall(m.action) && !IsCall(m'.action)
    requires forall x :: x in r || x in r' ==> x.thread != call.thread
    ensures OneCall(run, call.thread, call.action)
  {
    assert run[1..] == [m] + r + r' + [m'];
  }

  /** With one value in a queue of two slots, thread 1 calls try_pop and loads head_. Thread 0 pushes and
      pops, and thread 1 loads tail_: refused, although the queue was not empty at any time during the call. */
  lemma PopRefusedWithItems() returns (first: State, before: seq<Move>, s: State, run: seq<Move>, last: State)
    ensures Init(2, first) && Reaches(2, first, before, s) && CanCall(s, 1)
    ensures Reaches(2, s, run, last) && OneCall(run, 1, CallTryPop) && SizesWithin(2, s, run, 1, 2)
    ensures 1 in last.threads && last.threads[1] == Refused
  {
    hide Inv, Do, Enabled, Init, Reaches, SizesWithin, SizeOf, OneCall;
    first := TwoThreads(2);
    before, s := Pushes(2, first, 0, 5, 1);
    var s2 := TestStarts(2, s, 1, CallTryPop, LoadHead, 0);
    var push, s3 := Pushes(2, s2, 0, 6, 1);
    var pop, s4 := Pops(2, s3, 0, 1);
    SizeIs(1, 1);
    last := LoadsSecond(2, s4, 1, LoadTail, 0);
    var c, h, t := Move(1, CallTryPop), Move(1, LoadHead), Move(1, LoadTail);
    run := FourLegs(2, s, [c] + [h], s2, push, s3, pop, s4, [t], last, 1, 2);
    OneCallIs(run, c, h, push, pop, t);
  }

  /** Dually: thread 1 calls try_push and loads tail_, thread 0 pops and pushes, and thread 1 loads head_:
      refused, although the queue was not full at any time during the call. */
  lemma PushRefusedWithRoom() returns (first: State, before: seq<Move>, s: State, run: seq<Move>, last: State)
    ensures Init(2, first) && Reaches(2, first, before, s) && CanCall(s, 1)
    ensures Reaches(2, s, run, last) && OneCall(run, 1, CallTryPush(7)) && SizesWithin(2, s, run, 0, 1)
    ensures 1 in last.threads && last.threads[1] == Refused
  {
    hide Inv, Do, Enabled, Init, Reaches, SizesWithin, SizeOf, OneCall;
    first := TwoThreads(2);
    before, s := Pushes(2, first, 0, 5, 1);
    var s2 := TestStarts(2, s, 1, CallTryPush(7), LoadTail, 0);
    var pop, s3 := Pops(2, s2, 0, 1);
    var push, s4 := Pushes(2, s3, 0, 6, 1);
    SizeIs(2, 0);
    last := LoadsSecond(2, s4, 1, LoadHead, 0);
    var c, t, h := Move(1, CallTryPush(7)), Move(1, LoadTail), Move(1, LoadHead);
    run := FourLegs(2, s, [c] + [t], s2, pop, s3, push, s4, [h], last, 0, 1);
    OneCallIs(run, c, t, pop, push, h);
  }

  lemma FourLegs(N: nat, s: State, r1: seq<Move>, s1: State, r2: seq<Move>, s2: State, r3: seq<Move>, s3: State,
                 r4: seq<Move>, s4: State, low: int, high: int) returns (run: seq<Move>)
    requires Inv(N, s) && Inv(N, s1) && Inv(N, s2) && Inv(N, s3)
    requires Reaches(N, s, r1, s1) && low <= s.head - s1.tail && s1.head - s.tail <= high
    requires Reaches(N, s1, r2, s2) && low <= s1.head - s2.tail && s2.head - s1.tail <= high
    requires Reaches(N, s2, r3, s3) && low <= s2.head - s3.tail && s3.head - s2.tail <= high
    requires Reaches(N, s3, r4, s4) && low <= s3.head - s4.tail && s4.head - s3.tail <= high
    ensures run == r1 + r2 + r3 + r4 && Reaches(N, s, run, s4) && SizesWithin(N, s, run, low, high)
  {
    hide Inv, Reaches, SizesWithin;
    LegIs(N, s, r1, s1, low, high);
    LegIs(N, s1, r2, s2, low, high);
    LegIs(N, s2, r3, s3, low, high);
    LegIs(N, s3, r4, s4, low, high);
    LegsJoin(N, s, r1, s1, r2, s2, low, high);
    LegsJoin(N, s, r1 + r2, s2, r3, s3, low, high);
    LegsJoin(N, s, r1 + r2 + r3, s3, r4, s4, low, high);
    run := r1 + r2 + r3 + r4;
  }
}
