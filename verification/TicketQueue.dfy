/** The ticket queue of exercises/concurrent.cpp: any number of threads push and pop, or try to,
    through four shared counters and a ring of N slots. Every atomic access is one step, so a run is
    an arbitrary interleaving of the threads' steps (the atomics are sequentially consistent). */
module TicketQueue {

  const SIZE_WRAP := 0x1_0000_0000_0000_0000

  /** The element type; the queue only moves elements. */
  type Item = int

  /** How far one evaluation of size() has come: it loads head_ and tail_ in either order. */
  datatype SizeRead = NothingRead | HeadRead(head: int) | TailRead(tail: int)

  /** Where a thread is inside push, pop, try_push or try_pop. The try forms test full() or empty(),
      and past the test enter the blocking form. */
  datatype Phase =
    | Idle
    | TryPush(value: Item, read: SizeRead)
    | EnterPush(value: Item)
    | TryPop(read: SizeRead)
    | EnterPop
    | Refused
    | PushLoadHead(ticket: int, value: Item)
    | PushLoadTail(ticket: int, value: Item, head: int)
    | PushTest(ticket: int, value: Item, head: int, tail: int)
    | PushAssert(ticket: int, value: Item, call: nat, read: SizeRead)
    | PushWrite(ticket: int, value: Item)
    | PushPublish(ticket: int, value: Item)
    | PopLoadHead(ticket: int)
    | PopLoadTail(ticket: int, head: int)
    | PopTest(ticket: int, head: int, tail: int)
    | PopAssert(ticket: int, tail: int, call: nat, read: SizeRead)
    | PopRead(ticket: int, tail: int)
    | PopPublish(ticket: int, value: Item)
    | Popped(ticket: int, value: Item)
    | Aborted

  /** The shared counters and slots, the threads, and two histories: the values pushed, by push
      ticket, and the values popped, in the order of the increments of tail_. */
  datatype State = State(
    head: int, tail: int, headTicket: int, tailTicket: int,
    buffer: seq<Item>, threads: map<nat, Phase>,
    pushed: seq<Item>, popped: seq<Item>)

  datatype Action =
    | CallPush(value: Item) | CallPop | CallTryPush(value: Item) | CallTryPop
    | Go | LoadHead | LoadTail

  datatype Move = Move(thread: nat, action: Action)

  // ----- the steps

  predicate Pushing(p: Phase) {
    p.PushLoadHead? || p.PushLoadTail? || p.PushTest? || p.PushAssert? || p.PushWrite? || p.PushPublish?
  }

  predicate Popping(p: Phase) {
    p.PopLoadHead? || p.PopLoadTail? || p.PopTest? || p.PopAssert? || p.PopRead? || p.PopPublish?
  }

  /** Inside try_push or try_pop, before the blocking form. */
  predicate Trying(p: Phase) { p.TryPush? || p.EnterPush? || p.TryPop? || p.EnterPop? }

  predicate InCall(p: Phase) { Pushing(p) || Popping(p) || Trying(p) }

  predicate IsCall(a: Action) { a.CallPush? || a.CallPop? || a.CallTryPush? || a.CallTryPop? }

  ghost predicate Enabled(s: State, m: Move) {
    m.thread in s.threads &&
    match s.threads[m.thread]
    case Idle => IsCall(m.action)
    case Popped(_, _) => IsCall(m.action)
    case Refused => IsCall(m.action)
    case Aborted => false
    case TryPush(_, read) => SizeEnabled(read, m.action)
    case TryPop(read) => SizeEnabled(read, m.action)
    case PushAssert(_, _, _, read) => SizeEnabled(read, m.action)
    case PopAssert(_, _, _, read) => SizeEnabled(read, m.action)
    case _ => m.action.Go?
  }

  ghost predicate SizeEnabled(read: SizeRead, a: Action) {
    match read
    case NothingRead => a.LoadHead? || a.LoadTail?
    case HeadRead(_) => a.LoadTail?
    case TailRead(_) => a.LoadHead?
  }

  /** size() converts head - tail to an unsigned 64-bit number. */
  function SizeOf(head: int, tail: int): nat { (head - tail) % SIZE_WRAP }

  /** One more load inside size(): the pending load, or the finished size. */
  function Load(s: State, read: SizeRead, a: Action): (r: (SizeRead, nat)) {
    match read
    case NothingRead => (if a.LoadHead? then HeadRead(s.head) else TailRead(s.tail), 0)
    case HeadRead(h) => (NothingRead, SizeOf(h, s.tail))
    case TailRead(t) => (NothingRead, SizeOf(s.head, t))
  }

  /** One step of push after it has its ticket (exercises/concurrent.cpp:61-74). */
  function DoPush(N: nat, s: State, t: nat, p: Phase, a: Action): State
    requires N > 0 && |s.buffer| == N && Pushing(p)
  {
    match p
    case PushLoadHead(k, v) => Goto(s, t, PushLoadTail(k, v, s.head))
    case PushLoadTail(k, v, h) => Goto(s, t, PushTest(k, v, h, s.tail))
    case PushTest(k, v, h, l) =>
      Goto(s, t, if h - l >= N || k != h then PushLoadHead(k, v) else PushAssert(k, v, 0, NothingRead))
    case PushAssert(k, v, call, read) =>
      var (next, size) := Load(s, read, a);
      Goto(s, t,
           if next != NothingRead then PushAssert(k, v, call, next)
           else if call == 0 then PushAssert(k, v, 1, NothingRead)
           else if size <= N then PushWrite(k, v) else Aborted)
    case PushWrite(k, v) => Goto(s, t, PushPublish(k, v)).(buffer := s.buffer[k % N := v])
    case PushPublish(k, v) => Goto(s, t, Idle).(head := s.head + 1)
  }

  /** One step of pop after it has its ticket (exercises/concurrent.cpp:100-113). */
  function DoPop(N: nat, s: State, t: nat, p: Phase, a: Action): State
    requires N > 0 && |s.buffer| == N && Popping(p)
  {
    match p
    case PopLoadHead(k) => Goto(s, t, PopLoadTail(k, s.head))
    case PopLoadTail(k, h) => Goto(s, t, PopTest(k, h, s.tail))
    case PopTest(k, h, l) =>
      Goto(s, t, if h - l <= 0 || k != l then PopLoadHead(k) else PopAssert(k, l, 0, NothingRead))
    case PopAssert(k, l, call, read) =>
      var (next, size) := Load(s, read, a);
      Goto(s, t,
           if next != NothingRead then PopAssert(k, l, call, next)
           else if call == 0 then PopAssert(k, l, 1, NothingRead)
           else if size <= N then PopRead(k, l) else Aborted)
    case PopRead(k, l) => Goto(s, t, PopPublish(k, s.buffer[l % N]))
    case PopPublish(k, v) => Goto(s, t, Popped(k, v)).(tail := s.tail + 1, popped := s.popped + [v])
  }

  /** One step of try_push or try_pop up to the fetch_add of the blocking form
      (exercises/concurrent.cpp:76-84, 117-125). */
  function DoTry(N: nat, s: State, t: nat, p: Phase, a: Action): State
    requires Trying(p)
  {
    match p
    case TryPush(v, read) =>
      var (next, size) := Load(s, read, a);
      Goto(s, t,
           if next != NothingRead then TryPush(v, next)
           else if size == N then Refused else EnterPush(v))
    case EnterPush(v) => TakePushTicket(s, t, v)
    case TryPop(read) =>
      var (next, size) := Load(s, read, a);
      Goto(s, t,
           if next != NothingRead then TryPop(next)
           else if size == 0 then Refused else EnterPop)
    case EnterPop => TakePopTicket(s, t)
  }

  function Do(N: nat, s: State, m: Move): State
    requires N > 0 && |s.buffer| == N && Enabled(s, m)
  {
    var p := s.threads[m.thread];
    if Pushing(p) then DoPush(N, s, m.thread, p, m.action)
    else if Popping(p) then DoPop(N, s, m.thread, p, m.action)
    else if Trying(p) then DoTry(N, s, m.thread, p, m.action)
    else Call(s, m)
  }

  function Goto(s: State, t: nat, p: Phase): State { s.(threads := s.threads[t := p]) }

  /** The fetch_add with which push starts, and pop. */
  function TakePushTicket(s: State, t: nat, v: Item): State {
    Goto(s, t, PushLoadHead(s.headTicket, v)).(headTicket := s.headTicket + 1, pushed := s.pushed + [v])
  }

  function TakePopTicket(s: State, t: nat): State {
    Goto(s, t, PopLoadHead(s.tailTicket)).(tailTicket := s.tailTicket + 1)
  }

  function Call(s: State, m: Move): State
    requires IsCall(m.action)
  {
    match m.action
    case CallPush(v) => TakePushTicket(s, m.thread, v)
    case CallPop => TakePopTicket(s, m.thread)
    case CallTryPush(v) => Goto(s, m.thread, TryPush(v, NothingRead))
    case CallTryPop => Goto(s, m.thread, TryPop(NothingRead))
  }

  ghost predicate Init(N: nat, s: State) {
    N > 0 && |s.buffer| == N &&
    s.head == s.tail == s.headTicket == s.tailTicket == 0 &&
    s.pushed == s.popped == [] &&
    forall t :: t in s.threads ==> s.threads[t] == Idle
  }

  /** `last` is reached from `first` by the moves of `run`, each enabled when it is made. */
  ghost predicate Reaches(N: nat, first: State, run: seq<Move>, last: State)
    decreases |run|
  {
    if run == [] then first == last
    else
      N > 0 && |first.buffer| == N && Enabled(first, run[0]) &&
      Reaches(N, Do(N, first, run[0]), run[1..], last)
  }

  ghost predicate Reachable(N: nat, s: State) {
    exists first, run :: Init(N, first) && Reaches(N, first, run, s)
  }

  // ----- what every state keeps

  /** Past the wait loop of push, of pop. */
  predicate Producing(p: Phase) { p.PushAssert? || p.PushWrite? || p.PushPublish? }

  predicate Consuming(p: Phase) { p.PopAssert? || p.PopRead? || p.PopPublish? }

  ghost predicate PushOk(N: nat, s: State, p: Phase)
    requires N > 0 && |s.buffer| == N && Pushing(p)
  {
    s.head <= p.ticket < |s.pushed| && p.ticket >= 0 && s.pushed[p.ticket] == p.value &&
    (Producing(p) ==> p.ticket == s.head && s.head - s.tail < N) &&
    (p.PushLoadTail? ==> p.head <= s.head) &&
    (p.PushTest? ==> p.head <= s.head && p.tail <= s.tail) &&
    (p.PushAssert? ==>
       (p.read.HeadRead? ==> p.read.head == s.head) &&
       (p.read.TailRead? ==> p.read.tail <= s.tail && s.head - p.read.tail < N)) &&
    (p.PushPublish? ==> s.buffer[s.head % N] == p.value)
  }

  ghost predicate PopOk(N: nat, s: State, p: Phase)
    requires N > 0 && |s.buffer| == N && Popping(p)
  {
    s.tail <= p.ticket < s.tailTicket &&
    (Consuming(p) ==> p.ticket == s.tail && s.tail < s.head) &&
    (p.PopLoadTail? ==> p.head <= s.head) &&
    (p.PopTest? ==> p.head <= s.head && p.tail <= s.tail) &&
    (p.PopAssert? || p.PopRead? ==> p.tail == p.ticket) &&
    (p.PopAssert? ==>
       (p.read.HeadRead? ==> s.tail < p.read.head <= s.head) &&
       (p.read.TailRead? ==> p.read.tail == s.tail)) &&
    (p.PopPublish? ==> 0 <= p.ticket < |s.pushed| && p.value == s.pushed[p.ticket])
  }

  /** What a test of full() or empty() has loaded was there before. */
  predicate ReadOk(s: State, read: SizeRead) {
    (read.HeadRead? ==> 0 <= read.head <= s.head) && (read.TailRead? ==> 0 <= read.tail <= s.tail)
  }

  ghost predicate PhaseOk(N: nat, s: State, p: Phase)
    requires N > 0 && |s.buffer| == N
  {
    !p.Aborted? &&
    (p.TryPush? || p.TryPop? ==> ReadOk(s, p.read)) &&
    (Pushing(p) ==> PushOk(N, s, p)) &&
    (Popping(p) ==> PopOk(N, s, p)) &&
    (p.Popped? ==> 0 <= p.ticket < s.tail && p.ticket < |s.pushed| && p.value == s.pushed[p.ticket])
  }

  ghost predicate Counters(N: nat, s: State) {
    N > 0 && |s.buffer| == N &&
    0 <= s.tail <= s.head <= s.tail + N &&
    s.head <= s.headTicket == |s.pushed| &&
    s.tail <= s.tailTicket &&
    s.popped == s.pushed[..s.tail]
  }

  /** The slots between tail and head hold the values pushed under those tickets. */
  ghost predicate Slots(N: nat, s: State)
    requires Counters(N, s)
  {
    forall k {:trigger s.pushed[k]} :: s.tail <= k < s.head ==> s.buffer[k % N] == s.pushed[k]
  }

  ghost predicate HoldsPush(s: State, t: nat, k: int) {
    t in s.threads && Pushing(s.threads[t]) && s.threads[t].ticket == k
  }

  ghost predicate HoldsPop(s: State, t: nat, k: int) {
    t in s.threads && Popping(s.threads[t]) && s.threads[t].ticket == k
  }

  ghost predicate PushHeld(s: State, k: int) { exists t :: HoldsPush(s, t, k) }

  ghost predicate PopHeld(s: State, k: int) { exists t :: HoldsPop(s, t, k) }

  /** Every ticket not yet served is held by one thread, and by one only. */
  ghost predicate Tickets(s: State) {
    (forall k :: s.head <= k < s.headTicket ==> PushHeld(s, k)) &&
    (forall k :: s.tail <= k < s.tailTicket ==> PopHeld(s, k)) &&
    (forall t, u, k :: HoldsPush(s, t, k) && HoldsPush(s, u, k) ==> t == u) &&
    (forall t, u, k :: HoldsPop(s, t, k) && HoldsPop(s, u, k) ==> t == u)
  }

  ghost predicate Inv(N: nat, s: State) {
    Counters(N, s) && Slots(N, s) && Tickets(s) &&
    forall t :: t in s.threads ==> PhaseOk(N, s, s.threads[t])
  }

  // ----- every step keeps it

  lemma ModDistinct(a: int, b: int, n: int)
    requires 0 < b - a < n
    ensures a % n != b % n
  {
    var q := b / n - a / n;
    assert b - a == n * q + (b % n - a % n);
    Multiples(n, q);
  }

  lemma Multiples(n: int, q: int)
    requires n > 0
    ensures (q <= 0 ==> n * q <= 0) && (q > 0 ==> n * q >= n)
  {}

  lemma StepCounters(N: nat, s: State, m: Move)
    requires Inv(N, s) && Enabled(s, m)
    ensures Counters(N, Do(N, s, m))
  {
    assert PhaseOk(N, s, s.threads[m.thread]);
  }

  lemma StepSlots(N: nat, s: State, m: Move)
    requires Inv(N, s) && Enabled(s, m) && Counters(N, Do(N, s, m))
    ensures Slots(N, Do(N, s, m))
  {
    var p := s.threads[m.thread];
    assert PhaseOk(N, s, p);
    if p.PushWrite? {
      forall k | s.tail <= k < s.head ensures k % N != s.head % N {
        ModDistinct(k, s.head, N);
      }
    }
  }

  /** A holder keeps its ticket until it has published. */
  lemma KeepsPush(N: nat, s: State, m: Move, t: nat, k: int)
    requires N > 0 && |s.buffer| == N && Enabled(s, m) && HoldsPush(s, t, k)
    ensures HoldsPush(Do(N, s, m), t, k) || (t == m.thread && s.threads[t].PushPublish?)
      || Do(N, s, m).threads[t].Aborted?
  {
    hide Load;
  }

  lemma KeepsPop(N: nat, s: State, m: Move, t: nat, k: int)
    requires N > 0 && |s.buffer| == N && Enabled(s, m) && HoldsPop(s, t, k)
    ensures HoldsPop(Do(N, s, m), t, k) || (t == m.thread && s.threads[t].PopPublish?)
      || Do(N, s, m).threads[t].Aborted?
  {
    hide Load;
  }

  lemma NotAborted(N: nat, s: State, m: Move, t: nat)
    requires Inv(N, s) && Enabled(s, m) && Counters(N, Do(N, s, m)) && t in s.threads
    ensures t in Do(N, s, m).threads && !Do(N, s, m).threads[t].Aborted?
  {
    hide Slots, Tickets, Do, Enabled, PushOk, PopOk;
    if t == m.thread { StepMover(N, s, m); } else { StepOther(N, s, m, t); }
    OthersStay(N, s, m, t);
  }

  lemma OthersStay(N: nat, s: State, m: Move, t: nat)
    requires N > 0 && |s.buffer| == N && Enabled(s, m) && t in s.threads
    ensures t in Do(N, s, m).threads && (t != m.thread ==> Do(N, s, m).threads[t] == s.threads[t])
  {
    hide Load;
  }

  /** What one step does to the counters. */
  lemma CountersMove(N: nat, s: State, m: Move)
    requires N > 0 && |s.buffer| == N && Enabled(s, m)
    ensures var s', p := Do(N, s, m), s.threads[m.thread];
            s'.head == s.head + (if p.PushPublish? then 1 else 0) &&
            s'.tail == s.tail + (if p.PopPublish? then 1 else 0) &&
            (s'.headTicket == s.headTicket ||
             (s'.headTicket == s.headTicket + 1 && HoldsPush(s', m.thread, s.headTicket))) &&
            (s'.tailTicket == s.tailTicket ||
             (s'.tailTicket == s.tailTicket + 1 && HoldsPop(s', m.thread, s.tailTicket)))
  {
    hide Load;
  }

  lemma StepPushTickets(N: nat, s: State, m: Move, k: int)
    requires Inv(N, s) && Enabled(s, m) && Counters(N, Do(N, s, m))
    requires Do(N, s, m).head <= k < Do(N, s, m).headTicket
    ensures PushHeld(Do(N, s, m), k)
  {
    hide Do, Enabled, Slots;
    CountersMove(N, s, m);
    assert PhaseOk(N, s, s.threads[m.thread]) by { Mover(s, m); }
    if k < s.headTicket {
      assert PushHeld(s, k);
      var t :| HoldsPush(s, t, k);
      KeepsPush(N, s, m, t, k);
      NotAborted(N, s, m, t);
    }
  }

  lemma StepPopTickets(N: nat, s: State, m: Move, k: int)
    requires Inv(N, s) && Enabled(s, m) && Counters(N, Do(N, s, m))
    requires Do(N, s, m).tail <= k < Do(N, s, m).tailTicket
    ensures PopHeld(Do(N, s, m), k)
  {
    hide Do, Enabled, Slots;
    CountersMove(N, s, m);
    assert PhaseOk(N, s, s.threads[m.thread]) by { Mover(s, m); }
    if k < s.tailTicket {
      assert PopHeld(s, k);
      var t :| HoldsPop(s, t, k);
      KeepsPop(N, s, m, t, k);
      NotAborted(N, s, m, t);
    }
  }

  lemma Mover(s: State, m: Move)
    requires Enabled(s, m)
    ensures m.thread in s.threads
  {}

  lemma PushHolder(N: nat, s: State, m: Move, t: nat, k: int)
    requires N > 0 && |s.buffer| == N && Enabled(s, m)
    requires HoldsPush(Do(N, s, m), t, k)
    ensures HoldsPush(s, t, k) || (t == m.thread && k == s.headTicket)
  {}

  lemma PopHolder(N: nat, s: State, m: Move, t: nat, k: int)
    requires N > 0 && |s.buffer| == N && Enabled(s, m)
    requires HoldsPop(Do(N, s, m), t, k)
    ensures HoldsPop(s, t, k) || (t == m.thread && k == s.tailTicket)
  {}

  lemma OnePusher(N: nat, s: State, m: Move, t: nat, u: nat, k: int)
    requires Inv(N, s) && Enabled(s, m)
    requires HoldsPush(Do(N, s, m), t, k) && HoldsPush(Do(N, s, m), u, k)
    ensures t == u
  {
    PushHolder(N, s, m, t, k);
    PushHolder(N, s, m, u, k);
    assert HoldsPush(s, t, k) ==> PhaseOk(N, s, s.threads[t]);
    assert HoldsPush(s, u, k) ==> PhaseOk(N, s, s.threads[u]);
  }

  lemma OnePopper(N: nat, s: State, m: Move, t: nat, u: nat, k: int)
    requires Inv(N, s) && Enabled(s, m)
    requires HoldsPop(Do(N, s, m), t, k) && HoldsPop(Do(N, s, m), u, k)
    ensures t == u
  {
    PopHolder(N, s, m, t, k);
    PopHolder(N, s, m, u, k);
    assert HoldsPop(s, t, k) ==> PhaseOk(N, s, s.threads[t]);
    assert HoldsPop(s, u, k) ==> PhaseOk(N, s, s.threads[u]);
  }

  lemma StepTickets(N: nat, s: State, m: Move)
    requires Inv(N, s) && Enabled(s, m) && Counters(N, Do(N, s, m))
    ensures Tickets(Do(N, s, m))
  {
    var s' := Do(N, s, m);
    forall k | s'.head <= k < s'.headTicket ensures PushHeld(s', k) { StepPushTickets(N, s, m, k); }
    forall k | s'.tail <= k < s'.tailTicket ensures PopHeld(s', k) { StepPopTickets(N, s, m, k); }
    forall t, u, k | HoldsPush(s', t, k) && HoldsPush(s', u, k) ensures t == u { OnePusher(N, s, m, t, u, k); }
    forall t, u, k | HoldsPop(s', t, k) && HoldsPop(s', u, k) ensures t == u { OnePopper(N, s, m, t, u, k); }
  }

  lemma SizeAtMost(head: int, tail: int)
    requires tail <= head
    ensures SizeOf(head, tail) <= head - tail
  {}

  lemma ThreadOk(N: nat, s: State, t: nat)
    requires Inv(N, s) && t in s.threads
    ensures N > 0 && |s.buffer| == N && 0 <= s.tail <= s.head <= s.tail + N
    ensures PhaseOk(N, s, s.threads[t])
    ensures Pushing(s.threads[t]) ==> PushOk(N, s, s.threads[t])
    ensures Popping(s.threads[t]) ==> PopOk(N, s, s.threads[t])
  {
    hide PushOk, PopOk, Slots, Tickets;
  }

  lemma FrontSlot(N: nat, s: State)
    requires Inv(N, s) && s.tail < s.head
    ensures s.buffer[s.tail % N] == s.pushed[s.tail]
  {
    hide Tickets, PhaseOk;
  }

  /** The thread that moves. */
  lemma PushMover(N: nat, s: State, m: Move)
    requires Inv(N, s) && Enabled(s, m) && Counters(N, Do(N, s, m)) && Pushing(s.threads[m.thread])
    ensures PhaseOk(N, Do(N, s, m), Do(N, s, m).threads[m.thread])
  {
    hide Inv, SizeOf;
    var p := s.threads[m.thread];
    ThreadOk(N, s, m.thread);
    if p.PushAssert? && p.read.HeadRead? { SizeAtMost(p.read.head, s.tail); }
    if p.PushAssert? && p.read.TailRead? { SizeAtMost(s.head, p.read.tail); }
  }

  lemma PopMover(N: nat, s: State, m: Move)
    requires Inv(N, s) && Enabled(s, m) && Counters(N, Do(N, s, m)) && Popping(s.threads[m.thread])
    ensures PhaseOk(N, Do(N, s, m), Do(N, s, m).threads[m.thread])
  {
    hide Inv, SizeOf;
    var p := s.threads[m.thread];
    ThreadOk(N, s, m.thread);
    if p.PopRead? { FrontSlot(N, s); }
    if p.PopAssert? && p.read.HeadRead? { SizeAtMost(p.read.head, s.tail); }
    if p.PopAssert? && p.read.TailRead? { SizeAtMost(s.head, p.read.tail); }
  }

  lemma StepMover(N: nat, s: State, m: Move)
    requires Inv(N, s) && Enabled(s, m) && Counters(N, Do(N, s, m))
    ensures PhaseOk(N, Do(N, s, m), Do(N, s, m).threads[m.thread])
  {
    hide Inv, Do, Enabled, PhaseOk, Counters;
    Mover(s, m);
    var p := s.threads[m.thread];
    if Pushing(p) { PushMover(N, s, m); } else if Popping(p) { PopMover(N, s, m); } else { OutsideMover(N, s, m); }
  }

  /** A thread that calls, or has not got past its test. */
  lemma OutsideMover(N: nat, s: State, m: Move)
    requires Inv(N, s) && Enabled(s, m) && Counters(N, Do(N, s, m))
    requires !Pushing(s.threads[m.thread]) && !Popping(s.threads[m.thread])
    ensures PhaseOk(N, Do(N, s, m), Do(N, s, m).threads[m.thread])
  {
    hide Inv, Do, Enabled, PhaseOk, Counters;
    Mover(s, m);
    var p := s.threads[m.thread];
    if p.TryPush? || p.TryPop? { TestMover(N, s, m); } else { TicketMover(N, s, m); }
  }

  lemma TestMover(N: nat, s: State, m: Move)
    requires Inv(N, s) && Enabled(s, m)
    requires s.threads[m.thread].TryPush? || s.threads[m.thread].TryPop?
    ensures PhaseOk(N, Do(N, s, m), Do(N, s, m).threads[m.thread])
  {
    hide Inv, SizeOf;
    ThreadOk(N, s, m.thread);
  }

  lemma TicketMover(N: nat, s: State, m: Move)
    requires Inv(N, s) && Enabled(s, m) && Counters(N, Do(N, s, m))
    requires !Pushing(s.threads[m.thread]) && !Popping(s.threads[m.thread])
    requires !s.threads[m.thread].TryPush? && !s.threads[m.thread].TryPop?
    ensures PhaseOk(N, Do(N, s, m), Do(N, s, m).threads[m.thread])
  {
    hide Tickets, Slots, Load;
  }

  /** A thread that does not move. */
  lemma StepOther(N: nat, s: State, m: Move, t: nat)
    requires Inv(N, s) && Enabled(s, m) && Counters(N, Do(N, s, m))
    requires t in s.threads && t != m.thread
    ensures PhaseOk(N, Do(N, s, m), s.threads[t])
  {
    hide Slots, Load;
    var p, q := s.threads[m.thread], s.threads[t];
    assert PhaseOk(N, s, p) && PhaseOk(N, s, q);
    if Pushing(p) && Pushing(q) {
      assert HoldsPush(s, m.thread, p.ticket) && HoldsPush(s, t, q.ticket);
    }
    if Popping(p) && Popping(q) {
      assert HoldsPop(s, m.thread, p.ticket) && HoldsPop(s, t, q.ticket);
    }
  }

  lemma StepKeepsInv(N: nat, s: State, m: Move)
    requires Inv(N, s) && Enabled(s, m)
    ensures Inv(N, Do(N, s, m))
  {
    StepCounters(N, s, m);
    StepSlots(N, s, m);
    StepTickets(N, s, m);
    StepMover(N, s, m);
    forall t | t in s.threads && t != m.thread ensures PhaseOk(N, Do(N, s, m), s.threads[t]) {
      StepOther(N, s, m, t);
    }
  }

  lemma {:induction false} RunKeepsInv(N: nat, first: State, run: seq<Move>, last: State)
    requires Inv(N, first) && Reaches(N, first, run, last)
    ensures Inv(N, last)
    decreases |run|
  {
    if run != [] {
      StepKeepsInv(N, first, run[0]);
      RunKeepsInv(N, Do(N, first, run[0]), run[1..], last);
    }
  }

  lemma InitInv(N: nat, s: State)
    requires Init(N, s)
    ensures Inv(N, s)
  {}

  lemma ReachableInv(N: nat, s: State)
    requires Reachable(N, s)
    ensures Inv(N, s)
  {
    hide Init, Inv;
    var first, run :| Init(N, first) && Reaches(N, first, run, s);
    InitInv(N, first);
    RunKeepsInv(N, first, run, s);
  }

  // ----- what a user of the queue sees

  /** The arguments of the latest push or try_push of each thread. */
  function Called(calls: map<nat, Item>, m: Move): map<nat, Item> {
    if m.action.CallPush? || m.action.CallTryPush? then calls[m.thread := m.action.value] else calls
  }

  /** The arguments of the calls of a run that take push tickets, in the order of the tickets. */
  ghost function Offered(N: nat, s: State, run: seq<Move>, calls: map<nat, Item>): seq<Item>
    decreases |run|
  {
    if run == [] || N == 0 || |s.buffer| != N || !Enabled(s, run[0]) then []
    else
      var t, s', calls' := run[0].thread, Do(N, s, run[0]), Called(calls, run[0]);
      (if s'.headTicket != s.headTicket && t in calls' then [calls'[t]] else []) +
      Offered(N, s', run[1..], calls')
  }

  /** A try_push that has no ticket yet still has the value it was called with. */
  ghost predicate CallsOk(s: State, calls: map<nat, Item>) {
    forall t :: t in s.threads && (s.threads[t].TryPush? || s.threads[t].EnterPush?) ==>
      t in calls && calls[t] == s.threads[t].value
  }

  /** A step that takes a push ticket appends the argument of its call to the values pushed. */
  lemma StepOffers(N: nat, s: State, m: Move, calls: map<nat, Item>)
    requires N > 0 && |s.buffer| == N && Enabled(s, m) && CallsOk(s, calls)
    ensures var s', calls' := Do(N, s, m), Called(calls, m);
            CallsOk(s', calls') &&
            if s'.headTicket != s.headTicket then
              m.thread in calls' && s'.pushed == s.pushed + [calls'[m.thread]] &&
              s'.headTicket == s.headTicket + 1 && HoldsPush(s', m.thread, s.headTicket) &&
              s'.threads[m.thread].value == calls'[m.thread]
            else s'.pushed == s.pushed
  {
    hide Load;
    var s', calls' := Do(N, s, m), Called(calls, m);
    forall t | t in s'.threads && (s'.threads[t].TryPush? || s'.threads[t].EnterPush?)
      ensures t in calls' && calls'[t] == s'.threads[t].value
    {
      if t != m.thread { OthersStay(N, s, m, t); }
    }
  }

  lemma {:induction false} PushedAreOffered(N: nat, s: State, run: seq<Move>, last: State, calls: map<nat, Item>)
    requires Reaches(N, s, run, last) && CallsOk(s, calls)
    ensures last.pushed == s.pushed + Offered(N, s, run, calls)
    decreases |run|
  {
    hide Do, Enabled, CallsOk, Called;
    if run != [] {
      StepOffers(N, s, run[0], calls);
      PushedAreOffered(N, Do(N, s, run[0]), run[1..], last, Called(calls, run[0]));
    }
  }

  /** The histories of a run are what its calls were made with. */
  lemma RunOffers(N: nat, first: State, run: seq<Move>, s: State)
    requires Init(N, first) && Reaches(N, first, run, s)
    ensures Inv(N, s) && s.pushed == Offered(N, first, run, map[])
  {
    hide Reaches, Inv;
    InitInv(N, first);
    RunKeepsInv(N, first, run, s);
    PushedAreOffered(N, first, run, s, map[]);
  }

  /** In every interleaving the pop that took ticket k returns the argument of the push or try_push that took
      ticket k, and the values popped so far are, in order, the arguments of the first of these calls. */
  lemma PopsFollowPushes(N: nat, first: State, run: seq<Move>, s: State, t: nat)
    requires Init(N, first) && Reaches(N, first, run, s)
    ensures var offered := Offered(N, first, run, map[]);
            s.pushed == offered && s.popped <= offered && |s.popped| == s.tail &&
            (t in s.threads && s.threads[t].Popped? ==>
               0 <= s.threads[t].ticket < |s.popped| &&
               s.threads[t].value == s.popped[s.threads[t].ticket] == offered[s.threads[t].ticket])
  {
    hide Reaches, Init, Slots, Tickets, Offered;
    RunOffers(N, first, run, s);
    if t in s.threads { assert PhaseOk(N, s, s.threads[t]); }
  }

  /** At most one producer and one consumer are past their wait loops, and they use different slots. */
  lemma SlotsAreExclusive(N: nat, s: State, t: nat, u: nat)
    requires Reachable(N, s) && t in s.threads && u in s.threads
    ensures 0 <= s.tail <= s.head <= s.tail + N
    ensures Producing(s.threads[t]) && Producing(s.threads[u]) ==> t == u
    ensures Consuming(s.threads[t]) && Consuming(s.threads[u]) ==> t == u
    ensures Producing(s.threads[t]) && Consuming(s.threads[u]) ==>
      s.threads[t].ticket % N != s.threads[u].ticket % N
  {
    ReachableInv(N, s);
    var p, q := s.threads[t], s.threads[u];
    assert PhaseOk(N, s, p) && PhaseOk(N, s, q);
    if Producing(p) && Producing(q) { assert HoldsPush(s, t, s.head) && HoldsPush(s, u, s.head); }
    if Consuming(p) && Consuming(q) { assert HoldsPop(s, t, s.tail) && HoldsPop(s, u, s.tail); }
    if Producing(p) && Consuming(q) { ModDistinct(s.tail, s.head, N); }
  }

  /** Both size assertions hold, whichever of its two loads size() makes first: no thread has failed one,
      and the size that a second load is about to complete is at most N. */
  lemma SizeAssertionsHold(N: nat, s: State, t: nat)
    requires Reachable(N, s) && t in s.threads
    ensures !s.threads[t].Aborted?
    ensures var p := s.threads[t];
            (p.PushAssert? || p.PopAssert?) && p.read != NothingRead ==> SizeSeen(s, p.read) <= N
  {
    hide Inv, SizeOf, Reachable;
    ReachableInv(N, s);
    ThreadOk(N, s, t);
    var p := s.threads[t];
    if (p.PushAssert? || p.PopAssert?) && p.read.HeadRead? { SizeAtMost(p.read.head, s.tail); }
    if (p.PushAssert? || p.PopAssert?) && p.read.TailRead? { SizeAtMost(s.head, p.read.tail); }
  }

  // ----- what a call returns, and what it has done

  datatype Taken = PushTicket(ticket: int) | PopTicket(ticket: int)

  /** The ticket that a step takes. */
  ghost function TicketOf(s: State, s': State): seq<Taken> {
    (if s'.headTicket != s.headTicket then [PushTicket(s.headTicket)] else []) +
    if s'.tailTicket != s.tailTicket then [PopTicket(s.tailTicket)] else []
  }

  /** The tickets that the moves of thread t take in a run. */
  ghost function TakenBy(N: nat, s: State, run: seq<Move>, t: nat): seq<Taken>
    decreases |run|
  {
    if run == [] || N == 0 || |s.buffer| != N || !Enabled(s, run[0]) then []
    else
      var s' := Do(N, s, run[0]);
      (if run[0].thread == t then TicketOf(s, s') else []) + TakenBy(N, s', run[1..], t)
  }

  /** A call that began with the action a has taken the tickets `taken` when it is at p. At the end: a push
      or try_push has published its argument under its ticket, a pop or try_pop returns with its ticket, and
      a refused try form has taken none. */
  ghost predicate OnItsWay(a: Action, s: State, p: Phase, taken: seq<Taken>) {
    match p
    case TryPush(v, _) => a == CallTryPush(v) && taken == []
    case EnterPush(v) => a == CallTryPush(v) && taken == []
    case Idle =>
      (a.CallPush? || a.CallTryPush?) && |taken| == 1 && taken[0].PushTicket? &&
      var k := taken[0].ticket; 0 <= k < s.head && k < |s.pushed| && s.pushed[k] == a.value
    case TryPop(_) => a == CallTryPop && taken == []
    case EnterPop => a == CallTryPop && taken == []
    case Popped(k, _) => (a.CallPop? || a.CallTryPop?) && taken == [PopTicket(k)]
    case Refused => (a.CallTryPush? || a.CallTryPop?) && taken == []
    case Aborted => false
    case _ =>
      if Pushing(p) then (a == CallPush(p.value) || a == CallTryPush(p.value)) && taken == [PushTicket(p.ticket)]
      else (a == CallPop || a == CallTryPop) && taken == [PopTicket(p.ticket)]
  }

  lemma PushWay(N: nat, s: State, m: Move, a: Action, taken: seq<Taken>)
    requires Inv(N, s) && Enabled(s, m) && Pushing(s.threads[m.thread]) && OnItsWay(a, s, s.threads[m.thread], taken)
    ensures var s' := Do(N, s, m); OnItsWay(a, s', s'.threads[m.thread], taken + TicketOf(s, s'))
  {
    hide Inv, SizeOf;
    ThreadOk(N, s, m.thread);
    var p := s.threads[m.thread];
    if p.PushAssert? && p.read.HeadRead? { SizeAtMost(p.read.head, s.tail); }
    if p.PushAssert? && p.read.TailRead? { SizeAtMost(s.head, p.read.tail); }
    assert taken + [] == taken;
  }

  lemma PopWay(N: nat, s: State, m: Move, a: Action, taken: seq<Taken>)
    requires Inv(N, s) && Enabled(s, m) && Popping(s.threads[m.thread]) && OnItsWay(a, s, s.threads[m.thread], taken)
    ensures var s' := Do(N, s, m); OnItsWay(a, s', s'.threads[m.thread], taken + TicketOf(s, s'))
  {
    hide Inv, SizeOf;
    ThreadOk(N, s, m.thread);
    var p := s.threads[m.thread];
    if p.PopAssert? && p.read.HeadRead? { SizeAtMost(p.read.head, s.tail); }
    if p.PopAssert? && p.read.TailRead? { SizeAtMost(s.head, p.read.tail); }
    assert taken + [] == taken;
  }

  lemma TryWay(N: nat, s: State, m: Move, a: Action, taken: seq<Taken>)
    requires N > 0 && |s.buffer| == N && Enabled(s, m)
    requires Trying(s.threads[m.thread]) && OnItsWay(a, s, s.threads[m.thread], taken)
    ensures var s' := Do(N, s, m); OnItsWay(a, s', s'.threads[m.thread], taken + TicketOf(s, s'))
  {
    hide SizeOf;
    assert taken + [] == taken;
  }

  lemma CallWay(N: nat, s: State, m: Move)
    requires N > 0 && |s.buffer| == N && Enabled(s, m) && IsCall(m.action)
    ensures var s' := Do(N, s, m); OnItsWay(m.action, s', s'.threads[m.thread], TicketOf(s, s'))
  {}

  /** The moves of the others do not matter. */
  lemma OthersWay(N: nat, s: State, m: Move, t: nat, a: Action, taken: seq<Taken>)
    requires Inv(N, s) && Enabled(s, m) && t in s.threads && t != m.thread && OnItsWay(a, s, s.threads[t], taken)
    ensures N > 0 && |s.buffer| == N && t in Do(N, s, m).threads
    ensures OnItsWay(a, Do(N, s, m), Do(N, s, m).threads[t], taken)
  {
    hide Do, Enabled, Slots, Tickets, PhaseOk;
    OthersStay(N, s, m, t);
    CountersMove(N, s, m);
    PushedGrows(N, s, m);
  }

  lemma {:induction false} RunIsHonest(N: nat, s: State, run: seq<Move>, last: State, t: nat, a: Action,
                                       taken: seq<Taken>)
    requires Inv(N, s) && Reaches(N, s, run, last) && t in s.threads && OnItsWay(a, s, s.threads[t], taken)
    requires forall m :: m in run && m.thread == t ==> !IsCall(m.action)
    ensures t in last.threads && OnItsWay(a, last, last.threads[t], taken + TakenBy(N, s, run, t))
    decreases |run|
  {
    hide Inv, Do, Enabled, OnItsWay, TicketOf;
    if run == [] {
      assert taken + [] == taken;
    } else {
      var m, s' := run[0], Do(N, s, run[0]);
      var ticket := if m.thread == t then TicketOf(s, s') else [];
      assert m in run;
      OthersStay(N, s, m, t);
      if m.thread == t {
        InCallUnlessCalling(s, m);
        if Pushing(s.threads[t]) { PushWay(N, s, m, a, taken); }
        else if Popping(s.threads[t]) { PopWay(N, s, m, a, taken); }
        else { TryWay(N, s, m, a, taken); }
      } else {
        OthersWay(N, s, m, t, a, taken);
        assert taken + [] == taken;
      }
      StepKeepsInv(N, s, m);
      RunIsHonest(N, s', run[1..], last, t, a, taken + ticket);
      assert taken + (ticket + TakenBy(N, s', run[1..], t)) == taken + ticket + TakenBy(N, s', run[1..], t);
    }
  }

  lemma InCallUnlessCalling(s: State, m: Move)
    requires Enabled(s, m) && !IsCall(m.action)
    ensures InCall(s.threads[m.thread])
  {}

  /** In every interleaving, for every call, from its first move on: a push or try_push that is over has taken
      one push ticket and published its argument under it, or is a refused try_push without a ticket; a pop or
      try_pop that is over has taken one pop ticket, with which it returns, or is a refused try_pop. */
  lemma CallIsHonest(N: nat, s: State, run: seq<Move>, last: State, t: nat, a: Action)
    requires Reachable(N, s) && Reaches(N, s, run, last) && IsCall(a)
    requires run != [] && run[0] == Move(t, a) && forall m :: m in run[1..] && m.thread == t ==> !IsCall(m.action)
    ensures t in last.threads && OnItsWay(a, last, last.threads[t], TakenBy(N, s, run, t))
  {
    hide Inv, Reachable, OnItsWay, TicketOf;
    ReachableInv(N, s);
    StepKeepsInv(N, s, run[0]);
    CallWay(N, s, run[0]);
    RunIsHonest(N, Do(N, s, run[0]), run[1..], last, t, a, TicketOf(s, Do(N, s, run[0])));
  }

  /** The values in the queue: pushed and published, not yet popped. */
  function Contents(s: State): seq<Item>
    requires 0 <= s.tail <= s.head <= |s.pushed|
  {
    s.pushed[s.tail..s.head]
  }

  lemma PushedGrows(N: nat, s: State, m: Move)
    requires N > 0 && |s.buffer| == N && Enabled(s, m)
    ensures s.pushed <= Do(N, s, m).pushed
  {
    hide Load;
  }

  lemma Published(pushed: seq<Item>, after: seq<Item>, tail: nat, head: nat)
    requires pushed <= after && tail <= head <= |pushed|
    ensures after[tail..head] == pushed[tail..head]
    ensures head < |pushed| ==> after[tail..head + 1] == pushed[tail..head] + [pushed[head]]
    ensures tail < head ==> pushed[tail..head] == [pushed[tail]] + after[tail + 1..head]
  {}

  /** The ring refines a bounded FIFO queue of the arguments of the calls: publishing a push appends its
      argument to a queue that has room, finishing a pop removes the front and returns it, and no other step
      changes the queue. */
  lemma RefinesFifo(N: nat, first: State, run: seq<Move>, s: State, m: Move)
    requires Init(N, first) && Reaches(N, first, run, s) && Enabled(s, m)
    ensures Counters(N, s) && Counters(N, Do(N, s, m))
    ensures var offered := Offered(N, first, run, map[]);
            s.head <= |offered| && Contents(s) == offered[s.tail..s.head] && |Contents(s)| <= N
    ensures var p, after := s.threads[m.thread], Contents(Do(N, s, m));
            if p.PushPublish? then
              var offered := Offered(N, first, run, map[]);
              |Contents(s)| < N && 0 <= p.ticket < |offered| && p.value == offered[p.ticket] &&
              after == Contents(s) + [p.value]
            else if p.PopPublish? then Contents(s) != [] && Contents(s) == [p.value] + after
            else after == Contents(s)
  {
    hide Offered, Reaches, Init, Load;
    RunOffers(N, first, run, s);
    StepCounters(N, s, m);
    CountersMove(N, s, m);
    PushedGrows(N, s, m);
    Published(s.pushed, Do(N, s, m).pushed, s.tail, s.head);
    assert PhaseOk(N, s, s.threads[m.thread]);
  }

  // ----- progress

  ghost predicate Full(N: nat, s: State) { s.head - s.tail == N }

  ghost predicate Empty(s: State) { s.head == s.tail }

  /** Thread t is pushing with the next ticket and there is room. */
  ghost predicate PushTurn(N: nat, s: State, t: nat) { HoldsPush(s, t, s.head) && s.head - s.tail < N }

  /** Thread t is popping with the next ticket and there is an item. */
  ghost predicate PopTurn(s: State, t: nat) { HoldsPop(s, t, s.tail) && s.tail < s.head }

  /** No push waits, and there is room: a ticket taken now is served at once. */
  ghost predicate PushFree(N: nat, s: State) { s.headTicket == s.head && s.head - s.tail < N }

  ghost predicate PopFree(s: State) { s.tailTicket == s.tail && s.tail < s.head }

  /** What a size() that has come this far returns when nothing else moves. */
  function SizeSeen(s: State, read: SizeRead): nat {
    match read
    case NothingRead => SizeOf(s.head, s.tail)
    case HeadRead(h) => SizeOf(h, s.tail)
    case TailRead(l) => SizeOf(s.head, l)
  }

  /** When a thread inside a call can finish it without help from others. */
  ghost predicate CanFinish(N: nat, s: State, p: Phase) {
    if Pushing(p) then p.ticket == s.head && s.head - s.tail < N
    else if Popping(p) then p.ticket == s.tail && s.tail < s.head
    else match p
      case TryPush(_, read) => SizeSeen(s, read) == N || PushFree(N, s)
      case EnterPush(_) => PushFree(N, s)
      case TryPop(read) => SizeSeen(s, read) == 0 || PopFree(s)
      case EnterPop => PopFree(s)
      case _ => true
  }

  function ReadsLeft(read: SizeRead): nat { if read == NothingRead then 2 else 1 }

  /** Steps left to the end of a call that can finish: one more round of the wait loop when what it
      loaded is out of date. */
  function StepsLeft(N: nat, s: State, p: Phase): nat {
    match p
    case TryPush(_, read) => 10 + ReadsLeft(read)
    case EnterPush(_) => 10
    case PushLoadHead(_, _) => 9
    case PushLoadTail(_, _, h) => if h == s.head then 8 else 11
    case PushTest(_, _, h, l) => if h == s.head && h - l < N then 7 else 10
    case PushAssert(_, _, call, read) => (if call == 0 then 4 else 2) + ReadsLeft(read)
    case PushWrite(_, _) => 2
    case PushPublish(_, _) => 1
    case TryPop(read) => 10 + ReadsLeft(read)
    case EnterPop => 10
    case PopLoadHead(_) => 9
    case PopLoadTail(_, h) => if h > s.tail then 8 else 11
    case PopTest(_, h, l) => if l == s.tail && h - l > 0 then 7 else 10
    case PopAssert(_, _, call, read) => (if call == 0 then 4 else 2) + ReadsLeft(read)
    case PopRead(_, _) => 2
    case PopPublish(_, _) => 1
    case _ => 0
  }

  /** What a thread's own step does for it: a call that can finish is finished or comes nearer to it,
      and one that cannot finish alone still cannot. */
  ghost predicate OwnStepOk(N: nat, s: State, s': State, p: Phase, p': Phase) {
    if CanFinish(N, s, p) then !InCall(p') || (CanFinish(N, s', p') && StepsLeft(N, s', p') < StepsLeft(N, s, p))
    else InCall(p') && !CanFinish(N, s', p')
  }

  lemma PushOwnStep(N: nat, s: State, m: Move)
    requires Inv(N, s) && Enabled(s, m) && Pushing(s.threads[m.thread])
    ensures var p, s' := s.threads[m.thread], Do(N, s, m);
            OwnStepOk(N, s, s', p, s'.threads[m.thread]) &&
            if p.PushPublish? then s'.threads[m.thread] == Idle && s'.head == s.head + 1
            else HoldsPush(s', m.thread, p.ticket) && s'.head == s.head && s'.tail == s.tail
  {
    hide Inv, SizeOf, PhaseOk;
    var p := s.threads[m.thread];
    ThreadOk(N, s, m.thread);
    if p.PushAssert? && p.read.HeadRead? { SizeAtMost(p.read.head, s.tail); }
    if p.PushAssert? && p.read.TailRead? { SizeAtMost(s.head, p.read.tail); }
  }

  lemma PopOwnStep(N: nat, s: State, m: Move)
    requires Inv(N, s) && Enabled(s, m) && Popping(s.threads[m.thread])
    ensures var p, s' := s.threads[m.thread], Do(N, s, m);
            OwnStepOk(N, s, s', p, s'.threads[m.thread]) &&
            if p.PopPublish? then s'.threads[m.thread].Popped? && s'.tail == s.tail + 1
            else HoldsPop(s', m.thread, p.ticket) && s'.head == s.head && s'.tail == s.tail
  {
    hide Inv, SizeOf, PhaseOk;
    var p := s.threads[m.thread];
    ThreadOk(N, s, m.thread);
    if p.PopAssert? && p.read.HeadRead? { SizeAtMost(p.read.head, s.tail); }
    if p.PopAssert? && p.read.TailRead? { SizeAtMost(s.head, p.read.tail); }
  }

  lemma TryOwnStep(N: nat, s: State, m: Move)
    requires Inv(N, s) && Enabled(s, m) && Trying(s.threads[m.thread])
    ensures var p, s' := s.threads[m.thread], Do(N, s, m);
            OwnStepOk(N, s, s', p, s'.threads[m.thread]) && s'.head == s.head && s'.tail == s.tail
  {
    hide Tickets, Slots, SizeOf, PhaseOk;
  }

  lemma OwnStep(N: nat, s: State, m: Move)
    requires Inv(N, s) && Enabled(s, m) && InCall(s.threads[m.thread])
    ensures OwnStepOk(N, s, Do(N, s, m), s.threads[m.thread], Do(N, s, m).threads[m.thread])
  {
    var p := s.threads[m.thread];
    if Pushing(p) { PushOwnStep(N, s, m); } else if Popping(p) { PopOwnStep(N, s, m); } else { TryOwnStep(N, s, m); }
  }

  /** What a thread inside a call does next; inside size() it loads head_ first. */
  function NextAction(p: Phase): Action {
    match p
    case TryPush(_, read) => if read.HeadRead? then LoadTail else LoadHead
    case TryPop(read) => if read.HeadRead? then LoadTail else LoadHead
    case PushAssert(_, _, _, read) => if read.HeadRead? then LoadTail else LoadHead
    case PopAssert(_, _, _, read) => if read.HeadRead? then LoadTail else LoadHead
    case _ => Go
  }

  lemma NextEnabled(s: State, t: nat)
    requires t in s.threads && InCall(s.threads[t])
    ensures Enabled(s, Move(t, NextAction(s.threads[t])))
  {}

  // ----- runs

  lemma {:induction false} RunsJoin(N: nat, first: State, run: seq<Move>, mid: State, run': seq<Move>, last: State)
    requires Reaches(N, first, run, mid) && Reaches(N, mid, run', last)
    ensures Reaches(N, first, run + run', last)
    decreases |run|
  {
    hide Do, Enabled;
    if run == [] {
      assert run + run' == run';
    } else {
      RunsJoin(N, Do(N, first, run[0]), run[1..], mid, run', last);
      assert (run + run')[1..] == run[1..] + run';
    }
  }

  lemma OneMove(N: nat, s: State, m: Move)
    requires N > 0 && |s.buffer| == N && Enabled(s, m)
    ensures Reaches(N, s, [m], Do(N, s, m))
  {
    assert [m][1..] == [];
  }

  // ----- a thread that runs alone

  ghost predicate SoloRun(N: nat, s: State, t: nat, run: seq<Move>, last: State) {
    Reaches(N, s, run, last) && forall i :: 0 <= i < |run| ==> run[i].thread == t
  }

  lemma SoloCons(N: nat, s: State, m: Move, run: seq<Move>, last: State)
    requires N > 0 && |s.buffer| == N && Enabled(s, m)
    requires SoloRun(N, Do(N, s, m), m.thread, run, last)
    ensures SoloRun(N, s, m.thread, [m] + run, last)
  {
    assert ([m] + run)[1..] == run;
  }

  lemma {:induction false} SoloKeepsOthers(N: nat, s: State, t: nat, run: seq<Move>, last: State, u: nat)
    requires SoloRun(N, s, t, run, last) && u in s.threads && u != t
    ensures u in last.threads && last.threads[u] == s.threads[u]
    decreases |run|
  {
    hide Do, Enabled;
    if run != [] {
      OthersStay(N, s, run[0], u);
      SoloKeepsOthers(N, Do(N, s, run[0]), t, run[1..], last, u);
    }
  }

  /** Run alone, thread t can come to the end of its call. */
  ghost predicate FinishesAlone(N: nat, s: State, t: nat) {
    exists run, last :: SoloRun(N, s, t, run, last) && t in last.threads && !InCall(last.threads[t])
  }

  lemma {:induction false} Finishes(N: nat, s: State, t: nat) returns (run: seq<Move>, last: State)
    requires Inv(N, s) && t in s.threads && InCall(s.threads[t]) && CanFinish(N, s, s.threads[t])
    ensures SoloRun(N, s, t, run, last) && |run| <= StepsLeft(N, s, s.threads[t])
    ensures t in last.threads && !InCall(last.threads[t])
    ensures Pushing(s.threads[t]) ==> last.threads[t] == Idle && last.head == s.head + 1 && last.tail == s.tail
    ensures Popping(s.threads[t]) ==> last.threads[t].Popped? && last.tail == s.tail + 1 && last.head == s.head
    ensures Pushing(s.threads[t]) || Popping(s.threads[t]) ==>
      last.headTicket == s.headTicket && last.tailTicket == s.tailTicket
    decreases StepsLeft(N, s, s.threads[t])
  {
    hide Inv, Do, Enabled, CanFinish, StepsLeft;
    var p := s.threads[t];
    var m := Move(t, NextAction(p));
    NextEnabled(s, t);
    FinishStep(N, s, m);
    TicketsStay(N, s, m);
    StepKeepsInv(N, s, m);
    var s' := Do(N, s, m);
    if InCall(s'.threads[t]) {
      run, last := Finishes(N, s', t);
    } else {
      run, last := [], s';
    }
    SoloCons(N, s, m, run, last);
    run := [m] + run;
  }

  lemma TicketsStay(N: nat, s: State, m: Move)
    requires Inv(N, s) && Enabled(s, m)
    ensures N > 0 && |s.buffer| == N
    ensures Pushing(s.threads[m.thread]) || Popping(s.threads[m.thread]) ==>
      Do(N, s, m).headTicket == s.headTicket && Do(N, s, m).tailTicket == s.tailTicket
  {
    hide Load, Slots, Tickets, PhaseOk;
  }

  lemma FinishStep(N: nat, s: State, m: Move)
    requires Inv(N, s) && Enabled(s, m) && InCall(s.threads[m.thread]) && CanFinish(N, s, s.threads[m.thread])
    ensures N > 0 && |s.buffer| == N && m.thread in Do(N, s, m).threads
    ensures var p, s' := s.threads[m.thread], Do(N, s, m);
            var p' := s'.threads[m.thread];
            StepsLeft(N, s, p) > 0 &&
            (InCall(p') ==> CanFinish(N, s', p') && StepsLeft(N, s', p') < StepsLeft(N, s, p)) &&
            (Pushing(p) ==>
               s'.tail == s.tail &&
               if InCall(p') then Pushing(p') && s'.head == s.head else p' == Idle && s'.head == s.head + 1) &&
            (Popping(p) ==>
               s'.head == s.head &&
               if InCall(p') then Popping(p') && s'.tail == s.tail else p'.Popped? && s'.tail == s.tail + 1)
  {
    hide Tickets, Slots, Do, CanFinish, Enabled, PhaseOk;
    Mover(s, m);
    OthersStay(N, s, m, m.thread);
    var p := s.threads[m.thread];
    OwnStep(N, s, m);
    CountersMove(N, s, m);
    if Pushing(p) { PushOwnStep(N, s, m); }
    if Popping(p) { PopOwnStep(N, s, m); }
  }

  lemma {:induction false} NeverFinishes(N: nat, s: State, t: nat, run: seq<Move>, last: State)
    requires Inv(N, s) && t in s.threads && InCall(s.threads[t]) && !CanFinish(N, s, s.threads[t])
    requires SoloRun(N, s, t, run, last)
    ensures t in last.threads && InCall(last.threads[t])
    decreases |run|
  {
    hide Inv, Do, Enabled, CanFinish, InCall;
    if run != [] {
      OwnStep(N, s, run[0]);
      OthersStay(N, s, run[0], t);
      StepKeepsInv(N, s, run[0]);
      NeverFinishes(N, Do(N, s, run[0]), t, run[1..], last);
    }
  }

  lemma FinishesIff(N: nat, s: State, t: nat)
    requires Inv(N, s) && t in s.threads && InCall(s.threads[t])
    ensures FinishesAlone(N, s, t) <==> CanFinish(N, s, s.threads[t])
  {
    hide Inv, CanFinish, InCall, SoloRun;
    if CanFinish(N, s, s.threads[t]) {
      var run, last := Finishes(N, s, t);
    } else if FinishesAlone(N, s, t) {
      var run, last :| SoloRun(N, s, t, run, last) && t in last.threads && !InCall(last.threads[t]);
      NeverFinishes(N, s, t, run, last);
    }
  }

  /** Run alone, a thread inside push or pop comes to the end of its call exactly when it holds the next
      ticket and there is room, or an item. So a try_push or try_pop that has passed its test can wait,
      and CanFinish says the same of one that is still on its way. */
  lemma AloneIff(N: nat, s: State, t: nat)
    requires Reachable(N, s) && t in s.threads && InCall(s.threads[t])
    ensures FinishesAlone(N, s, t) <==> CanFinish(N, s, s.threads[t])
    ensures Pushing(s.threads[t]) ==> (FinishesAlone(N, s, t) <==> PushTurn(N, s, t))
    ensures Popping(s.threads[t]) ==> (FinishesAlone(N, s, t) <==> PopTurn(s, t))
  {
    hide Inv, FinishesAlone, Reachable;
    ReachableInv(N, s);
    FinishesIff(N, s, t);
  }

  // ----- a thread among others

  function OwnMoves(run: seq<Move>, t: nat): nat {
    if run == [] then 0 else (if run[0].thread == t then 1 else 0) + OwnMoves(run[1..], t)
  }

  lemma HeldOnce(s: State, t: nat, u: nat, k: int)
    requires Tickets(s)
    ensures HoldsPush(s, t, k) && HoldsPush(s, u, k) ==> t == u
    ensures HoldsPop(s, t, k) && HoldsPop(s, u, k) ==> t == u
  {}

  /** Only the thread whose turn it is can move the counter it waits for. */
  lemma TurnIsExclusive(N: nat, s: State, t: nat, u: nat)
    requires Inv(N, s) && u in s.threads && t != u
    ensures PushTurn(N, s, t) ==> !s.threads[u].PushPublish?
    ensures PopTurn(s, t) ==> !s.threads[u].PopPublish?
  {
    hide Tickets, Slots;
    assert PhaseOk(N, s, s.threads[u]);
    HeldOnce(s, t, u, s.head);
    HeldOnce(s, t, u, s.tail);
  }

  /** The others neither take away a turn nor lengthen what is left of it. */
  lemma OthersKeepTurns(N: nat, s: State, m: Move, t: nat)
    requires Inv(N, s) && Enabled(s, m) && m.thread != t
    ensures var s' := Do(N, s, m);
            PushTurn(N, s, t) ==>
              PushTurn(N, s', t) && s'.head == s.head &&
              StepsLeft(N, s', s'.threads[t]) == StepsLeft(N, s, s.threads[t])
    ensures var s' := Do(N, s, m);
            PopTurn(s, t) ==>
              PopTurn(s', t) && s'.tail == s.tail &&
              StepsLeft(N, s', s'.threads[t]) == StepsLeft(N, s, s.threads[t])
  {
    hide Do, Slots, Enabled, Tickets, PhaseOk;
    CountersMove(N, s, m);
    Mover(s, m);
    TurnIsExclusive(N, s, t, m.thread);
    if t in s.threads { OthersStay(N, s, m, t); }
  }

  /** Within `moves` moves of its own, thread t has kept its turn and come nearer to the end, or is done. */
  ghost predicate PushTurnKept(N: nat, s: State, t: nat, moves: nat, s': State) {
    s'.head > s.head ||
    (t in s.threads && PushTurn(N, s', t) && s'.head == s.head &&
     StepsLeft(N, s', s'.threads[t]) + moves <= StepsLeft(N, s, s.threads[t]))
  }

  ghost predicate PopTurnKept(N: nat, s: State, t: nat, moves: nat, s': State) {
    s'.tail > s.tail ||
    (t in s.threads && PopTurn(s', t) && s'.tail == s.tail &&
     StepsLeft(N, s', s'.threads[t]) + moves <= StepsLeft(N, s, s.threads[t]))
  }

  lemma TurnStep(N: nat, s: State, m: Move, t: nat)
    requires Inv(N, s) && Enabled(s, m)
    ensures N > 0 && |s.buffer| == N
    ensures Do(N, s, m).head >= s.head && Do(N, s, m).tail >= s.tail
    ensures PushTurn(N, s, t) ==> PushTurnKept(N, s, t, if m.thread == t then 1 else 0, Do(N, s, m))
    ensures PopTurn(s, t) ==> PopTurnKept(N, s, t, if m.thread == t then 1 else 0, Do(N, s, m))
  {
    hide Do, Enabled, Slots, Tickets, StepsLeft;
    CountersMove(N, s, m);
    if m.thread != t {
      OthersKeepTurns(N, s, m, t);
    } else if PushTurn(N, s, t) {
      PushOwnStep(N, s, m);
    } else if PopTurn(s, t) {
      PopOwnStep(N, s, m);
    }
  }

  /** A thread whose turn it is keeps its turn until it is done, and is done before its own moves exceed
      what StepsLeft says, whatever the others do in between. */
  lemma {:induction false} RunKeepsTurn(N: nat, s: State, t: nat, run: seq<Move>, last: State)
    requires Inv(N, s) && Reaches(N, s, run, last)
    ensures last.head >= s.head && last.tail >= s.tail
    ensures PushTurn(N, s, t) ==> PushTurnKept(N, s, t, OwnMoves(run, t), last)
    ensures PopTurn(s, t) ==> PopTurnKept(N, s, t, OwnMoves(run, t), last)
    decreases |run|
  {
    if run != [] {
      TurnStep(N, s, run[0], t);
      StepKeepsInv(N, s, run[0]);
      RunKeepsTurn(N, Do(N, s, run[0]), t, run[1..], last);
    }
  }

  lemma AtMostEleven(N: nat, s: State, p: Phase)
    requires Pushing(p) || Popping(p)
    ensures 0 < StepsLeft(N, s, p) <= 11
  {}

  /** The holder of the next push ticket, when there is room, publishes its value before its own moves
      exceed eleven, in every interleaving with the others. */
  lemma PushCompletes(N: nat, s: State, t: nat, run: seq<Move>, last: State)
    requires Reachable(N, s) && PushTurn(N, s, t) && Reaches(N, s, run, last)
    ensures last.head > s.threads[t].ticket || (PushTurn(N, last, t) && OwnMoves(run, t) <= 10)
  {
    hide Inv, Reaches, Reachable, StepsLeft, OwnMoves;
    ReachableInv(N, s);
    RunKeepsTurn(N, s, t, run, last);
    AtMostEleven(N, s, s.threads[t]);
    if PushTurn(N, last, t) { AtMostEleven(N, last, last.threads[t]); }
  }

  lemma PopCompletes(N: nat, s: State, t: nat, run: seq<Move>, last: State)
    requires Reachable(N, s) && PopTurn(s, t) && Reaches(N, s, run, last)
    ensures last.tail > s.threads[t].ticket || (PopTurn(last, t) && OwnMoves(run, t) <= 10)
  {
    hide Inv, Reaches, Reachable, StepsLeft, OwnMoves;
    ReachableInv(N, s);
    RunKeepsTurn(N, s, t, run, last);
    AtMostEleven(N, s, s.threads[t]);
    if PopTurn(last, t) { AtMostEleven(N, last, last.threads[t]); }
  }

  /** The holder of the next push ticket completes its call within eleven steps of its own. */
  ghost predicate PushCanComplete(N: nat, s: State) {
    exists t, run, last :: SoloRun(N, s, t, run, last) && |run| <= 11 &&
      HoldsPush(s, t, s.head) && t in last.threads && last.threads[t] == Idle && last.head == s.head + 1
  }

  ghost predicate PopCanComplete(N: nat, s: State) {
    exists t, run, last :: SoloRun(N, s, t, run, last) && |run| <= 11 &&
      HoldsPop(s, t, s.tail) && t in last.threads && last.threads[t].Popped? && last.tail == s.tail + 1
  }

  lemma PushHolderCompletes(N: nat, s: State)
    requires Inv(N, s) && s.head < s.headTicket && s.head - s.tail < N
    ensures PushCanComplete(N, s)
  {
    assert PushHeld(s, s.head);
    var h :| HoldsPush(s, h, s.head);
    var run, last := Finishes(N, s, h);
  }

  lemma PopHolderCompletes(N: nat, s: State)
    requires Inv(N, s) && s.tail < s.tailTicket && s.head - s.tail > 0
    ensures PopCanComplete(N, s)
  {
    assert PopHeld(s, s.tail);
    var h :| HoldsPop(s, h, s.tail);
    var run, last := Finishes(N, s, h);
  }

  /** When a producer waits and the queue is not full, the holder of the next push ticket exists and
      completes on its own; dually for consumers. So with a producer and a consumer both inside their
      calls one of the two sides can always complete: the queue cannot deadlock. */
  lemma NoDeadlock(N: nat, s: State, t: nat, u: nat)
    requires Reachable(N, s) && t in s.threads && u in s.threads
    ensures Pushing(s.threads[t]) && s.head - s.tail < N ==> PushCanComplete(N, s)
    ensures Popping(s.threads[u]) && s.head - s.tail > 0 ==> PopCanComplete(N, s)
    ensures Pushing(s.threads[t]) && Popping(s.threads[u]) ==> PushCanComplete(N, s) || PopCanComplete(N, s)
  {
    hide Slots, Tickets, PushCanComplete, PopCanComplete;
    ReachableInv(N, s);
    assert PhaseOk(N, s, s.threads[t]) && PhaseOk(N, s, s.threads[u]);
    if Pushing(s.threads[t]) && s.head - s.tail < N { PushHolderCompletes(N, s); }
    if Popping(s.threads[u]) && s.head - s.tail > 0 { PopHolderCompletes(N, s); }
  }
}
