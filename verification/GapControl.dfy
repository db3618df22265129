/** The packet sequence-number translator of exercises/gapcontrol.cpp: 16-bit numbers in and out, two
    rings of 4096 entries, and a mode that decides what happens to numbers that never arrived. */
module GapControl {

  const RING := 4096

  type U16 = x: int | 0 <= x < 65536

  function Wrap(x: int): U16 { x % 65536 }

  datatype Entry = Entry(incoming: U16, outgoing: U16, discarded: bool, valid: bool)

  const NO_ENTRY := Entry(0, 0, false, false)

  datatype Direction = Incoming | Outgoing

  datatype Mode = Initial | Injecting | Translating | Discarding

  /** One number consumed or handed out. */
  datatype Event = Injected(outgoing: U16) | Translated(incoming: U16, outgoing: U16) | Discarded(incoming: U16)

  // ----- what a history of events records

  predicate Records(d: Direction, e: Event) { if d.Incoming? then !e.Injected? else !e.Discarded? }

  function EntryOf(e: Event): Entry {
    match e
    case Injected(o) => Entry(0, o, false, true)
    case Translated(i, o) => Entry(i, o, false, true)
    case Discarded(i) => Entry(i, 0, true, true)
  }

  function Number(d: Direction, m: Entry): U16 { if d.Incoming? then m.incoming else m.outgoing }

  /** The entries recorded in one direction, oldest first. */
  function Entries(d: Direction, log: seq<Event>): (r: seq<Entry>)
    ensures |r| <= |log|
  {
    if log == [] then []
    else Entries(d, log[..|log| - 1]) + if Records(d, log[|log| - 1]) then [EntryOf(log[|log| - 1])] else []
  }

  /** The numbers of one direction run on from `base` without a gap. */
  ghost predicate Numbered(d: Direction, log: seq<Event>, base: int) {
    forall i :: 0 <= i < |Entries(d, log)| ==> Number(d, Entries(d, log)[i]) == Wrap(base + i)
  }

  /** The index of the newest of n entries that went to slot j; negative when none did. */
  function Newest(base: int, n: nat, j: int): int { n - 1 - (base + n - 1 - j) % 4096 }

  /** The ring shows, in every slot, the newest entry that went there. */
  ghost predicate Shows(ring: seq<Entry>, entries: seq<Entry>, base: int) {
    |ring| == RING &&
    forall j :: 0 <= j < RING ==>
      if Newest(base, |entries|, j) >= 0 then ring[j] == entries[Newest(base, |entries|, j)] else ring[j] == NO_ENTRY
  }

  lemma NewestNext(base: int, n: nat, j: int)
    requires 0 <= j < RING
    ensures 0 <= Wrap(base + n) % RING < RING
    ensures j == Wrap(base + n) % RING ==> Newest(base, n + 1, j) == n
    ensures j != Wrap(base + n) % RING ==> Newest(base, n + 1, j) == Newest(base, n, j)
  {
    var x := base + n - j;
    var q, r := x / 4096, x % 4096;
    WrapRing(base + n);
    if r == 0 {
      RingIs(base + n, q, j);
    } else {
      RingIs(x - 1, q, r - 1);
      if j == (base + n) % 4096 { RingIs(x, (base + n) / 4096, 0); }
    }
  }

  lemma RingIs(x: int, q: int, r: int)
    requires x == 4096 * q + r && 0 <= r < 4096
    ensures x % 4096 == r
  {}

  /** 4096 divides 65536, so wrapping a number does not move its slot. */
  lemma WrapRing(x: int)
    ensures Wrap(x) % RING == x % 4096
  {
    var q, m := x / 65536, x % 65536;
    var k, r := m / 4096, m % 4096;
    RingIs(x, 16 * q + k, r);
  }

  lemma ShowsNext(ring: seq<Entry>, entries: seq<Entry>, base: int, m: Entry)
    requires Shows(ring, entries, base)
    ensures 0 <= Wrap(base + |entries|) % RING < RING
    ensures Shows(ring[Wrap(base + |entries|) % RING := m], entries + [m], base)
  {
    hide Newest;
    NewestNext(base, |entries|, 0);
    var slot := Wrap(base + |entries|) % RING;
    var ring', entries' := ring[slot := m], entries + [m];
    forall j | 0 <= j < RING
      ensures if Newest(base, |entries'|, j) >= 0 then
                Newest(base, |entries'|, j) < |entries'| && ring'[j] == entries'[Newest(base, |entries'|, j)]
              else ring'[j] == NO_ENTRY
    {
      NewestNext(base, |entries|, j);
      NewestBelow(base, |entries|, j);
      NewestBelow(base, |entries'|, j);
    }
  }

  lemma NewestBelow(base: int, n: nat, j: int)
    ensures Newest(base, n, j) < n
  {}

  // ----- the window

  /** i is one of the last min(4096, n) of n indices. */
  predicate InLast(i: int, n: nat) { 0 <= i < n && n - RING <= i }

  /** s is the number of one of the last min(4096, n) entries. */
  ghost predicate InWindow(d: Direction, entries: seq<Entry>, s: U16) {
    exists i :: InLast(i, |entries|) && Number(d, entries[i]) == s
  }

  predicate ContainsIn(d: Direction, ring: seq<Entry>, s: U16)
    requires |ring| == RING
  {
    ring[s % RING].valid && Number(d, ring[s % RING]) == s
  }

  lemma EntriesValid(d: Direction, log: seq<Event>, i: nat)
    requires i < |Entries(d, log)|
    ensures Entries(d, log)[i].valid
  {}

  lemma NewestIs(base: int, n: nat, i: nat)
    requires i < n && n - RING <= i
    ensures 0 <= Wrap(base + i) % RING < RING && Newest(base, n, Wrap(base + i) % RING) == i
  {
    WrapRing(base + i);
    var q, j := (base + i) / 4096, (base + i) % 4096;
    RingIs(base + n - 1 - j, q, n - 1 - i);
  }

  /** The entry of the window with number s is the one its slot shows. */
  lemma WindowShows(d: Direction, ring: seq<Entry>, log: seq<Event>, base: int, i: nat)
    requires Shows(ring, Entries(d, log), base) && Numbered(d, log, base)
    requires i < |Entries(d, log)| && |Entries(d, log)| - RING <= i
    ensures ring[Number(d, Entries(d, log)[i]) % RING] == Entries(d, log)[i]
  {
    NewestIs(base, |Entries(d, log)|, i);
  }

  /** contains() says exactly whether s is among the last min(4096, consumed) numbers, however often
      the 16-bit counter has wrapped. */
  lemma ContainsIffInWindow(d: Direction, ring: seq<Entry>, log: seq<Event>, base: int, s: U16)
    requires Shows(ring, Entries(d, log), base) && Numbered(d, log, base)
    ensures ContainsIn(d, ring, s) <==> InWindow(d, Entries(d, log), s)
  {
    var entries := Entries(d, log);
    var i := Newest(base, |entries|, s % RING);
    if ContainsIn(d, ring, s) {
      assert i >= 0;
      assert Number(d, entries[i]) == s;
    }
    if InWindow(d, entries, s) {
      var k :| InLast(k, |entries|) && Number(d, entries[k]) == s;
      WindowShows(d, ring, log, base, k);
      EntriesValid(d, log, k);
    }
  }

  // ----- packets

  /** The event at position a of the log is among the last 4096 of its direction. */
  ghost predicate Held(d: Direction, log: seq<Event>, a: nat) {
    a < |log| && Records(d, log[a]) && |Entries(d, log)| - |Entries(d, log[..a])| <= RING
  }

  lemma {:induction false} EntriesConcat(d: Direction, s: seq<Event>, t: seq<Event>)
    ensures Entries(d, s + t) == Entries(d, s) + Entries(d, t)
    decreases |t|
  {
    if t == [] {
      assert s + t == s;
    } else {
      assert (s + t)[..|s + t| - 1] == s + t[..|t| - 1];
      EntriesConcat(d, s, t[..|t| - 1]);
    }
  }

  /** Where the entry of the event at position a stands among the entries of its direction. */
  lemma EntryAt(d: Direction, log: seq<Event>, a: nat)
    requires a < |log| && Records(d, log[a])
    ensures |Entries(d, log[..a])| < |Entries(d, log)|
    ensures Entries(d, log)[|Entries(d, log[..a])|] == EntryOf(log[a])
  {
    assert log == log[..a] + ([log[a]] + log[a + 1..]);
    EntriesConcat(d, log[..a], [log[a]] + log[a + 1..]);
    EntriesConcat(d, [log[a]], log[a + 1..]);
    assert Entries(d, [log[a]]) == [EntryOf(log[a])];
  }

  /** Every entry comes from an event. */
  lemma {:induction false} EventOf(d: Direction, log: seq<Event>, i: nat) returns (a: nat)
    requires i < |Entries(d, log)|
    ensures a < |log| && Records(d, log[a]) && |Entries(d, log[..a])| == i && Entries(d, log)[i] == EntryOf(log[a])
    decreases |log|
  {
    var front := log[..|log| - 1];
    if i < |Entries(d, front)| {
      a := EventOf(d, front, i);
      assert front[..a] == log[..a];
    } else {
      a := |log| - 1;
    }
  }

  /** Two positions of one direction with the same number, the earlier still held, are the same. */
  lemma SameNumber(d: Direction, log: seq<Event>, base: int, a: nat, b: nat)
    requires Numbered(d, log, base) && Held(d, log, a) && b < |log| && Records(d, log[b]) && a <= b
    requires Number(d, EntryOf(log[a])) == Number(d, EntryOf(log[b]))
    ensures a == b
  {
    EntryAt(d, log, a);
    EntryAt(d, log, b);
    if a < b {
      EntryAt(d, log[..b], a);
      assert log[..b][..a] == log[..a];
      var i, j := |Entries(d, log[..a])|, |Entries(d, log[..b])|;
      WrapInjective(base, i, j);
    }
  }

  lemma WrapInjective(base: int, i: int, j: int)
    requires i <= j < i + RING && Wrap(base + i) == Wrap(base + j)
    ensures i == j
  {}

  lemma HeldLater(d: Direction, log: seq<Event>, a: nat, b: nat)
    requires Held(d, log, a) && a <= b < |log| && Records(d, log[b])
    ensures Held(d, log, b)
  {
    EntriesConcat(d, log[..a], log[a..b]);
    assert log[..a] + log[a..b] == log[..b];
  }

  /** The slot of a held event shows that event. */
  lemma HeldShown(d: Direction, ring: seq<Entry>, log: seq<Event>, base: int, a: nat)
    requires Shows(ring, Entries(d, log), base) && Numbered(d, log, base) && Held(d, log, a)
    ensures ContainsIn(d, ring, Number(d, EntryOf(log[a])))
    ensures ring[Number(d, EntryOf(log[a])) % RING] == EntryOf(log[a])
  {
    EntryAt(d, log, a);
    WindowShows(d, ring, log, base, |Entries(d, log[..a])|);
  }

  /** What a slot shows comes from a held event. */
  lemma ShownHeld(d: Direction, ring: seq<Entry>, log: seq<Event>, base: int, s: U16) returns (b: nat)
    requires Shows(ring, Entries(d, log), base) && Numbered(d, log, base) && ContainsIn(d, ring, s)
    ensures Held(d, log, b) && ring[s % RING] == EntryOf(log[b]) && Number(d, EntryOf(log[b])) == s
  {
    var i := Newest(base, |Entries(d, log)|, s % RING);
    b := EventOf(d, log, i);
  }

  // ----- distances

  datatype Kind = Injection | Translation | Discard

  function KindOf(e: Event): Kind {
    match e
    case Injected(_) => Injection
    case Translated(_, _) => Translation
    case Discarded(_) => Discard
  }

  function Count(log: seq<Event>, kind: Kind): nat {
    if log == [] then 0 else Count(log[..|log| - 1], kind) + if KindOf(log[|log| - 1]) == kind then 1 else 0
  }

  lemma {:induction false} CountsOf(log: seq<Event>)
    ensures |Entries(Incoming, log)| == Count(log, Translation) + Count(log, Discard)
    ensures |Entries(Outgoing, log)| == Count(log, Translation) + Count(log, Injection)
    decreases |log|
  {
    if log != [] { CountsOf(log[..|log| - 1]); }
  }

  /** Between two translated packets the outgoing distance is the incoming distance, less the numbers
      discarded in between, plus the numbers injected in between. */
  lemma Distances(log: seq<Event>, inBase: int, outBase: int, a: nat, b: nat)
    requires Numbered(Incoming, log, inBase) && Numbered(Outgoing, log, outBase)
    requires a <= b < |log| && log[a].Translated? && log[b].Translated?
    ensures Wrap(log[b].outgoing - log[a].outgoing) ==
            Wrap(log[b].incoming - log[a].incoming - Count(log[a..b], Discard) + Count(log[a..b], Injection))
  {
    hide Wrap, Numbered, Entries, Count;
    var between := log[a..b];
    assert log[..b] == log[..a] + between;
    EntriesConcat(Incoming, log[..a], between);
    EntriesConcat(Outgoing, log[..a], between);
    CountsOf(between);
    NumberAt(Incoming, log, inBase, a);
    NumberAt(Incoming, log, inBase, b);
    NumberAt(Outgoing, log, outBase, a);
    NumberAt(Outgoing, log, outBase, b);
    WrapDistance(inBase, |Entries(Incoming, log[..a])|, |Entries(Incoming, log[..b])|);
    WrapDistance(outBase, |Entries(Outgoing, log[..a])|, |Entries(Outgoing, log[..b])|);
    var inDistance := |Entries(Incoming, between)|;
    var change := Count(between, Injection) - Count(between, Discard);
    WrapShift(log[b].incoming - log[a].incoming, inDistance, change);
  }

  lemma NumberAt(d: Direction, log: seq<Event>, base: int, a: nat)
    requires Numbered(d, log, base) && a < |log| && Records(d, log[a])
    ensures Number(d, EntryOf(log[a])) == Wrap(base + |Entries(d, log[..a])|)
  {
    EntryAt(d, log, a);
  }

  lemma WrapDistance(base: int, i: int, j: int)
    ensures Wrap(Wrap(base + j) - Wrap(base + i)) == Wrap(j - i)
  {}

  lemma WrapShift(x: int, y: int, c: int)
    requires Wrap(x) == Wrap(y)
    ensures Wrap(x + c) == Wrap(y + c)
  {}

  // ----- the two maps as inverses

  /** Both rings show the packet while both hold it. */
  lemma InverseWhileHeld(inRing: seq<Entry>, outRing: seq<Entry>, log: seq<Event>, inBase: int, outBase: int, a: nat)
    requires Shows(inRing, Entries(Incoming, log), inBase) && Numbered(Incoming, log, inBase)
    requires Shows(outRing, Entries(Outgoing, log), outBase) && Numbered(Outgoing, log, outBase)
    requires Held(Incoming, log, a) && Held(Outgoing, log, a)
    ensures var i, o := log[a].incoming, log[a].outgoing;
            ContainsIn(Incoming, inRing, i) && ContainsIn(Outgoing, outRing, o) &&
            inRing[i % RING] == outRing[o % RING] == Entry(i, o, false, true)
  {
    HeldShown(Incoming, inRing, log, inBase, a);
    HeldShown(Outgoing, outRing, log, outBase, a);
  }

  /** An injection still held has been given the outgoing number o. */
  ghost predicate Reused(log: seq<Event>, o: U16) {
    exists b: nat :: b < |log| && log[b] == Injected(o) && Held(Outgoing, log, b)
  }

  /** From an incoming number to its outgoing number and back: the way back shows the same entry
      exactly while the outgoing ring still holds the packet, or when the packet's incoming number is 0
      and an injection has reused the outgoing number, which leaves the same entry. */
  lemma BackFromOutgoing(inRing: seq<Entry>, outRing: seq<Entry>, log: seq<Event>, inBase: int, outBase: int, a: nat)
    requires Shows(inRing, Entries(Incoming, log), inBase) && Numbered(Incoming, log, inBase)
    requires Shows(outRing, Entries(Outgoing, log), outBase) && Numbered(Outgoing, log, outBase)
    requires Held(Incoming, log, a) && log[a].Translated?
    ensures var o := log[a].outgoing;
            ContainsIn(Outgoing, outRing, o) && outRing[o % RING] == EntryOf(log[a]) <==>
            Held(Outgoing, log, a) || (log[a].incoming == 0 && Reused(log, o))
  {
    assert |outRing| == RING;
    var o := log[a].outgoing;
    if Held(Outgoing, log, a) { HeldShown(Outgoing, outRing, log, outBase, a); }
    if log[a].incoming == 0 && Reused(log, o) {
      var b: nat :| b < |log| && log[b] == Injected(o) && Held(Outgoing, log, b);
      HeldShown(Outgoing, outRing, log, outBase, b);
    }
    if ContainsIn(Outgoing, outRing, o) && outRing[o % RING] == EntryOf(log[a]) {
      ShownIsHeld(outRing, log, inBase, outBase, a);
    }
  }

  lemma ShownIsHeld(outRing: seq<Entry>, log: seq<Event>, inBase: int, outBase: int, a: nat)
    requires Shows(outRing, Entries(Outgoing, log), outBase)
    requires Numbered(Incoming, log, inBase) && Numbered(Outgoing, log, outBase)
    requires Held(Incoming, log, a) && log[a].Translated?
    requires ContainsIn(Outgoing, outRing, log[a].outgoing) && outRing[log[a].outgoing % RING] == EntryOf(log[a])
    ensures Held(Outgoing, log, a) || (log[a].incoming == 0 && Reused(log, log[a].outgoing))
  {
    hide Shows, Numbered, ContainsIn, Entries;
    var b := ShownHeld(Outgoing, outRing, log, outBase, log[a].outgoing);
    if log[b].Translated? {
      if a <= b { SameNumber(Incoming, log, inBase, a, b); } else { HeldLater(Outgoing, log, b, a); }
    }
  }

  /** The other way round there is no exception: exactly while the incoming ring holds the packet. */
  lemma BackFromIncoming(inRing: seq<Entry>, outRing: seq<Entry>, log: seq<Event>, inBase: int, outBase: int, a: nat)
    requires Shows(inRing, Entries(Incoming, log), inBase) && Numbered(Incoming, log, inBase)
    requires Shows(outRing, Entries(Outgoing, log), outBase) && Numbered(Outgoing, log, outBase)
    requires Held(Outgoing, log, a) && log[a].Translated?
    ensures var i := log[a].incoming;
            ContainsIn(Incoming, inRing, i) && inRing[i % RING] == EntryOf(log[a]) <==> Held(Incoming, log, a)
  {
    var i := log[a].incoming;
    if Held(Incoming, log, a) { HeldShown(Incoming, inRing, log, inBase, a); }
    if ContainsIn(Incoming, inRing, i) && inRing[i % RING] == EntryOf(log[a]) {
      var b := ShownHeld(Incoming, inRing, log, inBase, i);
      if a <= b {
        SameNumber(Outgoing, log, outBase, a, b);
      } else {
        HeldLater(Incoming, log, b, a);
      }
    }
  }

  // ----- runs of consecutive numbers

  function Injections(first: int, n: nat): (r: seq<Event>)
    ensures |r| == n
  {
    if n == 0 then [] else Injections(first, n - 1) + [Injected(Wrap(first + n - 1))]
  }

  function Translations(inFirst: int, outFirst: int, n: nat): (r: seq<Event>)
    ensures |r| == n
  {
    if n == 0 then []
    else Translations(inFirst, outFirst, n - 1) + [Translated(Wrap(inFirst + n - 1), Wrap(outFirst + n - 1))]
  }

  function Discards(first: int, n: nat): (r: seq<Event>)
    ensures |r| == n
  {
    if n == 0 then [] else Discards(first, n - 1) + [Discarded(Wrap(first + n - 1))]
  }

  /** Everything the translator knows in one direction. */
  ghost predicate Tracks(d: Direction, ring: seq<Entry>, log: seq<Event>, base: int, next: int) {
    next == Wrap(base + |Entries(d, log)|) && Numbered(d, log, base) && Shows(ring, Entries(d, log), base)
  }

  // ----- translating the number consumed last once more

  /** How many numbers have been injected since the last one was consumed. */
  function InjectedSince(log: seq<Event>): (k: nat)
    ensures k <= |log| && forall b :: |log| - k <= b < |log| ==> log[b].Injected?
    ensures k < |log| ==> !log[|log| - 1 - k].Injected?
  {
    if log == [] || !log[|log| - 1].Injected? then 0 else 1 + InjectedSince(log[..|log| - 1])
  }

  /** The number consumed last was translated. */
  predicate LastTranslated(log: seq<Event>) {
    InjectedSince(log) < |log| && log[|log| - 1 - InjectedSince(log)].Translated?
  }

  /** The number consumed last was translated, and the injections since then have brought the outgoing
      counter once or more often around to the number it was given. */
  predicate CameAround(log: seq<Event>) { LastTranslated(log) && (InjectedSince(log) + 1) % 65536 == 0 }

  lemma {:induction false} InjectedEntries(log: seq<Event>)
    requires forall b :: 0 <= b < |log| ==> log[b].Injected?
    ensures Entries(Incoming, log) == [] && |Entries(Outgoing, log)| == |log|
  {
    if log != [] { InjectedEntries(log[..|log| - 1]); }
  }

  /** Where the entry of the number consumed last stands in either direction. */
  lemma LastConsumed(log: seq<Event>, a: nat)
    requires a < |log| && a == |log| - 1 - InjectedSince(log)
    ensures |Entries(Incoming, log)| == |Entries(Incoming, log[..a])| + 1
    ensures log[a].Translated? ==> |Entries(Outgoing, log)| == |Entries(Outgoing, log[..a])| + |log| - a
  {
    hide Entries;
    var since := log[a + 1..];
    InjectedEntries(since);
    assert log == log[..a] + ([log[a]] + since);
    forall d: Direction | Records(d, log[a])
      ensures |Entries(d, log)| == |Entries(d, log[..a])| + 1 + |Entries(d, since)|
    {
      EntriesConcat(d, log[..a], [log[a]] + since);
      EntriesConcat(d, [log[a]], since);
      OneEntry(d, log[a]);
    }
  }

  lemma WrapBack(base: int, n: int, seqnum: U16)
    requires Wrap(base + n) == Wrap(seqnum + 1)
    ensures Wrap(base + n - 1) == seqnum
  {}

  lemma WrapRound(base: int, n: nat)
    ensures Wrap(base) == Wrap(base + n) <==> n % 65536 == 0
  {}

  lemma NothingShown(ring: seq<Entry>, base: int, j: int)
    requires Shows(ring, [], base) && 0 <= j < RING
    ensures ring[j] == NO_ENTRY
  {
    assert Newest(base, 0, j) < 0;
  }

  /** What the slot of the number consumed last shows: its entry, or nothing when none was consumed. */
  lemma LastShown(ring: seq<Entry>, log: seq<Event>, base: int, seqnum: U16)
    requires Tracks(Incoming, ring, log, base, Wrap(seqnum + 1))
    ensures |ring| == RING
    ensures var k, m := InjectedSince(log), ring[seqnum % RING];
            if k == |log| then m == NO_ENTRY else m == EntryOf(log[|log| - 1 - k]) && m.incoming == seqnum
  {
    hide Shows, Numbered, Entries, Wrap, InjectedSince;
    RingSize(ring, Entries(Incoming, log), base);
    var k := InjectedSince(log);
    if k == |log| {
      InjectedEntries(log);
      NothingShown(ring, base, seqnum % RING);
    } else {
      var a := |log| - 1 - k;
      LastConsumed(log, a);
      NumberAt(Incoming, log, base, a);
      WrapBack(base, |Entries(Incoming, log)|, seqnum);
      HeldShown(Incoming, ring, log, base, a);
    }
  }

  /** The next outgoing number is the one given to the number consumed last. */
  lemma NextIsLast(ring: seq<Entry>, log: seq<Event>, base: int, next: U16)
    requires Tracks(Outgoing, ring, log, base, next) && LastTranslated(log)
    ensures next == log[|log| - 1 - InjectedSince(log)].outgoing <==> CameAround(log)
  {
    hide Shows, Numbered, Entries, Wrap, InjectedSince;
    var a := |log| - 1 - InjectedSince(log);
    LastConsumed(log, a);
    NumberAt(Outgoing, log, base, a);
    WrapRound(base + |Entries(Outgoing, log[..a])|, |log| - a);
  }

  /** When the next outgoing number is, again, the one recorded for the number consumed last. */
  lemma RepeatedNumber(inRing: seq<Entry>, outRing: seq<Entry>, log: seq<Event>, inBase: int, outBase: int,
                       seqnum: U16, next: U16)
    requires Tracks(Incoming, inRing, log, inBase, Wrap(seqnum + 1)) && Tracks(Outgoing, outRing, log, outBase, next)
    ensures |inRing| == RING
    ensures inRing[seqnum % RING] == Entry(seqnum, next, false, true) <==> CameAround(log)
    ensures inRing[seqnum % RING].outgoing == next <==>
            if LastTranslated(log) then CameAround(log) else next == 0
  {
    hide Tracks, InjectedSince, Wrap;
    LastShown(inRing, log, inBase, seqnum);
    if LastTranslated(log) { NextIsLast(outRing, log, outBase, next); }
  }

  lemma RingSize(ring: seq<Entry>, entries: seq<Entry>, base: int)
    requires Shows(ring, entries, base)
    ensures |ring| == RING
  {}

  /** The slot of a number just translated shows it. */
  lemma JustTranslated(ring: seq<Entry>, log: seq<Event>, base: int, next: U16, seqnum: U16, last: U16)
    requires Tracks(Incoming, ring, log, base, next) && log != [] && log[|log| - 1] == Translated(seqnum, last)
    ensures |ring| == RING && ring[seqnum % RING] == Entry(seqnum, last, false, true)
  {
    hide Shows, Numbered;
    RingSize(ring, Entries(Incoming, log), base);
    HeldShown(Incoming, ring, log, base, |log| - 1);
  }

  /** One more event: in a direction it records, the entry goes to the slot of the next number. */
  lemma TracksNext(d: Direction, ring: seq<Entry>, log: seq<Event>, base: int, next: U16, e: Event)
    requires Tracks(d, ring, log, base, next)
    requires Records(d, e) ==> Number(d, EntryOf(e)) == next
    ensures |ring| == RING
    ensures Tracks(d, if Records(d, e) then ring[next % RING := EntryOf(e)] else ring, log + [e], base,
                   if Records(d, e) then Wrap(next + 1) else next)
  {
    assert |ring| == RING;
    hide Shows, Numbered;
    assert (log + [e])[..|log|] == log;
    if Records(d, e) {
      ShowsNext(ring, Entries(d, log), base, EntryOf(e));
      NumberedNext(d, log, base, e);
      WrapNext(base, |Entries(d, log)|);
    } else {
      NumberedSame(d, log, base, e);
    }
  }

  /** Before anything is recorded the numbers may start anywhere. */
  lemma TracksRestart(d: Direction, ring: seq<Entry>, base: int, next: U16, start: U16)
    requires Tracks(d, ring, [], base, next)
    ensures Tracks(d, ring, [], start, start)
  {
    forall j | 0 <= j < RING ensures Newest(base, 0, j) < 0 && Newest(start, 0, j) < 0 {}
  }

  lemma NumberedNext(d: Direction, log: seq<Event>, base: int, e: Event)
    requires Numbered(d, log, base) && Records(d, e) && Number(d, EntryOf(e)) == Wrap(base + |Entries(d, log)|)
    ensures Numbered(d, log + [e], base)
  {
    assert (log + [e])[..|log|] == log;
  }

  lemma NumberedSame(d: Direction, log: seq<Event>, base: int, e: Event)
    requires Numbered(d, log, base) && !Records(d, e)
    ensures Numbered(d, log + [e], base)
  {
    assert (log + [e])[..|log|] == log;
  }

  lemma WrapU16(x: U16)
    ensures Wrap(x) == x
  {}

  lemma WrapBefore(seqnum: U16, from: U16)
    ensures Wrap(Wrap(seqnum - 1) - from + 1) == Wrap(seqnum - from)
    ensures Wrap(Wrap(seqnum - 1) + 1) == seqnum
  {}

  lemma WrapBackfill(from: U16, seqnum: U16)
    ensures Wrap(from + Wrap(seqnum - from + 1)) == Wrap(seqnum + 1)
    ensures Wrap(from + Wrap(seqnum - from + 1) - 1) == seqnum
  {}

  lemma WrapNext(base: int, n: int)
    ensures Wrap(Wrap(base + n) + 1) == Wrap(base + n + 1)
  {}

  // ----- the translator

  class GapControl {
    var incoming: U16
    var outgoing: U16
    var mode: Mode
    var incomingMap: array<Entry>
    var outgoingMap: array<Entry>
    ghost var inBase: int
    ghost var outBase: int
    ghost var log: seq<Event>  // all numbers consumed and handed out since construction

    ghost predicate Valid()
      reads this, incomingMap, outgoingMap
    {
      incomingMap != outgoingMap &&
      Tracks(Incoming, incomingMap[..], log, inBase, incoming) &&
      Tracks(Outgoing, outgoingMap[..], log, outBase, outgoing) &&
      (mode.Initial? ==> log == [])
    }

    constructor (inStart: U16, outStart: U16)
      ensures Valid() && fresh(incomingMap) && fresh(outgoingMap)
      ensures log == [] && incoming == inStart && outgoing == outStart && mode == Initial
    {
      incoming, outgoing, mode := inStart, outStart, Initial;
      incomingMap := new Entry[RING](_ => NO_ENTRY);
      outgoingMap := new Entry[RING](_ => NO_ENTRY);
      inBase, outBase, log := inStart, outStart, [];
    }

    /** Hands out `count` numbers for packets of one's own; returns the last of them. */
    method Inject(count: U16) returns (last: U16)
      requires Valid()
      modifies this, incomingMap, outgoingMap
      ensures Valid() && incomingMap == old(incomingMap) && outgoingMap == old(outgoingMap)
      ensures log == old(log) + Injections(old(outgoing), count)
      ensures incoming == old(incoming) && outgoing == Wrap(old(outgoing) + count) && mode == Injecting
      ensures last == if count == 0 then 0 else Wrap(old(outgoing) + count - 1)
    {
      hide Tracks, Entries, Numbered, Shows, Wrap;
      WrapU16(outgoing);
      ghost var n := 0;
      var left: int := count;
      last := 0;
      assert old(log) + [] == old(log);
      while left > 0
        invariant 0 <= left && n + left == count
        invariant incomingMap == old(incomingMap) && outgoingMap == old(outgoingMap) && incomingMap != outgoingMap
        invariant Tracks(Incoming, incomingMap[..], log, inBase, incoming)
        invariant Tracks(Outgoing, outgoingMap[..], log, outBase, outgoing)
        invariant log == old(log) + Injections(old(outgoing), n)
        invariant incoming == old(incoming) && outgoing == Wrap(old(outgoing) + n)
        invariant last == if n == 0 then 0 else Wrap(old(outgoing) + n - 1)
      {
        left := left - 1;
        last := outgoing;
        ghost var e := Injected(outgoing);
        TracksNext(Incoming, incomingMap[..], log, inBase, incoming, e);
        TracksNext(Outgoing, outgoingMap[..], log, outBase, outgoing, e);
        WrapNext(old(outgoing), n);
        outgoing := Wrap(outgoing + 1);
        StoreRing(outgoingMap, last, Entry(0, last, false, true));
        log := log + [e];
        n := n + 1;
      }
      mode := Injecting;
    }

    /** The loop of translate: `backfill` numbers are consumed and given the next outgoing numbers. */
    method TranslateRun(backfill: nat) returns (last: U16)
      requires Valid() && !mode.Initial?
      modifies this, incomingMap, outgoingMap
      ensures Valid() && incomingMap == old(incomingMap) && outgoingMap == old(outgoingMap)
      ensures mode == old(mode)
      ensures log == old(log) + Translations(old(incoming), old(outgoing), backfill)
      ensures incoming == Wrap(old(incoming) + backfill) && outgoing == Wrap(old(outgoing) + backfill)
      ensures last == if backfill == 0 then old(outgoing) else Wrap(old(outgoing) + backfill - 1)
    {
      hide Tracks, Entries, Numbered, Shows, Wrap;
      ghost var n := 0;
      last := outgoing;
      var left := backfill;
      assert old(log) + [] == old(log);
      WrapU16(incoming);
      WrapU16(outgoing);
      while left > 0
        invariant n + left == backfill && mode == old(mode)
        invariant incomingMap == old(incomingMap) && outgoingMap == old(outgoingMap) && incomingMap != outgoingMap
        invariant Tracks(Incoming, incomingMap[..], log, inBase, incoming)
        invariant Tracks(Outgoing, outgoingMap[..], log, outBase, outgoing)
        invariant log == old(log) + Translations(old(incoming), old(outgoing), n)
        invariant incoming == Wrap(old(incoming) + n) && outgoing == Wrap(old(outgoing) + n)
        invariant last == if n == 0 then old(outgoing) else Wrap(old(outgoing) + n - 1)
      {
        left := left - 1;
        var current := incoming;
        last := outgoing;
        ghost var e := Translated(current, last);
        TracksNext(Incoming, incomingMap[..], log, inBase, incoming, e);
        TracksNext(Outgoing, outgoingMap[..], log, outBase, outgoing, e);
        WrapNext(old(incoming), n);
        WrapNext(old(outgoing), n);
        outgoing, incoming := Wrap(outgoing + 1), Wrap(incoming + 1);
        StoreRing(incomingMap, current, Entry(current, last, false, true));
        StoreRing(outgoingMap, last, Entry(current, last, false, true));
        log := log + [e];
        n := n + 1;
      }
    }

    /** Consumes incoming numbers up to `seqnum`, giving each the next outgoing number; the first call
        ever starts at its own argument. Returns the outgoing number given to `seqnum`; when that had
        been consumed just before, so that nothing is left to consume, the next outgoing number, which is
        the one recorded for `seqnum` exactly when the counter has come around. */
    method Translate(seqnum: U16) returns (last: U16)
      requires Valid()
      modifies this, incomingMap, outgoingMap
      ensures Valid() && incomingMap == old(incomingMap) && outgoingMap == old(outgoingMap)
      ensures var from := if old(mode).Initial? then seqnum else old(incoming);
              var n := Wrap(seqnum - from + 1);
              log == old(log) + Translations(from, old(outgoing), n) &&
              outgoing == Wrap(old(outgoing) + n) &&
              (n > 0 ==> log[|log| - 1] == Translated(seqnum, last)) &&
              (n == 0 ==> last == old(outgoing))
      ensures incoming == Wrap(seqnum + 1) && mode == Translating
      ensures incomingMap.Length == RING
      ensures var from := if old(mode).Initial? then seqnum else old(incoming);
              incomingMap[seqnum % RING] == Entry(seqnum, last, false, true) <==>
              Wrap(seqnum - from + 1) > 0 || CameAround(old(log))
    {
      hide Tracks, Entries, Numbered, Shows, Wrap, CameAround;
      ghost var from := if mode.Initial? then seqnum else incoming;
      WrapU16(outgoing);
      if mode.Initial? {
        TracksRestart(Incoming, incomingMap[..], inBase, incoming, seqnum);
        incoming := seqnum;
        inBase := seqnum;
      }
      mode := Translating;
      WrapBackfill(incoming, seqnum);
      last := TranslateRun(Wrap(seqnum - incoming + 1));
      if Wrap(seqnum - from + 1) > 0 {
        JustTranslated(incomingMap[..], log, inBase, incoming, seqnum, last);
      } else {
        assert log == old(log);
        RepeatedNumber(incomingMap[..], outgoingMap[..], log, inBase, outBase, seqnum, outgoing);
      }
    }

    /** The loop of discard: `backfill` numbers are consumed and given no outgoing number. */
    method DiscardRun(backfill: nat)
      requires Valid() && !mode.Initial?
      modifies this, incomingMap
      ensures Valid() && incomingMap == old(incomingMap) && outgoingMap == old(outgoingMap)
      ensures mode == old(mode) && outgoing == old(outgoing)
      ensures log == old(log) + Discards(old(incoming), backfill)
      ensures incoming == Wrap(old(incoming) + backfill)
    {
      hide Tracks, Entries, Numbered, Shows, Wrap;
      ghost var n := 0;
      var left := backfill;
      assert old(log) + [] == old(log);
      WrapU16(incoming);
      while left > 0
        invariant n + left == backfill && mode == old(mode) && outgoing == old(outgoing)
        invariant incomingMap == old(incomingMap) && outgoingMap == old(outgoingMap) && incomingMap != outgoingMap
        invariant Tracks(Incoming, incomingMap[..], log, inBase, incoming)
        invariant Tracks(Outgoing, outgoingMap[..], log, outBase, outgoing)
        invariant log == old(log) + Discards(old(incoming), n)
        invariant incoming == Wrap(old(incoming) + n)
      {
        left := left - 1;
        var current := incoming;
        ghost var e := Discarded(current);
        TracksNext(Incoming, incomingMap[..], log, inBase, incoming, e);
        TracksNext(Outgoing, outgoingMap[..], log, outBase, outgoing, e);
        WrapNext(old(incoming), n);
        incoming := Wrap(incoming + 1);
        StoreRing(incomingMap, current, Entry(current, 0, true, true));
        log := log + [e];
        n := n + 1;
      }
    }

    /** Consumes incoming numbers up to `seqnum` without giving them outgoing numbers, except that after
        a translate the numbers skipped before `seqnum` are translated first. */
    method Discard(seqnum: U16)
      requires Valid()
      modifies this, incomingMap, outgoingMap
      ensures Valid() && incomingMap == old(incomingMap) && outgoingMap == old(outgoingMap)
      ensures var skipped := if old(mode).Translating? then Wrap(seqnum - old(incoming)) else 0;
              var from := if old(mode).Translating? then seqnum else old(incoming);
              var n := Wrap(seqnum - from + 1);
              log == old(log) + Translations(old(incoming), old(outgoing), skipped) + Discards(from, n) &&
              outgoing == Wrap(old(outgoing) + skipped) &&
              (n > 0 ==> log[|log| - 1] == Discarded(seqnum))
      ensures incoming == Wrap(seqnum + 1) && mode == Discarding
    {
      hide Tracks, Entries, Numbered, Shows, Wrap;
      assert old(log) + [] == old(log);
      if mode.Translating? {
        WrapBefore(seqnum, incoming);
        var _ := Translate(Wrap(seqnum - 1));
      }
      WrapU16(outgoing);
      mode := Discarding;
      WrapBackfill(incoming, seqnum);
      DiscardRun(Wrap(seqnum - incoming + 1));
    }

    method Contains(d: Direction, seqnum: U16) returns (r: bool)
      requires Valid()
      ensures r <==> InWindow(d, Entries(d, log), seqnum)
    {
      if d.Incoming? {
        ContainsIffInWindow(d, incomingMap[..], log, inBase, seqnum);
        r := incomingMap[seqnum % RING].valid && incomingMap[seqnum % RING].incoming == seqnum;
      } else {
        ContainsIffInWindow(d, outgoingMap[..], log, outBase, seqnum);
        r := outgoingMap[seqnum % RING].valid && outgoingMap[seqnum % RING].outgoing == seqnum;
      }
    }

    /** For a number in the window, the entry recorded for it. */
    method Lookup(d: Direction, seqnum: U16) returns (m: Entry)
      requires Valid()
      ensures m == (if d.Incoming? then incomingMap else outgoingMap)[seqnum % RING]
      ensures forall i :: InLast(i, |Entries(d, log)|) && Number(d, Entries(d, log)[i]) == seqnum ==>
                m == Entries(d, log)[i]
    {
      if d.Incoming? {
        m := incomingMap[seqnum % RING];
        LookupWindow(d, incomingMap[..], log, inBase, seqnum);
      } else {
        m := outgoingMap[seqnum % RING];
        LookupWindow(d, outgoingMap[..], log, outBase, seqnum);
      }
    }
  }

  lemma LookupWindow(d: Direction, ring: seq<Entry>, log: seq<Event>, base: int, s: U16)
    requires Shows(ring, Entries(d, log), base) && Numbered(d, log, base)
    ensures forall i :: InLast(i, |Entries(d, log)|) && Number(d, Entries(d, log)[i]) == s ==>
              ring[s % RING] == Entries(d, log)[i]
  {
    forall i | InLast(i, |Entries(d, log)|) && Number(d, Entries(d, log)[i]) == s
      ensures ring[s % RING] == Entries(d, log)[i]
    {
      WindowShows(d, ring, log, base, i);
    }
  }

  /** ring[number % kMapSize] = m */
  method StoreRing(ring: array<Entry>, number: U16, m: Entry)
    requires ring.Length == RING
    modifies ring
    ensures ring[..] == old(ring[..])[number % RING := m]
  {
    ring[number % RING] := m;
  }

  // ----- the two maps are not inverse on all numbers they both contain

  lemma {:induction false} InjectionEntries(first: int, n: nat)
    ensures Entries(Incoming, Injections(first, n)) == []
    ensures |Entries(Outgoing, Injections(first, n))| == n
    ensures forall i :: 0 <= i < n ==> Entries(Outgoing, Injections(first, n))[i].outgoing == Wrap(first + i)
  {
    if n > 0 {
      InjectionEntries(first, n - 1);
      assert Injections(first, n)[..n - 1] == Injections(first, n - 1);
    }
  }

  /** What translate(5), inject(n), translate(6) leave in a translator made with (5, 4). */
  function ReuseLog(n: nat): seq<Event> { [Translated(5, 4)] + Injections(5, n) + [Translated(6, Wrap(5 + n))] }

  lemma ReuseEntries(n: nat)
    ensures Entries(Incoming, ReuseLog(n)) == [Entry(5, 4, false, true), Entry(6, Wrap(5 + n), false, true)]
    ensures Entries(Outgoing, ReuseLog(n)) ==
      [Entry(5, 4, false, true)] + Entries(Outgoing, Injections(5, n)) + [Entry(6, Wrap(5 + n), false, true)]
    ensures |Entries(Outgoing, Injections(5, n))| == n
  {
    hide Entries, Injections;
    var first, middle, last := [Translated(5, 4)], Injections(5, n), [Translated(6, Wrap(5 + n))];
    InjectionEntries(5, n);
    forall d: Direction
      ensures Entries(d, ReuseLog(n)) == [EntryOf(first[0])] + Entries(d, middle) + [EntryOf(last[0])]
    {
      EntriesConcat(d, first + middle, last);
      EntriesConcat(d, first, middle);
      OneEntry(d, first[0]);
      OneEntry(d, last[0]);
    }
  }

  lemma OneEntry(d: Direction, e: Event)
    requires Records(d, e)
    ensures Entries(d, [e]) == [EntryOf(e)]
  {
    assert [e][..0] == [];
  }

  /** After n = 65535 injections the outgoing counter is back at 4: both directions contain the numbers
      of the packet 5 -> 4, but outgoing 4 now leads to incoming 6. */
  lemma NumberReused(outRing: seq<Entry>, base: int, n: nat)
    requires n == 65535 && Wrap(base) == 4 && Shows(outRing, Entries(Outgoing, ReuseLog(n)), base)
    ensures var log := ReuseLog(n);
            Numbered(Incoming, log, 5) && Numbered(Outgoing, log, base) &&
            log[0] == Translated(5, 4) && Held(Incoming, log, 0) &&
            ContainsIn(Outgoing, outRing, 4) && outRing[4] == Entry(6, 4, false, true)
  {
    ReuseNumbered(base, n);
    ReuseEntries(n);
    var log := ReuseLog(n);
    assert log[0] == Translated(5, 4) && log[..0] == [];
    assert Entries(Incoming, []) == [];
    WindowShows(Outgoing, outRing, log, base, n + 1);
  }

  lemma ReuseNumbered(base: int, n: nat)
    requires n == 65535 && Wrap(base) == 4
    ensures Numbered(Incoming, ReuseLog(n), 5) && Numbered(Outgoing, ReuseLog(n), base)
  {
    hide ReuseLog, Entries, Injections;
    InjectionEntries(5, n);
    ReuseEntries(n);
    var entries := Entries(Outgoing, ReuseLog(n));
    forall i | 0 <= i < |entries| ensures Number(Outgoing, entries[i]) == Wrap(base + i) {
      if 0 < i < n + 1 { assert entries[i] == Entries(Outgoing, Injections(5, n))[i - 1]; }
    }
  }

  lemma ReuseLogIs(log: seq<Event>, n: nat)
    requires log == [] + Translations(5, 4, 1) + Injections(5, n) + Translations(6, Wrap(5 + n), 1)
    ensures log == ReuseLog(n)
  {
    hide Translations, Injections;
    ShortTranslations(5, 4);
    ShortTranslations(6, Wrap(5 + n));
    assert [] + [Translated(5, 4)] == [Translated(5, 4)];
  }

  /** What the rings of a translator show after those calls. */
  lemma ReuseShows(inRing: seq<Entry>, inBase: int, outRing: seq<Entry>, outBase: int, n: nat)
    requires n == 65535
    requires Shows(inRing, Entries(Incoming, ReuseLog(n)), inBase) && Numbered(Incoming, ReuseLog(n), inBase)
    requires Shows(outRing, Entries(Outgoing, ReuseLog(n)), outBase) && Numbered(Outgoing, ReuseLog(n), outBase)
    ensures |inRing| == |outRing| == RING
    ensures inRing[5] == Entry(5, 4, false, true) && InWindow(Incoming, Entries(Incoming, ReuseLog(n)), 5)
    ensures outRing[4] == Entry(6, 4, false, true) && InWindow(Outgoing, Entries(Outgoing, ReuseLog(n)), 4)
  {
    hide Entries, Injections, ReuseLog;
    ReuseEntries(n);
    assert Number(Outgoing, Entries(Outgoing, ReuseLog(n))[0]) == Wrap(outBase + 0);
    WindowShows(Incoming, inRing, ReuseLog(n), inBase, 0);
    ContainsIffInWindow(Incoming, inRing, ReuseLog(n), inBase, 5);
    NumberReused(outRing, outBase, n);
    ContainsIffInWindow(Outgoing, outRing, ReuseLog(n), outBase, 4);
  }

  /** The calls that lead there. Both directions contain the numbers of the packet 5 -> 4; incoming 5
      leads to outgoing 4, and outgoing 4 to incoming 6. */
  method ReuseRun() returns (there: Entry, back: Entry, inContains: bool, outContains: bool)
    ensures inContains && there == Entry(5, 4, false, true)
    ensures outContains && back == Entry(6, 4, false, true)
  {
    hide Injections, Translations, Numbered, Shows, Entries, InWindow, ReuseLog;
    var gap := new GapControl(5, 4);
    var last := gap.Translate(5);
    last := gap.Inject(65535);
    last := gap.Translate(6);
    ReuseLogIs(gap.log, 65535);
    ReuseShows(gap.incomingMap[..], gap.inBase, gap.outgoingMap[..], gap.outBase, 65535);
    assert gap.incomingMap[5] == gap.incomingMap[..][5] && gap.outgoingMap[4] == gap.outgoingMap[..][4];
    inContains := gap.Contains(Incoming, 5);
    outContains := gap.Contains(Outgoing, 4);
    there := gap.Lookup(Incoming, 5);
    back := gap.Lookup(Outgoing, 4);
  }

  // ----- a repeated translate does not always return the number recorded

  lemma {:induction false} InjectedAfter(log: seq<Event>, first: int, n: nat)
    requires log != [] && !log[|log| - 1].Injected?
    ensures InjectedSince(log + Injections(first, n)) == n
  {
    if n == 0 {
      assert log + Injections(first, n) == log;
    } else {
      var e := Injected(Wrap(first + n - 1));
      assert log + Injections(first, n) == log + Injections(first, n - 1) + [e];
      InjectedAfter(log, first, n - 1);
      InjectedNext(log + Injections(first, n - 1), e);
    }
  }

  lemma InjectedNext(log: seq<Event>, e: Event)
    requires e.Injected?
    ensures InjectedSince(log + [e]) == InjectedSince(log) + 1
  {
    assert (log + [e])[..|log|] == log;
  }

  lemma AroundAfter(log: seq<Event>, first: int)
    requires log != [] && log[|log| - 1].Translated?
    ensures CameAround(log + Injections(first, 65535))
  {
    hide Injections, InjectedSince;
    InjectedAfter(log, first, 65535);
  }

  lemma ShortTranslations(inFirst: int, outFirst: int)
    ensures Translations(inFirst, outFirst, 0) == []
    ensures Translations(inFirst, outFirst, 1) == [Translated(Wrap(inFirst), Wrap(outFirst))]
  {
    assert Translations(inFirst, outFirst, 0) == [];
  }

  /** translate(5) on a translator made with (5, 4) returns 4. Once more, it returns 5, while 4 stays
      recorded for incoming 5. After 65535 injections it returns 4 again, the number recorded. */
  method RepeatRun() returns (first: U16, second: U16, recorded: Entry, third: U16, recordedStill: Entry)
    ensures first == 4 && second == 5 && recorded == Entry(5, 4, false, true)
    ensures third == 4 && recordedStill == Entry(5, 4, false, true)
  {
    hide Injections, Translations, Entries, InWindow, Tracks, InjectedSince, CameAround;
    var gap := new GapControl(5, 4);
    ghost var log := [Translated(5, 4)];
    first := gap.Translate(5);
    ShortTranslations(5, 4);
    assert gap.log == log;
    second := gap.Translate(5);
    ShortTranslations(6, 5);
    assert gap.log == log;
    OneEntry(Incoming, log[0]);
    assert InLast(0, |Entries(Incoming, gap.log)|) && Number(Incoming, Entries(Incoming, gap.log)[0]) == 5;
    recorded := gap.Lookup(Incoming, 5);
    var last := gap.Inject(65535);
    AroundAfter(log, 5);
    third := gap.Translate(5);
    recordedStill := gap.Lookup(Incoming, 5);
  }

  // ----- a run with all kinds of events

  lemma EntriesNext(d: Direction, log: seq<Event>, e: Event)
    ensures Entries(d, log + [e]) == Entries(d, log) + if Records(d, e) then [EntryOf(e)] else []
  {
    assert (log + [e])[..|log|] == log;
  }

  /** What translate(5), discard(8), inject(1), discard(10) leave in a translator made with (5, 4). */
  function MixedLog(): seq<Event> {
    [Translated(5, 4)] + [Translated(6, 5)] + [Translated(7, 6)] + [Discarded(8)] + [Injected(7)] + [Discarded(9)] +
    [Discarded(10)]
  }

  lemma MixedEntries()
    ensures Entries(Incoming, MixedLog()) ==
      [Entry(5, 4, false, true), Entry(6, 5, false, true), Entry(7, 6, false, true),
       Entry(8, 0, true, true), Entry(9, 0, true, true), Entry(10, 0, true, true)]
    ensures Entries(Outgoing, MixedLog()) ==
      [Entry(5, 4, false, true), Entry(6, 5, false, true), Entry(7, 6, false, true), Entry(0, 7, false, true)]
  {
    hide Entries;
    forall d: Direction
      ensures Entries(d, MixedLog()) ==
        [EntryOf(Translated(5, 4))] + [EntryOf(Translated(6, 5))] + [EntryOf(Translated(7, 6))] +
        if d.Incoming? then [EntryOf(Discarded(8))] + [EntryOf(Discarded(9))] + [EntryOf(Discarded(10))]
        else [EntryOf(Injected(7))]
    {
      var l1 := [Translated(5, 4)];
      var l2 := l1 + [Translated(6, 5)];
      var l3 := l2 + [Translated(7, 6)];
      var l4 := l3 + [Discarded(8)];
      var l5 := l4 + [Injected(7)];
      OneEntry(d, l1[0]);
      EntriesNext(d, l1, Translated(6, 5));
      EntriesNext(d, l2, Translated(7, 6));
      EntriesNext(d, l3, Discarded(8));
      EntriesNext(d, l4, Injected(7));
      EntriesNext(d, l5, Discarded(9));
      EntriesNext(d, l5 + [Discarded(9)], Discarded(10));
    }
  }

  lemma ShortDiscards(first: int)
    ensures Discards(first, 1) == [Discarded(Wrap(first))]
    ensures Discards(first, 2) == [Discarded(Wrap(first))] + [Discarded(Wrap(first + 1))]
  {
    assert Discards(first, 0) == [];
  }

  lemma TwoTranslations(inFirst: int, outFirst: int)
    ensures Translations(inFirst, outFirst, 2) ==
      [Translated(Wrap(inFirst), Wrap(outFirst))] + [Translated(Wrap(inFirst + 1), Wrap(outFirst + 1))]
  {
    ShortTranslations(inFirst, outFirst);
  }

  /** The numbers skipped before the first discard are translated, those skipped before the second, which
      follows an injection, are discarded. */
  method MixedRun() returns (skipped: Entry, dropped: Entry, skippedLater: Entry, own: Entry)
    ensures skipped == Entry(7, 6, false, true) && dropped == Entry(8, 0, true, true)
    ensures skippedLater == Entry(9, 0, true, true) && own == Entry(0, 7, false, true)
  {
    hide Injections, Translations, Discards, Entries, InWindow, Tracks, InjectedSince, CameAround;
    var gap := new GapControl(5, 4);
    var last := gap.Translate(5);
    ShortTranslations(5, 4);
    gap.Discard(8);
    TwoTranslations(6, 5);
    ShortDiscards(8);
    last := gap.Inject(1);
    ShortInjection(7);
    gap.Discard(10);
    ShortTranslations(9, 8);
    ShortDiscards(9);
    MixedIs(gap.log);
    MixedEntries();
    ghost var ins, outs := Entries(Incoming, gap.log), Entries(Outgoing, gap.log);
    assert InLast(2, |ins|) && InLast(3, |ins|) && InLast(4, |ins|) && InLast(3, |outs|);
    assert Number(Incoming, ins[2]) == 7 && Number(Incoming, ins[3]) == 8 && Number(Incoming, ins[4]) == 9;
    assert Number(Outgoing, outs[3]) == 7;
    skipped := gap.Lookup(Incoming, 7);
    dropped := gap.Lookup(Incoming, 8);
    skippedLater := gap.Lookup(Incoming, 9);
    own := gap.Lookup(Outgoing, 7);
  }

  lemma ShortInjection(first: int)
    ensures Injections(first, 1) == [Injected(Wrap(first))]
  {
    assert Injections(first, 0) == [];
  }

  lemma MixedIs(log: seq<Event>)
    requires log == [] + [Translated(5, 4)] + ([Translated(6, 5)] + [Translated(7, 6)]) + [Discarded(8)] +
                    [Injected(7)] + [] + ([Discarded(9)] + [Discarded(10)])
    ensures log == MixedLog()
  {}
}
