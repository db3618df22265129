/** The NAL unit splitter of exercises/y4m.cpp (the byte stream format of Annex B of ITU-T H.265):
    finds the start codes 00 00 01 and 00 00 00 01 and returns the units between them. */
module NalUnits {

  type Byte = b: int | 0 <= b < 256

  /** A unit as nal_parse_units returns it: the offset of its data in the buffer, and its size. */
  datatype Unit = Unit(data: nat, size: nat)

  // ----- start codes

  /** The length of the start code at position p: 3, 4, or 0 when there is none. */
  function CodeAt(s: seq<Byte>, p: nat): (n: nat)
    requires p < |s|
    ensures p + n <= |s|
  {
    if p + 3 <= |s| && s[p] == 0 && s[p + 1] == 0 && s[p + 2] == 1 then 3
    else if p + 4 <= |s| && s[p] == 0 && s[p + 1] == 0 && s[p + 2] == 0 && s[p + 3] == 1 then 4
    else 0
  }

  /** The first position with a start code, or the length. */
  function FirstCode(s: seq<Byte>): (p: nat)
    ensures p <= |s| && (p < |s| ==> CodeAt(s, p) > 0)
    ensures forall k :: 0 <= k < p ==> CodeAt(s, k) == 0
  {
    FirstCodeFrom(s, 0)
  }

  function FirstCodeFrom(s: seq<Byte>, from: nat): (p: nat)
    requires from <= |s|
    ensures from <= p <= |s| && (p < |s| ==> CodeAt(s, p) > 0)
    ensures forall k :: from <= k < p ==> CodeAt(s, k) == 0
    decreases |s| - from
  {
    if from == |s| || CodeAt(s, from) > 0 then from else FirstCodeFrom(s, from + 1)
  }

  lemma FirstCodeIs(s: seq<Byte>, p: nat)
    requires p <= |s| && (p < |s| ==> CodeAt(s, p) > 0) && forall k :: 0 <= k < p ==> CodeAt(s, k) == 0
    ensures FirstCode(s) == p
  {}

  /** The bytes 00 00 01 occur somewhere. */
  predicate HasCode(s: seq<Byte>) { exists k :: 0 <= k && k + 3 <= |s| && s[k] == 0 && s[k + 1] == 0 && s[k + 2] == 1 }

  // ----- the byte stream format

  function Code(n: nat): (c: seq<Byte>)
    requires n == 3 || n == 4
    ensures |c| == n
  {
    if n == 3 then [0, 0, 1] else [0, 0, 0, 1]
  }

  /** One unit of a byte stream with the start code, of length `code`, in front of it. */
  datatype Piece = Piece(code: nat, payload: seq<Byte>)

  type Stream = p: seq<Piece> | forall i :: 0 <= i < |p| ==> p[i].code == 3 || p[i].code == 4 witness []

  function Join(pieces: Stream): seq<Byte> {
    if pieces == [] then []
    else Code(pieces[0].code) + pieces[0].payload + Join(pieces[1..])
  }

  /** The pieces of a buffer that starts with a start code. */
  function Split(s: seq<Byte>): (pieces: Stream)
    requires s != [] ==> CodeAt(s, 0) > 0
    decreases |s|
  {
    if s == [] then []
    else
      [FirstPiece(s)] + Split(AfterFirst(s))
  }

  function FirstPiece(s: seq<Byte>): (p: Piece)
    requires s != [] && CodeAt(s, 0) > 0
    ensures p.code == 3 || p.code == 4
  {
    var body := s[CodeAt(s, 0)..];
    Piece(CodeAt(s, 0), body[..FirstCode(body)])
  }

  function AfterFirst(s: seq<Byte>): (rest: seq<Byte>)
    requires s != [] && CodeAt(s, 0) > 0
    ensures |rest| < |s| && (rest != [] ==> CodeAt(rest, 0) > 0)
  {
    var body := s[CodeAt(s, 0)..];
    AtZero(body, FirstCode(body));
    body[FirstCode(body)..]
  }

  lemma AtZero(s: seq<Byte>, p: nat)
    requires p <= |s|
    ensures p < |s| ==> CodeAt(s[p..], 0) == CodeAt(s, p)
  {}

  lemma CodeIs(s: seq<Byte>)
    requires s != [] && CodeAt(s, 0) > 0
    ensures CodeAt(s, 0) == 3 || CodeAt(s, 0) == 4
    ensures s == Code(CodeAt(s, 0)) + s[CodeAt(s, 0)..]
  {}

  /** What Split does with the first unit. */
  lemma SplitFirst(s: seq<Byte>, code: nat, body: seq<Byte>, end: nat)
    requires s != [] && code == CodeAt(s, 0) > 0 && body == s[code..] && end == FirstCode(body)
    ensures body[end..] != [] ==> CodeAt(body[end..], 0) > 0
    ensures Split(s) == [Piece(code, body[..end])] + Split(body[end..]) && |body[end..]| < |s|
  {
    AtZero(body, end);
  }

  lemma JoinFirst(p: Piece, rest: Stream)
    requires p.code == 3 || p.code == 4
    ensures Join([p] + rest) == Code(p.code) + p.payload + Join(rest)
  {
    assert ([p] + rest)[1..] == rest;
  }

  /** Splitting and joining with the same start codes reproduces the buffer. */
  lemma {:induction false} JoinSplit(s: seq<Byte>)
    requires s != [] ==> CodeAt(s, 0) > 0
    ensures Join(Split(s)) == s
    decreases |s|
  {
    if s != [] {
      var code := CodeAt(s, 0);
      CodeIs(s);
      var body := s[code..];
      var end := FirstCode(body);
      SplitFirst(s, code, body, end);
      JoinSplit(body[end..]);
      JoinPiece(code, body, end, Split(body[end..]));
    }
  }

  lemma JoinPiece(code: nat, body: seq<Byte>, end: nat, rest: Stream)
    requires (code == 3 || code == 4) && end <= |body| && Join(rest) == body[end..]
    ensures Join([Piece(code, body[..end])] + rest) == Code(code) + body
  {
    hide Join, Code;
    JoinFirst(Piece(code, body[..end]), rest);
    assert body == body[..end] + body[end..];
    assert Code(code) + body[..end] + body[end..] == Code(code) + (body[..end] + body[end..]);
  }

  /** A prefix without a start code position has no 00 00 01 in it. */
  lemma NoCodeBefore(s: seq<Byte>, p: nat)
    requires p <= |s| && forall k :: 0 <= k < p ==> CodeAt(s, k) == 0
    ensures !HasCode(s[..p])
  {
    if HasCode(s[..p]) { var k := CodeWithin(s, p); }
  }

  lemma CodeWithin(s: seq<Byte>, p: nat) returns (k: nat)
    requires p <= |s| && HasCode(s[..p])
    ensures k < p && CodeAt(s, k) == 3
  {
    k :| 0 <= k && k + 3 <= p && s[..p][k] == 0 && s[..p][k + 1] == 0 && s[..p][k + 2] == 1;
  }

  lemma {:induction false} UnitsHaveNoCode(s: seq<Byte>)
    requires s != [] ==> CodeAt(s, 0) > 0
    ensures forall i :: 0 <= i < |Split(s)| ==> !HasCode(Split(s)[i].payload)
    decreases |s|
  {
    if s != [] {
      var body := s[CodeAt(s, 0)..];
      var end := FirstCode(body);
      AtZero(body, end);
      UnitsHaveNoCode(body[end..]);
      NoCodeBefore(body, end);
      assert Split(s)[1..] == Split(body[end..]);
      forall i | 0 <= i < |Split(s)| ensures !HasCode(Split(s)[i].payload) {
        if i > 0 { assert Split(s)[i] == Split(s)[1..][i - 1]; }
      }
    }
  }

  /** The payload can be told from what follows: no 00 00 01 in it, and no 00 at its end in front of
      the short start code. `next` is the length of the start code that follows, 0 at the end. */
  predicate Separable(payload: seq<Byte>, next: nat) {
    !HasCode(payload) && (next == 3 && payload != [] ==> payload[|payload| - 1] != 0)
  }

  /** A start code that begins in a payload before the start code that follows lies in the payload, or
      uses the payload's last 00 to make a long start code of a short one. */
  lemma CodeInside(payload: seq<Byte>, tail: seq<Byte>, k: nat)
    requires k < |payload| && CodeAt(payload + tail, k) > 0 && (tail != [] ==> CodeAt(tail, 0) > 0)
    ensures !Separable(payload, if tail == [] then 0 else CodeAt(tail, 0))
  {
    var s := payload + tail;
    var n := |payload|;
    var one := k + CodeAt(s, k) - 1;
    assert forall j :: k <= j < one ==> s[j] == 0;
    if one < n {
      assert payload[one - 2] == s[one - 2] && payload[one - 2 + 1] == s[one - 1] && payload[one - 2 + 2] == s[one];
      assert HasCode(payload);
    } else {
      assert s[n - 1] == payload[n - 1] && forall j :: 0 <= j < |tail| ==> s[n + j] == tail[j];
    }
  }

  lemma NotSeparable(payload: seq<Byte>, tail: seq<Byte>) returns (k: nat)
    requires tail != [] ==> CodeAt(tail, 0) > 0
    requires !Separable(payload, if tail == [] then 0 else CodeAt(tail, 0))
    ensures k < |payload| && CodeAt(payload + tail, k) > 0
  {
    if HasCode(payload) {
      k :| 0 <= k && k + 3 <= |payload| && payload[k] == 0 && payload[k + 1] == 0 && payload[k + 2] == 1;
    } else {
      k := |payload| - 1;
      assert forall j :: 0 <= j < |tail| ==> (payload + tail)[|payload| + j] == tail[j];
    }
  }

  /** Exactly a separable payload ends, for the splitter, where it ends. */
  lemma PayloadEnds(payload: seq<Byte>, tail: seq<Byte>)
    requires tail != [] ==> CodeAt(tail, 0) > 0
    ensures FirstCode(payload + tail) == |payload| <==>
            Separable(payload, if tail == [] then 0 else CodeAt(tail, 0))
  {
    hide Separable, CodeAt, FirstCodeFrom;
    var s := payload + tail;
    if Separable(payload, if tail == [] then 0 else CodeAt(tail, 0)) {
      forall k | 0 <= k < |payload| ensures CodeAt(s, k) == 0 {
        if CodeAt(s, k) > 0 { CodeInside(payload, tail, k); }
      }
      if tail != [] {
        assert s[|payload|..] == tail;
        AtZero(s, |payload|);
      }
      FirstCodeIs(s, |payload|);
    } else {
      var k := NotSeparable(payload, tail);
    }
  }

  lemma CodeAtCode(n: nat, rest: seq<Byte>)
    requires n == 3 || n == 4
    ensures CodeAt(Code(n) + rest, 0) == n
  {}

  lemma SplitPiece(p: Piece, rest: seq<Byte>)
    requires (p.code == 3 || p.code == 4) && (rest != [] ==> CodeAt(rest, 0) > 0)
    ensures var s := Code(p.code) + p.payload + rest;
            CodeAt(s, 0) > 0 &&
            (Separable(p.payload, if rest == [] then 0 else CodeAt(rest, 0)) ==> Split(s) == [p] + Split(rest)) &&
            (!Separable(p.payload, if rest == [] then 0 else CodeAt(rest, 0)) ==> Split(s)[0] != p)
  {
    hide Split, FirstCode, CodeAt, Code, Separable;
    var body := p.payload + rest;
    var s := Code(p.code) + body;
    assert Code(p.code) + p.payload + rest == s;
    CodeAtCode(p.code, body);
    assert s[p.code..] == body;
    PayloadEnds(p.payload, rest);
    SplitFirst(s, p.code, body, FirstCode(body));
    assert body[..|p.payload|] == p.payload && body[|p.payload|..] == rest;
  }

  /** Every payload is separable from the start code that follows it. */
  predicate AllSeparable(pieces: Stream)
    decreases |pieces|
  {
    pieces == [] ||
    (Separable(pieces[0].payload, if |pieces| > 1 then pieces[1].code else 0) && AllSeparable(pieces[1..]))
  }

  lemma JoinStarts(pieces: Stream)
    ensures var s := Join(pieces);
            if pieces == [] then s == [] else s != [] && CodeAt(s, 0) == pieces[0].code
  {
    if pieces != [] {
      CodeAtCode(pieces[0].code, pieces[0].payload + Join(pieces[1..]));
      assert Join(pieces) == Code(pieces[0].code) + (pieces[0].payload + Join(pieces[1..]));
    }
  }

  /** Joining payloads with any mix of start codes and splitting gives them back exactly when every
      payload can be told from what follows it. */
  lemma {:induction false} SplitJoin(pieces: Stream)
    ensures var s := Join(pieces);
            (s != [] ==> CodeAt(s, 0) > 0) && (Split(s) == pieces <==> AllSeparable(pieces))
    decreases |pieces|
  {
    hide Split, CodeAt, Code, Separable, Join;
    JoinStarts(pieces);
    if pieces != [] {
      var p, rest := pieces[0], pieces[1..];
      SplitJoin(rest);
      JoinStarts(rest);
      JoinFirst(p, rest);
      assert pieces == [p] + rest;
      SplitPiece(p, Join(rest));
      SameTail(p, Split(Join(rest)), rest);
    } else {
      SplitNothing();
    }
  }

  lemma SplitNothing()
    ensures Split([]) == [] && Join([]) == []
  {}

  lemma SameTail(p: Piece, s: seq<Piece>, t: seq<Piece>)
    ensures [p] + s == [p] + t <==> s == t
  {
    assert ([p] + s)[1..] == s && ([p] + t)[1..] == t;
  }

  /** A payload as the format allows it: without 00 00 01, and not ending in 00. */
  predicate Clean(payload: seq<Byte>) { !HasCode(payload) && (payload != [] ==> payload[|payload| - 1] != 0) }

  // ----- the splitter

  /** The units from position `at` on, where there is a start code or the end of the buffer. */
  function Parse(buffer: seq<Byte>, at: nat): seq<Unit>
    requires at <= |buffer| && (at < |buffer| ==> CodeAt(buffer, at) > 0)
    decreases |buffer| - at
  {
    if at == |buffer| then []
    else
      var data := at + CodeAt(buffer, at);
      var end := FirstCodeFrom(buffer, data);
      [Unit(data, end - data)] + Parse(buffer, end)
  }

  /** The units with the bytes they cover and the lengths of the start codes between them. */
  function Pieces(buffer: seq<Byte>, units: seq<Unit>, at: nat): seq<Piece>
    decreases |units|
  {
    if units == [] then []
    else
      var u := units[0];
      if at <= u.data && u.data + u.size <= |buffer| then
        [Piece(u.data - at, buffer[u.data..u.data + u.size])] + Pieces(buffer, units[1..], u.data + u.size)
      else []
  }

  lemma {:induction false} FirstCodeShift(s: seq<Byte>, d: nat, from: nat)
    requires d <= from <= |s|
    ensures FirstCodeFrom(s[d..], from - d) == FirstCodeFrom(s, from) - d
    decreases |s| - from
  {
    if from < |s| {
      assert CodeAt(s[d..], from - d) == CodeAt(s, from);
      if CodeAt(s, from) == 0 { FirstCodeShift(s, d, from + 1); }
    }
  }

  /** The units the splitter returns are the pieces of the byte stream that starts at `at`. */
  lemma {:induction false} ParseIsSplit(buffer: seq<Byte>, at: nat)
    requires at <= |buffer| && (at < |buffer| ==> CodeAt(buffer, at) > 0)
    ensures buffer[at..] != [] ==> CodeAt(buffer[at..], 0) > 0
    ensures Pieces(buffer, Parse(buffer, at), at) == Split(buffer[at..])
    decreases |buffer| - at
  {
    hide Split, Join, CodeAt, FirstCodeFrom, HasCode, Pieces, Parse;
    AtZero(buffer, at);
    if at == |buffer| {
      ParseEnd(buffer);
    } else {
      var code := CodeAt(buffer, at);
      var data := at + code;
      var end := FirstCodeFrom(buffer, data);
      ParseFirst(buffer, at);
      ParseIsSplit(buffer, end);
      SplitAt(buffer, at, code, data, end);
      PiecesFirst(buffer, Unit(data, end - data), Parse(buffer, end), at);
    }
  }

  lemma ParseEnd(buffer: seq<Byte>)
    ensures Pieces(buffer, Parse(buffer, |buffer|), |buffer|) == Split(buffer[|buffer|..])
  {}

  lemma ParseFirst(buffer: seq<Byte>, at: nat)
    requires at < |buffer| && CodeAt(buffer, at) > 0
    ensures var data := at + CodeAt(buffer, at);
            var end := FirstCodeFrom(buffer, data);
            Parse(buffer, at) == [Unit(data, end - data)] + Parse(buffer, end)
  {
    hide CodeAt, FirstCodeFrom;
  }

  lemma PiecesFirst(buffer: seq<Byte>, u: Unit, units: seq<Unit>, at: nat)
    requires at <= u.data && u.data + u.size <= |buffer|
    ensures Pieces(buffer, [u] + units, at) ==
            [Piece(u.data - at, buffer[u.data..u.data + u.size])] + Pieces(buffer, units, u.data + u.size)
  {
    assert ([u] + units)[1..] == units;
  }

  lemma FirstCodeAt(buffer: seq<Byte>, data: nat)
    requires data <= |buffer|
    ensures FirstCode(buffer[data..]) == FirstCodeFrom(buffer, data) - data
  {
    FirstCodeShift(buffer, data, data);
  }

  lemma Slices(buffer: seq<Byte>, at: nat, data: nat, end: nat)
    requires at <= data <= end <= |buffer|
    ensures buffer[at..][data - at..] == buffer[data..]
    ensures buffer[data..][end - data..] == buffer[end..]
    ensures buffer[data..][..end - data] == buffer[data..end]
  {}

  lemma SplitAt(buffer: seq<Byte>, at: nat, code: nat, data: nat, end: nat)
    requires at < |buffer| && code == CodeAt(buffer, at) > 0 && data == at + code && end == FirstCodeFrom(buffer, data)
    ensures CodeAt(buffer[at..], 0) > 0 && (buffer[end..] != [] ==> CodeAt(buffer[end..], 0) > 0)
    ensures Split(buffer[at..]) == [Piece(code, buffer[data..end])] + Split(buffer[end..])
  {
    hide Split, Join, CodeAt, FirstCodeFrom, HasCode, FirstCode;
    AtZero(buffer, at);
    FirstCodeAt(buffer, data);
    Slices(buffer, at, data, end);
    SplitFirst(buffer[at..], code, buffer[data..], end - data);
  }

  /** Re-emitting the units with the start codes found between them reproduces the buffer from its
      first start code on; no unit contains 00 00 01, nor does what comes before. */
  lemma UnitsReproduce(buffer: seq<Byte>)
    ensures var first := FirstCode(buffer);
            var pieces := Pieces(buffer, Parse(buffer, first), first);
            (forall i :: 0 <= i < |pieces| ==>
               (pieces[i].code == 3 || pieces[i].code == 4) && !HasCode(pieces[i].payload)) &&
            !HasCode(buffer[..first]) &&
            Join(pieces) == buffer[first..]
  {
    var first := FirstCode(buffer);
    ParseIsSplit(buffer, first);
    JoinSplit(buffer[first..]);
    UnitsHaveNoCode(buffer[first..]);
    NoCodeBefore(buffer, first);
  }

  lemma {:induction false} CleanSeparable(pieces: Stream)
    requires forall i :: 0 <= i < |pieces| ==> Clean(pieces[i].payload)
    ensures AllSeparable(pieces)
    decreases |pieces|
  {
    if pieces != [] { CleanSeparable(pieces[1..]); }
  }

  /** What the splitter returns for joined payloads: the payloads themselves, exactly when each can be
      told from what follows it, as clean ones can. */
  lemma PayloadsComeBack(pieces: Stream)
    ensures FirstCode(Join(pieces)) == 0
    ensures Pieces(Join(pieces), Parse(Join(pieces), 0), 0) == pieces <==> AllSeparable(pieces)
    ensures (forall i :: 0 <= i < |pieces| ==> Clean(pieces[i].payload)) ==> AllSeparable(pieces)
  {
    var s := Join(pieces);
    SplitJoin(pieces);
    if forall i :: 0 <= i < |pieces| ==> Clean(pieces[i].payload) { CleanSeparable(pieces); }
    FirstCodeIs(s, 0);
    ParseIsSplit(s, 0);
    assert s[0..] == s;
  }

  /** std::find for the byte 0. */
  method FindZero(buffer: seq<Byte>, from: nat) returns (ptr: nat)
    requires from <= |buffer|
    ensures from <= ptr <= |buffer| && (ptr < |buffer| ==> buffer[ptr] == 0)
    ensures FirstCodeFrom(buffer, ptr) == FirstCodeFrom(buffer, from)
  {
    ptr := from;
    while ptr < |buffer| && buffer[ptr] != 0
      invariant from <= ptr <= |buffer| && FirstCodeFrom(buffer, ptr) == FirstCodeFrom(buffer, from)
    {
      ptr := ptr + 1;
    }
  }

  method ParseUnits(buffer: seq<Byte>) returns (units: seq<Unit>)
    ensures units == Parse(buffer, FirstCode(buffer))
  {
    hide Parse, FirstCodeFrom, Open;
    units := [];
    OpenStart(buffer);
    var ptr, end := 0, |buffer|;
    ghost var total := Parse(buffer, FirstCode(buffer));
    while ptr != end
      invariant 0 <= ptr <= end
      invariant Open(buffer, units, ptr, total)
      decreases end - ptr
    {
      ghost var from := ptr;
      ptr := FindZero(buffer, ptr);
      OpenMoved(buffer, units, from, ptr, total);
      var d := end - ptr;
      var h1 := d >= 3 && buffer[ptr + 1] == 0 && buffer[ptr + 2] == 1;
      var h2 := d >= 4 && buffer[ptr + 1] == 0 && buffer[ptr + 2] == 0 && buffer[ptr + 3] == 1;
      var offset := if h1 then 3 else if h2 then 4 else if ptr != end then 1 else 0;
      if offset == 3 || offset == 4 {
        CodeHere(buffer, ptr, offset);
        OpenNext(buffer, units, ptr, total);
        if units != [] {
          var back := units[|units| - 1];
          units := units[|units| - 1 := Unit(back.data, ptr - back.data)];
        }
        ptr := ptr + offset;
        units := units + [Unit(ptr, 0)];
      } else {
        if ptr != end {
          NoCodeHere(buffer, ptr);
          OpenMoved(buffer, units, ptr, ptr + 1, total);
        }
        ptr := ptr + offset;
      }
    }
    OpenEnd(buffer, units, total);
    if units != [] {
      var back := units[|units| - 1];
      units := units[|units| - 1 := Unit(back.data, end - back.data)];
    }
  }

  /** The size of the last unit is set when the next start code, or the end, is reached at ptr. */
  function Closed(units: seq<Unit>, ptr: nat): (r: seq<Unit>)
    requires units != [] ==> units[|units| - 1].data <= ptr
    ensures |r| == |units|
  {
    if units == [] then units else units[|units| - 1 := Unit(units[|units| - 1].data, ptr - units[|units| - 1].data)]
  }

  /** With the last unit closed where the next start code is, and the units from there on, the units so
      far are all of them. */
  ghost predicate Open(buffer: seq<Byte>, units: seq<Unit>, ptr: nat, total: seq<Unit>)
    requires ptr <= |buffer|
  {
    var next := FirstCodeFrom(buffer, ptr);
    (units != [] ==> units[|units| - 1].data <= ptr) && Closed(units, next) + Parse(buffer, next) == total
  }

  lemma OpenStart(buffer: seq<Byte>)
    ensures Open(buffer, [], 0, Parse(buffer, FirstCode(buffer)))
  {}

  lemma CodeHere(s: seq<Byte>, p: nat, offset: nat)
    requires p < |s| && CodeAt(s, p) == offset > 0
    ensures FirstCodeFrom(s, p) == p && p + offset <= |s|
  {}

  lemma NoCodeHere(s: seq<Byte>, p: nat)
    requires p < |s| && CodeAt(s, p) == 0
    ensures FirstCodeFrom(s, p + 1) == FirstCodeFrom(s, p)
  {}

  lemma OpenMoved(buffer: seq<Byte>, units: seq<Unit>, from: nat, ptr: nat, total: seq<Unit>)
    requires from <= ptr <= |buffer| && Open(buffer, units, from, total)
    requires FirstCodeFrom(buffer, ptr) == FirstCodeFrom(buffer, from)
    ensures Open(buffer, units, ptr, total)
  {}

  lemma OpenNext(buffer: seq<Byte>, units: seq<Unit>, ptr: nat, total: seq<Unit>)
    requires ptr < |buffer| && CodeAt(buffer, ptr) > 0 && Open(buffer, units, ptr, total)
    ensures units != [] ==> units[|units| - 1].data <= ptr
    ensures var data := ptr + CodeAt(buffer, ptr);
            Open(buffer, Closed(units, ptr) + [Unit(data, 0)], data, total)
  {
    hide Parse, CodeAt, FirstCodeFrom, Closed;
    var data := ptr + CodeAt(buffer, ptr);
    var next := FirstCodeFrom(buffer, data);
    CodeHere(buffer, ptr, CodeAt(buffer, ptr));
    ParseHere(buffer, ptr);
    ClosedSnoc(Closed(units, ptr), data, next);
    Shuffle(Closed(units, ptr), [Unit(data, next - data)], Parse(buffer, next));
  }

  lemma ParseHere(s: seq<Byte>, p: nat)
    requires p < |s| && CodeAt(s, p) > 0
    ensures var data := p + CodeAt(s, p);
            Parse(s, p) == [Unit(data, FirstCodeFrom(s, data) - data)] + Parse(s, FirstCodeFrom(s, data))
  {
    hide CodeAt, FirstCodeFrom;
  }

  lemma ClosedSnoc(units: seq<Unit>, data: nat, ptr: nat)
    requires data <= ptr
    ensures (units + [Unit(data, 0)])[|units|].data <= ptr
    ensures Closed(units + [Unit(data, 0)], ptr) == units + [Unit(data, ptr - data)]
  {}

  lemma Shuffle(a: seq<Unit>, b: seq<Unit>, c: seq<Unit>)
    ensures a + (b + c) == (a + b) + c
  {}

  lemma OpenEnd(buffer: seq<Byte>, units: seq<Unit>, total: seq<Unit>)
    requires Open(buffer, units, |buffer|, total)
    ensures units != [] ==> units[|units| - 1].data <= |buffer|
    ensures Closed(units, |buffer|) == total
  {
    hide Closed;
    assert Closed(units, |buffer|) + [] == Closed(units, |buffer|);
  }
}
