/** Requests and segments of the DMA FIFO (simplessd/util/fifo.cc): how a request is cut into segments, and how
    much room a segment takes. */
module FifoModel {
  import opened Helpers

  datatype Request = Request(addr: nat, size: nat, buffer: nat, context: nat)

  /** A FIFOEntry. Buffer 0 is the null pointer. */
  datatype Segment = Segment(last: bool, id: nat, addr: nat, size: nat, buffer: nat, context: nat, insertEndAt: nat)

  function Whole(r: Request): Segment {
    Segment(true, 0, r.addr, r.size, r.buffer, r.context, 0)
  }

  // ---- room --------------------------------------------------------------------------------

  /** The requests that are taken: empty ones are ignored. */
  function Accepted(rs: seq<Request>): seq<Request> {
    if rs == [] then []
    else Accepted(rs[..|rs| - 1]) + if rs[|rs| - 1].size == 0 then [] else [rs[|rs| - 1]]
  }

  lemma AcceptedNext(rs: seq<Request>, n: nat)
    requires n < |rs|
    ensures Accepted(rs[..n + 1]) == Accepted(rs[..n]) + if rs[n].size == 0 then [] else [rs[n]]
  {
    assert rs[..n + 1][..n] == rs[..n];
  }

  /** calcSize: whole transfer units, except for a segment smaller than one. */
  function CalcSize(size: nat, unit: nat): nat
    requires 0 < unit
  {
    if size < unit then size else (size - 1 + unit) / unit * unit
  }

  lemma {:induction false} CalcSizeBounds(size: nat, unit: nat)
    requires 0 < unit
    ensures size <= CalcSize(size, unit)
    ensures CalcSize(size, unit) < size + unit
    ensures 0 < size ==> 0 < CalcSize(size, unit)
    ensures CalcSize(unit, unit) == unit
    ensures unit < CalcSize(size, unit) ==> unit < size
  {
    var q := (size - 1 + unit) / unit;
    if unit <= size {
      assert size - 1 + unit == q * unit + (size - 1 + unit) % unit;
    }
    assert (unit - 1 + unit) / unit == 1 by {
      assert unit - 1 + unit == 1 * unit + (unit - 1);
      DivModUnique(unit - 1 + unit, unit, 1, unit - 1);
    }
  }

  /** Less than a unit takes no more room than it is long, anything else at least a unit. */
  lemma UnitOrLess(size: nat, unit: nat)
    requires 0 < unit
    ensures Min(CalcSize(size, unit), unit) == if size < unit then CalcSize(size, unit) else unit
    ensures size < unit ==> CalcSize(size, unit) == size
  {
    CalcSizeBounds(size, unit);
  }

  function Room(queue: seq<Segment>, unit: nat): nat
    requires 0 < unit
  {
    if queue == [] then 0 else CalcSize(queue[0].size, unit) + Room(queue[1..], unit)
  }

  lemma {:induction false} RoomAppend(queue: seq<Segment>, s: Segment, unit: nat)
    requires 0 < unit
    ensures Room(queue + [s], unit) == Room(queue, unit) + CalcSize(s.size, unit)
  {
    if queue == [] {
    } else {
      assert (queue + [s])[1..] == queue[1..] + [s];
      RoomAppend(queue[1..], s, unit);
    }
  }

  lemma RoomFront(queue: seq<Segment>, unit: nat)
    requires 0 < unit && queue != []
    ensures Room(queue, unit) == CalcSize(queue[0].size, unit) + Room(queue[1..], unit)
  {
  }

  // ---- cutting and reassembling ------------------------------------------------------------

  function Advance(buffer: nat, bytes: nat): nat {
    if buffer == 0 then 0 else buffer + bytes
  }

  /** The first piece of a segment that is too large, and the rest of it. */
  function Head(s: Segment, unit: nat): Segment {
    s.(last := false, size := unit)
  }

  function Tail(s: Segment, unit: nat): Segment
    requires unit <= s.size
  {
    s.(last := true, addr := s.addr + unit, size := s.size - unit, buffer := Advance(s.buffer, unit))
  }

  /** The request that the segments of a partly seen one add up to so far. */
  function Joined(open: Option<Request>, s: Segment): Request {
    match open
    case None => Request(s.addr, s.size, s.buffer, s.context)
    case Some(r) => r.(size := r.size + s.size)
  }

  /** The segment starts where the partly seen request stops. */
  predicate Follows(open: Option<Request>, s: Segment) {
    match open
    case None => true
    case Some(r) => s.addr == r.addr + r.size && s.buffer == Advance(r.buffer, r.size) && s.context == r.context
  }

  /** A stream of segments that is contiguous within each request, without empty segments, the final segment of
      each request and only that one being marked `last`. */
  predicate WellCut(segs: seq<Segment>, open: Option<Request>) {
    if segs == [] then open == None
    else
      && 0 < segs[0].size
      && Follows(open, segs[0])
      && WellCut(segs[1..], if segs[0].last then None else Some(Joined(open, segs[0])))
  }

  /** The requests a stream of segments carries. */
  function Assemble(segs: seq<Segment>, open: Option<Request>): seq<Request> {
    if segs == [] then []
    else if segs[0].last then [Joined(open, segs[0])] + Assemble(segs[1..], None)
    else Assemble(segs[1..], Some(Joined(open, segs[0])))
  }

  /** The callbacks due for a stream of segments: one for each marked `last`. */
  function Callbacks(segs: seq<Segment>): seq<nat> {
    if segs == [] then []
    else if segs[0].last then [segs[0].context] + Callbacks(segs[1..])
    else Callbacks(segs[1..])
  }

  function Contexts(rs: seq<Request>): (cs: seq<nat>)
    ensures |cs| == |rs|
    ensures forall i :: 0 <= i < |rs| ==> cs[i] == rs[i].context
  {
    seq(|rs|, i requires 0 <= i < |rs| => rs[i].context)
  }

  /** Cutting a segment in two changes neither the shape of the stream nor the requests it carries. */
  lemma {:induction false} CutKeeps(before: seq<Segment>, s: Segment, after: seq<Segment>, unit: nat,
                                    open: Option<Request>)
    requires 0 < unit < s.size && s.last
    requires WellCut(before + [s] + after, open)
    ensures var cut := before + [Head(s, unit), Tail(s, unit)] + after;
      && WellCut(cut, open)
      && Assemble(cut, open) == Assemble(before + [s] + after, open)
  {
    var whole, cut := before + [s] + after, before + [Head(s, unit), Tail(s, unit)] + after;
    if before == [] {
      assert whole[1..] == after;
      assert cut[1..] == [Tail(s, unit)] + after;
      assert cut[1..][1..] == after;
    } else {
      assert whole[1..] == before[1..] + [s] + after;
      assert cut[1..] == before[1..] + [Head(s, unit), Tail(s, unit)] + after;
      CutKeeps(before[1..], s, after, unit, if before[0].last then None else Some(Joined(open, before[0])));
    }
  }

  /** A new request at the end of the stream. */
  lemma {:induction false} ArrivalKeeps(segs: seq<Segment>, r: Request, open: Option<Request>)
    requires WellCut(segs, open) && 0 < r.size
    ensures WellCut(segs + [Whole(r)], open)
    ensures Assemble(segs + [Whole(r)], open) == Assemble(segs, open) + [r]
  {
    var more := segs + [Whole(r)];
    if segs == [] {
      assert more[1..] == [];
    } else {
      assert more[1..] == segs[1..] + [Whole(r)];
      ArrivalKeeps(segs[1..], r, if segs[0].last then None else Some(Joined(open, segs[0])));
    }
  }

  /** Only ids and time stamps of the segments may differ. */
  predicate SameSegment(a: Segment, b: Segment) {
    b == a.(id := b.id, insertEndAt := b.insertEndAt)
  }

  lemma {:induction false} RelabelKeeps(before: seq<Segment>, s: Segment, t: Segment, after: seq<Segment>,
                                        open: Option<Request>)
    requires SameSegment(s, t) && WellCut(before + [s] + after, open)
    ensures WellCut(before + [t] + after, open)
    ensures Assemble(before + [t] + after, open) == Assemble(before + [s] + after, open)
  {
    if before == [] {
      assert ([s] + after)[1..] == ([t] + after)[1..] == after;
      assert before + [s] + after == [s] + after && before + [t] + after == [t] + after;
    } else {
      assert (before + [s] + after)[1..] == before[1..] + [s] + after;
      assert (before + [t] + after)[1..] == before[1..] + [t] + after;
      RelabelKeeps(before[1..], s, t, after, if before[0].last then None else Some(Joined(open, before[0])));
    }
  }

  lemma {:induction false} CallbacksSplit(a: seq<Segment>, b: seq<Segment>)
    ensures Callbacks(a + b) == Callbacks(a) + Callbacks(b)
  {
    if a == [] {
      assert a + b == b;
    } else {
      assert (a + b)[1..] == a[1..] + b;
      CallbacksSplit(a[1..], b);
    }
  }

  /** A well-cut stream owes each of its requests exactly one callback, in order. */
  lemma {:induction false} OneCallbackEach(segs: seq<Segment>, open: Option<Request>)
    requires WellCut(segs, open)
    ensures Callbacks(segs) == Contexts(Assemble(segs, open))
  {
    if segs != [] {
      OneCallbackEach(segs[1..], if segs[0].last then None else Some(Joined(open, segs[0])));
    }
  }

  lemma CallbacksOne(finished: seq<Segment>, s: Segment)
    ensures Callbacks(finished + [s]) == Callbacks(finished) + if s.last then [s.context] else []
  {
    CallbacksSplit(finished, [s]);
    assert [s][1..] == [];
  }

  /** Once part of a stream is done, the callbacks made so far are those of the first requests that arrived, in
      order of arrival and once each. */
  lemma {:induction false} CallbacksArePrefix(finished: seq<Segment>, rest: seq<Segment>, arrivals: seq<Request>)
    requires WellCut(finished + rest, None) && Assemble(finished + rest, None) == arrivals
    ensures Callbacks(finished) <= Contexts(arrivals)
    ensures rest == [] ==> Callbacks(finished) == Contexts(arrivals)
  {
    OneCallbackEach(finished + rest, None);
    CallbacksSplit(finished, rest);
    if rest == [] {
      assert finished + rest == finished;
    }
  }

  lemma Associates(a: seq<Segment>, b: seq<Segment>, s: Segment, c: seq<Segment>)
    ensures a + (b + [s]) + c == (a + b) + [s] + c
    ensures (a + [s]) + b + c == a + ([s] + b) + c
    ensures a + b + ([s] + c) == (a + b) + [s] + c
    ensures a + b + (c + [s]) == (a + b + c) + [s]
  {
  }

  /** The head of the waiting segments joins the queue, relabelled. */
  lemma PushKeeps(finished: seq<Segment>, queue: seq<Segment>, waiting: seq<Segment>, t: Segment)
    requires waiting != [] && SameSegment(waiting[0], t)
    requires WellCut(finished + queue + waiting, None)
    ensures WellCut(finished + (queue + [t]) + waiting[1..], None)
    ensures Assemble(finished + (queue + [t]) + waiting[1..], None) == Assemble(finished + queue + waiting, None)
  {
    var s, rest := waiting[0], waiting[1..];
    assert waiting == [s] + rest;
    Associates(finished, queue, s, rest);
    Associates(finished, queue, t, rest);
    RelabelKeeps(finished + queue, s, t, rest, None);
  }

  function Bytes(segs: seq<Segment>): nat {
    if segs == [] then 0 else segs[0].size + Bytes(segs[1..])
  }

  lemma BytesCut(s: Segment, rest: seq<Segment>, unit: nat)
    requires unit <= s.size
    ensures Bytes([Head(s, unit), Tail(s, unit)] + rest) == Bytes([s] + rest)
  {
    var cut := [Head(s, unit), Tail(s, unit)] + rest;
    assert ([s] + rest)[1..] == rest && cut[1..] == [Tail(s, unit)] + rest && cut[1..][1..] == rest;
  }

  /** No segment of a well-cut stream is empty. */
  lemma {:induction false} WellCutPositive(segs: seq<Segment>, open: Option<Request>, i: nat)
    requires WellCut(segs, open) && i < |segs|
    ensures 0 < segs[i].size
  {
    if i > 0 {
      WellCutPositive(segs[1..], if segs[0].last then None else Some(Joined(open, segs[0])), i - 1);
    }
  }

  // ---- how far one request is cut ----------------------------------------------------------

  /** The segments insertion makes of a segment: a transfer unit at a time while it does not fit the queue. */
  function Pieces(s: Segment, unit: nat, capacity: nat): seq<Segment>
    requires 0 < unit <= capacity
    decreases s.size
  {
    if CalcSize(s.size, unit) <= capacity then
      [s]
    else
      CalcSizeBounds(s.size, unit);
      [Head(s, unit)] + Pieces(Tail(s, unit), unit, capacity)
  }

  /** Cutting ends, and tiles the request: contiguous non-empty pieces in order that add up to it, each fitting
      the queue, all but the final one of exactly a transfer unit. */
  lemma {:induction false} PiecesTile(s: Segment, unit: nat, capacity: nat)
    requires 0 < unit <= capacity && 0 < s.size && s.last
    ensures var ps := Pieces(s, unit, capacity);
      && 0 < |ps|
      && WellCut(ps, None)
      && Assemble(ps, None) == [Request(s.addr, s.size, s.buffer, s.context)]
      && (forall i :: 0 <= i < |ps| ==> CalcSize(ps[i].size, unit) <= capacity)
      && (forall i :: 0 <= i < |ps| ==> ps[i].last == (i == |ps| - 1))
      && (forall i :: 0 <= i < |ps| - 1 ==> ps[i].size == unit && ps[i].addr == s.addr + i * unit)
      && ps[|ps| - 1].addr + ps[|ps| - 1].size == s.addr + s.size
    decreases s.size
  {
    CalcSizeBounds(s.size, unit);
    if CalcSize(s.size, unit) > capacity {
      var t := Tail(s, unit);
      PiecesTile(t, unit, capacity);
      var rest, ps := Pieces(t, unit, capacity), Pieces(s, unit, capacity);
      assert ps[1..] == rest;
      assert rest == [rest[0]] + rest[1..];
      PrependHead(s, rest, unit);
      forall i | 1 <= i < |ps|
        ensures ps[i] == rest[i - 1]
        ensures i < |ps| - 1 ==> ps[i].addr == s.addr + i * unit
      {
        assert t.addr + (i - 1) * unit == s.addr + i * unit;
      }
    } else {
      assert Pieces(s, unit, capacity)[1..] == [];
    }
  }

  function Glue(r: Request, q: Request): Request {
    Request(r.addr, r.size + q.size, r.buffer, r.context)
  }

  predicate Adjoins(r: Request, addr: nat, buffer: nat, context: nat) {
    addr == r.addr + r.size && buffer == Advance(r.buffer, r.size) && context == r.context
  }

  /** A stream that starts where r stops can be read as the continuation of r. */
  lemma {:induction false} Continues(rest: seq<Segment>, open: Option<Request>, r: Request)
    requires rest != [] && WellCut(rest, open)
    requires match open
             case None => Adjoins(r, rest[0].addr, rest[0].buffer, rest[0].context)
             case Some(q) => Adjoins(r, q.addr, q.buffer, q.context)
    ensures var o := Some(if open.None? then r else Glue(r, open.value));
      && WellCut(rest, o)
      && Assemble(rest, open) != []
      && Assemble(rest, o) == [Glue(r, Assemble(rest, open)[0])] + Assemble(rest, open)[1..]
  {
    if !rest[0].last {
      Continues(rest[1..], Some(Joined(open, rest[0])), r);
    }
  }

  lemma {:induction false} PrependHead(s: Segment, rest: seq<Segment>, unit: nat)
    requires 0 < unit < s.size && s.last
    requires WellCut(rest, None)
    requires rest != []
    requires Assemble(rest, None) == [Request(s.addr + unit, s.size - unit, Advance(s.buffer, unit), s.context)]
    requires Adjoins(Request(s.addr, unit, s.buffer, s.context), rest[0].addr, rest[0].buffer, rest[0].context)
    ensures WellCut([Head(s, unit)] + rest, None)
    ensures Assemble([Head(s, unit)] + rest, None) == [Request(s.addr, s.size, s.buffer, s.context)]
  {
    Continues(rest, None, Request(s.addr, unit, s.buffer, s.context));
    assert ([Head(s, unit)] + rest)[1..] == rest;
  }

  // ---- the pieces of a whole stream --------------------------------------------------------

  /** A segment without its label. */
  function Bare(s: Segment): Segment {
    s.(id := 0, insertEndAt := 0)
  }

  function Bares(segs: seq<Segment>): (r: seq<Segment>)
    ensures |r| == |segs|
    ensures forall i :: 0 <= i < |r| ==> r[i] == Bare(segs[i])
  {
    seq(|segs|, i requires 0 <= i < |segs| => Bare(segs[i]))
  }

  function Wholes(rs: seq<Request>): (segs: seq<Segment>)
    ensures |segs| == |rs|
    ensures forall i :: 0 <= i < |rs| ==> segs[i] == Whole(rs[i])
  {
    seq(|rs|, i requires 0 <= i < |rs| => Whole(rs[i]))
  }

  /** Every segment of the stream cut up as far as insertion cuts it. */
  function Expand(segs: seq<Segment>, unit: nat, capacity: nat): seq<Segment>
    requires 0 < unit <= capacity
  {
    if segs == [] then [] else Pieces(Bare(segs[0]), unit, capacity) + Expand(segs[1..], unit, capacity)
  }

  lemma {:induction false} ExpandSplit(a: seq<Segment>, b: seq<Segment>, unit: nat, capacity: nat)
    requires 0 < unit <= capacity
    ensures Expand(a + b, unit, capacity) == Expand(a, unit, capacity) + Expand(b, unit, capacity)
  {
    if a == [] {
      assert a + b == b;
    } else {
      assert (a + b)[1..] == a[1..] + b;
      ExpandSplit(a[1..], b, unit, capacity);
    }
  }

  lemma ExpandOne(s: Segment, unit: nat, capacity: nat)
    requires 0 < unit <= capacity
    ensures Expand([s], unit, capacity) == Pieces(Bare(s), unit, capacity)
  {
    assert Expand([s][1..], unit, capacity) == [];
  }

  lemma ExpandAround(before: seq<Segment>, mid: seq<Segment>, after: seq<Segment>, unit: nat, capacity: nat)
    requires 0 < unit <= capacity
    ensures Expand(before + mid + after, unit, capacity) ==
            Expand(before, unit, capacity) + Expand(mid, unit, capacity) + Expand(after, unit, capacity)
  {
    ExpandSplit(before + mid, after, unit, capacity);
    ExpandSplit(before, mid, unit, capacity);
  }

  /** A cut that insertion makes is one that the pieces foresee. */
  lemma CutExpands(before: seq<Segment>, s: Segment, after: seq<Segment>, unit: nat, capacity: nat)
    requires 0 < unit <= capacity && CalcSize(s.size, unit) > capacity && unit <= s.size
    ensures Expand(before + [Head(s, unit), Tail(s, unit)] + after, unit, capacity) ==
            Expand(before + [s] + after, unit, capacity)
  {
    var h, t := Head(s, unit), Tail(s, unit);
    ExpandAround(before, [s], after, unit, capacity);
    ExpandAround(before, [h, t], after, unit, capacity);
    assert [h, t] == [h] + [t];
    ExpandSplit([h], [t], unit, capacity);
    ExpandOne(s, unit, capacity);
    ExpandOne(h, unit, capacity);
    ExpandOne(t, unit, capacity);
    CalcSizeBounds(unit, unit);
    assert Bare(h) == Head(Bare(s), unit) && Bare(t) == Tail(Bare(s), unit);
  }

  lemma RelabelExpands(before: seq<Segment>, s: Segment, t: Segment, after: seq<Segment>, unit: nat, capacity: nat)
    requires 0 < unit <= capacity && SameSegment(s, t)
    ensures Expand(before + [t] + after, unit, capacity) == Expand(before + [s] + after, unit, capacity)
  {
    ExpandAround(before, [s], after, unit, capacity);
    ExpandAround(before, [t], after, unit, capacity);
    ExpandOne(s, unit, capacity);
    ExpandOne(t, unit, capacity);
  }

  /** Segments that fit are pieces already. */
  lemma {:induction false} ExpandFitting(segs: seq<Segment>, unit: nat, capacity: nat)
    requires 0 < unit <= capacity && forall s :: s in segs ==> CalcSize(s.size, unit) <= capacity
    ensures Expand(segs, unit, capacity) == Bares(segs)
  {
    if segs != [] {
      ExpandFitting(segs[1..], unit, capacity);
      assert segs[0] in segs;
      assert Bares(segs) == [Bare(segs[0])] + Bares(segs[1..]);
    }
  }

  lemma ArrivalExpands(segs: seq<Segment>, rs: seq<Request>, r: Request, unit: nat, capacity: nat)
    requires 0 < unit <= capacity && Expand(segs, unit, capacity) == Expand(Wholes(rs), unit, capacity)
    ensures Expand(segs + [Whole(r)], unit, capacity) == Expand(Wholes(rs + [r]), unit, capacity)
  {
    assert Wholes(rs + [r]) == Wholes(rs) + [Whole(r)];
    ExpandSplit(segs, [Whole(r)], unit, capacity);
    ExpandSplit(Wholes(rs), [Whole(r)], unit, capacity);
  }

  lemma PushExpands(finished: seq<Segment>, queue: seq<Segment>, waiting: seq<Segment>, t: Segment, unit: nat,
                    capacity: nat)
    requires 0 < unit <= capacity && waiting != [] && SameSegment(waiting[0], t)
    ensures Expand(finished + (queue + [t]) + waiting[1..], unit, capacity) ==
            Expand(finished + queue + waiting, unit, capacity)
  {
    var s, rest := waiting[0], waiting[1..];
    assert waiting == [s] + rest;
    Associates(finished, queue, s, rest);
    Associates(finished, queue, t, rest);
    RelabelExpands(finished + queue, s, t, rest, unit, capacity);
  }
}
