/** The host interface's bookkeeping (simplessd/hil/hil.cc): device busy time, and the one event that completes
    finished requests. */
module HilModel {
  import opened Helpers

  // ---- busy time ---------------------------------------------------------------------------

  /** The ticks begin .. end - 1 during which a request was served. */
  datatype Span = Span(begin: nat, end: nat)

  function Ticks(begin: nat, end: nat): (r: set<nat>)
    ensures forall t: nat :: t in r <==> begin <= t < end
    decreases end
  {
    if begin < end then Ticks(begin, end - 1) + {end - 1} else {}
  }

  lemma {:induction false} TicksCount(begin: nat, end: nat)
    ensures |Ticks(begin, end)| == if begin < end then end - begin else 0
    decreases end
  {
    if begin < end {
      TicksCount(begin, end - 1);
    }
  }

  /** Every tick in which some request was served. */
  function Covered(spans: seq<Span>): set<nat> {
    if spans == [] then {}
    else Covered(spans[..|spans| - 1]) + Ticks(spans[|spans| - 1].begin, spans[|spans| - 1].end)
  }

  datatype Tally = Tally(busy: nat, last: nat)

  /** One update: what lies before the latest end seen so far is taken as counted. */
  function Update(t: Tally, s: Span): Tally
    requires s.begin <= s.end
  {
    if s.end <= t.last then t
    else Tally(t.busy + (if s.begin < t.last then s.end - t.last else s.end - s.begin), s.end)
  }

  ghost predicate Forward(spans: seq<Span>) {
    forall i :: 0 <= i < |spans| ==> spans[i].begin <= spans[i].end
  }

  function Total(spans: seq<Span>): Tally
    requires Forward(spans)
  {
    if spans == [] then Tally(0, 0) else Update(Total(spans[..|spans| - 1]), spans[|spans| - 1])
  }

  /** The ticks of a span that had not been served before, though a later one had ended already. */
  ghost function Missed(spans: seq<Span>): set<nat>
    requires spans != [] && Forward(spans)
  {
    var before, s := spans[..|spans| - 1], spans[|spans| - 1];
    Ticks(s.begin, Min(s.end, Total(before).last)) - Covered(before)
  }

  /** What the n-th span missed. */
  ghost function MissedAt(spans: seq<Span>, n: nat): set<nat>
    requires Forward(spans) && 0 < n <= |spans|
  {
    Missed(spans[..n])
  }

  ghost function AllMissed(spans: seq<Span>): nat
    requires Forward(spans)
  {
    if spans == [] then 0 else AllMissed(spans[..|spans| - 1]) + |Missed(spans)|
  }

  /** Nothing is served after the latest end. */
  lemma {:induction false} CoveredBelow(spans: seq<Span>)
    requires Forward(spans)
    ensures forall t :: t in Covered(spans) ==> t < Total(spans).last
  {
    if spans != [] {
      CoveredBelow(spans[..|spans| - 1]);
    }
  }

  lemma SplitCount(a: set<nat>, b: set<nat>, c: set<nat>)
    requires a !! b && a !! c && b !! c
    ensures |a + b + c| == |a| + |b| + |c|
  {
    assert |a + b| == |a| + |b|;
  }

  /** The busy time is the number of ticks in which something was served, less exactly those missed. */
  lemma {:induction false} BusyCountsTicks(spans: seq<Span>)
    requires Forward(spans)
    ensures Total(spans).busy + AllMissed(spans) == |Covered(spans)|
  {
    if spans != [] {
      var before, s := spans[..|spans| - 1], spans[|spans| - 1];
      var c, last := Covered(before), Total(before).last;
      BusyCountsTicks(before);
      CoveredBelow(before);
      hide Ticks;
      NewTicks(c, s, last);
      var newly := Ticks(Max(s.begin, last), s.end);
      TicksCount(Max(s.begin, last), s.end);
      SplitCount(c, Missed(spans), newly);
    }
  }

  /** What a span adds to the ticks covered: those missed, and those past the latest end so far. */
  lemma NewTicks(c: set<nat>, s: Span, last: nat)
    requires s.begin <= s.end && forall t :: t in c ==> t < last
    ensures var missed, newly := Ticks(s.begin, Min(s.end, last)) - c, Ticks(Max(s.begin, last), s.end);
      c + Ticks(s.begin, s.end) == c + missed + newly && c !! missed && c !! newly && missed !! newly
  {
    hide Ticks;
    var missed, newly := Ticks(s.begin, Min(s.end, last)) - c, Ticks(Max(s.begin, last), s.end);
    assert c + Ticks(s.begin, s.end) == c + missed + newly;
  }

  ghost predicate NonDecreasingBegins(spans: seq<Span>) {
    forall i, j :: 0 <= i < j < |spans| ==> spans[i].begin <= spans[j].begin
  }

  /** Some span ends at the latest end. */
  lemma {:induction false} LastIsAnEnd(spans: seq<Span>)
    requires Forward(spans) && Total(spans).last != 0
    ensures exists i :: 0 <= i < |spans| && spans[i].end == Total(spans).last
    decreases |spans|
  {
    var n := |spans| - 1;
    if spans[n].end != Total(spans).last {
      LastIsAnEnd(spans[..n]);
      var i :| 0 <= i < n && spans[..n][i].end == Total(spans[..n]).last;
      assert spans[i].end == Total(spans).last;
    }
  }

  lemma {:induction false} SpanIsCovered(spans: seq<Span>, i: nat)
    requires i < |spans|
    ensures Ticks(spans[i].begin, spans[i].end) <= Covered(spans)
    decreases |spans|
  {
    if i < |spans| - 1 {
      assert spans[..|spans| - 1][i] == spans[i];
      SpanIsCovered(spans[..|spans| - 1], i);
    }
  }

  /** When requests begin in order nothing is missed, overlaps and nesting included: the busy time is exactly the
      number of ticks in which something was served. */
  lemma {:induction false} BusyIsExactInOrder(spans: seq<Span>)
    requires Forward(spans) && NonDecreasingBegins(spans)
    ensures Total(spans).busy == |Covered(spans)| && AllMissed(spans) == 0
    decreases |spans|
  {
    if spans != [] {
      var before, s := spans[..|spans| - 1], spans[|spans| - 1];
      BusyIsExactInOrder(before);
      if Total(before).last != 0 {
        LastIsAnEnd(before);
        var i :| 0 <= i < |before| && before[i].end == Total(before).last;
        assert spans[i].begin <= s.begin;
        SpanIsCovered(before, i);
      }
      assert Missed(spans) == {};
    }
    BusyCountsTicks(spans);
  }

  /** In any order: the busy time is exact if and only if no request serves ticks that were idle before although a
      later tick was not. */
  lemma {:induction false} BusyIsExactIff(spans: seq<Span>)
    requires Forward(spans)
    ensures Total(spans).busy == |Covered(spans)| <==>
              forall n :: 0 < n <= |spans| ==> MissedAt(spans, n) == {}
    ensures Total(spans).busy <= |Covered(spans)|
  {
    hide MissedAt, AllMissed, Total, Covered;
    BusyCountsTicks(spans);
    AllMissedIsZeroIff(spans, |spans|);
    assert spans[..|spans|] == spans;
  }

  /** Out of order something can be missed: a request served from 0 to 2 but reported after one from 5 to 6. */
  lemma {:induction false} BusyCanMiss()
    ensures Total([Span(5, 6), Span(0, 2)]).busy == 1 && |Covered([Span(5, 6), Span(0, 2)])| == 3
  {
    hide Ticks;
    var one, two := [Span(5, 6)], [Span(5, 6), Span(0, 2)];
    assert one[..0] == [] && two[..1] == one;
    assert Total(one) == Tally(1, 6) && Covered(one) == Ticks(5, 6);
    hide Covered;
    CoversMore(one, Span(0, 2));
    TicksCount(5, 6);
    TicksCount(0, 2);
    SplitCount(Ticks(5, 6), Ticks(0, 2), {});
    assert Ticks(5, 6) + Ticks(0, 2) + {} == Covered(two);
  }

  lemma CoversMore(spans: seq<Span>, s: Span)
    ensures Covered(spans + [s]) == Covered(spans) + Ticks(s.begin, s.end)
  {
    assert (spans + [s])[..|spans|] == spans;
  }

  lemma AllMissedStep(spans: seq<Span>, n: nat)
    requires Forward(spans) && n <= |spans|
    ensures AllMissed(spans[..n]) == if n == 0 then 0 else AllMissed(spans[..n - 1]) + |MissedAt(spans, n)|
  {
    hide Missed;
    if n > 0 {
      assert spans[..n][..n - 1] == spans[..n - 1];
    }
  }

  lemma {:induction false} AllMissedIsZeroIff(spans: seq<Span>, n: nat)
    requires Forward(spans) && n <= |spans|
    ensures AllMissed(spans[..n]) == 0 <==> forall m :: 0 < m <= n ==> MissedAt(spans, m) == {}
  {
    hide MissedAt, AllMissed, Missed, Total, Covered;
    AllMissedStep(spans, n);
    if n > 0 {
      AllMissedIsZeroIff(spans, n - 1);
    }
  }

  // ---- completion --------------------------------------------------------------------------

  datatype Request = Request(id: nat, finishedAt: nat)

  ghost predicate IsTop(q: seq<Request>, k: nat) {
    k < |q| && forall i :: 0 <= i < |q| ==> q[k].finishedAt <= q[i].finishedAt
  }

  function Earliest(q: seq<Request>): (m: nat)
    requires q != []
    ensures exists i :: 0 <= i < |q| && q[i].finishedAt == m
    ensures forall i :: 0 <= i < |q| ==> m <= q[i].finishedAt
  {
    if |q| == 1 then q[0].finishedAt else Min(q[0].finishedAt, Earliest(q[1..]))
  }

  /** The remembered tick and the scheduled one. The engine takes a time in the past as now. */
  datatype Alarm = Alarm(lastScheduled: nat, eventAt: Option<nat>)

  function UpdateCompletion(a: Alarm, q: seq<Request>, now: nat): Alarm {
    if q != [] && a.lastScheduled != Earliest(q) then Alarm(Earliest(q), Some(Max(Earliest(q), now))) else a
  }

  /** The event is scheduled for the earliest finish whenever anything is waiting. */
  ghost predicate Armed(a: Alarm, q: seq<Request>) {
    if q == [] then a.eventAt.None? else a.lastScheduled == Earliest(q) && a.eventAt == Some(Earliest(q))
  }

  /** A request that finishes no earlier than now keeps the alarm set right, if and only if it does not finish at the
      very tick last scheduled with nothing else waiting. */
  lemma ArmedIff(a: Alarm, q: seq<Request>, r: Request, now: nat)
    requires Armed(a, q) && now <= r.finishedAt
    ensures Armed(UpdateCompletion(a, q + [r], now), q + [r]) <==> !(q == [] && r.finishedAt == a.lastScheduled)
    ensures q == [] && r.finishedAt == a.lastScheduled ==> Stuck(UpdateCompletion(a, q + [r], now), q + [r])
  {
    EarliestOfMore(q, r);
  }

  lemma EarliestOfMore(q: seq<Request>, r: Request)
    ensures Earliest(q + [r]) == if q == [] then r.finishedAt else Min(Earliest(q), r.finishedAt)
  {
    var m := q + [r];
    assert m[|q|] == r;
    if q == [] {
      assert m == [r];
    } else {
      var i :| 0 <= i < |q| && q[i].finishedAt == Earliest(q);
      assert m[i] == q[i];
      var j :| 0 <= j < |m| && m[j].finishedAt == Earliest(m);
      assert j < |q| ==> m[j] == q[j];
    }
  }

  /** Requests wait and nothing is scheduled that would complete them. */
  ghost predicate Stuck(a: Alarm, q: seq<Request>) {
    q != [] && a.eventAt.None? && a.lastScheduled == Earliest(q)
  }

  /** A request that finishes before the stuck ones, and it alone, brings the alarm back. */
  lemma RescuedIff(a: Alarm, q: seq<Request>, r: Request, now: nat)
    requires Stuck(a, q) && now <= r.finishedAt
    ensures var b := UpdateCompletion(a, q + [r], now);
      if r.finishedAt < a.lastScheduled then Armed(b, q + [r]) else Stuck(b, q + [r])
  {
    EarliestOfMore(q, r);
  }

  function AllPushed(a: Alarm, q: seq<Request>, more: seq<Request>, now: nat): (Alarm, seq<Request>)
    decreases |more|
  {
    if more == [] then (a, q)
    else AllPushed(UpdateCompletion(a, q + [more[0]], now), q + [more[0]], more[1..], now)
  }

  /** A lost wake-up is lost for good: as long as no request finishes before the one that is stuck, and none can once
      its tick has passed, no further request schedules the event either. */
  lemma {:induction false} StuckForever(a: Alarm, q: seq<Request>, more: seq<Request>, now: nat)
    requires Stuck(a, q) && forall i :: 0 <= i < |more| ==> a.lastScheduled <= more[i].finishedAt
    ensures var r := AllPushed(a, q, more, now);
      Stuck(r.0, r.1) && r.1 == q + more && r.0 == a
    decreases |more|
  {
    if more == [] {
      assert q + more == q;
    } else {
      StillStuck(a, q, more[0], now);
      hide Stuck, UpdateCompletion;
      StuckForever(a, q + [more[0]], more[1..], now);
      assert q + [more[0]] + more[1..] == q + more;
    }
  }

  lemma StillStuck(a: Alarm, q: seq<Request>, r: Request, now: nat)
    requires Stuck(a, q) && a.lastScheduled <= r.finishedAt
    ensures UpdateCompletion(a, q + [r], now) == a && Stuck(a, q + [r])
  {
    EarliestOfMore(q, r);
  }

  /** It does happen: the very first request, if it finishes at tick 0. */
  lemma FirstRequestAtZero(r: Request)
    requires r.finishedAt == 0
    ensures Stuck(UpdateCompletion(Alarm(0, None), [r], 0), [r])
  {
  }
}
