/** The discrete-event scheduler (sim/engine.cc): what each call does to the event queue, and what every run keeps. */
module EngineModel {
  import opened Helpers

  datatype Entry = Entry(event: nat, tick: nat)

  /** `stamp` counts the calls that put an event in the queue, and `stamps` says which one put each queued event
      where it is; the rest are the fields of the engine. */
  datatype State = State(
    now: nat, counter: nat, queue: seq<Entry>, registered: set<nat>, stopped: bool,
    stamps: map<nat, nat>, stamp: nat)

  /** The first entry that is due later than tick t. */
  function Position(q: seq<Entry>, t: nat): (k: nat)
    ensures k <= |q|
    ensures forall i :: 0 <= i < k ==> q[i].tick <= t
    ensures k < |q| ==> t < q[k].tick
  {
    if q == [] || q[0].tick > t then 0 else 1 + Position(q[1..], t)
  }

  function Find(q: seq<Entry>, e: nat): (r: Option<nat>)
    ensures r.Some? ==> r.value < |q| && q[r.value].event == e
    ensures forall i :: 0 <= i < (if r.Some? then r.value else |q|) ==> q[i].event != e
  {
    if q == [] then None
    else if q[0].event == e then Some(0)
    else
      var r := Find(q[1..], e);
      if r.Some? then Some(r.value + 1) else None
  }

  function RemoveAt(q: seq<Entry>, i: nat): seq<Entry>
    requires i < |q|
  {
    q[..i] + q[i + 1..]
  }

  function InsertAt(q: seq<Entry>, k: nat, x: Entry): seq<Entry>
    requires k <= |q|
  {
    q[..k] + [x] + q[k..]
  }

  function Remove(q: seq<Entry>, e: nat): seq<Entry> {
    var i := Find(q, e);
    if i.Some? then RemoveAt(q, i.value) else q
  }

  /** Put the event before the first entry due later, then erase where it was; an event already due then stays. */
  function Insert(q: seq<Entry>, e: nat, t: nat): seq<Entry> {
    var i, k := Find(q, e), Position(q, t);
    if i.Some? && q[i.value].tick == t then q
    else
      var q' := InsertAt(q, k, Entry(e, t));
      if i.Some? then RemoveAt(q', if i.value < k then i.value else i.value + 1) else q'
  }

  // ---- calls -------------------------------------------------------------------------------

  datatype Call =
    | Allocate | Schedule(e: nat, t: nat) | Deschedule(e: nat) | Deallocate(e: nat) | Next | Stop

  /** A call panics, or leaves a state and possibly dispatches an entry. */
  datatype Outcome = Panic | Done(s: State, dispatched: Option<Entry>)

  function AllocateEvent(s: State): Outcome {
    if s.counter + 1 in s.registered then Panic
    else Done(s.(counter := s.counter + 1, registered := s.registered + {s.counter + 1}), None)
  }

  function ScheduleEvent(s: State, e: nat, t: nat): Outcome {
    if e !in s.registered then Panic
    else
      var at := Max(t, s.now);
      if Entry(e, at) in s.queue then Done(s, None)
      else Done(s.(queue := Insert(s.queue, e, at), stamps := s.stamps[e := s.stamp], stamp := s.stamp + 1), None)
  }

  function DescheduleEvent(s: State, e: nat): Outcome {
    if e !in s.registered then Panic else Done(s.(queue := Remove(s.queue, e)), None)
  }

  function DeallocateEvent(s: State, e: nat): Outcome {
    if e !in s.registered then Panic
    else Done(s.(queue := Remove(s.queue, e), registered := s.registered - {e}), None)
  }

  /** Take the front entry and call its function. What the function does are further calls. */
  function DoNextEvent(s: State): Outcome {
    if s.stopped || s.queue == [] then Done(s, None)
    else
      var front := s.queue[0];
      if front.event !in s.registered then Panic
      else Done(s.(now := front.tick, queue := s.queue[1..]), Some(front))
  }

  function Step(s: State, c: Call): Outcome {
    match c
    case Allocate => AllocateEvent(s)
    case Schedule(e, t) => ScheduleEvent(s, e, t)
    case Deschedule(e) => DescheduleEvent(s, e)
    case Deallocate(e) => DeallocateEvent(s, e)
    case Next => DoNextEvent(s)
    case Stop => Done(s.(stopped := true), None)
  }

  // ---- the invariant -----------------------------------------------------------------------

  ghost predicate Unique(q: seq<Entry>) {
    forall i, j :: 0 <= i < j < |q| ==> q[i].event != q[j].event
  }

  ghost predicate Stamped(q: seq<Entry>, stamps: map<nat, nat>, stamp: nat) {
    forall i :: 0 <= i < |q| ==> q[i].event in stamps && stamps[q[i].event] < stamp
  }

  /** a fires before b: it is due earlier, or at the same tick and was scheduled earlier. */
  predicate Before(a: Entry, aStamp: nat, b: Entry, bStamp: nat) {
    a.tick < b.tick || (a.tick == b.tick && aStamp < bStamp)
  }

  ghost predicate Sorted(q: seq<Entry>, stamps: map<nat, nat>, stamp: nat)
    requires Stamped(q, stamps, stamp)
  {
    forall i, j :: 0 <= i < j < |q| ==> Before(q[i], stamps[q[i].event], q[j], stamps[q[j].event])
  }

  ghost predicate Valid(s: State) {
    && Unique(s.queue)
    && Stamped(s.queue, s.stamps, s.stamp)
    && Sorted(s.queue, s.stamps, s.stamp)
    && (forall i :: 0 <= i < |s.queue| ==> s.now <= s.queue[i].tick && s.queue[i].event in s.registered)
    && (forall e :: e in s.registered ==> e <= s.counter)
  }

  /** What a call demands of its caller: the event exists. */
  predicate Allowed(s: State, c: Call) {
    (c.Schedule? || c.Deschedule? || c.Deallocate?) ==> c.e in s.registered
  }

  lemma RemoveKeeps(q: seq<Entry>, i: nat, stamps: map<nat, nat>, stamp: nat)
    requires i < |q| && Unique(q) && Stamped(q, stamps, stamp) && Sorted(q, stamps, stamp)
    ensures var r := RemoveAt(q, i);
      && Unique(r) && Stamped(r, stamps, stamp) && Sorted(r, stamps, stamp)
      && (forall x :: x in r <==> x in q && x != q[i])
      && (forall x :: x in r ==> x.event != q[i].event)
  {
    var r := RemoveAt(q, i);
    forall k | 0 <= k < |r|
      ensures r[k] == q[if k < i then k else k + 1] && r[k].event != q[i].event && r[k] in q
    {
    }
    forall x | x in q && x != q[i]
      ensures x in r
    {
      var k :| 0 <= k < |q| && q[k] == x;
      assert r[if k < i then k else k - 1] == x;
    }
  }

  /** A new entry goes where it belongs: after everything due no later, before everything due later. */
  lemma InsertKeeps(q: seq<Entry>, k: nat, x: Entry, stamps: map<nat, nat>, stamp: nat)
    requires k <= |q| && Unique(q) && Stamped(q, stamps, stamp) && Sorted(q, stamps, stamp)
    requires forall i :: 0 <= i < |q| ==> q[i].event != x.event
    requires forall i :: 0 <= i < |q| ==> if i < k then q[i].tick <= x.tick else x.tick < q[i].tick
    ensures var r, stamps' := InsertAt(q, k, x), stamps[x.event := stamp];
      && Unique(r) && Stamped(r, stamps', stamp + 1) && Sorted(r, stamps', stamp + 1)
      && (forall y :: y in r <==> y in q || y == x)
  {
    var r, stamps' := InsertAt(q, k, x), stamps[x.event := stamp];
    forall i | 0 <= i < |r|
      ensures r[i] == (if i < k then q[i] else if i == k then x else q[i - 1])
    {
    }
    assert r[k] == x;
    forall y | y in q
      ensures y in r
    {
      var i :| 0 <= i < |q| && q[i] == y;
      assert r[if i < k then i else i + 1] == y;
    }
    forall i, j | 0 <= i < j < |r|
      ensures r[i].event != r[j].event && Before(r[i], stamps'[r[i].event], r[j], stamps'[r[j].event])
    {
    }
  }

  lemma PositionIs(q: seq<Entry>, t: nat, k: nat)
    requires k <= |q| && forall i :: 0 <= i < |q| ==> if i < k then q[i].tick <= t else t < q[i].tick
    ensures Position(q, t) == k
  {
    var p := Position(q, t);
    assert k < |q| ==> t < q[k].tick;
  }

  /** In a sorted queue, inserting and then erasing is the same as erasing and then inserting. */
  lemma InsertIsRemoveThenInsert(q: seq<Entry>, e: nat, t: nat, stamps: map<nat, nat>, stamp: nat)
    requires Unique(q) && Stamped(q, stamps, stamp) && Sorted(q, stamps, stamp) && Entry(e, t) !in q
    ensures var r := Remove(q, e);
      Insert(q, e, t) == InsertAt(r, Position(r, t), Entry(e, t))
  {
    hide Position, Find;
    var r, i, k := Remove(q, e), Find(q, e), Position(q, t);
    forall j | k < j < |q|
      ensures t < q[j].tick
    {
      assert Before(q[k], stamps[q[k].event], q[j], stamps[q[j].event]);
    }
    if i.Some? {
      RemoveInsertCommute(q, i.value, k, Entry(e, t));
      PositionWithout(q, i.value, k, t);
    }
  }

  lemma RemoveInsertCommute(q: seq<Entry>, i: nat, k: nat, x: Entry)
    requires i < |q| && k <= |q|
    ensures RemoveAt(InsertAt(q, k, x), if i < k then i else i + 1) ==
            InsertAt(RemoveAt(q, i), if i < k then k - 1 else k, x)
  {
  }

  lemma PositionWithout(q: seq<Entry>, i: nat, k: nat, t: nat)
    requires i < |q| && k <= |q| && forall j :: 0 <= j < |q| ==> if j < k then q[j].tick <= t else t < q[j].tick
    ensures Position(RemoveAt(q, i), t) == if i < k then k - 1 else k
  {
    PositionIs(RemoveAt(q, i), t, if i < k then k - 1 else k);
  }

  /** The whole effect of scheduling on the queue. */
  lemma {:induction false} ScheduleKeeps(s: State, e: nat, t: nat)
    requires Valid(s) && e in s.registered && s.now <= t && Entry(e, t) !in s.queue
    ensures var q, stamps := Insert(s.queue, e, t), s.stamps[e := s.stamp];
      && Unique(q) && Stamped(q, stamps, s.stamp + 1) && Sorted(q, stamps, s.stamp + 1)
      && (forall x :: x in q <==> x == Entry(e, t) || (x in s.queue && x.event != e))
  {
    var i := Find(s.queue, e);
    if i.Some? {
      RemoveKeeps(s.queue, i.value, s.stamps, s.stamp);
    }
    var r := Remove(s.queue, e);
    InsertIsRemoveThenInsert(s.queue, e, t, s.stamps, s.stamp);
    var k := Position(r, t);
    forall j | k < j < |r|
      ensures t < r[j].tick
    {
      assert Before(r[k], s.stamps[r[k].event], r[j], s.stamps[r[j].event]);
    }
    InsertKeeps(r, k, Entry(e, t), s.stamps, s.stamp);
  }

  /** Every call keeps the invariant, and none that names existing events panics; in particular neither dispatching
      nor allocating ever does. */
  lemma {:induction false} StepKeeps(s: State, c: Call)
    requires Valid(s)
    ensures Step(s, c).Panic? <==> !Allowed(s, c)
    ensures Step(s, c).Done? ==> Valid(Step(s, c).s) && s.now <= Step(s, c).s.now
  {
    hide Find, Position, Insert, Unique, Stamped, Sorted, Remove;
    match c
    case Schedule(e, t) =>
      if e in s.registered && Entry(e, Max(t, s.now)) !in s.queue {
        ScheduleValid(s, e, Max(t, s.now));
      }
    case Deschedule(e) =>
      RemovalKeeps(s, e);
    case Deallocate(e) =>
      RemovalKeeps(s, e);
    case Next =>
      if s.queue != [] {
        FrontLeaves(s);
      }
    case _ =>
  }

  lemma ScheduleValid(s: State, e: nat, t: nat)
    requires Valid(s) && e in s.registered && s.now <= t && Entry(e, t) !in s.queue
    ensures Valid(s.(queue := Insert(s.queue, e, t), stamps := s.stamps[e := s.stamp], stamp := s.stamp + 1))
  {
    hide Insert, Unique, Stamped, Sorted;
    ScheduleKeeps(s, e, t);
    var q := Insert(s.queue, e, t);
    forall i | 0 <= i < |q|
      ensures s.now <= q[i].tick && q[i].event in s.registered
    {
      assert q[i] in q;
    }
  }

  lemma FrontLeaves(s: State)
    requires Valid(s) && s.queue != []
    ensures Valid(s.(now := s.queue[0].tick, queue := s.queue[1..]))
  {
    RemoveKeeps(s.queue, 0, s.stamps, s.stamp);
    assert RemoveAt(s.queue, 0) == s.queue[1..];
  }

  lemma RemovalKeeps(s: State, e: nat)
    requires Valid(s)
    ensures var q := Remove(s.queue, e);
      && Unique(q) && Stamped(q, s.stamps, s.stamp) && Sorted(q, s.stamps, s.stamp)
      && (forall i :: 0 <= i < |q| ==> s.now <= q[i].tick && q[i].event in s.registered && q[i].event != e)
      && (forall x :: x in q <==> x in s.queue && x.event != e)
  {
    var f := Find(s.queue, e);
    if f.Some? {
      RemoveKeeps(s.queue, f.value, s.stamps, s.stamp);
    }
    var q := Remove(s.queue, e);
    forall i | 0 <= i < |q|
      ensures s.now <= q[i].tick && q[i].event in s.registered && q[i].event != e
    {
      assert q[i] in q;
    }
  }

  // ---- runs --------------------------------------------------------------------------------

  /** Calls that each name an existing event when they are made. */
  ghost predicate AllowedRun(s: State, calls: seq<Call>)
    decreases |calls|
  {
    calls != [] ==>
      && Allowed(s, calls[0])
      && (Step(s, calls[0]).Done? ==> AllowedRun(Step(s, calls[0]).s, calls[1..]))
  }

  /** One dispatched event, with the number of the call that had put it in the queue. */
  datatype Firing = Firing(entry: Entry, stamp: nat)

  /** The events dispatched during a run, in order; None if the run panics. */
  ghost function Fired(s: State, calls: seq<Call>): Option<seq<Firing>>
    requires Valid(s)
    decreases |calls|
  {
    if calls == [] then Some([])
    else
      match Step(s, calls[0])
      case Panic => None
      case Done(u, d) =>
        StepKeeps(s, calls[0]);
        var rest := Fired(u, calls[1..]);
        if rest.None? then None
        else if d.None? then rest
        else if d.value.event in s.stamps then Some([Firing(d.value, s.stamps[d.value.event])] + rest.value)
        else None
  }

  ghost predicate After(fired: seq<Firing>, x: Entry, stamp: nat) {
    forall i :: 0 <= i < |fired| ==> Before(x, stamp, fired[i].entry, fired[i].stamp)
  }

  /** Everything queued now and everything that will be queued later comes after the entry (x, stamp). */
  ghost predicate AllAfter(s: State, x: Entry, stamp: nat)
    requires Valid(s)
  {
    && stamp < s.stamp && x.tick <= s.now
    && forall i :: 0 <= i < |s.queue| ==> Before(x, stamp, s.queue[i], s.stamps[s.queue[i].event])
  }

  lemma {:induction false} StepStaysAfter(s: State, c: Call, x: Entry, stamp: nat)
    requires Valid(s) && AllAfter(s, x, stamp) && Step(s, c).Done? && Valid(Step(s, c).s)
    ensures AllAfter(Step(s, c).s, x, stamp)
  {
    hide Find, Position, Insert, Unique, Sorted;
    match c
    case Schedule(e, t) =>
      var at := Max(t, s.now);
      if Entry(e, at) !in s.queue {
        ScheduleKeeps(s, e, at);
        var u := Step(s, c).s;
        forall i | 0 <= i < |u.queue|
          ensures Before(x, stamp, u.queue[i], u.stamps[u.queue[i].event])
        {
          assert u.queue[i] in u.queue;
        }
      }
    case Deschedule(e) => RemovalStaysAfter(s, e, x, stamp);
    case Deallocate(e) => RemovalStaysAfter(s, e, x, stamp);
    case _ =>
  }

  lemma RemovalStaysAfter(s: State, e: nat, x: Entry, stamp: nat)
    requires Valid(s) && AllAfter(s, x, stamp)
    ensures forall y :: y in Remove(s.queue, e) ==> y in s.queue && Before(x, stamp, y, s.stamps[y.event])
  {
    RemovalKeeps(s, e);
  }

  lemma {:induction false} FiredAfter(s: State, calls: seq<Call>, x: Entry, stamp: nat)
    requires Valid(s) && AllAfter(s, x, stamp) && Fired(s, calls).Some?
    ensures After(Fired(s, calls).value, x, stamp)
    decreases |calls|
  {
    hide Sorted, Unique, Step;
    if calls != [] {
      StepKeeps(s, calls[0]);
      StepStaysAfter(s, calls[0], x, stamp);
      FiredAfter(Step(s, calls[0]).s, calls[1..], x, stamp);
      if Step(s, calls[0]).dispatched.Some? {
        DispatchIsFront(s, calls[0]);
      }
    }
  }

  lemma DispatchIsFront(s: State, c: Call)
    requires Valid(s) && Step(s, c).Done? && Step(s, c).dispatched.Some?
    ensures s.queue != [] && Step(s, c).dispatched.value == s.queue[0]
  {
  }

  /** Right after a dispatch everything queued comes after it. */
  lemma FrontIsFirst(s: State)
    requires Valid(s) && s.queue != [] && !s.stopped && Step(s, Next).Done?
    ensures Valid(Step(s, Next).s)
    ensures AllAfter(Step(s, Next).s, s.queue[0], s.stamps[s.queue[0].event])
  {
    StepKeeps(s, Next);
  }

  /** Whatever calls are made, by callbacks or by others, events fire in order of their ticks, and those due at the
      same tick in the order in which they were scheduled. */
  lemma {:induction false} FiresInOrder(s: State, calls: seq<Call>)
    requires Valid(s) && Fired(s, calls).Some?
    ensures var f := Fired(s, calls).value;
      && (forall i, j :: 0 <= i < j < |f| ==> Before(f[i].entry, f[i].stamp, f[j].entry, f[j].stamp))
      && (forall i :: 0 <= i < |f| ==> s.now <= f[i].entry.tick)
    decreases |calls|
  {
    hide Sorted, Unique, AllAfter, Stamped;
    if calls != [] {
      StepKeeps(s, calls[0]);
      var u := Step(s, calls[0]).s;
      FiresInOrder(u, calls[1..]);
      if Step(s, calls[0]).dispatched.Some? {
        DispatchIsFront(s, calls[0]);
        FrontIsFirst(s);
        FiredAfter(u, calls[1..], s.queue[0], s.stamps[s.queue[0].event]);
      }
    }
  }

  /** A run in which every call names an existing event never panics: the front of the queue is always registered. */
  lemma {:induction false} NeverPanics(s: State, calls: seq<Call>)
    requires Valid(s) && AllowedRun(s, calls)
    ensures Fired(s, calls).Some?
    decreases |calls|
  {
    hide Sorted, Unique;
    if calls != [] {
      StepKeeps(s, calls[0]);
      NeverPanics(Step(s, calls[0]).s, calls[1..]);
      if Step(s, calls[0]).dispatched.Some? {
        DispatchIsFront(s, calls[0]);
      }
    }
  }

  ghost function Final(s: State, calls: seq<Call>): State
    requires Valid(s)
    decreases |calls|
  {
    if calls == [] || Step(s, calls[0]).Panic? then s
    else
      StepKeeps(s, calls[0]);
      Final(Step(s, calls[0]).s, calls[1..])
  }

  predicate Touches(c: Call, e: nat) {
    (c.Schedule? || c.Deschedule? || c.Deallocate?) && c.e == e
  }

  function Count(fired: seq<Firing>, e: nat): nat {
    if fired == [] then 0 else (if fired[0].entry.event == e then 1 else 0) + Count(fired[1..], e)
  }

  /** One call that does not concern event e leaves its entry alone, or is the call that dispatches it. */
  lemma {:induction false} OthersLeaveIt(s: State, c: Call, e: nat)
    requires Valid(s) && !Touches(c, e) && Step(s, c).Done?
    ensures var d, u := Step(s, c).dispatched, Step(s, c).s;
      && (forall t :: Entry(e, t) in u.queue <==> Entry(e, t) in s.queue && d != Some(Entry(e, t)))
      && (d.Some? ==> d.value in s.queue)
  {
    hide Find, Position, Insert, Sorted, Remove;
    match c
    case Schedule(f, t) =>
      if Entry(f, Max(t, s.now)) !in s.queue {
        ScheduleKeeps(s, f, Max(t, s.now));
      }
    case Deschedule(f) => RemovalKeeps(s, f);
    case Deallocate(f) => RemovalKeeps(s, f);
    case Next =>
      if s.queue != [] {
        RemoveKeeps(s.queue, 0, s.stamps, s.stamp);
        assert RemoveAt(s.queue, 0) == s.queue[1..];
      }
    case _ =>
  }

  /** No event is lost or repeated: one that is queued for tick t, and that no later call concerns, fires exactly
      once and at tick t, or is still queued for t. One that is not queued does not fire. */
  lemma {:induction false} FiresOnceWhenDue(s: State, calls: seq<Call>, e: nat)
    requires Valid(s) && Fired(s, calls).Some? && forall c :: c in calls ==> !Touches(c, e)
    ensures var f := Fired(s, calls).value;
      && (forall t :: Entry(e, t) in s.queue ==>
            if Entry(e, t) in Final(s, calls).queue then Count(f, e) == 0
            else Count(f, e) == 1 && exists i :: 0 <= i < |f| && f[i].entry == Entry(e, t))
      && ((forall t :: Entry(e, t) !in s.queue) ==>
            Count(f, e) == 0 && forall t :: Entry(e, t) !in Final(s, calls).queue)
    decreases |calls|
  {
    hide Sorted, Step;
    if calls != [] {
      var c, rest := calls[0], calls[1..];
      StepKeeps(s, c);
      OthersLeaveIt(s, c, e);
      var u, d := Step(s, c).s, Step(s, c).dispatched;
      FiresOnceWhenDue(u, rest, e);
      var g := Fired(u, rest).value;
      var f := Fired(s, calls).value;
      if d.Some? {
        assert f[1..] == g && f[0].entry == d.value;
        forall i | 0 <= i < |g|
          ensures f[i + 1] == g[i]
        {
        }
      }
      forall t | Entry(e, t) in s.queue
        ensures if Entry(e, t) in Final(s, calls).queue then Count(f, e) == 0
                else Count(f, e) == 1 && exists i :: 0 <= i < |f| && f[i].entry == Entry(e, t)
      {
        OnlyEntry(s, e, t);
      }
    }
  }

  /** An event has one entry. */
  lemma OnlyEntry(s: State, e: nat, t: nat)
    requires Valid(s) && Entry(e, t) in s.queue
    ensures forall t' :: Entry(e, t') in s.queue ==> t' == t
  {
  }
}
