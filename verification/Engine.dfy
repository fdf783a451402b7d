/** Class Engine (sim/engine.cc): the event list is scanned and changed in place. Each call is proved to do what the
    function of the same name in EngineModel says, for every state the engine can be in. The functions that events
    carry are left to the caller: DoNextEvent returns the entry whose function is called, and whatever that function
    does to the engine are further calls. */
module Engine {
  import opened Helpers
  import opened EngineModel

  class Engine {
    var simTick: nat
    var counter: nat
    var forceStop: bool
    var eventList: set<nat>
    var eventQueue: seq<Entry>
    var eventHandled: nat
    ghost var stamps: map<nat, nat>
    ghost var stamp: nat

    ghost function View(): State
      reads this
    {
      State(simTick, counter, eventQueue, eventList, forceStop, stamps, stamp)
    }

    constructor ()
      ensures Valid(View()) && View() == State(0, 0, [], {}, false, map[], 0) && eventHandled == 0
    {
      simTick, counter, forceStop, eventList, eventQueue, eventHandled := 0, 0, false, {}, [], 0;
      stamps, stamp := map[], 0;
    }

    /** One pass finds where the event is and where it belongs. */
    method Scan(eid: nat, tick: nat) returns (found: bool, oldTick: nat, at: nat, insert: nat)
      requires Unique(eventQueue)
      ensures Find(eventQueue, eid) == if found then Some(at) else None
      ensures found ==> Entry(eid, oldTick) == eventQueue[at]
      ensures insert == Position(eventQueue, tick)
    {
      found, oldTick, at, insert := false, 0, 0, |eventQueue|;
      var flag := false;
      var i := 0;
      while i < |eventQueue|
        invariant i <= |eventQueue| && insert <= |eventQueue|
        invariant found ==> at < i && eventQueue[at] == Entry(eid, oldTick)
        invariant !found ==> forall j :: 0 <= j < i ==> eventQueue[j].event != eid
        invariant if flag then insert < i && tick < eventQueue[insert].tick else insert == |eventQueue|
        invariant forall j :: 0 <= j < i && (flag ==> j < insert) ==> eventQueue[j].tick <= tick
      {
        if eventQueue[i].event == eid {
          found := true;
          at := i;
          oldTick := eventQueue[i].tick;
        }
        if eventQueue[i].tick > tick && !flag {
          insert := i;
          flag := true;
        }
        i := i + 1;
      }
      FoundAt(eventQueue, eid, found, at);
      FirstLater(eventQueue, tick, insert);
    }

    /** Insert, then erase. An event that is due at that tick already stays where it is. */
    method InsertEvent(eid: nat, tick: nat) returns (found: bool, oldTick: nat)
      requires Unique(eventQueue)
      modifies `eventQueue
      ensures eventQueue == Insert(old(eventQueue), eid, tick)
      ensures found <==> Find(old(eventQueue), eid).Some? && Entry(eid, tick) !in old(eventQueue)
      ensures found ==> Entry(eid, oldTick) in old(eventQueue)
    {
      hide Find, Position, Unique;
      var at, insert;
      found, oldTick, at, insert := Scan(eid, tick);
      QueuedIff(eventQueue, eid, tick);
      if found && oldTick == tick {
        return false, oldTick;
      }
      eventQueue := eventQueue[..insert] + [Entry(eid, tick)] + eventQueue[insert..];
      if found {
        var erase := if at < insert then at else at + 1;
        eventQueue := eventQueue[..erase] + eventQueue[erase + 1..];
      }
    }

    method RemoveEvent(eid: nat) returns (found: bool)
      modifies `eventQueue
      ensures eventQueue == Remove(old(eventQueue), eid)
      ensures found <==> Find(old(eventQueue), eid).Some?
    {
      var i := 0;
      while i < |eventQueue|
        invariant i <= |eventQueue| && forall j :: 0 <= j < i ==> eventQueue[j].event != eid
        invariant eventQueue == old(eventQueue)
      {
        if eventQueue[i].event == eid {
          FoundFirst(eventQueue, eid, i);
          eventQueue := eventQueue[..i] + eventQueue[i + 1..];
          return true;
        }
        i := i + 1;
      }
      return false;
    }

    /** Whether an event is queued, and for when. */
    method IsScheduled(eid: nat) returns (panic: bool, ret: bool, tick: nat)
      ensures panic <==> eid !in eventList
      ensures !panic ==> (ret <==> exists t :: Entry(eid, t) in eventQueue)
      ensures !panic && ret ==> Entry(eid, tick) in eventQueue
    {
      panic, ret, tick := false, false, 0;
      if eid !in eventList {
        return true, false, 0;
      }
      var i := 0;
      while i < |eventQueue|
        invariant i <= |eventQueue| && forall j :: 0 <= j < i ==> eventQueue[j].event != eid
      {
        if eventQueue[i].event == eid {
          assert Entry(eid, eventQueue[i].tick) in eventQueue;
          return false, true, eventQueue[i].tick;
        }
        i := i + 1;
      }
    }

    /** Event numbers are never used twice, so allocation does not fail. */
    method AllocateEvent() returns (panic: bool, eid: nat)
      requires Valid(View())
      modifies this
      ensures !panic && eid !in old(eventList) && eid in eventList
      ensures Done(View(), None) == EngineModel.AllocateEvent(old(View()))
      ensures Valid(View())
    {
      StepKeeps(View(), Allocate);
      counter := counter + 1;
      eid := counter;
      if eid in eventList {
        return true, eid;
      }
      eventList := eventList + {eid};
      return false, eid;
    }

    /** A time in the past is taken as now. */
    method ScheduleEvent(eid: nat, tick: nat) returns (panic: bool)
      requires Valid(View())
      modifies this
      ensures panic <==> eid !in old(eventList)
      ensures if panic then View() == old(View())
              else Done(View(), None) == EngineModel.ScheduleEvent(old(View()), eid, tick)
      ensures Valid(View())
    {
      StepKeeps(View(), Schedule(eid, tick));
      if eid !in eventList {
        return true;
      }
      var at := tick;
      if tick < simTick {
        at := simTick;
      }
      if Entry(eid, at) !in eventQueue {
        stamps, stamp := stamps[eid := stamp], stamp + 1;
      } else {
        QueuedIsFound(eventQueue, eid, at);
      }
      var found, oldTick := InsertEvent(eid, at);
      return false;
    }

    method DescheduleEvent(eid: nat) returns (panic: bool)
      requires Valid(View())
      modifies this
      ensures panic <==> eid !in old(eventList)
      ensures if panic then View() == old(View())
              else Done(View(), None) == EngineModel.DescheduleEvent(old(View()), eid)
      ensures Valid(View())
    {
      StepKeeps(View(), Deschedule(eid));
      if eid !in eventList {
        return true;
      }
      var found := RemoveEvent(eid);
      return false;
    }

    method DeallocateEvent(eid: nat) returns (panic: bool)
      requires Valid(View())
      modifies this
      ensures panic <==> eid !in old(eventList)
      ensures if panic then View() == old(View())
              else Done(View(), None) == EngineModel.DeallocateEvent(old(View()), eid)
      ensures Valid(View())
    {
      StepKeeps(View(), Deallocate(eid));
      if eid !in eventList {
        return true;
      }
      var found := RemoveEvent(eid);
      eventList := eventList - {eid};
      return false;
    }

    /** Whenever anything is queued and the engine is not stopped, the event due first is called at its tick. */
    method DoNextEvent() returns (panic: bool, ret: bool, now: Option<Entry>)
      requires Valid(View())
      modifies this
      ensures !panic && (ret <==> now.Some?) && (ret <==> !old(forceStop) && old(eventQueue) != [])
      ensures Done(View(), now) == EngineModel.DoNextEvent(old(View()))
      ensures ret ==> now.value.tick == simTick && now.value.event in eventList
      ensures Valid(View()) && eventHandled == old(eventHandled) + if ret then 1 else 0
    {
      StepKeeps(View(), Next);
      if forceStop {
        return false, false, None;
      }
      if |eventQueue| > 0 {
        var front := eventQueue[0];
        simTick := front.tick;
        eventQueue := eventQueue[1..];
        if front.event !in eventList {
          return true, false, None;
        }
        eventHandled := eventHandled + 1;
        return false, true, Some(front);
      }
      return false, false, None;
    }

    method StopEngine()
      requires Valid(View())
      modifies `forceStop
      ensures Done(View(), None) == Step(old(View()), Stop) && Valid(View())
    {
      forceStop := true;
    }
  }

  lemma FoundFirst(q: seq<Entry>, e: nat, i: nat)
    requires i < |q| && q[i].event == e && forall j :: 0 <= j < i ==> q[j].event != e
    ensures Find(q, e) == Some(i)
  {
    var f := Find(q, e);
    assert f.Some? ==> q[f.value].event == e;
  }

  lemma FoundAt(q: seq<Entry>, e: nat, found: bool, at: nat)
    requires Unique(q) && if found then at < |q| && q[at].event == e else forall j :: 0 <= j < |q| ==> q[j].event != e
    ensures Find(q, e) == if found then Some(at) else None
  {
    if found {
      FoundFirst(q, e, at);
    }
  }

  lemma FirstLater(q: seq<Entry>, t: nat, k: nat)
    requires k <= |q| && (k < |q| ==> t < q[k].tick) && forall j :: 0 <= j < k ==> q[j].tick <= t
    ensures Position(q, t) == k
  {
    var p := Position(q, t);
    assert p < |q| ==> t < q[p].tick;
  }

  lemma QueuedIff(q: seq<Entry>, e: nat, t: nat)
    requires Unique(q)
    ensures Entry(e, t) in q <==> Find(q, e).Some? && q[Find(q, e).value].tick == t
  {
    if Entry(e, t) in q {
      var i :| 0 <= i < |q| && q[i] == Entry(e, t);
      FoundAt(q, e, true, i);
    } else if Find(q, e).Some? {
      assert q[Find(q, e).value] in q;
    }
  }

  lemma QueuedIsFound(q: seq<Entry>, e: nat, t: nat)
    requires Unique(q) && Entry(e, t) in q
    ensures Insert(q, e, t) == q
  {
    var i :| 0 <= i < |q| && q[i] == Entry(e, t);
    FoundAt(q, e, true, i);
  }
}
