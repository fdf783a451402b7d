/** Class HIL (simplessd/hil/hil.cc): busy times and the completion of requests. `now` is the current tick and
    `eventAt` the tick the completion event is scheduled for; the engine fires it then. */
module Hil {
  import opened Helpers
  import opened HilModel

  class BusyTimes {
    const busy: array<nat>
    const lastBusyAt: array<nat>
    ghost var spans: seq<seq<Span>>   // everything reported since the counters were cleared, per index

    ghost predicate Valid()
      reads this, busy, lastBusyAt
    {
      && busy.Length == lastBusyAt.Length == |spans| == 3 && busy != lastBusyAt
      && (forall i :: 0 <= i < 3 ==> Forward(spans[i]) && Tally(busy[i], lastBusyAt[i]) == Total(spans[i]))
    }

    constructor ()
      ensures Valid() && spans == [[], [], []] && fresh(busy) && fresh(lastBusyAt)
    {
      busy := new nat[3](_ => 0);
      lastBusyAt := new nat[3](_ => 0);
      spans := [[], [], []];
    }

    /** Reads are index 0, writes index 1, everything index 2. */
    method UpdateBusyTime(idx: nat, begin: nat, end: nat)
      requires Valid() && idx < 3 && begin <= end
      modifies this, busy, lastBusyAt
      ensures Valid() && spans == old(spans)[idx := old(spans)[idx] + [Span(begin, end)]]
      ensures NonDecreasingBegins(spans[idx]) ==> busy[idx] == |Covered(spans[idx])|
    {
      hide Total, Covered, Forward, NonDecreasingBegins;
      ghost var was, s := spans[idx], Span(begin, end);
      ghost var more := was + [s];
      spans := spans[idx := more];
      assert forall i :: 0 <= i < 3 && i != idx ==> spans[i] == old(spans)[i];
      Step(was, s);
      assert more == was + [s];
      if end <= lastBusyAt[idx] {
      } else {
        if begin < lastBusyAt[idx] {
          busy[idx] := busy[idx] + end - lastBusyAt[idx];
        } else {
          busy[idx] := busy[idx] + end - begin;
        }
        lastBusyAt[idx] := end;
      }
      if NonDecreasingBegins(more) {
        BusyIsExactInOrder(more);
      }
    }
  }

  lemma Step(spans: seq<Span>, s: Span)
    requires Forward(spans) && s.begin <= s.end
    ensures Forward(spans + [s]) && Total(spans + [s]) == Update(Total(spans), s)
  {
    assert (spans + [s])[..|spans|] == spans;
  }

  /** A request whose callback has been made, and when. */
  datatype Call = Call(request: Request, at: nat)

  function Requests(calls: seq<Call>): multiset<Request> {
    if calls == [] then multiset{} else Requests(calls[..|calls| - 1]) + multiset{calls[|calls| - 1].request}
  }

  /** Everything in the lists, as often as it occurs. */
  function AllOf(lists: seq<seq<Request>>): multiset<Request> {
    if lists == [] then multiset{} else AllOf(lists[..|lists| - 1]) + multiset(lists[|lists| - 1])
  }

  lemma NothingOf(lists: seq<seq<Request>>)
    ensures AllOf(lists[..0]) == multiset{}
  {
  }

  lemma OneMoreList(lists: seq<seq<Request>>, n: nat)
    requires n < |lists|
    ensures AllOf(lists[..n + 1]) == AllOf(lists[..n]) + multiset(lists[n])
  {
    assert lists[..n + 1][..n] == lists[..n];
  }

  class Hil {
    var now: nat
    var lastScheduled: nat
    var eventAt: Option<nat>
    var completionQueue: seq<Request>
    ghost var pushed: multiset<Request>
    ghost var called: seq<Call>

    ghost function View(): Alarm
      reads this
    {
      Alarm(lastScheduled, eventAt)
    }

    /** Every request is either still queued or has been called, exactly as often as it was pushed. */
    ghost predicate Balanced()
      reads `pushed, `completionQueue, `called
    {
      pushed == multiset(completionQueue) + Requests(called)
    }

    /** Each was called at its own finish tick, and so in order of these. */
    ghost predicate CalledOnTime()
      reads `now, `called
    {
      && (forall i :: 0 <= i < |called| ==> called[i].at == called[i].request.finishedAt <= now)
      && (forall i, j :: 0 <= i < j < |called| ==> called[i].at <= called[j].at)
    }

    /** The others finish now or later. */
    ghost predicate Timely()
      reads `now, `completionQueue, `called
    {
      CalledOnTime() && forall i :: 0 <= i < |completionQueue| ==> now <= completionQueue[i].finishedAt
    }

    ghost predicate Valid()
      reads this
    {
      && Balanced() && Timely() && Armed(View(), completionQueue)
      && (completionQueue == [] ==> lastScheduled <= now)
    }

    /** The wake-up has been lost: requests wait that nothing will complete. */
    ghost predicate Lost()
      reads this
    {
      Balanced() && CalledOnTime() && Stuck(View(), completionQueue)
    }

    /** A request that finishes after now is always safe to push. */
    lemma LaterIsSafe(r: Request)
      requires Valid() && now < r.finishedAt
      ensures completionQueue == [] ==> r.finishedAt != lastScheduled
      ensures Armed(HilModel.UpdateCompletion(View(), completionQueue + [r], now), completionQueue + [r])
    {
      hide Earliest, Requests, Armed, HilModel.UpdateCompletion;
      ArmedIff(View(), completionQueue, r, now);
    }

    constructor ()
      ensures Valid() && pushed == multiset{} && called == []
    {
      now, lastScheduled, eventAt, completionQueue := 0, 0, None, [];
      pushed, called := multiset{}, [];
    }

    /** The clock moves, but never past the event. */
    method Advance(t: nat)
      requires (Valid() || Lost()) && now <= t && (eventAt.Some? ==> t <= eventAt.value)
      modifies `now
      ensures now == t && (if old(Valid()) then Valid() else Lost())
    {
      hide Balanced, Earliest;
      now := t;
    }

    method UpdateCompletion()
      modifies `lastScheduled, `eventAt
      ensures View() == HilModel.UpdateCompletion(old(View()), completionQueue, now)
    {
      if |completionQueue| > 0 {
        var top := Top();
        if lastScheduled != completionQueue[top].finishedAt {
          lastScheduled := completionQueue[top].finishedAt;
          eventAt := Some(Max(lastScheduled, now));
        }
      }
    }

    /** The priority queue's top: some request that finishes first. */
    method Top() returns (k: nat)
      requires completionQueue != []
      ensures IsTop(completionQueue, k) && completionQueue[k].finishedAt == Earliest(completionQueue)
    {
      k := 0;
      var i := 1;
      while i < |completionQueue|
        invariant i <= |completionQueue| && k < i
        invariant forall j :: 0 <= j < i ==> completionQueue[k].finishedAt <= completionQueue[j].finishedAt
      {
        if completionQueue[i].finishedAt < completionQueue[k].finishedAt {
          k := i;
        }
        i := i + 1;
      }
    }

    /** What a served request does at the end: queue itself, and see that the event is scheduled. The wake-up is lost
        exactly when nothing else waits and the request finishes at the tick last scheduled, and stays lost until a
        request comes that finishes earlier. */
    method Push(r: Request)
      requires (Valid() || Lost()) && now <= r.finishedAt
      modifies this`completionQueue, this`pushed, this`lastScheduled, this`eventAt
      ensures Valid() || Lost()
      ensures Lost() <==> if old(Lost()) then old(lastScheduled) <= r.finishedAt
                          else old(completionQueue) == [] && r.finishedAt == old(lastScheduled)
      ensures completionQueue == old(completionQueue) + [r] && pushed == old(pushed) + multiset{r}
    {
      Exclusive();
      hide Earliest, HilModel.UpdateCompletion, Armed, Stuck, Balanced, CalledOnTime;
      if Lost() {
        RescuedIff(View(), completionQueue, r, now);
        StuckBefore(View(), completionQueue);
      } else {
        ArmedIff(View(), completionQueue, r, now);
      }
      Enqueue(r);
      UpdateCompletion();
      ExclusiveAlarm(View(), completionQueue);
    }

    method Enqueue(r: Request)
      requires Balanced()
      modifies this`completionQueue, this`pushed
      ensures Balanced() && completionQueue == old(completionQueue) + [r] && pushed == old(pushed) + multiset{r}
    {
      hide Requests;
      completionQueue := completionQueue + [r];
      pushed := pushed + multiset{r};
    }

    lemma Exclusive()
      ensures Valid() && completionQueue != [] ==> eventAt.Some? && !Lost()
      ensures Lost() ==> completionQueue != [] && eventAt.None? && !Valid()
    {
    }

    /** The same from inside a callback, while the request called back is still queued: its finish tick is the one
        last scheduled, so the event is left alone. */
    method PushInside(r: Request, ghost top: nat)
      requires Balanced() && Timely() && eventAt.None? && now <= r.finishedAt && now == lastScheduled
      requires top < |completionQueue| && completionQueue[top].finishedAt == now
      modifies this
      ensures Balanced() && Timely() && eventAt.None? && now == old(now) == lastScheduled && called == old(called)
      ensures completionQueue == old(completionQueue) + [r] && pushed == old(pushed) + multiset{r}
    {
      hide Earliest, Requests;
      completionQueue := completionQueue + [r];
      pushed := pushed + multiset{r};
      assert completionQueue[top].finishedAt == now;
      EarliestIs(completionQueue, top);
      UpdateCompletion();
    }

    /** The completion event fires: every request that finishes now is called and removed, with any that the
        callbacks add for now; `more` is what each callback in turn has served. Nothing else is pushed and nothing is
        forgotten: what was waiting, and what the callbacks made have added, is called or still waits. */
    method Completion(more: seq<seq<Request>>)
      requires Valid() && eventAt == Some(now)
      requires forall k, i :: 0 <= k < |more| && 0 <= i < |more[k]| ==> now <= more[k][i].finishedAt
      modifies this
      ensures Valid() && now == old(now) && old(called) < called
      ensures forall i :: 0 <= i < |completionQueue| ==> now < completionQueue[i].finishedAt
      ensures forall i :: |old(called)| <= i < |called| ==> called[i].at == now
      ensures pushed == old(pushed) + AllOf(more[..Min(|more|, |called| - |old(called)|)])
    {
      hide Earliest, Requests, AllOf;
      assert completionQueue != [] && Earliest(completionQueue) == now == lastScheduled;
      eventAt := None;
      CallDue(more);
      UpdateCompletion();
    }

    method CallDue(more: seq<seq<Request>>)
      requires Balanced() && Timely() && eventAt.None? && now == lastScheduled
      requires completionQueue != [] && Earliest(completionQueue) == now
      requires forall k, i :: 0 <= k < |more| && 0 <= i < |more[k]| ==> now <= more[k][i].finishedAt
      modifies this
      ensures Balanced() && Timely() && eventAt.None? && now == old(now) == lastScheduled && old(called) < called
      ensures forall i :: 0 <= i < |completionQueue| ==> now < completionQueue[i].finishedAt
      ensures forall i :: |old(called)| <= i < |called| ==> called[i].at == now
      ensures pushed == old(pushed) + AllOf(more[..Min(|more|, |called| - |old(called)|)])
    {
      hide Earliest, Requests, AllOf, Balanced, CalledOnTime;
      NothingOf(more);
      var j := 0;
      ghost var calls := called;
      while |completionQueue| > 0
        invariant Balanced() && Timely() && eventAt.None? && now == old(now) == lastScheduled
        invariant calls <= called && (calls == called ==> completionQueue != [] && Earliest(completionQueue) == now)
        invariant forall i :: |calls| <= i < |called| ==> called[i].at == now
        invariant j == Min(|more|, |called| - |calls|) && pushed == old(pushed) + AllOf(more[..j])
        decreases |more| - j, |completionQueue|
      {
        var top := Top();
        if completionQueue[top].finishedAt <= now {
          if j < |more| {
            OneMoreList(more, j);
            CallAndPop(top, more[j]);
            j := j + 1;
          } else {
            CallAndPop(top, []);
          }
        } else {
          break;
        }
      }
    }

    method CallAndPop(top: nat, next: seq<Request>)
      requires Balanced() && Timely() && eventAt.None? && now == lastScheduled
      requires top < |completionQueue| && completionQueue[top].finishedAt == now
      requires forall i :: 0 <= i < |next| ==> now <= next[i].finishedAt
      modifies this
      ensures Balanced() && Timely() && eventAt.None? && now == old(now) == lastScheduled
      ensures called == old(called) + [Call(old(completionQueue)[top], now)]
      ensures |completionQueue| == |old(completionQueue)| + |next| - 1
      ensures pushed == old(pushed) + multiset(next)
    {
      hide Requests, Balanced, Timely;
      var req := completionQueue[top];
      var i := 0;
      while i < |next|
        invariant i <= |next| && Balanced() && Timely() && eventAt.None? && now == old(now) == lastScheduled
        invariant called == old(called) && |completionQueue| == |old(completionQueue)| + i
        invariant completionQueue[top] == req && pushed == old(pushed) + multiset(next[..i])
      {
        assert next[..i + 1] == next[..i] + [next[i]];
        PushInside(next[i], top);
        i := i + 1;
      }
      assert next[..i] == next;
      Pop(top);
    }

    method Pop(top: nat)
      requires Balanced() && Timely() && top < |completionQueue| && completionQueue[top].finishedAt == now
      modifies `called, `completionQueue
      ensures Balanced() && Timely() && called == old(called) + [Call(old(completionQueue)[top], now)]
      ensures |completionQueue| == |old(completionQueue)| - 1
    {
      hide Requests;
      var req := completionQueue[top];
      Popped(completionQueue, top);
      OneCall(called, Call(req, now));
      called := called + [Call(req, now)];
      completionQueue := completionQueue[..top] + completionQueue[top + 1..];
    }
  }

  lemma Popped(q: seq<Request>, k: nat)
    requires k < |q|
    ensures multiset(q) == multiset(q[..k] + q[k + 1..]) + multiset{q[k]}
  {
    assert q == q[..k] + [q[k]] + q[k + 1..];
  }

  lemma OneCall(calls: seq<Call>, c: Call)
    ensures Requests(calls + [c]) == Requests(calls) + multiset{c.request}
  {
    assert (calls + [c])[..|calls|] == calls;
  }

  lemma EarliestIs(q: seq<Request>, k: nat)
    requires IsTop(q, k)
    ensures Earliest(q) == q[k].finishedAt
  {
  }

  lemma StuckBefore(a: Alarm, q: seq<Request>)
    requires Stuck(a, q)
    ensures forall i :: 0 <= i < |q| ==> a.lastScheduled <= q[i].finishedAt
  {
  }

  lemma ExclusiveAlarm(a: Alarm, q: seq<Request>)
    ensures !(Armed(a, q) && Stuck(a, q))
  {
  }
}
