/** The write pipeline of class FIFO (simplessd/util/fifo.cc): insertion into the queue, then transfer upstream.
    Each method is one event handler, or a request arriving; an event that is scheduled is the tick it fires at.
    `now` is the current tick. Upstream reports each transfer by an event of its own, so `dmaBusy` stands for the
    outstanding one. */
module FifoWrite {
  import opened Helpers
  import opened FifoModel

  class WriteFifo {
    const wqSize: nat
    const unit: nat            // transferUnit
    const latency: nat -> nat

    var usage: int
    var waitQueue: seq<Segment>
    var transferQueue: seq<Segment>
    var insertPending: bool
    var transferPending: bool
    var insertDoneAt: Option<nat>
    var beginTransferAt: Option<nat>
    var submitAt: Option<nat>
    var dmaBusy: bool

    ghost var arrivals: seq<Request>   // every request accepted
    ghost var finished: seq<Segment>   // every segment that has left the queue
    var called: seq<nat>               // the contexts called back so far
    ghost var finishing: bool          // inside transferWriteDoneNext, before the front is popped

    /** Everything accepted, in order: done, in the queue, waiting. A segment being inserted is both at the head
        of the wait queue and past it. */
    ghost function Stream(): seq<Segment>
      requires insertPending ==> waitQueue != []
      reads this`finished, this`transferQueue, this`waitQueue, this`insertPending
    {
      finished + transferQueue + waitQueue[if insertPending then 1 else 0..]
    }

    ghost predicate Fits(s: Segment)
      requires 0 < unit
    {
      CalcSize(s.size, unit) <= wqSize
    }

    /** The stream carries exactly the requests that arrived, cut where their pieces are, and a callback has been made
        for each that is done. */
    ghost predicate Carries(stream: seq<Segment>)
      requires 0 < unit <= wqSize
      reads this`arrivals, this`called, this`finished
    {
      && WellCut(stream, None) && Assemble(stream, None) == arrivals && called == Callbacks(finished)
      && Expand(stream, unit, wqSize) == Expand(Wholes(arrivals), unit, wqSize)
    }

    ghost predicate Conserved()
      requires 0 < unit <= wqSize
      reads this`finished, this`transferQueue, this`waitQueue, this`insertPending, this`arrivals, this`called
    {
      && (forall i :: 0 <= i < |finished| ==> Fits(finished[i]))
      && (forall i :: 0 <= i < |transferQueue| ==> Fits(transferQueue[i]))
      && (insertPending ==> waitQueue != [] && Fits(waitQueue[0]))
      && Carries(Stream())
      && (forall i :: 1 <= i < |waitQueue| ==> waitQueue[i].last)
    }

    /** No request was too large for the queue. */
    ghost predicate AllFit()
      requires 0 < unit
      reads this`arrivals
    {
      forall r :: r in arrivals ==> CalcSize(r.size, unit) <= wqSize
    }

    ghost predicate Wired()
      requires 0 < unit
      reads this`usage, this`transferQueue, this`insertPending, this`insertDoneAt, this`transferPending,
            this`beginTransferAt, this`submitAt, this`dmaBusy, this`finishing, this`arrivals, this`waitQueue
    {
      && usage == Room(transferQueue, unit)
      && (insertPending <==> insertDoneAt.Some?)
      && (transferPending ==> transferQueue != [])
      && (transferQueue != [] ==> transferPending || beginTransferAt.Some?)
      && (beginTransferAt.Some? ==> (if transferPending then 1 else 0) < |transferQueue|)
      && (submitAt.Some? ==> transferPending && !dmaBusy && !finishing)
      && (dmaBusy ==> transferPending && !finishing)
      && (finishing ==> transferPending)
      && (transferPending ==> dmaBusy || submitAt.Some? || finishing)
      && (AllFit() ==> usage <= wqSize && forall s :: s in waitQueue ==> Fits(s))
    }

    /** The state in the middle of a handler, when insertion may still have to be tried. */
    ghost predicate Core()
      reads this
    {
      && 0 < unit <= wqSize
      && Conserved()
      && Wired()
    }

    /** A request waits only for a queue that is really full. */
    ghost predicate WaitsForRoom()
      requires 0 < unit
      reads this`waitQueue, this`insertPending, this`usage
    {
      waitQueue != [] && !insertPending ==>
        waitQueue[0].last && Fits(waitQueue[0]) && usage + CalcSize(waitQueue[0].size, unit) > wqSize
    }

    ghost predicate Valid()
      reads this
    {
      Core() && WaitsForRoom()
    }

    /** Between two events. */
    ghost predicate Ready()
      reads this
    {
      Valid() && !finishing
    }

    /** A callback made now has handed in `more`; without one nothing has arrived. */
    twostate predicate Answered(more: seq<Request>)
      reads this`called, this`arrivals
    {
      arrivals == old(arrivals) + if called == old(called) then [] else Accepted(more)
    }

    /** The front has left, and has been called back if it was the last of its request. */
    twostate predicate FrontDone()
      reads this`finished, this`called
    {
      && old(transferQueue) != []
      && finished == old(finished) + [old(transferQueue)[0]]
      && called == old(called) + if old(transferQueue)[0].last then [old(transferQueue)[0].context] else []
    }

    /** No event of the insertion side has fired: the segment being inserted is still the head, and due as it was. */
    twostate predicate KeepsInserting()
      reads this`insertPending, this`insertDoneAt, this`waitQueue, this`beginTransferAt
    {
      && (old(insertPending) ==> insertPending && insertDoneAt == old(insertDoneAt) && old(waitQueue) <= waitQueue)
      && (old(beginTransferAt.Some?) ==> beginTransferAt == old(beginTransferAt))
    }

    /** The time a segment needs downstream before its transfer may begin, and after its insertion before it is done. */
    function UnitTime(size: nat): nat {
      latency(if size < unit then size else unit)
    }

    /** The head of the wait queue goes in now: cut to a transfer unit when it is too large for the queue, or when there
        is room for it and nothing else is being inserted. */
    ghost predicate Goes(s: Segment)
      requires 0 < unit
      reads this`insertPending, this`usage
    {
      !Fits(s) || (!insertPending && usage + CalcSize(s.size, unit) <= wqSize)
    }

    /** So does the segment behind the head once the head's insertion has ended. */
    ghost predicate MayFollow(s: Segment)
      requires 0 < unit
      reads this`usage
    {
      !Fits(s) || usage + CalcSize(s.size, unit) <= wqSize
    }

    /** The head has begun to go in at tick `now`: it takes its room, its insertion ends after the latency of that, and
        the first transfer begins after that of a unit. */
    twostate predicate Inserted(now: nat)
      requires 0 < unit
      reads this`waitQueue, this`transferQueue, this`usage, this`insertDoneAt, this`beginTransferAt
    {
      && waitQueue != [] && transferQueue == old(transferQueue) + [waitQueue[0]]
      && usage == old(usage) + CalcSize(waitQueue[0].size, unit)
      && Due(now) && (old(beginTransferAt.Some?) ==> beginTransferAt == old(beginTransferAt))
      && (old(beginTransferAt.None?) ==> beginTransferAt == Some(now + UnitTime(waitQueue[0].size)))
    }

    /** The head's insertion began at tick `now`. */
    ghost predicate Due(now: nat)
      requires 0 < unit
      reads this`waitQueue, this`insertDoneAt
    {
      && waitQueue != [] && insertDoneAt == Some(waitQueue[0].insertEndAt)
      && waitQueue[0].insertEndAt == now + latency(CalcSize(waitQueue[0].size, unit))
    }

    /** Nothing has gone in. */
    twostate predicate Stays()
      reads this`transferQueue, this`usage, this`insertPending, this`insertDoneAt, this`beginTransferAt
    {
      && transferQueue == old(transferQueue) && usage == old(usage) && insertPending == old(insertPending)
      && insertDoneAt == old(insertDoneAt) && beginTransferAt == old(beginTransferAt)
    }

    /** An insertion that is new, and a transfer it has caused to be due, began at tick `now`. */
    twostate predicate Starts(now: nat)
      requires 0 < unit
      reads this`waitQueue, this`insertDoneAt, this`beginTransferAt
    {
      && (old(insertDoneAt.None?) && insertDoneAt.Some? ==> Due(now))
      && (old(beginTransferAt.None?) && beginTransferAt.Some? ==>
            Due(now) && beginTransferAt == Some(now + UnitTime(waitQueue[0].size)))
    }

    twostate predicate NoneDone()
      reads this`finished, this`called
    {
      finished == old(finished) && called == old(called)
    }

    /** What is still to be done, as a number that falls with every event: nine for each byte not yet inserted, four
        for each segment in the queue, and one for each outstanding event but the ones the front has behind it. */
    ghost function Work(): nat
      reads this`waitQueue, this`insertPending, this`transferQueue, this`insertDoneAt, this`beginTransferAt,
            this`submitAt, this`finishing, this`transferPending
    {
      9 * Bytes(waitQueue[if insertPending && waitQueue != [] then 1 else 0..]) + 4 * |transferQueue|
      + (if insertDoneAt.Some? then 1 else 0) + (if beginTransferAt.Some? then 1 else 0)
      + (if transferQueue == [] || submitAt.Some? || finishing then 0 else if transferPending then 1 else 2)
    }

    constructor (wqSize: nat, unit: nat, latency: nat -> nat)
      requires 0 < unit <= wqSize
      ensures Ready() && arrivals == [] && usage == 0 && waitQueue == []
      ensures this.wqSize == wqSize && this.unit == unit
    {
      this.wqSize, this.unit, this.latency := wqSize, unit, latency;
      usage, waitQueue, transferQueue := 0, [], [];
      insertPending, transferPending, dmaBusy := false, false, false;
      insertDoneAt, beginTransferAt, submitAt := None, None, None;
      arrivals, finished, called := [], [], [];
      finishing := false;
    }

    /** Nothing is forgotten: while anything is in flight an event is outstanding; a non-empty transfer queue has
        a transfer running or about to begin, and a waiting head that cannot be inserted faces a full queue,
        whose next departure will try again. Transfer never begins on an empty queue. */
    lemma {:induction false} NoLostWakeUp()
      requires Ready()
      ensures waitQueue != [] || transferQueue != [] ==>
                insertDoneAt.Some? || beginTransferAt.Some? || submitAt.Some? || dmaBusy
      ensures transferQueue != [] ==> dmaBusy || submitAt.Some? || beginTransferAt.Some?
      ensures waitQueue != [] && !insertPending ==>
                && usage + CalcSize(waitQueue[0].size, unit) > wqSize
                && (dmaBusy || submitAt.Some? || beginTransferAt.Some?)
      ensures beginTransferAt.Some? ==> transferQueue != []
      ensures usage == Room(transferQueue, unit)
      ensures (forall r :: r in arrivals ==> CalcSize(r.size, unit) <= wqSize) ==> usage <= wqSize
    {
      if waitQueue != [] && !insertPending {
        assert usage > 0;
      }
    }

    /** Callbacks so far are those of the first requests, once each and in order of arrival; when nothing is left
        every request has had its own. */
    lemma {:induction false} CallbacksInOrder()
      requires Ready()
      ensures called <= Contexts(arrivals)
      ensures waitQueue == [] && transferQueue == [] ==> called == Contexts(arrivals)
    {
      var rest := transferQueue + waitQueue[if insertPending then 1 else 0..];
      assert Stream() == finished + rest;
      CallbacksArePrefix(finished, rest, arrivals);
    }

    method DmaWrite(addr: nat, size: nat, buffer: nat, context: nat, now: nat)
      requires Valid()
      modifies this`usage, this`waitQueue, this`transferQueue, this`insertPending,
               this`insertDoneAt, this`beginTransferAt,
        this`arrivals
      ensures Valid() && KeepsInserting()
      ensures arrivals == if size == 0 then old(arrivals) else old(arrivals) + [Request(addr, size, buffer, context)]
      ensures old(transferQueue) <= transferQueue && Starts(now)
      ensures 0 < size && old(waitQueue) == [] && Fits(Whole(Request(addr, size, buffer, context))) ==>
                && waitQueue != [] && SameSegment(Whole(Request(addr, size, buffer, context)), waitQueue[0])
                && if old(usage) + CalcSize(size, unit) <= wqSize then Inserted(now) else Stays()
      ensures 0 < size && old(waitQueue) == [] && CalcSize(size, unit) > wqSize ==>
                && usage == old(usage) + unit && insertDoneAt.Some?
                && |waitQueue| >= 2 && waitQueue[1].size == size - unit
    {
      hide WellCut, Assemble, Callbacks, Expand, CalcSize, Room;
      if size == 0 {
        return;
      }
      Accept(Request(addr, size, buffer, context));
      InsertWrite(now);
    }

    method Accept(r: Request)
      requires Valid() && 0 < r.size
      modifies this`waitQueue, this`arrivals
      ensures Core() && waitQueue == old(waitQueue) + [Whole(r)] && arrivals == old(arrivals) + [r]
      ensures !insertPending ==> waitQueue[0].last
    {
      hide WellCut, Assemble, Callbacks, Expand, CalcSize, Room;
      ArrivalKeeps(Stream(), r, None);
      ArrivalExpands(Stream(), arrivals, r, unit, wqSize);
      ghost var waiting := waitQueue[if insertPending then 1 else 0..];
      Associates(finished, transferQueue, Whole(r), waiting);
      waitQueue := waitQueue + [Whole(r)];
      arrivals := arrivals + [r];
      MoreFit(old(arrivals), r);
      assert waitQueue[if insertPending then 1 else 0..] == waiting + [Whole(r)];
    }

    lemma MoreFit(was: seq<Request>, r: Request)
      requires 0 < unit && arrivals == was + [r]
      ensures AllFit() ==> Fits(Whole(r)) && forall x :: x in was ==> CalcSize(x.size, unit) <= wqSize
    {
      assert r in arrivals && forall x :: x in was ==> x in arrivals;
    }

    /** Tries to insert the head of the wait queue, cutting a transfer unit off it if it is too large for the
        queue. A segment that fits never overfills the queue; an oversized one goes in whether or not there is
        room. */
    method InsertWrite(now: nat)
      requires Core() && waitQueue != [] && (!insertPending ==> waitQueue[0].last)
      modifies this`usage, this`waitQueue, this`transferQueue, this`insertPending,
               this`insertDoneAt, this`beginTransferAt
      ensures Valid() && KeepsInserting() && Starts(now)
      ensures if old(Goes(waitQueue[0])) then Inserted(now) else Stays() && waitQueue == old(waitQueue)
      ensures old(Fits(waitQueue[0])) ==> SameSegment(old(waitQueue[0]), waitQueue[0])
      ensures old(transferQueue) <= transferQueue && |transferQueue| <= |old(transferQueue)| + 1
      ensures usage != old(usage) ==> (usage > wqSize <==> !old(Fits(waitQueue[0])) && old(usage) + unit > wqSize)
      ensures old(!insertPending && !Fits(waitQueue[0])) ==>
                && usage == old(usage) + unit && insertDoneAt.Some?
                && |waitQueue| >= 2 && waitQueue[1].size == old(waitQueue[0].size) - unit
      ensures Work() <= old(Work())
    {
      hide WellCut, Assemble, Callbacks, Expand, CalcSize, Room;
      var size := CalcSize(waitQueue[0].size, unit);
      if (insertPending || usage + size > wqSize) && size <= wqSize {
        return;
      }
      if size > wqSize {
        CutHead();
        CalcSizeBounds(unit, unit);
        size := CalcSize(waitQueue[0].size, unit);
      }
      PushHead(size, now);
    }

    method CutHead()
      requires Core() && waitQueue != [] && !Fits(waitQueue[0]) && waitQueue[0].last
      modifies this`waitQueue
      ensures Core() && |waitQueue| == |old(waitQueue)| + 1 && waitQueue[0].size == unit && Fits(waitQueue[0])
      ensures waitQueue[1].size == old(waitQueue[0].size) - unit && (!insertPending ==> Work() == old(Work()))
    {
      hide WellCut, Assemble, Callbacks, Expand, CalcSize, Room, Bytes;
      var s := waitQueue[0];
      CalcSizeBounds(s.size, unit);
      CalcSizeBounds(unit, unit);
      ghost var before, after := finished + transferQueue, waitQueue[1..];
      assert Stream() == before + [s] + after;
      CutKeeps(before, s, after, unit, None);
      CutExpands(before, s, after, unit, wqSize);
      BytesCut(s, after, unit);
      assert waitQueue == [s] + after && waitQueue[0..] == waitQueue;
      waitQueue := [Head(s, unit), Tail(s, unit)] + waitQueue[1..];
      assert Stream() == before + [Head(s, unit), Tail(s, unit)] + after && waitQueue[0..] == waitQueue;
    }

    /** One segment has gone from the wait queue into the queue, its insertion under way. */
    twostate predicate Pushed(size: nat)
      reads this
    {
      && old(waitQueue) != [] && waitQueue != [] && SameSegment(old(waitQueue)[0], waitQueue[0])
      && waitQueue[1..] == old(waitQueue)[1..] && transferQueue == old(transferQueue) + [waitQueue[0]]
      && (old(beginTransferAt.Some?) ==> beginTransferAt == old(beginTransferAt))
      && insertPending && insertDoneAt.Some? && beginTransferAt.Some? && usage == old(usage) + size
    }

    /** What that leaves alone. */
    twostate predicate PushedRest()
      reads this
    {
      && finished == old(finished) && arrivals == old(arrivals) && called == old(called)
      && transferPending == old(transferPending) && submitAt == old(submitAt) && dmaBusy == old(dmaBusy)
      && finishing == old(finishing)
    }

    method PushHead(size: nat, now: nat)
      requires Core() && waitQueue != [] && !insertPending && Fits(waitQueue[0])
      requires size == CalcSize(waitQueue[0].size, unit) && (AllFit() ==> usage + size <= wqSize)
      modifies this`usage, this`waitQueue, this`transferQueue, this`insertPending,
               this`insertDoneAt, this`beginTransferAt
      ensures Valid() && Pushed(size) && Inserted(now) && Work() < old(Work())
    {
      HeadPositive();
      hide Core, Fits, CalcSize, WaitsForRoom;
      MoveHead(size, now);
      PushKeepsCore(size);
      PushWork(size);
    }

    lemma HeadPositive()
      requires Core() && waitQueue != [] && !insertPending
      ensures 0 < waitQueue[0].size
    {
      hide WellCut, Assemble, Expand;
      assert Stream()[|finished| + |transferQueue|] == waitQueue[0];
      WellCutPositive(Stream(), None, |finished| + |transferQueue|);
    }

    twostate lemma PushWork(size: nat)
      requires Pushed(size) && PushedRest() && old(!insertPending && waitQueue[0].size > 0)
      ensures Work() < old(Work())
    {
      assert old(waitQueue)[0..] == old(waitQueue);
    }

    method MoveHead(size: nat, now: nat)
      requires waitQueue != [] && 0 < unit && size == CalcSize(waitQueue[0].size, unit)
      modifies this`usage, this`waitQueue, this`transferQueue, this`insertPending,
               this`insertDoneAt, this`beginTransferAt
      ensures Pushed(size) && Inserted(now)
    {
      hide CalcSize;
      UnitOrLess(waitQueue[0].size, unit);
      var s := waitQueue[0];
      var t := s.(insertEndAt := now + latency(size));
      waitQueue := [t] + waitQueue[1..];
      insertPending := true;
      usage := usage + size;
      insertDoneAt := Some(t.insertEndAt);
      var begin := now + (if s.size < unit then latency(size) else latency(unit));
      beginTransferAt := if beginTransferAt.Some? then beginTransferAt else Some(begin);
      transferQueue := transferQueue + [t];
    }

    twostate lemma PushKeepsCore(size: nat)
      requires old(Core()) && old(waitQueue) != [] && old(!insertPending) && Fits(old(waitQueue)[0])
      requires size == CalcSize(old(waitQueue)[0].size, unit) && (AllFit() ==> usage <= wqSize)
      requires Pushed(size) && PushedRest()
      ensures Core() && WaitsForRoom()
    {
      hide CalcSize, Room;
      PushKeepsConserved(size);
      PushKeepsWired(size);
    }

    twostate lemma PushKeepsConserved(size: nat)
      requires 0 < unit <= wqSize && old(Conserved() && waitQueue != [] && !insertPending && Fits(waitQueue[0]))
      requires Pushed(size) && PushedRest()
      ensures Conserved()
    {
      hide WellCut, Assemble, Callbacks, Expand, CalcSize;
      assert old(waitQueue)[0..] == old(waitQueue);
      PushKeeps(finished, old(transferQueue), old(waitQueue), waitQueue[0]);
      PushExpands(finished, old(transferQueue), old(waitQueue), waitQueue[0], unit, wqSize);
    }

    twostate lemma PushKeepsWired(size: nat)
      requires 0 < unit && old(Wired() && waitQueue != [] && !insertPending)
      requires Pushed(size) && PushedRest() && size == CalcSize(waitQueue[0].size, unit)
               && (AllFit() ==> usage <= wqSize)
      ensures Wired()
    {
      RoomAppend(old(transferQueue), waitQueue[0], unit);
      hide Room, CalcSize;
      forall s | AllFit() && s in waitQueue
        ensures Fits(s)
      {
        if s == waitQueue[0] {
          assert old(waitQueue)[0] in old(waitQueue);
        } else {
          assert s in old(waitQueue)[1..];
        }
      }
    }

    /** insertDone fires: the head leaves the wait queue. */
    method InsertWriteDone(now: nat)
      requires Ready() && insertDoneAt == Some(now)
      modifies this`usage, this`waitQueue, this`transferQueue, this`insertPending,
               this`insertDoneAt, this`beginTransferAt
      ensures Ready() && Work() < old(Work())
      ensures old(beginTransferAt.Some?) ==> beginTransferAt == old(beginTransferAt)
      ensures old(transferQueue) <= transferQueue && |transferQueue| <= |old(transferQueue)| + 1
      ensures if old(|waitQueue| >= 2 && MayFollow(waitQueue[1]))
              then Inserted(now)
              else waitQueue == old(waitQueue[1..]) && transferQueue == old(transferQueue) && insertDoneAt.None?
      ensures old(|waitQueue| >= 2 && !Fits(waitQueue[1])) ==>
                && usage == old(usage) + unit && insertDoneAt.Some?
                && |waitQueue| >= 2 && waitQueue[1].size == old(waitQueue[1].size) - unit
    {
      hide WellCut, Assemble, Callbacks, Expand, CalcSize, Room;
      ghost var stream := Stream();
      waitQueue := waitQueue[1..];
      insertPending, insertDoneAt := false, None;
      assert Stream() == stream;
      if waitQueue != [] {
        InsertWrite(now);
      }
    }

    /** beginTransfer fires; the queue cannot be empty then. */
    method TransferWrite()
      requires Ready() && beginTransferAt.Some?
      modifies this`beginTransferAt, this`transferPending, this`dmaBusy
      ensures Ready() && transferPending && beginTransferAt.None? && Work() < old(Work())
      ensures old(transferPending) ==> dmaBusy == old(dmaBusy)
    {
      hide Conserved, AllFit, CalcSize, Room, Bytes;
      beginTransferAt := None;
      if transferPending {
        return;
      }
      transferPending, dmaBusy := true, true;
    }

    /** Upstream reports the end of a transfer. The segment is done once it has also been in the queue for the
        time one unit takes downstream, whichever comes later. */
    method TransferWriteDone(now: nat, more: seq<Request>)
      requires Ready() && dmaBusy
      modifies this
      ensures Ready()
      ensures var front := old(transferQueue[0]);
        var due := front.insertEndAt + latency(if front.size < unit then front.size else unit);
        if now < due then submitAt == Some(due) && NoneDone() else FrontDone()
      ensures Answered(more) && KeepsInserting() && Starts(now) && (more == [] ==> Work() < old(Work()))
    {
      hide Conserved, AllFit, CalcSize, Room, Bytes;
      var front := transferQueue[0];
      var due := front.insertEndAt + latency(if front.size < unit then front.size else unit);
      dmaBusy := false;
      if now >= due {
        finishing := true;
        TransferWriteDoneNext(now, more);
      } else {
        submitAt := Some(due);
      }
    }

    /** submitCompletion fires. */
    method SubmitCompletion(now: nat, more: seq<Request>)
      requires Ready() && submitAt == Some(now)
      modifies this
      ensures Ready()
      ensures FrontDone() && Answered(more) && KeepsInserting() && Starts(now)
      ensures more == [] ==> Work() < old(Work())
    {
      hide Conserved, AllFit, CalcSize, Room, Bytes;
      submitAt, finishing := None, true;
      TransferWriteDoneNext(now, more);
    }

    /** The front segment is done. The callback of a finished request may hand in further requests, `more`, while
        the segment is still at the front. */
    method TransferWriteDoneNext(now: nat, more: seq<Request>)
      requires Valid() && finishing
      modifies this
      ensures Ready()
      ensures FrontDone() && Answered(more) && KeepsInserting() && Starts(now)
      ensures more == [] || !old(transferQueue[0].last) ==> Work() < old(Work())
    {
      hide Core, Work;
      FrontThere();
      var front := transferQueue[0];
      if front.last {
        CallBack(now, more);
      }
      PopFront();
      if waitQueue != [] {
        InsertWrite(now);
      }
    }

    lemma InsertingIff()
      requires Core()
      ensures 0 < unit && (insertPending <==> insertDoneAt.Some?) && (insertPending ==> waitQueue != [])
    {
      hide CalcSize, Room;
    }

    lemma FrontThere()
      requires Core() && finishing
      ensures transferQueue != [] && 0 < unit
    {
    }

    /** The callback runs, and hands in `more`. */
    method CallBack(now: nat, more: seq<Request>)
      requires Valid() && finishing
      modifies this`usage, this`waitQueue, this`transferQueue, this`insertPending,
               this`insertDoneAt, this`beginTransferAt,
        this`arrivals
      ensures Valid() && old(transferQueue) <= transferQueue && arrivals == old(arrivals) + Accepted(more)
      ensures KeepsInserting() && Starts(now)
      ensures more == [] ==> Work() == old(Work())
    {
      hide Core, WaitsForRoom, Work, CalcSize, UnitTime;
      InsertingIff();
      var i := 0;
      while i < |more|
        invariant 0 < unit && Valid() && i <= |more| && old(transferQueue) <= transferQueue
        invariant KeepsInserting() && Starts(now)
        invariant arrivals == old(arrivals) + Accepted(more[..i])
        invariant i == 0 ==> Work() == old(Work())
      {
        AcceptedNext(more, i);
        InsertingIff();
        DmaWrite(more[i].addr, more[i].size, more[i].buffer, more[i].context, now);
        i := i + 1;
      }
      assert more[..i] == more;
    }

    /** The front is out, and the next transfer has begun unless it is due to begin anyway. */
    twostate predicate Popped()
      reads this
    {
      && old(transferQueue) != [] && transferQueue == old(transferQueue)[1..]
      && finished == old(finished) + [old(transferQueue)[0]]
      && called == old(called) + (if old(transferQueue)[0].last then [old(transferQueue)[0].context] else [])
      && !finishing && dmaBusy == transferPending
      && (transferPending <==> transferQueue != [] && beginTransferAt.None?)
    }

    twostate predicate PoppedRest()
      reads this
    {
      && waitQueue == old(waitQueue) && insertPending == old(insertPending) && insertDoneAt == old(insertDoneAt)
      && arrivals == old(arrivals) && beginTransferAt == old(beginTransferAt)
      && submitAt == old(submitAt)
    }

    /** Takes the front out, and starts the next transfer unless one is due to begin anyway. */
    method PopFront()
      requires Valid() && finishing
      modifies this`usage, this`transferQueue, this`transferPending, this`dmaBusy, this`finishing, this`finished,
               this`called
      ensures Core() && Popped() && Work() < old(Work())
    {
      assert transferQueue != [] && 0 < unit;
      hide Core, WaitsForRoom, CalcSize;
      RemoveFront();
      PopKeepsCore();
    }

    method RemoveFront()
      requires 0 < unit && transferQueue != []
      modifies this`usage, this`transferQueue, this`transferPending, this`dmaBusy, this`finishing, this`finished,
               this`called
      ensures Popped() && usage == old(usage) - CalcSize(old(transferQueue)[0].size, unit)
    {
      hide CalcSize;
      var front := transferQueue[0];
      called := called + (if front.last then [front.context] else []);
      usage := usage - CalcSize(front.size, unit);
      finishing := false;
      transferQueue := transferQueue[1..];
      finished := finished + [front];
      transferPending := transferQueue != [] && beginTransferAt.None?;
      dmaBusy := transferPending;
    }

    twostate lemma PopKeepsCore()
      requires old(Valid()) && old(finishing) && Popped() && PoppedRest()
      requires usage == old(usage) - CalcSize(old(transferQueue)[0].size, unit)
      ensures Core()
    {
      hide CalcSize, Room, Conserved;
      RoomFront(old(transferQueue), unit);
      CalcSizeBounds(old(transferQueue)[0].size, unit);
      PopKeepsConserved();
    }

    twostate lemma PopKeepsConserved()
      requires 0 < unit <= wqSize && old(Conserved()) && Popped() && PoppedRest()
      ensures Conserved()
    {
      hide WellCut, Assemble, Callbacks, Expand, CalcSize;
      CallbacksOne(old(finished), old(transferQueue)[0]);
      assert Stream() == old(Stream());
    }

    /** With no further requests, whichever of the outstanding events fires next, and however often that is asked,
        everything drains after finitely many: each request has been called back, and the segments that went through
        are exactly the pieces of the requests, in order. */
    method Drain()
      requires Ready()
      modifies this
      ensures Ready() && waitQueue == [] && transferQueue == []
      ensures arrivals == old(arrivals) && called == Contexts(arrivals)
      ensures Bares(finished) == Expand(Wholes(arrivals), unit, wqSize)
    {
      hide Conserved, Wired, WaitsForRoom, Bytes;
      while waitQueue != [] || transferQueue != []
        invariant Ready() && arrivals == old(arrivals)
        decreases Work()
      {
        Outstanding();
        if
        case insertDoneAt.Some? => InsertWriteDone(insertDoneAt.value);
        case beginTransferAt.Some? => TransferWrite();
        case dmaBusy =>
          var at: nat := *;
          TransferWriteDone(at, []);
        case submitAt.Some? => SubmitCompletion(submitAt.value, []);
      }
      AllDone();
    }

    lemma Outstanding()
      requires Ready()
      ensures waitQueue != [] || transferQueue != [] ==>
                insertDoneAt.Some? || beginTransferAt.Some? || submitAt.Some? || dmaBusy
    {
      NoLostWakeUp();
    }

    lemma AllDone()
      requires Ready() && waitQueue == [] && transferQueue == []
      ensures called == Contexts(arrivals) && Bares(finished) == Expand(Wholes(arrivals), unit, wqSize)
    {
      CallbacksInOrder();
      hide WellCut, Assemble, Callbacks;
      assert Stream() == finished;
      forall s | s in finished
        ensures CalcSize(s.size, unit) <= wqSize
      {
        var i :| 0 <= i < |finished| && finished[i] == s;
        assert Fits(finished[i]);
      }
      ExpandFitting(finished, unit, wqSize);
    }
  }

  /** However large the queue, one request takes it above its capacity: segment after segment goes in as soon as the one
      before has been inserted, before any has been transferred. */
  method Overfill(wqSize: nat, unit: nat, latency: nat -> nat) returns (f: WriteFifo)
    requires 0 < unit <= wqSize
    ensures fresh(f) && f.Ready() && f.wqSize == wqSize && f.usage > wqSize
  {
    f := new WriteFifo(wqSize, unit, latency);
    assert f.Valid();
    hide CalcSize, WriteFifo.Core, WriteFifo.WaitsForRoom;
    var size := 3 * wqSize + 1;
    CalcSizeBounds(size, unit);
    f.DmaWrite(0, size, 1, 1, 0);
    while f.usage <= wqSize
      invariant fresh(f) && f.Ready() && f.wqSize == wqSize && f.unit == unit
      invariant 0 <= f.usage <= wqSize + unit && f.insertDoneAt.Some?
      invariant |f.waitQueue| >= 2 && f.waitQueue[1].size == size - f.usage
      decreases wqSize + unit - f.usage
    {
      CalcSizeBounds(f.waitQueue[1].size, unit);
      f.InsertWriteDone(f.insertDoneAt.value);
    }
  }
}
