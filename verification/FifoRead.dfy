/** The read pipeline of class FIFO (simplessd/util/fifo.cc): a segment is fetched by upstream DMA and inserted into
    the queue, the two overlap, and whichever ends second completes the segment. Methods are event handlers, as in
    FifoWrite. */
module FifoRead {
  import opened Helpers
  import opened FifoModel

  datatype ReadEntry = ReadEntry(id: nat, insertEndAt: nat, dmaEndAt: nat, latency: nat)

  function Ids(queue: seq<Segment>): (ids: seq<nat>)
    ensures |ids| == |queue|
    ensures forall i :: 0 <= i < |queue| ==> ids[i] == queue[i].id
  {
    seq(|queue|, i requires 0 <= i < |queue| => queue[i].id)
  }

  function EntryIds(entries: seq<ReadEntry>): (ids: seq<nat>)
    ensures |ids| == |entries|
    ensures forall i :: 0 <= i < |entries| ==> ids[i] == entries[i].id
  {
    seq(|entries|, i requires 0 <= i < |entries| => entries[i].id)
  }

  class ReadFifo {
    const rqSize: nat
    const unit: nat
    const latency: nat -> nat

    var usage: int
    var waitQueue: seq<Segment>
    var transferQueue: seq<Segment>
    var insertPending: bool
    var transferPending: bool
    var insertDoneAt: Option<nat>
    var beginTransferAt: Option<nat>
    var submitAt: Option<nat>
    var dmaBusy: bool
    var counter: nat
    var readCompletion: seq<ReadEntry>

    ghost var arrivals: seq<Request>
    ghost var finished: seq<Segment>
    var called: seq<nat>
    ghost var finishing: bool        // inside insertReadDoneNext, before the front is popped
    ghost var merging: bool          // inside insertReadDoneMerge: the merged entry is still listed, first
    ghost var dmaEnded: set<nat>     // ids whose DMA has ended
    ghost var insertEnded: set<nat>  // ids whose insertion has ended

    ghost function Stream(): seq<Segment>
      requires transferPending ==> waitQueue != []
      reads this`finished, this`transferQueue, this`waitQueue, this`transferPending
    {
      finished + transferQueue + waitQueue[if transferPending then 1 else 0..]
    }

    ghost predicate Fits(s: Segment)
      requires 0 < unit
    {
      CalcSize(s.size, unit) <= rqSize
    }

    ghost predicate Carries(stream: seq<Segment>)
      requires 0 < unit <= rqSize
      reads this`arrivals, this`called, this`finished
    {
      && WellCut(stream, None) && Assemble(stream, None) == arrivals && called == Callbacks(finished)
      && Expand(stream, unit, rqSize) == Expand(Wholes(arrivals), unit, rqSize)
    }

    ghost predicate Conserved()
      requires 0 < unit <= rqSize
      reads this`finished, this`transferQueue, this`waitQueue, this`transferPending, this`arrivals, this`called
    {
      && (forall i :: 0 <= i < |finished| ==> Fits(finished[i]))
      && (forall i :: 0 <= i < |transferQueue| ==> Fits(transferQueue[i]))
      && (transferPending ==> waitQueue != [] && Fits(waitQueue[0]))
      && Carries(Stream())
      && (forall i :: 1 <= i < |waitQueue| ==> waitQueue[i].last)
    }

    /** Segments in the queue whose DMA has ended: all, but for the last while its DMA runs. */
    ghost function Fetched(): int
      reads this`dmaBusy, this`transferQueue
    {
      if dmaBusy then |transferQueue| - 1 else |transferQueue|
    }

    /** The front's insertion has ended. */
    ghost predicate FrontInserted()
      reads this`insertPending, this`insertDoneAt
    {
      insertPending && insertDoneAt.None?
    }

    /** Both halves of the front have ended. */
    ghost predicate FrontMerged()
      reads this`submitAt, this`finishing
    {
      submitAt.Some? || finishing
    }

    /** No request was too large for the queue. */
    ghost predicate AllFit()
      requires 0 < unit
      reads this`arrivals
    {
      forall r :: r in arrivals ==> CalcSize(r.size, unit) <= rqSize
    }

    ghost predicate Wired()
      requires 0 < unit
      reads this
    {
      && usage == Room(transferQueue, unit)
      && (dmaBusy ==> transferPending && transferQueue != [])
      && (insertDoneAt.Some? ==> insertPending)
      && (insertPending ==> transferQueue != [])
      && (transferQueue != [] ==> insertPending || beginTransferAt.Some?)
      && (beginTransferAt.Some? ==> (if insertPending then 1 else 0) < |transferQueue|)
      && (FrontMerged() ==> FrontInserted() && 1 <= Fetched())
      && !(submitAt.Some? && finishing)
      && (FrontInserted() && !FrontMerged() ==> dmaBusy && |transferQueue| == 1)
      && (AllFit() ==> usage <= rqSize && forall s :: s in waitQueue ==> Fits(s))
    }

    /** Ids number the segments in order, and the two id sets say which halves have ended. */
    ghost predicate Numbered()
      reads this`counter, this`finished, this`transferQueue, this`dmaBusy, this`waitQueue,
            this`dmaEnded, this`insertEnded, this`insertPending, this`insertDoneAt
    {
      && counter == |finished| + |transferQueue|
      && (forall i :: 0 <= i < |finished| ==> finished[i].id == i)
      && (forall i :: 0 <= i < |transferQueue| ==> transferQueue[i].id == |finished| + i)
      && (dmaBusy ==> waitQueue != [] && waitQueue[0].id == counter - 1)
      && (forall id :: id in dmaEnded <==> 0 <= id < |finished| + Fetched())
      && (forall id :: id in insertEnded <==> 0 <= id < |finished| + if FrontInserted() then 1 else 0)
    }

    /** The rendezvous list: one entry for each segment with exactly one half ended, oldest first. */
    ghost function Half(): seq<nat>
      requires FrontMerged() ==> 1 <= Fetched()
      requires dmaBusy ==> transferQueue != []
      reads this`submitAt, this`finishing, this`insertPending, this`insertDoneAt, this`transferQueue, this`dmaBusy
    {
      if FrontMerged() then Ids(transferQueue[1..Fetched()])
      else if FrontInserted() && transferQueue != [] && Fetched() == 0 then [transferQueue[0].id]
      else Ids(transferQueue[..Fetched()])
    }

    ghost predicate Rendezvous()
      requires FrontMerged() ==> 1 <= Fetched()
      requires dmaBusy ==> transferQueue != []
      reads this`submitAt, this`finishing, this`insertPending, this`insertDoneAt,
            this`transferQueue, this`dmaBusy, this`merging, this`readCompletion
    {
      if merging then readCompletion != [] && EntryIds(readCompletion[1..]) == Half()
      else EntryIds(readCompletion) == Half()
    }

    ghost predicate Core()
      reads this
    {
      0 < unit <= rqSize && Conserved() && Wired() && Numbered() && Rendezvous()
    }

    ghost predicate WaitsForRoom()
      requires 0 < unit
      reads this`waitQueue, this`transferPending, this`usage
    {
      waitQueue != [] && !transferPending ==>
        waitQueue[0].last && Fits(waitQueue[0]) && usage + CalcSize(waitQueue[0].size, unit) > rqSize
    }

    ghost predicate Valid()
      reads this
    {
      Core() && WaitsForRoom()
    }

    /** Between two events. */
    ghost predicate Ready()
      reads this
    {
      Valid() && !finishing && !merging && (transferPending ==> dmaBusy)
    }

    /** A callback made now has handed in `more`; without one nothing has arrived. */
    twostate predicate Answered(more: seq<Request>)
      reads this`called, this`arrivals
    {
      arrivals == old(arrivals) + if called == old(called) then [] else Accepted(more)
    }

    /** The front has left, and has been called back if it was the last of its request. */
    twostate predicate FrontDone()
      reads this`finished, this`called
    {
      && old(transferQueue) != []
      && finished == old(finished) + [old(transferQueue)[0]]
      && called == old(called) + if old(transferQueue)[0].last then [old(transferQueue)[0].context] else []
    }

    /** The time a segment needs downstream before its insertion may begin, and after its DMA before it is done. */
    function UnitTime(size: nat): nat {
      latency(if size < unit then size else unit)
    }

    /** The head's DMA starts: cut to a transfer unit when it is too large for the queue, or when there is room for it
        and no other DMA is running. */
    ghost predicate Goes(s: Segment)
      requires 0 < unit
      reads this`transferPending, this`usage
    {
      !Fits(s) || (!transferPending && usage + CalcSize(s.size, unit) <= rqSize)
    }

    /** So does that of the segment behind the head once the head's DMA has ended. */
    ghost predicate MayFollow(s: Segment)
      requires 0 < unit
      reads this`usage
    {
      !Fits(s) || usage + CalcSize(s.size, unit) <= rqSize
    }

    /** The head's DMA has started at tick `now`: it takes its room and the next id, and the first insertion begins
        after the latency of a unit. */
    twostate predicate Fetching(now: nat)
      requires 0 < unit
      reads this`waitQueue, this`transferQueue, this`usage, this`counter, this`dmaBusy, this`beginTransferAt
    {
      && waitQueue != [] && transferQueue == old(transferQueue) + [waitQueue[0]] && dmaBusy
      && usage == old(usage) + CalcSize(waitQueue[0].size, unit)
      && waitQueue[0].id == old(counter) && counter == old(counter) + 1
      && beginTransferAt ==
         if old(beginTransferAt.Some?) then old(beginTransferAt) else Some(now + UnitTime(waitQueue[0].size))
    }

    /** No DMA has started. */
    twostate predicate Stays()
      reads this`transferQueue, this`usage, this`counter, this`beginTransferAt
    {
      && transferQueue == old(transferQueue) && usage == old(usage) && counter == old(counter)
      && beginTransferAt == old(beginTransferAt)
    }

    /** An insertion that is newly due begins a unit's latency after tick `now`, when the head's DMA started. */
    twostate predicate Starts(now: nat)
      reads this`waitQueue, this`transferPending, this`beginTransferAt
    {
      old(beginTransferAt.None?) && beginTransferAt.Some? ==>
        transferPending && waitQueue != [] && beginTransferAt == Some(now + UnitTime(waitQueue[0].size))
    }

    /** An insertion under way began at tick `now` and ends after the latency of the room the front takes. */
    ghost predicate Inserting(now: nat)
      requires 0 < unit
      reads this`insertPending, this`insertDoneAt, this`transferQueue
    {
      insertPending ==>
        transferQueue != [] && insertDoneAt == Some(now + latency(CalcSize(transferQueue[0].size, unit)))
    }

    /** A segment whose both halves have ended by `now` is done at `due`: it leaves now, and the next insertion begins
        unless it is due to begin anyway, or it leaves when that tick comes. */
    twostate predicate DoneAt(due: nat, now: nat)
      requires 0 < unit
      reads this`finished, this`called, this`submitAt, this`insertPending, this`insertDoneAt, this`transferQueue
    {
      if now < due then submitAt == Some(due) && NoneDone() else FrontDone() && Inserting(now)
    }

    twostate predicate NoneDone()
      reads this`finished, this`called
    {
      finished == old(finished) && called == old(called)
    }

    /** What is still to be done, as a number that falls with every event: ten for each byte whose DMA has not begun,
        four for each segment in the queue, and what the front and the outstanding events have before them. */
    ghost function Work(): nat
      reads this`waitQueue, this`transferPending, this`transferQueue, this`dmaBusy, this`beginTransferAt,
            this`submitAt, this`finishing, this`insertPending, this`insertDoneAt
    {
      10 * Bytes(waitQueue[if transferPending && waitQueue != [] then 1 else 0..]) + 4 * |transferQueue|
      + (if dmaBusy then 1 else 0) + (if beginTransferAt.Some? then 1 else 0)
      + (if transferQueue == [] || FrontMerged() then 0
         else if FrontInserted() then 1 else if insertPending then 2 else 3)
    }

    constructor (rqSize: nat, unit: nat, latency: nat -> nat)
      requires 0 < unit <= rqSize
      ensures Ready() && arrivals == [] && usage == 0 && waitQueue == [] && insertEnded == {}
      ensures this.rqSize == rqSize && this.unit == unit
    {
      this.rqSize, this.unit, this.latency := rqSize, unit, latency;
      usage, waitQueue, transferQueue, counter, readCompletion := 0, [], [], 0, [];
      insertPending, transferPending, dmaBusy := false, false, false;
      insertDoneAt, beginTransferAt, submitAt := None, None, None;
      arrivals, finished, called := [], [], [];
      finishing, merging := false, false;
      dmaEnded, insertEnded := {}, {};
    }

    /** An id is listed in readCompletion exactly when one of its DMA and its insertion has ended and the other
        has not, and it is then listed once. */
    lemma {:induction false} ListedIffHalfDone(id: nat)
      requires Ready()
      ensures id in EntryIds(readCompletion) <==> ((id in dmaEnded) != (id in insertEnded))
      ensures forall i, j :: 0 <= i < j < |readCompletion| ==> readCompletion[i].id != readCompletion[j].id
    {
      var n := |finished|;
      if FrontMerged() {
        var q := transferQueue[1..Fetched()];
        assert forall i :: 0 <= i < |q| ==> q[i].id == n + 1 + i;
        if n + 1 <= id < n + Fetched() {
          assert Ids(q)[id - n - 1] == id;
        }
      } else if FrontInserted() {
        assert Half()[0] == n;
      } else {
        var q := transferQueue[..Fetched()];
        assert forall i :: 0 <= i < |q| ==> q[i].id == n + i;
        if n <= id < n + Fetched() {
          assert Ids(q)[id - n] == id;
        }
      }
    }

    /** Segments complete once each, in order, and only after both halves have ended. */
    lemma {:induction false} CompleteInOrder()
      requires Ready()
      ensures forall i :: 0 <= i < |finished| ==> finished[i].id == i && i in dmaEnded && i in insertEnded
      ensures forall s :: s in transferQueue ==> |finished| <= s.id < counter
      ensures called <= Contexts(arrivals)
      ensures waitQueue == [] && transferQueue == [] ==> called == Contexts(arrivals)
    {
      var rest := transferQueue + waitQueue[if transferPending then 1 else 0..];
      assert Stream() == finished + rest;
      CallbacksArePrefix(finished, rest, arrivals);
    }

    /** As on the write side: an event is outstanding while anything is in flight, a non-empty transfer queue has an
        insertion under way, or waiting for its DMA, or about to begin, and only a full queue keeps a request out. */
    lemma {:induction false} NoLostWakeUp()
      requires Ready()
      ensures waitQueue != [] || transferQueue != [] ==>
                insertDoneAt.Some? || beginTransferAt.Some? || submitAt.Some? || dmaBusy
      ensures transferQueue != [] ==> insertPending || beginTransferAt.Some?
      ensures insertPending ==> insertDoneAt.Some? || submitAt.Some? || dmaBusy
      ensures waitQueue != [] && !transferPending ==>
                && usage + CalcSize(waitQueue[0].size, unit) > rqSize
                && (insertDoneAt.Some? || submitAt.Some? || beginTransferAt.Some?)
      ensures beginTransferAt.Some? ==> transferQueue != []
      ensures usage == Room(transferQueue, unit)
      ensures (forall r :: r in arrivals ==> CalcSize(r.size, unit) <= rqSize) ==> usage <= rqSize
    {
      if waitQueue != [] && !transferPending {
        assert usage > 0;
      }
    }

    // ---- requests and transfers --------------------------------------------------------------

    method DmaRead(addr: nat, size: nat, buffer: nat, context: nat, now: nat)
      requires Valid()
      modifies this`usage, this`waitQueue, this`transferQueue, this`transferPending, this`dmaBusy, this`counter,
        this`beginTransferAt, this`arrivals
      ensures Valid() && Extended() && Starts(now)
      ensures 0 < size && old(waitQueue) == [] && Fits(Whole(Request(addr, size, buffer, context))) ==>
                && waitQueue != [] && SameSegment(Whole(Request(addr, size, buffer, context)), waitQueue[0])
                && if old(usage) + CalcSize(size, unit) <= rqSize then Fetching(now) else Stays()
      ensures arrivals == if size == 0 then old(arrivals) else old(arrivals) + [Request(addr, size, buffer, context)]
      ensures 0 < size && old(waitQueue) == [] && CalcSize(size, unit) > rqSize ==>
                && usage == old(usage) + unit && dmaBusy
                && |waitQueue| >= 2 && waitQueue[1].size == size - unit
    {
      hide WellCut, Assemble, Callbacks, Expand, CalcSize, Room, Rendezvous;
      if size == 0 {
        return;
      }
      Accept(Request(addr, size, buffer, context));
      TransferRead(now);
    }

    /** The insertion due to begin has not begun. */
    twostate predicate KeepsBegin()
      reads this`beginTransferAt
    {
      old(beginTransferAt.Some?) ==> beginTransferAt == old(beginTransferAt)
    }

    /** What transferRead does to the queues. */
    twostate predicate Extended()
      reads this
    {
      && old(transferQueue) <= transferQueue && KeepsBegin()
      && (old(transferPending) ==> transferPending && dmaBusy == old(dmaBusy) && transferQueue == old(transferQueue)
                                   && old(waitQueue) <= waitQueue && beginTransferAt == old(beginTransferAt))
      && (old(!transferPending) && transferPending ==> dmaBusy)
    }

    method Accept(r: Request)
      requires Valid() && 0 < r.size
      modifies this`waitQueue, this`arrivals
      ensures Core() && waitQueue == old(waitQueue) + [Whole(r)] && arrivals == old(arrivals) + [r]
      ensures !transferPending ==> waitQueue[0].last
    {
      hide WellCut, Assemble, Callbacks, Expand, CalcSize, Room, Rendezvous;
      hide Numbered;
      ArrivalCarries(r);
      ghost var waiting := waitQueue[if transferPending then 1 else 0..];
      waitQueue := waitQueue + [Whole(r)];
      arrivals := arrivals + [r];
      MoreFit(old(arrivals), r);
      assert waitQueue[if transferPending then 1 else 0..] == waiting + [Whole(r)];
      NumberedAppend();
    }

    lemma MoreFit(was: seq<Request>, r: Request)
      requires 0 < unit && arrivals == was + [r]
      ensures AllFit() ==> Fits(Whole(r)) && forall x :: x in was ==> CalcSize(x.size, unit) <= rqSize
    {
      assert r in arrivals && forall x :: x in was ==> x in arrivals;
    }

    twostate lemma NumberedAppend()
      requires old(Numbered()) && old(waitQueue) <= waitQueue
      requires counter == old(counter) && finished == old(finished) && transferQueue == old(transferQueue)
      requires dmaBusy == old(dmaBusy) && dmaEnded == old(dmaEnded) && insertEnded == old(insertEnded)
      requires insertPending == old(insertPending) && insertDoneAt == old(insertDoneAt)
      ensures Numbered()
    {
    }

    lemma ArrivalCarries(r: Request)
      requires 0 < unit <= rqSize
      requires 0 < r.size && (transferPending ==> waitQueue != []) && Carries(Stream())
      ensures var waiting := waitQueue[if transferPending then 1 else 0..];
        var stream := finished + transferQueue + (waiting + [Whole(r)]);
        && WellCut(stream, None) && Assemble(stream, None) == arrivals + [r]
        && Expand(stream, unit, rqSize) == Expand(Wholes(arrivals + [r]), unit, rqSize)
    {
      ArrivalKeeps(Stream(), r, None);
      ArrivalExpands(Stream(), arrivals, r, unit, rqSize);
      Associates(finished, transferQueue, Whole(r), waitQueue[if transferPending then 1 else 0..]);
    }

    /** Tries to start the DMA of the head of the wait queue, cutting a transfer unit off it if it is too large. */
    method TransferRead(now: nat)
      requires Core() && waitQueue != [] && (!transferPending ==> waitQueue[0].last)
      modifies this`usage, this`waitQueue, this`transferQueue, this`transferPending, this`dmaBusy, this`counter,
        this`beginTransferAt
      ensures Valid() && Extended() && Starts(now)
      ensures if old(Goes(waitQueue[0])) then Fetching(now) else Stays() && waitQueue == old(waitQueue)
      ensures old(Fits(waitQueue[0])) ==> SameSegment(old(waitQueue[0]), waitQueue[0])
      ensures usage != old(usage) ==> (usage > rqSize <==> !old(Fits(waitQueue[0])) && old(usage) + unit > rqSize)
      ensures old(!transferPending && !Fits(waitQueue[0])) ==>
                && usage == old(usage) + unit && dmaBusy
                && |waitQueue| >= 2 && waitQueue[1].size == old(waitQueue[0].size) - unit
      ensures Work() <= old(Work())
    {
      hide WellCut, Assemble, Callbacks, Expand, CalcSize, Room, Rendezvous;
      var size := CalcSize(waitQueue[0].size, unit);
      if (transferPending || usage + size > rqSize) && size <= rqSize {
        return;
      }
      if size > rqSize {
        CutHead();
        CalcSizeBounds(unit, unit);
        size := CalcSize(waitQueue[0].size, unit);
      }
      PushHead(size, now);
    }

    method CutHead()
      requires Core() && waitQueue != [] && !transferPending && !Fits(waitQueue[0]) && waitQueue[0].last
      modifies this`waitQueue
      ensures Core() && |waitQueue| == |old(waitQueue)| + 1 && waitQueue[0].size == unit && Fits(waitQueue[0])
      ensures waitQueue[1].size == old(waitQueue[0].size) - unit && Work() == old(Work())
    {
      hide WellCut, Assemble, Callbacks, Expand, CalcSize, Room, Bytes;
      var s := waitQueue[0];
      CalcSizeBounds(s.size, unit);
      CalcSizeBounds(unit, unit);
      ghost var before, after := finished + transferQueue, waitQueue[1..];
      assert Stream() == before + [s] + after;
      CutKeeps(before, s, after, unit, None);
      CutExpands(before, s, after, unit, rqSize);
      BytesCut(s, after, unit);
      assert waitQueue == [s] + after && waitQueue[0..] == waitQueue;
      waitQueue := [Head(s, unit), Tail(s, unit)] + waitQueue[1..];
      assert Stream() == before + [Head(s, unit), Tail(s, unit)] + after && waitQueue[0..] == waitQueue;
    }

    /** One segment has gone from the wait queue into the queue, its DMA under way. */
    twostate predicate Pushed(size: nat)
      reads this
    {
      && old(waitQueue) != [] && waitQueue != []
      && SameSegment(old(waitQueue)[0], waitQueue[0]) && waitQueue[0].id == old(counter)
      && waitQueue[1..] == old(waitQueue)[1..] && transferQueue == old(transferQueue) + [waitQueue[0]]
      && transferPending && dmaBusy && counter == old(counter) + 1 && usage == old(usage) + size
      && beginTransferAt.Some? && (old(beginTransferAt.Some?) ==> beginTransferAt == old(beginTransferAt))
    }

    /** What that leaves alone. */
    twostate predicate PushedRest()
      reads this
    {
      && submitAt == old(submitAt) && insertPending == old(insertPending) && insertDoneAt == old(insertDoneAt)
      && readCompletion == old(readCompletion) && called == old(called)
      && finishing == old(finishing) && merging == old(merging)
      && arrivals == old(arrivals) && finished == old(finished)
      && dmaEnded == old(dmaEnded) && insertEnded == old(insertEnded)
    }

    method PushHead(size: nat, now: nat)
      requires Core() && waitQueue != [] && !transferPending && Fits(waitQueue[0])
      requires size == CalcSize(waitQueue[0].size, unit) && (AllFit() ==> usage + size <= rqSize)
      modifies this`usage, this`waitQueue, this`transferQueue, this`transferPending, this`dmaBusy, this`counter,
        this`beginTransferAt
      ensures Valid() && Extended() && Pushed(size) && Fetching(now) && Work() < old(Work())
    {
      hide Core, Fits, CalcSize, WaitsForRoom, UnitTime;
      HeadFree();
      MoveHead(size, now);
      PushKeepsCore(size);
      PushWork(size);
    }

    twostate lemma PushWork(size: nat)
      requires Pushed(size) && PushedRest() && old(!transferPending && !dmaBusy && waitQueue[0].size > 0)
      ensures Work() < old(Work())
    {
      assert old(waitQueue)[0..] == old(waitQueue);
    }

    method MoveHead(size: nat, now: nat)
      requires waitQueue != [] && 0 < unit && size == CalcSize(waitQueue[0].size, unit)
      modifies this`usage, this`waitQueue, this`transferQueue, this`transferPending, this`dmaBusy, this`counter,
        this`beginTransferAt
      ensures Pushed(size) && Fetching(now)
    {
      hide CalcSize;
      UnitOrLess(waitQueue[0].size, unit);
      var s := waitQueue[0];
      var t := s.(id := counter);
      waitQueue := [t] + waitQueue[1..];
      transferPending, dmaBusy := true, true;
      counter := counter + 1;
      usage := usage + size;
      if beginTransferAt.None? {
        beginTransferAt := Some(now + (if s.size < unit then latency(size) else latency(unit)));
      }
      transferQueue := transferQueue + [t];
    }

    lemma HeadFree()
      requires Core() && !transferPending && waitQueue != []
      ensures 0 < unit && !dmaBusy && 0 < waitQueue[0].size
    {
      hide WellCut, Assemble, Expand;
      assert Stream()[|finished| + |transferQueue|] == waitQueue[0];
      WellCutPositive(Stream(), None, |finished| + |transferQueue|);
    }

    twostate lemma PushKeepsCore(size: nat)
      requires old(Core()) && old(waitQueue) != [] && old(!transferPending) && Fits(old(waitQueue)[0])
      requires size == CalcSize(old(waitQueue)[0].size, unit) && (AllFit() ==> usage <= rqSize)
      requires Pushed(size) && PushedRest()
      ensures Core() && WaitsForRoom()
    {
      PushKeepsConserved(size);
      PushKeepsWired(size);
      PushKeepsNumbered(size);
      PushKeepsRendezvous(size);
    }

    twostate lemma PushKeepsConserved(size: nat)
      requires 0 < unit <= rqSize && old(Conserved() && waitQueue != [] && !transferPending && Fits(waitQueue[0]))
      requires Pushed(size) && PushedRest()
      ensures Conserved()
    {
      hide WellCut, Assemble, Callbacks, Expand, CalcSize;
      assert old(waitQueue)[0..] == old(waitQueue);
      PushKeeps(finished, old(transferQueue), old(waitQueue), waitQueue[0]);
      PushExpands(finished, old(transferQueue), old(waitQueue), waitQueue[0], unit, rqSize);
      assert waitQueue[1..] == old(waitQueue)[1..];
    }

    twostate lemma PushKeepsWired(size: nat)
      requires 0 < unit && old(Wired() && waitQueue != [] && !transferPending)
      requires Pushed(size) && PushedRest() && size == CalcSize(waitQueue[0].size, unit)
               && (AllFit() ==> usage <= rqSize)
      ensures Wired()
    {
      RoomAppend(old(transferQueue), waitQueue[0], unit);
      hide Room, CalcSize;
      forall s | AllFit() && s in waitQueue
        ensures Fits(s)
      {
        if s == waitQueue[0] {
          assert old(waitQueue)[0] in old(waitQueue);
        } else {
          assert s in old(waitQueue)[1..];
        }
      }
    }

    twostate lemma PushKeepsNumbered(size: nat)
      requires old(Numbered() && !dmaBusy) && Pushed(size) && PushedRest()
      ensures Numbered()
    {
    }

    /** A segment whose DMA has only begun is no concern of the rendezvous. */
    twostate lemma PushKeepsRendezvous(size: nat)
      requires 0 < unit && old(Wired() && !transferPending && Rendezvous()) && Pushed(size) && PushedRest()
      ensures Wired() ==> Rendezvous()
    {
      var queue := old(transferQueue);
      assert !old(dmaBusy) && (old(FrontInserted()) ==> old(FrontMerged()));
      assert transferQueue[..|queue|] == queue;
      hide Room, CalcSize;
      if queue != [] {
        assert transferQueue[1..|queue|] == queue[1..];
      }
    }

    // ---- events ------------------------------------------------------------------------------

    /** beginTransfer fires: insertion of the front begins unless one is under way. */
    method InsertRead(now: nat)
      requires Ready() && beginTransferAt.Some?
      modifies this`beginTransferAt, this`insertPending, this`insertDoneAt
      ensures Ready() && insertPending && beginTransferAt.None? && Work() < old(Work())
      ensures if old(insertPending) then insertDoneAt == old(insertDoneAt) else Inserting(now)
    {
      hide AllFit, Conserved, CalcSize, Room;
      beginTransferAt := None;
      if insertPending {
        return;
      }
      insertPending := true;
      insertDoneAt := Some(now + latency(CalcSize(transferQueue[0].size, unit)));
    }

    method Find(id: nat) returns (i: nat)
      ensures i <= |readCompletion|
      ensures i < |readCompletion| ==> readCompletion[i].id == id
      ensures forall j :: 0 <= j < i ==> readCompletion[j].id != id
    {
      i := 0;
      while i < |readCompletion| && readCompletion[i].id != id
        invariant i <= |readCompletion|
        invariant forall j :: 0 <= j < i ==> readCompletion[j].id != id
      {
        i := i + 1;
      }
    }

    /** Both halves of the front have ended and its entry, the oldest, is about to be merged. */
    ghost predicate ReadyToMerge()
      reads this
    {
      && 0 < unit <= rqSize && Conserved() && Numbered() && WaitsForRoom()
      && FrontInserted() && !FrontMerged() && 1 <= Fetched() && !merging
      && EntryIds(readCompletion) == Ids(transferQueue[..Fetched()])
      && usage == Room(transferQueue, unit)
      && (dmaBusy ==> transferPending)
      && (beginTransferAt.Some? ==> 1 < |transferQueue|)
      && (AllFit() ==> usage <= rqSize && forall s :: s in waitQueue ==> Fits(s))
    }

    /** What completing a segment may do to the wait queue and the DMA in progress. */
    twostate predicate KeepsFetching()
      reads this
    {
      && KeepsBegin()
      && (old(transferPending) ==> transferPending && dmaBusy == old(dmaBusy) && old(waitQueue) <= waitQueue
                                   && beginTransferAt == old(beginTransferAt))
      && (old(!transferPending) && transferPending ==> dmaBusy)
    }

    /** The segment whose DMA has just ended is still the head. */
    twostate predicate KeepsFetched()
      reads this`beginTransferAt, this`waitQueue
    {
      beginTransferAt == old(beginTransferAt) && old(waitQueue) <= waitQueue
    }

    /** insertReadDoneMerge: complete the segment now, or when the time of one unit after its DMA has passed. */
    method InsertReadDoneMerge(comp: nat, now: nat, more: seq<Request>)
      requires ReadyToMerge() && comp == 0 && comp < |readCompletion|
      modifies this
      ensures Valid() && !finishing && !merging && KeepsFetching()
      ensures dmaEnded == old(dmaEnded) && insertEnded == old(insertEnded)
      ensures DoneAt(old(readCompletion[comp].dmaEndAt + readCompletion[comp].latency), now) && Starts(now)
      ensures readCompletion == old(readCompletion[1..])
      ensures Answered(more) && (more == [] ==> Work() < old(Work()))
    {
      hide ReadyToMerge, Ready, Valid, Work;
      MergedFirst();
      var due := readCompletion[comp].dmaEndAt + readCompletion[comp].latency;
      if now >= due {
        Complete(now, more);
      } else {
        Postpone(due);
      }
    }

    lemma MergedFirst()
      requires ReadyToMerge()
      ensures transferQueue != [] && 1 <= Fetched() && FrontInserted() && !FrontMerged() && !merging
      ensures |readCompletion| == Fetched()
      ensures EntryIds(readCompletion[1..]) == Ids(transferQueue[1..Fetched()])
    {
      hide Conserved, CalcSize, Room, Numbered, WaitsForRoom;
      var q := transferQueue[..Fetched()];
      assert transferQueue[1..Fetched()] == q[1..];
      assert |EntryIds(readCompletion)| == |Ids(q)|;
      assert EntryIds(readCompletion[1..]) == Ids(q[1..]);
    }

    /** The front is complete: its entry, still listed, goes afterwards. */
    method Complete(now: nat, more: seq<Request>)
      requires ReadyToMerge() && readCompletion != []
      modifies this
      ensures Valid() && !finishing && !merging && KeepsFetching()
      ensures dmaEnded == old(dmaEnded) && insertEnded == old(insertEnded)
      ensures FrontDone() && Answered(more) && (more == [] ==> Work() < old(Work()))
      ensures 0 < unit && Inserting(now) && Starts(now) && readCompletion == old(readCompletion[1..])
    {
      hide Conserved, AllFit, CalcSize, Room, Numbered, WaitsForRoom, Bytes, EntryIds, Ids;
      MergedFirst();
      finishing, merging := true, true;
      InsertReadDoneNext(now, more);
      readCompletion, merging := readCompletion[1..], false;
    }

    method Postpone(due: nat)
      requires ReadyToMerge() && readCompletion != []
      modifies this`submitAt, this`readCompletion
      ensures Valid() && submitAt == Some(due) && readCompletion == old(readCompletion[1..]) && Work() < old(Work())
    {
      hide Conserved, AllFit, CalcSize, Room, Numbered, WaitsForRoom, Bytes, EntryIds, Ids;
      MergedFirst();
      submitAt := Some(due);
      readCompletion := readCompletion[1..];
    }

    /** submitCompletion fires. */
    method SubmitCompletion(now: nat, more: seq<Request>)
      requires Ready() && submitAt == Some(now)
      modifies this
      ensures Ready() && FrontDone() && Answered(more) && KeepsFetching()
      ensures Inserting(now) && Starts(now) && readCompletion == old(readCompletion)
      ensures dmaEnded == old(dmaEnded) && insertEnded == old(insertEnded)
      ensures more == [] ==> Work() < old(Work())
    {
      hide AllFit, Conserved, CalcSize, Room;
      submitAt, finishing := None, true;
      InsertReadDoneNext(now, more);
    }

    lemma FrontThere()
      requires Core() && finishing
      ensures transferQueue != [] && 0 < unit && insertPending
    {
    }

    /** The front is complete. The callback of a finished request may hand in further requests, `more`, first. */
    method InsertReadDoneNext(now: nat, more: seq<Request>)
      requires Valid() && finishing
      modifies this
      ensures Valid() && !finishing && merging == old(merging) && readCompletion == old(readCompletion)
      ensures KeepsFetching() && dmaEnded == old(dmaEnded) && insertEnded == old(insertEnded)
      ensures FrontDone() && Answered(more) && Inserting(now) && Starts(now)
      ensures more == [] || !old(transferQueue[0].last) ==> Work() < old(Work())
    {
      hide Core, Work, CalcSize, UnitTime, WaitsForRoom;
      FrontThere();
      var front := transferQueue[0];
      if front.last {
        CallBack(now, more);
      }
      MoveOn(now);
    }

    /** The front leaves, the next insertion begins, and the head of the wait queue is tried, if there is one. */
    method MoveOn(now: nat)
      requires Valid() && finishing
      modifies this`usage, this`transferQueue, this`insertPending, this`insertDoneAt, this`finishing, this`finished,
        this`called, this`waitQueue, this`transferPending, this`dmaBusy, this`counter, this`beginTransferAt
      ensures Valid() && !finishing && KeepsFetching()
      ensures FrontDone() && Inserting(now) && Starts(now) && Work() < old(Work())
    {
      hide Core, Work, CalcSize, UnitTime;
      FrontThere();
      PopFront(now);
      if waitQueue != [] {
        TransferRead(now);
      }
    }

    /** The callback runs, and hands in `more`. */
    method CallBack(now: nat, more: seq<Request>)
      requires Valid() && finishing
      modifies this`usage, this`waitQueue, this`transferQueue, this`transferPending, this`dmaBusy, this`counter,
        this`beginTransferAt, this`arrivals
      ensures Valid() && old(transferQueue) <= transferQueue && KeepsFetching() && Starts(now)
      ensures arrivals == old(arrivals) + Accepted(more) && (more == [] ==> Work() == old(Work()))
    {
      hide Core, WaitsForRoom, Work;
      var i := 0;
      while i < |more|
        invariant Valid() && i <= |more|
        invariant old(transferQueue) <= transferQueue && KeepsFetching() && Starts(now)
        invariant arrivals == old(arrivals) + Accepted(more[..i])
        invariant i == 0 ==> Work() == old(Work())
      {
        AcceptedNext(more, i);
        DmaRead(more[i].addr, more[i].size, more[i].buffer, more[i].context, now);
        i := i + 1;
      }
      assert more[..i] == more;
    }

    /** The front is out, and the next insertion has begun unless it is due to begin anyway. */
    twostate predicate Popped()
      reads this
    {
      && old(transferQueue) != [] && transferQueue == old(transferQueue)[1..]
      && finished == old(finished) + [old(transferQueue)[0]]
      && called == old(called) + (if old(transferQueue)[0].last then [old(transferQueue)[0].context] else [])
      && !finishing && (insertPending <==> transferQueue != [] && old(beginTransferAt).None?)
      && (insertPending <==> insertDoneAt.Some?)
    }

    twostate predicate PoppedRest()
      reads this
    {
      && waitQueue == old(waitQueue) && transferPending == old(transferPending) && dmaBusy == old(dmaBusy)
      && counter == old(counter) && arrivals == old(arrivals)
      && beginTransferAt == old(beginTransferAt) && submitAt == old(submitAt)
      && readCompletion == old(readCompletion) && merging == old(merging)
      && dmaEnded == old(dmaEnded) && insertEnded == old(insertEnded)
    }

    twostate lemma PopKeepsConserved()
      requires 0 < unit <= rqSize && old(Conserved()) && Popped() && PoppedRest()
      ensures Conserved()
    {
      hide WellCut, Assemble, Callbacks, Expand, CalcSize;
      CallbacksOne(old(finished), old(transferQueue)[0]);
      assert Stream() == old(Stream());
    }

    twostate lemma PopKeepsNumbered()
      requires old(Numbered()) && old(FrontMerged()) && old(FrontInserted()) && Popped() && PoppedRest()
      requires old(dmaBusy ==> 2 <= |transferQueue|)
      ensures Numbered()
    {
    }

    twostate lemma PopKeepsRendezvous()
      requires old(FrontMerged()) && old(FrontMerged() ==> 1 <= Fetched()) && old(dmaBusy ==> transferQueue != [])
      requires old(Rendezvous()) && old(submitAt.None?) && Popped() && PoppedRest()
      ensures dmaBusy ==> transferQueue != []
      ensures Rendezvous()
    {
      assert old(transferQueue)[1..old(Fetched())] == transferQueue[..Fetched()];
    }

    /** Takes the front out and begins the next insertion, unless one is due to begin anyway. */
    method PopFront(now: nat)
      requires Valid() && finishing
      modifies this`usage, this`transferQueue, this`insertPending, this`insertDoneAt, this`finishing, this`finished,
        this`called
      ensures Core() && !finishing && (waitQueue != [] && !transferPending ==> waitQueue[0].last)
      ensures FrontDone() && Inserting(now)
      ensures Work() < old(Work())
    {
      hide Core, WaitsForRoom, CalcSize;
      FrontThere();
      RemoveFront(now);
      PopKeepsCore();
    }

    method RemoveFront(now: nat)
      requires 0 < unit && transferQueue != []
      modifies this`usage, this`transferQueue, this`insertPending, this`insertDoneAt, this`finishing, this`finished,
        this`called
      ensures Popped() && usage == old(usage) - CalcSize(old(transferQueue)[0].size, unit) && Inserting(now)
    {
      hide CalcSize;
      var front := transferQueue[0];
      called := called + (if front.last then [front.context] else []);
      usage := usage - CalcSize(front.size, unit);
      finishing := false;
      transferQueue := transferQueue[1..];
      finished := finished + [front];
      insertPending := transferQueue != [] && beginTransferAt.None?;
      insertDoneAt := if insertPending then Some(now + latency(CalcSize(transferQueue[0].size, unit))) else None;
    }

    twostate lemma PopKeepsCore()
      requires old(Valid()) && old(finishing) && Popped() && PoppedRest()
      requires usage == old(usage) - CalcSize(old(transferQueue)[0].size, unit)
      ensures Core() && (waitQueue != [] && !transferPending ==> waitQueue[0].last)
    {
      hide Conserved, Numbered, Rendezvous, CalcSize, Room;
      RoomFront(old(transferQueue), unit);
      PopKeepsConserved();
      PopKeepsNumbered();
      PopKeepsRendezvous();
    }

    /** insertDone fires: the front's insertion has ended. */
    method InsertReadDone(now: nat, more: seq<Request>)
      requires Ready() && insertDoneAt == Some(now)
      modifies this
      ensures Ready()
      ensures insertEnded == old(insertEnded + {transferQueue[0].id}) && dmaEnded == old(dmaEnded)
      ensures old(transferQueue[0].id !in dmaEnded) ==>
                var front := old(transferQueue[0]);
                && NoneDone() && submitAt == old(submitAt) && insertDoneAt.None?
                && readCompletion == [ReadEntry(front.id, now, 0, UnitTime(front.size))]
      ensures old(transferQueue[0].id in dmaEnded) ==>
                && old(readCompletion) != [] && old(readCompletion[0].id == transferQueue[0].id)
                && DoneAt(old(readCompletion[0].dmaEndAt + readCompletion[0].latency), now)
                && readCompletion == old(readCompletion[1..])
      ensures Answered(more) && KeepsFetching() && Starts(now) && (more == [] ==> Work() < old(Work()))
    {
      hide Valid, Work, CalcSize;
      FrontListed();
      var front := transferQueue[0];
      var comp := Find(front.id);
      if comp == |readCompletion| {
        var unitLatency := latency(if front.size < unit then front.size else unit);
        EnlistInserted(ReadEntry(front.id, now, 0, unitLatency));
      } else {
        MergeInserted(comp, now, more);
      }
    }

    /** A front still being inserted is listed exactly when its DMA has ended, and is then the first. */
    lemma FrontListed()
      requires Ready() && insertDoneAt.Some?
      ensures transferQueue != [] && 0 < unit && (transferQueue[0].id in dmaEnded <==> 1 <= Fetched())
      ensures 1 <= Fetched() ==> readCompletion != [] && readCompletion[0].id == transferQueue[0].id
      ensures Fetched() < 1 ==> readCompletion == []
    {
      hide Conserved, CalcSize, Room;
      assert |EntryIds(readCompletion)| == |Half()|;
      if 1 <= Fetched() {
        assert EntryIds(readCompletion)[0] == Half()[0];
      }
    }

    /** Insertion has ended first. */
    method EnlistInserted(e: ReadEntry)
      requires Ready() && insertDoneAt.Some? && transferQueue != [] && e.id == transferQueue[0].id
      requires Fetched() < 1 && readCompletion == []
      modifies this`insertDoneAt, this`insertEnded, this`readCompletion
      ensures Ready() && Work() < old(Work())
      ensures insertEnded == old(insertEnded) + {e.id} && insertDoneAt.None? && readCompletion == [e]
    {
      hide AllFit, Conserved, CalcSize, Room, Bytes;
      insertDoneAt := None;
      insertEnded := insertEnded + {e.id};
      readCompletion := readCompletion + [e];
    }

    /** DMA has ended first: the front is complete. */
    method MergeInserted(comp: nat, now: nat, more: seq<Request>)
      requires Ready() && insertDoneAt.Some? && transferQueue != [] && 1 <= Fetched()
      requires comp == 0 && comp < |readCompletion|
      modifies this
      ensures Ready() && dmaEnded == old(dmaEnded) && insertEnded == old(insertEnded + {transferQueue[0].id})
      ensures DoneAt(old(readCompletion[comp].dmaEndAt + readCompletion[comp].latency), now) && Starts(now)
      ensures readCompletion == old(readCompletion[1..])
      ensures Answered(more) && KeepsFetching() && (more == [] ==> Work() < old(Work()))
    {
      hide AllFit, Conserved, CalcSize, Room, Bytes;
      insertEnded := insertEnded + {transferQueue[0].id};
      insertDoneAt := None;
      assert Work() < old(Work());
      InsertReadDoneMerge(comp, now, more);
    }

    /** DMA has ended first. */
    method EnlistFetched(e: ReadEntry)
      requires Ready() && dmaBusy && e.id == waitQueue[0].id && !(FrontInserted() && !FrontMerged())
      modifies this`dmaBusy, this`dmaEnded, this`readCompletion
      ensures Valid() && !finishing && !merging && !dmaBusy && transferPending
      ensures readCompletion == old(readCompletion) + [e] && dmaEnded == old(dmaEnded) + {e.id}
      ensures Work() < old(Work())
    {
      hide AllFit, Conserved, Rendezvous, CalcSize, Room;
      dmaBusy := false;
      dmaEnded := dmaEnded + {e.id};
      readCompletion := readCompletion + [e];
      FetchedOneMore();
    }

    /** Insertion has ended first: the front, alone in the queue, is complete. */
    method MergeFetched(comp: nat, now: nat, more: seq<Request>)
      requires Ready() && dmaBusy && FrontInserted() && !FrontMerged()
      requires comp < |readCompletion| && readCompletion[comp].id == waitQueue[0].id
      modifies this
      ensures Valid() && !finishing && !merging && transferPending && !dmaBusy
      ensures dmaEnded == old(dmaEnded + {waitQueue[0].id}) && insertEnded == old(insertEnded)
      ensures 0 < unit && DoneAt(now + old(readCompletion[comp].latency), now)
      ensures readCompletion == old(readCompletion[1..])
      ensures Answered(more) && KeepsFetched() && (more == [] ==> Work() < old(Work()))
    {
      hide AllFit, Conserved, CalcSize, Room;
      dmaEnded := dmaEnded + {waitQueue[0].id};
      dmaBusy := false;
      readCompletion := readCompletion[comp := readCompletion[comp].(dmaEndAt := now)];
      InsertReadDoneMerge(comp, now, more);
    }

    /** Upstream reports the end of the DMA of the head of the wait queue. */
    method TransferReadDone(now: nat, more: seq<Request>)
      requires Ready() && dmaBusy
      modifies this
      ensures Ready()
      ensures dmaEnded == old(dmaEnded + {waitQueue[0].id}) && insertEnded == old(insertEnded)
      ensures old(waitQueue[0].id !in insertEnded) ==>
                var head := old(waitQueue[0]);
                && NoneDone() && submitAt == old(submitAt)
                && readCompletion == old(readCompletion) + [ReadEntry(head.id, 0, now, UnitTime(head.size))]
                && if old(|waitQueue| >= 2 && MayFollow(waitQueue[1]))
                   then Fetching(now)
                   else waitQueue == old(waitQueue[1..]) && Stays()
      ensures old(waitQueue[0].id in insertEnded) ==>
                && old(readCompletion) != [] && old(readCompletion[0].id == waitQueue[0].id)
                && DoneAt(now + old(readCompletion[0].latency), now)
                && readCompletion == old(readCompletion[1..])
      ensures Starts(now)
      ensures Answered(more) && KeepsBegin() && (more == [] ==> Work() < old(Work()))
      ensures old(waitQueue[0].id !in insertEnded && |waitQueue| >= 2 && !Fits(waitQueue[1])) ==>
                && usage == old(usage) + unit && dmaBusy
                && |waitQueue| >= 2 && waitQueue[1].size == old(waitQueue[1].size) - unit
    {
      hide Valid, Rendezvous, Numbered, Conserved, Wired, Work, CalcSize, FrontInserted, FrontMerged, UnitTime;
      HeadListed();
      EndDma(now, more);
      LeaveWaitQueue(now);
    }

    /** One end of DMA, when nothing has been inserted and what waits behind is too large for the queue. */
    method FetchNext(now: nat)
      requires Ready() && dmaBusy && insertEnded == {} && 0 < unit && |waitQueue| >= 2 && !Fits(waitQueue[1])
      modifies this
      ensures Ready() && insertEnded == {} && usage == old(usage) + unit && dmaBusy
      ensures |waitQueue| >= 2 && waitQueue[1].size == old(waitQueue[1].size) - unit
    {
      hide Ready, FrontDone, NoneDone, Answered, Work, Fits;
      TransferReadDone(now, []);
    }

    /** The end of the DMA is recorded, or completes the segment. */
    method EndDma(now: nat, more: seq<Request>)
      requires Ready() && dmaBusy
      modifies this
      ensures Valid() && !finishing && !merging && transferPending && !dmaBusy
      ensures dmaEnded == old(dmaEnded + {waitQueue[0].id}) && insertEnded == old(insertEnded)
      ensures old(waitQueue[0].id !in insertEnded) ==>
                var head := old(waitQueue[0]);
                && NoneDone() && submitAt == old(submitAt) && waitQueue == old(waitQueue) && Stays()
                && readCompletion == old(readCompletion) + [ReadEntry(head.id, 0, now, UnitTime(head.size))]
      ensures old(waitQueue[0].id in insertEnded) ==>
                && old(readCompletion) != [] && old(readCompletion[0].id == waitQueue[0].id)
                && DoneAt(now + old(readCompletion[0].latency), now)
                && readCompletion == old(readCompletion[1..])
      ensures Answered(more) && KeepsFetched() && (more == [] ==> Work() < old(Work()))
    {
      hide Core, WaitsForRoom, Work, CalcSize, FrontInserted, FrontMerged;
      HeadListed();
      var head := waitQueue[0];
      var comp := Find(head.id);
      var unitLatency := latency(if head.size < unit then head.size else unit);
      if comp == |readCompletion| {
        EnlistFetched(ReadEntry(head.id, 0, now, unitLatency));
      } else {
        MergeFetched(comp, now, more);
      }
    }

    /** The segment in DMA is listed exactly when its insertion has ended first, and is then the only one. */
    lemma HeadListed()
      requires Ready() && dmaBusy
      ensures waitQueue != [] && transferQueue != [] && 0 < unit
      ensures waitQueue[0].id in insertEnded <==> FrontInserted() && !FrontMerged()
      ensures FrontInserted() && !FrontMerged() ==>
                |readCompletion| == 1 && readCompletion[0].id == waitQueue[0].id == transferQueue[0].id
      ensures !(FrontInserted() && !FrontMerged()) ==>
                forall i :: 0 <= i < |readCompletion| ==> readCompletion[i].id != waitQueue[0].id
    {
      hide Conserved, CalcSize, Room;
      if FrontInserted() && !FrontMerged() {
        assert EntryIds(readCompletion)[0] == transferQueue[0].id;
      } else {
        forall i | 0 <= i < |readCompletion|
          ensures readCompletion[i].id != waitQueue[0].id
        {
          assert EntryIds(readCompletion)[i] == Half()[i];
        }
      }
    }

    twostate lemma FetchedOneMore()
      requires old(dmaBusy) && !dmaBusy && transferQueue == old(transferQueue) != []
      requires submitAt == old(submitAt) && finishing == old(finishing)
      requires insertPending == old(insertPending) && insertDoneAt == old(insertDoneAt)
      requires !merging && old(!merging) && !(FrontInserted() && !FrontMerged())
      requires old(FrontMerged() ==> 1 <= Fetched()) && old(Rendezvous())
      requires |readCompletion| == |old(readCompletion)| + 1 && old(readCompletion) <= readCompletion
      requires readCompletion[|readCompletion| - 1].id == transferQueue[|transferQueue| - 1].id
      ensures Rendezvous()
    {
      var n := |transferQueue|;
      assert old(transferQueue) == transferQueue;
      forall i | 0 <= i < |readCompletion|
        ensures i < |Half()| && readCompletion[i].id == Half()[i]
      {
        if i < |readCompletion| - 1 {
          assert EntryIds(old(readCompletion))[i] == old(Half())[i];
        }
      }
      assert |EntryIds(old(readCompletion))| == |old(Half())|;
    }

    /** The fetched segment leaves the wait queue, and the next one is tried. */
    method LeaveWaitQueue(now: nat)
      requires Valid() && !finishing && !merging && transferPending && !dmaBusy
      modifies this`usage, this`waitQueue, this`transferQueue, this`transferPending, this`dmaBusy, this`counter,
        this`beginTransferAt
      ensures Ready() && KeepsBegin() && Work() <= old(Work()) && Starts(now)
      ensures old(transferQueue) <= transferQueue
      ensures if old(|waitQueue| >= 2 && MayFollow(waitQueue[1]))
              then Fetching(now)
              else waitQueue == old(waitQueue[1..]) && Stays()
      ensures old(|waitQueue| >= 2 && !Fits(waitQueue[1])) ==>
                && usage == old(usage) + unit && dmaBusy
                && |waitQueue| >= 2 && waitQueue[1].size == old(waitQueue[1].size) - unit
    {
      hide WellCut, Assemble, Callbacks, Expand, CalcSize, Room;
      ghost var stream := Stream();
      waitQueue := waitQueue[1..];
      transferPending := false;
      assert Stream() == stream;
      if waitQueue != [] {
        TransferRead(now);
      }
    }

    /** With no further requests, whichever of the outstanding events fires next, everything drains after finitely many:
        each request has been called back, and the segments that went through are exactly the pieces of the requests,
        in order. */
    method Drain()
      requires Ready()
      modifies this
      ensures Ready() && waitQueue == [] && transferQueue == []
      ensures arrivals == old(arrivals) && called == Contexts(arrivals)
      ensures Bares(finished) == Expand(Wholes(arrivals), unit, rqSize)
    {
      hide Valid, Work;
      while waitQueue != [] || transferQueue != []
        invariant Ready() && arrivals == old(arrivals)
        decreases Work()
      {
        Outstanding();
        if
        case insertDoneAt.Some? => InsertReadDone(insertDoneAt.value, []);
        case beginTransferAt.Some? => InsertRead(beginTransferAt.value);
        case dmaBusy =>
          var at: nat := *;
          TransferReadDone(at, []);
        case submitAt.Some? => SubmitCompletion(submitAt.value, []);
      }
      AllDone();
    }

    lemma Outstanding()
      requires Ready()
      ensures waitQueue != [] || transferQueue != [] ==>
                insertDoneAt.Some? || beginTransferAt.Some? || submitAt.Some? || dmaBusy
    {
      NoLostWakeUp();
    }

    lemma AllDone()
      requires Ready() && waitQueue == [] && transferQueue == []
      ensures called == Contexts(arrivals) && Bares(finished) == Expand(Wholes(arrivals), unit, rqSize)
    {
      CompleteInOrder();
      hide WellCut, Assemble, Callbacks, Numbered, Rendezvous;
      assert Stream() == finished;
      forall s | s in finished
        ensures CalcSize(s.size, unit) <= rqSize
      {
        var i :| 0 <= i < |finished| && finished[i] == s;
        assert Fits(finished[i]);
      }
      ExpandFitting(finished, unit, rqSize);
    }

    /** A request of more than three times the queue's size comes to an empty queue, and upstream is quick. */
    method Flood(size: nat)
      requires Ready() && 0 < unit <= rqSize && waitQueue == [] && usage == 0 && insertEnded == {} && size > 3 * rqSize
      modifies this
      ensures Ready() && usage > rqSize
    {
      CalcSizeBounds(size, unit);
      hide Ready, Fits, CalcSize;
      BeginFlood(size);
      while usage <= rqSize
        invariant Ready() && insertEnded == {} && 0 <= usage <= rqSize + unit && dmaBusy
        invariant |waitQueue| >= 2 && waitQueue[1].size == size - usage
        decreases rqSize + unit - usage
      {
        TooLarge(waitQueue[1]);
        FetchNext(0);
      }
    }

    method BeginFlood(size: nat)
      requires Ready() && 0 < unit && waitQueue == [] && 0 < size && CalcSize(size, unit) > rqSize
      modifies this
      ensures Ready() && insertEnded == old(insertEnded) && usage == old(usage) + unit && dmaBusy
      ensures |waitQueue| >= 2 && waitQueue[1].size == size - unit
    {
      hide Core, WaitsForRoom, CalcSize;
      DmaRead(0, size, 1, 1, 0);
    }

    lemma TooLarge(s: Segment)
      requires 0 < unit && s.size > rqSize
      ensures !Fits(s)
    {
      CalcSizeBounds(s.size, unit);
    }
  }

  /** However large the queue, one request takes it above its capacity: when upstream is quick, segment after segment
      goes in before the first has been inserted. */
  method Overfill(rqSize: nat, unit: nat, latency: nat -> nat) returns (f: ReadFifo)
    requires 0 < unit <= rqSize
    ensures fresh(f) && f.Ready() && f.rqSize == rqSize && f.usage > rqSize
  {
    f := new ReadFifo(rqSize, unit, latency);
    hide ReadFifo.Ready;
    f.Flood(3 * rqSize + 1);
  }
}
