/** The firmware cores (simplessd/cpu/cpu.cc): one core serves its jobs in order of submission, and the least busy
    core is picked for the next job. */
module CpuCore {
  import opened Helpers

  datatype Job = Job(context: nat, latency: nat, delay: nat, submitAt: nat)

  /** The tick from which job k could run if the core were idle. */
  function Ready(jobs: seq<Job>, k: nat): nat
    requires k < |jobs|
  {
    jobs[k].submitAt + jobs[k].delay
  }

  /** When job k finishes: it starts once it is ready and its predecessor has finished. */
  function Finish(jobs: seq<Job>, k: nat): nat
    requires k < |jobs|
  {
    Max(if k == 0 then 0 else Finish(jobs, k - 1), Ready(jobs, k)) + jobs[k].latency
  }

  /** The work of jobs j .. k. */
  function Work(jobs: seq<Job>, j: nat, k: nat): nat
    requires j <= k < |jobs|
  {
    jobs[k].latency + if j == k then 0 else Work(jobs, j, k - 1)
  }

  /** The closed form: a job finishes as late as the worst of its predecessors and itself makes it, from the tick that
      one was ready, with everything up to the job itself served without a pause. */
  lemma {:induction false} FinishIsLongestChain(jobs: seq<Job>, k: nat)
    requires k < |jobs|
    ensures forall j :: 0 <= j <= k ==> Finish(jobs, k) >= Ready(jobs, j) + Work(jobs, j, k)
    ensures exists j :: 0 <= j <= k && Finish(jobs, k) == Ready(jobs, j) + Work(jobs, j, k)
  {
    if k == 0 || Finish(jobs, k - 1) <= Ready(jobs, k) {
      assert Finish(jobs, k) == Ready(jobs, k) + Work(jobs, k, k);
    }
    if k > 0 {
      FinishIsLongestChain(jobs, k - 1);
      var j :| 0 <= j <= k - 1 && Finish(jobs, k - 1) == Ready(jobs, j) + Work(jobs, j, k - 1);
      assert Work(jobs, j, k) == Work(jobs, j, k - 1) + jobs[k].latency;
    }
  }

  /** Jobs submitted later change nothing for those before them. */
  lemma {:induction false} FinishOfPrefix(jobs: seq<Job>, more: seq<Job>, k: nat)
    requires k < |jobs|
    ensures Finish(jobs + more, k) == Finish(jobs, k)
  {
    if k > 0 {
      FinishOfPrefix(jobs, more, k - 1);
    }
  }

  function TotalLatency(jobs: seq<Job>): nat {
    if jobs == [] then 0 else TotalLatency(jobs[..|jobs| - 1]) + jobs[|jobs| - 1].latency
  }

  class Core {
    var now: nat
    var jobs: seq<Job>
    var busy: bool
    var statBusy: nat
    var jobEvent: Option<nat>       // the tick it is scheduled for
    ghost var submitted: seq<Job>   // every job there has been
    ghost var finished: seq<nat>    // when each job that is done was called back
    ghost var added: nat            // busy time reported from outside the queue

    /** The queue holds what is not done; what is done was done in order, each job at its due tick. */
    ghost predicate Served()
      reads `jobs, `submitted, `finished, `statBusy, `added
    {
      && |finished| <= |submitted| && jobs == submitted[|finished|..]
      && (forall k :: 0 <= k < |finished| ==> finished[k] == Finish(submitted, k))
      && statBusy == TotalLatency(submitted[..|finished|]) + added
    }

    ghost predicate Past()
      reads `now, `submitted, `finished
    {
      && (forall k :: 0 <= k < |finished| ==> finished[k] <= now)
      && (forall k :: 0 <= k < |submitted| ==> submitted[k].submitAt <= now)
    }

    /** Between events: busy exactly when a job is queued, and then due to finish the front one on time. */
    ghost predicate Valid()
      reads this
    {
      && Served() && Past()
      && (busy <==> jobs != [])
      && (busy ==> jobEvent == Some(Finish(submitted, |finished|)) && now <= jobEvent.value)
      && (!busy ==> jobEvent.None?)
    }

    constructor ()
      ensures Valid() && submitted == [] && finished == [] && !busy && added == 0
    {
      now, jobs, busy, statBusy, jobEvent := 0, [], false, 0, None;
      submitted, finished, added := [], [], 0;
    }

    method Advance(t: nat)
      requires Valid() && now <= t && (jobEvent.Some? ==> t <= jobEvent.value)
      modifies `now
      ensures Valid() && now == t
    {
      hide Served;
      now := t;
    }

    /** Start the front job. */
    method HandleJob()
      requires Served() && Past() && jobs != []
      requires |finished| > 0 && now != finished[|finished| - 1] ==> now == jobs[0].submitAt
      requires |finished| == 0 ==> now == jobs[0].submitAt
      modifies `busy, `jobEvent
      ensures busy && jobEvent == Some(Finish(submitted, |finished|)) && now <= jobEvent.value
    {
      var diff := now - jobs[0].submitAt;
      var finishedAt: nat;
      if diff >= jobs[0].delay {
        finishedAt := now + jobs[0].latency;
      } else {
        finishedAt := now + jobs[0].latency + jobs[0].delay - diff;
      }
      assert jobs[0] == submitted[|finished|];
      busy := true;
      jobEvent := Some(finishedAt);
    }

    /** A new job joins the queue; an idle core starts it. */
    method SubmitJob(context: nat, latency: nat, delay: nat)
      requires Valid()
      modifies `jobs, `submitted, `busy, `jobEvent
      ensures Valid()
      ensures submitted == old(submitted) + [Job(context, latency, delay, now)]
    {
      ghost var was := submitted;
      Queue(context, latency, delay);
      if !busy {
        HandleJob();
      } else {
        FinishOfPrefix(was, [submitted[|was|]], |finished|);
      }
    }

    method Queue(context: nat, latency: nat, delay: nat)
      requires Served() && Past()
      modifies `jobs, `submitted
      ensures Served() && Past() && jobs == old(jobs) + [Job(context, latency, delay, now)]
      ensures submitted == old(submitted) + [Job(context, latency, delay, now)]
    {
      var job := Job(context, latency, delay, now);
      forall k | 0 <= k < |finished|
        ensures Finish(submitted + [job], k) == Finish(submitted, k)
      {
        FinishOfPrefix(submitted, [job], k);
      }
      assert (submitted + [job])[|finished|..] == submitted[|finished|..] + [job];
      assert (submitted + [job])[..|finished|] == submitted[..|finished|];
      jobs := jobs + [job];
      submitted := submitted + [job];
    }

    /** The event fires: the front job's function is called, which may submit the jobs in `more`, then it leaves and
        the next one starts. */
    method JobDone(more: seq<Job>)
      requires Valid() && jobEvent == Some(now)
      modifies `jobs, `submitted, `busy, `jobEvent, `statBusy, `finished
      ensures Valid() && finished == old(finished) + [now]
      ensures submitted == old(submitted) + Submissions(more, now)
    {
      hide Served;
      jobEvent := None;
      Callback(more);
      Leave();
      busy := false;
      if |jobs| > 0 {
        HandleJob();
      }
    }

    /** What the callback submits waits behind the job that is still at the front. */
    method Callback(more: seq<Job>)
      requires Served() && Past() && busy && jobs != [] && jobEvent.None? && now == Finish(submitted, |finished|)
      modifies `jobs, `submitted
      ensures Served() && Past() && jobs != [] && now == Finish(submitted, |finished|)
      ensures submitted == old(submitted) + Submissions(more, now)
    {
      var i := 0;
      while i < |more|
        invariant i <= |more| && Served() && Past() && jobs != [] && now == Finish(submitted, |finished|)
        invariant submitted == old(submitted) + Submissions(more, now)[..i]
      {
        ghost var was := submitted;
        Queue(more[i].context, more[i].latency, more[i].delay);
        FinishOfPrefix(was, [submitted[|was|]], |finished|);
        assert Submissions(more, now)[..i + 1] == Submissions(more, now)[..i] + [submitted[|was|]];
        i := i + 1;
      }
      assert Submissions(more, now)[..i] == Submissions(more, now);
    }

    method Leave()
      requires Served() && Past() && jobs != [] && now == Finish(submitted, |finished|)
      modifies `statBusy, `jobs, `finished
      ensures Served() && Past() && finished == old(finished) + [now]
    {
      assert jobs[0] == submitted[|finished|];
      assert submitted[..|finished| + 1][..|finished|] == submitted[..|finished|];
      statBusy := statBusy + jobs[0].latency;
      jobs := jobs[1..];
      finished := finished + [now];
    }

    /** Work reported without a job counts as busy time all the same; no job is held up by it. */
    method AddStat(latency: nat)
      requires Valid()
      modifies `statBusy, `added
      ensures Valid() && statBusy == old(statBusy) + latency && added == old(added) + latency
    {
      statBusy := statBusy + latency;
      added := added + latency;
    }
  }

  function Submissions(more: seq<Job>, now: nat): seq<Job> {
    seq(|more|, i requires 0 <= i < |more| => more[i].(submitAt := now))
  }

  // ---- choosing a core ---------------------------------------------------------------------

  const MAX_TICK: nat := 0xFFFF_FFFF_FFFF_FFFF

  datatype Load = Load(busy: bool, statBusy: nat, jobs: nat)

  ghost predicate Idle(list: seq<Load>, i: nat) {
    i < |list| && !list[i].busy && list[i].statBusy < MAX_TICK
  }

  /** Among the first n, core i is the first idle one with the least accumulated busy time. */
  ghost predicate FirstLeastUsed(list: seq<Load>, n: nat, i: nat) {
    && Idle(list, i) && i < n
    && (forall j :: 0 <= j < n && Idle(list, j) ==> list[i].statBusy <= list[j].statBusy)
    && (forall j :: 0 <= j < i && Idle(list, j) ==> list[i].statBusy < list[j].statBusy)
  }

  /** Among the first n, core i is the last one with the fewest jobs queued. */
  ghost predicate LastShortest(list: seq<Load>, n: nat, i: nat) {
    && i < n <= |list|
    && (forall j :: 0 <= j < n ==> list[i].jobs <= list[j].jobs)
    && (forall j :: i < j < n ==> list[i].jobs < list[j].jobs)
  }

  /** An idle core if there is one, the least used so far, and otherwise the one with the shortest queue. */
  method LeastBusyCPU(list: seq<Load>) returns (idx: nat)
    requires forall i :: 0 <= i < |list| ==> list[i].jobs <= MAX_TICK
    ensures (exists i :: 0 <= i < |list| && Idle(list, i)) ==> FirstLeastUsed(list, |list|, idx)
    ensures (forall i :: 0 <= i < |list| ==> !Idle(list, i)) && list != [] ==> LastShortest(list, |list|, idx)
    ensures list == [] ==> idx == 0
  {
    idx := |list|;
    var busymin := MAX_TICK;
    var i := 0;
    while i < |list|
      invariant i <= |list| && (idx < i || idx == |list|)
      invariant idx == |list| ==> busymin == MAX_TICK && forall j :: 0 <= j < i ==> !Idle(list, j)
      invariant idx < i ==> FirstLeastUsed(list, i, idx) && busymin == list[idx].statBusy
    {
      if !list[i].busy && list[i].statBusy < busymin {
        busymin := list[i].statBusy;
        idx := i;
      }
      i := i + 1;
    }
    if idx == |list| {
      var jobmin := MAX_TICK;
      i := 0;
      while i < |list|
        invariant i <= |list| && (i == 0 ==> idx == |list| && jobmin == MAX_TICK)
        invariant i > 0 ==> LastShortest(list, i, idx) && jobmin == list[idx].jobs
      {
        if list[i].jobs <= jobmin {
          jobmin := list[i].jobs;
          idx := i;
        }
        i := i + 1;
      }
    }
  }
}
