/** What a read miss does to the lines of the cache of CacheModel: which addresses it queues, on which lines, and what
    is in those lines once the queued reads are served. */
module CacheReads {
  import opened CacheModel
  import opened Helpers

  /** The lines the queued reads are for. */
  ghost function Targets(list: seq<(nat, Loc)>): set<Loc> {
    set i | 0 <= i < |list| :: list[i].1
  }

  /** An address is queued. */
  ghost predicate QueuedFor(list: seq<(nat, Loc)>, lca: nat) {
    exists i :: 0 <= i < |list| && list[i].0 == lca
  }

  /** The addresses queued are in order, in range, and each has a line of its set. */
  ghost predicate InOrder(g: Shape, list: seq<(nat, Loc)>, begin: nat, to: nat)
    requires g.Sane()
  {
    && (forall i :: 0 <= i < |list| ==>
          begin <= list[i].0 < to && g.InRange(list[i].1) && list[i].1.row == list[i].0 % g.sets)
    && (forall i, j :: 0 <= i < j < |list| ==> list[i].0 < list[j].0)
  }

  /** The line is the one its set offers to a read. */
  ghost predicate ClaimsLine(g: Shape, policy: Policy, lines: Lines, p: Loc)
    requires forall p :: p in lines <==> g.InRange(p)
  {
    g.InRange(p) && Claims(policy, SetOf(g, lines, p.row), p.way)
  }

  /** A stretch of addresses no longer than the number of sets: exactly those that were not cached are queued, each on
      the way its set offers. */
  ghost predicate RightQueue(g: Shape, policy: Policy, before: Lines, list: seq<(nat, Loc)>, begin: nat, to: nat)
    requires g.Sane() && (forall p :: p in before <==> g.InRange(p)) && InOrder(g, list, begin, to)
  {
    to - begin <= g.sets ==>
      && (forall i :: 0 <= i < |list| ==> ClaimsLine(g, policy, before, list[i].1))
      && (forall x: nat :: begin <= x < to ==> (QueuedFor(list, x) <==> !Cached(before, {}, x)))
  }

  ghost predicate SameBut(before: Lines, after: Lines, changed: set<Loc>) {
    after.Keys == before.Keys && forall p :: p in before && p !in changed ==> after[p] == before[p]
  }

  /** Two addresses less than the number of sets apart lie in different sets. */
  lemma SetsApart(a: nat, b: nat, n: nat)
    requires a < b < a + n
    ensures a % n != b % n
  {
    if a % n == b % n {
      Decompose(a, n);
      Decompose(b, n);
      if a / n < b / n {
        MulMonotone(a / n + 1, b / n, n);
      } else {
        MulMonotone(b / n, a / n, n);
      }
    }
  }

  /** The sets of the addresses still to come are as they were. */
  lemma SetUntouched(g: Shape, policy: Policy, before: Lines, now: Lines, list: seq<(nat, Loc)>, begin: nat, lca: nat)
    requires g.Sane() && (forall p :: p in before <==> g.InRange(p))
    requires InOrder(g, list, begin, lca) && begin <= lca < begin + g.sets && SameBut(before, now, Targets(list))
    ensures forall p :: g.InRange(p) && p.row == lca % g.sets ==> p !in Targets(list) && now[p] == before[p]
    ensures forall p: Loc :: p.row == lca % g.sets && ClaimsLine(g, policy, now, p) ==> ClaimsLine(g, policy, before, p)
  {
    forall p | g.InRange(p) && p.row == lca % g.sets
      ensures p !in Targets(list)
    {
      if p in Targets(list) {
        var i :| 0 <= i < |list| && list[i].1 == p;
        SetsApart(list[i].0, lca, g.sets);
      }
    }
    assert SetOf(g, now, lca % g.sets) == SetOf(g, before, lca % g.sets);
  }

  /** An address that is found is not queued; if the stretch is short, it was cached. */
  lemma FoundNotQueued(g: Shape, policy: Policy, before: Lines, now: Lines, list: seq<(nat, Loc)>, begin: nat, lca: nat,
                       p: Loc)
    requires g.Sane() && (forall p :: p in before <==> g.InRange(p))
    requires begin <= lca && InOrder(g, list, begin, lca) && SameBut(before, now, Targets(list))
    requires RightQueue(g, policy, before, list, begin, lca)
    requires g.InRange(p) && p.row == lca % g.sets && now[p].valid && now[p].tag == lca
    ensures InOrder(g, list, begin, lca + 1) && RightQueue(g, policy, before, list, begin, lca + 1)
  {
    hide ClaimsLine;
    if lca + 1 - begin <= g.sets {
      SetUntouched(g, policy, before, now, list, begin, lca);
      assert Holds(before, {}, p, lca);
      forall x: nat | begin <= x < lca + 1
        ensures QueuedFor(list, x) <==> !Cached(before, {}, x)
      {
      }
    }
  }

  /** An address that is not found is queued on the line claimed for it. */
  lemma ClaimedIsQueued(g: Shape, policy: Policy, before: Lines, now: Lines, list: seq<(nat, Loc)>, begin: nat,
                        lca: nat, p: Loc, ftl: map<(nat, nat), int>, mem: map<nat, int>)
    requires g.Sane() && Agrees(g, before, {}, ftl, mem) && (forall p :: p in before <==> g.InRange(p))
    requires begin <= lca && InOrder(g, list, begin, lca) && SameBut(before, now, Targets(list))
    requires RightQueue(g, policy, before, list, begin, lca)
    requires forall q :: g.InRange(q) && q.row == lca % g.sets ==> !(now[q].valid && now[q].tag == lca)
    requires g.InRange(p) && p.row == lca % g.sets && ClaimsLine(g, policy, now, p)
    ensures InOrder(g, list + [(lca, p)], begin, lca + 1)
    ensures RightQueue(g, policy, before, list + [(lca, p)], begin, lca + 1)
  {
    hide ClaimsLine, Agrees, Cached;
    var more := list + [(lca, p)];
    if lca + 1 - begin <= g.sets {
      SetUntouched(g, policy, before, now, list, begin, lca);
      NotFoundNotCached(g, before, lca, ftl, mem);
      forall x: nat | begin <= x < lca + 1
        ensures QueuedFor(more, x) <==> !Cached(before, {}, x)
      {
        QueuedOneMore(list, lca, p, x);
      }
    }
  }

  lemma NotFoundNotCached(g: Shape, lines: Lines, lca: nat, ftl: map<(nat, nat), int>, mem: map<nat, int>)
    requires g.Sane() && Agrees(g, lines, {}, ftl, mem)
    requires forall q :: g.InRange(q) && q.row == lca % g.sets ==> !(lines[q].valid && lines[q].tag == lca)
    ensures !Cached(lines, {}, lca)
  {
    forall q: Loc
      ensures !Holds(lines, {}, q, lca)
    {
    }
  }

  lemma QueuedOneMore(list: seq<(nat, Loc)>, lca: nat, p: Loc, x: nat)
    ensures QueuedFor(list + [(lca, p)], x) <==> QueuedFor(list, x) || x == lca
  {
    var more := list + [(lca, p)];
    assert more[|list|].0 == lca;
    if QueuedFor(list, x) {
      var i :| 0 <= i < |list| && list[i].0 == x;
      assert more[i].0 == x;
    }
    if QueuedFor(more, x) && x != lca {
      var i :| 0 <= i < |more| && more[i].0 == x;
      assert list[i].0 == x;
    }
  }

  lemma TargetsMore(list: seq<(nat, Loc)>, lca: nat, p: Loc)
    ensures Targets(list + [(lca, p)]) == Targets(list) + {p}
  {
    var more := list + [(lca, p)];
    forall q | q in Targets(list) + {p}
      ensures q in Targets(more)
    {
      if q == p {
        assert more[|list|].1 == p;
      } else {
        var i :| 0 <= i < |list| && list[i].1 == q;
        assert more[i].1 == q;
      }
    }
  }

  /** What spilled on the way to the lines now, and then from those, has spilled in all. */
  lemma SpilledTwice(g: Shape, before: Lines, now: Lines, evicted: set<Loc>, p: Loc, f0: map<(nat, nat), int>,
                     f1: map<(nat, nat), int>, f2: map<(nat, nat), int>)
    requires g.Sane() && SameBut(before, now, evicted) && p in now && (p in evicted ==> !now[p].dirty)
    requires Spilled(g, before, evicted, f0, f1) && Spilled(g, now, {p}, f1, f2)
    ensures Spilled(g, before, evicted + {p}, f0, f2)
  {
    hide FtlLook;
    forall lca: nat
      ensures FtlLook(g, f2, lca) == FtlLook(g, f0, lca) || Spills(before, evicted + {p}, lca)
    {
      assert Spills(before, evicted, lca) ==> Spills(before, evicted + {p}, lca);
      if Spills(now, {p}, lca) {
        assert now[p] == before[p];
      }
    }
  }

  /** A valid line of the set of the address is labelled with it, read already or merely reserved. */
  ghost predicate Found(g: Shape, lines: Lines, lca: nat)
    requires g.Sane() && forall p :: g.InRange(p) ==> p in lines
  {
    exists p :: g.InRange(p) && p.row == lca % g.sets && lines[p].valid && lines[p].tag == lca
  }

  /** What the first loop of a read miss has done once it reaches address `to`. */
  ghost predicate ReservedTo(g: Shape, policy: Policy, before: Lines, now: Lines, list: seq<(nat, Loc)>, begin: nat,
                             to: nat, f0: map<(nat, nat), int>, f1: map<(nat, nat), int>)
    requires g.Sane()
  {
    && (forall p :: p in before <==> g.InRange(p))
    && InOrder(g, list, begin, to) && RightQueue(g, policy, before, list, begin, to)
    && SameBut(before, now, Targets(list)) && Spilled(g, before, Targets(list), f0, f1)
  }

  lemma SpilledNothing(g: Shape, before: Lines, now: Lines, evicted: set<Loc>, f0: map<(nat, nat), int>,
                       f1: map<(nat, nat), int>, f2: map<(nat, nat), int>)
    requires g.Sane() && Spilled(g, before, evicted, f0, f1) && Spilled(g, now, {}, f1, f2)
    ensures Spilled(g, before, evicted, f0, f2)
  {
    hide FtlLook;
  }

  lemma NoneFilled(lines: Lines, list: seq<(nat, Loc)>, at: nat, mem: map<nat, int>)
    ensures FilledTo(lines, lines, list, 0, at, mem)
  {
  }

  lemma NothingReserved(g: Shape, policy: Policy, lines: Lines, begin: nat, f: map<(nat, nat), int>)
    requires g.Sane() && (forall p :: p in lines <==> g.InRange(p))
    ensures ReservedTo(g, policy, lines, lines, [], begin, begin, f, f)
  {
    hide FtlLook;
  }

  lemma ReservedSkip(g: Shape, policy: Policy, before: Lines, now: Lines, list: seq<(nat, Loc)>, begin: nat, lca: nat,
                     f0: map<(nat, nat), int>, f1: map<(nat, nat), int>)
    requires g.Sane() && begin <= lca && ReservedTo(g, policy, before, now, list, begin, lca, f0, f1)
    requires Found(g, now, lca)
    ensures ReservedTo(g, policy, before, now, list, begin, lca + 1, f0, f1)
  {
    hide RightQueue, InOrder, Spilled;
    var p :| g.InRange(p) && p.row == lca % g.sets && now[p].valid && now[p].tag == lca;
    FoundNotQueued(g, policy, before, now, list, begin, lca, p);
  }

  lemma ReservedMore(g: Shape, policy: Policy, before: Lines, now: Lines, next: Lines, list: seq<(nat, Loc)>,
                     begin: nat, lca: nat, p: Loc, ftl: map<(nat, nat), int>, f1: map<(nat, nat), int>,
                     f2: map<(nat, nat), int>, mem: map<nat, int>)
    requires g.Sane() && begin <= lca && ReservedTo(g, policy, before, now, list, begin, lca, ftl, f1)
    requires Agrees(g, before, {}, ftl, mem) && !Found(g, now, lca)
    requires g.InRange(p) && p.row == lca % g.sets && ClaimsLine(g, policy, now, p)
    requires p in Targets(list) ==> !now[p].dirty
    requires SameBut(now, next, {p}) && Spilled(g, now, {p}, f1, f2)
    ensures ReservedTo(g, policy, before, next, list + [(lca, p)], begin, lca + 1, ftl, f2)
  {
    hide RightQueue, InOrder, Spilled, ClaimsLine, Agrees;
    ClaimedIsQueued(g, policy, before, now, list, begin, lca, p, ftl, mem);
    TargetsMore(list, lca, p);
    SpilledTwice(g, before, now, Targets(list), p, ftl, f1, f2);
  }

  /** The lines as the second loop has left them after n queued reads: whatever was read last into a line is in it,
      clean, accessed once, since tick `at`. */
  ghost predicate FilledTo(before: Lines, after: Lines, list: seq<(nat, Loc)>, n: nat, at: nat, mem: map<nat, int>)
    requires n <= |list|
  {
    && SameBut(before, after, Targets(list[..n]))
    && forall i :: 0 <= i < n && LastFor(list[..n], i) ==>
         list[i].1 in after && after[list[i].1] == Line(list[i].0, at, at, false, true, 1, Look(mem, list[i].0))
  }

  /** No later read is queued for the line of read i. */
  ghost predicate LastFor(list: seq<(nat, Loc)>, i: nat)
    requires i < |list|
  {
    forall j :: i < j < |list| ==> list[j].1 != list[i].1
  }

  lemma FilledMore(before: Lines, now: Lines, list: seq<(nat, Loc)>, n: nat, at: nat, mem: map<nat, int>)
    requires n < |list| && FilledTo(before, now, list, n, at, mem) && list[n].1 in now
    ensures var l := Line(list[n].0, at, at, false, true, 1, Look(mem, list[n].0));
      FilledTo(before, now[list[n].1 := l], list, n + 1, at, mem)
  {
    var done, more := list[..n], list[..n + 1];
    var l := Line(list[n].0, at, at, false, true, 1, Look(mem, list[n].0));
    assert more == done + [(list[n].0, list[n].1)];
    TargetsMore(done, list[n].0, list[n].1);
    forall i | 0 <= i < n + 1 && LastFor(more, i)
      ensures list[i].1 in now
      ensures now[list[n].1 := l][list[i].1] == Line(list[i].0, at, at, false, true, 1, Look(mem, list[i].0))
    {
      if i < n {
        assert more[n].1 == list[n].1 && more[i] == done[i];
        assert LastFor(done, i) by {
          assert forall j :: i < j < n ==> more[j] == done[j];
        }
      }
    }
  }

  /** What reading ahead over the addresses from begin to end does to lines and FTL. */
  ghost predicate Fetched(g: Shape, policy: Policy, before: Lines, after: Lines, list: seq<(nat, Loc)>, begin: nat,
                          end: nat, at: nat, mem: map<nat, int>)
    requires g.Sane()
  {
    && (forall p :: p in before <==> g.InRange(p))
    && InOrder(g, list, begin, end) && RightQueue(g, policy, before, list, begin, end)
    && FilledTo(before, after, list, |list|, at, mem)
  }

  lemma ReservedThenFilled(g: Shape, policy: Policy, before: Lines, mid: Lines, after: Lines, list: seq<(nat, Loc)>,
                           begin: nat, end: nat, at: nat, mem: map<nat, int>, f0: map<(nat, nat), int>,
                           f1: map<(nat, nat), int>)
    requires g.Sane() && ReservedTo(g, policy, before, mid, list, begin, end, f0, f1)
    requires FilledTo(mid, after, list, |list|, at, mem)
    ensures Fetched(g, policy, before, after, list, begin, end, at, mem)
  {
    hide RightQueue, InOrder, Spilled, LastFor;
    assert list[..|list|] == list;
  }

  /** Over a stretch no longer than the number of sets, every address is cached afterwards: one that was not, in a clean
      line read from the FTL just now. */
  lemma FetchedAll(g: Shape, policy: Policy, before: Lines, after: Lines, list: seq<(nat, Loc)>, begin: nat, end: nat,
                   at: nat, mem: map<nat, int>, ftl: map<(nat, nat), int>, x: nat)
    requires g.Sane() && Agrees(g, before, {}, ftl, mem) && Fetched(g, policy, before, after, list, begin, end, at, mem)
    requires end - begin <= g.sets && begin <= x < end
    ensures Cached(after, {}, x)
    ensures !Cached(before, {}, x) ==>
              exists p :: Holds(after, {}, p, x) && after[p] == Line(x, at, at, false, true, 1, Look(mem, x))
  {
    hide ClaimsLine;
    assert list[..|list|] == list;
    if Cached(before, {}, x) {
      var p :| Holds(before, {}, p, x);
      forall i | 0 <= i < |list|
        ensures list[i].1 != p
      {
        if list[i].1 == p {
          OneQueuedPerSet(g, list, begin, end, i, x);
        }
      }
      assert p !in Targets(list);
      assert Holds(after, {}, p, x);
    } else {
      assert QueuedFor(list, x);
      var i :| 0 <= i < |list| && list[i].0 == x;
      forall j | i < j < |list|
        ensures list[j].1 != list[i].1
      {
        SetsApart(list[i].0, list[j].0, g.sets);
      }
      assert LastFor(list, i);
      assert Holds(after, {}, list[i].1, x);
    }
  }

  lemma OneQueuedPerSet(g: Shape, list: seq<(nat, Loc)>, begin: nat, end: nat, i: nat, x: nat)
    requires g.Sane() && InOrder(g, list, begin, end) && end - begin <= g.sets && begin <= x < end
    requires i < |list| && list[i].1.row == x % g.sets
    ensures list[i].0 == x
  {
    if list[i].0 < x {
      SetsApart(list[i].0, x, g.sets);
    } else if x < list[i].0 {
      SetsApart(x, list[i].0, g.sets);
    }
  }

  lemma OneAtMost(g: Shape, list: seq<(nat, Loc)>, lca: nat)
    requires g.Sane() && InOrder(g, list, lca, lca + 1)
    ensures |list| <= 1
  {
    if list != [] {
      var first, last := list[0].0, list[|list| - 1].0;
    }
  }

  /** A single address that was not cached: exactly one line changes. */
  lemma FetchedOne(g: Shape, policy: Policy, before: Lines, after: Lines, list: seq<(nat, Loc)>, lca: nat, at: nat,
                   mem: map<nat, int>)
    requires g.Sane() && Fetched(g, policy, before, after, list, lca, lca + 1, at, mem) && !Cached(before, {}, lca)
    ensures |list| == 1 && list[0].0 == lca && Targets(list) == {list[0].1}
    ensures g.InRange(list[0].1) && list[0].1.row == lca % g.sets
    ensures ClaimsLine(g, policy, before, list[0].1)
    ensures after == before[list[0].1 := Line(lca, at, at, false, true, 1, Look(mem, lca))]
  {
    hide ClaimsLine;
    assert list[..|list|] == list;
    assert QueuedFor(list, lca);
    OneAtMost(g, list, lca);
    assert LastFor(list, 0);
    assert Targets(list) == {list[0].1};
  }
}
