/** Whole runs of the DRAM power model, cut into statistics windows anywhere. */
module DramRuns {
  import opened Helpers
  import opened DramModel

  // ---- time is partitioned -----------------------------------------------------------------

  datatype Event = Issue(c: Command, at: int) | Boundary(at: int)

  /** What a window reports, and the ticks between which it accounts for time. */
  datatype Window = Window(report: Counters, from: int, to: int)

  /** Events with non-decreasing time stamps, each command legal where it is issued. */
  ghost predicate LegalRun(t: Timing, s: State, now: int, events: seq<Event>)
    decreases |events|
  {
    events != [] ==>
      var e := events[0];
      && now <= e.at
      && match e
         case Issue(c, at) => Legal(s, c, at) && LegalRun(t, Handle(t, s, c, at), at, events[1..])
         case Boundary(at) => 0 < at && LegalRun(t, Cut(t, s, at), at, events[1..])
  }

  ghost function Windows(t: Timing, s: State, now: int, from: int, events: seq<Event>): seq<Window>
    requires LegalRun(t, s, now, events)
    decreases |events|
  {
    if events == [] then []
    else
      match events[0]
      case Issue(c, at) => Windows(t, Handle(t, s, c, at), at, from, events[1..])
      case Boundary(at) =>
        var to := Max(at, Accounted(s));
        [Window(Report(t, s, at), from, to)] + Windows(t, Cut(t, s, at), at, to, events[1..])
  }

  /** Outside idle precharge nothing is booked ahead of the clock. */
  ghost predicate OnTime(s: State, now: int) {
    s.mem != NotInPd || ActiveBanks(s.banks) != {} ==> Accounted(s) <= now
  }

  lemma CommandOnTime(t: Timing, s: State, c: Command, at: int, now: int)
    requires Consistent(t, s) && Legal(s, c, at) && OnTime(s, now) && now <= at
    ensures OnTime(Handle(t, s, c, at), at)
  {
    CommandBooksTime(t, s, c, at);
    if c.Pre? {
      BankSwitched(s.banks, c.bank, false);
    }
  }

  lemma CutOnTime(t: Timing, s: State, at: int, now: int)
    requires Consistent(t, s) && OnTime(s, now) && now <= at && 0 < at
    ensures OnTime(Cut(t, s, at), at)
  {
  }

  /** One boundary: the window's counters account for the time since the last one. */
  lemma ReportBooksTime(t: Timing, s: State, at: int, now: int)
    requires Consistent(t, s) && OnTime(s, now) && now <= at && 0 < at
    ensures Report(t, s, at).Total() == s.n.Total() + Max(at, Accounted(s)) - Accounted(s)
  {
    hide HandleNopEnd, Consistent, Accounted, Counters.Total;
    assert s.mem != NotInPd || ActiveBanks(s.banks) != {} ==> Accounted(s) <= at;
    NopEndBooksTime(t, s, at);
  }

  lemma OnTimeLater(s: State, now: int, at: int)
    requires OnTime(s, now) && now <= at
    ensures s.mem != NotInPd || ActiveBanks(s.banks) != {} ==> Accounted(s) <= at
  {
  }

  /** However a legal run is cut into windows, each window's counters add up to exactly the stretch of time it
      accounts for, and the stretches follow one another without gap or overlap. */
  lemma {:induction false} WindowsPartitionTime(t: Timing, s: State, now: int, from: int, events: seq<Event>)
    requires Consistent(t, s) && OnTime(s, now) && LegalRun(t, s, now, events)
    requires s.n.Total() == Accounted(s) - from
    ensures var ws := Windows(t, s, now, from, events);
      && (forall i :: 0 <= i < |ws| ==> ws[i].report.Total() == ws[i].to - ws[i].from)
      && (forall i :: 0 <= i < |ws| - 1 ==> ws[i].to == ws[i + 1].from)
      && (ws != [] ==> ws[0].from == from)
    decreases |events|
  {
    hide Handle, Cut, Report, HandleNopEnd, Consistent, OnTime, Accounted, Counters.Total;
    if events != [] {
      match events[0]
      case Issue(c, at) =>
        CommandBooksTime(t, s, c, at);
        CommandOnTime(t, s, c, at, now);
        WindowsPartitionTime(t, Handle(t, s, c, at), at, from, events[1..]);
      case Boundary(at) =>
        ReportBooksTime(t, s, at, now);
        OnTimeLater(s, now, at);
        CutKeeps(t, s, at);
        CutOnTime(t, s, at, now);
        NothingBooked();
        var to := Max(at, Accounted(s));
        WindowsPartitionTime(t, Cut(t, s, at), at, to, events[1..]);
    }
  }

  /** No command that books time ahead. */
  ghost predicate Plain(events: seq<Event>) {
    forall i :: 0 <= i < |events| && events[i].Issue? ==> !events[i].c.Ref? && !events[i].c.SrEn? && !events[i].c.SrEx?
  }

  /** The ticks of the window boundaries. */
  function Boundaries(events: seq<Event>): seq<int> {
    if events == [] then []
    else if events[0].Boundary? then [events[0].at] + Boundaries(events[1..])
    else Boundaries(events[1..])
  }

  ghost predicate PlainCounters(n: Counters) {
    n.sref == 0 && n.srefRefAct == 0 && n.srefRefPre == 0 && n.spupRefAct == 0 && n.spupRefPre == 0
  }

  /** Without refreshes every window spans exactly the time between its two boundaries, and that time is split
      between active, precharged and the four power-down counters. */
  lemma {:induction false} PlainWindowsAreElapsedTime(t: Timing, s: State, now: int, from: int, events: seq<Event>)
    requires Consistent(t, s) && Accounted(s) <= now && LegalRun(t, s, now, events)
    requires Plain(events) && s.mem != SelfRefresh && PlainCounters(s.n)
    ensures var ws := Windows(t, s, now, from, events);
      && |ws| == |Boundaries(events)|
      && (forall i :: 0 <= i < |ws| ==> ws[i].to == Boundaries(events)[i] && PlainCounters(ws[i].report))
    decreases |events|
  {
    if events != [] {
      assert Plain(events[1..]);
      match events[0]
      case Issue(c, at) =>
        CommandBooksTime(t, s, c, at);
        PlainCommand(t, s, c, at);
        PlainWindowsAreElapsedTime(t, Handle(t, s, c, at), at, from, events[1..]);
      case Boundary(at) =>
        CutKeeps(t, s, at);
        PlainWindowsAreElapsedTime(t, Cut(t, s, at), at, Max(at, Accounted(s)), events[1..]);
    }
  }

  lemma PlainCommand(t: Timing, s: State, c: Command, at: int)
    requires Consistent(t, s) && Legal(s, c, at) && Accounted(s) <= at
    requires !c.Ref? && !c.SrEn? && !c.SrEx? && s.mem != SelfRefresh && PlainCounters(s.n)
    ensures var u := Handle(t, s, c, at);
      Accounted(u) <= at && u.mem != SelfRefresh && PlainCounters(u.n)
  {
    match c
    case Act(b) =>
      BankSwitched(s.banks, b, true);
      if !s.banks[b] {
        assert b in ActiveBanks(s.banks[b := true]);
      }
    case Pre(b) =>
      BankSwitched(s.banks, b, false);
      if s.banks[b] {
        assert b in ActiveBanks(s.banks);
        LastOneOff(s.banks, b);
      }
    case PreA => NoneActive(s.banks);
    case _ =>
  }

  /** So in every window of a run without refreshes the active, precharged and four power-down counters add up to
      exactly the time since the boundary before it. */
  lemma {:induction false} PlainCountersAreElapsedTime(t: Timing, s: State, now: int, from: int, events: seq<Event>)
    requires Consistent(t, s) && Accounted(s) <= now && LegalRun(t, s, now, events)
    requires Plain(events) && s.mem != SelfRefresh && PlainCounters(s.n) && s.n.Total() == Accounted(s) - from
    ensures var ws, bs := Windows(t, s, now, from, events), Boundaries(events);
      && |ws| == |bs|
      && forall i :: 0 <= i < |ws| ==>
           var n := ws[i].report;
           n.act + n.pre + n.fActPd + n.sActPd + n.fPrePd + n.sPrePd == bs[i] - (if i == 0 then from else bs[i - 1])
  {
    hide Windows, Boundaries, Consistent, LegalRun, Plain, Accounted;
    WindowsPartitionTime(t, s, now, from, events);
    PlainWindowsAreElapsedTime(t, s, now, from, events);
    var ws, bs := Windows(t, s, now, from, events), Boundaries(events);
    forall i | 0 <= i < |ws|
      ensures ws[i].report.Total() == bs[i] - (if i == 0 then from else bs[i - 1])
    {
      if i > 0 {
        assert ws[i - 1].to == ws[i].from;
      }
    }
  }

  // ---- cutting a self-refresh --------------------------------------------------------------

  /** What one self-refresh adds to the counters, over all the windows it is cut into, and where it leaves
      last_pre_cycle. */
  datatype Tally = Tally(act: int, pre: int, rest: int, spupAct: int, spupPre: int, lastPre: int)

  function Gained(before: Counters, after: Counters, lastPre: int): Tally {
    Tally(after.srefRefAct - before.srefRefAct, after.srefRefPre - before.srefRefPre, after.sref - before.sref,
          after.spupRefAct - before.spupRefAct, after.spupRefPre - before.spupRefPre, lastPre)
  }

  /** From state s in self-refresh, windows ending at each of `cuts`, then the exit. */
  function SelfRefreshTally(t: Timing, s: State, cuts: seq<int>, exit: int): Tally
    decreases |cuts|
  {
    if cuts == [] then
      var u := HandleSREx(t, s, exit);
      Gained(s.n, u.n, u.lastPre)
    else
      var w := Gained(s.n, Report(t, s, cuts[0]), 0);
      var r := SelfRefreshTally(t, Cut(t, s, cuts[0]), cuts[1..], exit);
      Tally(w.act + r.act, w.pre + r.pre, w.rest + r.rest, w.spupAct + r.spupAct, w.spupPre + r.spupPre, r.lastPre)
  }

  ghost predicate InOrder(from: int, cuts: seq<int>, exit: int) {
    && (forall i :: 0 <= i < |cuts| ==> from <= cuts[i] <= exit && 0 < cuts[i])
    && (forall i, j :: 0 <= i < j < |cuts| ==> cuts[i] <= cuts[j])
    && from <= exit
  }

  /** One window inside a self-refresh: its three counters grow by the parts of the initial refresh and of the
      rest that fall into it, so together by its length. */
  lemma {:induction false} SelfRefreshWindow(t: Timing, s: State, at: int)
    requires Consistent(t, s) && s.mem == SelfRefresh && s.srefWindow <= at && 0 < at
    ensures var g := Gained(s.n, Report(t, s, at), 0);
      && g.act == SrefAct(t, s.srefAt, at) - SrefAct(t, s.srefAt, s.srefWindow)
      && g.pre == SrefPre(t, s.srefAt, at) - SrefPre(t, s.srefAt, s.srefWindow)
      && g.rest == SrefRest(t, s.srefAt, at) - SrefRest(t, s.srefAt, s.srefWindow)
      && g.act + g.pre + g.rest == at - s.srefWindow
      && g.spupAct == 0 && g.spupPre == 0
    ensures var u := Cut(t, s, at);
      && Consistent(t, u) && u.mem == SelfRefresh && u.srefAt == s.srefAt && u.srefWindow == at && u.n == ZERO
      && u.preWindow == SrefPre(t, s.srefAt, at)
  {
  }

  /** How much of the precharge part was already booked by the last window before the exit. */
  function PreBooked(t: Timing, s: State, cuts: seq<int>): int {
    SrefPre(t, s.srefAt, if cuts == [] then s.srefWindow else cuts[|cuts| - 1])
  }

  /** The exit falls into the precharge part of the initial refresh. */
  ghost predicate EarlyExit(t: Timing, s: State, exit: int) {
    t.rfc - t.rp <= exit - s.srefAt < t.rfc
  }

  /** However a self-refresh is cut into windows, the cycles booked as active refresh, precharged refresh and plain
      self-refresh add up to the same closed form. The power-up part is off by what had been booked of the
      precharge part, when the exit falls into that part. */
  lemma {:induction false} CutSelfRefresh(t: Timing, s: State, cuts: seq<int>, exit: int)
    requires Consistent(t, s) && s.mem == SelfRefresh && InOrder(s.srefWindow, cuts, exit)
    ensures var r := SelfRefreshTally(t, s, cuts, exit);
      && r.act == SrefAct(t, s.srefAt, exit) - SrefAct(t, s.srefAt, s.srefWindow)
      && r.pre == SrefPre(t, s.srefAt, exit) - SrefPre(t, s.srefAt, s.srefWindow)
      && r.rest == SrefRest(t, s.srefAt, exit) - SrefRest(t, s.srefAt, s.srefWindow)
      && r.spupAct == Max(t.rfc - t.rp - (exit - s.srefAt), 0)
      && r.spupPre == t.rp - SrefPre(t, s.srefAt, exit) + (if EarlyExit(t, s, exit) then PreBooked(t, s, cuts) else 0)
      && r.lastPre == Max(exit, s.srefAt + t.rfc) + (if EarlyExit(t, s, exit) then PreBooked(t, s, cuts) else 0)
    decreases |cuts|
  {
    if cuts == [] {
      UncutSelfRefresh(t, s, exit);
    } else {
      SelfRefreshWindow(t, s, cuts[0]);
      hide Consistent, Report, Cut, HandleSREx, SrefAct, SrefPre, SrefRest;
      CutSelfRefresh(t, Cut(t, s, cuts[0]), cuts[1..], exit);
    }
  }

  lemma UncutSelfRefresh(t: Timing, s: State, exit: int)
    requires Consistent(t, s) && s.mem == SelfRefresh && s.srefWindow <= exit
    ensures var r := SelfRefreshTally(t, s, [], exit);
      && r.act == SrefAct(t, s.srefAt, exit) - SrefAct(t, s.srefAt, s.srefWindow)
      && r.pre == SrefPre(t, s.srefAt, exit) - SrefPre(t, s.srefAt, s.srefWindow)
      && r.rest == SrefRest(t, s.srefAt, exit) - SrefRest(t, s.srefAt, s.srefWindow)
      && r.spupAct == Max(t.rfc - t.rp - (exit - s.srefAt), 0)
      && r.spupPre == t.rp - SrefPre(t, s.srefAt, exit) + (if EarlyExit(t, s, exit) then PreBooked(t, s, []) else 0)
      && r.lastPre == Max(exit, s.srefAt + t.rfc) + (if EarlyExit(t, s, exit) then PreBooked(t, s, []) else 0)
  {
  }

  /** Cutting is harmless to everything a self-refresh adds up to exactly when it is not the case that the exit
      falls into the precharge part of the initial refresh after a window boundary did too. */
  lemma {:induction false} CuttingIsHarmless(t: Timing, s: State, cuts: seq<int>, exit: int)
    requires Consistent(t, s) && s.mem == SelfRefresh && s.srefWindow == s.srefAt && InOrder(s.srefAt, cuts, exit)
    ensures var r, whole := SelfRefreshTally(t, s, cuts, exit), SelfRefreshTally(t, s, [], exit);
      && r.act == whole.act && r.pre == whole.pre && r.rest == whole.rest && r.spupAct == whole.spupAct
      && (r == whole <==>
            !(cuts != [] && cuts[|cuts| - 1] > s.srefAt + t.rfc - t.rp && exit < s.srefAt + t.rfc))
  {
    CutSelfRefresh(t, s, cuts, exit);
    CutSelfRefresh(t, s, [], exit);
  }

  /** What one boundary inside the precharge part costs when the exit falls there too. */
  lemma {:induction false} CutOnce(t: Timing, s: State, cut: int, exit: int)
    requires Consistent(t, s) && s.mem == SelfRefresh && s.srefWindow == s.srefAt && 0 < cut
    requires s.srefAt + t.rfc - t.rp < cut <= exit < s.srefAt + t.rfc
    ensures var whole, r := SelfRefreshTally(t, s, [], exit), SelfRefreshTally(t, s, [cut], exit);
      && whole.spupPre == s.srefAt + t.rfc - exit
      && r.spupPre == whole.spupPre + cut - (s.srefAt + t.rfc - t.rp)
      && r.lastPre == whole.lastPre + cut - (s.srefAt + t.rfc - t.rp)
  {
    hide SelfRefreshTally;
    var cuts := [cut];
    assert InOrder(s.srefAt, cuts, exit);
    CutSelfRefresh(t, s, cuts, exit);
    CutSelfRefresh(t, s, [], exit);
  }

  /** Any number of banks, precharged and in self-refresh since tick 0, nothing booked yet. */
  function InSelfRefresh(banks: seq<bool>): State {
    State(AllPrecharged(banks), AllPrecharged(banks), SelfRefresh, 0, 0, 0, 0, 0, 0, 0, ZERO)
  }

  lemma JustEntered(t: Timing, s: State)
    requires t.Sane() && ActiveBanks(s.banks) == {} && s.mem == SelfRefresh
    requires s.srefAt == s.srefWindow && s.actWindow == s.preWindow == 0
    ensures Consistent(t, s)
  {
    hide ActiveBanks;
  }

  /** Self-refresh entered at tick 0, cut at 8 and left at 9, inside the precharge part from 7 to 10: one cycle too
      many. */
  lemma {:induction false} CuttingCanHarm(banks: seq<bool>)
    ensures var t, s := Timing(10, 3), InSelfRefresh(banks);
      && s == HandleSREn(Fresh(banks), 0) && Consistent(t, s)
      && SelfRefreshTally(t, s, [], 9).spupPre == 1
      && SelfRefreshTally(t, s, [8], 9).spupPre == 2
      && SelfRefreshTally(t, s, [8], 9).lastPre == SelfRefreshTally(t, s, [], 9).lastPre + 1
  {
    hide SelfRefreshTally, Consistent, ActiveBanks, AllPrecharged;
    NoneActive(banks);
    JustEntered(Timing(10, 3), InSelfRefresh(banks));
    CutOnce(Timing(10, 3), InSelfRefresh(banks), 8, 9);
  }
}
