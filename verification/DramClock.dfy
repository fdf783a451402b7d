/** Which counter of the DRAM power model each tick belongs under. The reference is a clock that follows only the power
    state and the set of active banks; the handlers, which add up differences of remembered ticks, are proved to book
    every tick where the clock says. */
module DramClock {
  import opened Helpers
  import opened DramModel
  import opened DramRuns

  /** The power state, the active banks, when self-refresh was entered, and up to where time has been told. */
  datatype Clock = Clock(mem: MemState, active: set<int>, entered: int, to: int)

  function Plus(a: Counters, b: Counters): Counters {
    Counters(a.act + b.act, a.pre + b.pre, a.fActPd + b.fActPd, a.sActPd + b.sActPd, a.fPrePd + b.fPrePd,
             a.sPrePd + b.sPrePd, a.sref + b.sref, a.srefRefAct + b.srefRefAct, a.srefRefPre + b.srefRefPre,
             a.spupRefAct + b.spupRefAct, a.spupRefPre + b.spupRefPre)
  }

  /** The ticks from a to b belong under one counter, except that self-refresh has three stretches: the active and the
      precharge part of its initial refresh, and the rest. */
  function Spent(t: Timing, k: Clock, a: int, b: int): Counters {
    match k.mem
    case NotInPd => if k.active != {} then ZERO.(act := b - a) else ZERO.(pre := b - a)
    case FastActPd => ZERO.(fActPd := b - a)
    case SlowActPd => ZERO.(sActPd := b - a)
    case FastPrePd => ZERO.(fPrePd := b - a)
    case SlowPrePd => ZERO.(sPrePd := b - a)
    case SelfRefresh =>
      ZERO.(srefRefAct := SrefAct(t, k.entered, b) - SrefAct(t, k.entered, a),
            srefRefPre := SrefPre(t, k.entered, b) - SrefPre(t, k.entered, a),
            sref := SrefRest(t, k.entered, b) - SrefRest(t, k.entered, a))
  }

  /** What an exit in the precharge part of the initial refresh counts a second time: what a window boundary had booked
      of that part. */
  function Twice(t: Timing, k: Clock, at: int): int {
    if t.rfc - t.rp <= at - k.entered < t.rfc then SrefPre(t, k.entered, k.to) else 0
  }

  /** What a command books beyond its own tick: the active part of a refresh, and what an exit from self-refresh
      leaves of the initial refresh. */
  function Ahead(t: Timing, k: Clock, c: Command, at: int): Counters {
    match c
    case Ref => ZERO.(act := t.rfc - t.rp)
    case SrEx =>
      ZERO.(spupRefAct := Max(t.rfc - t.rp - (at - k.entered), 0),
            spupRefPre := t.rp - SrefPre(t, k.entered, at) + Twice(t, k, at))
    case _ => ZERO
  }

  /** Up to where a command tells the time. */
  function Until(t: Timing, k: Clock, c: Command, at: int): int {
    match c
    case Ref => at + t.rfc - t.rp
    case SrEx => Max(at, k.entered + t.rfc) + Twice(t, k, at)
    case _ => Max(at, k.to)
  }

  function Mode(mem: MemState, c: Command): MemState {
    match c
    case PdnAct(fast) => if fast then FastActPd else SlowActPd
    case PdnPre(fast) => if fast then FastPrePd else SlowPrePd
    case PupAct => NotInPd
    case PupPre => NotInPd
    case SrEn => SelfRefresh
    case SrEx => NotInPd
    case _ => mem
  }

  function Open(active: set<int>, c: Command): set<int> {
    match c
    case Act(b) => active + {b}
    case Pre(b) => active - {b}
    case PreA => {}
    case _ => active
  }

  function Next(t: Timing, k: Clock, c: Command, at: int): Clock {
    Clock(Mode(k.mem, c), Open(k.active, c), if c.SrEn? then at else k.entered, Until(t, k, c, at))
  }

  function Told(t: Timing, k: Clock, n: Counters, at: int): Counters {
    Plus(n, Spent(t, k, k.to, Max(at, k.to)))
  }

  /** What the windows of a run report, by the clock alone. */
  function Reports(t: Timing, k: Clock, n: Counters, events: seq<Event>): seq<Counters>
    decreases |events|
  {
    if events == [] then []
    else
      match events[0]
      case Issue(c, at) => Reports(t, Next(t, k, c, at), Plus(Told(t, k, n, at), Ahead(t, k, c, at)), events[1..])
      case Boundary(at) => [Told(t, k, n, at)] + Reports(t, k.(to := Max(at, k.to)), ZERO, events[1..])
  }

  function ClockOf(s: State): Clock {
    Clock(s.mem, ActiveBanks(s.banks), s.srefAt, Accounted(s))
  }

  /** The clock shows the power state and the active banks of s, and tells the time at least as far as `now`; n is what
      s has booked and the stretch it has not booked yet. */
  ghost predicate Tracks(t: Timing, s: State, now: int, k: Clock, n: Counters) {
    && Shows(s, k) && k.to == Max(now, Accounted(s))
    && n == Plus(s.n, Spent(t, k, Accounted(s), k.to))
  }

  /** A legal command other than a refresh and an exit from self-refresh books the time by which it moves the
      accounted-for tick on under one counter: active, if some bank is, precharged if none is, and the one of the
      power-down mode when powered down. It moves that tick to its own, unless the counter stays the same. */
  lemma {:induction false} CommandBooksUnder(t: Timing, s: State, c: Command, at: int)
    requires Consistent(t, s) && Legal(s, c, at) && !c.Ref? && !c.SrEx?
    ensures var u := Handle(t, s, c, at);
      var d := Accounted(u) - Accounted(s);
      && u.n == (match s.mem
                 case NotInPd =>
                   if ActiveBanks(s.banks) != {} then s.n.(act := s.n.act + d) else s.n.(pre := s.n.pre + d)
                 case FastActPd => s.n.(fActPd := s.n.fActPd + d)
                 case SlowActPd => s.n.(sActPd := s.n.sActPd + d)
                 case FastPrePd => s.n.(fPrePd := s.n.fPrePd + d)
                 case SlowPrePd => s.n.(sPrePd := s.n.sPrePd + d)
                 case SelfRefresh => s.n)
      && Accounted(s) <= Accounted(u)
      && (Accounted(u) == at ||
          (Accounted(u) == Accounted(s) && u.mem == s.mem == NotInPd &&
           (ActiveBanks(u.banks) == {} <==> ActiveBanks(s.banks) == {})))
  {
    match c
    case Act(b) => BankSwitched(s.banks, b, true);
    case Pre(b) =>
      BankSwitched(s.banks, b, false);
      if s.banks[b] {
        assert b in ActiveBanks(s.banks);
        LastOneOff(s.banks, b);
      }
    case PreA => NoneActive(s.banks);
    case _ =>
  }

  /** A refresh books the idle time before it as precharged, and its own active part as active. */
  lemma {:induction false} RefreshBooksUnder(t: Timing, s: State, at: int)
    requires Consistent(t, s) && Legal(s, Ref, at)
    ensures var u := Handle(t, s, Ref, at);
      && u.n == s.n.(pre := s.n.pre + at - Accounted(s), act := s.n.act + t.rfc - t.rp)
      && Accounted(u) == at + t.rfc - t.rp
  {
    NoneActive(s.banks);
  }

  /** An exit from self-refresh books the stretches since the last window, and what is left of the initial refresh. */
  lemma {:induction false} ExitBooksUnder(t: Timing, s: State, at: int)
    requires Consistent(t, s) && Legal(s, SrEx, at)
    ensures var k, u := ClockOf(s), Handle(t, s, SrEx, at);
      && u.n == Plus(Plus(s.n, Spent(t, k, k.to, at)), Ahead(t, k, SrEx, at))
      && at <= Accounted(u) == Until(t, k, SrEx, at)
  {
    hide ActiveBanks, SrefAct, SrefPre, SrefRest;
    UncutSelfRefresh(t, s, at);
    NothingTwice(t, ClockOf(s), at);
  }

  lemma NothingTwice(t: Timing, k: Clock, at: int)
    requires t.Sane()
    ensures 0 <= Twice(t, k, at)
  {
  }

  /** The closing update books the time up to the clock under the counter of the power state it finds. */
  lemma {:induction false} NopEndBooksUnder(t: Timing, s: State, at: int)
    requires Consistent(t, s)
    requires s.mem != NotInPd || ActiveBanks(s.banks) != {} ==> Accounted(s) <= at
    ensures HandleNopEnd(t, s, at).n == Plus(s.n, Spent(t, ClockOf(s), Accounted(s), Max(at, Accounted(s))))
  {
    hide ActiveBanks;
  }

  /** The clock shows the power state and the active banks of s. */
  ghost predicate Shows(s: State, k: Clock) {
    k.mem == s.mem && k.active == ActiveBanks(s.banks) &&
    (s.mem == SelfRefresh ==> k.entered == s.srefAt && k.to == s.srefWindow)
  }

  /** A legal command changes power state and active banks as its name says. */
  lemma {:induction false} CommandMoves(t: Timing, s: State, k: Clock, c: Command, at: int)
    requires Consistent(t, s) && Legal(s, c, at) && Shows(s, k) && (c.SrEn? ==> k.to <= at)
    ensures Shows(Handle(t, s, c, at), Next(t, k, c, at))
  {
    NoneActive(s.banks);
    match c
    case Act(b) =>
      if s.banks[b] {
        assert b in ActiveBanks(s.banks);
      }
      BankSwitched(s.banks, b, true);
    case Pre(b) =>
      if !s.banks[b] {
        assert b !in ActiveBanks(s.banks);
      }
      BankSwitched(s.banks, b, false);
    case _ =>
  }

  lemma Telescopes(t: Timing, k: Clock, n: Counters, a: int, b: int, c: int)
    ensures Plus(Plus(n, Spent(t, k, a, b)), Spent(t, k, b, c)) == Plus(n, Spent(t, k, a, c))
  {
    hide SrefAct, SrefPre, SrefRest;
  }

  lemma NoTime(t: Timing, k: Clock, n: Counters, a: int)
    ensures Plus(n, Spent(t, k, a, a)) == n == Plus(n, ZERO)
  {
    hide SrefAct, SrefPre, SrefRest;
  }

  lemma SameStretch(t: Timing, k: Clock, m: Clock, a: int, b: int)
    requires k.mem == m.mem && (k.mem == SelfRefresh ==> k.entered == m.entered)
    requires k.active == {} <==> m.active == {}
    ensures Spent(t, k, a, b) == Spent(t, m, a, b)
  {
    hide SrefAct, SrefPre, SrefRest;
  }

  /** The counter stays the same, and the time that has passed may be booked later. */
  ghost predicate Unbooked(s: State, u: State) {
    u.n == s.n && Accounted(u) == Accounted(s) && u.mem == s.mem == NotInPd &&
    (ActiveBanks(u.banks) == {} <==> ActiveBanks(s.banks) == {})
  }

  /** u has booked all the time up to a command, and what the command books ahead. */
  ghost predicate Booked(t: Timing, s: State, u: State, at: int, e: Counters, to: int) {
    && u.n == Plus(Plus(s.n, Spent(t, ClockOf(s), Accounted(s), Max(at, Accounted(s)))), e)
    && Accounted(s) <= at <= Accounted(u) == to
  }

  /** A stretch under one counter, written out. */
  lemma OneCounter(t: Timing, k: Clock, n: Counters, a: int, b: int)
    requires k.mem != SelfRefresh
    ensures Plus(Plus(n, Spent(t, k, a, b)), ZERO) ==
            match k.mem
            case NotInPd => if k.active != {} then n.(act := n.act + b - a) else n.(pre := n.pre + b - a)
            case FastActPd => n.(fActPd := n.fActPd + b - a)
            case SlowActPd => n.(sActPd := n.sActPd + b - a)
            case FastPrePd => n.(fPrePd := n.fPrePd + b - a)
            case SlowPrePd => n.(sPrePd := n.sPrePd + b - a)
            case SelfRefresh => n
  {
  }

  lemma PlainBooks(t: Timing, s: State, c: Command, at: int)
    requires Consistent(t, s) && Legal(s, c, at) && !c.Ref? && !c.SrEx?
    ensures var u := Handle(t, s, c, at);
      Booked(t, s, u, at, ZERO, at) || Unbooked(s, u)
  {
    hide Handle, ActiveBanks, Consistent, Spent, Plus, Accounted;
    CommandBooksUnder(t, s, c, at);
    OneCounter(t, ClockOf(s), s.n, Accounted(s), Max(at, Accounted(s)));
  }

  lemma RefreshBooks(t: Timing, s: State, at: int)
    requires Consistent(t, s) && Legal(s, Ref, at)
    ensures var k := ClockOf(s);
      Booked(t, s, Handle(t, s, Ref, at), at, Ahead(t, k, Ref, at), Until(t, k, Ref, at))
  {
    hide Handle, ActiveBanks, Accounted;
    RefreshBooksUnder(t, s, at);
  }

  lemma ExitBooks(t: Timing, s: State, at: int)
    requires Consistent(t, s) && Legal(s, SrEx, at)
    ensures var k := ClockOf(s);
      Booked(t, s, Handle(t, s, SrEx, at), at, Ahead(t, k, SrEx, at), Until(t, k, SrEx, at))
  {
    hide Handle, ActiveBanks, Accounted, Ahead, Spent, Plus, Until;
    ExitBooksUnder(t, s, at);
  }

  /** What a command books, as a stretch of the clock. */
  lemma CommandBooks(t: Timing, s: State, c: Command, at: int)
    requires Consistent(t, s) && Legal(s, c, at)
    ensures var k, u := ClockOf(s), Handle(t, s, c, at);
      var e := Ahead(t, k, c, at);
      if c.Ref? || c.SrEx? then Booked(t, s, u, at, e, Until(t, k, c, at))
      else e == ZERO && (Booked(t, s, u, at, e, at) || Unbooked(s, u))
  {
    hide Handle, ActiveBanks, Consistent, Legal, Booked, Unbooked, ClockOf, Until;
    if c.Ref? {
      RefreshBooks(t, s, at);
    } else if c.SrEx? {
      ExitBooks(t, s, at);
    } else {
      PlainBooks(t, s, c, at);
    }
  }

  /** All that has been told is what s has booked and the stretch it has not. */
  lemma StretchTold(t: Timing, s: State, now: int, k: Clock, n: Counters, at: int)
    requires Tracks(t, s, now, k, n) && now <= at
    ensures Told(t, k, n, at) == Plus(s.n, Spent(t, ClockOf(s), Accounted(s), Max(at, k.to)))
    ensures Shows(s, k) && k.to <= Max(at, k.to) == Max(at, Accounted(s))
  {
    hide Spent, Plus, Accounted, ActiveBanks;
    var to := Max(at, k.to);
    Telescopes(t, k, s.n, Accounted(s), k.to, to);
    SameStretch(t, k, ClockOf(s), Accounted(s), to);
  }

  /** A clock that shows s and stands where s has booked up to tracks it. */
  lemma AllBooked(t: Timing, s: State, now: int, k: Clock)
    requires Shows(s, k) && now <= k.to == Accounted(s)
    ensures Tracks(t, s, now, k, s.n)
  {
    hide ActiveBanks, Accounted, Spent, Plus;
    NoTime(t, k, s.n, k.to);
  }

  lemma BookedTracks(t: Timing, s: State, u: State, at: int, k: Clock, m: Clock, n: Counters, e: Counters)
    requires Booked(t, s, u, at, e, m.to) && Shows(u, m)
    requires Told(t, k, n, at) == Plus(s.n, Spent(t, ClockOf(s), Accounted(s), Max(at, k.to)))
    requires Max(at, k.to) == Max(at, Accounted(s))
    ensures Tracks(t, u, at, m, Plus(Told(t, k, n, at), e))
  {
    hide Plus, Spent, Told, Shows, Tracks, Accounted, ClockOf;
    AllBooked(t, u, at, m);
  }

  /** When the counter stays the same, the clock tracks what has not been booked. */
  lemma UnbookedTracks(t: Timing, s: State, u: State, at: int, k: Clock, m: Clock, n: Counters)
    requires Unbooked(s, u) && Shows(u, m) && m.to == Max(at, k.to)
    requires Told(t, k, n, at) == Plus(s.n, Spent(t, ClockOf(s), Accounted(s), Max(at, k.to)))
    requires Max(at, k.to) == Max(at, Accounted(s))
    ensures Tracks(t, u, at, m, Plus(Told(t, k, n, at), ZERO))
  {
    assert m.active == {} <==> ActiveBanks(s.banks) == {};
    hide ActiveBanks, Accounted, Spent, Plus, Told;
    SameStretch(t, ClockOf(s), m, Accounted(s), m.to);
    NoTime(t, k, Told(t, k, n, at), 0);
  }

  lemma {:induction false} CommandTracks(t: Timing, s: State, now: int, k: Clock, n: Counters, c: Command, at: int)
    requires Consistent(t, s) && OnTime(s, now) && Legal(s, c, at) && now <= at && Tracks(t, s, now, k, n)
    ensures Tracks(t, Handle(t, s, c, at), at, Next(t, k, c, at), Plus(Told(t, k, n, at), Ahead(t, k, c, at)))
  {
    hide *;
    LegalBank(s, c, at);
    var u, v, e := Handle(t, s, c, at), Next(t, k, c, at), Ahead(t, k, c, at);
    StretchTold(t, s, now, k, n, at);
    EntersLater(s, k, c, at);
    CommandMoves(t, s, k, c, at);
    SameAhead(t, s, k, c, at);
    CommandBooks(t, s, c, at);
    NextTo(t, s, k, c, at);
    if Booked(t, s, u, at, e, v.to) {
      BookedTracks(t, s, u, at, k, v, n, e);
    } else {
      PlainUntil(t, s, u, k, c, at, e);
      UnbookedTracks(t, s, u, at, k, v, n);
    }
  }

  /** Unless it books ahead, a command tells the time up to its own tick, or as far as it had been told. */
  lemma PlainUntil(t: Timing, s: State, u: State, k: Clock, c: Command, at: int, e: Counters)
    requires !c.Ref? && !c.SrEx? && Max(at, k.to) == Max(at, Accounted(s))
    ensures Next(t, k, c, at).to == Max(at, k.to)
    ensures Booked(t, s, u, at, e, at) ==> Booked(t, s, u, at, e, Next(t, k, c, at).to)
  {
    hide Accounted, Spent, Plus, Open, Mode, ClockOf;
  }

  lemma LegalBank(s: State, c: Command, at: int)
    requires Legal(s, c, at)
    ensures (c.Act? || c.Pre?) ==> c.bank < |s.banks|
  {
  }

  lemma EntersLater(s: State, k: Clock, c: Command, at: int)
    requires Legal(s, c, at) && k.to <= Max(at, Accounted(s))
    ensures c.SrEn? ==> k.to <= at
  {
  }

  /** What is booked ahead does not depend on how far time has been told, save within self-refresh. */
  lemma SameAhead(t: Timing, s: State, k: Clock, c: Command, at: int)
    requires Legal(s, c, at) && Shows(s, k)
    ensures Ahead(t, k, c, at) == Ahead(t, ClockOf(s), c, at)
  {
    hide ActiveBanks, SrefPre, Legal;
    if c.SrEx? {
      ExitsSelfRefresh(s, at);
    }
  }

  lemma ExitsSelfRefresh(s: State, at: int)
    requires Legal(s, SrEx, at)
    ensures s.mem == SelfRefresh && Accounted(s) == s.srefWindow
  {
  }

  lemma NextTo(t: Timing, s: State, k: Clock, c: Command, at: int)
    requires Legal(s, c, at) && Shows(s, k)
    ensures c.Ref? || c.SrEx? ==> Next(t, k, c, at).to == Until(t, ClockOf(s), c, at)
  {
    hide ActiveBanks, SrefPre, Legal, Open, Mode;
    if c.SrEx? {
      ExitsSelfRefresh(s, at);
    }
  }

  /** At a boundary the window reports what the clock tells, and the clock goes on from there. */
  lemma {:induction false} BoundaryTracks(t: Timing, s: State, now: int, k: Clock, n: Counters, at: int)
    requires Consistent(t, s) && OnTime(s, now) && now <= at && 0 < at && Tracks(t, s, now, k, n)
    ensures Report(t, s, at) == Told(t, k, n, at)
    ensures Tracks(t, Cut(t, s, at), at, k.(to := Max(at, k.to)), ZERO)
  {
    assert s.mem != NotInPd || ActiveBanks(s.banks) != {} ==> Accounted(s) <= at;
    hide HandleNopEnd, Cut, ActiveBanks, Accounted, Consistent, Spent, Plus, Told, OnTime, Tracks;
    NopEndBooksUnder(t, s, at);
    StretchTold(t, s, now, k, n, at);
    BoundaryKeeps(t, s, now, k, n, at);
  }

  lemma BoundaryKeeps(t: Timing, s: State, now: int, k: Clock, n: Counters, at: int)
    requires Consistent(t, s) && OnTime(s, now) && now <= at && 0 < at && Tracks(t, s, now, k, n)
    ensures Tracks(t, Cut(t, s, at), at, k.(to := Max(at, k.to)), ZERO)
  {
    CutKeeps(t, s, at);
    CutMoves(t, s, at);
    var u, v := Cut(t, s, at), k.(to := Max(at, k.to));
    assert v.to == Accounted(u);
    assert Shows(u, v);
    hide *;
    AllBooked(t, u, at, v);
  }

  lemma CutMoves(t: Timing, s: State, at: int)
    requires 0 < at
    ensures var u := Cut(t, s, at);
      u.mem == s.mem && u.banks == s.banks && u.srefAt == s.srefAt && u.srefWindow == at
  {
  }

  /** In every legal run, whatever commands it issues and however it is cut into windows, each window reports under
      each counter what a clock tells that follows only the power state and the active banks. */
  lemma {:induction false} WindowsReportTheClock(t: Timing, s: State, now: int, from: int, k: Clock, n: Counters,
                                                 events: seq<Event>)
    requires Consistent(t, s) && OnTime(s, now) && LegalRun(t, s, now, events) && Tracks(t, s, now, k, n)
    ensures var ws, rs := Windows(t, s, now, from, events), Reports(t, k, n, events);
      |ws| == |rs| && forall i :: 0 <= i < |ws| ==> ws[i].report == rs[i]
    decreases |events|
  {
    hide Handle, Cut, Report, HandleNopEnd, Consistent, OnTime, Accounted, Tracks, Next, Told, Ahead, Plus;
    if events != [] {
      match events[0]
      case Issue(c, at) =>
        CommandBooksTime(t, s, c, at);
        CommandOnTime(t, s, c, at, now);
        CommandTracks(t, s, now, k, n, c, at);
        WindowsReportTheClock(t, Handle(t, s, c, at), at, from, Next(t, k, c, at),
                              Plus(Told(t, k, n, at), Ahead(t, k, c, at)), events[1..]);
      case Boundary(at) =>
        ReportBooksTime(t, s, at, now);
        OnTimeLater(s, now, at);
        CutKeeps(t, s, at);
        CutOnTime(t, s, at, now);
        BoundaryTracks(t, s, now, k, n, at);
        WindowsReportTheClock(t, Cut(t, s, at), at, Max(at, Accounted(s)), k.(to := Max(at, k.to)), ZERO, events[1..]);
    }
  }

  /** So from a fresh start the counters of every window are those of a clock set to tick 0. */
  lemma {:induction false} FromTheStart(t: Timing, banks: seq<bool>, events: seq<Event>)
    requires t.Sane() && LegalRun(t, Fresh(banks), 0, events)
    ensures var ws := Windows(t, Fresh(banks), 0, 0, events);
      var rs := Reports(t, Clock(NotInPd, {}, 0, 0), ZERO, events);
      |ws| == |rs| && forall i :: 0 <= i < |ws| ==> ws[i].report == rs[i]
  {
    hide *;
    FreshTracks(t, banks);
    WindowsReportTheClock(t, Fresh(banks), 0, 0, Clock(NotInPd, {}, 0, 0), ZERO, events);
  }

  lemma FreshTracks(t: Timing, banks: seq<bool>)
    requires t.Sane()
    ensures Consistent(t, Fresh(banks)) && OnTime(Fresh(banks), 0)
    ensures Tracks(t, Fresh(banks), 0, Clock(NotInPd, {}, 0, 0), ZERO)
  {
    var s, k := Fresh(banks), Clock(NotInPd, {}, 0, 0);
    NoneActive(banks);
    assert Consistent(t, s) && OnTime(s, 0) && Accounted(s) == 0 && s.n == ZERO;
    assert Shows(s, k);
    hide *;
    AllBooked(t, s, 0, k);
  }

  // ---- one window --------------------------------------------------------------------------

  ghost predicate Commands(events: seq<Event>) {
    forall i :: 0 <= i < |events| ==> events[i].Issue?
  }

  /** The state after a list of commands. */
  ghost function After(t: Timing, s: State, now: int, events: seq<Event>): State
    requires Commands(events) && LegalRun(t, s, now, events)
    decreases |events|
  {
    if events == [] then s
    else After(t, Handle(t, s, events[0].c, events[0].at), events[0].at, events[1..])
  }

  /** What the clock tells at the end of a list of commands. */
  ghost function Tells(t: Timing, k: Clock, n: Counters, events: seq<Event>, end: int): Counters
    requires Commands(events)
    decreases |events|
  {
    if events == [] then Told(t, k, n, end)
    else
      var c, at := events[0].c, events[0].at;
      Tells(t, Next(t, k, c, at), Plus(Told(t, k, n, at), Ahead(t, k, c, at)), events[1..], end)
  }

  /** A window of legal commands reports under each counter what the clock tells. */
  lemma {:induction false} OneWindow(t: Timing, s: State, now: int, k: Clock, n: Counters,
                                     events: seq<Event>, end: int)
    requires Consistent(t, s) && OnTime(s, now) && Tracks(t, s, now, k, n) && 0 < end
    requires Commands(events) && LegalRun(t, s, now, events)
    requires now <= end && forall i :: 0 <= i < |events| ==> events[i].at <= end
    ensures HandleNopEnd(t, After(t, s, now, events), end).n == Tells(t, k, n, events, end)
    decreases |events|
  {
    hide Handle, HandleNopEnd, Cut, Consistent, OnTime, Accounted, Tracks, Next, Told, Ahead, Plus;
    if events == [] {
      BoundaryTracks(t, s, now, k, n, end);
    } else {
      var c, at := events[0].c, events[0].at;
      CommandBooksTime(t, s, c, at);
      CommandOnTime(t, s, c, at, now);
      CommandTracks(t, s, now, k, n, c, at);
      OneWindow(t, Handle(t, s, c, at), at, Next(t, k, c, at), Plus(Told(t, k, n, at), Ahead(t, k, c, at)),
                events[1..], end);
    }
  }
}
