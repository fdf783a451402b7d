/** Class CommandAnalysis of the DRAM power model, with the fields that partition time, the bank states and the power
    state. Each handler is proved to take the state where the function of the same name in DramModel says. */
module CommandAnalysis {
  import opened Helpers
  import opened DramClock
  import opened DramModel
  import opened DramRuns

  /** An entry of the command list: a command, the end of a trace or window, or a type the dispatch does not know. */
  datatype Entry = Do(c: Command, at: int) | NopOrEnd(at: int) | Unknown

  /** What evaluating a list of commands comes to; None is the exit on an unknown command. */
  datatype Outcome = Done(s: State) | Exit

  ghost predicate BanksExist(list: seq<Entry>, banks: nat) {
    forall i :: 0 <= i < |list| && list[i].Do? && (list[i].c.Act? || list[i].c.Pre?) ==> list[i].c.bank < banks
  }

  ghost function Evaluate(t: Timing, s: State, list: seq<Entry>): (r: Outcome)
    requires BanksExist(list, |s.banks|) && |s.savedBanks| == |s.banks|
    ensures r.Done? ==> |r.s.banks| == |s.banks| == |r.s.savedBanks|
    ensures r.Done? <==> Unknown !in list
    decreases |list|
  {
    if list == [] then Done(s)
    else
      var rest := list[1..];
      assert list == [list[0]] + rest;
      assert BanksExist(rest, |s.banks|);
      match list[0]
      case Do(c, at) => Evaluate(t, Handle(t, s, c, at), rest)
      case NopOrEnd(at) => Evaluate(t, HandleNopEnd(t, s, at), rest)
      case Unknown => Exit
  }

  class CommandAnalysis {
    const timing: Timing
    var bankState: seq<bool>
    var lastBankState: seq<bool>
    var memState: MemState
    var firstActCycle: int
    var lastPreCycle: int
    var pdnCycle: int
    var srefCycle: int
    var srefCycleWindow: int
    var srefRefActCyclesWindow: int
    var srefRefPreCyclesWindow: int
    var actcycles: int
    var precycles: int
    var fActPdcycles: int
    var sActPdcycles: int
    var fPrePdcycles: int
    var sPrePdcycles: int
    var srefCycles: int
    var srefRefActCycles: int
    var srefRefPreCycles: int
    var spupRefActCycles: int
    var spupRefPreCycles: int

    ghost function View(): State
      reads this
    {
      State(bankState, lastBankState, memState, firstActCycle, lastPreCycle, pdnCycle, srefCycle, srefCycleWindow,
            srefRefActCyclesWindow, srefRefPreCyclesWindow, Tallies())
    }

    function Tallies(): Counters
      reads this
    {
      Counters(actcycles, precycles, fActPdcycles, sActPdcycles, fPrePdcycles, sPrePdcycles, srefCycles,
               srefRefActCycles, srefRefPreCycles, spupRefActCycles, spupRefPreCycles)
    }

    /** The account starts consistent, at tick 0, with nothing booked. */
    constructor (timing: Timing, banks: nat)
      requires timing.Sane()
      ensures this.timing == timing && |View().banks| == banks == |View().savedBanks|
      ensures Consistent(timing, View()) && View() == Fresh(View().banks) && Accounted(View()) == 0
    {
      this.timing := timing;
      bankState, lastBankState := seq(banks, _ => false), seq(banks, _ => false);
      memState := NotInPd;
      firstActCycle, lastPreCycle, pdnCycle, srefCycle, srefCycleWindow := 0, 0, 0, 0, 0;
      srefRefActCyclesWindow, srefRefPreCyclesWindow := 0, 0;
      actcycles, precycles, fActPdcycles, sActPdcycles, fPrePdcycles, sPrePdcycles := 0, 0, 0, 0, 0, 0;
      srefCycles, srefRefActCycles, srefRefPreCycles, spupRefActCycles, spupRefPreCycles := 0, 0, 0, 0, 0;
    }

    method ClearCounters()
      modifies `actcycles, `precycles, `fActPdcycles, `sActPdcycles, `fPrePdcycles, `sPrePdcycles
      modifies `srefCycles, `srefRefActCycles, `srefRefPreCycles, `spupRefActCycles, `spupRefPreCycles
      ensures Tallies() == ZERO
    {
      actcycles, precycles, fActPdcycles, sActPdcycles, fPrePdcycles, sPrePdcycles := 0, 0, 0, 0, 0, 0;
      srefCycles, srefRefActCycles, srefRefPreCycles, spupRefActCycles, spupRefPreCycles := 0, 0, 0, 0, 0;
    }

    method ClearReferences(timestamp: int)
      modifies `firstActCycle, `pdnCycle, `srefCycleWindow, `srefCycle, `lastPreCycle
      modifies `srefRefActCyclesWindow, `srefRefPreCyclesWindow
      ensures firstActCycle == pdnCycle == srefCycleWindow == timestamp
      ensures timestamp == 0 ==>
                srefCycle == lastPreCycle == srefRefActCyclesWindow == srefRefPreCyclesWindow == 0
      ensures timestamp != 0 ==>
                && lastPreCycle == Max(timestamp, old(lastPreCycle)) && srefCycle == old(srefCycle)
                && srefRefActCyclesWindow == old(srefRefActCyclesWindow)
                && srefRefPreCyclesWindow == old(srefRefPreCyclesWindow)
    {
      firstActCycle := timestamp;
      pdnCycle := timestamp;
      srefCycleWindow := timestamp;
      if timestamp == 0 {
        srefCycle := 0;
        lastPreCycle := 0;
        srefRefActCyclesWindow := 0;
        srefRefPreCyclesWindow := 0;
      } else {
        lastPreCycle := Max(timestamp, lastPreCycle);
      }
    }

    method ClearStats(timestamp: int)
      modifies this
      ensures View() == DramModel.ClearStats(old(View()), timestamp)
    {
      hide Tallies;
      ClearReferences(timestamp);
      ClearCounters();
    }

    method NActiveBanks() returns (count: nat)
      ensures count == |ActiveBanks(bankState)|
      ensures count == 0 <==> ActiveBanks(bankState) == {}
    {
      count := 0;
      var i := 0;
      while i < |bankState|
        invariant i <= |bankState|
        invariant count == |ActiveBanks(bankState[..i])|
      {
        MoreBanks(bankState, i);
        count := count + if bankState[i] then 1 else 0;
        i := i + 1;
      }
      assert bankState[..i] == bankState;
    }

    method PrechargeAll()
      modifies this`bankState
      ensures bankState == AllPrecharged(old(bankState))
    {
      var i := 0;
      while i < |bankState|
        invariant i <= |bankState| == |old(bankState)|
        invariant forall k :: 0 <= k < i ==> !bankState[k]
      {
        bankState := bankState[i := false];
        i := i + 1;
      }
    }

    method HandleAct(bank: nat, timestamp: int)
      requires bank < |bankState|
      modifies this
      ensures View() == DramModel.HandleAct(old(View()), bank, timestamp)
    {
      if !bankState[bank] {
        var active := NActiveBanks();
        if active == 0 {
          firstActCycle := timestamp;
          precycles := precycles + ZeroGuard(timestamp - lastPreCycle);
        }
        bankState := bankState[bank := true];
      }
    }

    method HandleRef(timestamp: int)
      modifies this
      ensures View() == DramModel.HandleRef(timing, old(View()), timestamp)
    {
      firstActCycle := timestamp;
      precycles := precycles + ZeroGuard(timestamp - lastPreCycle);
      lastPreCycle := timestamp + timing.rfc - timing.rp;
      actcycles := actcycles + timing.rfc - timing.rp;
      PrechargeAll();
    }

    method HandlePre(bank: nat, timestamp: int)
      requires bank < |bankState|
      modifies this
      ensures View() == DramModel.HandlePre(old(View()), bank, timestamp)
    {
      if bankState[bank] {
        var active := NActiveBanks();
        if active == 1 {
          actcycles := actcycles + ZeroGuard(timestamp - firstActCycle);
          lastPreCycle := timestamp;
        }
        bankState := bankState[bank := false];
      }
    }

    method HandlePreA(timestamp: int)
      modifies this
      ensures View() == DramModel.HandlePreA(old(View()), timestamp)
    {
      var active := NActiveBanks();
      if active > 0 {
        actcycles := actcycles + ZeroGuard(timestamp - firstActCycle);
        lastPreCycle := timestamp;
        PrechargeAll();
      }
    }

    method HandlePdnAct(fast: bool, timestamp: int)
      modifies this
      ensures View() == DramModel.HandlePdnAct(old(View()), fast, timestamp)
    {
      lastBankState := bankState;
      pdnCycle := timestamp;
      actcycles := actcycles + ZeroGuard(timestamp - firstActCycle);
      memState := if fast then FastActPd else SlowActPd;
    }

    method HandlePdnPre(fast: bool, timestamp: int)
      modifies this
      ensures View() == DramModel.HandlePdnPre(old(View()), fast, timestamp)
    {
      pdnCycle := timestamp;
      precycles := precycles + ZeroGuard(timestamp - lastPreCycle);
      memState := if fast then FastPrePd else SlowPrePd;
    }

    method HandlePupAct(timestamp: int)
      modifies this
      ensures View() == DramModel.HandlePupAct(old(View()), timestamp)
    {
      if memState == FastActPd {
        fActPdcycles := fActPdcycles + ZeroGuard(timestamp - pdnCycle);
      } else if memState == SlowActPd {
        sActPdcycles := sActPdcycles + ZeroGuard(timestamp - pdnCycle);
      }
      memState := NotInPd;
      bankState := lastBankState;
      firstActCycle := timestamp;
    }

    method HandlePupPre(timestamp: int)
      modifies this
      ensures View() == DramModel.HandlePupPre(old(View()), timestamp)
    {
      if memState == FastPrePd {
        fPrePdcycles := fPrePdcycles + ZeroGuard(timestamp - pdnCycle);
      } else if memState == SlowPrePd {
        sPrePdcycles := sPrePdcycles + ZeroGuard(timestamp - pdnCycle);
      }
      memState := NotInPd;
      lastPreCycle := timestamp;
    }

    method MarkEntry(timestamp: int)
      modifies `srefCycle, `srefCycleWindow, `srefRefPreCyclesWindow, `srefRefActCyclesWindow
      ensures View() == old(View()).(srefAt := timestamp, srefWindow := timestamp, preWindow := 0, actWindow := 0)
    {
      srefCycle := timestamp;
      srefCycleWindow := timestamp;
      srefRefPreCyclesWindow := 0;
      srefRefActCyclesWindow := 0;
    }

    method HandleSREn(timestamp: int)
      modifies `srefCycle, `srefCycleWindow, `srefRefPreCyclesWindow, `srefRefActCyclesWindow, `precycles, `memState
      ensures View() == DramModel.HandleSREn(old(View()), timestamp)
    {
      MarkEntry(timestamp);
      precycles := precycles + ZeroGuard(timestamp - lastPreCycle);
      memState := SelfRefresh;
    }

    /** The initial refresh is complete. */
    method ExitAfterRefresh(timestamp: int)
      modifies `srefRefActCycles, `srefRefPreCycles, `srefCycles, `lastPreCycle
      ensures srefRefActCycles == old(srefRefActCycles) + timing.rfc - timing.rp - srefRefActCyclesWindow
      ensures srefRefPreCycles == old(srefRefPreCycles) + timing.rp - srefRefPreCyclesWindow
      ensures srefCycles == old(srefCycles) +
                if srefCycleWindow > srefCycle + timing.rfc then ZeroGuard(timestamp - srefCycleWindow)
                else ZeroGuard(timestamp - srefCycle - timing.rfc)
      ensures lastPreCycle == timestamp
    {
      srefRefActCycles := srefRefActCycles + timing.rfc - timing.rp - srefRefActCyclesWindow;
      srefRefPreCycles := srefRefPreCycles + timing.rp - srefRefPreCyclesWindow;
      lastPreCycle := timestamp;
      if srefCycleWindow > srefCycle + timing.rfc {
        srefCycles := srefCycles + ZeroGuard(timestamp - srefCycleWindow);
      } else {
        srefCycles := srefCycles + ZeroGuard(timestamp - srefCycle - timing.rfc);
      }
    }

    /** The active part of the initial refresh is complete, the precharge part is not. */
    method ExitInPrecharge(timestamp: int, srefDuration: int)
      modifies `srefRefActCycles, `srefRefPreCycles, `spupRefPreCycles, `lastPreCycle
      ensures var preCycles := srefDuration - (timing.rfc - timing.rp) - srefRefPreCyclesWindow;
        && srefRefActCycles == old(srefRefActCycles) + timing.rfc - timing.rp - srefRefActCyclesWindow
        && srefRefPreCycles == old(srefRefPreCycles) + preCycles
        && spupRefPreCycles == old(spupRefPreCycles) + timing.rp - preCycles
        && lastPreCycle == timestamp + timing.rp - preCycles
    {
      var refActCycles := timing.rfc - timing.rp;
      var preCycles := srefDuration - refActCycles - srefRefPreCyclesWindow;
      srefRefActCycles := srefRefActCycles + refActCycles - srefRefActCyclesWindow;
      srefRefPreCycles := srefRefPreCycles + preCycles;
      var spupPre := timing.rp - preCycles;
      spupRefPreCycles := spupRefPreCycles + spupPre;
      lastPreCycle := timestamp + spupPre;
    }

    /** Not even the active part of the initial refresh is complete. */
    method ExitInActive(timestamp: int, srefDuration: int)
      modifies `srefRefActCycles, `spupRefActCycles, `spupRefPreCycles, `lastPreCycle
      ensures var spupAct := timing.rfc - timing.rp - srefDuration;
        && srefRefActCycles == old(srefRefActCycles) + srefDuration - srefRefActCyclesWindow
        && spupRefActCycles == old(spupRefActCycles) + spupAct
        && spupRefPreCycles == old(spupRefPreCycles) + timing.rp
        && lastPreCycle == timestamp + spupAct + timing.rp
    {
      srefRefActCycles := srefRefActCycles + srefDuration - srefRefActCyclesWindow;
      var spupAct := timing.rfc - timing.rp - srefDuration;
      spupRefActCycles := spupRefActCycles + spupAct;
      spupRefPreCycles := spupRefPreCycles + timing.rp;
      lastPreCycle := timestamp + spupAct + timing.rp;
    }

    method HandleSREx(timestamp: int)
      modifies this
      ensures View() == DramModel.HandleSREx(timing, old(View()), timestamp)
    {
      var srefDuration := timestamp - srefCycle;
      if srefDuration <= 0 {
        srefDuration := 0;
      }
      memState := NotInPd;
      if srefDuration >= timing.rfc {
        ExitAfterRefresh(timestamp);
      } else if srefDuration >= timing.rfc - timing.rp {
        ExitInPrecharge(timestamp, srefDuration);
      } else {
        ExitInActive(timestamp, srefDuration);
      }
    }

    /** The active part of the initial refresh is over: book what earlier windows have not. */
    method FinishRefreshAct()
      modifies this
      ensures View() == SrefFinishAct(timing, old(View()))
    {
      var rfcMinusRp := timing.rfc - timing.rp;
      if srefCycleWindow <= srefCycle + rfcMinusRp {
        srefRefActCycles := srefRefActCycles + rfcMinusRp - srefRefActCyclesWindow;
        srefRefActCyclesWindow := rfcMinusRp;
        srefCycleWindow := srefCycle + rfcMinusRp;
      }
    }

    method SelfRefreshNopEnd(timestamp: int)
      modifies this
      ensures View() == SrefNopEnd(timing, old(View()), timestamp)
    {
      var rfcMinusRp := timing.rfc - timing.rp;
      if timestamp > srefCycle + timing.rfc {
        FinishRefreshAct();
        if srefCycleWindow <= srefCycle + timing.rfc {
          srefRefPreCycles := srefRefPreCycles + timing.rp - srefRefPreCyclesWindow;
          srefRefPreCyclesWindow := timing.rp;
          srefCycleWindow := srefCycle + timing.rfc;
        }
        srefCycles := srefCycles + ZeroGuard(timestamp - srefCycleWindow);
      } else if timestamp > srefCycle + rfcMinusRp {
        FinishRefreshAct();
        srefRefPreCyclesWindow := srefRefPreCyclesWindow + timestamp - srefCycleWindow;
        srefRefPreCycles := srefRefPreCycles + timestamp - srefCycleWindow;
      } else {
        srefRefActCyclesWindow := srefRefActCyclesWindow + timestamp - srefCycleWindow;
        srefRefActCycles := srefRefActCycles + timestamp - srefCycleWindow;
      }
    }

    method HandleNopEnd(timestamp: int)
      modifies this
      ensures View() == DramModel.HandleNopEnd(timing, old(View()), timestamp)
    {
      var active := NActiveBanks();
      if active > 0 && memState == NotInPd {
        actcycles := actcycles + ZeroGuard(timestamp - firstActCycle);
      } else if active == 0 && memState == NotInPd {
        precycles := precycles + ZeroGuard(timestamp - lastPreCycle);
      } else if memState == FastActPd {
        fActPdcycles := fActPdcycles + ZeroGuard(timestamp - pdnCycle);
      } else if memState == SlowActPd {
        sActPdcycles := sActPdcycles + ZeroGuard(timestamp - pdnCycle);
      } else if memState == FastPrePd {
        fPrePdcycles := fPrePdcycles + ZeroGuard(timestamp - pdnCycle);
      } else if memState == SlowPrePd {
        sPrePdcycles := sPrePdcycles + ZeroGuard(timestamp - pdnCycle);
      } else if memState == SelfRefresh {
        SelfRefreshNopEnd(timestamp);
      }
    }

    /** The dispatch on one command. */
    method Dispatch(c: Command, timestamp: int)
      requires (c.Act? || c.Pre?) ==> c.bank < |bankState|
      modifies this
      ensures View() == Handle(timing, old(View()), c, timestamp)
    {
      hide DramModel.HandleAct, DramModel.HandleRef, DramModel.HandlePre, DramModel.HandlePreA;
      hide DramModel.HandlePdnAct, DramModel.HandlePdnPre, DramModel.HandlePupAct, DramModel.HandlePupPre;
      hide DramModel.HandleSREn, DramModel.HandleSREx;
      match c
      case Act(b) => HandleAct(b, timestamp);
      case Rd(_) =>
      case Wr(_) =>
      case Ref => HandleRef(timestamp);
      case RefB(_) =>
      case Pre(b) => HandlePre(b, timestamp);
      case PreA => HandlePreA(timestamp);
      case PdnAct(fast) => HandlePdnAct(fast, timestamp);
      case PdnPre(fast) => HandlePdnPre(fast, timestamp);
      case PupAct => HandlePupAct(timestamp);
      case PupPre => HandlePupPre(timestamp);
      case SrEn => HandleSREn(timestamp);
      case SrEx => HandleSREx(timestamp);
    }

    method EvaluateCommands(list: seq<Entry>) returns (ok: bool)
      requires BanksExist(list, |bankState|) && |lastBankState| == |bankState|
      modifies this
      ensures ok <==> Unknown !in list
      ensures ok ==> Done(View()) == Evaluate(timing, old(View()), list)
    {
      hide Handle, DramModel.HandleNopEnd;
      var i := 0;
      ghost var all := Evaluate(timing, View(), list);
      assert list[0..] == list;
      while i < |list|
        invariant i <= |list|
        invariant |bankState| == |old(bankState)| == |lastBankState|
        invariant BanksExist(list[i..], |bankState|)
        invariant Unknown !in list[..i]
        invariant all == Evaluate(timing, View(), list[i..])
      {
        assert list[i..][1..] == list[i + 1..];
        assert list[..i + 1] == list[..i] + [list[i]];
        match list[i] {
          case Do(c, at) =>
            HandleKeepsBanks(timing, View(), c, at);
            Dispatch(c, at);
          case NopOrEnd(at) =>
            NopEndKeepsBanks(timing, View(), at);
            HandleNopEnd(at);
          case Unknown =>
            return false;
        }
        i := i + 1;
      }
      assert list[..i] == list;
      return true;
    }

    /** The end of a statistics window: whatever happened in it, each counter reported is what a clock of power
        states and active banks tells, together they add up to the time the window accounts for, and the next window
        starts where this one ends. */
    method EndWindow(timestamp: int, ghost from: int, ghost now: int, ghost k: Clock, ghost n: Counters)
      returns (report: Counters)
      requires Consistent(timing, View()) && OnTime(View(), now) && now <= timestamp && 0 < timestamp
      requires View().n.Total() == Accounted(View()) - from && Tracks(timing, View(), now, k, n)
      modifies this
      ensures report == Report(timing, old(View()), timestamp) && View() == Cut(timing, old(View()), timestamp)
      ensures report == Told(timing, k, n, timestamp)
      ensures Tracks(timing, View(), timestamp, k.(to := Max(timestamp, k.to)), ZERO)
      ensures report.Total() == Accounted(View()) - from && View().n.Total() == 0
      ensures Consistent(timing, View()) && OnTime(View(), timestamp)
    {
      hide DramModel.HandleNopEnd, DramModel.ClearStats, Consistent, OnTime, Accounted, Counters.Total, Tracks, Told;
      ReportBooksTime(timing, View(), timestamp, now);
      OnTimeLater(View(), now, timestamp);
      CutKeeps(timing, View(), timestamp);
      CutOnTime(timing, View(), timestamp, now);
      NothingBooked();
      BoundaryTracks(timing, View(), now, k, n, timestamp);
      HandleNopEnd(timestamp);
      report := Tallies();
      ClearStats(timestamp);
    }
  }

  /** A list of commands, as entries. */
  ghost predicate Entries(list: seq<Entry>, events: seq<Event>) {
    && |list| == |events| && Commands(events)
    && forall i :: 0 <= i < |list| ==> list[i] == Do(events[i].c, events[i].at)
  }

  /** Evaluating the commands of a window and its closing entry counts under each counter what the clock tells. */
  lemma {:induction false} EvaluateWindow(t: Timing, s: State, now: int, k: Clock, n: Counters, list: seq<Entry>,
                                          events: seq<Event>, end: int)
    requires BanksExist(list + [NopOrEnd(end)], |s.banks|) && |s.savedBanks| == |s.banks|
    requires Consistent(t, s) && OnTime(s, now) && Tracks(t, s, now, k, n) && 0 < end
    requires Entries(list, events) && LegalRun(t, s, now, events)
    requires now <= end && forall i :: 0 <= i < |events| ==> events[i].at <= end
    ensures var r := Evaluate(t, s, list + [NopOrEnd(end)]);
      r.Done? && r.s.n == Tells(t, k, n, events, end)
  {
    hide Consistent, OnTime, Tracks, Handle, HandleNopEnd, Tells;
    EvaluateCommandsThenEnd(t, s, now, list, events, end);
    OneWindow(t, s, now, k, n, events, end);
  }

  lemma {:induction false} EvaluateCommandsThenEnd(t: Timing, s: State, now: int, list: seq<Entry>,
                                                   events: seq<Event>, end: int)
    requires BanksExist(list + [NopOrEnd(end)], |s.banks|) && |s.savedBanks| == |s.banks|
    requires Entries(list, events) && LegalRun(t, s, now, events)
    ensures Evaluate(t, s, list + [NopOrEnd(end)]) == Done(HandleNopEnd(t, After(t, s, now, events), end))
    decreases |list|
  {
    hide Handle, HandleNopEnd;
    var all := list + [NopOrEnd(end)];
    if list == [] {
      NopEndKeepsBanks(t, s, end);
      assert all == [NopOrEnd(end)];
      assert Evaluate(t, HandleNopEnd(t, s, end), []) == Done(HandleNopEnd(t, s, end));
    } else {
      var c, at := events[0].c, events[0].at;
      assert all[0] == Do(c, at) && all[1..] == list[1..] + [NopOrEnd(end)];
      HandleKeepsBanks(t, s, c, at);
      EvaluateCommandsThenEnd(t, Handle(t, s, c, at), at, list[1..], events[1..], end);
    }
  }

  lemma MoreBanks(banks: seq<bool>, i: nat)
    requires i < |banks|
    ensures |ActiveBanks(banks[..i + 1])| == |ActiveBanks(banks[..i])| + if banks[i] then 1 else 0
  {
    var a := ActiveBanks(banks[..i]);
    assert ActiveBanks(banks[..i + 1]) == if banks[i] then a + {i} else a;
  }

  lemma HandleKeepsBanks(t: Timing, s: State, c: Command, at: int)
    requires (c.Act? || c.Pre?) ==> c.bank < |s.banks|
    requires |s.savedBanks| == |s.banks|
    ensures var u := Handle(t, s, c, at);
      |u.banks| == |s.banks| == |u.savedBanks|
  {
  }

  lemma NopEndKeepsBanks(t: Timing, s: State, at: int)
    ensures var u := HandleNopEnd(t, s, at);
      u.banks == s.banks && u.savedBanks == s.savedBanks
  {
  }
}
