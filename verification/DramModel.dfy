/** Cycle accounting of the DRAM power model (lib/drampower/src/CmdHandlers.cc and CommandAnalysis.cc): what each
    command handler, and the boundary of a statistics window, does to the counters that partition time. */
module DramModel {
  import opened Helpers

  datatype Timing = Timing(rfc: int, rp: int) {
    ghost predicate Sane() {
      0 <= rp <= rfc
    }
  }

  datatype MemState = NotInPd | FastActPd | SlowActPd | FastPrePd | SlowPrePd | SelfRefresh

  /** The counters that say which state each cycle was spent in. */
  datatype Counters = Counters(
    act: int, pre: int,
    fActPd: int, sActPd: int, fPrePd: int, sPrePd: int,
    sref: int, srefRefAct: int, srefRefPre: int,
    spupRefAct: int, spupRefPre: int)
  {
    function Total(): int {
      act + pre + fActPd + sActPd + fPrePd + sPrePd + sref + srefRefAct + srefRefPre + spupRefAct + spupRefPre
    }
  }

  const ZERO := Counters(0, 0, 0, 0, 0, 0, 0, 0, 0, 0, 0)

  lemma NothingBooked()
    ensures ZERO.Total() == 0
  {
  }

  datatype State = State(
    banks: seq<bool>,        // bank_state: active?
    savedBanks: seq<bool>,   // last_bank_state
    mem: MemState,
    firstAct: int,           // first_act_cycle
    lastPre: int,            // last_pre_cycle
    pdn: int,                // pdn_cycle
    srefAt: int,             // sref_cycle
    srefWindow: int,         // sref_cycle_window
    actWindow: int,          // sref_ref_act_cycles_window
    preWindow: int,          // sref_ref_pre_cycles_window
    n: Counters)

  function ZeroGuard(x: int): int {
    if x < 0 then 0 else x
  }

  function ActiveBanks(banks: seq<bool>): set<int> {
    set b | 0 <= b < |banks| && banks[b]
  }

  function AllPrecharged(banks: seq<bool>): seq<bool> {
    seq(|banks|, _ => false)
  }

  /** A fresh start: every bank precharged, nothing booked. */
  function Fresh(banks: seq<bool>): State {
    State(AllPrecharged(banks), AllPrecharged(banks), NotInPd, 0, 0, 0, 0, 0, 0, 0, ZERO)
  }

  // ---- handlers ----------------------------------------------------------------------------

  function HandleAct(s: State, bank: nat, at: int): State
    requires bank < |s.banks|
  {
    if !s.banks[bank] then
      var t := if ActiveBanks(s.banks) == {}
               then s.(firstAct := at, n := s.n.(pre := s.n.pre + ZeroGuard(at - s.lastPre)))
               else s;
      t.(banks := t.banks[bank := true])
    else
      s
  }

  function HandleRef(t: Timing, s: State, at: int): State {
    s.(firstAct := at,
       n := s.n.(pre := s.n.pre + ZeroGuard(at - s.lastPre), act := s.n.act + t.rfc - t.rp),
       lastPre := at + t.rfc - t.rp,
       banks := AllPrecharged(s.banks))
  }

  function HandlePre(s: State, bank: nat, at: int): State
    requires bank < |s.banks|
  {
    if s.banks[bank] then
      var t := if |ActiveBanks(s.banks)| == 1
               then s.(n := s.n.(act := s.n.act + ZeroGuard(at - s.firstAct)), lastPre := at)
               else s;
      t.(banks := t.banks[bank := false])
    else
      s
  }

  function HandlePreA(s: State, at: int): State {
    if ActiveBanks(s.banks) != {} then
      s.(n := s.n.(act := s.n.act + ZeroGuard(at - s.firstAct)), lastPre := at, banks := AllPrecharged(s.banks))
    else
      s
  }

  function HandlePdnAct(s: State, fast: bool, at: int): State {
    s.(savedBanks := s.banks, pdn := at, n := s.n.(act := s.n.act + ZeroGuard(at - s.firstAct)),
       mem := if fast then FastActPd else SlowActPd)
  }

  function HandlePdnPre(s: State, fast: bool, at: int): State {
    s.(pdn := at, n := s.n.(pre := s.n.pre + ZeroGuard(at - s.lastPre)), mem := if fast then FastPrePd else SlowPrePd)
  }

  function HandlePupAct(s: State, at: int): State {
    var n := if s.mem == FastActPd then s.n.(fActPd := s.n.fActPd + ZeroGuard(at - s.pdn))
             else if s.mem == SlowActPd then s.n.(sActPd := s.n.sActPd + ZeroGuard(at - s.pdn))
             else s.n;
    s.(n := n, mem := NotInPd, banks := s.savedBanks, firstAct := at)
  }

  function HandlePupPre(s: State, at: int): State {
    var n := if s.mem == FastPrePd then s.n.(fPrePd := s.n.fPrePd + ZeroGuard(at - s.pdn))
             else if s.mem == SlowPrePd then s.n.(sPrePd := s.n.sPrePd + ZeroGuard(at - s.pdn))
             else s.n;
    s.(n := n, mem := NotInPd, lastPre := at)
  }

  function HandleSREn(s: State, at: int): State {
    s.(srefAt := at, srefWindow := at, preWindow := 0, actWindow := 0,
       n := s.n.(pre := s.n.pre + ZeroGuard(at - s.lastPre)), mem := SelfRefresh)
  }

  /** The three ways out of self-refresh: after the initial refresh, in its precharge part, in its active part. */
  function HandleSREx(t: Timing, s: State, at: int): State {
    var duration := ZeroGuard(at - s.srefAt);
    var refAct := t.rfc - t.rp;
    var n := s.n;
    if duration >= t.rfc then
      var more := if s.srefWindow > s.srefAt + t.rfc then ZeroGuard(at - s.srefWindow)
                  else ZeroGuard(at - s.srefAt - t.rfc);
      s.(n := n.(srefRefAct := n.srefRefAct + refAct - s.actWindow,
                 srefRefPre := n.srefRefPre + t.rp - s.preWindow,
                 sref := n.sref + more),
         lastPre := at, mem := NotInPd)
    else if duration >= refAct then
      var preCycles := duration - refAct - s.preWindow;
      var spupPre := t.rp - preCycles;
      s.(n := n.(srefRefAct := n.srefRefAct + refAct - s.actWindow,
                 srefRefPre := n.srefRefPre + preCycles,
                 spupRefPre := n.spupRefPre + spupPre),
         lastPre := at + spupPre, mem := NotInPd)
    else
      var spupAct := refAct - duration;
      s.(n := n.(srefRefAct := n.srefRefAct + duration - s.actWindow,
                 spupRefAct := n.spupRefAct + spupAct,
                 spupRefPre := n.spupRefPre + t.rp),
         lastPre := at + spupAct + t.rp, mem := NotInPd)
  }

  /** handleNopEnd while in self-refresh. */
  function SrefNopEnd(t: Timing, s: State, at: int): State {
    var refAct := t.rfc - t.rp;
    if at > s.srefAt + t.rfc then
      var u := SrefFinishAct(t, s);
      var v := if u.srefWindow <= u.srefAt + t.rfc
               then u.(n := u.n.(srefRefPre := u.n.srefRefPre + t.rp - u.preWindow), preWindow := t.rp,
                       srefWindow := u.srefAt + t.rfc)
               else u;
      v.(n := v.n.(sref := v.n.sref + ZeroGuard(at - v.srefWindow)))
    else if at > s.srefAt + refAct then
      var u := SrefFinishAct(t, s);
      u.(preWindow := u.preWindow + at - u.srefWindow,
         n := u.n.(srefRefPre := u.n.srefRefPre + at - u.srefWindow))
    else
      s.(actWindow := s.actWindow + at - s.srefWindow,
         n := s.n.(srefRefAct := s.n.srefRefAct + at - s.srefWindow))
  }

  function SrefFinishAct(t: Timing, s: State): State {
    var refAct := t.rfc - t.rp;
    if s.srefWindow <= s.srefAt + refAct then
      s.(n := s.n.(srefRefAct := s.n.srefRefAct + refAct - s.actWindow), actWindow := refAct,
         srefWindow := s.srefAt + refAct)
    else
      s
  }

  function HandleNopEnd(t: Timing, s: State, at: int): State {
    var n := s.n;
    match s.mem
    case NotInPd =>
      if ActiveBanks(s.banks) != {} then s.(n := n.(act := n.act + ZeroGuard(at - s.firstAct)))
      else s.(n := n.(pre := n.pre + ZeroGuard(at - s.lastPre)))
    case FastActPd => s.(n := n.(fActPd := n.fActPd + ZeroGuard(at - s.pdn)))
    case SlowActPd => s.(n := n.(sActPd := n.sActPd + ZeroGuard(at - s.pdn)))
    case FastPrePd => s.(n := n.(fPrePd := n.fPrePd + ZeroGuard(at - s.pdn)))
    case SlowPrePd => s.(n := n.(sPrePd := n.sPrePd + ZeroGuard(at - s.pdn)))
    case SelfRefresh => SrefNopEnd(t, s, at)
  }

  function ClearStats(s: State, at: int): State {
    var u := s.(n := ZERO, firstAct := at, pdn := at, srefWindow := at);
    if at == 0 then u.(srefAt := 0, lastPre := 0, actWindow := 0, preWindow := 0)
    else u.(lastPre := Max(at, s.lastPre))
  }

  // ---- runs --------------------------------------------------------------------------------

  datatype Command =
    | Act(bank: nat) | Rd(bank: nat) | Wr(bank: nat) | Ref | RefB(bank: nat) | Pre(bank: nat) | PreA
    | PdnAct(fast: bool) | PdnPre(fast: bool) | PupAct | PupPre | SrEn | SrEx

  /** The dispatch of evaluateCommands. Reads, writes and per-bank refreshes touch none of these counters. */
  function Handle(t: Timing, s: State, c: Command, at: int): State
    requires (c.Act? || c.Pre?) ==> c.bank < |s.banks|
  {
    match c
    case Act(b) => HandleAct(s, b, at)
    case Rd(_) => s
    case Wr(_) => s
    case Ref => HandleRef(t, s, at)
    case RefB(_) => s
    case Pre(b) => HandlePre(s, b, at)
    case PreA => HandlePreA(s, at)
    case PdnAct(fast) => HandlePdnAct(s, fast, at)
    case PdnPre(fast) => HandlePdnPre(s, fast, at)
    case PupAct => HandlePupAct(s, at)
    case PupPre => HandlePupPre(s, at)
    case SrEn => HandleSREn(s, at)
    case SrEx => HandleSREx(t, s, at)
  }

  /** The tick up to which the counters account for time. A refresh, or the power-up after an early self-refresh
      exit, is booked in advance, so this may lie ahead of the clock. */
  function Accounted(s: State): int {
    match s.mem
    case NotInPd => if ActiveBanks(s.banks) != {} then s.firstAct else s.lastPre
    case SelfRefresh => s.srefWindow
    case _ => s.pdn
  }

  /** The part of self-refresh up to tick x spent on the initial refresh, active and precharged, and the rest. */
  function SrefAct(t: Timing, start: int, x: int): int {
    Min(x - start, t.rfc - t.rp)
  }

  function SrefPre(t: Timing, start: int, x: int): int {
    Min(Max(x - start - (t.rfc - t.rp), 0), t.rp)
  }

  function SrefRest(t: Timing, start: int, x: int): int {
    Max(x - start - t.rfc, 0)
  }

  ghost predicate Consistent(t: Timing, s: State) {
    && t.Sane()
    && (s.mem in {FastActPd, SlowActPd} ==> ActiveBanks(s.banks) != {} && s.savedBanks == s.banks)
    && (s.mem in {FastPrePd, SlowPrePd, SelfRefresh} ==> ActiveBanks(s.banks) == {})
    && (s.mem == SelfRefresh ==>
          && s.srefAt <= s.srefWindow
          && s.actWindow == SrefAct(t, s.srefAt, s.srefWindow)
          && s.preWindow == SrefPre(t, s.srefAt, s.srefWindow))
  }

  /** A command the protocol allows: powered down only from and up to the right state, refreshes only with every
      bank precharged, and nothing while a refresh is still under way. */
  ghost predicate Legal(s: State, c: Command, at: int) {
    match c
    case Act(b) => s.mem == NotInPd && b < |s.banks| && Accounted(s) <= at
    case Rd(_) => s.mem == NotInPd
    case Wr(_) => s.mem == NotInPd
    case RefB(_) => s.mem == NotInPd
    case Ref => s.mem == NotInPd && ActiveBanks(s.banks) == {} && Accounted(s) <= at
    case Pre(b) => s.mem == NotInPd && b < |s.banks| && Accounted(s) <= at
    case PreA => s.mem == NotInPd && Accounted(s) <= at
    case PdnAct(_) => s.mem == NotInPd && ActiveBanks(s.banks) != {} && Accounted(s) <= at
    case PdnPre(_) => s.mem == NotInPd && ActiveBanks(s.banks) == {} && Accounted(s) <= at
    case PupAct => s.mem in {FastActPd, SlowActPd} && Accounted(s) <= at
    case PupPre => s.mem in {FastPrePd, SlowPrePd} && Accounted(s) <= at
    case SrEn => s.mem == NotInPd && ActiveBanks(s.banks) == {} && Accounted(s) <= at
    case SrEx => s.mem == SelfRefresh && Accounted(s) <= at
  }

  lemma BankSwitched(banks: seq<bool>, b: nat, on: bool)
    requires b < |banks|
    ensures ActiveBanks(banks[b := on]) == if on then ActiveBanks(banks) + {b} else ActiveBanks(banks) - {b}
  {
  }

  lemma LastOneOff(banks: seq<bool>, b: nat)
    requires b < |banks| && banks[b]
    ensures ActiveBanks(banks[b := false]) == {} <==> |ActiveBanks(banks)| == 1
  {
    BankSwitched(banks, b, false);
    var a := ActiveBanks(banks);
    assert a == (a - {b}) + {b};
    assert |a| == |a - {b}| + 1;
  }

  lemma NoneActive(banks: seq<bool>)
    ensures ActiveBanks(AllPrecharged(banks)) == {}
  {
  }

  /** Every cycle is booked under exactly one counter: a legal command adds to the counters precisely the time by
      which it moves the accounted-for tick on. */
  lemma {:induction false} CommandBooksTime(t: Timing, s: State, c: Command, at: int)
    requires Consistent(t, s) && Legal(s, c, at)
    ensures var u := Handle(t, s, c, at);
      && Consistent(t, u)
      && u.n.Total() - s.n.Total() == Accounted(u) - Accounted(s)
      && Accounted(s) <= Accounted(u)
  {
    match c
    case Act(b) =>
      BankSwitched(s.banks, b, true);
      if !s.banks[b] {
        assert b in ActiveBanks(s.banks[b := true]);
      }
    case Pre(b) =>
      BankSwitched(s.banks, b, false);
      if s.banks[b] {
        assert b in ActiveBanks(s.banks);
        LastOneOff(s.banks, b);
      }
    case PreA => NoneActive(s.banks);
    case Ref => NoneActive(s.banks);
    case SrEx =>
    case _ =>
  }

  /** handleNopEnd brings the account up to the clock, unless something is booked beyond it already. */
  lemma {:induction false} NopEndBooksTime(t: Timing, s: State, at: int)
    requires Consistent(t, s)
    requires s.mem != NotInPd || ActiveBanks(s.banks) != {} ==> Accounted(s) <= at
    ensures HandleNopEnd(t, s, at).n.Total() == s.n.Total() + Max(at, Accounted(s)) - Accounted(s)
  {
  }

  /** The boundary of a statistics window: the final update and the reset. */
  function Cut(t: Timing, s: State, at: int): State {
    ClearStats(HandleNopEnd(t, s, at), at)
  }

  /** What the window that ends at tick `at` reports. */
  function Report(t: Timing, s: State, at: int): Counters {
    HandleNopEnd(t, s, at).n
  }

  lemma {:induction false} CutKeeps(t: Timing, s: State, at: int)
    requires Consistent(t, s) && 0 < at
    requires s.mem != NotInPd || ActiveBanks(s.banks) != {} ==> Accounted(s) <= at
    ensures var u := Cut(t, s, at);
      Consistent(t, u) && u.n == ZERO && Accounted(u) == Max(at, Accounted(s))
  {
  }
}
