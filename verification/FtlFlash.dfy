/** The page-mapping FTL never programs a page twice without erasing its block in between, and reads of erased blocks
    cannot find old data: the flash array holds something exactly where a block in use has been written. */
module FtlFlash {
  import opened Outcome
  import opened Blocks
  import opened FtlSpec
  import opened FtlInvariant
  import opened FtlTheorems

  /** Whatever the flash array holds lies in front of the next-write index of a block in use. */
  ghost predicate Clean(s: State) {
    forall a :: a in s.flash ==> a.block in s.blocks && a.page < s.blocks[a.block].next
  }

  /** Blocks in use stay in use and are only written further. */
  ghost predicate Advanced(before: map<nat, Block>, after: map<nat, Block>) {
    forall b :: b in before ==> b in after && before[b].next <= after[b].next
  }

  /** The page programmed next in block b: its next-write index, or the first page of a block just taken. */
  function NextPage(blocks: map<nat, Block>, b: nat): nat {
    if b in blocks then blocks[b].next else 0
  }

  /** A write programs a page that is erased. */
  lemma {:induction false} WriteIsClean(c: Config, s: State, lpn: nat, data: int)
    requires Invariant(c, s) && Clean(s)
    ensures Write(c, s, lpn, data).Ok? ==>
              var t := Write(c, s, lpn, data).value;
              && Clean(t) && lpn in t.table
              && t.table[lpn] !in s.flash && t.flash == s.flash[t.table[lpn] := data]
  {
    hide PoolOf, LanesOf, Bijection, GetLastFreeBlock, Program, Detach;
    DetachKeeps(c, s, lpn);
    var s1 := Detach(c, s, lpn);
    GetLastFreeBlockKeeps(c, s1);
    if GetLastFreeBlock(c, s1).Ok? {
      var (s2, b) := GetLastFreeBlock(c, s1).value;
      BijectionGrown(s1.table - {lpn}, s1.blocks, s2.blocks);
      ProgramKeeps(c, s2, b, lpn);
      ProgramsNext(s2, b, lpn);
    }
  }

  lemma ProgramsNext(s: State, b: nat, lpn: nat)
    requires Program(s, b, lpn).Ok?
    ensures b in s.blocks && Program(s, b, lpn).value.1 == Ppa(b, s.blocks[b].next)
  {
  }

  lemma TrimIsClean(c: Config, s: State, lpn: nat)
    requires Invariant(c, s) && Clean(s)
    ensures Trim(s, lpn).Ok? && Clean(Trim(s, lpn).value) && Trim(s, lpn).value.flash == s.flash
  {
    hide PoolOf, LanesOf, Bijection;
    TrimKeeps(c, s, lpn);
  }

  // ---- garbage collection ------------------------------------------------------------------

  /** The destinations of the pages queued to be copied are distinct, written pages that the flash does not hold yet. */
  ghost predicate Targets(s: State, moves: seq<Move>) {
    && (forall i :: 0 <= i < |moves| ==>
          var a := moves[i].dst;
          a !in s.flash && a.block in s.blocks && a.page < s.blocks[a.block].next)
    && (forall i, j :: 0 <= i < j < |moves| ==> moves[i].dst != moves[j].dst)
  }

  lemma CopyPageAdvances(c: Config, s: State, v: nat, p: nat)
    requires Invariant(c, s) && v in s.blocks && s.blocks[v].next == c.pages && p in s.blocks[v].valid
    ensures CopyPage(c, s, v, p).Ok? ==>
              var (t, mv) := CopyPage(c, s, v, p).value;
              && Advanced(s.blocks, t.blocks) && t.flash == s.flash
              && mv.dst.page == NextPage(s.blocks, mv.dst.block)
              && mv.dst.block in t.blocks && mv.dst.page < t.blocks[mv.dst.block].next
  {
    hide PoolOf, LanesOf, Bijection, GetLastFreeBlock, Program;
    InUseInRange(c, s, v);
    ValidMapped(s.table, s.blocks, v, p);
    var lpn := s.blocks[v].lpns[p];
    GetLastFreeBlockKeeps(c, s);
    if GetLastFreeBlock(c, s).Ok? {
      var (s1, b) := GetLastFreeBlock(c, s).value;
      BijectionGrown(s.table, s.blocks, s1.blocks);
      InvalidateKeeps(c, s1, Ppa(v, p));
      InvalidateUnmaps(s1.table, s1.blocks, lpn);
      var s2 := s1.(blocks := InvalidateAt(s1.blocks, Ppa(v, p)));
      ProgramKeeps(c, s2, b, lpn);
      ProgramsNext(s2, b, lpn);
    }
  }

  lemma TargetsMore(s: State, t: State, moves: seq<Move>, mv: Move)
    requires Clean(s) && Targets(s, moves) && Advanced(s.blocks, t.blocks) && t.flash == s.flash
    requires mv.dst.page == NextPage(s.blocks, mv.dst.block)
    requires mv.dst.block in t.blocks && mv.dst.page < t.blocks[mv.dst.block].next
    ensures Clean(t) && Targets(t, moves + [mv])
  {
    var more := moves + [mv];
    forall i | 0 <= i < |more|
      ensures var a := more[i].dst; a !in t.flash && a.block in t.blocks && a.page < t.blocks[a.block].next
    {
      if i < |moves| {
        assert more[i] == moves[i];
      }
    }
  }

  lemma {:induction false} CopyPagesTarget(c: Config, s: State, v: nat, p: nat, moves: seq<Move>)
    requires Invariant(c, s) && v in s.blocks && s.blocks[v].next == c.pages && Clean(s) && Targets(s, moves)
    ensures CopyPages(c, s, v, p, moves).Ok? ==>
              var (t, ms) := CopyPages(c, s, v, p, moves).value;
              && Invariant(c, t) && OtherFullSame(c, s, t, v)
              && Clean(t) && Targets(t, ms) && t.flash == s.flash
    decreases c.pages - p
  {
    hide PoolOf, LanesOf, Bijection, CopyPage, Clean, Targets, Advanced;
    if p < c.pages {
      if p in s.blocks[v].valid {
        CopyPageMoves(c, s, v, p);
        CopyPageAdvances(c, s, v, p);
        if CopyPage(c, s, v, p).Ok? {
          var (t, mv) := CopyPage(c, s, v, p).value;
          TargetsMore(s, t, moves, mv);
          CopyPagesTarget(c, t, v, p + 1, moves + [mv]);
        }
      } else {
        CopyPagesTarget(c, s, v, p + 1, moves);
      }
    }
  }

  lemma {:induction false} CopyVictimsTarget(c: Config, s: State, victims: seq<nat>, i: nat, moves: seq<Move>)
    requires Invariant(c, s) && i <= |victims| && Clean(s) && Targets(s, moves)
    requires forall j, k :: 0 <= j < k < |victims| ==> victims[j] != victims[k]
    requires forall j :: i <= j < |victims| ==> victims[j] in s.blocks && s.blocks[victims[j]].next == c.pages
    ensures CopyVictims(c, s, victims, i, moves).Ok? ==>
              var (t, ms) := CopyVictims(c, s, victims, i, moves).value;
              Clean(t) && Targets(t, ms) && t.flash == s.flash
    decreases |victims| - i
  {
    hide PoolOf, LanesOf, Bijection, CopyPages, Clean, Targets;
    if i < |victims| {
      CopyPagesTarget(c, s, victims[i], 0, moves);
      if CopyPages(c, s, victims[i], 0, moves).Ok? {
        var (t, ms) := CopyPages(c, s, victims[i], 0, moves).value;
        CopyVictimsTarget(c, t, victims, i + 1, ms);
      }
    }
  }

  /** Every queued write, in order, programs a page the flash does not hold. */
  ghost predicate ProgramsErased(flash: map<Ppa, int>, moves: seq<Move>, data: seq<int>, i: nat)
    requires |data| == |moves|
    decreases |moves| - i
  {
    i >= |moves| ||
    (moves[i].dst !in flash && ProgramsErased(flash[moves[i].dst := data[i]], moves, data, i + 1))
  }

  lemma {:induction false} WriteBackIsClean(flash: map<Ppa, int>, moves: seq<Move>, data: seq<int>, i: nat)
    requires |data| == |moves|
    requires forall j :: i <= j < |moves| ==> moves[j].dst !in flash
    requires forall j, k :: 0 <= j < k < |moves| ==> moves[j].dst != moves[k].dst
    ensures ProgramsErased(flash, moves, data, i)
    ensures forall a :: a in WriteBack(flash, moves, data, i) ==>
              a in flash || exists j :: i <= j < |moves| && moves[j].dst == a
    decreases |moves| - i
  {
    if i < |moves| {
      WriteBackIsClean(flash[moves[i].dst := data[i]], moves, data, i + 1);
    }
  }

  /** Erasing takes everything out of the victims, and nothing out of any other block. */
  lemma {:induction false} EraseIsClean(c: Config, s: State, victims: seq<nat>, i: nat)
    requires Pool(c, s) && Clean(s) && i <= |victims|
    requires forall j, k :: 0 <= j < k < |victims| ==> victims[j] != victims[k]
    ensures EraseVictims(c, s, victims, i).Ok? ==>
              var t := EraseVictims(c, s, victims, i).value;
              && Clean(t)
              && (forall a :: a in t.flash <==> a in s.flash && a.block !in victims[i..])
              && (forall a :: a in t.flash ==> t.flash[a] == s.flash[a])
    decreases |victims| - i
  {
    hide PoolOf;
    if i < |victims| {
      var v := victims[i];
      var u := s.(recycled := s.recycled + [v]);
      assert victims[i..] == [v] + victims[i + 1..];
      if v in s.blocks {
        EraseKeepsPool(c, u, v);
        if EraseInternal(c, u, v).Ok? {
          EraseIsClean(c, EraseInternal(c, u, v).value, victims, i + 1);
        }
      }
    }
  }

  /** A collection programs only erased pages, and leaves nothing in the blocks it erases. */
  lemma {:induction false} CollectIsClean(c: Config, s: State, victims: seq<nat>)
    requires Invariant(c, s) && Victims(c, s, victims) && Clean(s)
    ensures CollectGarbage(c, s, victims).Ok? ==>
              var t := CollectGarbage(c, s, victims).value;
              && Clean(t) && (forall a :: a in t.flash ==> a.block !in victims)
              && CopyVictims(c, s, victims, 0, []).Ok?
              && var (u, moves) := CopyVictims(c, s, victims, 0, []).value;
              u.flash == s.flash && ProgramsErased(s.flash, moves, ReadAll(s.flash, moves), 0)
  {
    hide PoolOf, LanesOf, Bijection, CopyVictims, EraseVictims, WriteBack, ProgramsErased, Emptied;
    CopyVictimsTarget(c, s, victims, 0, []);
    CopyAndSettleKeeps(c, s, victims);
    if CopyVictims(c, s, victims, 0, []).Ok? {
      var (t, moves) := CopyVictims(c, s, victims, 0, []).value;
      var data := ReadAll(t.flash, moves);
      WriteBackIsClean(t.flash, moves, data, 0);
      var u := t.(flash := WriteBack(t.flash, moves, data, 0));
      assert Clean(u);
      EraseIsClean(c, u, victims, 0);
      assert victims[0..] == victims;
    }
  }

  // ---- runs --------------------------------------------------------------------------------

  /** A step programs only erased pages, and leaves nothing in the blocks it erases. */
  ghost predicate Disciplined(c: Config, s: State, op: Op) {
    Step(c, s, op).Ok? ==>
      var t := Step(c, s, op).value;
      match op
      case WriteOp(lpn, data) =>
        lpn in t.table && t.table[lpn] !in s.flash && t.flash == s.flash[t.table[lpn] := data]
      case TrimOp(lpn) => t.flash == s.flash
      case CollectOp(victims) =>
        && (forall a :: a in t.flash ==> a.block !in victims)
        && CopyVictims(c, s, victims, 0, []).Ok?
        && var (u, moves) := CopyVictims(c, s, victims, 0, []).value;
        u.flash == s.flash && ProgramsErased(s.flash, moves, ReadAll(s.flash, moves), 0)
  }

  ghost predicate DisciplinedRun(c: Config, s: State, ops: seq<Op>)
    decreases |ops|
  {
    ops != [] ==>
      Disciplined(c, s, ops[0]) &&
      (Step(c, s, ops[0]).Ok? ==> DisciplinedRun(c, Step(c, s, ops[0]).value, ops[1..]))
  }

  lemma StepIsClean(c: Config, s: State, op: Op)
    requires Invariant(c, s) && Clean(s) && LegalStep(c, s, op)
    ensures Disciplined(c, s, op) && (Step(c, s, op).Ok? ==> Clean(Step(c, s, op).value))
  {
    hide PoolOf, LanesOf, Bijection, Write, Trim, CollectGarbage, CopyVictims, ProgramsErased, Clean, Victims;
    match op
    case WriteOp(lpn, data) => WriteIsClean(c, s, lpn, data);
    case TrimOp(lpn) => TrimIsClean(c, s, lpn);
    case CollectOp(victims) => CollectIsClean(c, s, victims);
  }

  /** In every legal run, every page programmed by a write or a copy was erased since it was last programmed, and the
      flash holds something only where a block in use has been written. */
  lemma {:induction false} ErasesBeforeWriting(c: Config, s: State, ops: seq<Op>)
    requires Invariant(c, s) && Clean(s) && LegalRun(c, s, ops)
    ensures DisciplinedRun(c, s, ops) && (Run(c, s, ops).Ok? ==> Clean(Run(c, s, ops).value))
    decreases |ops|
  {
    hide PoolOf, LanesOf, Bijection, Step, Clean, Disciplined;
    if ops != [] {
      StepIsClean(c, s, ops[0]);
      StepKeeps(c, s, ops[0]);
      if Step(c, s, ops[0]).Ok? {
        ErasesBeforeWriting(c, Step(c, s, ops[0]).value, ops[1..]);
      }
    }
  }

  lemma {:induction false} OpenLanesClean(c: Config, s: State, k: nat)
    requires |s.last| == c.lanes && s.flash == map[]
    ensures OpenLanes(c, s, k).Ok? ==> OpenLanes(c, s, k).value.flash == map[]
    decreases c.lanes - k
  {
    if k < c.lanes && GetFreeBlock(c, s, k).Ok? {
      var (t, b) := GetFreeBlock(c, s, k).value;
      OpenLanesClean(c, t.(last := s.last[k := b]), k + 1);
    }
  }

  /** So it is from start-up on. */
  lemma {:induction false} CleanFromStart(c: Config, ops: seq<Op>)
    requires Geometry(c) && Start(c).Ok? && LegalRun(c, Start(c).value, ops)
    ensures DisciplinedRun(c, Start(c).value, ops)
  {
    hide LegalRun, DisciplinedRun, OpenLanes;
    StartKeeps(c);
    OpenLanesClean(c, Blank(c), 0);
    ErasesBeforeWriting(c, Start(c).value, ops);
  }
}
