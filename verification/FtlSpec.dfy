/** What each operation of the page-mapping FTL (simplessd/ftl/page_mapping.cc) does to the
    translation state, as functions on values. Class PageMapping runs the same operations in place
    and is proved equal to these functions; the theorems are about these functions. */
module FtlSpec {
  import opened Outcome
  import opened Blocks

  datatype Config = Config(
    physicalBlocks: nat,   // param.totalPhysicalBlocks
    pages: nat,            // param.pagesInBlock
    lanes: nat,            // param.pageCountToMaxPerf
    badBlockAt: nat,       // FTL_BAD_BLOCK_THRESHOLD
    tweak: bool)           // bRandomTweak

  /** A physical page address. */
  datatype Ppa = Ppa(block: nat, page: nat)

  /** One page copied by garbage collection: a read request and the write request paired with it. */
  datatype Move = Move(src: Ppa, dst: Ppa)

  datatype State = State(
    table: map<nat, Ppa>,
    blocks: map<nat, Block>,
    free: seq<Block>,        // freeBlocks
    nFree: int,              // nFreeBlocks
    last: seq<nat>,          // lastFreeBlock
    lane: nat,               // lastFreeBlockIndex
    ioMap: bool,             // lastFreeBlockIOMap, one unit wide
    recycled: seq<nat>,      // erased_block_id
    reclaimMore: bool,
    retired: set<nat>,       // blocks dropped as worn out; the code merely forgets them
    flash: map<Ppa, int>)    // contents of the flash array behind PAL

  function ReadFlash(flash: map<Ppa, int>, a: Ppa): int {
    if a in flash then flash[a] else 0
  }

  // ---- free blocks -------------------------------------------------------------------------

  /** Position of the first free block of the lane, or the length of the list. */
  function LanePosition(c: Config, free: seq<Block>, lane: nat, from: nat): (i: nat)
    requires 0 < c.lanes && from <= |free|
    ensures from <= i <= |free|
    decreases |free| - from
  {
    if from == |free| || free[from].idx % c.lanes == lane then from else LanePosition(c, free, lane, from + 1)
  }

  function FreePosition(c: Config, free: seq<Block>, lane: nat): (i: nat)
    requires 0 < c.lanes && 0 < |free|
    ensures i < |free|
  {
    var i := LanePosition(c, free, lane, 0);
    if i == |free| then 0 else i
  }

  function GetFreeBlock(c: Config, s: State, lane: nat): Result<(State, nat)> {
    if lane >= c.lanes then
      Panic(IndexOutOfRange)
    else if s.nFree <= 0 || |s.free| == 0 then
      Panic(NoFreeBlock)
    else
      var i := FreePosition(c, s.free, lane);
      var b := s.free[i];
      if b.idx in s.blocks then
        Panic(Corrupted)
      else
        Ok((s.(blocks := s.blocks[b.idx := b],
               free := s.free[..i] + s.free[i + 1..],
               nFree := s.nFree - 1), b.idx))
  }

  /** std::remove followed by erase: drops every copy of x. */
  function Without(ids: seq<nat>, x: nat): (r: seq<nat>)
    ensures forall y :: y in r <==> y in ids && y != x
  {
    if ids == [] then []
    else if ids[0] == x then Without(ids[1..], x)
    else [ids[0]] + Without(ids[1..], x)
  }

  /** The lane the next write goes to. */
  function NextLane(c: Config, s: State): nat {
    if !c.tweak || s.ioMap then
      if s.lane + 1 == c.lanes then 0 else s.lane + 1
    else
      s.lane
  }

  /** Gives lane k a block from the free list. */
  function Renew(c: Config, s: State, k: nat): Result<State>
    requires k < |s.last|
  {
    var (t, b) :- GetFreeBlock(c, s, k);
    Ok(t.(last := t.last[k := b]))
  }

  /** First stage of getLastFreeBlock: a lane whose block is listed in erased_block_id gets another one, and
      every copy of the old index leaves the list. */
  function Replace(c: Config, s: State, k: nat): Result<State>
    requires k < |s.last|
  {
    if s.last[k] in s.recycled then
      var t :- Renew(c, s, k);
      Ok(t.(recycled := Without(t.recycled, s.last[k])))
    else
      Ok(s)
  }

  /** Second stage: a lane whose block is written full gets another one. */
  function Refill(c: Config, s: State, k: nat): Result<(State, nat)> {
    if k >= |s.last| || s.last[k] !in s.blocks then
      Panic(Corrupted)
    else if s.blocks[s.last[k]].next == c.pages then
      var t :- Renew(c, s, k);
      if k < |t.last| then Ok((t.(reclaimMore := true), t.last[k])) else Panic(IndexOutOfRange)
    else
      Ok((s, s.last[k]))
  }

  function GetLastFreeBlock(c: Config, s: State): Result<(State, nat)> {
    var k := NextLane(c, s);
    if k >= |s.last| then
      Panic(IndexOutOfRange)
    else
      var t :- Replace(c, s.(lane := k, ioMap := true), k);
      Refill(c, t, k)
  }

  // ---- host operations ---------------------------------------------------------------------

  function InvalidateAt(blocks: map<nat, Block>, a: Ppa): map<nat, Block> {
    if a.block in blocks then blocks[a.block := blocks[a.block].Invalidate(a.page)] else blocks
  }

  /** Programs the next page of block b with lpn. */
  function Program(s: State, b: nat, lpn: nat): Result<(State, Ppa)> {
    if b !in s.blocks then
      Panic(NoSuchBlock)
    else
      var page := s.blocks[b].next;
      var w :- s.blocks[b].Write(page, lpn);
      Ok((s.(blocks := s.blocks[b := w], table := s.table[lpn := Ppa(b, page)]), Ppa(b, page)))
  }

  /** writeInternal up to the search for an open block: the old page is invalid, the entry exists. */
  function Detach(c: Config, s: State, lpn: nat): State {
    if lpn in s.table then
      if s.table[lpn].block < c.physicalBlocks && s.table[lpn].page < c.pages then
        s.(blocks := InvalidateAt(s.blocks, s.table[lpn]))
      else s
    else
      s.(table := s.table[lpn := Ppa(c.physicalBlocks, c.pages)])
  }

  /** writeInternal without its trailing garbage collection; data is what the page will hold. */
  function Write(c: Config, s: State, lpn: nat, data: int): Result<State> {
    var (s2, b) :- GetLastFreeBlock(c, Detach(c, s, lpn));
    var (s3, at) :- Program(s2, b, lpn);
    Ok(s3.(flash := s3.flash[at := data]))
  }

  function Trim(s: State, lpn: nat): Result<State> {
    if lpn !in s.table then
      Ok(s)
    else if s.table[lpn].block !in s.blocks then
      Panic(BlockNotInUse)
    else
      Ok(s.(blocks := InvalidateAt(s.blocks, s.table[lpn]), table := s.table - {lpn}))
  }

  datatype ReadResult = Unmapped | Dropped | Data(value: int)

  /** readInternal. A mapping whose block is listed in erased_block_id is given up on. */
  function Read(c: Config, s: State, lpn: nat): Result<ReadResult> {
    if lpn !in s.table then
      Ok(Unmapped)
    else
      var a := s.table[lpn];
      if !(a.block < c.physicalBlocks && a.page < c.pages) then
        Ok(Unmapped)
      else if a.block in s.recycled then
        Ok(Dropped)
      else if a.block !in s.blocks then
        Panic(BlockNotInUse)
      else
        Ok(Data(ReadFlash(s.flash, a)))
  }

  // ---- garbage collection ------------------------------------------------------------------

  /** Copies one valid page of victim v out: new location first, then invalidate, remap, program. */
  function CopyPage(c: Config, s: State, v: nat, p: nat): Result<(State, Move)> {
    if v !in s.blocks || p >= |s.blocks[v].lpns| then
      Panic(InvalidBlock)
    else
      var lpn := s.blocks[v].lpns[p];
      var (s1, b) :- GetLastFreeBlock(c, s);
      var s2 := s1.(blocks := InvalidateAt(s1.blocks, Ppa(v, p)));
      if lpn !in s2.table then
        Panic(InvalidMapping)
      else
        var (s3, at) :- Program(s2, b, lpn);
        Ok((s3, Move(Ppa(v, p), at)))
  }

  /** The page loop over victim v, from page p on. */
  function CopyPages(c: Config, s: State, v: nat, p: nat, moves: seq<Move>): Result<(State, seq<Move>)>
    decreases c.pages - p
  {
    if p >= c.pages then
      Ok((s, moves))
    else if v !in s.blocks then
      Panic(InvalidBlock)
    else if p in s.blocks[v].valid then
      var (t, m) :- CopyPage(c, s, v, p);
      CopyPages(c, t, v, p + 1, moves + [m])
    else
      CopyPages(c, s, v, p + 1, moves)
  }

  /** The victim loop, from victim i on. */
  function CopyVictims(c: Config, s: State, victims: seq<nat>, i: nat, moves: seq<Move>)
    : Result<(State, seq<Move>)>
    decreases |victims| - i
  {
    if i >= |victims| then
      Ok((s, moves))
    else if victims[i] !in s.blocks then
      Panic(InvalidBlock)
    else
      var (t, ms) :- CopyPages(c, s, victims[i], 0, moves);
      CopyVictims(c, t, victims, i + 1, ms)
  }

  /** The deferred I/O: every read is served before any write, then the writes go out in order. */
  function WriteBack(flash: map<Ppa, int>, moves: seq<Move>, data: seq<int>, i: nat): map<Ppa, int>
    requires |data| == |moves|
    decreases |moves| - i
  {
    if i >= |moves| then flash
    else WriteBack(flash[moves[i].dst := data[i]], moves, data, i + 1)
  }

  function ReadAll(flash: map<Ppa, int>, moves: seq<Move>): (data: seq<int>)
    ensures |data| == |moves|
  {
    seq(|moves|, i requires 0 <= i < |moves| => ReadFlash(flash, moves[i].src))
  }

  /** Where eraseInternal inserts a block with the given erase count, searching the list backwards:
      behind the last of the first n blocks that is not more worn, else in front. */
  function InsertPosition(free: seq<Block>, n: nat, eraseCount: nat): (i: nat)
    requires n <= |free|
    ensures i <= n
  {
    if n == 0 then 0
    else if free[n - 1].eraseCount <= eraseCount then n
    else InsertPosition(free, n - 1, eraseCount)
  }

  function WipeBlock(flash: map<Ppa, int>, b: nat): map<Ppa, int> {
    map a | a in flash && a.block != b :: flash[a]
  }

  function EraseInternal(c: Config, s: State, v: nat): Result<State> {
    if v !in s.blocks then
      Panic(NoSuchBlock)
    else
      var b := s.blocks[v].Erase();
      var t := s.(flash := WipeBlock(s.flash, v), blocks := s.blocks - {v});
      if b.eraseCount < c.badBlockAt then
        if |s.free| == 0 then
          Panic(EmptyFreeList)
        else
          var i := InsertPosition(s.free, |s.free|, b.eraseCount);
          Ok(t.(free := s.free[..i] + [b] + s.free[i..], nFree := s.nFree + 1))
      else
        Ok(t.(retired := s.retired + {v}))
  }

  function EraseVictims(c: Config, s: State, victims: seq<nat>, i: nat): Result<State>
    decreases |victims| - i
  {
    if i >= |victims| then
      Ok(s)
    else
      var t :- EraseInternal(c, s.(recycled := s.recycled + [victims[i]]), victims[i]);
      EraseVictims(c, t, victims, i + 1)
  }

  function CollectGarbage(c: Config, s: State, victims: seq<nat>): Result<State> {
    var (t, moves) :- CopyVictims(c, s, victims, 0, []);
    var u := t.(flash := WriteBack(t.flash, moves, ReadAll(t.flash, moves), 0));
    EraseVictims(c, u, victims, 0)
  }

  // ---- start-up and runs -------------------------------------------------------------------

  function Blank(c: Config): State {
    State(map[], map[], seq(c.physicalBlocks, i requires 0 <= i => Fresh(i, c.pages)), c.physicalBlocks,
          seq(c.lanes, _ => 0), 0, false, [], false, {}, map[])
  }

  /** The constructor's loop: one open block for each lane from k on. */
  function OpenLanes(c: Config, s: State, k: nat): Result<State>
    requires |s.last| == c.lanes
    decreases c.lanes - k
  {
    if k >= c.lanes then
      Ok(s)
    else
      var (t, b) :- GetFreeBlock(c, s, k);
      OpenLanes(c, t.(last := s.last[k := b]), k + 1)
  }

  function Start(c: Config): Result<State> {
    OpenLanes(c, Blank(c), 0)
  }

  datatype Op = WriteOp(lpn: nat, data: int) | TrimOp(lpn: nat) | CollectOp(victims: seq<nat>)

  function Step(c: Config, s: State, op: Op): Result<State> {
    match op
    case WriteOp(lpn, data) => Write(c, s, lpn, data)
    case TrimOp(lpn) => Trim(s, lpn)
    case CollectOp(victims) => CollectGarbage(c, s, victims)
  }

  function Run(c: Config, s: State, ops: seq<Op>): Result<State>
    decreases |ops|
  {
    if ops == [] then Ok(s)
    else
      var t :- Step(c, s, ops[0]);
      Run(c, t, ops[1..])
  }

  /** Victims as selectVictimBlock hands them over: distinct in-use blocks that are written full. */
  ghost predicate Victims(c: Config, s: State, victims: seq<nat>) {
    && (forall i, j :: 0 <= i < j < |victims| ==> victims[i] != victims[j])
    && (forall v :: v in victims ==> v in s.blocks && s.blocks[v].next == c.pages)
  }

  ghost predicate LegalStep(c: Config, s: State, op: Op) {
    op.CollectOp? ==> Victims(c, s, op.victims)
  }

  ghost predicate LegalRun(c: Config, s: State, ops: seq<Op>)
    decreases |ops|
  {
    ops != [] ==>
      && LegalStep(c, s, ops[0])
      && (Step(c, s, ops[0]).Ok? ==> LegalRun(c, Step(c, s, ops[0]).value, ops[1..]))
  }

  // ---- what a host sees --------------------------------------------------------------------

  /** The logical contents: what each mapped page number holds. */
  function Contents(s: State): map<nat, int> {
    map l | l in s.table :: ReadFlash(s.flash, s.table[l])
  }

  function HostStep(m: map<nat, int>, op: Op): map<nat, int> {
    match op
    case WriteOp(lpn, data) => m[lpn := data]
    case TrimOp(lpn) => m - {lpn}
    case CollectOp(_) => m
  }

  function HostRun(m: map<nat, int>, ops: seq<Op>): map<nat, int>
    decreases |ops|
  {
    if ops == [] then m else HostRun(HostStep(m, ops[0]), ops[1..])
  }
}
