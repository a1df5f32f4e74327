/** Any number of threads in block_map on one open file (ext2fs.c:311-477). A thread holds the lock of the file but for
    its device reads and the freeing at its end, so others come in between and replace what the cache holds. Regions
    of memory are named by numbers other than 0. */
module Ext2Threads {
  import opened Bytes
  import opened Division
  import opened Ext2Blocks

  type Thread = nat

  /** The descent is at block `p`, `depth` levels above the leaves, with index `fb` below it. */
  datatype Pc =
    | Locked(depth: nat, p: nat, fb: nat)                // holds the lock
    | Reading(depth: nat, p: nat, fb: nat)               // the device reads block `p`
    | HasRead(depth: nat, p: nat, fb: nat, region: nat)  // waits for the lock, with the data read
    | Freeing(found: Mapped)                             // frees what it has replaced

  /** What was asked for, and what has been replaced at each level, 0 for nothing. */
  datatype Call = Call(top: nat, p0: nat, fb0: nat, pc: Pc, replaced: seq<nat>)

  /** Who has a region: a level of the cache, a thread that has just read it, a thread that has replaced it, or nobody
      any more. */
  datatype Place = Slot(level: nat) | Fresh(t: Thread) | Replaced(t: Thread, level: nat) | Lost

  datatype State = State(
    disk: Disk, n: nat, blkno: seq<nat>, blk: seq<nat>, memory: map<nat, seq<Byte>>, owner: map<nat, Place>, calls: map<Thread, Call>)

  datatype Step =
    | Begin(t: Thread, top: nat, p0: nat, fb0: nat)
    | Hit(t: Thread)
    | AtNull(t: Thread)
    | Miss(t: Thread)
    | ReadDone(t: Thread, region: nat)
    | ReadFails(t: Thread)
    | Install(t: Thread)
    | Found(t: Thread)
    | FreeOne(t: Thread, level: nat)
    | End(t: Thread)

  ghost predicate Fits(s: State) {
    s.n > 0 && DiskOk(s.disk, s.n) && |s.blkno| == |s.blk| == NIADDR
  }

  predicate Unlocked(calls: map<Thread, Call>) { forall t :: t in calls ==> !calls[t].pc.Locked? }

  /** Thread `t` has the lock and an index block to look into. */
  predicate Looks(s: State, t: Thread) {
    t in s.calls && var pc := s.calls[t].pc; pc.Locked? && 0 < pc.depth <= NIADDR && pc.p != 0
  }

  ghost predicate Enabled(s: State, e: Step) {
    && Fits(s)
    && match e
       case Begin(t, top, p0, fb0) => t !in s.calls && Unlocked(s.calls) && top < NIADDR && fb0 < Capacity(s.n, top + 1)
       case Hit(t) => Looks(s, t) && var pc := s.calls[t].pc; s.blkno[pc.depth - 1] == pc.p && s.blk[pc.depth - 1] != 0
       case AtNull(t) => Looks(s, t) && var pc := s.calls[t].pc; s.blkno[pc.depth - 1] == pc.p && s.blk[pc.depth - 1] == 0
       case Miss(t) => Looks(s, t) && var pc := s.calls[t].pc; s.blkno[pc.depth - 1] != pc.p
       case ReadDone(t, region) => t in s.calls && s.calls[t].pc.Reading? && s.calls[t].pc.p in s.disk && region != 0 && region !in s.memory
       case ReadFails(t) => t in s.calls && s.calls[t].pc.Reading?
       case Install(t) => t in s.calls && s.calls[t].pc.HasRead? && Unlocked(s.calls)
       case Found(t) => t in s.calls && var pc := s.calls[t].pc; pc.Locked? && (pc.depth == 0 || pc.p == 0)
       case FreeOne(t, level) => t in s.calls && s.calls[t].pc.Freeing? && level < |s.calls[t].replaced| && s.calls[t].replaced[level] != 0
       case End(t) => t in s.calls && s.calls[t].pc.Freeing? && forall l :: 0 <= l < |s.calls[t].replaced| ==> s.calls[t].replaced[l] == 0
  }

  /** One level down, by the data of an index block. */
  function Deeper(n: nat, data: seq<Byte>, depth: nat, fb: nat): Pc
    requires n > 0
  {
    if depth > 0 && |data| == 4 * n && fb < Capacity(n, depth) then
      var c := Capacity(n, depth - 1);
      Locked(depth - 1, Word(data, Quotient(fb, c, n)), Remainder(fb, c, n))
    else Locked(0, 0, 0)
  }

  function At(s: State, t: Thread, pc: Pc): State
    requires t in s.calls
  {
    s.(calls := s.calls[t := s.calls[t].(pc := pc)])
  }

  function DataOf(s: State, region: nat): seq<Byte> { if region in s.memory then s.memory[region] else [] }

  /** The regions of a thread that gives up are lost. */
  function GivenUp(owner: map<nat, Place>, t: Thread): map<nat, Place> {
    map r | r in owner :: if owner[r].Replaced? && owner[r].t == t then Lost else owner[r]
  }

  ghost function Next(s: State, e: Step): State
    requires Enabled(s, e)
  {
    match e
    case Begin(t, top, p0, fb0) => s.(calls := s.calls[t := Call(top, p0, fb0, Locked(top + 1, p0, fb0), [0, 0, 0])])
    case Hit(t) =>
      var pc := s.calls[t].pc;
      At(s, t, Deeper(s.n, DataOf(s, s.blk[pc.depth - 1]), pc.depth, pc.fb))
    case AtNull(t) => At(s, t, Freeing(NullRead))
    case Miss(t) => At(s, t, Reading(s.calls[t].pc.depth, s.calls[t].pc.p, s.calls[t].pc.fb))
    case ReadDone(t, region) =>
      var pc := s.calls[t].pc;
      At(s, t, HasRead(pc.depth, pc.p, pc.fb, region)).(memory := s.memory[region := s.disk[pc.p]], owner := s.owner[region := Fresh(t)])
    case ReadFails(t) => s.(calls := s.calls - {t}, owner := GivenUp(s.owner, t))
    case Install(t) =>
      var pc := s.calls[t].pc;
      if pc.depth == 0 || pc.depth > NIADDR || |s.calls[t].replaced| != NIADDR then s
      else
        var l, was := pc.depth - 1, s.blk[pc.depth - 1];
        s.(blkno := s.blkno[l := pc.p], blk := s.blk[l := pc.region],
           owner := (if was != 0 then s.owner[was := Replaced(t, l)] else s.owner)[pc.region := Slot(l)],
           calls := s.calls[t := s.calls[t].(pc := Deeper(s.n, DataOf(s, pc.region), pc.depth, pc.fb), replaced := s.calls[t].replaced[l := was])])
    case Found(t) => At(s, t, Freeing(Block(s.calls[t].pc.p)))
    case FreeOne(t, level) =>
      var r := s.calls[t].replaced[level];
      s.(memory := s.memory - {r}, owner := s.owner - {r},
         calls := s.calls[t := s.calls[t].(replaced := s.calls[t].replaced[level := 0])])
    case End(t) => s.(calls := s.calls - {t})
  }

  // ---- The invariant ----

  /** A level of the cache holds nothing, or the contents of the block it names. */
  ghost predicate SlotOk(s: State, l: nat)
    requires Fits(s) && l < NIADDR
  {
    if s.blk[l] == 0 then s.blkno[l] == EMPTY
    else
      && s.blk[l] in s.memory && s.blk[l] in s.owner && s.owner[s.blk[l]] == Slot(l)
      && s.blkno[l] in s.disk && s.memory[s.blk[l]] == s.disk[s.blkno[l]]
  }

  /** Who is said to have a region has it. */
  ghost predicate OwnerOk(s: State, r: nat)
    requires Fits(s) && r in s.owner
  {
    match s.owner[r]
    case Slot(l) => l < NIADDR && s.blk[l] == r
    case Fresh(t) => t in s.calls && s.calls[t].pc.HasRead? && s.calls[t].pc.region == r
    case Replaced(t, l) => t in s.calls && l < |s.calls[t].replaced| && s.calls[t].replaced[l] == r
    case Lost => true
  }

  /** The descent is on its way to the leaf asked for. */
  ghost predicate OnWay(disk: Disk, n: nat, c: Call, depth: nat, p: nat, fb: nat)
    requires n > 0 && DiskOk(disk, n)
  {
    && c.top < NIADDR && c.fb0 < Capacity(n, c.top + 1) && depth <= NIADDR && fb < Capacity(n, depth)
    && Leaves(disk, n, depth, p)[fb] == Leaves(disk, n, c.top + 1, c.p0)[c.fb0]
  }

  ghost predicate PcOk(s: State, t: Thread, c: Call)
    requires Fits(s)
  {
    match c.pc
    case Locked(depth, p, fb) => OnWay(s.disk, s.n, c, depth, p, fb)
    case Reading(depth, p, fb) => 0 < depth && p != 0 && OnWay(s.disk, s.n, c, depth, p, fb)
    case HasRead(depth, p, fb, r) =>
      && 0 < depth && p != 0 && OnWay(s.disk, s.n, c, depth, p, fb)
      && r != 0 && r in s.memory && r in s.owner && s.owner[r] == Fresh(t) && p in s.disk && s.memory[r] == s.disk[p]
    case Freeing(m) => m.Block? ==> c.top < NIADDR && c.fb0 < Capacity(s.n, c.top + 1) && Leaves(s.disk, s.n, c.top + 1, c.p0)[c.fb0] == m
  }

  /** What a thread has replaced is its own, at levels it has left behind. */
  ghost predicate ReplacedOk(s: State, t: Thread, c: Call) {
    && |c.replaced| == NIADDR
    && (forall l: nat :: l < NIADDR && c.replaced[l] != 0 ==>
          c.replaced[l] in s.memory && c.replaced[l] in s.owner && s.owner[c.replaced[l]] == Replaced(t, l))
    && (!c.pc.Freeing? ==> forall l: nat :: l < NIADDR && l < c.pc.depth ==> c.replaced[l] == 0)
  }

  ghost predicate Inv(s: State) {
    && Fits(s) && s.memory.Keys == s.owner.Keys && 0 !in s.owner && SlotsOk(s) && OwnersOk(s) && CallsOk(s) && OneLocks(s.calls)
  }

  ghost predicate SlotsOk(s: State)
    requires Fits(s)
  {
    forall l: nat :: l < NIADDR ==> SlotOk(s, l)
  }

  ghost predicate OwnersOk(s: State)
    requires Fits(s)
  {
    forall r :: r in s.owner ==> OwnerOk(s, r)
  }

  ghost predicate CallsOk(s: State)
    requires Fits(s)
  {
    forall t :: t in s.calls ==> PcOk(s, t, s.calls[t]) && ReplacedOk(s, t, s.calls[t])
  }

  ghost predicate OneLocks(calls: map<Thread, Call>) {
    forall t, u :: t in calls && u in calls && calls[t].pc.Locked? && calls[u].pc.Locked? ==> t == u
  }

  ghost predicate Initial(s: State) {
    Fits(s) && s.blkno == [EMPTY, EMPTY, EMPTY] && s.blk == [0, 0, 0] && s.memory == map[] && s.owner == map[] && s.calls == map[]
  }

  lemma InitialInv(s: State)
    requires Initial(s)
    ensures Inv(s)
  {
  }

  // ---- One level down ----

  lemma DeeperOn(disk: Disk, n: nat, c: Call, depth: nat, p: nat, fb: nat)
    requires n > 0 && DiskOk(disk, n) && OnWay(disk, n, c, depth, p, fb) && 0 < depth && p != 0 && p in disk
    ensures var pc := Deeper(n, disk[p], depth, fb); pc.Locked? && pc.depth == depth - 1 && OnWay(disk, n, c, pc.depth, pc.p, pc.fb)
  {
    LeafBelow(disk, n, depth, p, fb, Capacity(n, depth - 1));
  }

  lemma LeafFound(disk: Disk, n: nat, c: Call, depth: nat, p: nat, fb: nat)
    requires n > 0 && DiskOk(disk, n) && OnWay(disk, n, c, depth, p, fb) && (depth == 0 || p == 0)
    ensures Leaves(disk, n, c.top + 1, c.p0)[c.fb0] == Block(p)
  {
  }

  // ---- What stays ----

  /** A region is as it was, for whoever has it. */
  ghost predicate Kept(s: State, s': State, r: nat) {
    r in s.owner && r in s.memory ==> r in s'.owner && s'.owner[r] == s.owner[r] && r in s'.memory && s'.memory[r] == s.memory[r]
  }

  /** All regions of thread `u` are. */
  ghost predicate KeptFor(s: State, s': State, u: Thread) {
    forall r :: r in s.owner && (s.owner[r] == Fresh(u) || (s.owner[r].Replaced? && s.owner[r].t == u)) ==> Kept(s, s', r)
  }

  lemma CallKept(s: State, s': State, u: Thread, c: Call)
    requires Fits(s) && Fits(s') && s'.disk == s.disk && s'.n == s.n && KeptFor(s, s', u) && PcOk(s, u, c) && ReplacedOk(s, u, c)
    ensures PcOk(s', u, c) && ReplacedOk(s', u, c)
  {
    if c.pc.HasRead? {
      assert Kept(s, s', c.pc.region);
    }
    forall l: nat | l < NIADDR && c.replaced[l] != 0
      ensures c.replaced[l] in s'.owner && s'.owner[c.replaced[l]] == Replaced(u, l) && c.replaced[l] in s'.memory
    {
      assert Kept(s, s', c.replaced[l]);
    }
  }

  lemma SlotKept(s: State, s': State, l: nat)
    requires Fits(s) && Fits(s') && s'.disk == s.disk && l < NIADDR && SlotOk(s, l) && Kept(s, s', s.blk[l])
    requires s'.blk[l] == s.blk[l] && s'.blkno[l] == s.blkno[l]
    ensures SlotOk(s', l)
  {
  }

  // ---- A thread goes on and no region moves ----

  /** Apart from the call of thread `t`, which may be over, nothing changes. */
  ghost predicate OnlyCall(s: State, s': State, t: Thread) {
    && s' == s.(calls := s'.calls)
    && forall u :: u != t ==> (u in s'.calls <==> u in s.calls) && (u in s.calls && u in s'.calls ==> s'.calls[u] == s.calls[u])
  }

  /** The thread keeps its regions, the lock is free if it takes it, and the descent goes on as it should. */
  lemma CallMoves(s: State, s': State, t: Thread)
    requires Inv(s) && OnlyCall(s, s', t)
    requires t in s'.calls ==> PcOk(s', t, s'.calls[t]) && ReplacedOk(s', t, s'.calls[t])
    requires t in s'.calls && s'.calls[t].pc.Locked? ==> Unlocked(s.calls) || (t in s.calls && s.calls[t].pc.Locked?)
    requires forall r :: r in s.owner && (s.owner[r] == Fresh(t) || (s.owner[r].Replaced? && s.owner[r].t == t)) ==> OwnerOk(s', r)
    ensures Inv(s')
  {
    forall l: nat | l < NIADDR ensures SlotOk(s', l) {
      SlotKept(s, s', l);
    }
    forall u | u in s'.calls ensures PcOk(s', u, s'.calls[u]) && ReplacedOk(s', u, s'.calls[u]) {
      if u != t {
        CallKept(s, s', u, s.calls[u]);
      }
    }
    forall r | r in s'.owner ensures OwnerOk(s', r) {
      assert OwnerOk(s, r);
    }
  }

  lemma BeginKeeps(s: State, t: Thread, top: nat, p0: nat, fb0: nat)
    requires Inv(s) && Enabled(s, Begin(t, top, p0, fb0))
    ensures Inv(Next(s, Begin(t, top, p0, fb0)))
  {
    forall r | r in s.owner ensures OwnerOk(s, r) {
    }
    CallMoves(s, Next(s, Begin(t, top, p0, fb0)), t);
  }

  lemma HitKeeps(s: State, t: Thread)
    requires Inv(s) && Enabled(s, Hit(t))
    ensures Inv(Next(s, Hit(t)))
  {
    var c := s.calls[t];
    assert SlotOk(s, c.pc.depth - 1) && PcOk(s, t, c) && ReplacedOk(s, t, c);
    DeeperOn(s.disk, s.n, c, c.pc.depth, c.pc.p, c.pc.fb);
    Walks(s, Next(s, Hit(t)), t);
  }

  /** The thread stays where it is told to be, with what it has replaced. */
  lemma Walks(s: State, s': State, t: Thread)
    requires Inv(s) && OnlyCall(s, s', t) && t in s.calls && t in s'.calls && !s.calls[t].pc.HasRead?
    requires s'.calls[t] == s.calls[t].(pc := s'.calls[t].pc) && PcOk(s', t, s'.calls[t])
    requires s'.calls[t].pc.Locked? ==> s.calls[t].pc.Locked?
    requires !s'.calls[t].pc.Freeing? ==> !s.calls[t].pc.Freeing? && s'.calls[t].pc.depth <= s.calls[t].pc.depth
    ensures Inv(s')
  {
    assert ReplacedOk(s, t, s.calls[t]);
    forall r | r in s.owner && (s.owner[r] == Fresh(t) || (s.owner[r].Replaced? && s.owner[r].t == t)) ensures OwnerOk(s', r) {
      assert OwnerOk(s, r);
    }
    CallMoves(s, s', t);
  }

  lemma MissKeeps(s: State, t: Thread)
    requires Inv(s) && Enabled(s, Miss(t))
    ensures Inv(Next(s, Miss(t)))
  {
    assert PcOk(s, t, s.calls[t]);
    Walks(s, Next(s, Miss(t)), t);
  }

  lemma FoundKeeps(s: State, t: Thread)
    requires Inv(s) && Enabled(s, Found(t))
    ensures Inv(Next(s, Found(t)))
  {
    var c := s.calls[t];
    assert PcOk(s, t, c);
    LeafFound(s.disk, s.n, c, c.pc.depth, c.pc.p, c.pc.fb);
    Walks(s, Next(s, Found(t)), t);
  }

  lemma AtNullKeeps(s: State, t: Thread)
    requires Inv(s) && Enabled(s, AtNull(t))
    ensures Inv(Next(s, AtNull(t)))
  {
    Walks(s, Next(s, AtNull(t)), t);
  }

  lemma EndKeeps(s: State, t: Thread)
    requires Inv(s) && Enabled(s, End(t))
    ensures Inv(Next(s, End(t)))
  {
    var s' := Next(s, End(t));
    assert ReplacedOk(s, t, s.calls[t]);
    forall r | r in s.owner ensures s.owner[r] != Fresh(t) && !(s.owner[r].Replaced? && s.owner[r].t == t) {
      assert OwnerOk(s, r);
    }
    CallMoves(s, s', t);
  }

  // ---- Regions that come and go ----

  lemma ReadDoneKeeps(s: State, t: Thread, region: nat)
    requires Inv(s) && Enabled(s, ReadDone(t, region))
    ensures Inv(Next(s, ReadDone(t, region)))
  {
    var s' := Next(s, ReadDone(t, region));
    assert forall r :: Kept(s, s', r);
    forall l: nat | l < NIADDR ensures SlotOk(s', l) {
      SlotKept(s, s', l);
    }
    forall u | u in s'.calls ensures PcOk(s', u, s'.calls[u]) && ReplacedOk(s', u, s'.calls[u]) {
      CallKept(s, s', u, s.calls[u]);
    }
    ReadOwners(s, s', t, region);
  }

  lemma ReadOwners(s: State, s': State, t: Thread, region: nat)
    requires Fits(s) && OwnersOk(s) && t in s.calls && s.calls[t].pc.Reading? && region !in s.owner
    requires t in s'.calls && s'.calls[t].pc.HasRead? && s'.calls[t].pc.region == region
    requires Fits(s') && s'.blk == s.blk && s'.owner == s.owner[region := Fresh(t)] && s'.calls == s.calls[t := s.calls[t].(pc := s'.calls[t].pc)]
    ensures OwnersOk(s')
  {
    forall r | r in s'.owner ensures OwnerOk(s', r) {
      assert r != region ==> OwnerOk(s, r);
    }
  }

  lemma ReadFailsKeeps(s: State, t: Thread)
    requires Inv(s) && Enabled(s, ReadFails(t))
    ensures Inv(Next(s, ReadFails(t)))
  {
    var s' := Next(s, ReadFails(t));
    FailSlots(s, s', t);
    FailCalls(s, s', t);
    FailOwners(s, s', t);
  }

  ghost predicate GivesUp(s: State, s': State, t: Thread) {
    t in s.calls && s.calls[t].pc.Reading? && s' == s.(calls := s.calls - {t}, owner := GivenUp(s.owner, t))
  }

  lemma FailSlots(s: State, s': State, t: Thread)
    requires Fits(s) && SlotsOk(s) && GivesUp(s, s', t)
    ensures SlotsOk(s')
  {
    forall l: nat | l < NIADDR ensures SlotOk(s', l) {
      assert SlotOk(s, l);
    }
  }

  lemma FailCalls(s: State, s': State, t: Thread)
    requires Fits(s) && CallsOk(s) && GivesUp(s, s', t)
    ensures CallsOk(s')
  {
    forall u | u in s'.calls ensures PcOk(s', u, s'.calls[u]) && ReplacedOk(s', u, s'.calls[u]) {
      CallKept(s, s', u, s.calls[u]);
    }
  }

  lemma FailOwners(s: State, s': State, t: Thread)
    requires Fits(s) && OwnersOk(s) && GivesUp(s, s', t)
    ensures OwnersOk(s')
  {
    forall r | r in s'.owner ensures OwnerOk(s', r) {
      assert OwnerOk(s, r);
    }
  }

  lemma FreeOneKeeps(s: State, t: Thread, level: nat)
    requires Inv(s) && Enabled(s, FreeOne(t, level))
    ensures Inv(Next(s, FreeOne(t, level)))
  {
    var s' := Next(s, FreeOne(t, level));
    assert ReplacedOk(s, t, s.calls[t]);
    FreeSlots(s, s', t, level);
    FreeCalls(s, s', t, level);
    FreeOwners(s, s', t, level);
  }

  /** Thread `t` frees what it has replaced at `level`. */
  ghost predicate Frees(s: State, s': State, t: Thread, level: nat) {
    && t in s.calls && s.calls[t].pc.Freeing? && level < NIADDR == |s.calls[t].replaced|
    && var r := s.calls[t].replaced[level];
       && r != 0 && r in s.owner && s.owner[r] == Replaced(t, level)
       && s' == s.(memory := s.memory - {r}, owner := s.owner - {r},
                   calls := s.calls[t := s.calls[t].(replaced := s.calls[t].replaced[level := 0])])
  }

  lemma FreeSlots(s: State, s': State, t: Thread, level: nat)
    requires Fits(s) && SlotsOk(s) && Frees(s, s', t, level)
    ensures SlotsOk(s')
  {
    forall l: nat | l < NIADDR ensures SlotOk(s', l) {
      assert SlotOk(s, l);
    }
  }

  lemma FreeCalls(s: State, s': State, t: Thread, level: nat)
    requires Fits(s) && CallsOk(s) && Frees(s, s', t, level)
    ensures CallsOk(s')
  {
    forall u | u in s'.calls ensures PcOk(s', u, s'.calls[u]) && ReplacedOk(s', u, s'.calls[u]) {
      if u != t {
        CallKept(s, s', u, s.calls[u]);
      } else {
        FreesOwn(s, s', t, level);
      }
    }
  }

  lemma FreesOwn(s: State, s': State, t: Thread, level: nat)
    requires Fits(s) && Frees(s, s', t, level) && PcOk(s, t, s.calls[t]) && ReplacedOk(s, t, s.calls[t])
    ensures PcOk(s', t, s'.calls[t]) && ReplacedOk(s', t, s'.calls[t])
  {
  }

  lemma FreeOwners(s: State, s': State, t: Thread, level: nat)
    requires Fits(s) && OwnersOk(s) && Frees(s, s', t, level)
    ensures OwnersOk(s')
  {
    forall r | r in s'.owner ensures OwnerOk(s', r) {
      assert OwnerOk(s, r);
    }
  }

  /** Thread `t` puts the region it has read at level `l` of the cache, and keeps the one that was there. */
  ghost predicate Installs(s: State, s': State, t: Thread, l: nat) {
    && Fits(s) && t in s.calls && s.calls[t].pc.HasRead? && l < NIADDR && l + 1 == s.calls[t].pc.depth && |s.calls[t].replaced| == NIADDR
    && t in s'.calls && var c, c', was := s.calls[t], s'.calls[t], s.blk[l];
       && c'.pc.Locked? && c'.pc.depth == l
       && c' == c.(pc := c'.pc, replaced := c.replaced[l := was])
       && s' == s.(blkno := s.blkno[l := c.pc.p], blk := s.blk[l := c.pc.region],
                   owner := (if was != 0 then s.owner[was := Replaced(t, l)] else s.owner)[c.pc.region := Slot(l)],
                   calls := s.calls[t := c'])
  }

  lemma InstallKeeps(s: State, t: Thread)
    requires Inv(s) && Enabled(s, Install(t))
    ensures Inv(Next(s, Install(t)))
  {
    var s' := Next(s, Install(t));
    var l := InstallIs(s, t);
    InstallSlots(s, s', t, l);
    InstallCalls(s, s', t, l);
    InstallOwners(s, s', t, l);
  }

  lemma InstallIs(s: State, t: Thread) returns (l: nat)
    requires Inv(s) && Enabled(s, Install(t))
    ensures var s' := Next(s, Install(t)); Installs(s, s', t, l) && OnWay(s.disk, s.n, s'.calls[t], l, s'.calls[t].pc.p, s'.calls[t].pc.fb)
    ensures PcOk(s, t, s.calls[t]) && ReplacedOk(s, t, s.calls[t])
  {
    var c := s.calls[t];
    assert PcOk(s, t, c) && ReplacedOk(s, t, c);
    DeeperOn(s.disk, s.n, c, c.pc.depth, c.pc.p, c.pc.fb);
    l := c.pc.depth - 1;
  }

  lemma InstallSlots(s: State, s': State, t: Thread, l: nat)
    requires Installs(s, s', t, l) && SlotsOk(s) && PcOk(s, t, s.calls[t])
    ensures SlotsOk(s')
  {
    forall m: nat | m < NIADDR ensures SlotOk(s', m) {
      assert SlotOk(s, m) && SlotOk(s, l);
    }
  }

  lemma InstallCalls(s: State, s': State, t: Thread, l: nat)
    requires Installs(s, s', t, l) && SlotsOk(s) && CallsOk(s) && s.memory.Keys == s.owner.Keys
    requires OnWay(s.disk, s.n, s'.calls[t], l, s'.calls[t].pc.p, s'.calls[t].pc.fb)
    ensures CallsOk(s')
  {
    assert SlotOk(s, l) && PcOk(s, t, s.calls[t]);
    forall u | u in s'.calls ensures PcOk(s', u, s'.calls[u]) && ReplacedOk(s', u, s'.calls[u]) {
      if u != t {
        CallKept(s, s', u, s.calls[u]);
      } else {
        InstallsOwn(s, s', t, l);
      }
    }
  }

  lemma InstallsOwn(s: State, s': State, t: Thread, l: nat)
    requires Installs(s, s', t, l) && SlotOk(s, l) && PcOk(s, t, s.calls[t]) && ReplacedOk(s, t, s.calls[t]) && s.memory.Keys == s.owner.Keys
    ensures ReplacedOk(s', t, s'.calls[t])
  {
  }

  lemma InstallOwners(s: State, s': State, t: Thread, l: nat)
    requires Installs(s, s', t, l) && SlotsOk(s) && OwnersOk(s) && 0 !in s.owner && PcOk(s, t, s.calls[t]) && ReplacedOk(s, t, s.calls[t])
    ensures OwnersOk(s')
  {
    forall r | r in s'.owner ensures OwnerOk(s', r) {
      assert SlotOk(s, l);
      InstallOwner(s, s', t, l, r);
    }
  }

  lemma InstallOwner(s: State, s': State, t: Thread, l: nat, r: nat)
    requires Installs(s, s', t, l) && SlotOk(s, l) && 0 !in s.owner && PcOk(s, t, s.calls[t]) && ReplacedOk(s, t, s.calls[t])
    requires r in s.owner && OwnerOk(s, r)
    ensures r in s'.owner && OwnerOk(s', r)
  {
    assert s.calls[t].replaced[l] == 0 && r != 0;
    if r == s.blk[l] {
      assert s'.owner[r] == Replaced(t, l) && s'.calls[t].replaced[l] == r;
    }
  }

  /** Every step of every thread keeps every region with exactly one owner, and every descent on its way. */
  lemma StepKeeps(s: State, e: Step)
    requires Inv(s) && Enabled(s, e)
    ensures Inv(Next(s, e))
  {
    match e
    case Begin(t, top, p0, fb0) => BeginKeeps(s, t, top, p0, fb0);
    case Hit(t) => HitKeeps(s, t);
    case AtNull(t) => AtNullKeeps(s, t);
    case Miss(t) => MissKeeps(s, t);
    case ReadDone(t, region) => ReadDoneKeeps(s, t, region);
    case ReadFails(t) => ReadFailsKeeps(s, t);
    case Install(t) => InstallKeeps(s, t);
    case Found(t) => FoundKeeps(s, t);
    case FreeOne(t, level) => FreeOneKeeps(s, t, level);
    case End(t) => EndKeeps(s, t);
  }

  ghost predicate Legal(s: State, es: seq<Step>)
    decreases |es|
  {
    es == [] || (Enabled(s, es[0]) && Legal(Next(s, es[0]), es[1..]))
  }

  ghost function After(s: State, es: seq<Step>): State
    requires Legal(s, es)
    decreases |es|
  {
    if es == [] then s else After(Next(s, es[0]), es[1..])
  }

  lemma {:induction false} RunsKeep(s: State, es: seq<Step>)
    requires Inv(s) && Legal(s, es)
    ensures Inv(After(s, es))
    decreases |es|
  {
    if es != [] {
      StepKeeps(s, es[0]);
      RunsKeep(Next(s, es[0]), es[1..]);
    }
  }

  // ---- Over every run ----

  /** Somebody else than `Replaced(t, level)` has the region, or names it. */
  ghost predicate Named(s: State, r: nat, t: Thread, level: nat) {
    || r in s.blk
    || (exists u :: u in s.calls && s.calls[u].pc.HasRead? && s.calls[u].pc.region == r)
    || exists u, l :: u in s.calls && 0 <= l < |s.calls[u].replaced| && (u, l) != (t, level) && s.calls[u].replaced[l] == r
  }

  /** A region is freed while it is there, and nobody has it or comes to free it as well. */
  lemma FreedOnce(s: State, es: seq<Step>, t: Thread, level: nat)
    requires Initial(s) && Legal(s, es) && Enabled(After(s, es), FreeOne(t, level))
    ensures var now := After(s, es); var r := now.calls[t].replaced[level]; r in now.memory && !Named(now, r, t, level)
  {
    InitialInv(s);
    RunsKeep(s, es);
    NotNamed(After(s, es), t, level);
  }

  lemma NotNamed(s: State, t: Thread, level: nat)
    requires Inv(s) && Enabled(s, FreeOne(t, level))
    ensures var r := s.calls[t].replaced[level]; r in s.memory && !Named(s, r, t, level)
  {
    var r := s.calls[t].replaced[level];
    assert ReplacedOk(s, t, s.calls[t]);
    forall l | 0 <= l < NIADDR ensures s.blk[l] != r {
      assert SlotOk(s, l);
    }
    forall u | u in s.calls && s.calls[u].pc.HasRead? ensures s.calls[u].pc.region != r {
      assert PcOk(s, u, s.calls[u]);
    }
    forall u, l | u in s.calls && 0 <= l < |s.calls[u].replaced| && (u, l) != (t, level) ensures s.calls[u].replaced[l] != r {
      assert ReplacedOk(s, u, s.calls[u]);
    }
  }

  /** A thread that looks into the cache, or has just read a block, has the data of its block in memory. */
  lemma LooksAtBlock(s: State, es: seq<Step>, t: Thread)
    requires Initial(s) && Legal(s, es)
    ensures var now := After(s, es);
            Enabled(now, Hit(t)) ==> var pc := now.calls[t].pc; pc.p in now.disk && DataOf(now, now.blk[pc.depth - 1]) == now.disk[pc.p]
    ensures var now := After(s, es);
            Enabled(now, Install(t)) ==> var pc := now.calls[t].pc; pc.p in now.disk && DataOf(now, pc.region) == now.disk[pc.p]
  {
    InitialInv(s);
    RunsKeep(s, es);
    var now := After(s, es);
    if Enabled(now, Hit(t)) {
      assert SlotOk(now, now.calls[t].pc.depth - 1);
    }
    if Enabled(now, Install(t)) {
      assert PcOk(now, t, now.calls[t]);
    }
  }

  /** Whatever the others do, what a thread finds is the leaf asked for. */
  lemma FindsLeaf(s: State, es: seq<Step>, t: Thread)
    requires Initial(s) && Legal(s, es)
    requires var now := After(s, es); t in now.calls && now.calls[t].pc.Freeing? && now.calls[t].pc.found.Block?
    ensures var now := After(s, es);
            var c := now.calls[t];
            && now.n > 0 && DiskOk(now.disk, now.n) && c.top < NIADDR && c.fb0 < Capacity(now.n, c.top + 1)
            && c.pc.found == Leaves(now.disk, now.n, c.top + 1, c.p0)[c.fb0]
  {
    InitialInv(s);
    RunsKeep(s, es);
    assert PcOk(After(s, es), t, After(s, es).calls[t]);
  }

  ghost predicate NoneLost(s: State) { forall r :: r in s.owner ==> !s.owner[r].Lost? }

  lemma NoneLostOn(s: State, e: Step)
    requires Inv(s) && NoneLost(s) && Enabled(s, e) && !e.ReadFails?
    ensures NoneLost(Next(s, e))
  {
    var owner := Next(s, e).owner;
    forall r | r in owner ensures !owner[r].Lost? {
      assert r in s.owner ==> !s.owner[r].Lost?;
    }
  }

  /** When all threads are done only the cache has regions, but for those lost. */
  lemma AllDone(s: State)
    requires Inv(s) && NoneLost(s) && s.calls == map[]
    ensures forall r :: r in s.memory ==> r in s.blk
  {
    forall r | r in s.memory ensures r in s.blk {
      assert OwnerOk(s, r);
    }
  }

  /** If no device read fails no region is lost. */
  lemma {:induction false} LostOnlyByErrors(s: State, es: seq<Step>)
    requires Inv(s) && NoneLost(s) && Legal(s, es) && forall i :: 0 <= i < |es| ==> !es[i].ReadFails?
    ensures NoneLost(After(s, es))
    ensures After(s, es).calls == map[] ==> forall r :: r in After(s, es).memory ==> r in After(s, es).blk
    decreases |es|
  {
    if es == [] {
      if s.calls == map[] {
        AllDone(s);
      }
    } else {
      StepKeeps(s, es[0]);
      NoneLostOn(s, es[0]);
      assert forall i :: 0 <= i < |es| - 1 ==> es[1..][i] == es[i + 1];
      LostOnlyByErrors(Next(s, es[0]), es[1..]);
    }
  }
}
