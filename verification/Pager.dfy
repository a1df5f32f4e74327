/** The backing store as a whole: any number of memory objects that share the clusters of any
    number of paging segments. The steps are the pieces of the cluster read and write loops that
    run under the lock of an object's map, and they interleave freely (dp_backing_store.c:1370-1785
    and 2016-2347). Offsets and sizes are in pages. */
module Pager {
  import opened Division
  import opened PagingSegments
  import opened Slots

  type Content = int

  datatype Seg = Seg(ncls: nat, used: set<nat>)

  /** A transfer between its ps_clmap and its completion. All its pages are in one cluster: `k` and
      `off` are the cluster of its first page `page` and that page's place in the cluster. */
  datatype Op =
    | Writing(obj: nat, page: nat, k: nat, off: nat, data: seq<Content>, at: Loc, issued: bool)
    | Reading(obj: nat, page: nat, k: nat, off: nat, len: nat, at: Loc, got: Option<seq<Content>>)
  {
    function Len(): nat { if Writing? then |data| else len }

    /** It has done with the disk. */
    predicate Settled() { if Writing? then issued else got.Some? }

    /** The transfer covers page `i` of cluster `c` of object `o`. */
    predicate Owns(o: nat, c: nat, i: nat) { obj == o && k == c && off <= i < off + Len() }
  }

  /** `lost`: clusters numbered 0 that a write error did not give back (line 1562). */
  datatype State = State(
    cs: nat,
    segs: seq<Seg>,
    objs: map<nat, Table>,
    disk: map<(Loc, nat), Content>,
    ops: map<nat, Op>,
    lost: set<Loc>)

  datatype Event =
    | Create(obj: nat, size: nat)
    | Destroy(obj: nat)
    | WriteMap(id: nat, obj: nat, page: nat, data: seq<Content>, mem: Memory, space: Option<Loc>)
    | Issue(id: nat)
    | WriteDone(id: nat, error: nat)
    | FailMark(obj: nat, page: nat, cnt: nat, error: nat)
    | ReadMap(id: nat, obj: nat, page: nat, cnt: nat)
    | ReadDevice(id: nat)
    | ReadFail(id: nat)
    | Supply(id: nat)

  /** The messages sent to the kernel. */
  datatype Output =
    | Silent
    | Supplied(obj: nat, k: nat, off: nat, data: seq<Content>)
    | Unavailable(obj: nat, k: nat, off: nat, len: nat)
    | DataError(obj: nat, k: nat, off: nat, len: nat)

  // ---- Reading the state ----

  function Ent(s: State, o: nat, k: nat): Entry {
    if o in s.objs then Lookup(s.objs[o], k) else CLEAR
  }

  predicate InRange(s: State, loc: Loc) {
    loc.ps < |s.segs| && loc.cl < s.segs[loc.ps].ncls
  }

  predicate IsUsed(s: State, loc: Loc) {
    loc.ps < |s.segs| && loc.cl in s.segs[loc.ps].used
  }

  function Mark(segs: seq<Seg>, loc: Loc): seq<Seg> {
    if loc.ps < |segs| then segs[loc.ps := segs[loc.ps].(used := segs[loc.ps].used + {loc.cl})] else segs
  }

  function Unmark(segs: seq<Seg>, freed: Option<Loc>): seq<Seg> {
    if freed.Some? && freed.value.ps < |segs|
    then var p := freed.value.ps; segs[p := segs[p].(used := segs[p].used - {freed.value.cl})]
    else segs
  }

  function UnmarkAll(segs: seq<Seg>, freed: seq<Loc>): seq<Seg> {
    if freed == [] then segs else Unmark(UnmarkAll(segs, freed[..|freed| - 1]), Some(freed[|freed| - 1]))
  }

  predicate Owned(s: State, o: nat, k: nat, i: nat) {
    exists id :: id in s.ops && s.ops[id].Owns(o, k, i)
  }

  // ---- The loops' choices ----

  /** The pages of one round of a transfer of `cnt` pages: never past the end of the cluster. */
  function Chunk(cs: nat, page: nat, cnt: nat): (n: nat)
    requires cs > 0
    ensures n <= cnt && page % cs + n <= cs && (cnt > 0 ==> n > 0)
  {
    Min(cnt, cs - page % cs)
  }

  /** How many pages from `i` on, below `limit`, agree with `want` about being in `pages`. */
  function Run(pages: set<nat>, want: bool, i: nat, limit: nat): (n: nat)
    requires i <= limit
    ensures i + n <= limit
    ensures forall j: nat :: i <= j < i + n ==> (j in pages) == want
    ensures i + n < limit ==> (i + n in pages) != want
    decreases limit - i
  {
    if i < limit && (i in pages) == want then 1 + Run(pages, want, i + 1, limit) else 0
  }

  // ---- Steps ----

  /** The pages of the next round of a transfer that are not covered by any outstanding one. */
  ghost predicate ChunkFree(s: State, o: nat, page: nat, cnt: nat)
    requires s.cs > 0
  {
    forall i: nat :: page % s.cs <= i < page % s.cs + Chunk(s.cs, page, cnt) ==> !Owned(s, o, page / s.cs, i)
  }

  predicate Live(s: State, o: nat) {
    o in s.objs && |s.objs[o]| > 0
  }

  function Created(s: State, o: nat, size: nat): State {
    s.(objs := s.objs[o := seq(size, _ => if Indirect(size) then None else Some(CLEAR))])
  }

  /** ps_vstruct_dealloc. */
  function Destroyed(s: State, o: nat): State
    requires o in s.objs
  {
    s.(segs := UnmarkAll(s.segs, MappedLocs(s.objs[o])), objs := s.objs - {o})
  }

  /** One round of vs_cluster_write up to the device write, after ps_clmap answered `out`: `data` is
      all that is left to write. */
  function WriteRound(s: State, id: nat, o: nat, page: nat, data: seq<Content>, space: Option<Loc>, out: Outcome): State
    requires s.cs > 0
  {
    var s1 := Entered(s, o, space, out);
    if out.reply.Found? then
      s1.(ops := s.ops[id := Writing(o, page, page / s.cs, page % s.cs, data[..Chunk(s.cs, page, |data|)], out.reply.at, false)])
    else s1
  }

  /** The map and the bitmaps after a ps_clmap that may have claimed `space`. */
  function Entered(s: State, o: nat, space: Option<Loc>, out: Outcome): State {
    s.(objs := s.objs[o := out.table], segs := if out.asked && space.Some? then Mark(s.segs, space.value) else s.segs)
  }

  /** The disk after `data` has been written to the pages from `off` on of cluster `at`. */
  function WriteDisk(disk: map<(Loc, nat), Content>, at: Loc, off: nat, data: seq<Content>): (r: map<(Loc, nat), Content>)
    ensures forall l: Loc, i: nat :: (l, i) in r <==> (l, i) in disk || (l == at && off <= i < off + |data|)
    ensures forall l: Loc, i: nat :: (l, i) in r ==>
              r[(l, i)] == if l == at && off <= i < off + |data| then data[i - off] else disk[(l, i)]
  {
    if data == [] then disk
    else
      var n := |data| - 1;
      WriteDisk(disk, at, off, data[..n])[(at, off + n) := data[n]]
  }

  /** The device write. */
  function Issued(s: State, id: nat): State
    requires id in s.ops && s.ops[id].Writing?
  {
    var op := s.ops[id];
    s.(disk := WriteDisk(s.disk, op.at, op.off, op.data),
       ops := s.ops[id := op.(issued := true)])
  }

  const NOMEM: Memory := Memory(false, false, false)

  /** ps_vs_write_complete, whose ps_clmap answered `out`; `e` is the entry before it. */
  function Completion(s: State, o: nat, e: Entry, error: nat, out: Outcome): State {
    s.(objs := s.objs[o := out.table],
       segs := Unmark(s.segs, out.freed),
       lost := if error > 0 && e.IsMapped() && out.freed.None? then s.lost + {e.Location()} else s.lost)
  }

  function CompleteCall(s: State, o: nat, page: nat, cnt: nat, error: nat): Outcome
    requires s.cs > 0 && Live(s, o)
  {
    Clmap(s.objs[o], s.cs, page, Find, cnt, error, NOMEM, None)
  }

  /** One round of vs_cluster_read up to the device read, after ps_clmap answered `reply`. */
  function ReadRound(s: State, id: nat, o: nat, page: nat, cnt: nat, reply: Reply): (State, Output)
    requires s.cs > 0 && cnt > 0
  {
    var k, off := page / s.cs, page % s.cs;
    if reply.Found? then
      var n := Run(reply.bmap, 0 in reply.bmap, 0, Min(cnt, reply.numpages));
      if 0 in reply.bmap then (s.(ops := s.ops[id := Reading(o, page, k, off, n, reply.at, None)]), Silent)
      else (s, Unavailable(o, k, off, n))
    else
      var n := Chunk(s.cs, page, cnt);
      (s, if reply.Failed? && reply.error != 0 then DataError(o, k, off, n) else Unavailable(o, k, off, n))
  }

  ghost predicate OnDisk(s: State, at: Loc, off: nat, len: nat) {
    forall i: nat :: off <= i < off + len ==> (at, i) in s.disk
  }

  function DeviceRead(s: State, id: nat): State
    requires id in s.ops && s.ops[id].Reading? && OnDisk(s, s.ops[id].at, s.ops[id].off, s.ops[id].len)
  {
    var op := s.ops[id];
    s.(ops := s.ops[id := op.(got := Some(seq(op.len, j requires 0 <= j < op.len => s.disk[(op.at, op.off + j)])))])
  }

  /** ps_clunmap for a transfer in one cluster. */
  function UnmapCall(s: State, op: Op): Unmapped
    requires op.obj in s.objs
  {
    var t := s.objs[op.obj];
    if s.cs > 0 && (op.Len() > 0 ==> (op.page + op.Len() - 1) / s.cs < |t|) then Clunmap(t, s.cs, op.page, op.Len())
    else Unmapped(t, [])
  }

  /** vs_object_data_provided, whose ps_clunmap answered `u`. */
  function Supplying(s: State, id: nat, u: Unmapped): State
    requires id in s.ops
  {
    s.(objs := s.objs[s.ops[id].obj := u.table], segs := UnmarkAll(s.segs, u.freed), ops := s.ops - {id})
  }

  ghost predicate Enabled(s: State, e: Event) {
    && s.cs > 0
    && match e
       case Create(o, size) => o !in s.objs && size > 0
       case Destroy(o) => o in s.objs && forall id :: id in s.ops ==> s.ops[id].obj != o
       case WriteMap(id, o, page, data, mem, space) =>
         && id !in s.ops && Live(s, o) && data != [] && ChunkFree(s, o, page, |data|)
         && (space.Some? ==> InRange(s, space.value) && !IsUsed(s, space.value))
       case Issue(id) => id in s.ops && s.ops[id].Writing? && !s.ops[id].issued
       case WriteDone(id, error) =>
         && id in s.ops && s.ops[id].Writing? && Live(s, s.ops[id].obj)
         && (s.ops[id].issued || error > 0) && error < VSM_ENTRY_RANGE
       case FailMark(o, page, cnt, error) => Live(s, o) && cnt > 0 && 0 < error < VSM_ENTRY_RANGE
       case ReadMap(id, o, page, cnt) => id !in s.ops && Live(s, o) && cnt > 0 && ChunkFree(s, o, page, cnt)
       case ReadDevice(id) =>
         && id in s.ops && s.ops[id].Reading? && s.ops[id].got.None?
         && OnDisk(s, s.ops[id].at, s.ops[id].off, s.ops[id].len)
       case ReadFail(id) => id in s.ops && s.ops[id].Reading? && s.ops[id].got.None?
       case Supply(id) => id in s.ops && s.ops[id].Reading? && s.ops[id].got.Some? && s.ops[id].obj in s.objs
  }

  ghost function Next(s: State, e: Event): (State, Output)
    requires Enabled(s, e)
  {
    match e
    case Create(o, size) => (Created(s, o, size), Silent)
    case Destroy(o) => (Destroyed(s, o), Silent)
    case WriteMap(id, o, page, data, mem, space) =>
      (WriteRound(s, id, o, page, data, space, Clmap(s.objs[o], s.cs, page, Alloc, |data|, 0, mem, space)), Silent)
    case Issue(id) => (Issued(s, id), Silent)
    case WriteDone(id, error) =>
      var op := s.ops[id];
      (Completion(s, op.obj, Ent(s, op.obj, op.k), error, CompleteCall(s, op.obj, op.page, |op.data|, error)).(ops := s.ops - {id}),
       Silent)
    case FailMark(o, page, cnt, error) =>
      (Completion(s, o, Ent(s, o, page / s.cs), error, CompleteCall(s, o, page, cnt, error)), Silent)
    case ReadMap(id, o, page, cnt) =>
      ReadRound(s, id, o, page, cnt, Clmap(s.objs[o], s.cs, page, Find, 0, 0, NOMEM, None).reply)
    case ReadDevice(id) => (DeviceRead(s, id), Silent)
    case ReadFail(id) =>
      var op := s.ops[id];
      (s.(ops := s.ops - {id}), DataError(op.obj, op.k, op.off, op.len))
    case Supply(id) =>
      var op := s.ops[id];
      (Supplying(s, id, UnmapCall(s, op)), Supplied(op.obj, op.k, op.off, op.got.value))
  }
}
