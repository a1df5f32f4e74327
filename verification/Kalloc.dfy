/** The allocator of the default pager (kalloc.c): free lists of blocks of each power of two, linked
    through the blocks themselves, over space taken a page at a time from the kernel. kget_space drops
    its lock while the kernel maps memory, so each method is one stretch between taking a lock and
    dropping it, and what holds between any two of them holds for every interleaving of threads. */
module Kalloc {

  const MINSIZE: nat := 4
  const KLIST_MAX: nat := 13

  /** The size of the blocks of list `k`. */
  function Size(k: nat): (s: nat)
    ensures s >= MINSIZE && s % 4 == 0
  {
    if k == 0 then MINSIZE else 2 * Size(k - 1)
  }

  lemma {:induction false} SizeMonotone(j: nat, k: nat)
    requires j < k
    ensures 2 * Size(j) <= Size(k)
  {
    if j < k - 1 {
      SizeMonotone(j, k - 1);
    }
  }

  lemma Sizes()
    ensures Size(12) == 16384
  {
    assert Size(2) == 16 && Size(4) == 64 && Size(6) == 256 && Size(8) == 1024 && Size(10) == 4096;
  }

  /** What a byte of small-block space is for. */
  datatype Owner = InBlock(start: nat) | Tail | Waste | Flight(region: nat)

  datatype Block = Block(list: nat, free: bool)

  ghost function Range(lo: nat, hi: nat): (s: set<nat>)
    requires lo <= hi
    ensures forall b :: b in s <==> lo <= b < hi
    ensures |s| == hi - lo
    decreases hi
  {
    if lo == hi then {} else Range(lo, hi - 1) + {hi - 1}
  }

  /** The bytes from `lo` up to `hi` are given to `o`. */
  ghost function Paint(owner: map<nat, Owner>, lo: nat, hi: nat, o: Owner): (r: map<nat, Owner>)
    requires lo <= hi
    ensures Painted(owner, r, lo, hi, o)
  {
    map b | b in owner.Keys + Range(lo, hi) :: if lo <= b < hi then o else owner[b]
  }

  ghost predicate Painted(owner: map<nat, Owner>, r: map<nat, Owner>, lo: nat, hi: nat, o: Owner) {
    && (forall b :: b in r <==> b in owner || lo <= b < hi)
    && (forall b :: b in r ==> r[b] == if lo <= b < hi then o else owner[b])
  }

  ghost function Wasted(owner: map<nat, Owner>): set<nat> {
    set b | b in owner && owner[b] == Waste
  }

  /** The bytes of `o` are those of the range. */
  ghost predicate Owns(owner: map<nat, Owner>, lo: nat, size: nat, o: Owner) {
    forall b :: b in owner ==> (owner[b] == o <==> lo <= b < lo + size)
  }

  /** A range is all there, and is all of `o`. */
  ghost predicate Has(owner: map<nat, Owner>, lo: nat, size: nat, o: Owner) {
    Owns(owner, lo, size, o) && forall b: nat :: lo <= b < lo + size ==> b in owner
  }

  /** The chain of links from `head` runs through the addresses of `list` and ends. */
  ghost predicate Linked(words: map<nat, nat>, head: nat, list: seq<nat>)
    decreases |list|
  {
    if list == [] then head == 0
    else head == list[0] && head in words && head !in list[1..] && Linked(words, words[head], list[1..])
  }

  /** The free blocks of each size, and no others, are on its list. */
  ghost predicate ListsOk(heads: seq<nat>, words: map<nat, nat>, lists: seq<seq<nat>>, blocks: map<nat, Block>) {
    && |heads| == |lists| == KLIST_MAX
    && (forall k :: 0 <= k < KLIST_MAX ==> Linked(words, heads[k], lists[k]) && AllFree(lists[k], k, blocks))
    && (forall a :: a in blocks && blocks[a].free ==> blocks[a].list < KLIST_MAX && a in lists[blocks[a].list])
  }

  ghost predicate AllFree(list: seq<nat>, k: nat, blocks: map<nat, Block>) {
    forall i :: 0 <= i < |list| ==> list[i] > 0 && list[i] in blocks && blocks[list[i]] == Block(k, true)
  }

  lemma PopOne(words: map<nat, nat>, head: nat, list: seq<nat>)
    requires Linked(words, head, list) && list != []
    ensures Linked(words, words[head], list[1..]) && head !in list[1..]
  {
  }

  lemma PopLists(heads: seq<nat>, words: map<nat, nat>, lists: seq<seq<nat>>, blocks: map<nat, Block>, fl: nat)
    requires ListsOk(heads, words, lists, blocks) && fl < KLIST_MAX && lists[fl] != []
    ensures heads[fl] in words && heads[fl] in blocks && blocks[heads[fl]] == Block(fl, true)
    ensures var a := heads[fl]; ListsOk(heads[fl := words[a]], words, lists[fl := lists[fl][1..]], blocks[a := Block(fl, false)])
  {
    var a := heads[fl];
    PopOne(words, a, lists[fl]);
    var lists', blocks' := lists[fl := lists[fl][1..]], blocks[a := Block(fl, false)];
    forall k | 0 <= k < KLIST_MAX ensures AllFree(lists'[k], k, blocks') {
      forall i | 0 <= i < |lists'[k]| ensures lists'[k][i] > 0 && lists'[k][i] in blocks' && blocks'[lists'[k][i]] == Block(k, true) {
        assert k == fl ==> lists'[k][i] == lists[k][i + 1];
      }
    }
    forall b | b in blocks' && blocks'[b].free ensures b in lists'[blocks'[b].list] {
      var i :| 0 <= i < |lists[blocks[b].list]| && lists[blocks[b].list][i] == b;
      if blocks[b].list == fl {
        assert lists'[fl][i - 1] == b;
      }
    }
  }

  lemma PushOne(words: map<nat, nat>, head: nat, list: seq<nat>, a: nat)
    requires Linked(words, head, list) && a !in list
    ensures Linked(words[a := head], a, [a] + list)
  {
    PushElsewhere(words, head, list, a, head);
    assert ([a] + list)[1..] == list;
  }

  lemma {:induction false} PushElsewhere(words: map<nat, nat>, head: nat, list: seq<nat>, a: nat, w: nat)
    requires Linked(words, head, list) && a !in list
    ensures Linked(words[a := w], head, list)
    decreases |list|
  {
    if list != [] {
      PushElsewhere(words, words[head], list[1..], a, w);
    }
  }

  lemma PushLists(heads: seq<nat>, words: map<nat, nat>, lists: seq<seq<nat>>, blocks: map<nat, Block>, fl: nat, a: nat)
    requires ListsOk(heads, words, lists, blocks) && a > 0 && a in blocks && blocks[a] == Block(fl, false) && fl < KLIST_MAX
    ensures ListsOk(heads[fl := a], words[a := heads[fl]], lists[fl := [a] + lists[fl]], blocks[a := Block(fl, true)])
  {
    forall k | 0 <= k < KLIST_MAX ensures a !in lists[k] {
      assert AllFree(lists[k], k, blocks);
    }
    PushOne(words, heads[fl], lists[fl], a);
    var lists', blocks' := lists[fl := [a] + lists[fl]], blocks[a := Block(fl, true)];
    forall k | 0 <= k < KLIST_MAX && k != fl ensures Linked(words[a := heads[fl]], heads[k], lists[k]) {
      PushElsewhere(words, heads[k], lists[k], a, heads[fl]);
    }
    forall k | 0 <= k < KLIST_MAX ensures AllFree(lists'[k], k, blocks') {
      forall i | 0 <= i < |lists'[k]| ensures lists'[k][i] > 0 && lists'[k][i] in blocks' && blocks'[lists'[k][i]] == Block(k, true) {
        assert AllFree(lists[k], k, blocks);
        assert k == fl && i > 0 ==> lists'[k][i] == lists[k][i - 1];
      }
    }
    forall b | b in blocks' && blocks'[b].free ensures b in lists'[blocks'[b].list] {
      if b == a {
        assert lists'[fl][0] == a;
      } else {
        var i :| 0 <= i < |lists[blocks[b].list]| && lists[blocks[b].list][i] == b;
        assert blocks[b].list == fl ==> lists'[fl][i + 1] == b;
      }
    }
  }

  // ---- Space ----

  /** What all small-block space is for: `from` and `to` bound the unused tail. */
  datatype Space = Space(from: nat, to: nat, page: nat, flight: set<nat>, owner: map<nat, Owner>, wasted: nat)

  ghost predicate TailOk(s: Space) {
    && s.page > 0 && s.page % 4 == 0
    && 0 < s.from <= s.to && s.from % 4 == 0 && s.to % 4 == 0 && Has(s.owner, s.from, s.to - s.from, Tail)
  }

  ghost predicate BlocksOk(owner: map<nat, Owner>, blocks: map<nat, Block>) {
    forall a :: a in blocks ==> a > 0 && a % 4 == 0 && blocks[a].list < KLIST_MAX && Has(owner, a, Size(blocks[a].list), InBlock(a))
  }

  ghost predicate FlightOk(owner: map<nat, Owner>, flight: set<nat>, page: nat) {
    forall r :: r in flight ==> r > 0 && r % 4 == 0 && Has(owner, r, page, Flight(r))
  }

  /** Every byte is part of a block that exists, of a region that exists, of the tail or of the waste. */
  ghost predicate AllAccounted(owner: map<nat, Owner>, blocks: map<nat, Block>, flight: set<nat>) {
    forall b :: b in owner ==> Accounted(owner[b], blocks, flight)
  }

  ghost predicate Accounted(o: Owner, blocks: map<nat, Block>, flight: set<nat>) {
    (o.InBlock? ==> o.start in blocks) && (o.Flight? ==> o.region in flight)
  }

  ghost predicate SpaceOk(s: Space, blocks: map<nat, Block>) {
    && TailOk(s) && BlocksOk(s.owner, blocks) && FlightOk(s.owner, s.flight, s.page)
    && AllAccounted(s.owner, blocks, s.flight) && s.wasted == |Wasted(s.owner)|
  }

  /** Bytes that were not those of `o` are given to another: `o` keeps what it has. */
  ghost predicate Spares(owner: map<nat, Owner>, lo: nat, hi: nat, o: Owner) {
    forall b :: b in owner && lo <= b < hi ==> owner[b] != o
  }

  lemma HasKept(owner: map<nat, Owner>, r: map<nat, Owner>, lo: nat, hi: nat, o: Owner, a: nat, size: nat, o2: Owner)
    requires Has(owner, a, size, o2) && Painted(owner, r, lo, hi, o) && o2 != o && Spares(owner, lo, hi, o2)
    ensures Has(r, a, size, o2)
  {
    forall b: nat | a <= b < a + size ensures b in owner && b in r && r[b] == o2 {
      assert b in owner && owner[b] == o2;
    }
  }

  lemma BlocksKept(owner: map<nat, Owner>, r: map<nat, Owner>, lo: nat, hi: nat, o: Owner, blocks: map<nat, Block>)
    requires BlocksOk(owner, blocks) && Painted(owner, r, lo, hi, o)
    requires forall a :: a in blocks ==> InBlock(a) != o && Spares(owner, lo, hi, InBlock(a))
    ensures BlocksOk(r, blocks)
  {
    forall a | a in blocks ensures Has(r, a, Size(blocks[a].list), InBlock(a)) {
      HasKept(owner, r, lo, hi, o, a, Size(blocks[a].list), InBlock(a));
    }
  }

  lemma FlightKept(owner: map<nat, Owner>, r: map<nat, Owner>, lo: nat, hi: nat, o: Owner, flight: set<nat>, page: nat)
    requires FlightOk(owner, flight, page) && Painted(owner, r, lo, hi, o)
    requires forall q :: q in flight ==> Flight(q) != o && Spares(owner, lo, hi, Flight(q))
    ensures FlightOk(r, flight, page)
  {
    forall q | q in flight ensures Has(r, q, page, Flight(q)) {
      HasKept(owner, r, lo, hi, o, q, page, Flight(q));
    }
  }

  lemma NotWasted(owner: map<nat, Owner>, r: map<nat, Owner>, lo: nat, hi: nat, o: Owner)
    requires Painted(owner, r, lo, hi, o) && o != Waste && Spares(owner, lo, hi, Waste)
    ensures Wasted(r) == Wasted(owner)
  {
  }

  lemma NowWasted(owner: map<nat, Owner>, r: map<nat, Owner>, lo: nat, hi: nat)
    requires lo <= hi && Painted(owner, r, lo, hi, Waste) && Spares(owner, lo, hi, Waste)
    ensures |Wasted(r)| == |Wasted(owner)| + (hi - lo)
  {
    assert Wasted(r) == Wasted(owner) + Range(lo, hi);
  }

  lemma AccountedStill(owner: map<nat, Owner>, r: map<nat, Owner>, lo: nat, hi: nat, o: Owner, blocks: map<nat, Block>, flight: set<nat>)
    requires AllAccounted(owner, blocks, flight) && Painted(owner, r, lo, hi, o) && Accounted(o, blocks, flight)
    ensures AllAccounted(r, blocks, flight)
  {
  }

  // ---- A block from the front of the tail ----

  lemma CarveKeeps(s: Space, blocks: map<nat, Block>, k: nat, r: map<nat, Owner>)
    requires SpaceOk(s, blocks) && k < KLIST_MAX && s.from + Size(k) <= s.to && Painted(s.owner, r, s.from, s.from + Size(k), InBlock(s.from))
    ensures s.from !in blocks && SpaceOk(s.(from := s.from + Size(k), owner := r), blocks[s.from := Block(k, false)])
  {
    var lo, hi := s.from, s.from + Size(k);
    assert lo in s.owner && s.owner[lo] == Tail;
    assert lo !in blocks;
    CarvedOthers(s, blocks, hi, r);
    CarvedTail(s, Size(k), r);
    CarvedAccounted(s, blocks, k, Size(k), r);
    CarvedBlock(s, Size(k), r);
    AddBlock(r, blocks, lo, k);
  }

  lemma CarvedOthers(s: Space, blocks: map<nat, Block>, hi: nat, r: map<nat, Owner>)
    requires TailOk(s) && BlocksOk(s.owner, blocks) && FlightOk(s.owner, s.flight, s.page)
    requires s.from !in blocks && s.from <= hi <= s.to && Painted(s.owner, r, s.from, hi, InBlock(s.from))
    ensures BlocksOk(r, blocks) && FlightOk(r, s.flight, s.page) && Wasted(r) == Wasted(s.owner)
  {
    BlocksKept(s.owner, r, s.from, hi, InBlock(s.from), blocks);
    FlightKept(s.owner, r, s.from, hi, InBlock(s.from), s.flight, s.page);
    NotWasted(s.owner, r, s.from, hi, InBlock(s.from));
  }

  lemma AddBlock(owner: map<nat, Owner>, blocks: map<nat, Block>, a: nat, k: nat)
    requires BlocksOk(owner, blocks) && a > 0 && a % 4 == 0 && k < KLIST_MAX && Has(owner, a, Size(k), InBlock(a))
    ensures BlocksOk(owner, blocks[a := Block(k, false)])
  {
  }

  lemma CarvedTail(s: Space, size: nat, r: map<nat, Owner>)
    requires TailOk(s) && s.from + size <= s.to && size % 4 == 0 && Painted(s.owner, r, s.from, s.from + size, InBlock(s.from))
    ensures TailOk(s.(from := s.from + size, owner := r))
  {
    forall b: nat | s.from + size <= b < s.to ensures b in r {
      assert b in s.owner;
    }
  }

  lemma CarvedBlock(s: Space, size: nat, r: map<nat, Owner>)
    requires s.from + size <= s.to && Painted(s.owner, r, s.from, s.from + size, InBlock(s.from))
    requires forall b :: b in s.owner ==> s.owner[b] != InBlock(s.from)
    ensures Has(r, s.from, size, InBlock(s.from))
  {
  }

  lemma CarvedAccounted(s: Space, blocks: map<nat, Block>, k: nat, size: nat, r: map<nat, Owner>)
    requires AllAccounted(s.owner, blocks, s.flight) && s.from !in blocks && Painted(s.owner, r, s.from, s.from + size, InBlock(s.from))
    ensures (forall b :: b in s.owner ==> s.owner[b] != InBlock(s.from)) && AllAccounted(r, blocks[s.from := Block(k, false)], s.flight)
  {
    forall b | b in s.owner ensures s.owner[b] != InBlock(s.from) {
      assert Accounted(s.owner[b], blocks, s.flight);
    }
  }

  // ---- The rest of the tail is thrown away ----

  lemma DiscardKeeps(s: Space, blocks: map<nat, Block>, r: map<nat, Owner>)
    requires SpaceOk(s, blocks) && Painted(s.owner, r, s.from, s.to, Waste)
    ensures SpaceOk(s.(from := s.to, owner := r, wasted := s.wasted + (s.to - s.from)), blocks)
  {
    BlocksKept(s.owner, r, s.from, s.to, Waste, blocks);
    FlightKept(s.owner, r, s.from, s.to, Waste, s.flight, s.page);
    NowWasted(s.owner, r, s.from, s.to);
    AccountedStill(s.owner, r, s.from, s.to, Waste, blocks, s.flight);
  }

  // ---- A region mapped becomes the end of the tail, or all of it ----

  lemma InstallKeeps(s: Space, blocks: map<nat, Block>, q: nat, r: map<nat, Owner>)
    requires SpaceOk(s, blocks) && q in s.flight && (q == s.to || s.from == s.to) && Painted(s.owner, r, q, q + s.page, Tail)
    ensures SpaceOk(s.(from := if q == s.to then s.from else q, to := q + s.page, owner := r, flight := s.flight - {q}), blocks)
  {
    assert Has(s.owner, q, s.page, Flight(q));
    var rest := s.flight - {q};
    BlocksKept(s.owner, r, q, q + s.page, Tail, blocks);
    FlightKept(s.owner, r, q, q + s.page, Tail, rest, s.page);
    NotWasted(s.owner, r, q, q + s.page, Tail);
    InstalledOk(s, q, r);
    InstalledAccounted(s, blocks, q, r);
  }

  lemma InstalledOk(s: Space, q: nat, r: map<nat, Owner>)
    requires TailOk(s) && q > 0 && q % 4 == 0 && (q == s.to || s.from == s.to) && Painted(s.owner, r, q, q + s.page, Tail)
    ensures TailOk(s.(from := if q == s.to then s.from else q, to := q + s.page, owner := r, flight := s.flight - {q}))
  {
    var from := if q == s.to then s.from else q;
    forall b: nat | from <= b < q + s.page ensures b in r {
      if b < q {
        assert b in s.owner;
      }
    }
  }

  lemma InstalledAccounted(s: Space, blocks: map<nat, Block>, q: nat, r: map<nat, Owner>)
    requires AllAccounted(s.owner, blocks, s.flight) && Has(s.owner, q, s.page, Flight(q)) && Painted(s.owner, r, q, q + s.page, Tail)
    ensures AllAccounted(r, blocks, s.flight - {q})
  {
    forall b | b in r ensures Accounted(r[b], blocks, s.flight - {q}) {
      if !(q <= b < q + s.page) {
        assert b in s.owner && Accounted(s.owner[b], blocks, s.flight);
      }
    }
  }

  // ---- The kernel maps a region, or takes it back ----

  /** Pages that are not small-block space. */
  ghost predicate Unused(owner: map<nat, Owner>, q: nat, page: nat) {
    q > 0 && q % 4 == 0 && forall b :: b in owner ==> !(q <= b < q + page)
  }

  lemma MapKeeps(s: Space, blocks: map<nat, Block>, q: nat, r: map<nat, Owner>)
    requires SpaceOk(s, blocks) && Unused(s.owner, q, s.page) && Painted(s.owner, r, q, q + s.page, Flight(q))
    ensures SpaceOk(s.(owner := r, flight := s.flight + {q}), blocks) && q !in s.flight
  {
    NoFlight(s, q);
    BlocksKept(s.owner, r, q, q + s.page, Flight(q), blocks);
    FlightKept(s.owner, r, q, q + s.page, Flight(q), s.flight, s.page);
    NotWasted(s.owner, r, q, q + s.page, Flight(q));
    HasKept(s.owner, r, q, q + s.page, Flight(q), s.from, s.to - s.from, Tail);
    MappedOk(s, blocks, q, r);
  }

  lemma NoFlight(s: Space, q: nat)
    requires TailOk(s) && FlightOk(s.owner, s.flight, s.page) && Unused(s.owner, q, s.page)
    ensures q !in s.flight
  {
    assert q in s.flight ==> q in s.owner;
  }

  lemma MappedOk(s: Space, blocks: map<nat, Block>, q: nat, r: map<nat, Owner>)
    requires AllAccounted(s.owner, blocks, s.flight) && q !in s.flight && Painted(s.owner, r, q, q + s.page, Flight(q))
    ensures Has(r, q, s.page, Flight(q)) && AllAccounted(r, blocks, s.flight + {q})
  {
  }

  /** The map without the bytes of a region. */
  ghost function Without(owner: map<nat, Owner>, q: nat): (r: map<nat, Owner>) {
    map b | b in owner && owner[b] != Flight(q) :: owner[b]
  }

  lemma ReturnKeeps(s: Space, blocks: map<nat, Block>, q: nat)
    requires SpaceOk(s, blocks) && q in s.flight
    ensures SpaceOk(s.(owner := Without(s.owner, q), flight := s.flight - {q}), blocks) && Unused(Without(s.owner, q), q, s.page)
  {
    var r := Without(s.owner, q);
    assert Has(s.owner, q, s.page, Flight(q));
    assert Wasted(r) == Wasted(s.owner);
    HasLeft(s.owner, q, s.from, s.to - s.from, Tail);
    forall a | a in blocks ensures Has(r, a, Size(blocks[a].list), InBlock(a)) {
      HasLeft(s.owner, q, a, Size(blocks[a].list), InBlock(a));
    }
    forall p | p in s.flight && p != q ensures Has(r, p, s.page, Flight(p)) {
      HasLeft(s.owner, q, p, s.page, Flight(p));
    }
  }

  lemma HasLeft(owner: map<nat, Owner>, q: nat, a: nat, size: nat, o: Owner)
    requires Has(owner, a, size, o) && o != Flight(q)
    ensures Has(Without(owner, q), a, size, o)
  {
    forall b: nat | a <= b < a + size ensures b in Without(owner, q) {
      assert b in owner;
    }
  }

  class Allocator {
    const page: nat
    const max: nat
    var heads: seq<nat>
    var words: map<nat, nat>
    var nextSpace: nat
    var endOfSpace: nat
    var wasted: nat
    ghost var lists: seq<seq<nat>>
    ghost var blocks: map<nat, Block>
    ghost var flight: set<nat>
    ghost var owner: map<nat, Owner>

    ghost predicate Valid()
      reads this
    {
      0 < max <= page && max <= 16384 && ListsOk(heads, words, lists, blocks) && SpaceOk(AsSpace(), blocks)
    }

    ghost function AsSpace(): Space
      reads this
    {
      Space(nextSpace, endOfSpace, page, flight, owner, wasted)
    }

    /** kalloc_init. */
    constructor (page: nat)
      requires page > 0 && page % 4 == 0
      ensures Valid() && blocks == map[] && owner == map[] && this.page == page
      ensures max == if page > 16384 then 16384 else page
    {
      this.page := page;
      max := if page > 16384 then 16384 else page;
      heads := seq(KLIST_MAX, _ => 0);
      lists := seq(KLIST_MAX, _ => []);
      words, blocks, flight, owner := map[], map[], {}, map[];
      nextSpace, endOfSpace, wasted := page, page, 0;
    }

    /** The list for blocks of a given size, and the size they have: the least that is large enough. */
    method SizeClass(size: nat) returns (fl: nat, allocsize: nat)
      requires Valid() && size < max
      ensures fl < KLIST_MAX && allocsize == Size(fl) && size <= allocsize
      ensures fl > 0 ==> Size(fl - 1) < size
    {
      allocsize, fl := MINSIZE, 0;
      while allocsize < size
        invariant fl < KLIST_MAX && allocsize == Size(fl) && (fl > 0 ==> Size(fl - 1) < size)
        decreases size - allocsize
      {
        Sizes();
        if fl < 12 { SizeMonotone(fl, 12); }
        allocsize := 2 * allocsize;
        fl := fl + 1;
      }
    }

    /** The head of a free list is taken, if there is one. */
    method Pop(fl: nat) returns (addr: nat)
      requires Valid() && fl < KLIST_MAX
      modifies this`heads, this`lists, this`blocks
      ensures Valid()
      ensures addr == 0 <==> old(lists[fl]) == []
      ensures addr == 0 ==> blocks == old(blocks)
      ensures addr != 0 ==> addr in old(blocks) && old(blocks[addr]) == Block(fl, true) && blocks == old(blocks)[addr := Block(fl, false)]
    {
      addr := heads[fl];
      assert Linked(words, heads[fl], lists[fl]) && AllFree(lists[fl], fl, blocks);
      if addr != 0 {
        PopLists(heads, words, lists, blocks, fl);
        heads := heads[fl := words[addr]];
        lists := lists[fl := lists[fl][1..]];
        blocks := blocks[addr := Block(fl, false)];
      }
    }

    /** A block that is in use is put at the head of its free list. */
    method Push(fl: nat, addr: nat)
      requires Valid() && addr in blocks && blocks[addr] == Block(fl, false)
      modifies this`heads, this`words, this`lists, this`blocks
      ensures Valid() && blocks == old(blocks)[addr := Block(fl, true)]
    {
      PushLists(heads, words, lists, blocks, fl, addr);
      words := words[addr := heads[fl]];
      heads := heads[fl := addr];
      lists := lists[fl := [addr] + lists[fl]];
      blocks := blocks[addr := Block(fl, true)];
    }

    // ---- kget_space ----

    /** The end of kget_space: a block from the front of the tail. */
    method Carve(fl: nat, size: nat) returns (addr: nat)
      requires Valid() && fl < KLIST_MAX && size == Size(fl) && nextSpace + size <= endOfSpace
      modifies this`nextSpace, this`blocks, this`owner
      ensures Valid() && addr == old(nextSpace) > 0 && addr !in old(blocks) && blocks == old(blocks)[addr := Block(fl, false)]
    {
      addr := nextSpace;
      ghost var r := Paint(owner, addr, addr + size, InBlock(addr));
      CarveAll(AsSpace(), heads, words, lists, blocks, fl, r);
      nextSpace := addr + size;
      owner := r;
      blocks := blocks[addr := Block(fl, false)];
      assert AsSpace() == Space(addr + Size(fl), endOfSpace, page, flight, r, wasted);
    }

    /** The kernel has mapped a region for a thread that holds no lock. */
    ghost method Map(r: nat)
      requires Valid() && Unused(owner, r, page)
      modifies this`flight, this`owner
      ensures Valid() && flight == old(flight) + {r} && r !in old(flight)
    {
      MapKeeps(AsSpace(), blocks, r, Paint(owner, r, r + page, Flight(r)));
      owner := Paint(owner, r, r + page, Flight(r));
      flight := flight + {r};
    }

    /** A region that is not needed goes back to the kernel. */
    ghost method Unmap(r: nat)
      requires Valid() && r in flight
      modifies this`flight, this`owner
      ensures Valid() && flight == old(flight) - {r}
    {
      ReturnKeeps(AsSpace(), blocks, r);
      owner := Without(owner, r);
      flight := flight - {r};
    }

    /** A mapped region is added to the tail if it follows it, or takes its place. */
    method Install(r: nat)
      requires Valid() && r in flight
      modifies this`nextSpace, this`endOfSpace, this`wasted, this`flight, this`owner
      ensures Valid() && flight == old(flight) - {r} && endOfSpace - nextSpace >= page
      ensures wasted == old(wasted) + (if r == old(endOfSpace) then 0 else old(endOfSpace - nextSpace))
    {
      if r != endOfSpace {
        wasted := wasted + (endOfSpace - nextSpace);
        ThrowAway();
        nextSpace := r;
      }
      Extend(r);
      endOfSpace := r + page;
    }

    /** The rest of the tail, just counted as wasted, is so. */
    ghost method ThrowAway()
      requires 0 < max <= page && max <= 16384 && ListsOk(heads, words, lists, blocks) && nextSpace <= endOfSpace <= nextSpace + wasted
      requires SpaceOk(Space(nextSpace, endOfSpace, page, flight, owner, wasted - (endOfSpace - nextSpace)), blocks)
      modifies this`owner
      ensures SpaceOk(Space(endOfSpace, endOfSpace, page, flight, owner, wasted), blocks)
    {
      ghost var r := Paint(owner, nextSpace, endOfSpace, Waste);
      DiscardKeeps(Space(nextSpace, endOfSpace, page, flight, owner, wasted - (endOfSpace - nextSpace)), blocks, r);
      owner := r;
    }

    ghost method Extend(r: nat)
      requires r in flight && 0 < max <= page && max <= 16384
      requires SpaceOk(Space(if r == endOfSpace then nextSpace else endOfSpace, endOfSpace, page, flight, owner, wasted), blocks)
      modifies this`flight, this`owner
      ensures flight == old(flight) - {r}
      ensures SpaceOk(Space(if r == endOfSpace then nextSpace else r, r + page, page, flight, owner, wasted), blocks)
    {
      ghost var o := Paint(owner, r, r + page, Tail);
      InstallKeeps(Space(if r == endOfSpace then nextSpace else endOfSpace, endOfSpace, page, flight, owner, wasted), blocks, r, o);
      owner := o;
      flight := flight - {r};
    }

    /** kget_space from where it has its lock again, with the region mapped meanwhile: by now the tail may
        be long enough, and then the region goes back. */
    method CarveWith(fl: nat, size: nat, r: nat) returns (addr: nat)
      requires Valid() && fl < KLIST_MAX && size == Size(fl) <= page && r in flight
      modifies this`nextSpace, this`endOfSpace, this`wasted, this`blocks, this`flight, this`owner
      ensures Valid() && addr != 0 && addr !in old(blocks) && blocks == old(blocks)[addr := Block(fl, false)]
      ensures flight == old(flight) - {r}
    {
      if nextSpace + size > endOfSpace {
        Install(r);
      } else {
        Unmap(r);
      }
      addr := Carve(fl, size);
    }

    /** kget_space: up to where it drops its lock the tail is not touched, unless it is long enough.
        `answer` is what vm_map returns, 0 if it fails. */
    method GetSpace(fl: nat, size: nat, answer: nat) returns (addr: nat)
      requires Valid() && fl < KLIST_MAX && size == Size(fl) <= page && (answer != 0 ==> Unused(owner, answer, page))
      modifies this`nextSpace, this`endOfSpace, this`wasted, this`blocks, this`flight, this`owner
      ensures Valid() && flight == old(flight)
      ensures addr == 0 <==> answer == 0 && old(nextSpace) + size > old(endOfSpace)
      ensures if addr == 0 then blocks == old(blocks) else addr !in old(blocks) && blocks == old(blocks)[addr := Block(fl, false)]
    {
      if nextSpace + size <= endOfSpace {
        addr := Carve(fl, size);
      } else if answer == 0 {
        addr := 0;
      } else {
        Map(answer);
        addr := CarveWith(fl, size, answer);
      }
    }

    // ---- kalloc and kfree ----

    /** A block of list `fl`: off the list, from the tail, or from space the kernel maps. */
    method AllocSmall(fl: nat, allocsize: nat, answer: nat) returns (addr: nat)
      requires Valid() && fl < KLIST_MAX && allocsize == Size(fl) < max && (answer != 0 ==> Unused(owner, answer, page))
      modifies this`heads, this`lists, this`nextSpace, this`endOfSpace, this`wasted, this`blocks, this`flight, this`owner
      ensures Valid() && flight == old(flight)
      ensures addr != 0 ==> (addr in old(blocks) ==> old(blocks[addr]) == Block(fl, true)) && blocks == old(blocks)[addr := Block(fl, false)]
      ensures addr == 0 ==> blocks == old(blocks) && answer == 0
    {
      addr := Pop(fl);
      if addr == 0 {
        addr := GetSpace(fl, allocsize, answer);
      }
    }

    /** kalloc of a size below the limit. `answer` is what vm_map or vm_allocate would return, 0 if it
        would fail; a size that rounds up to the limit is left to the kernel. */
    method Alloc(size: nat, answer: nat) returns (addr: nat, fl: nat)
      requires Valid() && size < max && (answer != 0 ==> Unused(owner, answer, page))
      modifies this`heads, this`lists, this`nextSpace, this`endOfSpace, this`wasted, this`blocks, this`flight, this`owner
      ensures Valid() && fl < KLIST_MAX && size <= Size(fl) && (fl > 0 ==> Size(fl - 1) < size) && flight == old(flight)
      ensures addr != 0 && Size(fl) < max ==>
        (addr in old(blocks) ==> old(blocks[addr]) == Block(fl, true)) && blocks == old(blocks)[addr := Block(fl, false)]
      ensures addr == 0 || Size(fl) >= max ==> blocks == old(blocks)
      ensures addr == 0 ==> answer == 0
    {
      var allocsize;
      fl, allocsize := SizeClass(size);
      if allocsize < max {
        addr := AllocSmall(fl, allocsize, answer);
      } else {
        addr := answer;
      }
    }

    /** kfree of a block of the given size. */
    method Free(addr: nat, size: nat)
      requires Valid() && size < max && addr in blocks && !blocks[addr].free
      requires size <= Size(blocks[addr].list) < max && (blocks[addr].list > 0 ==> Size(blocks[addr].list - 1) < size)
      modifies this`heads, this`words, this`lists, this`blocks
      ensures Valid() && blocks == old(blocks)[addr := Block(old(blocks[addr].list), true)]
    {
      var fl, freesize := SizeClass(size);
      SameClass(fl, blocks[addr].list, size);
      if freesize < max {
        Push(fl, addr);
      }
    }

    // ---- What holds between any two stretches ----

    /** No two blocks that have been handed out or freed overlap, and each has an address that is a
        multiple of 4. */
    lemma BlocksApart(a: nat, b: nat)
      requires Valid() && a in blocks && b in blocks && a != b
      ensures a % 4 == 0 && (a + Size(blocks[a].list) <= b || b + Size(blocks[b].list) <= a)
    {
      assert Has(owner, a, Size(blocks[a].list), InBlock(a)) && Has(owner, b, Size(blocks[b].list), InBlock(b));
      assert a in owner && b in owner && owner[a] == InBlock(a) && owner[b] == InBlock(b);
    }

    /** The blocks, the tail, the regions on their way and the waste have every byte between them, and
        each byte is in one of them only. */
    lemma Partition(b: nat)
      requires Valid() && b in owner
      ensures match owner[b]
              case InBlock(a) => a in blocks && a <= b < a + Size(blocks[a].list)
              case Tail => nextSpace <= b < endOfSpace
              case Flight(r) => r in flight && r <= b < r + page
              case Waste => b in Wasted(owner) && wasted == |Wasted(owner)|
    {
      assert Accounted(owner[b], blocks, flight);
      if owner[b].InBlock? {
        assert Has(owner, owner[b].start, Size(blocks[owner[b].start].list), owner[b]);
      }
      if owner[b].Flight? {
        assert Has(owner, owner[b].region, page, owner[b]);
      }
    }
  }

  lemma CarveLists(heads: seq<nat>, words: map<nat, nat>, lists: seq<seq<nat>>, blocks: map<nat, Block>, a: nat, fl: nat)
    requires ListsOk(heads, words, lists, blocks) && a !in blocks
    ensures ListsOk(heads, words, lists, blocks[a := Block(fl, false)])
  {
    forall k | 0 <= k < KLIST_MAX ensures AllFree(lists[k], k, blocks[a := Block(fl, false)]) {
      assert AllFree(lists[k], k, blocks);
    }
  }

  lemma CarveAll(s: Space, heads: seq<nat>, words: map<nat, nat>, lists: seq<seq<nat>>, blocks: map<nat, Block>, fl: nat, r: map<nat, Owner>)
    requires ListsOk(heads, words, lists, blocks) && SpaceOk(s, blocks) && fl < KLIST_MAX && s.from + Size(fl) <= s.to
    requires Painted(s.owner, r, s.from, s.from + Size(fl), InBlock(s.from))
    ensures s.from !in blocks && ListsOk(heads, words, lists, blocks[s.from := Block(fl, false)])
    ensures SpaceOk(Space(s.from + Size(fl), s.to, s.page, s.flight, r, s.wasted), blocks[s.from := Block(fl, false)])
  {
    CarveKeeps(s, blocks, fl, r);
    CarveLists(heads, words, lists, blocks, s.from, fl);
  }

  /** A size belongs to one list only. */
  lemma SameClass(j: nat, k: nat, size: nat)
    requires size <= Size(j) && (j > 0 ==> Size(j - 1) < size)
    requires size <= Size(k) && (k > 0 ==> Size(k - 1) < size)
    ensures j == k
  {
    if j < k {
      if j < k - 1 { SizeMonotone(j, k - 1); }
    } else if k < j {
      if k < j - 1 { SizeMonotone(k, j - 1); }
    }
  }

  // ---- Ports named after memory objects ----

  /** vs_to_port, port_to_vs and port_is_vs (default_pager_internal.h:574-576), on addresses below 2^32. */
  function VsToPort(vs: bv32): bv32 { vs + 1 }
  function PortToVs(port: bv32): bv32 { port & !3 }
  predicate PortIsVs(port: bv32) { port & 3 == 1 }

  /** A multiple of 4 comes back from its port name, and only the names of such addresses pass the test. */
  lemma PortRoundTrip(vs: bv32, port: bv32)
    ensures vs & 3 == 0 <==> PortIsVs(VsToPort(vs)) && PortToVs(VsToPort(vs)) == vs
    ensures PortIsVs(port) ==> PortToVs(port) & 3 == 0 && VsToPort(PortToVs(port)) == port
  {
  }
}
