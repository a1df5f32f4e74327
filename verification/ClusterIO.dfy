/** The transfer loops of the pager, vs_cluster_read and vs_cluster_write (dp_backing_store.c:2050-2347),
    with the completion of asynchronous writes (1677-1785). What ps_clmap and the device answer in each
    round is arbitrary. Any number of threads write one object, and the steps of their loops and the
    replies of the device interleave freely. Offsets and sizes are in pages. */
module ClusterIO {
  import opened Division
  import opened Slots
  import Pager

  // ---- Reading ----

  /** The messages vs_cluster_read sends: memory_object_data_supply, memory_object_data_unavailable, and
      memory_object_data_error for an earlier write error or for a device read that moved no data. */
  datatype Kind = Supplied | Unavailable | WriteError | ReadError
  datatype Message = Message(kind: Kind, page: nat, len: nat)

  /** The messages cover the pages page .. page+cnt-1 in order, each of them once, and none is empty. */
  ghost predicate Tiles(ms: seq<Message>, page: nat, cnt: nat) {
    if ms == [] then cnt == 0
    else ms[0].page == page && 0 < ms[0].len <= cnt && Tiles(ms[1..], page + ms[0].len, cnt - ms[0].len)
  }

  lemma {:induction false} TilesAppend(ms: seq<Message>, page: nat, cnt: nat, m: Message)
    requires Tiles(ms, page, cnt) && m.page == page + cnt && m.len > 0
    ensures Tiles(ms + [m], page, cnt + m.len)
  {
    if ms == [] {
      assert (ms + [m])[1..] == [];
    } else {
      TilesAppend(ms[1..], page + ms[0].len, cnt - ms[0].len, m);
      assert (ms + [m])[1..] == ms[1..] + [m];
    }
  }

  /** Every page of the range is in exactly one message. */
  lemma {:induction false} TilesCoverOnce(ms: seq<Message>, page: nat, cnt: nat, p: nat) returns (i: nat)
    requires Tiles(ms, page, cnt) && page <= p < page + cnt
    ensures i < |ms| && ms[i].page <= p < ms[i].page + ms[i].len
    ensures forall j: nat :: j < |ms| && ms[j].page <= p < ms[j].page + ms[j].len ==> j == i
  {
    if p < page + ms[0].len {
      i := 0;
      TilesBounds(ms[1..], page + ms[0].len, cnt - ms[0].len);
      assert forall j: nat :: 0 < j < |ms| ==> ms[j] == ms[1..][j - 1];
    } else {
      i := TilesCoverOnce(ms[1..], page + ms[0].len, cnt - ms[0].len, p);
      i := i + 1;
      forall j: nat | j < |ms| && ms[j].page <= p < ms[j].page + ms[j].len ensures j == i {
        assert j > 0 ==> ms[j] == ms[1..][j - 1];
      }
    }
  }

  lemma {:induction false} TilesBounds(ms: seq<Message>, page: nat, cnt: nat)
    requires Tiles(ms, page, cnt)
    ensures forall j: nat :: j < |ms| ==> page <= ms[j].page && ms[j].page + ms[j].len <= page + cnt
  {
    if ms != [] {
      TilesBounds(ms[1..], page + ms[0].len, cnt - ms[0].len);
      forall j: nat | j < |ms| ensures page <= ms[j].page && ms[j].page + ms[j].len <= page + cnt {
        assert j > 0 ==> ms[j] == ms[1..][j - 1];
      }
    }
  }

  /** What ps_clmap tells about a page: the rest of its cluster, or a failure. */
  ghost predicate ClmapShape(cs: nat, page: nat, r: Reply)
    requires cs > 0
  {
    !r.Completed? && (r.Found? ==> r.numpages == cs - page % cs)
  }

  /** Every lookup in every table has that shape. */
  lemma LookupShape(s: Table, cs: nat, page: nat)
    requires cs > 0 && |s| > 0
    ensures ClmapShape(cs, page, Clmap(s, cs, page, Find, 0, 0, Memory(false, false, false), None).reply)
  {
  }

  /** What a message says is what ps_clmap said about its pages. */
  ghost predicate Justified(m: Message, r: Reply, cs: nat)
    requires cs > 0
  {
    && m.page % cs + m.len <= cs
    && match m.kind
       case Supplied => r.Found? && forall i: nat :: i < m.len ==> i in r.bmap
       case ReadError => r.Found? && forall i: nat :: i < m.len ==> i in r.bmap
       case Unavailable => r == Failed(0) || (r.Found? && forall i: nat :: i < m.len ==> i !in r.bmap)
       case WriteError => r.Failed? && r.error != 0
  }

  /** The loop counting contiguous available or unavailable pages: `size` and `unavail` of vs_cluster_read. */
  method CountPages(bmap: set<nat>, cnt: nat, numpages: nat) returns (size: nat, unavail: nat)
    requires cnt > 0 && numpages > 0
    ensures size == 0 || unavail == 0
    ensures size + unavail == Pager.Run(bmap, 0 in bmap, 0, Min(cnt, numpages)) > 0
    ensures size > 0 <==> 0 in bmap
  {
    size, unavail := 0, 0;
    var i := 0;
    while size < cnt && unavail < cnt && i < numpages
      invariant i == size + unavail <= Min(cnt, numpages) && (size == 0 || unavail == 0)
      invariant i > 0 ==> (size > 0 <==> 0 in bmap)
      invariant Pager.Run(bmap, 0 in bmap, 0, Min(cnt, numpages)) == i + Pager.Run(bmap, 0 in bmap, i, Min(cnt, numpages))
    {
      if i in bmap {
        if unavail != 0 {
          break;
        }
        size := size + 1;
      } else {
        if size != 0 {
          break;
        }
        unavail := unavail + 1;
      }
      i := i + 1;
    }
  }

  /** One round of vs_cluster_read. */
  method ReadOnce(cs: nat, offset: nat, left: nat, r: Reply, moved: bool) returns (m: Message)
    requires cs > 0 && left > 0 && ClmapShape(cs, offset, r)
    ensures m.page == offset && 0 < m.len <= left && Justified(m, r, cs)
    ensures m.kind == ReadError ==> !moved
    ensures m.kind == Supplied ==> moved
  {
    if !r.Found? {
      return Message(if r.error != 0 then WriteError else Unavailable, offset, Min(cs - offset % cs, left));
    }
    var size, unavail := CountPages(r.bmap, left, r.numpages);
    if size == 0 {
      m := Message(Unavailable, offset, unavail);
    } else {
      m := Message(if moved then Supplied else ReadError, offset, size);
    }
  }

  /** The n-th message is justified by what ps_clmap and the device answered in the n-th round. */
  ghost predicate Answers(m: Message, n: nat, cs: nat, clmap: (nat, nat) -> Reply, moved: nat -> bool)
    requires cs > 0
  {
    && Justified(m, clmap(n, m.page), cs)
    && (m.kind == ReadError ==> !moved(n)) && (m.kind == Supplied ==> moved(n))
  }

  ghost predicate AllAnswer(ms: seq<Message>, cs: nat, clmap: (nat, nat) -> Reply, moved: nat -> bool)
    requires cs > 0
  {
    forall n: nat :: n < |ms| ==> Answers(ms[n], n, cs, clmap, moved)
  }

  /** vs_cluster_read. `clmap(n, p)` is what ps_clmap answers in round `n` about page `p`, and `moved(n)`
      tells whether the device read of that round moved the data. The messages tile the range; only a
      device read that moves nothing makes the loop abandon the rest of it. */
  method ClusterRead(cs: nat, page: nat, cnt: nat, clmap: (nat, nat) -> Reply, moved: nat -> bool) returns (ms: seq<Message>, ghost done: nat)
    requires cs > 0 && forall n: nat, p: nat :: ClmapShape(cs, p, clmap(n, p))
    ensures done <= cnt && Tiles(ms, page, done) && AllAnswer(ms, cs, clmap, moved)
    ensures forall n: nat :: n < |ms| && ms[n].kind == ReadError ==> n == |ms| - 1
    ensures done < cnt ==> ms != [] && ms[|ms| - 1].kind == ReadError
    ensures (forall n: nat :: moved(n)) ==> done == cnt
  {
    ms := [];
    done := 0;
    var offset: nat, left: nat := page, cnt;
    var error := false;
    while left > 0 && !error
      invariant done + left == cnt && offset == page + done && Tiles(ms, page, done)
      invariant error <==> ms != [] && ms[|ms| - 1].kind == ReadError
      invariant AllAnswer(ms, cs, clmap, moved)
      invariant forall n: nat :: n < |ms| && ms[n].kind == ReadError ==> n == |ms| - 1
      decreases left
    {
      assert ClmapShape(cs, offset, clmap(|ms|, offset));
      var m := ReadOnce(cs, offset, left, clmap(|ms|, offset), moved(|ms|));
      error := m.kind == ReadError;
      TilesAppend(ms, page, done, m);
      assert Answers(m, |ms|, cs, clmap, moved);
      ms := ms + [m];
      left, offset := left - m.len, offset + m.len;
      done := done + m.len;
    }
    assert error ==> Answers(ms[|ms| - 1], |ms| - 1, cs, clmap, moved);
  }

  // ---- Writing ----

  /** A piece of a write: pages page .. page+len-1. */
  datatype Piece = Piece(page: nat, len: nat)

  function Hit(q: Piece, p: nat): nat {
    if q.page <= p < q.page + q.len then 1 else 0
  }

  /** In how many of the pieces page `p` is. */
  function Count(ps: seq<Piece>, p: nat): nat {
    if ps == [] then 0 else Count(ps[..|ps| - 1], p) + Hit(ps[|ps| - 1], p)
  }

  /** The number of pages in a list of pieces. */
  function Total(ps: seq<Piece>): nat {
    if ps == [] then 0 else Total(ps[..|ps| - 1]) + ps[|ps| - 1].len
  }

  lemma Append(ps: seq<Piece>, q: Piece)
    ensures Total(ps + [q]) == Total(ps) + q.len
    ensures forall p: nat :: Count(ps + [q], p) == Count(ps, p) + Hit(q, p)
  {
    assert (ps + [q])[..|ps|] == ps;
  }

  function Without(ps: seq<Piece>, i: nat): seq<Piece>
    requires i < |ps|
  {
    ps[..i] + ps[i + 1..]
  }

  lemma {:induction false} Removal(ps: seq<Piece>, i: nat)
    requires i < |ps|
    ensures Total(ps) == Total(Without(ps, i)) + ps[i].len
    ensures forall p: nat :: Count(ps, p) == Count(Without(ps, i), p) + Hit(ps[i], p)
  {
    var n := |ps| - 1;
    if i == n {
      assert Without(ps, i) == ps[..n];
    } else {
      Removal(ps[..n], i);
      assert Without(ps, i) == Without(ps[..n], i) + [ps[n]];
      Append(Without(ps[..n], i), ps[n]);
    }
  }

  lemma {:induction false} Replaced(ps: seq<Piece>, i: nat, q: Piece)
    requires i < |ps|
    ensures Total(ps[i := q]) + ps[i].len == Total(ps) + q.len
    ensures forall p: nat :: Count(ps[i := q], p) + Hit(ps[i], p) == Count(ps, p) + Hit(q, p)
  {
    var n := |ps| - 1;
    assert ps[i := q][..n] == if i < n then ps[..n][i := q] else ps[..n];
    if i < n {
      Replaced(ps[..n], i, q);
    }
  }

  lemma {:induction false} NothingIn(ps: seq<Piece>)
    requires forall i :: 0 <= i < |ps| ==> ps[i].len == 0
    ensures Total(ps) == 0 && forall p: nat :: Count(ps, p) == 0
  {
    if ps != [] {
      NothingIn(ps[..|ps| - 1]);
    }
  }

  /** The pages of a new write are given, and left to its thread. */
  lemma Begun(given: seq<Piece>, loops: seq<Piece>, t: nat, q: Piece)
    requires t < |loops| && loops[t].len == 0
    ensures forall p: nat :: Count(given + [q], p) - Count(given, p) == Count(loops[t := q], p) - Count(loops, p)
  {
    Append(given, q);
    Replaced(loops, t, q);
    forall p: nat ensures Count(given + [q], p) - Count(given, p) == Count(loops[t := q], p) - Count(loops, p) {
      assert Hit(loops[t], p) == 0;
    }
  }

  /** How a round of vs_cluster_write goes: the map may fail; a vs_async may or may not be had; and
      the device may refuse the request, or the synchronous write may fail. */
  datatype Round = NoMap | Mapped(async: bool, accepted: bool)

  /** The steps of the threads that write an object, and of the one that has the replies. */
  datatype Step =
    | Begin(t: nat, page: nat, cnt: nat)  // vs_cluster_write is called
    | CountIn(t: nat, size: nat)          // vs_async_pending is raised for the next pages
    | Accept(t: nat)                      // the device takes the request
    | Refuse(t: nat)                      // or does not, and it is completed at once
    | Wait(t: nat, size: nat)             // the next pages are written synchronously, well or not
    | Rest(t: nat)                        // the pages left over are completed
    | Reply(i: nat)                       // device_write_reply for the i-th outstanding request

  const NONE: Piece := Piece(0, 0)

  function From(q: Piece, size: nat): Piece
    requires size <= q.len
  {
    Piece(q.page + size, q.len - size)
  }

  /** Each page was completed, or is with a thread or the device, as many times as it was handed in. */
  ghost predicate Balanced(given: seq<Piece>, completed: seq<Piece>, outstanding: seq<Piece>, sending: seq<Piece>, loops: seq<Piece>) {
    forall p: nat :: Count(given, p) == Count(completed, p) + Count(outstanding, p) + Count(sending, p) + Count(loops, p)
  }

  /** The writes of one object: vs_async_pending, and the device requests that have no reply yet. */
  class Writer {
    var pending: int
    var outstanding: seq<Piece>
    /** For each thread the pages its loop has left, and those it has counted but not yet sent. */
    var loops: seq<Piece>
    var sending: seq<Piece>
    /** Every call of vs_cl_write_complete, in order. */
    var completed: seq<Piece>
    /** Every range ever handed to vs_cluster_write. */
    ghost var given: seq<Piece>

    /** No page is lost or completed twice, and vs_async_pending is the number of pages issued and not yet
        completed. */
    ghost predicate Valid()
      reads this
    {
      && |sending| == |loops|
      && Balanced(given, completed, outstanding, sending, loops)
      && pending == Total(outstanding) + Total(sending)
    }

    /** Thread `t` is not writing. */
    predicate Idle(t: nat)
      requires t < |loops| == |sending|
      reads this
    {
      loops[t].len == 0 && sending[t].len == 0
    }

    constructor (threads: nat)
      ensures Valid() && given == [] && pending == 0 && outstanding == [] && completed == []
      ensures |loops| == threads && forall t: nat :: t < threads ==> Idle(t)
    {
      pending := 0;
      outstanding := [];
      loops, sending := seq(threads, _ => NONE), seq(threads, _ => NONE);
      completed := [];
      given := [];
      new;
      NothingIn(loops);
    }

    /** What a step needs to be taken. */
    predicate Legal(s: Step)
      reads this
    {
      && |sending| == |loops|
      && match s
         case Begin(t, _, _) => t < |loops| && Idle(t)
         case CountIn(t, size) => t < |loops| && sending[t].len == 0 && 0 < size <= loops[t].len
         case Accept(t) => t < |loops| && sending[t].len > 0
         case Refuse(t) => t < |loops| && sending[t].len > 0
         case Wait(t, size) => t < |loops| && sending[t].len == 0 && 0 < size <= loops[t].len
         case Rest(t) => t < |loops| && sending[t].len == 0 && loops[t].len > 0
         case Reply(i) => i < |outstanding|
    }

    method DoBegin(t: nat, page: nat, cnt: nat)
      requires Valid() && Legal(Begin(t, page, cnt))
      modifies this`loops, this`given
      ensures Valid() && given == old(given) + [Piece(page, cnt)] && loops == old(loops)[t := Piece(page, cnt)]
    {
      Begun(given, loops, t, Piece(page, cnt));
      given := given + [Piece(page, cnt)];
      loops := loops[t := Piece(page, cnt)];
    }

    method DoCountIn(t: nat, size: nat)
      requires Valid() && Legal(CountIn(t, size))
      modifies this`pending, this`loops, this`sending
      ensures Valid() && pending == old(pending) + size
      ensures loops == old(loops)[t := From(old(loops[t]), size)] && sending == old(sending)[t := Piece(old(loops[t]).page, size)]
    {
      var q := Piece(loops[t].page, size);
      Replaced(loops, t, From(loops[t], size));
      Replaced(sending, t, q);
      SplitHits(loops[t], size);
      pending := pending + size;
      sending := sending[t := q];
      loops := loops[t := From(loops[t], size)];
    }

    method DoAccept(t: nat)
      requires Valid() && Legal(Accept(t))
      modifies this`outstanding, this`sending
      ensures Valid() && outstanding == old(outstanding) + [old(sending[t])] && sending == old(sending)[t := NONE]
    {
      Append(outstanding, sending[t]);
      Replaced(sending, t, NONE);
      outstanding := outstanding + [sending[t]];
      sending := sending[t := NONE];
    }

    /** vs_cl_write_complete for a request that the device refuses. */
    method DoRefuse(t: nat)
      requires Valid() && Legal(Refuse(t))
      modifies this`pending, this`sending, this`completed
      ensures Valid() && completed == old(completed) + [old(sending[t])] && sending == old(sending)[t := NONE]
      ensures pending == old(pending) - old(sending[t]).len
    {
      Append(completed, sending[t]);
      Replaced(sending, t, NONE);
      completed := completed + [sending[t]];
      pending := pending - sending[t].len;
      sending := sending[t := NONE];
    }

    /** vs_cl_write_complete for pages that were not counted: the synchronous case. */
    method DoWait(t: nat, size: nat)
      requires Valid() && Legal(Wait(t, size))
      modifies this`loops, this`completed
      ensures Valid() && completed == old(completed) + [Piece(old(loops[t]).page, size)]
      ensures loops == old(loops)[t := From(old(loops[t]), size)]
    {
      var q := Piece(loops[t].page, size);
      FirstDone(given, completed, outstanding, sending, loops, t, size);
      completed := completed + [q];
      loops := loops[t := From(loops[t], size)];
    }

    /** vs_cl_write_complete for all pages that never reach the device. */
    method DoRest(t: nat)
      requires Valid() && Legal(Rest(t))
      modifies this`loops, this`completed
      ensures Valid() && completed == old(completed) + [old(loops[t])] && loops == old(loops)[t := NONE]
    {
      Append(completed, loops[t]);
      Replaced(loops, t, NONE);
      completed := completed + [loops[t]];
      loops := loops[t := NONE];
    }

    /** device_write_reply for the i-th outstanding request; replies come in any order, at any time. */
    method WriteReply(i: nat)
      requires Valid() && Legal(Reply(i))
      modifies this`pending, this`outstanding, this`completed
      ensures Valid() && outstanding == Without(old(outstanding), i) && completed == old(completed) + [old(outstanding)[i]]
      ensures pending == old(pending) - old(outstanding)[i].len >= 0
    {
      Removal(outstanding, i);
      Append(completed, outstanding[i]);
      completed := completed + [outstanding[i]];
      pending := pending - outstanding[i].len;
      outstanding := Without(outstanding, i);
    }

    /** One step of another thread than `me`, if it can be taken. */
    method Perform(me: nat, s: Step)
      requires Valid() && me < |loops|
      modifies this
      ensures Valid() && |loops| == old(|loops|) && loops[me] == old(loops[me]) && sending[me] == old(sending[me])
      ensures old(given) <= given && old(completed) <= completed
    {
      if !Legal(s) || (!s.Reply? && s.t == me) {
        return;
      }
      match s
      case Begin(t, page, cnt) => DoBegin(t, page, cnt);
      case CountIn(t, size) => DoCountIn(t, size);
      case Accept(t) => DoAccept(t);
      case Refuse(t) => DoRefuse(t);
      case Wait(t, size) => DoWait(t, size);
      case Rest(t) => DoRest(t);
      case Reply(i) => WriteReply(i);
    }

    /** Whatever the other threads do, in whatever order. */
    method Others(me: nat, steps: seq<Step>)
      requires Valid() && me < |loops|
      modifies this
      ensures Valid() && |loops| == old(|loops|) && loops[me] == old(loops[me]) && sending[me] == old(sending[me])
      ensures old(given) <= given && old(completed) <= completed
    {
      for n := 0 to |steps|
        invariant Valid() && |loops| == old(|loops|) && loops[me] == old(loops[me]) && sending[me] == old(sending[me])
        invariant old(given) <= given && old(completed) <= completed
      {
        Perform(me, steps[n]);
      }
    }

    /** vs_cluster_write by thread `me` for `cnt` pages from `page` on. Round `n` goes as `env(n)` says, and
        between its steps the other threads take those of `others`. Every page is in the end completed once
        or under one outstanding request. */
    method ClusterWrite(me: nat, cs: nat, page: nat, cnt: nat, env: nat -> Round, others: nat -> seq<Step>)
      requires Valid() && cs > 0 && me < |loops| && Idle(me)
      modifies this
      ensures Valid() && |loops| == old(|loops|) && Idle(me)
      ensures old(given) + [Piece(page, cnt)] <= given && old(completed) <= completed
    {
      DoBegin(me, page, cnt);
      var n := 0;
      var error := false;
      while loops[me].len > 0 && !error
        invariant Valid() && |loops| == old(|loops|) && sending[me].len == 0
        invariant old(given) + [Piece(page, cnt)] <= given && old(completed) <= completed
        decreases loops[me].len
      {
        if env(n).NoMap? {
          break;
        }
        var size := Pager.Chunk(cs, loops[me].page, loops[me].len);
        Transfer(me, size, env(n).async, env(n).accepted, others(2 * n));
        Others(me, others(2 * n + 1));
        error := !env(n).accepted;
        n := n + 1;
      }
      if loops[me].len > 0 {
        DoRest(me);
      }
    }

    /** The next pages of thread `me`: counted and sent, or written at once. */
    method Transfer(me: nat, size: nat, async: bool, accepted: bool, others: seq<Step>)
      requires Valid() && me < |loops| && sending[me].len == 0 && 0 < size <= loops[me].len
      modifies this
      ensures Valid() && |loops| == old(|loops|) && sending[me].len == 0 && loops[me] == From(old(loops[me]), size)
      ensures old(given) <= given && old(completed) <= completed
    {
      if async {
        DoCountIn(me, size);
        Others(me, others);
        if accepted {
          DoAccept(me);
        } else {
          DoRefuse(me);
        }
      } else {
        DoWait(me, size);
      }
    }
  }

  /** The first pages a loop has left are completed. */
  lemma FirstDone(given: seq<Piece>, completed: seq<Piece>, outstanding: seq<Piece>, sending: seq<Piece>, loops: seq<Piece>, t: nat, size: nat)
    requires Balanced(given, completed, outstanding, sending, loops) && t < |loops| && size <= loops[t].len
    ensures Balanced(given, completed + [Piece(loops[t].page, size)], outstanding, sending, loops[t := From(loops[t], size)])
  {
    Append(completed, Piece(loops[t].page, size));
    Replaced(loops, t, From(loops[t], size));
    SplitHits(loops[t], size);
  }

  lemma SplitHits(q: Piece, size: nat)
    requires size <= q.len
    ensures forall p: nat :: Hit(q, p) == Hit(Piece(q.page, size), p) + Hit(From(q, size), p)
  {
  }

  /** Once every thread has come to the end of its writes and every request has been answered, each page
      has been completed exactly as many times as it was handed in, and none is pending. */
  lemma AllAnswered(w: Writer)
    requires w.Valid() && w.outstanding == [] && forall t: nat :: t < |w.loops| ==> w.Idle(t)
    ensures w.pending == 0
    ensures forall p: nat :: Count(w.completed, p) == Count(w.given, p)
  {
    forall t: nat | t < |w.loops| ensures w.loops[t].len == 0 && w.sending[t].len == 0 {
      assert w.Idle(t);
    }
    NothingIn(w.loops);
    NothingIn(w.sending);
  }
}
