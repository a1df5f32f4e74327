/** All memory objects together: clusters_committed is the sum of their sizes after every operation. */
module Committed {
  import opened Slots
  import opened VsMaps

  function SumOf(sizes: seq<nat>): nat {
    if sizes == [] then 0 else SumOf(sizes[..|sizes| - 1]) + sizes[|sizes| - 1]
  }

  lemma {:induction false} SumChanged(sizes: seq<nat>, i: nat, n: nat)
    requires i < |sizes|
    ensures SumOf(sizes[i := n]) + sizes[i] == SumOf(sizes) + n
  {
    var m := |sizes| - 1;
    assert sizes[i := n][..m] == if i < m then sizes[..m][i := n] else sizes[..m];
    if i < m {
      SumChanged(sizes[..m], i, n);
    }
  }

  lemma {:induction false} SumWithout(sizes: seq<nat>, i: nat)
    requires i < |sizes|
    ensures SumOf(sizes[..i] + sizes[i + 1..]) + sizes[i] == SumOf(sizes)
  {
    var m := |sizes| - 1;
    if i == m {
      assert sizes[..i] + sizes[i + 1..] == sizes[..m];
    } else {
      SumWithout(sizes[..m], i);
      assert (sizes[..i] + sizes[i + 1..])[..m - 1] == sizes[..m][..i] + sizes[..m][i + 1..];
    }
  }

  lemma SumMore(sizes: seq<nat>, n: nat)
    ensures SumOf(sizes + [n]) == SumOf(sizes) + n
  {
    assert (sizes + [n])[..|sizes|] == sizes;
  }

  class Objects {
    const totals: Totals
    var live: seq<VsMap>

    ghost function Sizes(): (s: seq<nat>)
      reads this, live
    {
      seq(|live|, i requires 0 <= i < |live| reads this, live => live[i].size)
    }

    /** Each object has its map to itself. */
    ghost predicate Apart()
      reads this, live
    {
      && (forall i :: 0 <= i < |live| ==> live[i].totals == totals && (this as object) !in live[i].Repr)
      && (forall i, j :: 0 <= i < j < |live| ==> live[i].Repr !! live[j].Repr)
    }

    ghost predicate Valid()
      reads this, totals, live, set v, o | v in live && o in v.Repr :: o
    {
      Apart() && (forall i :: 0 <= i < |live| ==> live[i].Valid()) && totals.committed == SumOf(Sizes())
    }

    constructor ()
      ensures Valid() && live == [] && totals.committed == 0
    {
      totals := new Totals();
      live := [];
    }

    /** ps_vstruct_create. */
    method Create(size: nat, cs: nat)
      requires Valid() && size > 0 && cs > 0
      modifies this, totals
      ensures Valid() && |live| == |old(live)| + 1 && live[..|old(live)|] == old(live)
      ensures Sizes() == old(Sizes()) + [size]
    {
      SumMore(Sizes(), size);
      var v := new VsMap(size, cs, totals);
      live := live + [v];
      assert Sizes() == old(Sizes()) + [size];
    }

    /** ps_clmap on one of the objects, which may grow. */
    method MapCluster(i: nat, page: nat, flag: Flag, size0: nat, error: nat, mem: Memory, space: Option<Loc>)
      returns (reply: Reply, asked: bool, freed: Option<Loc>)
      requires Valid() && i < |live|
      modifies live[i].Repr, totals
      ensures Valid() && live == old(live)
      ensures Sizes() == old(Sizes())[i := live[i].size]
      ensures Outcome(live[i].table, reply, asked, freed) == Clmap(old(live[i].table), live[i].cs, page, flag, size0, error, mem, space)
    {
      var v := live[i];
      reply, asked, freed := v.MapCluster(page, flag, size0, error, mem, space);
      SumChanged(old(Sizes()), i, v.size);
      forall j | 0 <= j < |live| && j != i ensures live[j].Valid() && live[j].size == old(live[j].size) && live[j].Repr == old(live[j].Repr) {
        assert live[j] in live[j].Repr;
      }
      assert Sizes() == old(Sizes())[i := v.size];
    }

    /** ps_clunmap. */
    method UnmapClusters(i: nat, page: nat, len: nat) returns (freed: seq<Loc>)
      requires Valid() && i < |live| && (len > 0 ==> (page + len - 1) / live[i].cs < live[i].size)
      modifies live[i].Repr
      ensures Valid() && live == old(live) && Sizes() == old(Sizes())
      ensures Unmapped(live[i].table, freed) == Clunmap(old(live[i].table), live[i].cs, page, len)
    {
      freed := live[i].UnmapClusters(page, len);
      forall j | 0 <= j < |live| && j != i ensures live[j].Valid() && live[j].size == old(live[j].size) && live[j].Repr == old(live[j].Repr) {
        assert live[j] in live[j].Repr;
      }
      assert Sizes() == old(Sizes());
    }

    /** ps_vstruct_dealloc. */
    method Destroy(i: nat) returns (freed: seq<Loc>)
      requires Valid() && i < |live|
      modifies this, totals
      ensures Valid() && live == old(live)[..i] + old(live)[i + 1..] && freed == MappedLocs(old(live[i].table))
      ensures Sizes() == old(Sizes())[..i] + old(Sizes())[i + 1..]
    {
      ghost var sizes := Sizes();
      SumWithout(sizes, i);
      freed := Uncommit(i);
      Forget(i);
      assert Sizes() == sizes[..i] + sizes[i + 1..];
    }

    /** Its clusters are given back and its size is no longer committed. */
    method Uncommit(i: nat) returns (freed: seq<Loc>)
      requires Valid() && i < |live|
      modifies totals
      ensures Apart() && (forall j :: 0 <= j < |live| ==> live[j].Valid()) && Sizes() == old(Sizes())
      ensures totals.committed == old(totals.committed) - Sizes()[i] && freed == MappedLocs(live[i].table)
    {
      freed := live[i].Dealloc();
      assert Sizes() == old(Sizes());
    }

    /** The object leaves the list. */
    method Forget(i: nat)
      requires i < |live| && Apart() && forall j :: 0 <= j < |live| ==> live[j].Valid()
      modifies this`live
      ensures live == old(live)[..i] + old(live)[i + 1..] && Apart() && forall j :: 0 <= j < |live| ==> live[j].Valid()
      ensures Sizes() == old(Sizes())[..i] + old(Sizes())[i + 1..]
    {
      ghost var before := live;
      live := live[..i] + live[i + 1..];
      assert forall j :: 0 <= j < |live| ==> live[j] == before[if j < i then j else j + 1];
      assert Sizes() == old(Sizes())[..i] + old(Sizes())[i + 1..];
    }
  }
}
