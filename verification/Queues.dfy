/** The intrusive queues of the pager (queue.h): a head and its elements form a ring through pointers
    kept in the elements themselves. Heads and elements are addresses, and the pointers are the memory
    that all queues share; the methods have the branches of the macros. */
module Queues {

  type Address = nat

  /** The place after `i` in a ring of `n`. */
  function After(i: nat, n: nat): (j: nat)
    requires i < n
    ensures j < n
  {
    if i + 1 == n then 0 else i + 1
  }

  ghost predicate Distinct(r: seq<Address>) { forall i, j :: 0 <= i < j < |r| ==> r[i] != r[j] }

  /** The entry at `i` and the one after it point at each other. */
  ghost predicate Joined(next: map<Address, Address>, prev: map<Address, Address>, r: seq<Address>, i: nat)
    requires i < |r|
  {
    var a, b := r[i], r[After(i, |r|)];
    a in next && next[a] == b && b in prev && prev[b] == a
  }

  /** The elements of the queue with the given head are `items`, in order. */
  ghost predicate IsQueue(next: map<Address, Address>, prev: map<Address, Address>, head: Address, items: seq<Address>) {
    var r := [head] + items;
    Distinct(r) && forall i: nat :: i < |r| ==> Joined(next, prev, r, i)
  }

  class Links {
    var next: map<Address, Address>
    var prev: map<Address, Address>

    /** queue_init. */
    method Init(head: Address)
      modifies this
      ensures IsQueue(next, prev, head, []) && OnlyTouched(old(next), next, {head}) && OnlyTouched(old(prev), prev, {head})
    {
      next, prev := next[head := head], prev[head := head];
    }

    /** queue_empty. */
    method Empty(head: Address, ghost items: seq<Address>) returns (empty: bool)
      requires IsQueue(next, prev, head, items)
      ensures empty <==> items == []
    {
      assert Joined(next, prev, [head] + items, 0);
      empty := next[head] == head;
    }

    /** queue_enter: the element becomes the last. */
    method Enter(head: Address, elt: Address, ghost items: seq<Address>)
      requires IsQueue(next, prev, head, items) && elt !in [head] + items
      modifies this
      ensures IsQueue(next, prev, head, items + [elt])
      ensures OnlyTouched(old(next), next, Members(head, items) + {elt}) && OnlyTouched(old(prev), prev, Members(head, items) + {elt})
    {
      assert Joined(next, prev, [head] + items, |items|);
      EnterRing(next, prev, head, items, elt);
      var last := prev[head];
      if head == last {
        next := next[head := elt];
      } else {
        next := next[last := elt];
      }
      prev := prev[elt := last];
      next := next[elt := head];
      prev := prev[head := elt];
    }

    /** queue_remove: the element with index `k`. */
    method Remove(head: Address, elt: Address, ghost items: seq<Address>, ghost k: nat)
      requires IsQueue(next, prev, head, items) && k < |items| && items[k] == elt
      modifies this
      ensures IsQueue(next, prev, head, items[..k] + items[k + 1..])
      ensures OnlyTouched(old(next), next, Members(head, items)) && OnlyTouched(old(prev), prev, Members(head, items))
    {
      assert Joined(next, prev, [head] + items, k) && Joined(next, prev, [head] + items, k + 1);
      RemoveRing(next, prev, head, items, k);
      var n, p := next[elt], prev[elt];
      if head == n {
        prev := prev[head := p];
      } else {
        prev := prev[n := p];
      }
      if head == p {
        next := next[head := n];
      } else {
        next := next[p := n];
      }
    }

    /** queue_remove_first. */
    method RemoveFirst(head: Address, ghost items: seq<Address>) returns (entry: Address)
      requires IsQueue(next, prev, head, items) && items != []
      modifies this
      ensures entry == items[0] && IsQueue(next, prev, head, items[1..])
      ensures OnlyTouched(old(next), next, Members(head, items)) && OnlyTouched(old(prev), prev, Members(head, items))
    {
      assert Joined(next, prev, [head] + items, 0) && Joined(next, prev, [head] + items, 1);
      RemoveRing(next, prev, head, items, 0);
      assert items[..0] + items[0 + 1..] == items[1..];
      entry := next[head];
      var n := next[entry];
      if head == n {
        prev := prev[head := head];
      } else {
        prev := prev[n := head];
      }
      next := next[head := n];
    }

    /** queue_iterate: visits every element once, in order, and comes to its end. */
    method Iterate(head: Address, ghost items: seq<Address>) returns (visited: seq<Address>)
      requires IsQueue(next, prev, head, items)
      ensures visited == items
    {
      visited := [];
      ghost var r := [head] + items;
      assert Joined(next, prev, r, 0);
      var elt := next[head];
      while elt != head
        invariant |visited| <= |items| && visited == items[..|visited|]
        invariant elt == r[After(|visited|, |r|)]
        decreases |items| - |visited|
      {
        assert Joined(next, prev, r, |visited| + 1);
        visited := visited + [elt];
        elt := next[elt];
      }
    }
  }

  ghost function Members(head: Address, items: seq<Address>): set<Address> {
    {head} + set a | a in items
  }

  ghost predicate OnlyTouched(before: map<Address, Address>, now: map<Address, Address>, who: set<Address>) {
    forall a :: a !in who ==> (a in now <==> a in before) && (a in before ==> now[a] == before[a])
  }

  /** A queue that shares no entry with those touched is as it was. */
  lemma OthersKept(next: map<Address, Address>, prev: map<Address, Address>, next2: map<Address, Address>, prev2: map<Address, Address>,
                   who: set<Address>, head: Address, items: seq<Address>)
    requires IsQueue(next, prev, head, items) && who !! Members(head, items)
    requires OnlyTouched(next, next2, who) && OnlyTouched(prev, prev2, who)
    ensures IsQueue(next2, prev2, head, items)
  {
    var r := [head] + items;
    forall i: nat | i < |r| ensures Joined(next2, prev2, r, i) {
      assert Joined(next, prev, r, i);
      assert r[i] in Members(head, items) && r[After(i, |r|)] in Members(head, items);
    }
  }

  lemma EnterRing(next: map<Address, Address>, prev: map<Address, Address>, head: Address, items: seq<Address>, elt: Address)
    requires IsQueue(next, prev, head, items) && elt !in [head] + items
    ensures head in prev && prev[head] in [head] + items
    ensures IsQueue(next[prev[head] := elt][elt := head], prev[elt := prev[head]][head := elt], head, items + [elt])
  {
    var r, r2 := [head] + items, [head] + (items + [elt]);
    assert Joined(next, prev, r, |items|);
    assert r2 == r + [elt];
    var next2, prev2 := next[prev[head] := elt][elt := head], prev[elt := prev[head]][head := elt];
    forall i: nat | i < |r2| ensures Joined(next2, prev2, r2, i) {
      if i < |items| {
        assert Joined(next, prev, r, i);
      }
    }
  }

  lemma RemoveRing(next: map<Address, Address>, prev: map<Address, Address>, head: Address, items: seq<Address>, k: nat)
    requires IsQueue(next, prev, head, items) && k < |items|
    ensures items[k] in next && items[k] in prev
    ensures var n, p := next[items[k]], prev[items[k]]; IsQueue(next[p := n], prev[n := p], head, items[..k] + items[k + 1..])
  {
    var r, r2 := [head] + items, [head] + (items[..k] + items[k + 1..]);
    assert Joined(next, prev, r, k) && Joined(next, prev, r, k + 1);
    var n, p := next[items[k]], prev[items[k]];
    forall i: nat | i < |r2| ensures r2[i] == r[Back(i, k)] {
      assert r2[i] == if i == 0 then head else (items[..k] + items[k + 1..])[i - 1];
    }
    var next2, prev2 := next[p := n], prev[n := p];
    forall i: nat | i < |r2| ensures Joined(next2, prev2, r2, i) {
      assert Joined(next, prev, r, Back(i, k));
      assert r2[After(i, |r2|)] == r[Back(After(i, |r2|), k)];
    }
  }

  /** Where the entry at `i` was before that at `k + 1` was taken out. */
  function Back(i: nat, k: nat): nat { if i <= k then i else i + 1 }
}
