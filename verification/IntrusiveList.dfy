/** The circular doubly linked list with a sentinel, on the heap. A list is described by its sentinel and
    the sequence of its elements; adding, deleting and traversing are specified on that sequence. */
module IntrusiveList {
  import opened Sequences

  class ListHead {
    var prev: ListHead?
    var next: ListHead?

    /** INIT_LIST_ELM */
    constructor ()
      ensures prev == null && next == null
    {
      prev, next := null, null;
    }
  }

  const LIST_NULL := -1
  const LIST_SUCCESS := 1

  /** Each node of the path is linked to the next one, both ways. */
  ghost predicate Linked(path: seq<ListHead>)
    reads path
  {
    forall i :: 0 <= i < |path| - 1 ==> path[i].next == path[i + 1] && path[i + 1].prev == path[i]
  }

  /** From the sentinel through the elements back to the sentinel. */
  ghost function Round(head: ListHead, xs: seq<ListHead>): seq<ListHead> {
    [head] + xs + [head]
  }

  /** The list with sentinel `head` and elements `xs`. */
  ghost predicate Ring(head: ListHead, xs: seq<ListHead>)
    reads head, xs
  {
    head !in xs && Distinct(xs) && Linked(Round(head, xs))
  }

  /** INIT_LIST_HEAD */
  method InitListHead(h: ListHead)
    modifies h
    ensures Ring(h, [])
  {
    h.next := h;
    h.prev := h;
  }

  /** Different places of the round trip hold different nodes, except for its two ends. */
  lemma Places(head: ListHead, xs: seq<ListHead>, i: nat, j: nat)
    requires head !in xs && Distinct(xs) && i < j <= |xs| + 1 && !(i == 0 && j == |xs| + 1)
    ensures Round(head, xs)[i] != Round(head, xs)[j]
  {
    var r := Round(head, xs);
    assert forall k :: 1 <= k <= |xs| ==> r[k] == xs[k - 1];
  }

  lemma Inserted(head: ListHead, xs: seq<ListHead>, k: nat, le: ListHead)
    requires k <= |xs| && head !in xs && Distinct(xs) && le != head && le !in xs
    ensures var xs' := xs[..k] + [le] + xs[k..];
            && head !in xs' && Distinct(xs')
            && Round(head, xs') == Round(head, xs)[..k + 1] + [le] + Round(head, xs)[k + 1..]
  {
    var xs' := xs[..k] + [le] + xs[k..];
    assert forall i :: 0 <= i < |xs'| ==> xs'[i] == if i < k then xs[i] else if i == k then le else xs[i - 1];
    RoundSplit(head, xs, k);
    RoundSplit(head, xs', k + 1);
    assert xs'[..k + 1] == xs[..k] + [le] && xs'[k + 1..] == xs[k..];
    assert [head] + (xs[..k] + [le]) == ([head] + xs[..k]) + [le];
  }

  lemma RoundSplit(head: ListHead, xs: seq<ListHead>, k: nat)
    requires k <= |xs|
    ensures Round(head, xs)[..k + 1] == [head] + xs[..k] && Round(head, xs)[k + 1..] == xs[k..] + [head]
    ensures Round(head, xs) == ([head] + xs[..k]) + (xs[k..] + [head])
  {
    assert xs == xs[..k] + xs[k..];
  }

  /** listelm_add: link `le` between two neighbours, the places k and k + 1 of the round trip */
  method ListElmAdd(le: ListHead, prev: ListHead, next: ListHead, ghost head: ListHead, ghost xs: seq<ListHead>, ghost k: nat)
    requires Ring(head, xs) && le != head && le !in xs && k <= |xs|
    requires prev == Round(head, xs)[k] && next == Round(head, xs)[k + 1]
    modifies le, prev, next
    ensures Ring(head, xs[..k] + [le] + xs[k..])
  {
    ghost var r := Round(head, xs);
    prev.next := le;
    le.prev := prev;
    le.next := next;
    next.prev := le;
    Inserted(head, xs, k, le);
    ghost var r' := r[..k + 1] + [le] + r[k + 1..];
    forall i | 0 <= i < |r'| - 1
      ensures r'[i].next == r'[i + 1] && r'[i + 1].prev == r'[i]
    {
      if i < k {
        assert r'[i] == r[i] && r'[i + 1] == r[i + 1];
        Places(head, xs, i, k);
        Places(head, xs, i + 1, k + 1);
      } else if i > k + 1 {
        assert r'[i] == r[i - 1] && r'[i + 1] == r[i];
        Places(head, xs, k, i - 1);
        Places(head, xs, k + 1, i);
      }
    }
  }

  /** list_add */
  method ListAdd(head: ListHead?, le: ListHead?, ghost xs: seq<ListHead>) returns (ret: int)
    requires head != null && le != null ==> Ring(head, xs) && le != head && le !in xs
    modifies if head != null && le != null then {head, le} + set x | x in xs else {}
    ensures ret == if head == null || le == null then LIST_NULL else LIST_SUCCESS
    ensures head != null && le != null ==> Ring(head, [le] + xs)
  {
    if head == null || le == null {
      return LIST_NULL;
    }
    assert Round(head, xs)[1] == if xs == [] then head else xs[0];
    assert Round(head, xs)[0].next == Round(head, xs)[0 + 1];
    ListElmAdd(le, head, head.next, head, xs, 0);
    assert xs[..0] + [le] + xs[0..] == [le] + xs;
    return LIST_SUCCESS;
  }

  /** list_add_tail */
  method ListAddTail(head: ListHead?, le: ListHead?, ghost xs: seq<ListHead>) returns (ret: int)
    requires head != null && le != null ==> Ring(head, xs) && le != head && le !in xs
    modifies if head != null && le != null then {head, le} + set x | x in xs else {}
    ensures ret == if head == null || le == null then LIST_NULL else LIST_SUCCESS
    ensures head != null && le != null ==> Ring(head, xs + [le])
  {
    if head == null || le == null {
      return LIST_NULL;
    }
    ghost var r, k := Round(head, xs), |xs|;
    assert r[k + 1] == head && head.prev == r[k];
    assert r[k] == if xs == [] then head else xs[k - 1];
    ListElmAdd(le, head.prev, head, head, xs, k);
    assert xs[..k] + [le] + xs[k..] == xs + [le];
    return LIST_SUCCESS;
  }

  lemma RoundWithout(head: ListHead, xs: seq<ListHead>, k: nat)
    requires k < |xs| && head !in xs && Distinct(xs)
    ensures var xs' := Drop(xs, k);
            && head !in xs' && Distinct(xs') && xs[k] !in xs'
            && Round(head, xs') == Round(head, xs)[..k + 1] + Round(head, xs)[k + 2..]
  {
    var xs' := Drop(xs, k);
    Dropped(xs, k);
    RoundSplit(head, xs, k);
    RoundSplit(head, xs, k + 1);
    RoundSplit(head, xs', k);
    assert xs'[..k] == xs[..k] && xs'[k..] == xs[k + 1..];
  }

  /** list_del of element k: it ends unattached. */
  method ListDel(le: ListHead?, ghost head: ListHead, ghost xs: seq<ListHead>, ghost k: nat) returns (ret: int)
    requires le != null && !(le.next == null && le.prev == null) ==> Ring(head, xs) && k < |xs| && xs[k] == le
    modifies if le == null || (le.next == null && le.prev == null) then {} else {head} + set x | x in xs
    ensures ret == if le == null || old(le.next == null && le.prev == null) then LIST_NULL else LIST_SUCCESS
    ensures ret == LIST_SUCCESS ==> Ring(head, Drop(xs, k)) && le.next == null && le.prev == null
  {
    if le == null {
      return LIST_NULL;
    }
    if le.next == null && le.prev == null {
      return LIST_NULL;
    }
    ghost var r := Round(head, xs);
    assert r[k + 1] == le && le.prev == r[k] && le.next == r[k + 2];
    Places(head, xs, k, k + 1);
    Places(head, xs, k + 1, k + 2);
    var prev, next := le.prev, le.next;
    next.prev := prev;
    prev.next := next;
    le.next, le.prev := null, null;
    forall i | 0 <= i < |r| - 1 && i != k && i != k + 1
      ensures r[i].next == r[i + 1] && r[i + 1].prev == r[i]
    {
      Apart(head, xs, i, k);
      Apart(head, xs, i, k + 1);
    }
    Bypassed(head, xs, k);
    return LIST_SUCCESS;
  }

  /** Two different steps of the round trip start at different nodes and end at different nodes. */
  lemma Apart(head: ListHead, xs: seq<ListHead>, i: nat, j: nat)
    requires head !in xs && Distinct(xs) && i <= |xs| && j <= |xs| && i != j
    ensures Round(head, xs)[i] != Round(head, xs)[j] && Round(head, xs)[i + 1] != Round(head, xs)[j + 1]
  {
    var lo, hi := if i < j then i else j, if i < j then j else i;
    Places(head, xs, lo, hi);
    Places(head, xs, lo + 1, hi + 1);
  }

  /** The ring after its element k was bypassed. */
  lemma Bypassed(head: ListHead, xs: seq<ListHead>, k: nat)
    requires head !in xs && Distinct(xs) && k < |xs|
    requires var r := Round(head, xs);
             && r[k].next == r[k + 2] && r[k + 2].prev == r[k]
             && forall i :: 0 <= i < |r| - 1 && i != k && i != k + 1 ==> r[i].next == r[i + 1] && r[i + 1].prev == r[i]
    ensures Ring(head, Drop(xs, k))
  {
    RoundWithout(head, xs, k);
    var r := Round(head, xs);
    var r' := r[..k + 1] + r[k + 2..];
    forall i | 0 <= i < |r'| - 1
      ensures r'[i].next == r'[i + 1] && r'[i + 1].prev == r'[i]
    {
      assert r'[i] == r[if i <= k then i else i + 1] && r'[i + 1] == r[if i < k then i + 1 else i + 2];
    }
  }

  /** list_del_init: an element that was not attached ends as an empty list of its own too. */
  method ListDelInit(le: ListHead, ghost head: ListHead, ghost xs: seq<ListHead>, ghost k: nat) returns (ret: int)
    requires !(le.next == null && le.prev == null) ==> Ring(head, xs) && k < |xs| && xs[k] == le
    modifies if le.next == null && le.prev == null then {le} else {head} + set x | x in xs
    ensures ret == if old(le.next == null && le.prev == null) then LIST_NULL else LIST_SUCCESS
    ensures ret == LIST_SUCCESS ==> Ring(head, Drop(xs, k))
    ensures Ring(le, [])
  {
    ret := ListDel(le, head, xs, k);
    if ret == LIST_SUCCESS {
      RoundWithout(head, xs, k);
    }
    le.prev := le;
    le.next := le;
  }

  // ---------- traversal ----------

  /** The element at place i of a ring is followed by the one at i + 1, or by the sentinel. */
  lemma NextOf(head: ListHead, kept: seq<ListHead>, rest: seq<ListHead>)
    requires Ring(head, kept + rest)
    ensures rest != [] ==> rest[0].next == if |rest| > 1 then rest[1] else head
    ensures head.next != null
  {
    var xs := kept + rest;
    var r, k := Round(head, xs), |kept|;
    assert r[0].next == r[0 + 1];
    if rest != [] {
      assert r[k + 1] == rest[0] && r[k + 2] == if |rest| > 1 then rest[1] else head;
      assert r[k + 1].next == r[k + 1 + 1];
    }
  }

  /** The body of the traversal: delete the visited element, or leave it. */
  method Visit(pos: ListHead, doomed: set<ListHead>, ghost head: ListHead, ghost kept: seq<ListHead>, ghost rest: seq<ListHead>)
    returns (ghost kept': seq<ListHead>)
    requires Ring(head, kept + rest) && rest != [] && pos == rest[0]
    modifies head, kept, rest
    ensures kept' == if pos in doomed then kept else kept + [pos]
    ensures Ring(head, kept' + rest[1..])
  {
    ghost var cur, k := kept + rest, |kept|;
    DropBetween(kept, rest);
    if pos in doomed {
      InRing(head, cur, k);
      var ret := ListDel(pos, head, cur, k);
      kept' := kept;
    } else {
      kept' := kept + [pos];
      Shift(kept, rest);
    }
  }

  /** list_for_each_safe with a body that deletes some of the elements it visits: every element that was
      in the list at the start is visited once, in order, and exactly the others remain. */
  method ForEachSafe(head: ListHead, doomed: set<ListHead>, ghost xs: seq<ListHead>) returns (visited: seq<ListHead>)
    requires Ring(head, xs)
    modifies head, xs
    ensures visited == xs
    ensures Ring(head, Keep(xs, doomed))
  {
    visited := [];
    ghost var kept: seq<ListHead>, rest := [], xs;
    assert kept + rest == xs && visited + rest == xs;
    FirstOf(head, xs);
    var pos := head.next;
    NextOf(head, kept, rest);
    var tmp := pos.next;
    while pos != head
      invariant visited + rest == xs && kept == Keep(visited, doomed)
      invariant Ring(head, kept + rest)
      invariant pos == (if rest != [] then rest[0] else head)
      invariant rest != [] ==> tmp == if |rest| > 1 then rest[1] else head
      decreases |rest|
    {
      var node: ListHead := pos;
      StillOf(visited, rest, xs, doomed);
      KeepSnoc(visited, node, doomed);
      Shift(visited, rest);
      visited := visited + [node];
      kept := Visit(node, doomed, head, kept, rest);
      rest := rest[1..];
      NextOf(head, kept, rest);
      pos := tmp;
      tmp := pos.next;
    }
    assert kept + rest == kept && visited + rest == visited;
  }

  lemma FirstOf(head: ListHead, xs: seq<ListHead>)
    requires Ring(head, xs)
    ensures head.next == if xs == [] then head else xs[0]
  {
    var r := Round(head, xs);
    assert r[0].next == r[0 + 1];
  }

  lemma InRing(head: ListHead, xs: seq<ListHead>, k: nat)
    requires Ring(head, xs) && k < |xs|
    ensures xs[k].next != null
  {
    var r := Round(head, xs);
    assert r[k + 1].next == r[k + 1 + 1];
  }
}
