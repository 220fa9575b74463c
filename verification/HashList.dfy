/** The singly headed hash list, on the heap: each node knows its successor and the pointer that points
    to itself, so that it can be unlinked without its head. */
module HashList {
  import opened Sequences

  /** A location that holds a pointer to a node: the head's `first` or a node's `next`. */
  datatype Slot = Nowhere | FirstOf(head: HlistHead) | NextOf(node: HlistNode)

  class HlistHead {
    var first: HlistNode?

    /** INIT_HLIST_HEAD */
    constructor ()
      ensures Chain(this, [])
    {
      first := null;
    }
  }

  class HlistNode {
    var next: HlistNode?
    var pprev: Slot

    /** INIT_HLIST_NODE */
    constructor ()
      ensures next == null && pprev == Nowhere
    {
      next, pprev := null, Nowhere;
    }
  }

  ghost function At(xs: seq<HlistNode>, i: int): HlistNode? {
    if 0 <= i < |xs| then xs[i] else null
  }

  ghost function Before(h: HlistHead, xs: seq<HlistNode>, i: nat): Slot
    requires i <= |xs|
  {
    if i == 0 then FirstOf(h) else NextOf(xs[i - 1])
  }

  /** The chain with head `h` and nodes `xs`. */
  ghost predicate Chain(h: HlistHead, xs: seq<HlistNode>)
    reads h, xs
  {
    && Distinct(xs)
    && h.first == At(xs, 0)
    && (forall i :: 0 <= i < |xs| ==> xs[i].next == At(xs, i + 1))
    && (forall i :: 0 <= i < |xs| ==> xs[i].pprev == Before(h, xs, i))
  }

  /** hlist_add_head */
  method HlistAddHead(n: HlistNode, h: HlistHead, ghost xs: seq<HlistNode>)
    requires Chain(h, xs) && n !in xs
    modifies n, h, xs
    ensures Chain(h, [n] + xs)
  {
    ghost var ys := [n] + xs;
    assert forall i :: 0 <= i < |xs| ==> ys[i + 1] == xs[i];
    var first := h.first;
    n.next := first;
    if first != null {
      first.pprev := NextOf(n);
    }
    h.first := n;
    n.pprev := FirstOf(h);
    forall i | 0 <= i < |ys|
      ensures ys[i].next == At(ys, i + 1) && ys[i].pprev == Before(h, ys, i)
    {
      if i > 0 {
        assert ys[i] == xs[i - 1];
        assert i > 1 ==> ys[i - 1] == xs[i - 2] && xs[i - 1] != xs[0];
      }
    }
  }

  predicate HlistUnhashed(n: HlistNode)
    reads n
  {
    n.pprev == Nowhere
  }

  /** The chain after its node k was bypassed in both directions. */
  lemma Bypassed(h: HlistHead, xs: seq<HlistNode>, k: nat)
    requires Distinct(xs) && k < |xs|
    requires h.first == At(xs, if k == 0 then 1 else 0)
    requires forall i :: 0 <= i < |xs| && i != k ==> xs[i].next == At(xs, if i == k - 1 then k + 1 else i + 1)
    requires forall i :: 0 <= i < |xs| && i != k ==> xs[i].pprev == Before(h, xs, if i == k + 1 then k else i)
    ensures Chain(h, Drop(xs, k)) && xs[k] !in Drop(xs, k)
  {
    Dropped(xs, k);
    var ys := Drop(xs, k);
    forall i | 0 <= i < |ys|
      ensures ys[i].next == At(ys, i + 1) && ys[i].pprev == Before(h, ys, i)
    {
      BypassedAt(h, xs, ys, k, i);
    }
  }

  lemma BypassedAt(h: HlistHead, xs: seq<HlistNode>, ys: seq<HlistNode>, k: nat, i: nat)
    requires k < |xs| && |ys| == |xs| - 1 && i < |ys|
    requires forall j :: 0 <= j < |ys| ==> ys[j] == xs[if j < k then j else j + 1]
    ensures ys[i] == xs[if i < k then i else i + 1]
    ensures At(ys, i + 1) == At(xs, if i + 1 < k then i + 1 else i + 2)
    ensures Before(h, ys, i) == Before(h, xs, if i <= k then i else i + 1)
  {}

  /** *pprev = next, where pprev is the place of the pointer to node k and next its successor. */
  method Redirect(pprev: Slot, next: HlistNode?, ghost h: HlistHead, ghost xs: seq<HlistNode>, ghost k: nat)
    requires Chain(h, xs) && k < |xs| && pprev == Before(h, xs, k) && next == At(xs, k + 1)
    modifies h, xs
    ensures h.first == At(xs, if k == 0 then 1 else 0)
    ensures forall i :: 0 <= i < |xs| ==> xs[i].next == At(xs, if i == k - 1 then k + 1 else i + 1)
    ensures forall i :: 0 <= i < |xs| ==> xs[i].pprev == Before(h, xs, i)
  {
    match pprev {
      case FirstOf(head) => head.first := next;
      case NextOf(node) => node.next := next;
    }
  }

  /** __hlist_del of node k: the pointer that points to it is made to point to its successor. */
  method HlistDel(n: HlistNode, ghost h: HlistHead, ghost xs: seq<HlistNode>, ghost k: nat)
    requires Chain(h, xs) && k < |xs| && xs[k] == n
    modifies h, xs
    ensures Chain(h, Drop(xs, k)) && n !in Drop(xs, k)
  {
    var next := n.next;
    var pprev := n.pprev;
    assert next == At(xs, k + 1) && pprev == Before(h, xs, k);
    Redirect(pprev, next, h, xs, k);
    if next != null {
      next.pprev := pprev;
    }
    assert forall i :: 0 <= i < |xs| && xs[i] == next ==> i == k + 1;
    Bypassed(h, xs, k);
  }

  /** hlist_del_init: nothing happens to a node that is in no chain. */
  method HlistDelInit(n: HlistNode, ghost h: HlistHead, ghost xs: seq<HlistNode>, ghost k: nat)
    requires !HlistUnhashed(n) ==> Chain(h, xs) && k < |xs| && xs[k] == n
    modifies h, xs
    ensures HlistUnhashed(n)
    ensures if old(HlistUnhashed(n)) then unchanged(h) && unchanged(xs) else Chain(h, Drop(xs, k)) && n.next == null
  {
    if !HlistUnhashed(n) {
      HlistDel(n, h, xs, k);
      n.next := null;
      n.pprev := Nowhere;
    }
  }

  // ---------- traversal ----------

  lemma NextIn(h: HlistHead, kept: seq<HlistNode>, rest: seq<HlistNode>)
    requires Chain(h, kept + rest) && rest != []
    ensures rest[0].next == At(rest, 1)
  {
    var xs, k := kept + rest, |kept|;
    assert xs[k] == rest[0] && xs[k].next == At(xs, k + 1);
  }

  /** What is done at a node: delete it, or leave it. */
  method Visit(pos: HlistNode, del: bool, ghost h: HlistHead, ghost kept: seq<HlistNode>, ghost rest: seq<HlistNode>)
    requires Chain(h, kept + rest) && rest != [] && pos == rest[0]
    modifies h, kept, rest
    ensures Chain(h, (if del then kept else kept + [pos]) + rest[1..])
  {
    ghost var cur, k := kept + rest, |kept|;
    DropBetween(kept, rest);
    assert cur[k].pprev == Before(h, cur, k);
    if del {
      HlistDelInit(pos, h, cur, k);
    } else {
      Shift(kept, rest);
    }
  }

  /** The traversal has visited the first part of the chain, and deleted the doomed nodes in it. */
  ghost predicate Half(h: HlistHead, visited: seq<HlistNode>, rest: seq<HlistNode>, xs: seq<HlistNode>, doomed: set<HlistNode>)
    reads h, Keep(visited, doomed) + rest
  {
    visited + rest == xs && Chain(h, Keep(visited, doomed) + rest)
  }

  lemma HalfStart(h: HlistHead, xs: seq<HlistNode>, doomed: set<HlistNode>)
    requires Chain(h, xs)
    ensures Half(h, [], xs, xs, doomed) && h.first == At(xs, 0)
  {
    assert Keep([], doomed) + xs == xs && [] + xs == xs;
  }

  lemma HalfEnd(h: HlistHead, visited: seq<HlistNode>, rest: seq<HlistNode>, xs: seq<HlistNode>, doomed: set<HlistNode>)
    requires Half(h, visited, rest, xs, doomed) && At(rest, 0) == null
    ensures visited == xs && Chain(h, Keep(xs, doomed))
  {
    assert rest == [] && visited + rest == visited && Keep(visited, doomed) + rest == Keep(visited, doomed);
  }

  /** One round of the traversal: the successor was read before the node is deleted. */
  method VisitNext(pos: HlistNode, del: bool, ghost h: HlistHead, ghost visited: seq<HlistNode>,
                   ghost rest: seq<HlistNode>, ghost xs: seq<HlistNode>, ghost doomed: set<HlistNode>)
    requires Half(h, visited, rest, xs, doomed) && rest != [] && pos == rest[0] && (del <==> pos in doomed)
    modifies h, xs
    ensures Half(h, visited + [pos], rest[1..], xs, doomed)
    ensures old(pos.next) == At(rest[1..], 0)
  {
    ghost var kept := Keep(visited, doomed);
    NextIn(h, kept, rest);
    StillOf(visited, rest, xs, doomed);
    KeepSnoc(visited, pos, doomed);
    Shift(visited, rest);
    Visit(pos, del, h, kept, rest);
  }

  /** hlist_for_each_entry_safe with a body that deletes some of the nodes it visits: every node that was
      in the chain at the start is visited once, in order, and exactly the others remain. */
  method ForEachEntrySafe(h: HlistHead, doomed: set<HlistNode>, ghost xs: seq<HlistNode>) returns (visited: seq<HlistNode>)
    requires Chain(h, xs)
    modifies h, xs
    ensures visited == xs
    ensures Chain(h, Keep(xs, doomed))
  {
    visited := [];
    ghost var rest := xs;
    HalfStart(h, xs, doomed);
    var pos := h.first;
    while pos != null
      invariant Half(h, visited, rest, xs, doomed) && pos == At(rest, 0)
      decreases |rest|
    {
      var next := pos.next;
      VisitNext(pos, pos in doomed, h, visited, rest, xs, doomed);
      visited, rest, pos := visited + [pos], rest[1..], next;
    }
    HalfEnd(h, visited, rest, xs, doomed);
  }
}
