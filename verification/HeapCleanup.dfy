/** file_table_delete_owner on the heap: the chains are hash lists, nodes are unlinked by their back pointers
    while the chains are traversed, and the outcome is still that of the operation on the map. */
module HeapCleanup {
  import opened Entries
  import opened FileTable
  import opened HashList
  import opened Sequences

  /** container_of: the file entry that each node is embedded in */
  type Containers = map<HlistNode, FileEntry>

  ghost predicate Embedded(nodes: seq<HlistNode>, entryOf: Containers) {
    && (forall i :: 0 <= i < |nodes| ==> nodes[i] in entryOf)
    && (forall i, j :: 0 <= i < j < |nodes| ==> entryOf[nodes[i]] != entryOf[nodes[j]])
  }

  ghost function EntriesOf(nodes: seq<HlistNode>, entryOf: Containers): set<FileEntry> {
    set i | 0 <= i < |nodes| && nodes[i] in entryOf :: entryOf[nodes[i]]
  }

  function WithoutIp(e: Entry, ip: nat): Entry {
    e.(owners := WithoutOwner(e.owners, ip))
  }

  /** The nodes whose entries, `was` before, are left without an owner. */
  ghost function Orphans(nodes: seq<HlistNode>, was: seq<Entry>, ip: nat): set<HlistNode> {
    set i | 0 <= i < |nodes| && i < |was| && WithoutOwner(was[i].owners, ip) == [] :: nodes[i]
  }

  /** The owner is gone from the entries of the first k nodes, and the others are as they were. */
  ghost predicate CleanedTo(nodes: seq<HlistNode>, entryOf: Containers, was: seq<Entry>, ip: nat, k: int)
    reads EntriesOf(nodes, entryOf)
  {
    && |was| == |nodes|
    && forall i :: 0 <= i < |nodes| && nodes[i] in entryOf ==>
         entryOf[nodes[i]].State() == if i < k then WithoutIp(was[i], ip) else was[i]
  }

  /** The owner is unlinked from one entry, which does not touch the chain. */
  method CleanEntry(fe: FileEntry, entryOf: Containers, ip: nat, ghost nodes: seq<HlistNode>, ghost was: seq<Entry>, ghost k: nat,
                    ghost h: HlistHead, ghost linked: seq<HlistNode>)
    requires Embedded(nodes, entryOf) && k < |nodes| && fe == entryOf[nodes[k]]
    requires CleanedTo(nodes, entryOf, was, ip, k) && Chain(h, linked)
    modifies fe
    ensures CleanedTo(nodes, entryOf, was, ip, k + 1) && fe.State() == WithoutIp(was[k], ip)
    ensures Chain(h, linked)
  {
    fe.RemoveOwner(ip);
  }

  lemma OrphanIff(nodes: seq<HlistNode>, was: seq<Entry>, ip: nat, k: nat)
    requires Distinct(nodes) && |was| == |nodes| && k < |nodes|
    ensures nodes[k] in Orphans(nodes, was, ip) <==> WithoutOwner(was[k].owners, ip) == []
  {}

  /** One round of the traversal. */
  method CleanNext(pos: HlistNode, entryOf: Containers, ip: nat, ghost h: HlistHead, ghost visited: seq<HlistNode>,
                   ghost rest: seq<HlistNode>, ghost nodes: seq<HlistNode>, ghost was: seq<Entry>)
    requires Half(h, visited, rest, nodes, Orphans(nodes, was, ip)) && rest != [] && pos == rest[0]
    requires Distinct(nodes) && Embedded(nodes, entryOf) && CleanedTo(nodes, entryOf, was, ip, |visited|)
    modifies h, nodes, EntriesOf(nodes, entryOf)
    ensures Half(h, visited + [pos], rest[1..], nodes, Orphans(nodes, was, ip))
    ensures old(pos.next) == At(rest[1..], 0)
    ensures CleanedTo(nodes, entryOf, was, ip, |visited| + 1)
  {
    ghost var k := |visited|;
    assert pos == (visited + rest)[k];
    var fe := entryOf[pos];
    OrphanIff(nodes, was, ip, k);
    ghost var doomed := Orphans(nodes, was, ip);
    CleanEntry(fe, entryOf, ip, nodes, was, k, h, Keep(visited, doomed) + rest);
    VisitNext(pos, fe.owners == [], h, visited, rest, nodes, doomed);
  }

  /** One chain: list_del of the owner in every entry, and hlist_del of every entry left without one. */
  method CleanChain(h: HlistHead, entryOf: Containers, ip: nat, ghost nodes: seq<HlistNode>, ghost was: seq<Entry>)
    requires Chain(h, nodes) && Embedded(nodes, entryOf) && CleanedTo(nodes, entryOf, was, ip, 0)
    modifies h, nodes, EntriesOf(nodes, entryOf)
    ensures Chain(h, Keep(nodes, Orphans(nodes, was, ip)))
    ensures CleanedTo(nodes, entryOf, was, ip, |nodes|)
  {
    ghost var visited: seq<HlistNode>, rest := [], nodes;
    HalfStart(h, nodes, Orphans(nodes, was, ip));
    var pos := h.first;
    while pos != null
      invariant Half(h, visited, rest, nodes, Orphans(nodes, was, ip)) && pos == At(rest, 0)
      invariant CleanedTo(nodes, entryOf, was, ip, |visited|)
      decreases |rest|
    {
      var node: HlistNode, next := pos, pos.next;
      CleanNext(node, entryOf, ip, h, visited, rest, nodes, was);
      visited, rest, pos := visited + [node], rest[1..], next;
    }
    HalfEnd(h, visited, rest, nodes, Orphans(nodes, was, ip));
  }

  // ---------- what the chain stands for ----------

  /** The chain holds exactly the entries of `t`. */
  ghost predicate Represents(nodes: seq<HlistNode>, entryOf: Containers, t: Table)
    reads EntriesOf(nodes, entryOf)
  {
    && (forall i :: 0 <= i < |nodes| && nodes[i] in entryOf ==>
          entryOf[nodes[i]].name in t && t[entryOf[nodes[i]].name] == entryOf[nodes[i]].State())
    && (forall x :: x in t ==> exists i :: 0 <= i < |nodes| && nodes[i] in entryOf && entryOf[nodes[i]].name == x)
  }

  lemma {:induction false} KeepIff<T>(xs: seq<T>, doomed: set<T>, x: T)
    ensures x in Keep(xs, doomed) <==> x in xs && x !in doomed
  {
    if xs != [] {
      var rest, last := xs[..|xs| - 1], xs[|xs| - 1];
      KeepIff(rest, doomed, x);
      assert xs == rest + [last];
    }
  }

  /** The same of entries with the states `was`. */
  ghost predicate Listed(nodes: seq<HlistNode>, entryOf: Containers, was: seq<Entry>, t: Table) {
    && |was| == |nodes|
    && (forall i :: 0 <= i < |nodes| && nodes[i] in entryOf ==>
          entryOf[nodes[i]].name in t && t[entryOf[nodes[i]].name] == was[i])
    && (forall x :: x in t ==> exists i :: 0 <= i < |nodes| && nodes[i] in entryOf && entryOf[nodes[i]].name == x)
  }

  lemma CleanedMeans(nodes: seq<HlistNode>, entryOf: Containers, was: seq<Entry>, ip: nat, t: Table)
    requires Distinct(nodes) && Embedded(nodes, entryOf) && CleanedTo(nodes, entryOf, was, ip, |nodes|)
    requires Listed(nodes, entryOf, was, t)
    ensures Represents(Keep(nodes, Orphans(nodes, was, ip)), entryOf, Entries.DeleteOwner(t, ip))
  {
    var doomed, t' := Orphans(nodes, was, ip), Entries.DeleteOwner(t, ip);
    var kept := Keep(nodes, doomed);
    forall j | 0 <= j < |kept|
      ensures kept[j] in entryOf
      ensures entryOf[kept[j]].name in t' && t'[entryOf[kept[j]].name] == entryOf[kept[j]].State()
    {
      KeepIff(nodes, doomed, kept[j]);
      var i :| 0 <= i < |nodes| && nodes[i] == kept[j];
      OrphanIff(nodes, was, ip, i);
    }
    forall x | x in t'
      ensures exists j :: 0 <= j < |kept| && kept[j] in entryOf && entryOf[kept[j]].name == x
    {
      var i :| 0 <= i < |nodes| && entryOf[nodes[i]].name == x;
      OrphanIff(nodes, was, ip, i);
      KeepIff(nodes, doomed, nodes[i]);
      var j :| 0 <= j < |kept| && kept[j] == nodes[i];
    }
  }

  ghost function States(nodes: seq<HlistNode>, entryOf: Containers): seq<Entry>
    requires Embedded(nodes, entryOf)
    reads EntriesOf(nodes, entryOf)
  {
    seq(|nodes|, i requires 0 <= i < |nodes| reads EntriesOf(nodes, entryOf) => entryOf[nodes[i]].State())
  }

  lemma StartMeans(nodes: seq<HlistNode>, entryOf: Containers, ip: nat, t: Table)
    requires Embedded(nodes, entryOf) && Represents(nodes, entryOf, t)
    ensures var was := States(nodes, entryOf);
            CleanedTo(nodes, entryOf, was, ip, 0) && Listed(nodes, entryOf, was, t)
  {}

  /** What file_table_delete_owner does to one chain: though nodes are unlinked during the traversal, the chain
      ends as a chain of exactly the entries that the map is left with when the owner is taken out. */
  method DeleteOwnerInChain(h: HlistHead, entryOf: Containers, ip: nat, ghost nodes: seq<HlistNode>, ghost t: Table)
    returns (ghost kept: seq<HlistNode>)
    requires Chain(h, nodes) && Embedded(nodes, entryOf) && Represents(nodes, entryOf, t)
    modifies h, nodes, EntriesOf(nodes, entryOf)
    ensures Chain(h, kept) && Represents(kept, entryOf, Entries.DeleteOwner(t, ip))
  {
    StartMeans(nodes, entryOf, ip, t);
    ghost var was := States(nodes, entryOf);
    kept := Keep(nodes, Orphans(nodes, was, ip));
    CleanChain(h, entryOf, ip, nodes, was);
    CleanedMeans(nodes, entryOf, was, ip, t);
  }
}
