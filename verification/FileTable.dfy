/** The file table: 4096 hash chains of file entries that are updated in place, and the count `n`.
    Every operation is specified on the map from name to entry that the table stands for. */
module FileTable {
  import opened Entries
  import opened Hash
  import opened Sequences
  import opened Words

  /** Whether an owner with this ip is already listed. */
  method AlreadyInOwners(owners: seq<PeerId>, ip: nat) returns (found: bool)
    ensures found <==> HasIp(owners, ip)
  {
    for i := 0 to |owners|
      invariant forall j :: 0 <= j < i ==> owners[j].ip != ip
    {
      if owners[i].ip == ip {
        return true;
      }
    }
    return false;
  }

  class FileEntry {
    const name: Name
    var timestamp: nat
    var ftype: FileType
    var owners: seq<PeerId>

    /** A new entry, filled from a received one. */
    constructor (te: TransEntry)
      ensures name == te.name && State() == FromTrans(te)
    {
      name := te.name;
      timestamp := te.timestamp;
      ftype := te.ftype;
      owners := [];
      new;
      PeerIdListAdd(te);
    }

    function State(): Entry
      reads this
    {
      Entry(timestamp, ftype, owners)
    }

    method PeerIdListAdd(te: TransEntry)
      modifies this`owners
      ensures owners == AddOwners(old(owners), te.owners)
    {
      var i := 0;
      while i < |te.owners|
        invariant i <= |te.owners|
        invariant AddOwners(owners, te.owners[i..]) == AddOwners(old(owners), te.owners)
      {
        assert te.owners[i..][1..] == te.owners[i + 1..];
        var found := AlreadyInOwners(owners, te.owners[i].ip);
        if !found {
          owners := owners + [te.owners[i]];
        }
        i := i + 1;
      }
    }

    method PeerIdListReplace(te: TransEntry)
      modifies this`owners
      ensures owners == AddOwners([], te.owners)
    {
      owners := [];
      PeerIdListAdd(te);
    }

    /** file_entry_update: last writer wins. */
    method Update(te: TransEntry) returns (ret: int)
      modifies this
      ensures State() == Merge(old(State()), te)
      ensures ret == if te.timestamp < old(timestamp) then -1 else 0
    {
      ret := 0;
      if te.timestamp > timestamp {
        timestamp := te.timestamp;
        PeerIdListReplace(te);
      } else if te.timestamp == timestamp {
        PeerIdListAdd(te);
      } else {
        ret := -1;
      }
    }

    /** trans_entry_fill_from: the entry as it is sent, before an operation is set. */
    method Export() returns (te: TransEntry)
      ensures te == ToTrans(name, State(), OpNone)
    {
      var sent := [];
      for i := 0 to |owners|
        invariant sent == owners[..i]
      {
        sent := sent + [owners[i]];
      }
      te := TransEntry(name, timestamp, OpNone, ftype, sent);
    }

    /** Unlink every owner at `ip` during a safe traversal of the list. */
    method RemoveOwner(ip: nat)
      modifies this`owners
      ensures owners == WithoutOwner(old(owners), ip)
    {
      ghost var seen: seq<PeerId>, rest := [], owners;
      var pos := 0;
      while pos < |owners|
        invariant seen + rest == old(owners)
        invariant owners == WithoutOwner(seen, ip) + rest && pos == |WithoutOwner(seen, ip)|
        decreases |rest|
      {
        WithoutSnoc(seen, rest[0], ip);
        Shift(seen, rest);
        Shift(WithoutOwner(seen, ip), rest);
        if owners[pos].ip == ip {
          owners := Drop(owners, pos);
          assert owners == WithoutOwner(seen, ip) + rest[1..];
        } else {
          pos := pos + 1;
        }
        seen, rest := seen + [rest[0]], rest[1..];
      }
      assert seen + [] == seen && WithoutOwner(seen, ip) + [] == WithoutOwner(seen, ip);
    }
  }

  lemma WithoutSnoc(owners: seq<PeerId>, o: PeerId, ip: nat)
    ensures WithoutOwner(owners + [o], ip) == if o.ip == ip then WithoutOwner(owners, ip) else WithoutOwner(owners, ip) + [o]
  {
    assert (owners + [o])[..|owners|] == owners;
  }

  /** The entry belongs into chain `b`. */
  predicate Placed(e: FileEntry, b: int) {
    Bucket(e.name) == b
  }

  type Chains = seq<seq<FileEntry>>

  /** The chains hold exactly the entries of `entries`: each in the chain of its name, once, and
      under its own name. */
  ghost predicate Indexes(chains: Chains, entries: map<Name, FileEntry>) {
    && |chains| == HASH_SIZE
    && (forall b, e {:trigger Placed(e, b)} :: 0 <= b < |chains| && e in chains[b] ==> Placed(e, b))
    && (forall b, e :: 0 <= b < |chains| && e in chains[b] ==> e.name in entries && entries[e.name] == e)
    && (forall b :: 0 <= b < |chains| ==> Distinct(chains[b]))
    && (forall x :: x in entries ==> entries[x].name == x && Holds(chains, entries[x]))
  }

  ghost predicate Holds(chains: Chains, e: FileEntry) {
    exists b :: 0 <= b < |chains| && e in chains[b]
  }

  lemma InBucket(chains: Chains, entries: map<Name, FileEntry>, x: Name)
    requires Indexes(chains, entries) && x in entries
    ensures entries[x] in chains[Bucket(x)]
  {
    assert Holds(chains, entries[x]);
    var b :| 0 <= b < |chains| && entries[x] in chains[b];
    assert Placed(entries[x], b);
  }

  lemma LinkKeeps(chains: Chains, entries: map<Name, FileEntry>, fe: FileEntry)
    requires Indexes(chains, entries) && fe.name !in entries
    ensures Indexes(chains[Bucket(fe.name) := [fe] + chains[Bucket(fe.name)]], entries[fe.name := fe])
  {
    var b := Bucket(fe.name);
    var chains' := chains[b := [fe] + chains[b]];
    var entries' := entries[fe.name := fe];
    assert forall e :: e in chains'[b] <==> e == fe || e in chains[b];
    forall c, e {:trigger Placed(e, c)} | 0 <= c < |chains'| && e in chains'[c]
      ensures Placed(e, c)
    {}
    assert Distinct(chains[b]) && fe !in chains[b];
    assert Distinct(chains'[b]);
    forall x | x in entries'
      ensures entries'[x].name == x && Holds(chains', entries'[x])
    {
      if x == fe.name {
        assert fe in chains'[b];
      } else {
        assert Holds(chains, entries[x]);
        var c :| 0 <= c < |chains| && entries[x] in chains[c];
        assert entries[x] in chains'[c];
      }
    }
  }

  lemma UnlinkKeeps(chains: Chains, entries: map<Name, FileEntry>, b: nat, i: nat)
    requires Indexes(chains, entries) && b < |chains| && i < |chains[b]|
    ensures chains[b][i].name in entries
    ensures Indexes(chains[b := Drop(chains[b], i)], entries - {chains[b][i].name})
  {
    var gone := chains[b][i];
    assert gone in chains[b];
    var chains' := chains[b := Drop(chains[b], i)];
    var entries' := entries - {gone.name};
    Dropped(chains[b], i);
    forall c, e {:trigger Placed(e, c)} | 0 <= c < |chains'| && e in chains'[c]
      ensures Placed(e, c)
    {}
    forall c, e: FileEntry | 0 <= c < |chains'| && e in chains'[c]
      ensures e.name in entries' && entries'[e.name] == e
    {
      assert e in chains[c];
      assert Placed(gone, b) && Placed(e, c);
    }
    forall x | x in entries'
      ensures entries'[x].name == x && Holds(chains', entries'[x])
    {
      assert Holds(chains, entries[x]);
      var c :| 0 <= c < |chains| && entries[x] in chains[c];
      assert entries[x] in chains'[c];
    }
  }

  lemma ValuesAfterAdd(m: map<Name, FileEntry>, x: Name, e: FileEntry)
    requires x !in m
    ensures m[x := e].Values == m.Values + {e}
    ensures |m[x := e]| == |m| + 1
  {
    var m' := m[x := e];
    assert m'.Keys == m.Keys + {x};
    forall v | v in m.Values
      ensures v in m'.Values
    {
      var y :| y in m && m[y] == v;
      assert y in m' && m'[y] == v;
    }
    assert x in m' && m'[x] == e;
  }

  class FileTable {
    var n: int
    var chains: Chains

    /** The linked entries by name. */
    ghost var entries: map<Name, FileEntry>

    /** How many entries file_table_delete_owner has unlinked so far. */
    ghost var dropped: nat

    ghost predicate Index()
      reads this`chains, this`entries
    {
      Indexes(chains, entries)
    }

    ghost predicate Valid()
      reads this
    {
      Index() && n == |entries| + dropped
    }

    ghost function Linked(): set<FileEntry>
      reads this`entries
    {
      entries.Values
    }

    /** The map that the table stands for. */
    ghost function View(): Table
      reads this`entries, Linked()
    {
      map x | x in entries :: entries[x].State()
    }

    constructor ()
      ensures Valid() && View() == map[] && n == 0 && dropped == 0 && Linked() == {}
    {
      n := 0;
      chains := seq(HASH_SIZE, _ => []);
      entries := map[];
      dropped := 0;
    }

    /** __file_table_search: walk the chain of the name's hash, which is kept in an int. */
    method Search(x: Name) returns (fe: FileEntry?, b: nat, i: nat)
      requires Index()
      ensures fe != null ==> x in entries && entries[x] == fe && fe.name == x
      ensures fe != null ==> b < |chains| && i < |chains[b]| && chains[b][i] == fe
      ensures fe == null <==> x !in entries
    {
      var hash := ElfHash(x);
      var key := ToInt32(hash);
      b := Hash32(key);
      SearchFindsBucket(x);
      i := 0;
      while i < |chains[b]|
        invariant i <= |chains[b]|
        invariant forall j :: 0 <= j < i ==> chains[b][j].name != x
      {
        if chains[b][i].name == x {
          return chains[b][i], b, i;
        }
        i := i + 1;
      }
      if x in entries {
        InBucket(chains, entries, x);
      }
      return null, b, i;
    }

    /** file_table_find */
    method Find(te: TransEntry) returns (fe: FileEntry?)
      requires Index()
      ensures fe == null <==> te.name !in View()
      ensures fe != null ==> fe in Linked() && fe.name == te.name && View()[te.name] == fe.State()
    {
      var b, i;
      fe, b, i := Search(te.name);
    }

    /** hash_add of a new entry: prepend it to the chain of its name. */
    method Link(fe: FileEntry)
      requires Index() && fe.name !in entries
      modifies this`chains, this`entries
      ensures Index() && entries == old(entries)[fe.name := fe]
      ensures |entries| == |old(entries)| + 1 && Linked() == old(Linked()) + {fe}
    {
      ValuesAfterAdd(entries, fe.name, fe);
      LinkKeeps(chains, entries, fe);
      var hash := ElfHash(fe.name);
      var b := Hash32(hash);
      chains := chains[b := [fe] + chains[b]];
      entries := entries[fe.name := fe];
    }

    /** file_entry_alloc, file_entry_fill_from and file_entry_add */
    method Insert(te: TransEntry) returns (fe: FileEntry)
      requires Valid() && te.name !in entries
      modifies this
      ensures Valid() && dropped == old(dropped)
      ensures View() == old(View())[te.name := FromTrans(te)]
      ensures entries == old(entries)[te.name := fe] && fe.name == te.name && fresh(fe)
      ensures Linked() == old(Linked()) + {fe}
    {
      fe := new FileEntry(te);
      Link(fe);
      n := n + 1;
      Inserted(fe);
    }

    /** Linking an entry changes no other. */
    twostate lemma Inserted(new fe: FileEntry)
      requires entries == old(entries)[fe.name := fe]
      requires forall e :: e in old(Linked()) ==> e.State() == old(e.State())
      ensures View() == old(View())[fe.name := fe.State()]
    {
      assert forall x :: x in old(entries) ==> old(entries)[x] in old(Linked());
    }

    /** Unlinking an entry changes no other. */
    twostate lemma Deleted(x: Name)
      requires entries == old(entries) - {x}
      requires forall e :: e in old(Linked()) ==> e.State() == old(e.State())
      ensures View() == TableDelete(old(View()), x)
    {
      assert forall y :: y in old(entries) ==> old(entries)[y] in old(Linked());
    }

    /** file_entry_update of a linked entry */
    method UpdateEntry(fe: FileEntry, te: TransEntry)
      requires Index() && fe.name in entries && entries[fe.name] == fe
      modifies fe
      ensures View() == old(View())[fe.name := Merge(old(View())[fe.name], te)]
    {
      var ret := fe.Update(te);
      Changed(fe);
    }

    /** After a change to one linked entry the table stands for the old map with that entry. */
    twostate lemma Changed(fe: FileEntry)
      requires Index() && unchanged(this) && fe.name in entries && entries[fe.name] == fe
      requires forall e :: e in Linked() && e != fe ==> e.State() == old(e.State())
      ensures View() == old(View())[fe.name := fe.State()]
    {
      assert forall x :: x in entries ==> entries[x] in Linked() && entries[x].name == x;
    }

    /** file_table_add */
    method Add(te: TransEntry) returns (fe: FileEntry)
      requires Valid()
      modifies this, Linked()
      ensures Valid() && dropped == old(dropped)
      ensures View() == TableAdd(old(View()), te)
      ensures te.name in entries && entries[te.name] == fe && fe.name == te.name
      ensures old(Linked()) <= Linked() && fresh(Linked() - old(Linked()))
    {
      var found, b, i := Search(te.name);
      if found == null {
        fe := Insert(te);
      } else {
        fe := found;
        UpdateEntry(fe, te);
      }
    }

    /** file_table_update */
    method Update(te: TransEntry) returns (ret: int)
      requires Valid()
      modifies Linked()
      ensures Valid()
      ensures View() == TableUpdate(old(View()), te)
      ensures ret == if te.name in old(View()) then 0 else -1
    {
      var fe, b, i := Search(te.name);
      ret := -1;
      if fe != null {
        UpdateEntry(fe, te);
        ret := 0;
      }
    }

    /** hash_del of the entry at its place in its chain. */
    method Unlink(b: nat, i: nat)
      requires Index() && b < |chains| && i < |chains[b]|
      modifies this`chains, this`entries
      ensures Index() && entries == old(entries) - {old(chains[b][i]).name}
      ensures chains == old(chains)[b := Drop(old(chains[b]), i)]
      ensures |entries| == |old(entries)| - 1
      ensures Linked() <= old(Linked())
    {
      UnlinkKeeps(chains, entries, b, i);
      ghost var gone := chains[b][i];
      ghost var left := entries - {gone.name};
      assert entries == left[gone.name := entries[gone.name]];
      ValuesAfterAdd(left, gone.name, entries[gone.name]);
      chains := chains[b := Drop(chains[b], i)];
      entries := left;
    }

    /** file_entry_delete of the entry at its place in its chain */
    method DeleteEntry(b: nat, i: nat)
      requires Valid() && b < |chains| && i < |chains[b]|
      modifies this
      ensures Valid() && dropped == old(dropped)
      ensures chains == old(chains)[b := Drop(old(chains[b]), i)]
      ensures View() == TableDelete(old(View()), old(chains[b][i]).name)
      ensures Linked() <= old(Linked())
    {
      ghost var x := chains[b][i].name;
      Unlink(b, i);
      n := n - 1;
      Deleted(x);
    }

    /** file_table_delete */
    method Delete(te: TransEntry) returns (ret: int)
      requires Valid()
      modifies this
      ensures Valid() && dropped == old(dropped)
      ensures View() == TableDelete(old(View()), te.name)
      ensures ret == if te.name in old(View()) then 0 else -1
      ensures Linked() <= old(Linked())
    {
      var fe, b, i := Search(te.name);
      if fe == null {
        return -1;
      }
      DeleteEntry(b, i);
      return 0;
    }

    /** file_table_destroy */
    method Destroy()
      requires Valid()
      modifies this
      ensures Valid() && View() == map[] && n == dropped == old(dropped)
    {
      var b := 0;
      while b < |chains|
        invariant b <= |chains| == HASH_SIZE && Valid() && dropped == old(dropped)
        invariant forall c :: 0 <= c < b ==> chains[c] == []
        decreases |chains| - b, if b < |chains| then |chains[b]| else 0
      {
        if chains[b] == [] {
          b := b + 1;
        } else {
          DeleteEntry(b, 0);
        }
      }
      AllEmpty(chains, entries);
    }

    /** `es` lists the entries before place (b, i) as they are. */
    ghost predicate Visited(es: seq<TransEntry>, b: nat, i: nat)
      reads this`chains, this`entries, Linked()
    {
      && DistinctNames(es) && Passed(chains, Names(es), b, i)
      && forall k :: 0 <= k < |es| ==>
           es[k].name in entries && es[k] == ToTrans(es[k].name, entries[es[k].name].State(), OpNone)
    }

    lemma VisitOne(es: seq<TransEntry>, te: TransEntry, b: nat, i: nat)
      requires Index() && b < |chains| && i < |chains[b]| && Visited(es, b, i)
      requires te == ToTrans(chains[b][i].name, chains[b][i].State(), OpNone)
      ensures Visited(es + [te], b, i + 1)
    {
      EnumerateOne(chains, entries, es, te, b, i);
      forall k | 0 <= k < |es + [te]|
        ensures var e := (es + [te])[k];
                e.name in entries && e == ToTrans(e.name, entries[e.name].State(), OpNone)
      {
        if k < |es| { assert (es + [te])[k] == es[k]; }
      }
    }

    lemma VisitNext(es: seq<TransEntry>, b: nat)
      requires b < |chains| && Visited(es, b, |chains[b]|)
      ensures Visited(es, b + 1, 0)
    {}

    lemma VisitedAll(es: seq<TransEntry>)
      requires Index() && Visited(es, |chains|, 0)
      ensures Enumerates(View(), es)
    {
      Enumerated(chains, entries, View(), es);
    }

    /** trans_table_fill_from: the whole table, in the order of the chains */
    method FillFrom() returns (tft: seq<TransEntry>)
      requires Valid()
      ensures Enumerates(View(), tft)
    {
      tft := [];
      for b := 0 to |chains|
        invariant Visited(tft, b, 0)
      {
        for i := 0 to |chains[b]|
          invariant Visited(tft, b, i)
        {
          var te := chains[b][i].Export();
          VisitOne(tft, te, b, i);
          tft := tft + [te];
        }
        VisitNext(tft, b);
      }
      VisitedAll(tft);
    }

    /** hash_del and free without counting the entry off, as file_table_delete_owner does */
    method DropEntry(b: nat, i: nat)
      requires Valid() && b < |chains| && i < |chains[b]|
      modifies this
      ensures Valid() && n == old(n)
      ensures chains == old(chains)[b := Drop(old(chains[b]), i)]
      ensures View() == TableDelete(old(View()), old(chains[b][i]).name)
      ensures Linked() <= old(Linked())
    {
      ghost var x := chains[b][i].name;
      Unlink(b, i);
      dropped := dropped + 1;
      Deleted(x);
    }

    /** What file_table_delete_owner does to one entry: an entry left without owners is dropped. */
    method DropOwner(b: nat, i: nat, ip: nat) returns (unlinked: bool)
      requires Valid() && b < |chains| && i < |chains[b]|
      modifies this, chains[b][i]
      ensures Valid() && n == old(n)
      ensures View() == Cleaned(old(View()), ip, {old(chains[b][i].name)})
      ensures chains == if unlinked then old(chains)[b := Drop(old(chains[b]), i)] else old(chains)
      ensures Linked() <= old(Linked())
    {
      var fe := chains[b][i];
      assert fe in chains[b];
      ghost var t := View();
      fe.RemoveOwner(ip);
      Changed(fe);
      unlinked := fe.owners == [];
      CleanedOne(t, ip, fe.name);
      if unlinked {
        DropEntry(b, i);
      }
    }

    /** file_table_delete_owner: entries are unlinked while the table is traversed, yet the outcome
        is that of removing the ip everywhere at once. `n` keeps counting the dropped entries. */
    method DeleteOwner(ip: nat)
      requires Valid()
      modifies this, Linked()
      ensures Valid() && n == old(n)
      ensures View() == Entries.DeleteOwner(old(View()), ip)
      ensures Linked() <= old(Linked())
      ensures dropped - old(dropped) == |old(entries)| - |entries|
    {
      ghost var visited: set<Name> := {};
      assert old(View()) == Cleaned(old(View()), ip, visited);
      var b, i := 0, 0;
      while b < |chains|
        invariant b <= |chains| == HASH_SIZE && Valid() && n == old(n)
        invariant i <= if b < |chains| then |chains[b]| else 0
        invariant Linked() <= old(Linked())
        invariant View() == Cleaned(old(View()), ip, visited)
        invariant Passed(chains, visited, b, i)
        decreases |chains| - b, if b < |chains| then |chains[b]| - i else 0
      {
        if i == |chains[b]| {
          b, i := b + 1, 0;
        } else {
          ghost var x := chains[b][i].name;
          PassOne(chains, entries, visited, b, i);
          CleanOne(old(View()), ip, visited, x);
          var unlinked := DropOwner(b, i, ip);
          visited := visited + {x};
          if !unlinked {
            i := i + 1;
          }
        }
      }
      CleanAll(chains, entries, visited, old(View()), View(), ip);
    }
  }

  /** Every linked entry was visited, with its state in `t`. */
  lemma Enumerated(chains: Chains, entries: map<Name, FileEntry>, t: Table, es: seq<TransEntry>)
    requires Indexes(chains, entries) && Passed(chains, Names(es), |chains|, 0)
    requires DistinctNames(es) && entries.Keys == t.Keys
    requires forall k :: 0 <= k < |es| ==> es[k].name in t && es[k] == ToTrans(es[k].name, t[es[k].name], OpNone)
    ensures Enumerates(t, es)
  {
    forall x | x in t
      ensures x in Names(es)
    {
      InBucket(chains, entries, x);
      var j :| 0 <= j < |chains[Bucket(x)]| && chains[Bucket(x)][j] == entries[x];
      assert chains[Bucket(x)][j].name in Names(es);
    }
  }

  /** One more linked entry was visited. */
  lemma EnumerateOne(chains: Chains, entries: map<Name, FileEntry>, es: seq<TransEntry>, te: TransEntry, b: nat, i: nat)
    requires Indexes(chains, entries) && b < |chains| && i < |chains[b]| && Passed(chains, Names(es), b, i)
    requires te.name == chains[b][i].name && DistinctNames(es)
    ensures te.name in entries && entries[te.name] == chains[b][i]
    ensures Passed(chains, Names(es + [te]), b, i + 1) && DistinctNames(es + [te])
  {
    assert chains[b][i] in chains[b];
    PassOne(chains, entries, Names(es), b, i);
    NamesSnoc(es, te);
    assert forall k :: 0 <= k < |es| ==> es[k].name in Names(es);
  }

  /** `t` with the owner `ip` taken out of the entries named in `names`. */
  ghost function Cleaned(t: Table, ip: nat, names: set<Name>): Table {
    map x | x in t && (x in names ==> WithoutOwner(t[x].owners, ip) != []) ::
      if x in names then t[x].(owners := WithoutOwner(t[x].owners, ip)) else t[x]
  }

  /** The traversal has visited exactly the linked entries before place (b, i). */
  ghost predicate Passed(chains: Chains, visited: set<Name>, b: nat, i: nat) {
    forall c, j :: 0 <= c < |chains| && 0 <= j < |chains[c]| ==>
      (chains[c][j].name in visited <==> c < b || (c == b && j < i))
  }

  lemma PlaceUnique(chains: Chains, entries: map<Name, FileEntry>, b: nat, i: nat, c: nat, j: nat)
    requires Indexes(chains, entries)
    requires b < |chains| && i < |chains[b]| && c < |chains| && j < |chains[c]|
    requires chains[b][i].name == chains[c][j].name
    ensures b == c && i == j
  {
    assert chains[b][i] in chains[b] && chains[c][j] in chains[c];
    assert Placed(chains[b][i], b) && Placed(chains[c][j], c);
  }

  lemma PassOne(chains: Chains, entries: map<Name, FileEntry>, visited: set<Name>, b: nat, i: nat)
    requires Indexes(chains, entries) && b < |chains| && i < |chains[b]| && Passed(chains, visited, b, i)
    ensures chains[b][i].name !in visited
    ensures Passed(chains, visited + {chains[b][i].name}, b, i + 1)
    ensures Passed(chains[b := Drop(chains[b], i)], visited + {chains[b][i].name}, b, i)
  {
    var x := chains[b][i].name;
    var rest: Chains := chains[b := Drop(chains[b], i)];
    forall c, j | 0 <= c < |chains| && 0 <= j < |chains[c]|
      ensures chains[c][j].name == x <==> c == b && j == i
    {
      if chains[c][j].name == x { PlaceUnique(chains, entries, b, i, c, j); }
    }
    forall c, j | 0 <= c < |rest| && 0 <= j < |rest[c]|
      ensures rest[c][j].name in visited + {x} <==> c < b || (c == b && j < i)
    {
      assert rest[c][j] == chains[c][if c == b && j >= i then j + 1 else j];
    }
  }

  lemma CleanedOne(t: Table, ip: nat, x: Name)
    requires x in t
    ensures var left := WithoutOwner(t[x].owners, ip);
            Cleaned(t, ip, {x}) ==
            if left == [] then TableDelete(t[x := t[x].(owners := left)], x) else t[x := t[x].(owners := left)]
  {}

  lemma CleanOne(t: Table, ip: nat, names: set<Name>, x: Name)
    requires x !in names
    ensures Cleaned(Cleaned(t, ip, names), ip, {x}) == Cleaned(t, ip, names + {x})
  {}

  lemma CleanAll(chains: Chains, entries: map<Name, FileEntry>, visited: set<Name>, t: Table, t': Table, ip: nat)
    requires Indexes(chains, entries) && Passed(chains, visited, |chains|, 0)
    requires t' == Cleaned(t, ip, visited) && t'.Keys == entries.Keys
    ensures t' == Entries.DeleteOwner(t, ip)
  {
    forall x | x in t
      ensures x in visited || x !in t'
    {
      if x in entries {
        InBucket(chains, entries, x);
        var j :| 0 <= j < |chains[Bucket(x)]| && chains[Bucket(x)][j] == entries[x];
        assert chains[Bucket(x)][j].name in visited;
      }
    }
  }

  lemma AllEmpty(chains: Chains, entries: map<Name, FileEntry>)
    requires Indexes(chains, entries)
    requires forall b :: 0 <= b < |chains| ==> chains[b] == []
    ensures entries == map[]
  {
    forall x
      ensures x !in entries
    {
      if x in entries {
        InBucket(chains, entries, x);
      }
    }
  }
}
