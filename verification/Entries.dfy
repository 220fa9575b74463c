/** Entries as they travel between tracker and peers, and what a file table does with one of
    them, on values: owner lists deduplicated by ip, the last-writer-wins merge of an entry,
    and the table as a map from name to entry. */
module Entries {

  type Byte = b: int | 0 <= b < 256

  /** A C string without its terminator. */
  type Name = seq<Byte>

  datatype Option<+T> = None | Some(value: T)

  datatype PeerId = PeerId(ip: nat, port: nat)

  datatype FileType = Regular | Directory | SoftLink

  datatype Op = OpNone | OpAdd | OpDelete | OpModify

  datatype TransEntry = TransEntry(name: Name, timestamp: nat, op: Op, ftype: FileType, owners: seq<PeerId>)

  /** The part of a file entry that changes; its name is its key in the table. */
  datatype Entry = Entry(timestamp: nat, ftype: FileType, owners: seq<PeerId>)

  type Table = map<Name, Entry>

  /** The owner slots of an entry that travels. */
  const MAX_PEER_ENTRIES := 16

  function ToTrans(name: Name, e: Entry, op: Op): TransEntry {
    TransEntry(name, e.timestamp, op, e.ftype, e.owners)
  }

  // ---------- C strings ----------

  /** A C string: everything before the first zero byte. */
  function CString(s: seq<Byte>): seq<Byte> {
    if s == [] || s[0] == 0 then [] else [s[0]] + CString(s[1..])
  }

  lemma {:induction false} CStringRoundTrip(name: seq<Byte>, rest: seq<Byte>)
    requires forall i :: 0 <= i < |name| ==> name[i] != 0
    requires rest != [] && rest[0] == 0
    ensures CString(name + rest) == name
  {
    if name == [] {
      assert name + rest == rest;
    } else {
      assert (name + rest)[1..] == name[1..] + rest;
      CStringRoundTrip(name[1..], rest);
    }
  }

  // ---------- owner lists ----------

  predicate HasIp(owners: seq<PeerId>, ip: nat) {
    exists i :: 0 <= i < |owners| && owners[i].ip == ip
  }

  /** The ips of an owner list. */
  function Ips(owners: seq<PeerId>): set<nat> {
    set i | 0 <= i < |owners| :: owners[i].ip
  }

  ghost predicate DistinctIps(owners: seq<PeerId>) {
    forall i, j :: 0 <= i < j < |owners| ==> owners[i].ip != owners[j].ip
  }

  /** `more` appended to `owners`, one by one, skipping an ip that is already there. */
  function AddOwners(owners: seq<PeerId>, more: seq<PeerId>): (r: seq<PeerId>)
    decreases |more|
  {
    if more == [] then owners
    else AddOwners(if HasIp(owners, more[0].ip) then owners else owners + [more[0]], more[1..])
  }

  /** The first owner listed with each ip, in the order of the list. */
  function FirstByIp(owners: seq<PeerId>): seq<PeerId> {
    if owners == [] then []
    else
      var rest, last := owners[..|owners| - 1], owners[|owners| - 1];
      if HasIp(rest, last.ip) then FirstByIp(rest) else FirstByIp(rest) + [last]
  }

  lemma {:induction false} AddOwnersConcat(owners: seq<PeerId>, a: seq<PeerId>, b: seq<PeerId>)
    ensures AddOwners(AddOwners(owners, a), b) == AddOwners(owners, a + b)
    decreases |a|
  {
    if a == [] {
      assert a + b == b;
    } else {
      assert (a + b)[0] == a[0] && (a + b)[1..] == a[1..] + b;
      AddOwnersConcat(if HasIp(owners, a[0].ip) then owners else owners + [a[0]], a[1..], b);
    }
  }

  lemma HasIpIff(owners: seq<PeerId>, ip: nat)
    ensures HasIp(owners, ip) <==> ip in Ips(owners)
  {}

  /** Adding owners loses none and leaves none out. */
  lemma {:induction false} AddOwnersHasIp(owners: seq<PeerId>, more: seq<PeerId>, ip: nat)
    ensures HasIp(AddOwners(owners, more), ip) <==> HasIp(owners, ip) || HasIp(more, ip)
    decreases |more|
  {
    if more != [] {
      var first, others := more[0], more[1..];
      var next := if HasIp(owners, first.ip) then owners else owners + [first];
      AddOwnersHasIp(next, others, ip);
      assert HasIp(next, ip) <==> HasIp(owners, ip) || first.ip == ip by {
        HasIpSnoc(owners, first, ip);
      }
      HasIpCons(more, ip);
    }
  }

  lemma HasIpSnoc(owners: seq<PeerId>, o: PeerId, ip: nat)
    ensures HasIp(owners + [o], ip) <==> HasIp(owners, ip) || o.ip == ip
  {
    assert (owners + [o])[|owners|] == o;
    if HasIp(owners, ip) {
      var i :| 0 <= i < |owners| && owners[i].ip == ip;
      assert (owners + [o])[i].ip == ip;
    }
  }

  lemma HasIpCons(owners: seq<PeerId>, ip: nat)
    requires owners != []
    ensures HasIp(owners, ip) <==> owners[0].ip == ip || HasIp(owners[1..], ip)
  {
    var others := owners[1..];
    if HasIp(others, ip) {
      var i :| 0 <= i < |others| && others[i].ip == ip;
      assert owners[i + 1].ip == ip;
    }
    if HasIp(owners, ip) && owners[0].ip != ip {
      var i :| 0 <= i < |owners| && owners[i].ip == ip;
      assert others[i - 1].ip == ip;
    }
  }

  lemma IpsSnoc(owners: seq<PeerId>, o: PeerId)
    ensures Ips(owners + [o]) == Ips(owners) + {o.ip}
  {
    var all := owners + [o];
    assert forall i :: 0 <= i < |owners| ==> all[i] == owners[i];
    assert all[|owners|] == o;
    forall ip | ip in Ips(owners) + {o.ip}
      ensures ip in Ips(all)
    {
      if ip in Ips(owners) {
        var i :| 0 <= i < |owners| && owners[i].ip == ip;
        assert all[i].ip == ip;
      }
    }
  }

  /** Adding owners keeps ips distinct and yields the union of the ips. */
  lemma {:induction false} AddOwnersIps(owners: seq<PeerId>, more: seq<PeerId>)
    requires DistinctIps(owners)
    ensures DistinctIps(AddOwners(owners, more))
    ensures Ips(AddOwners(owners, more)) == Ips(owners) + Ips(more)
    ensures owners <= AddOwners(owners, more)
    decreases |more|
  {
    if more == [] {
    } else {
      var next := if HasIp(owners, more[0].ip) then owners else owners + [more[0]];
      AddOwnersIps(next, more[1..]);
      HasIpIff(owners, more[0].ip);
      IpsSnoc(owners, more[0]);
      assert more == [more[0]] + more[1..];
      assert Ips(more) == {more[0].ip} + Ips(more[1..]) by {
        forall ip | ip in Ips(more[1..])
          ensures ip in Ips(more)
        {
          var i :| 0 <= i < |more[1..]| && more[1..][i].ip == ip;
          assert more[i + 1].ip == ip;
        }
        forall ip | ip in Ips(more)
          ensures ip == more[0].ip || ip in Ips(more[1..])
        {
          var i :| 0 <= i < |more| && more[i].ip == ip;
          if i > 0 { assert more[1..][i - 1].ip == ip; }
        }
      }
    }
  }

  /** Building an owner list from nothing keeps exactly the first owner of each ip. */
  lemma {:induction false} AddOwnersIsFirstByIp(owners: seq<PeerId>)
    ensures AddOwners([], owners) == FirstByIp(owners)
  {
    if owners == [] {
    } else {
      var rest, last := owners[..|owners| - 1], owners[|owners| - 1];
      assert owners == rest + [last];
      AddOwnersIsFirstByIp(rest);
      AddOwnersConcat([], rest, [last]);
      AddOwnersIps([], rest);
      HasIpIff(rest, last.ip);
      HasIpIff(FirstByIp(rest), last.ip);
      assert Ips([]) == {};
      assert [last][1..] == [];
    }
  }

  /** A list whose ips are already distinct is kept as it is. */
  lemma {:induction false} AddOwnersDistinct(owners: seq<PeerId>)
    requires DistinctIps(owners)
    ensures AddOwners([], owners) == owners
  {
    AddOwnersIsFirstByIp(owners);
    FirstByIpDistinct(owners);
  }

  lemma {:induction false} FirstByIpDistinct(owners: seq<PeerId>)
    requires DistinctIps(owners)
    ensures FirstByIp(owners) == owners
  {
    if owners != [] {
      FirstByIpDistinct(owners[..|owners| - 1]);
    }
  }

  // ---------- one entry ----------

  /** A file entry filled from a received one. */
  function FromTrans(te: TransEntry): Entry {
    Entry(te.timestamp, te.ftype, AddOwners([], te.owners))
  }

  /** Last writer wins: a newer entry replaces timestamp and owners, an equally old one adds its
      owners, an older one changes nothing. The file type is never touched. */
  function Merge(e: Entry, te: TransEntry): Entry {
    if te.timestamp > e.timestamp then Entry(te.timestamp, e.ftype, AddOwners([], te.owners))
    else if te.timestamp == e.timestamp then e.(owners := AddOwners(e.owners, te.owners))
    else e
  }

  // ---------- tables ----------

  function TableAdd(t: Table, te: TransEntry): Table {
    t[te.name := if te.name in t then Merge(t[te.name], te) else FromTrans(te)]
  }

  function TableUpdate(t: Table, te: TransEntry): Table {
    if te.name in t then t[te.name := Merge(t[te.name], te)] else t
  }

  function TableDelete(t: Table, name: Name): Table {
    t - {name}
  }

  /** Every entry of `t` without the owner `ip`; the entries left without owners are gone. */
  function WithoutOwner(owners: seq<PeerId>, ip: nat): (r: seq<PeerId>)
    ensures forall o :: o in r <==> o in owners && o.ip != ip
    ensures |r| <= |owners|
  {
    if owners == [] then []
    else if owners[|owners| - 1].ip == ip then WithoutOwner(owners[..|owners| - 1], ip)
    else WithoutOwner(owners[..|owners| - 1], ip) + [owners[|owners| - 1]]
  }

  /** The other owners stay as they are, in their order. */
  lemma {:induction false} WithoutConcat(a: seq<PeerId>, b: seq<PeerId>, ip: nat)
    ensures WithoutOwner(a + b, ip) == WithoutOwner(a, ip) + WithoutOwner(b, ip)
    decreases |b|
  {
    if b == [] {
      assert a + b == a;
    } else {
      assert (a + b)[..|a + b| - 1] == a + b[..|b| - 1];
      WithoutConcat(a, b[..|b| - 1], ip);
    }
  }

  lemma WithoutOne(o: PeerId, ip: nat)
    ensures WithoutOwner([o], ip) == if o.ip == ip then [] else [o]
  {
    assert [o][..0] == [] && WithoutOwner([], ip) == [];
  }

  lemma {:induction false} WithoutAbsent(owners: seq<PeerId>, ip: nat)
    requires forall i :: 0 <= i < |owners| ==> owners[i].ip != ip
    ensures WithoutOwner(owners, ip) == owners
  {
    if owners != [] {
      var rest, last := owners[..|owners| - 1], owners[|owners| - 1];
      WithoutAbsent(rest, ip);
      assert WithoutOwner(owners, ip) == rest + [last];
      assert owners == rest + [last];
    }
  }

  function DeleteOwner(t: Table, ip: nat): Table {
    map x | x in t && WithoutOwner(t[x].owners, ip) != [] :: t[x].(owners := WithoutOwner(t[x].owners, ip))
  }

  /** The timestamp of a name, or -1 when the table does not hold it. */
  function Ts(t: Table, x: Name): int {
    if x in t then t[x].timestamp else -1
  }

  function Max(a: int, b: int): int {
    if a < b then b else a
  }

  /** A table after adding every entry of a sequence in order. */
  function AddAll(t: Table, es: seq<TransEntry>): Table {
    if es == [] then t else TableAdd(AddAll(t, es[..|es| - 1]), es[|es| - 1])
  }

  /** The greatest timestamp listed for a name, or -1 when it is not listed. */
  function ListTs(es: seq<TransEntry>, x: Name): (r: int)
    ensures r >= -1
  {
    if es == [] then -1
    else
      var r := ListTs(es[..|es| - 1], x);
      if es[|es| - 1].name == x then Max(r, es[|es| - 1].timestamp) else r
  }

  /** ListTs is -1 exactly for a name that is not listed, and otherwise the greatest timestamp
      among its listed entries. */
  lemma {:induction false} ListTsMeans(es: seq<TransEntry>, x: Name)
    ensures forall i :: 0 <= i < |es| && es[i].name == x ==> es[i].timestamp <= ListTs(es, x)
    ensures ListTs(es, x) >= 0 ==> exists i :: 0 <= i < |es| && es[i].name == x && es[i].timestamp == ListTs(es, x)
  {
    if es != [] {
      var rest, last := es[..|es| - 1], es[|es| - 1];
      ListTsMeans(rest, x);
      assert forall i :: 0 <= i < |rest| ==> rest[i] == es[i];
      if last.name == x && last.timestamp >= ListTs(rest, x) {
        assert es[|es| - 1].timestamp == ListTs(es, x);
      } else if ListTs(rest, x) >= 0 {
        var i :| 0 <= i < |rest| && rest[i].name == x && rest[i].timestamp == ListTs(rest, x);
        assert es[i].timestamp == ListTs(es, x);
      }
    }
  }

  /** The owners of every listed entry for `x` with timestamp `ts`, in order of arrival. */
  function OwnersAt(es: seq<TransEntry>, x: Name, ts: int): seq<PeerId> {
    if es == [] then []
    else
      OwnersAt(es[..|es| - 1], x, ts)
      + (if es[|es| - 1].name == x && es[|es| - 1].timestamp == ts then es[|es| - 1].owners else [])
  }

  lemma {:induction false} OwnersAtAbsent(es: seq<TransEntry>, x: Name, ts: int)
    requires ts > ListTs(es, x)
    ensures OwnersAt(es, x, ts) == []
  {
    if es != [] {
      OwnersAtAbsent(es[..|es| - 1], x, ts);
    }
  }

  /** What a table that started empty holds for `x` after any history of entries: the greatest
      timestamp received, and the owners of the entries with that timestamp, in order of arrival
      and once per ip. */
  lemma {:induction false} HistoryEntry(es: seq<TransEntry>, x: Name)
    ensures Ts(AddAll(map[], es), x) == ListTs(es, x)
    ensures x in AddAll(map[], es) ==> AddAll(map[], es)[x].owners == FirstByIp(OwnersAt(es, x, ListTs(es, x)))
  {
    if es != [] {
      var rest, last := es[..|es| - 1], es[|es| - 1];
      assert es == rest + [last];
      HistoryEntry(rest, x);
      var r := ListTs(rest, x);
      if last.name == x {
        AddOwnersIsFirstByIp(last.owners);
        if last.timestamp > r {
          OwnersAtAbsent(rest, x, last.timestamp);
          assert OwnersAt(es, x, last.timestamp) == last.owners;
        } else if last.timestamp == r {
          var prior := OwnersAt(rest, x, r);
          AddOwnersIsFirstByIp(prior);
          AddOwnersConcat([], prior, last.owners);
          AddOwnersIsFirstByIp(prior + last.owners);
          assert OwnersAt(es, x, r) == prior + last.owners;
        } else {
          assert OwnersAt(es, x, r) == OwnersAt(rest, x, r);
        }
      } else {
        assert OwnersAt(es, x, r) == OwnersAt(rest, x, r);
      }
    }
  }

  lemma {:induction false} OwnersAtIps(es: seq<TransEntry>, x: Name, ts: int, ip: nat)
    ensures ip in Ips(OwnersAt(es, x, ts)) <==>
            exists te :: te in es && te.name == x && te.timestamp == ts && ip in Ips(te.owners)
  {
    if es != [] {
      var rest, last := es[..|es| - 1], es[|es| - 1];
      assert es == rest + [last];
      OwnersAtIps(rest, x, ts, ip);
      var a := OwnersAt(rest, x, ts);
      var b := if last.name == x && last.timestamp == ts then last.owners else [];
      IpsConcat(a, b);
      assert last in es;
      assert forall te :: te in es <==> te in rest || te == last;
      assert Ips([]) == {};
    }
  }

  lemma IpsConcat(a: seq<PeerId>, b: seq<PeerId>)
    ensures Ips(a + b) == Ips(a) + Ips(b)
  {
    forall ip | ip in Ips(a) + Ips(b)
      ensures ip in Ips(a + b)
    {
      if ip in Ips(a) {
        var i :| 0 <= i < |a| && a[i].ip == ip;
        assert (a + b)[i].ip == ip;
      } else {
        var i :| 0 <= i < |b| && b[i].ip == ip;
        assert (a + b)[|a| + i].ip == ip;
      }
    }
  }

  /** Two histories that are permutations of each other leave the same names, the same timestamps
      and the same owner ips. */
  lemma {:induction false} HistoryOrderIrrelevant(es: seq<TransEntry>, fs: seq<TransEntry>, x: Name)
    requires multiset(es) == multiset(fs)
    ensures Ts(AddAll(map[], es), x) == Ts(AddAll(map[], fs), x)
    ensures x in AddAll(map[], es) ==>
              Ips(AddAll(map[], es)[x].owners) == Ips(AddAll(map[], fs)[x].owners)
  {
    HistoryEntry(es, x);
    HistoryEntry(fs, x);
    SameMembers(es, fs);
    var r := ListTs(es, x);
    ListTsByMembers(es, fs, x);
    ListTsByMembers(fs, es, x);
    if r >= 0 {
      var a, b := OwnersAt(es, x, r), OwnersAt(fs, x, r);
      forall ip: nat
        ensures ip in Ips(a) <==> ip in Ips(b)
      {
        OwnersAtIps(es, x, r, ip);
        OwnersAtIps(fs, x, r, ip);
      }
      AddOwnersIsFirstByIp(a);
      AddOwnersIsFirstByIp(b);
      AddOwnersIps([], a);
      AddOwnersIps([], b);
    }
  }

  lemma SameMembers(es: seq<TransEntry>, fs: seq<TransEntry>)
    requires multiset(es) == multiset(fs)
    ensures forall te :: te in es <==> te in fs
  {
    forall te
      ensures te in es <==> te in fs
    {
      assert te in es <==> te in multiset(es);
      assert te in fs <==> te in multiset(fs);
    }
  }

  lemma ListTsByMembers(es: seq<TransEntry>, fs: seq<TransEntry>, x: Name)
    requires forall te :: te in es ==> te in fs
    ensures ListTs(es, x) <= ListTs(fs, x)
  {
    ListTsMeans(es, x);
    ListTsMeans(fs, x);
    if ListTs(es, x) >= 0 {
      var i :| 0 <= i < |es| && es[i].name == x && es[i].timestamp == ListTs(es, x);
      assert es[i] in fs;
    }
  }

  // ---------- exporting a table and importing it again ----------

  ghost predicate DistinctNames(es: seq<TransEntry>) {
    forall i, j :: 0 <= i < j < |es| ==> es[i].name != es[j].name
  }

  function Names(es: seq<TransEntry>): set<Name> {
    set i | 0 <= i < |es| :: es[i].name
  }

  /** `es` lists the table `t`, every entry once, in some order. */
  ghost predicate Enumerates(t: Table, es: seq<TransEntry>) {
    && DistinctNames(es)
    && Names(es) == t.Keys
    && forall i :: 0 <= i < |es| ==> es[i].name in t && es[i] == ToTrans(es[i].name, t[es[i].name], OpNone)
  }

  ghost predicate OwnersDistinct(t: Table) {
    forall x :: x in t ==> DistinctIps(t[x].owners)
  }

  /** Adding the exported entries to an empty table, in whatever order they were listed, rebuilds
      the table: names, timestamps, types and owner sequences. */
  lemma {:induction false} ExportImport(t: Table, es: seq<TransEntry>)
    requires OwnersDistinct(t)
    requires Enumerates(t, es)
    ensures AddAll(map[], es) == t
  {
    forall k | 0 <= k < |es|
      ensures DistinctIps(es[k].owners)
    {}
    ImportPrefix(es);
    assert AddAll(map[], es).Keys == t.Keys;
    forall x | x in t
      ensures AddAll(map[], es)[x] == t[x]
    {
      var i :| 0 <= i < |es| && es[i].name == x;
    }
  }

  lemma {:induction false} ImportPrefix(es: seq<TransEntry>)
    requires DistinctNames(es)
    requires forall k :: 0 <= k < |es| ==> DistinctIps(es[k].owners)
    ensures AddAll(map[], es).Keys == Names(es)
    ensures forall i :: 0 <= i < |es| ==>
              AddAll(map[], es)[es[i].name] == Entry(es[i].timestamp, es[i].ftype, es[i].owners)
  {
    if es != [] {
      var rest, last := es[..|es| - 1], es[|es| - 1];
      assert last.name !in Names(rest);
      ImportPrefix(rest);
      assert es == rest + [last];
      NamesSnoc(rest, last);
      ImportOne(AddAll(map[], rest), last);
      forall i | 0 <= i < |es|
        ensures es[i].name in AddAll(map[], es)
        ensures AddAll(map[], es)[es[i].name] == Entry(es[i].timestamp, es[i].ftype, es[i].owners)
      {
        if i < |rest| { assert rest[i] == es[i] && rest[i].name in Names(rest); }
      }
    }
  }

  lemma ImportOne(t: Table, te: TransEntry)
    requires te.name !in t && DistinctIps(te.owners)
    ensures TableAdd(t, te) == t[te.name := Entry(te.timestamp, te.ftype, te.owners)]
  {
    AddOwnersDistinct(te.owners);
  }

  lemma NamesSnoc(es: seq<TransEntry>, te: TransEntry)
    ensures Names(es + [te]) == Names(es) + {te.name}
  {
    var all := es + [te];
    forall x | x in Names(es) + {te.name}
      ensures x in Names(all)
    {
      if x in Names(es) {
        var i :| 0 <= i < |es| && es[i].name == x;
        assert all[i].name == x;
      } else {
        assert all[|es|].name == x;
      }
    }
  }
}
