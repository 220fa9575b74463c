/** What a peer does with entries from the tracker and with local changes, on values: the new
    table and the names whose download it starts. */
module PeerSpec {
  import opened Entries
  import opened TrackerSpec

  datatype PeerOutcome = PeerOutcome(table: Table, downloads: seq<Name>)

  /** An owner list without its first owner at `ip`. */
  function RemoveFirst(owners: seq<PeerId>, ip: nat): (r: seq<PeerId>) {
    if owners == [] then []
    else if owners[0].ip == ip then owners[1..]
    else [owners[0]] + RemoveFirst(owners[1..], ip)
  }

  /** An ADD or MODIFY from the tracker. An unknown name is added and downloaded. A known one takes
      over the listed owners other than this peer, whatever their age, and is downloaded only when
      the entry is newer. */
  function Learn(t: Table, te: TransEntry, me: nat): PeerOutcome {
    if te.name !in t then PeerOutcome(TableAdd(t, te), [te.name])
    else
      var e := t[te.name].(owners := RemoveFirst(AddOwners([], te.owners), me));
      if te.timestamp > e.timestamp then PeerOutcome(t[te.name := e.(timestamp := te.timestamp)], [te.name])
      else PeerOutcome(t[te.name := e], [])
  }

  /** One entry of a TRACKER_BROADCAST packet. */
  function HearOne(t: Table, te: TransEntry, me: nat): PeerOutcome {
    match te.op
    case OpAdd => Learn(t, te, me)
    case OpModify => Learn(t, te, me)
    case OpDelete => PeerOutcome(TableDelete(t, te.name), [])
    case OpNone => PeerOutcome(t, [])
  }

  function HearRun(t: Table, packet: seq<TransEntry>, me: nat): PeerOutcome {
    if packet == [] then PeerOutcome(t, [])
    else
      var prior := HearRun(t, packet[..|packet| - 1], me);
      var one := HearOne(prior.table, packet[|packet| - 1], me);
      PeerOutcome(one.table, prior.downloads + one.downloads)
  }

  /** The TRACKER_SYNC reply is learned entry by entry, whatever operation it carries. */
  function SyncLearn(t: Table, reply: seq<TransEntry>, me: nat): PeerOutcome {
    if reply == [] then PeerOutcome(t, [])
    else
      var prior := SyncLearn(t, reply[..|reply| - 1], me);
      var one := Learn(prior.table, reply[|reply| - 1], me);
      PeerOutcome(one.table, prior.downloads + one.downloads)
  }

  /** A change seen by the peer's file monitor. */
  function LocalOne(t: Table, te: TransEntry): Table {
    match te.op
    case OpAdd => TableAdd(t, te)
    case OpModify => TableUpdate(t, te)
    case OpDelete => TableDelete(t, te.name)
    case OpNone => t
  }

  function LocalRun(t: Table, batch: seq<TransEntry>): Table {
    if batch == [] then t else LocalOne(LocalRun(t, batch[..|batch| - 1]), batch[|batch| - 1])
  }

  /** The message a finished download sends to the tracker. */
  function Notify(t: Table, x: Name, me: PeerId): TransEntry
    requires x in t
  {
    TransEntry(x, t[x].timestamp, OpModify, t[x].ftype, [me])
  }

  // ---------- timestamps ----------

  lemma {:induction false} HearRunTs(t: Table, packet: seq<TransEntry>, me: nat, x: Name)
    ensures Ts(HearRun(t, packet, me).table, x) == Replay(Ts(t, x), packet, x)
  {
    if packet != [] {
      HearRunTs(t, packet[..|packet| - 1], me, x);
    }
  }

  ghost predicate Edited(es: seq<TransEntry>, x: Name) {
    exists k :: 0 <= k < |es| && es[k].name == x && IsEdit(es[k])
  }

  /** Only an entry that adds or changes a file starts its download. */
  lemma {:induction false} HearDownloads(t: Table, packet: seq<TransEntry>, me: nat, x: Name)
    ensures x in HearRun(t, packet, me).downloads ==> Edited(packet, x)
  {
    if packet != [] && x in HearRun(t, packet, me).downloads {
      var rest, last := packet[..|packet| - 1], packet[|packet| - 1];
      HearDownloads(t, rest, me, x);
      var prior := HearRun(t, rest, me);
      if x in prior.downloads {
        var k :| 0 <= k < |rest| && rest[k].name == x && IsEdit(rest[k]);
        assert packet[k] == rest[k];
      } else {
        assert x in HearOne(prior.table, last, me).downloads;
      }
    }
  }

  lemma {:induction false} SyncLearnTs(t: Table, reply: seq<TransEntry>, me: nat, x: Name)
    ensures Ts(SyncLearn(t, reply, me).table, x) == Max(Ts(t, x), ListTs(reply, x))
  {
    if reply != [] {
      SyncLearnTs(t, reply[..|reply| - 1], me, x);
    }
  }

  /** Hearing starts the download of a file exactly when some entry that adds or changes it is newer than what
      the entries before it have led to. */
  lemma {:induction false} HearStartsIff(t: Table, packet: seq<TransEntry>, me: nat, x: Name)
    ensures x in HearRun(t, packet, me).downloads <==>
            exists k :: 0 <= k < |packet| && Newer(t, packet, k, x)
  {
    if packet != [] {
      var rest, last := packet[..|packet| - 1], packet[|packet| - 1];
      HearStartsIff(t, rest, me, x);
      HearRunTs(t, rest, me, x);
      var prior := HearRun(t, rest, me);
      assert x in HearOne(prior.table, last, me).downloads <==> Newer(t, packet, |packet| - 1, x);
      assert forall k :: 0 <= k < |rest| ==> packet[..k] == rest[..k] && packet[k] == rest[k];
      assert forall k :: 0 <= k < |rest| ==> (Newer(t, packet, k, x) <==> Newer(t, rest, k, x));
    }
  }

  ghost predicate Newer(t: Table, packet: seq<TransEntry>, k: nat, x: Name)
    requires k < |packet|
  {
    packet[k].name == x && IsEdit(packet[k]) && packet[k].timestamp > Replay(Ts(t, x), packet[..k], x)
  }

  /** If the packet only adds and changes the file, exactly when something newer than the table is listed. */
  lemma {:induction false} HearEditsStart(t: Table, packet: seq<TransEntry>, me: nat, x: Name)
    requires Only(packet, x, EDITS)
    ensures x in HearRun(t, packet, me).downloads <==> ListTs(packet, x) > Ts(t, x)
  {
    if packet != [] {
      var rest, last := packet[..|packet| - 1], packet[|packet| - 1];
      HearEditsStart(t, rest, me, x);
      HearRunTs(t, rest, me, x);
      ReplayEdits(Ts(t, x), rest, x);
    }
  }

  /** Learning a sync reply starts the download of exactly the files that are listed newer than in the table. */
  lemma {:induction false} SyncStartsIff(t: Table, reply: seq<TransEntry>, me: nat, x: Name)
    ensures x in SyncLearn(t, reply, me).downloads <==> ListTs(reply, x) > Ts(t, x)
  {
    if reply != [] {
      SyncStartsIff(t, reply[..|reply| - 1], me, x);
      SyncLearnTs(t, reply[..|reply| - 1], me, x);
    }
  }

  /** A sync reply is learned like a broadcast of additions and changes. */
  lemma {:induction false} SyncLearnIsHear(t: Table, reply: seq<TransEntry>, me: nat)
    requires forall k :: 0 <= k < |reply| ==> IsEdit(reply[k])
    ensures SyncLearn(t, reply, me) == HearRun(t, reply, me)
  {
    if reply != [] {
      SyncLearnIsHear(t, reply[..|reply| - 1], me);
    }
  }

  // ---------- owners ----------

  /** Removing the first owner with an ip removes the owner, as no ip is listed twice. */
  lemma {:induction false} RemoveFirstIsWithout(owners: seq<PeerId>, ip: nat)
    requires DistinctIps(owners)
    ensures RemoveFirst(owners, ip) == WithoutOwner(owners, ip)
  {
    if owners != [] {
      WithoutCons(owners, ip);
      if owners[0].ip == ip {
        WithoutAbsent(owners[1..], ip);
      } else {
        RemoveFirstIsWithout(owners[1..], ip);
      }
    }
  }

  lemma WithoutCons(owners: seq<PeerId>, ip: nat)
    requires owners != []
    ensures WithoutOwner(owners, ip) ==
            if owners[0].ip == ip then WithoutOwner(owners[1..], ip) else [owners[0]] + WithoutOwner(owners[1..], ip)
  {
    WithoutConcat([owners[0]], owners[1..], ip);
    WithoutOne(owners[0], ip);
    assert owners == [owners[0]] + owners[1..];
  }

  /** What a peer's entry for a known file is after hearing additions and changes of it: the greatest
      timestamp, the type as it was, and the owners that the last entry lists, once each, without the peer. */
  lemma {:induction false} HearKnown(t: Table, packet: seq<TransEntry>, me: nat, x: Name)
    requires x in t && Only(packet, x, EDITS)
    ensures var now := HearRun(t, packet, me).table; var last := LastAbout(packet, x);
            && x in now
            && now[x] == if last.None? then t[x]
                         else Entry(Max(t[x].timestamp, ListTs(packet, x)), t[x].ftype,
                                    WithoutOwner(FirstByIp(last.value.owners), me))
  {
    if packet != [] {
      var rest, last := packet[..|packet| - 1], packet[|packet| - 1];
      HearKnown(t, rest, me, x);
      LastAboutMeans(rest, x);
      NoneListed(rest, x);
      HearOneKnown(HearRun(t, rest, me).table, last, me, x);
    }
  }

  lemma HearOneKnown(t: Table, te: TransEntry, me: nat, x: Name)
    requires x in t && (te.name == x ==> IsEdit(te))
    ensures var now := HearOne(t, te, me).table;
            && x in now
            && now[x] == if te.name != x then t[x]
                         else Entry(Max(t[x].timestamp, te.timestamp), t[x].ftype, WithoutOwner(FirstByIp(te.owners), me))
  {
    if te.name == x {
      LearnKnown(t, te, me);
      ListedOwners(te.owners, me);
    }
  }

  lemma LearnKnown(t: Table, te: TransEntry, me: nat)
    requires te.name in t
    ensures var now := Learn(t, te, me).table;
            te.name in now && now[te.name] ==
            Entry(Max(t[te.name].timestamp, te.timestamp), t[te.name].ftype, RemoveFirst(AddOwners([], te.owners), me))
  {}

  lemma NoneListed(es: seq<TransEntry>, x: Name)
    ensures x !in Names(es) ==> ListTs(es, x) == -1
  {
    ListTsMeans(es, x);
    assert forall i :: 0 <= i < |es| ==> es[i].name in Names(es);
  }

  lemma ListedOwners(owners: seq<PeerId>, me: nat)
    ensures RemoveFirst(AddOwners([], owners), me) == WithoutOwner(FirstByIp(owners), me)
  {
    AddOwnersIsFirstByIp(owners);
    AddOwnersIps([], owners);
    RemoveFirstIsWithout(FirstByIp(owners), me);
  }

  /** An unknown file that is mentioned once gets the owners that are listed, the peer itself included. */
  lemma {:induction false} HearNew(t: Table, packet: seq<TransEntry>, me: nat, x: Name, k: nat)
    requires x !in t && k < |packet| && packet[k].name == x && IsEdit(packet[k])
    requires forall i :: 0 <= i < |packet| && i != k ==> packet[i].name != x
    ensures var now := HearRun(t, packet, me).table;
            x in now && now[x] == Entry(packet[k].timestamp, packet[k].ftype, FirstByIp(packet[k].owners))
    decreases |packet|
  {
    var rest, last := packet[..|packet| - 1], packet[|packet| - 1];
    AddOwnersIsFirstByIp(packet[k].owners);
    if k < |rest| {
      HearNew(t, rest, me, x, k);
    } else {
      HearRunTs(t, rest, me, x);
      Unlisted(rest, x);
      ReplayDeletes(Ts(t, x), rest, x);
    }
  }

  lemma Unlisted(es: seq<TransEntry>, x: Name)
    requires forall i :: 0 <= i < |es| ==> es[i].name != x
    ensures Only(es, x, DELETES) && x !in Names(es)
  {}

  /** When the tracker has handled additions and changes of a file, a peer that knows the file and hears the
      broadcast lists the tracker's owners, except for itself. */
  lemma {:induction false} BystanderOwners(t: Table, packet: seq<TransEntry>, other: Table, me: nat, x: Name)
    requires x in other && Only(packet, x, EDITS) && !ConflictFires(t, packet) && x in Names(packet)
    ensures var now, heard := UpdateRun(t, packet), HearRun(other, UpdateRun(t, packet).out, me);
            x in now.table && x in heard.table
            && heard.table[x].owners == WithoutOwner(FirstByIp(now.table[x].owners), me)
  {
    var now := UpdateRun(t, packet);
    LastTold(t, packet, x);
    EditsTold(t, packet, x);
    HearKnown(other, now.out, me, x);
  }

  /** After a lost connection the same holds for every file that the tracker keeps. */
  lemma {:induction false} CleanupOwners(t: Table, ip: nat, visited: seq<TransEntry>, other: Table, me: nat, x: Name)
    requires Enumerates(DeleteOwner(t, ip), visited) && x in other && x in DeleteOwner(t, ip)
    ensures x in HearRun(other, Marked(visited), me).table
    ensures HearRun(other, Marked(visited), me).table[x].owners ==
            WithoutOwner(FirstByIp(WithoutOwner(t[x].owners, ip)), me)
  {
    var t', packet := DeleteOwner(t, ip), Marked(visited);
    assert x in Names(visited);
    var i :| 0 <= i < |visited| && visited[i].name == x;
    assert packet[i].name == x;
    assert x in Names(packet);
    LastAboutMeans(packet, x);
    var k :| 0 <= k < |packet| && packet[k] == LastAbout(packet, x).value;
    assert k == i;
    HearKnown(other, packet, me, x);
  }

  /** Once a notification is handled the tracker lists the sender, unless it holds something newer by then:
      among others if it held the same version, and alone if it held an older one or none. */
  lemma NotifyMakesOwner(t: Table, peer: Table, x: Name, me: PeerId)
    requires x in peer
    ensures var now := UpdateRun(t, [Notify(peer, x, me)]).table;
            && x in now
            && (Ts(t, x) == Ts(peer, x) ==> now[x].owners == AddOwners(t[x].owners, [me]) && HasIp(now[x].owners, me.ip))
            && (Ts(t, x) < Ts(peer, x) ==> now[x].owners == [me] && now[x].timestamp == Ts(peer, x))
            && (Ts(t, x) > Ts(peer, x) ==> now[x] == t[x])
  {
    var note := Notify(peer, x, me);
    assert [note][..0] == [] && UpdateRun(t, []) == Outcome(t, []);
    AddOwnersIsFirstByIp([me]);
    assert AddOwners([], [me]) == [me];
    if x in t { HasAdded(t[x].owners, me); }
  }

  lemma HasAdded(owners: seq<PeerId>, o: PeerId)
    ensures HasIp(AddOwners(owners, [o]), o.ip)
  {
    AddOwnersHasIp(owners, [o], o.ip);
    assert [o][0].ip == o.ip;
  }

  lemma {:induction false} SyncLearnDownloads(t: Table, reply: seq<TransEntry>, me: nat)
    ensures forall x :: x in SyncLearn(t, reply, me).downloads ==> x in SyncLearn(t, reply, me).table
    ensures t.Keys <= SyncLearn(t, reply, me).table.Keys
  {
    if reply != [] {
      SyncLearnDownloads(t, reply[..|reply| - 1], me);
    }
  }

  /** A local batch changes only names that the peer knows when it gets there. Then it does to the peer's
      table what the packet it is sent in does to a tracker that holds the same. */
  lemma {:induction false} LocalRunIsUpdate(t: Table, batch: seq<TransEntry>)
    requires !ConflictFires(t, batch)
    ensures LocalRun(t, batch) == UpdateRun(t, batch).table
  {
    if batch != [] {
      ConflictSnoc(t, batch);
      LocalRunIsUpdate(t, batch[..|batch| - 1]);
    }
  }

  /** After part of a batch, `x` was there or was added by it, and was not deleted since. */
  ghost predicate LocallyLive(t: Table, batch: seq<TransEntry>, k: nat, x: Name)
    requires k <= |batch|
  {
    || (x in t && Undeleted(batch, 0, k, x))
    || exists i :: 0 <= i < k && batch[i].name == x && batch[i].op == OpAdd && Undeleted(batch, i + 1, k, x)
  }

  lemma LocallyLiveNext(t: Table, batch: seq<TransEntry>, k: nat, x: Name)
    requires k < |batch|
    ensures LocallyLive(t, batch, k + 1, x) <==>
            if batch[k].name == x && batch[k].op == OpAdd then true
            else if batch[k].name == x && batch[k].op == OpDelete then false
            else LocallyLive(t, batch, k, x)
  {
    var te, n := batch[k], k + 1;
    if te.name == x && te.op == OpAdd {
      assert Undeleted(batch, n, n, x);
    } else if te.name == x && te.op == OpDelete {
      assert forall i: nat :: i <= k ==> !Undeleted(batch, i, n, x);
    } else {
      assert forall i: nat :: i <= k ==> (Undeleted(batch, i, n, x) <==> Undeleted(batch, i, k, x));
    }
  }

  /** In the peer's own table a change does not bring an unknown file in, as it does at the tracker. */
  lemma {:induction false} LocallyLiveIff(t: Table, batch: seq<TransEntry>, k: nat, x: Name)
    requires k <= |batch|
    ensures x in LocalRun(t, batch[..k]) <==> LocallyLive(t, batch, k, x)
  {
    if k > 0 {
      LocallyLiveIff(t, batch, k - 1, x);
      LocallyLiveNext(t, batch, k - 1, x);
      assert batch[..k][..k - 1] == batch[..k - 1];
    }
  }

  // ---------- what hearing of an update leads to ----------

  lemma ReplicaOne(t: Table, te: TransEntry, x: Name)
    requires te.op == OpModify ==> te.name in t
    ensures Replay(Ts(t, x), UpdateOne(t, te).out, x) == Ts(UpdateOne(t, te).table, x)
  {
    var out := UpdateOne(t, te).out;
    if out != [] {
      assert out[..|out| - 1] == [];
      assert Replay(Ts(t, x), [], x) == Ts(t, x);
    }
  }

  lemma {:induction false} ReplicaFollows(t: Table, packet: seq<TransEntry>, x: Name)
    requires !ConflictFires(t, packet)
    ensures Replay(Ts(t, x), UpdateRun(t, packet).out, x) == Ts(UpdateRun(t, packet).table, x)
  {
    if packet != [] {
      var rest, last := packet[..|packet| - 1], packet[|packet| - 1];
      ConflictSnoc(t, packet);
      ReplicaFollows(t, rest, x);
      var prior := UpdateRun(t, rest);
      ReplayConcat(Ts(t, x), prior.out, UpdateOne(prior.table, last).out, x);
      ReplicaOne(prior.table, last, x);
    }
  }

  lemma BlankOne(v: int, t: Table, te: TransEntry)
    requires te.name != []
    ensures Replay(v, UpdateOne(t, te).out, []) == if te.op == OpModify && te.name !in t then Max(v, 0) else v
  {
    var out := UpdateOne(t, te).out;
    if out != [] {
      assert out[..|out| - 1] == [];
      assert Replay(v, [], []) == v;
    }
  }

  lemma {:induction false} BlankStays(t: Table, packet: seq<TransEntry>)
    requires [] !in Names(packet)
    ensures Replay(-1, UpdateRun(t, packet).out, []) == if ConflictFires(t, packet) then 0 else -1
  {
    if packet != [] {
      var rest, last := packet[..|packet| - 1], packet[|packet| - 1];
      ConflictSnoc(t, packet);
      NamesSnoc(rest, last);
      assert packet == rest + [last];
      BlankStays(t, rest);
      var prior := UpdateRun(t, rest);
      ReplayConcat(-1, prior.out, UpdateOne(prior.table, last).out, []);
      BlankOne(Replay(-1, prior.out, []), prior.table, last);
    }
  }

  /** Let a peer agree with the tracker, and let it hear what the tracker broadcasts for an update, with
      deletions or without. It agrees with the tracker again exactly when no blank slot was broadcast. */
  lemma UpdateReplicates(t: Table, packet: seq<TransEntry>, other: Table, me: nat)
    requires forall x :: Ts(other, x) == Ts(t, x)
    requires [] !in t && [] !in Names(packet)
    ensures (forall x :: Ts(HearRun(other, UpdateRun(t, packet).out, me).table, x) == Ts(UpdateRun(t, packet).table, x))
            <==> !ConflictFires(t, packet)
  {
    var run := UpdateRun(t, packet);
    forall x
      ensures Ts(HearRun(other, run.out, me).table, x) == Replay(Ts(t, x), run.out, x)
    {
      HearRunTs(other, run.out, me, x);
    }
    if ConflictFires(t, packet) {
      BlankStays(t, packet);
      UpdateRunTs(t, packet, []);
      assert Only(packet, [], DELETES) by {
        assert forall k :: 0 <= k < |packet| ==> packet[k].name in Names(packet);
      }
      ReplayDeletes(-1, packet, []);
    } else {
      forall x
        ensures Replay(Ts(t, x), run.out, x) == Ts(run.table, x)
      {
        ReplicaFollows(t, packet, x);
      }
    }
  }

  /** When a connection is lost, the tracker sends what is left of its table, and does not say what it
      dropped. A peer that agreed with it agrees again exactly when nothing was dropped. */
  lemma CleanupAgreesIff(t: Table, ip: nat, visited: seq<TransEntry>, other: Table, me: nat)
    requires forall x :: Ts(other, x) == Ts(t, x)
    requires Enumerates(DeleteOwner(t, ip), visited)
    ensures (forall x :: Ts(HearRun(other, Marked(visited), me).table, x) == Ts(DeleteOwner(t, ip), x))
            <==> forall x :: x in t ==> WithoutOwner(t[x].owners, ip) != []
  {
    var t', packet := DeleteOwner(t, ip), Marked(visited);
    forall x
      ensures Ts(HearRun(other, packet, me).table, x) == Max(Ts(t, x), Ts(t', x))
      ensures Ts(t', x) == if x in t && WithoutOwner(t[x].owners, ip) != [] then Ts(t, x) else -1
    {
      HearRunTs(other, packet, me, x);
      ReplayEdits(Ts(t, x), packet, x);
      MarkedTs(visited, x);
      EnumeratesTs(t', visited, x);
    }
    forall x | x in t && WithoutOwner(t[x].owners, ip) == []
      ensures Ts(HearRun(other, packet, me).table, x) != Ts(t', x)
    {}
  }

  lemma {:induction false} MarkedTs(es: seq<TransEntry>, x: Name)
    ensures ListTs(Marked(es), x) == ListTs(es, x)
  {
    if es != [] {
      assert Marked(es)[..|es| - 1] == Marked(es[..|es| - 1]);
      MarkedTs(es[..|es| - 1], x);
    }
  }
}
