/** Whoever holds a version has given it out itself, or is downloading it, or has told the tracker, or will
    learn of a newer one; so when nothing is under way any more, the tracker lists every peer as an owner of
    every file that the peer holds. */
module Ownership {
  import opened Entries
  import opened TrackerSpec
  import opened PeerSpec
  import opened SyncProtocol
  import opened Sequences

  /** A version that a peer sends as its own. */
  ghost predicate Gives(es: Packet, x: Name, ts: int, ip: nat) {
    exists k :: 0 <= k < |es| && es[k].name == x && es[k].timestamp == ts && HasIp(es[k].owners, ip)
  }

  /** The version of `x` that a peer holds is accounted for. */
  ghost predicate Accounted(t: Table, peer: Peer, x: Name) {
    x in peer.table ==>
      || Ts(t, x) > Ts(peer.table, x)
      || (Ts(t, x) == Ts(peer.table, x) && HasIp(t[x].owners, peer.id.ip))
      || Gives(Flat(peer.outbox), x, Ts(peer.table, x), peer.id.ip)
      || x in peer.downloads
  }

  /** A peer lists itself as owner of what it brings along and of what it adds or changes, and no download of
      `x` by peer p fails. */
  ghost predicate Candid(s: System, step: Step, p: nat, x: Name)
    requires Enabled(s, step)
  {
    match step
    case Join(id, local, _, _) => x in local ==> HasIp(local[x].owners, id.ip)
    case LocalEdit(q, batch) =>
      forall k :: 0 <= k < |batch| && batch[k].name == x && IsEdit(batch[k]) ==> HasIp(batch[k].owners, s.peers[q].id.ip)
    case DownloadFail(q, d) => q == p ==> s.peers[p].downloads[d] != x
    case _ => true
  }

  ghost predicate CandidRun(s: System, steps: seq<Step>, p: nat, x: Name)
    requires IsRun(s, steps)
    decreases |steps|
  {
    steps == [] || (Candid(s, steps[0], p, x) && CandidRun(Apply(s, steps[0]), steps[1..], p, x))
  }

  // ---------- owners at the tracker ----------

  lemma AddKeepsOwner(t: Table, te: TransEntry, x: Name, ip: nat)
    requires x in t && HasIp(t[x].owners, ip)
    ensures x in TableAdd(t, te)
    ensures Ts(TableAdd(t, te), x) == Ts(t, x) ==> HasIp(TableAdd(t, te)[x].owners, ip)
  {
    if te.name == x { AddOwnersHasIp(t[x].owners, te.owners, ip); }
  }

  /** As long as the timestamp stays, no owner is lost. */
  lemma {:induction false} AddAllKeepsOwner(t: Table, es: Packet, x: Name, ip: nat)
    requires x in t && HasIp(t[x].owners, ip)
    ensures x in AddAll(t, es)
    ensures Ts(AddAll(t, es), x) == Ts(t, x) ==> HasIp(AddAll(t, es)[x].owners, ip)
  {
    if es != [] {
      var rest, last := es[..|es| - 1], es[|es| - 1];
      AddAllKeepsOwner(t, rest, x, ip);
      AddAllTs(t, rest, x);
      AddAllTs(t, es, x);
      if Ts(AddAll(t, es), x) == Ts(t, x) { AddKeepsOwner(AddAll(t, rest), last, x, ip); }
    }
  }

  lemma AddGivesOwner(t: Table, te: TransEntry, ip: nat)
    requires HasIp(te.owners, ip)
    ensures Ts(TableAdd(t, te), te.name) == te.timestamp ==> HasIp(TableAdd(t, te)[te.name].owners, ip)
  {
    AddOwnersHasIp([], te.owners, ip);
    if te.name in t { AddOwnersHasIp(t[te.name].owners, te.owners, ip); }
  }

  /** A version that is given is owned, unless a newer one is there. */
  lemma {:induction false} AddAllGivesOwner(t: Table, es: Packet, x: Name, ts: int, ip: nat)
    requires Gives(es, x, ts, ip)
    ensures Ts(AddAll(t, es), x) >= ts
    ensures Ts(AddAll(t, es), x) == ts ==> HasIp(AddAll(t, es)[x].owners, ip)
  {
    var rest, last := es[..|es| - 1], es[|es| - 1];
    AddAllTs(t, rest, x);
    AddAllTs(t, es, x);
    var k :| 0 <= k < |es| && es[k].name == x && es[k].timestamp == ts && HasIp(es[k].owners, ip);
    if k == |es| - 1 {
      AddGivesOwner(AddAll(t, rest), last, ip);
    } else {
      assert rest[k] == es[k];
      AddAllGivesOwner(t, rest, x, ts, ip);
      if Ts(AddAll(t, es), x) == ts { AddKeepsOwner(AddAll(t, rest), last, x, ip); }
    }
  }

  lemma GivesConcat(a: Packet, b: Packet, x: Name, ts: int, ip: nat)
    ensures Gives(a + b, x, ts, ip) <==> Gives(a, x, ts, ip) || Gives(b, x, ts, ip)
  {
    if Gives(a, x, ts, ip) {
      var k :| 0 <= k < |a| && a[k].name == x && a[k].timestamp == ts && HasIp(a[k].owners, ip);
      assert (a + b)[k] == a[k];
    }
    if Gives(b, x, ts, ip) {
      var k :| 0 <= k < |b| && b[k].name == x && b[k].timestamp == ts && HasIp(b[k].owners, ip);
      assert (a + b)[|a| + k] == b[k];
    }
  }

  // ---------- every step ----------

  /** More is added at the tracker; the peer may hear of it. */
  lemma TrackerMoves(t: Table, t': Table, es: Packet, peer: Peer, peer': Peer, x: Name)
    requires Accounted(t, peer, x) && SameAt(t', AddAll(t, es), x)
    requires peer'.table == peer.table && peer'.outbox == peer.outbox && peer'.downloads == peer.downloads
    requires peer'.id == peer.id
    ensures Accounted(t', peer', x)
  {
    AddAllTs(t, es, x);
    if x in t && HasIp(t[x].owners, peer.id.ip) { AddAllKeepsOwner(t, es, x, peer.id.ip); }
  }

  /** The peer's oldest update reached the tracker. */
  lemma UpdateArrives(t: Table, peer: Peer, x: Name)
    requires Accounted(t, peer, x) && peer.outbox != [] && Only(peer.outbox[0], x, EDITS)
    ensures Accounted(UpdateRun(t, peer.outbox[0]).table, Sent(peer), x)
  {
    var packet, ts, ip := peer.outbox[0], Ts(peer.table, x), peer.id.ip;
    UpdateIsAdd(t, packet, x);
    AddAllTs(t, packet, x);
    GivesConcat(packet, Flat(peer.outbox[1..]), x, ts, ip);
    if Gives(packet, x, ts, ip) { AddAllGivesOwner(t, packet, x, ts, ip); }
    if x in t && HasIp(t[x].owners, ip) { AddAllKeepsOwner(t, packet, x, ip); }
  }

  lemma BroadcastArrives(t: Table, peer: Peer, x: Name)
    requires Accounted(t, peer, x) && PeerNormal(t, peer, x) && peer.inbox != []
    ensures Accounted(t, Received(peer), x)
  {
    var packet := peer.inbox[0];
    QueueCons(peer.inbox, x);
    HearRunTs(peer.table, packet, peer.id.ip, x);
    ReplayEdits(Ts(peer.table, x), packet, x);
    HearEditsStart(peer.table, packet, peer.id.ip, x);
  }

  lemma BatchSent(t: Table, peer: Peer, batch: Packet, x: Name)
    requires Accounted(t, peer, x) && Only(batch, x, EDITS) && !ConflictFires(peer.table, batch)
    requires forall k :: 0 <= k < |batch| && batch[k].name == x && IsEdit(batch[k]) ==> HasIp(batch[k].owners, peer.id.ip)
    ensures Accounted(t, LocallyEdited(peer, batch), x)
  {
    var ts, ip := Ts(peer.table, x), peer.id.ip;
    LocalRunIsUpdate(peer.table, batch);
    UpdateRunTs(peer.table, batch, x);
    ReplayEdits(ts, batch, x);
    FlatSnoc(peer.outbox, batch);
    GivesConcat(Flat(peer.outbox), batch, x, ts, ip);
    if ListTs(batch, x) > ts {
      ListTsMeans(batch, x);
      assert Gives(batch, x, ListTs(batch, x), ip);
      GivesConcat(Flat(peer.outbox), batch, x, ListTs(batch, x), ip);
    }
  }

  lemma DownloadEnds(t: Table, peer: Peer, d: nat, x: Name)
    requires Accounted(t, peer, x) && d < |peer.downloads| && peer.downloads[d] in peer.table
    ensures Accounted(t, Downloaded(peer, d), x)
  {
    var y, ts, ip := peer.downloads[d], Ts(peer.table, x), peer.id.ip;
    var note := Notify(peer.table, y, peer.id);
    FlatSnoc(peer.outbox, [note]);
    GivesConcat(Flat(peer.outbox), [note], x, ts, ip);
    if y == x {
      assert [note][0].owners[0].ip == ip;
      assert Gives([note], x, ts, ip);
    } else if x in peer.downloads {
      DropKeeps(peer.downloads, d, x);
    }
  }

  lemma NewPeer(s: System, id: PeerId, local: Table, sent: Packet, visited: seq<TransEntry>, x: Name)
    requires Enabled(s, Join(id, local, sent, visited)) && (x in local ==> HasIp(local[x].owners, id.ip))
    ensures Accounted(SyncRun(s.tracker, sent).table, Joined(s, id, local, sent, visited), x)
  {
    var t, reply := s.tracker, SyncReply(visited, sent);
    SyncRunTable(t, sent);
    SyncExchange(t, local, sent, visited, id.ip, x);
    SyncStartsIff(local, reply, id.ip, x);
    SyncReplyTs(visited, sent, x);
    EnumeratesTs(local, sent, x);
    EnumeratesTs(t, visited, x);
    if x in local && Ts(t, x) <= Ts(local, x) {
      SentOwners(local, sent, x);
      AddAllGivesOwner(t, sent, x, Ts(local, x), id.ip);
    }
  }

  /** Of the entries that a sync sends, one is that of the file. */
  lemma SentOwners(local: Table, sent: Packet, x: Name)
    requires Enumerates(local, sent) && x in local
    ensures exists k :: 0 <= k < |sent| && sent[k].name == x && sent[k].timestamp == local[x].timestamp
                        && sent[k].owners == local[x].owners
  {
    assert x in Names(sent);
    var k :| 0 <= k < |sent| && sent[k].name == x;
  }

  // ---------- every run ----------

  /** Whatever happens to a name that is not being deleted, it stays accounted for. */
  lemma StepAccounts(s: System, step: Step, p: nat, x: Name)
    requires Normal(s, x) && p < |s.peers| && Accounted(s.tracker, s.peers[p], x)
    requires Enabled(s, step) && Candid(s, step, p, x) && (step.LocalEdit? ==> Only(step.batch, x, EDITS))
    ensures var s' := Apply(s, step); Accounted(s'.tracker, s'.peers[p], x)
  {
    var t, peer := s.tracker, s.peers[p];
    match step
    case Join(_, _, _, _) => JoinAccounts(s, step, p, x);
    case LocalEdit(q, batch) => if q == p { BatchSent(t, peer, batch, x); }
    case DeliverUpdate(q) => UpdateAccounts(s, q, p, x);
    case DeliverBroadcast(q) => if q == p { BroadcastArrives(t, peer, x); }
    case DownloadDone(q, d) => if q == p { DownloadEnds(t, peer, d, x); }
    case DownloadFail(q, d) => if q == p && x in peer.downloads { DropKeeps(peer.downloads, d, x); }
  }

  lemma JoinAccounts(s: System, step: Step, p: nat, x: Name)
    requires p < |s.peers| && Accounted(s.tracker, s.peers[p], x) && step.Join? && Enabled(s, step)
    ensures var s' := Apply(s, step); Accounted(s'.tracker, s'.peers[p], x)
  {
    var s' := Apply(s, step);
    SyncRunTable(s.tracker, step.sent);
    TrackerMoves(s.tracker, s'.tracker, step.sent, s.peers[p], s'.peers[p], x);
  }

  lemma UpdateAccounts(s: System, q: nat, p: nat, x: Name)
    requires Normal(s, x) && p < |s.peers| && Accounted(s.tracker, s.peers[p], x) && Enabled(s, DeliverUpdate(q))
    ensures var s' := Apply(s, DeliverUpdate(q)); Accounted(s'.tracker, s'.peers[p], x)
  {
    var s', t, packet := Apply(s, DeliverUpdate(q)), s.tracker, s.peers[q].outbox[0];
    assert PeerNormal(t, s.peers[q], x);
    QueueCons(s.peers[q].outbox, x);
    if q == p {
      UpdateArrives(t, s.peers[p], x);
    } else {
      UpdateIsAdd(t, packet, x);
      TrackerMoves(t, s'.tracker, packet, s.peers[p], s'.peers[p], x);
    }
  }

  /** A name that is settled in either way is held by nobody. */
  lemma GoneIfBoth(s: System, x: Name, p: nat)
    requires Normal(s, x) && Dying(s, x) && p < |s.peers|
    ensures x !in s.peers[p].table
  {
    forall q | 0 <= q < |s.peers|
      ensures !Named(s.peers[q].inbox, x) && !Named(s.peers[q].outbox, x)
    {
      assert PeerNormal(s.tracker, s.peers[q], x) && PeerDying(s.tracker, s.peers[q], x);
      OnlyBoth(Flat(s.peers[q].inbox), x);
      OnlyBoth(Flat(s.peers[q].outbox), x);
    }
    assert PeerDying(s.tracker, s.peers[p], x);
  }

  /** The name is accounted for at peer p, if it is not being deleted and the peer is there. */
  ghost predicate Settled(s: System, p: nat, x: Name) {
    Normal(s, x) && p < |s.peers| ==> Accounted(s.tracker, s.peers[p], x)
  }

  lemma StepSettles(s: System, step: Step, p: nat, x: Name)
    requires Inv(s) && Settled(s, p, x)
    requires Enabled(s, step) && Orderly(s, step) && Candid(s, step, p, x)
    ensures Settled(Apply(s, step), p, x)
  {
    var s' := Apply(s, step);
    assert NameInv(s, x);
    if Normal(s', x) && p < |s'.peers| {
      if p == |s.peers| {
        NewPeer(s, step.id, step.local, step.sent, step.visited, x);
      } else if !Normal(s, x) || (step.LocalEdit? && !Only(step.batch, x, EDITS)) {
        EndsDying(s, step, x);
        GoneIfBoth(s', x, p);
      } else {
        StepAccounts(s, step, p, x);
      }
    }
  }

  lemma EndsDying(s: System, step: Step, x: Name)
    requires Inv(s) && Enabled(s, step) && Orderly(s, step)
    requires !Normal(s, x) || (step.LocalEdit? && !Only(step.batch, x, EDITS))
    ensures Dying(Apply(s, step), x)
  {
    assert NameInv(s, x);
    if step.LocalEdit? && !Only(step.batch, x, EDITS) {
      if x !in Names(step.batch) { Unnamed(step.batch, x); }
      DeletedDying(s, step.p, step.batch, x);
    } else {
      if !Deleting(s, x) { DeletionOver(s, x); }
      StepDying(s, step, x);
    }
  }

  lemma {:induction false} RunSettles(s: System, steps: seq<Step>, p: nat, x: Name)
    requires Inv(s) && Settled(s, p, x)
    requires IsRun(s, steps) && OrderlyRun(s, steps) && CandidRun(s, steps, p, x)
    ensures Settled(After(s, steps), p, x)
    decreases |steps|
  {
    if steps != [] {
      StepSettles(s, steps[0], p, x);
      StepKeepsInv(s, steps[0]);
      RunSettles(Apply(s, steps[0]), steps[1..], p, x);
    }
  }

  /** In every orderly run in which peers list themselves as owners of what they bring along, add and change:
      when no message is under way and no download of the file is running at a peer that holds it, then, unless
      a download of it failed there, the tracker holds the same version and lists the peer as an owner. */
  lemma {:induction false} HolderIsOwner(steps: seq<Step>, p: nat, x: Name)
    requires IsRun(INITIAL, steps) && OrderlyRun(INITIAL, steps) && CandidRun(INITIAL, steps, p, x)
    requires p < |After(INITIAL, steps).peers| && QueuesEmpty(After(INITIAL, steps))
    requires x in After(INITIAL, steps).peers[p].table && x !in After(INITIAL, steps).peers[p].downloads
    ensures var s := After(INITIAL, steps);
            && x in s.tracker && s.tracker[x].timestamp == s.peers[p].table[x].timestamp
            && HasIp(s.tracker[x].owners, s.peers[p].id.ip)
  {
    var s := After(INITIAL, steps);
    InitialInv();
    RunKeepsInv(INITIAL, steps);
    RunSettles(INITIAL, steps, p, x);
    SameTimestamps(s, p);
    assert x in Timestamps(s.peers[p].table) && x in Timestamps(s.tracker);
    NormalAtRest(s, x, p);
    assert Flat([]) == [];
  }

  lemma NormalAtRest(s: System, x: Name, p: nat)
    requires Inv(s) && QueuesEmpty(s) && p < |s.peers| && x in s.peers[p].table
    ensures Normal(s, x)
  {
    assert NameInv(s, x);
    assert Flat([]) == [];
    assert Dying(s, x) ==> PeerDying(s.tracker, s.peers[p], x);
  }
}
