/** Tracker, peers and the first-in-first-out connections between them as a transition system,
    one step per handler, over every run of joins, local additions, changes and deletions, deliveries
    and finished or failed downloads. */
module SyncProtocol {
  import opened Entries
  import opened TrackerSpec
  import opened PeerSpec
  import opened Sequences

  type Packet = seq<TransEntry>

  /** `inbox` holds broadcasts on their way to the peer, `outbox` updates on their way to the
      tracker, oldest first; `downloads` the downloads that are running. */
  datatype Peer = Peer(id: PeerId, table: Table, inbox: seq<Packet>, outbox: seq<Packet>, downloads: seq<Name>)

  datatype System = System(tracker: Table, peers: seq<Peer>)

  datatype Step =
    | Join(id: PeerId, local: Table, sent: Packet, visited: seq<TransEntry>)
    | LocalEdit(p: nat, batch: Packet)
    | DeliverUpdate(p: nat)
    | DeliverBroadcast(p: nat)
    | DownloadDone(p: nat, d: nat)
    | DownloadFail(p: nat, d: nat)

  const INITIAL := System(map[], [])

  /** A join sends the local table and makes the tracker visit its own, both in any order. A local
      change names a file that the peer knows, unless it adds the file. */
  ghost predicate Enabled(s: System, step: Step) {
    match step
    case Join(_, local, sent, visited) => Enumerates(local, sent) && Enumerates(s.tracker, visited)
    case LocalEdit(p, batch) => p < |s.peers| && !ConflictFires(s.peers[p].table, batch)
    case DeliverUpdate(p) => p < |s.peers| && s.peers[p].outbox != []
    case DeliverBroadcast(p) => p < |s.peers| && s.peers[p].inbox != []
    case DownloadDone(p, d) =>
      p < |s.peers| && d < |s.peers[p].downloads| && s.peers[p].downloads[d] in s.peers[p].table
    case DownloadFail(p, d) => p < |s.peers| && d < |s.peers[p].downloads|
  }

  /** An empty table is not broadcast, and the sender is left out. */
  function Hear(peer: Peer, packet: Packet): Peer {
    if packet == [] then peer else peer.(inbox := peer.inbox + [packet])
  }

  function Broadcast(peers: seq<Peer>, packet: Packet, sender: int): seq<Peer> {
    seq(|peers|, i requires 0 <= i < |peers| => if i == sender then peers[i] else Hear(peers[i], packet))
  }

  function Joined(s: System, id: PeerId, local: Table, sent: Packet, visited: seq<TransEntry>): Peer {
    var learned := SyncLearn(local, SyncReply(visited, sent), id.ip);
    Peer(id, learned.table, [], [], learned.downloads)
  }

  function LocallyEdited(peer: Peer, batch: Packet): Peer {
    peer.(table := LocalRun(peer.table, batch), outbox := peer.outbox + [batch])
  }

  function Sent(peer: Peer): Peer
    requires peer.outbox != []
  {
    peer.(outbox := peer.outbox[1..])
  }

  function Received(peer: Peer): Peer
    requires peer.inbox != []
  {
    var heard := HearRun(peer.table, peer.inbox[0], peer.id.ip);
    peer.(table := heard.table, inbox := peer.inbox[1..], downloads := peer.downloads + heard.downloads)
  }

  function Downloaded(peer: Peer, d: nat): Peer
    requires d < |peer.downloads| && peer.downloads[d] in peer.table
  {
    peer.(outbox := peer.outbox + [[Notify(peer.table, peer.downloads[d], peer.id)]],
          downloads := Drop(peer.downloads, d))
  }

  ghost function Apply(s: System, step: Step): System
    requires Enabled(s, step)
  {
    match step
    case Join(id, local, sent, visited) =>
      var run := SyncRun(s.tracker, sent);
      System(run.table, Broadcast(s.peers, run.out, -1) + [Joined(s, id, local, sent, visited)])
    case LocalEdit(p, batch) => s.(peers := s.peers[p := LocallyEdited(s.peers[p], batch)])
    case DeliverUpdate(p) =>
      var run := UpdateRun(s.tracker, s.peers[p].outbox[0]);
      System(run.table, Broadcast(s.peers, run.out, p)[p := Sent(s.peers[p])])
    case DeliverBroadcast(p) => s.(peers := s.peers[p := Received(s.peers[p])])
    case DownloadDone(p, d) => s.(peers := s.peers[p := Downloaded(s.peers[p], d)])
    case DownloadFail(p, d) =>
      s.(peers := s.peers[p := s.peers[p].(downloads := Drop(s.peers[p].downloads, d))])
  }

  /** A run is a sequence of steps, each enabled where it is taken. */
  ghost predicate IsRun(s: System, steps: seq<Step>)
    decreases |steps|
  {
    steps == [] || (Enabled(s, steps[0]) && IsRun(Apply(s, steps[0]), steps[1..]))
  }

  ghost function After(s: System, steps: seq<Step>): System
    requires IsRun(s, steps)
    decreases |steps|
  {
    if steps == [] then s else After(Apply(s, steps[0]), steps[1..])
  }

  // ---------- queues ----------

  function Flat(queue: seq<Packet>): seq<TransEntry> {
    if queue == [] then [] else queue[0] + Flat(queue[1..])
  }

  lemma {:induction false} FlatSnoc(queue: seq<Packet>, packet: Packet)
    ensures Flat(queue + [packet]) == Flat(queue) + packet
  {
    if queue == [] {
      assert queue + [packet] == [packet];
      assert [packet][1..] == [];
    } else {
      assert (queue + [packet])[1..] == queue[1..] + [packet];
      FlatSnoc(queue[1..], packet);
    }
  }

  ghost predicate Named(queue: seq<Packet>, x: Name) {
    x in Names(Flat(queue))
  }

  ghost predicate Carries(queue: seq<Packet>, x: Name, ops: set<Op>) {
    Only(Flat(queue), x, ops)
  }

  lemma QueueSnoc(queue: seq<Packet>, packet: Packet, x: Name)
    ensures Named(queue + [packet], x) <==> Named(queue, x) || x in Names(packet)
    ensures forall ops :: Carries(queue + [packet], x, ops) <==> Carries(queue, x, ops) && Only(packet, x, ops)
    ensures ListTs(Flat(queue + [packet]), x) == Max(ListTs(Flat(queue), x), ListTs(packet, x))
  {
    FlatSnoc(queue, packet);
    NamesConcat(Flat(queue), packet);
    ListTsConcat(Flat(queue), packet, x);
    forall ops
      ensures Only(Flat(queue) + packet, x, ops) <==> Carries(queue, x, ops) && Only(packet, x, ops)
    {
      OnlyConcat(Flat(queue), packet, x, ops);
    }
  }

  lemma QueueCons(queue: seq<Packet>, x: Name)
    requires queue != []
    ensures Named(queue, x) <==> x in Names(queue[0]) || Named(queue[1..], x)
    ensures forall ops :: Carries(queue, x, ops) <==> Only(queue[0], x, ops) && Carries(queue[1..], x, ops)
    ensures ListTs(Flat(queue), x) == Max(ListTs(queue[0], x), ListTs(Flat(queue[1..]), x))
  {
    var rest := Flat(queue[1..]);
    NamesConcat(queue[0], rest);
    ListTsConcat(queue[0], rest, x);
    forall ops
      ensures Only(queue[0] + rest, x, ops) <==> Only(queue[0], x, ops) && Carries(queue[1..], x, ops)
    {
      OnlyConcat(queue[0], rest, x, ops);
    }
  }

  /** A MODIFY of `x` comes after something that adds it, or `x` was known. */
  ghost predicate Safe(known: bool, es: Packet, x: Name) {
    known || forall k :: 0 <= k < |es| && es[k].name == x && es[k].op == OpModify ==> x in Names(es[..k])
  }

  lemma SafeConcat(known: bool, a: Packet, b: Packet, x: Name)
    ensures Safe(known, a + b, x) <==> Safe(known, a, x) && Safe(known || x in Names(a), b, x)
  {
    forall k | 0 <= k < |a|
      ensures (a + b)[k] == a[k] && (a + b)[..k] == a[..k]
    {}
    forall k | 0 <= k < |b|
      ensures (a + b)[|a| + k] == b[k] && Names((a + b)[..|a| + k]) == Names(a) + Names(b[..k])
    {
      assert (a + b)[..|a| + k] == a + b[..k];
      NamesConcat(a, b[..k]);
    }
    if !known && Safe(known, a, x) && Safe(x in Names(a), b, x) {
      forall k | 0 <= k < |a + b| && (a + b)[k].name == x && (a + b)[k].op == OpModify
        ensures x in Names((a + b)[..k])
      {
        if k >= |a| { assert (a + b)[|a| + (k - |a|)] == b[k - |a|]; }
      }
    }
  }

  // ---------- discipline ----------

  ghost predicate Deletes(es: seq<TransEntry>, x: Name) {
    exists k :: 0 <= k < |es| && es[k].name == x && es[k].op == OpDelete
  }

  /** A deletion of `x` is under way. */
  ghost predicate Deleting(s: System, x: Name) {
    exists p :: 0 <= p < |s.peers| && (Deletes(Flat(s.peers[p].inbox), x) || Deletes(Flat(s.peers[p].outbox), x))
  }

  /** Nothing but deletions of `x` is under way: no addition, no change and no download. */
  ghost predicate Calm(s: System, x: Name) {
    forall p :: 0 <= p < |s.peers| ==>
      Carries(s.peers[p].inbox, x, DELETES) && Carries(s.peers[p].outbox, x, DELETES) && x !in s.peers[p].downloads
  }

  /** A file is deleted only while nobody is adding, changing or downloading it, and it is neither
      touched nor brought along by a new peer until its deletion has arrived everywhere. */
  ghost predicate Orderly(s: System, step: Step) {
    match step
    case Join(_, local, _, _) => forall x :: Deleting(s, x) ==> x !in local && x !in s.tracker
    case LocalEdit(p, batch) =>
      forall x :: x in Names(batch) ==>
        (Only(batch, x, EDITS) && !Deleting(s, x)) || (Only(batch, x, DELETES) && Calm(s, x))
    case _ => true
  }

  ghost predicate OrderlyRun(s: System, steps: seq<Step>)
    requires IsRun(s, steps)
    decreases |steps|
  {
    steps == [] || (Orderly(s, steps[0]) && OrderlyRun(Apply(s, steps[0]), steps[1..]))
  }

  // ---------- the invariant ----------

  /** T below P joined with Q, P joined with Q below T joined with U, and U below P, for one name:
      T is the tracker's table, P the peer's, Q the broadcasts and U the updates under way. */
  ghost predicate Between(t: Table, peer: Peer, x: Name) {
    && Ts(t, x) <= Max(Ts(peer.table, x), ListTs(Flat(peer.inbox), x))
    && Max(Ts(peer.table, x), ListTs(Flat(peer.inbox), x)) <= Max(Ts(t, x), ListTs(Flat(peer.outbox), x))
    && ListTs(Flat(peer.outbox), x) <= Ts(peer.table, x)
  }

  ghost predicate PeerNormal(t: Table, peer: Peer, x: Name) {
    && Carries(peer.inbox, x, EDITS) && Carries(peer.outbox, x, EDITS)
    && Safe(x in t, Flat(peer.outbox), x)
    && (x in peer.downloads ==> x in peer.table)
    && Between(t, peer, x)
  }

  /** A name that is not being deleted. */
  ghost predicate Normal(s: System, x: Name) {
    forall p :: 0 <= p < |s.peers| ==> PeerNormal(s.tracker, s.peers[p], x)
  }

  ghost predicate PeerDying(t: Table, peer: Peer, x: Name) {
    && Carries(peer.inbox, x, DELETES) && Carries(peer.outbox, x, DELETES)
    && x !in peer.downloads
    && (Named(peer.outbox, x) ==> x !in peer.table)
    && (x !in t && x in peer.table ==> Named(peer.inbox, x))
  }

  /** A name that is being deleted: the tracker will be told, and once it was, every peer that still has
      the name will be. */
  ghost predicate Dying(s: System, x: Name) {
    && (forall p :: 0 <= p < |s.peers| ==> PeerDying(s.tracker, s.peers[p], x))
    && (x in s.tracker ==> SomeoneTells(s, x))
  }

  ghost predicate SomeoneTells(s: System, x: Name) {
    exists p :: 0 <= p < |s.peers| && Named(s.peers[p].outbox, x)
  }

  ghost predicate NameInv(s: System, x: Name) {
    Normal(s, x) || Dying(s, x)
  }

  ghost predicate Inv(s: System) {
    forall x :: NameInv(s, x)
  }

  // ---------- a name that is not being deleted ----------

  /** A peer that is told about everything that changed at the tracker. */
  lemma {:induction false} HearNormal(t: Table, t': Table, peer: Peer, packet: Packet, x: Name)
    requires PeerNormal(t, peer, x) && Only(packet, x, EDITS)
    requires Ts(t, x) <= Ts(t', x) && ListTs(packet, x) <= Ts(t', x)
    requires Ts(t', x) > Ts(t, x) ==> ListTs(packet, x) == Ts(t', x)
    ensures PeerNormal(t', Hear(peer, packet), x)
  {
    if packet == [] {
      assert ListTs(packet, x) == -1;
    } else {
      QueueSnoc(peer.inbox, packet, x);
    }
  }

  /** The peer whose oldest update reached the tracker. */
  lemma SentNormal(t: Table, peer: Peer, x: Name)
    requires PeerNormal(t, peer, x) && peer.outbox != []
    ensures Only(peer.outbox[0], x, EDITS)
    ensures PeerNormal(UpdateRun(t, peer.outbox[0]).table, Sent(peer), x)
  {
    var packet := peer.outbox[0];
    QueueCons(peer.outbox, x);
    SafeConcat(x in t, packet, Flat(peer.outbox[1..]), x);
    UpdateRunTs(t, packet, x);
    ReplayEdits(Ts(t, x), packet, x);
    ListTsMeans(packet, x);
  }

  lemma {:induction false} ReceivedNormal(t: Table, peer: Peer, x: Name)
    requires PeerNormal(t, peer, x) && peer.inbox != []
    ensures PeerNormal(t, Received(peer), x)
  {
    var packet := peer.inbox[0];
    QueueCons(peer.inbox, x);
    HearRunTs(peer.table, packet, peer.id.ip, x);
    ReplayEdits(Ts(peer.table, x), packet, x);
    HearDownloads(peer.table, packet, peer.id.ip, x);
    ListTsMeans(packet, x);
  }

  /** Sending a packet about a name the peer knows, not newer than its table. */
  lemma {:induction false} EnqueueNormal(t: Table, peer: Peer, table': Table, packet: Packet, x: Name)
    requires PeerNormal(t, peer, x) && Only(packet, x, EDITS) && Safe(x in peer.table, packet, x)
    requires Ts(table', x) == Max(Ts(peer.table, x), ListTs(packet, x))
    ensures PeerNormal(t, peer.(table := table', outbox := peer.outbox + [packet]), x)
  {
    QueueSnoc(peer.outbox, packet, x);
    FlatSnoc(peer.outbox, packet);
    ListTsMeans(Flat(peer.outbox), x);
    SafeConcat(x in t, Flat(peer.outbox), packet, x);
  }

  /** A name that is live wherever it is changed is known or mentioned before. */
  lemma {:induction false} UnconflictedIsSafe(t: Table, packet: Packet, x: Name)
    requires Only(packet, x, EDITS) && !ConflictFires(t, packet)
    ensures Safe(x in t, packet, x)
  {
    forall k | 0 <= k < |packet| && packet[k].name == x && packet[k].op == OpModify && x !in t
      ensures x in Names(packet[..k])
    {
      UpdateRunTs(t, packet[..k], x);
      ReplayEdits(-1, packet[..k], x);
      ListTsMeans(packet[..k], x);
    }
  }

  lemma {:induction false} EditedNormal(t: Table, peer: Peer, batch: Packet, x: Name)
    requires PeerNormal(t, peer, x) && !ConflictFires(peer.table, batch) && Only(batch, x, EDITS)
    ensures PeerNormal(t, LocallyEdited(peer, batch), x)
  {
    LocalRunIsUpdate(peer.table, batch);
    UpdateRunTs(peer.table, batch, x);
    ReplayEdits(Ts(peer.table, x), batch, x);
    UnconflictedIsSafe(peer.table, batch, x);
    EnqueueNormal(t, peer, LocalRun(peer.table, batch), batch, x);
  }

  lemma DownloadedNormal(t: Table, peer: Peer, d: nat, x: Name)
    requires PeerNormal(t, peer, x) && d < |peer.downloads| && peer.downloads[d] in peer.table
    ensures PeerNormal(t, Downloaded(peer, d), x)
  {
    var note := Notify(peer.table, peer.downloads[d], peer.id);
    ListTsOne(note, x);
    EnqueueNormal(t, peer, peer.table, [note], x);
    var queued := peer.(outbox := peer.outbox + [[note]]);
    assert Between(t, queued, x) ==> Between(t, Downloaded(peer, d), x);
  }

  /** After a join the peer and the tracker hold the same timestamp, the greater of the two, for
      every name, and the broadcast tells the other peers exactly what changed. */
  lemma {:induction false} SyncExchange(t: Table, local: Table, sent: Packet, visited: seq<TransEntry>, me: nat, x: Name)
    requires Enumerates(local, sent) && Enumerates(t, visited)
    ensures Ts(SyncRun(t, sent).table, x) == Max(Ts(t, x), Ts(local, x))
    ensures Ts(SyncLearn(local, SyncReply(visited, sent), me).table, x) == Max(Ts(t, x), Ts(local, x))
    ensures ListTs(SyncRun(t, sent).out, x) == if Ts(local, x) > Ts(t, x) then Ts(local, x) else -1
  {
    EnumeratesTs(local, sent, x);
    EnumeratesTs(t, visited, x);
    SyncRunTable(t, sent);
    AddAllTs(t, sent, x);
    SyncRunTs(t, sent, x);
    SyncReplyTs(visited, sent, x);
    SyncLearnTs(local, SyncReply(visited, sent), me, x);
  }

  /** A third peer that agreed with the tracker before a sync agrees with it again once it has
      applied the broadcast. */
  lemma BystanderAgrees(t: Table, local: Table, sent: Packet, other: Table, me: nat)
    requires Enumerates(local, sent)
    requires forall x :: Ts(other, x) == Ts(t, x)
    ensures forall x :: Ts(HearRun(other, SyncRun(t, sent).out, me).table, x) == Ts(SyncRun(t, sent).table, x)
  {
    var run := SyncRun(t, sent);
    forall x
      ensures Ts(HearRun(other, run.out, me).table, x) == Ts(run.table, x)
    {
      SyncRunTs(t, sent, x);
      HearRunTs(other, run.out, me, x);
      ReplayEdits(Ts(other, x), run.out, x);
      SyncRunTable(t, sent);
      AddAllTs(t, sent, x);
    }
  }

  lemma JoinedNormal(s: System, id: PeerId, local: Table, sent: Packet, visited: seq<TransEntry>, x: Name)
    requires Enabled(s, Join(id, local, sent, visited))
    ensures PeerNormal(SyncRun(s.tracker, sent).table, Joined(s, id, local, sent, visited), x)
  {
    SyncLearnDownloads(local, SyncReply(visited, sent), id.ip);
    SyncExchange(s.tracker, local, sent, visited, id.ip, x);
  }

  lemma JoinTells(t: Table, peer: Peer, sent: Packet, x: Name)
    requires PeerNormal(t, peer, x)
    ensures PeerNormal(SyncRun(t, sent).table, Hear(peer, SyncRun(t, sent).out), x)
  {
    var run := SyncRun(t, sent);
    SyncRunTable(t, sent);
    SyncRunTs(t, sent, x);
    AddAllTs(t, sent, x);
    HearNormal(t, run.table, peer, run.out, x);
  }

  lemma {:induction false} UpdateTells(t: Table, peer: Peer, packet: Packet, x: Name)
    requires PeerNormal(t, peer, x) && Only(packet, x, EDITS) && !ConflictFires(t, packet)
    ensures PeerNormal(UpdateRun(t, packet).table, Hear(peer, UpdateRun(t, packet).out), x)
  {
    var run := UpdateRun(t, packet);
    UpdateRunTs(t, packet, x);
    ReplayEdits(Ts(t, x), packet, x);
    EditsTold(t, packet, x);
    HearNormal(t, run.table, peer, run.out, x);
  }

  /** No update under way makes the tracker meet a MODIFY of a name it does not know. */
  lemma NoConflict(s: System, p: nat)
    requires Inv(s) && p < |s.peers| && s.peers[p].outbox != []
    ensures !ConflictFires(s.tracker, s.peers[p].outbox[0])
  {
    var t, packet := s.tracker, s.peers[p].outbox[0];
    forall k | 0 <= k < |packet| && packet[k].op == OpModify
      ensures packet[k].name in UpdateRun(t, packet[..k]).table
    {
      NoConflictAt(s, p, k, packet[k].name);
    }
  }

  lemma NoConflictAt(s: System, p: nat, k: nat, x: Name)
    requires p < |s.peers| && s.peers[p].outbox != [] && NameInv(s, x)
    requires k < |s.peers[p].outbox[0]| && s.peers[p].outbox[0][k].name == x && s.peers[p].outbox[0][k].op == OpModify
    ensures x in UpdateRun(s.tracker, s.peers[p].outbox[0][..k]).table
  {
    var t, peer := s.tracker, s.peers[p];
    var packet := peer.outbox[0];
    QueueCons(peer.outbox, x);
    assert !Only(packet, x, DELETES);
    SafeConcat(x in t, packet, Flat(peer.outbox[1..]), x);
    UpdateRunTs(t, packet[..k], x);
    ReplayEdits(Ts(t, x), packet[..k], x);
    ListTsMeans(packet[..k], x);
  }

  /** A step that does not delete `x`, for a name that is not being deleted. */
  lemma StepNormal(s: System, step: Step, x: Name)
    requires Inv(s) && Normal(s, x) && Enabled(s, step)
    requires step.LocalEdit? ==> Only(step.batch, x, EDITS)
    ensures Normal(Apply(s, step), x)
  {
    var s' := Apply(s, step);
    match step
    case Join(id, local, sent, visited) =>
      JoinedNormal(s, id, local, sent, visited, x);
      forall p | 0 <= p < |s.peers|
        ensures PeerNormal(s'.tracker, s'.peers[p], x)
      {
        JoinTells(s.tracker, s.peers[p], sent, x);
      }
    case LocalEdit(p, batch) => EditedNormal(s.tracker, s.peers[p], batch, x);
    case DeliverUpdate(p) =>
      NoConflict(s, p);
      SentNormal(s.tracker, s.peers[p], x);
      forall q | 0 <= q < |s'.peers| && q != p
        ensures PeerNormal(s'.tracker, s'.peers[q], x)
      {
        UpdateTells(s.tracker, s.peers[q], s.peers[p].outbox[0], x);
      }
    case DeliverBroadcast(p) => ReceivedNormal(s.tracker, s.peers[p], x);
    case DownloadDone(p, d) => DownloadedNormal(s.tracker, s.peers[p], d, x);
    case DownloadFail(p, d) =>
      assert Between(s.tracker, s.peers[p], x) ==> Between(s.tracker, s'.peers[p], x);
  }

  // ---------- a name that is being deleted ----------

  /** A deletion that has arrived everywhere is over. */
  lemma DeletionOver(s: System, x: Name)
    requires Dying(s, x) && !Deleting(s, x)
    ensures Normal(s, x)
  {
    forall p | 0 <= p < |s.peers|
      ensures !Named(s.peers[p].inbox, x) && !Named(s.peers[p].outbox, x)
    {
      NamedDeletes(s.peers[p].inbox, x);
      NamedDeletes(s.peers[p].outbox, x);
    }
    forall p | 0 <= p < |s.peers|
      ensures PeerNormal(s.tracker, s.peers[p], x)
    {
      UnnamedIsNormal(s.tracker, s.peers[p], x);
    }
  }

  lemma NamedDeletes(queue: seq<Packet>, x: Name)
    requires Carries(queue, x, DELETES)
    ensures Named(queue, x) ==> Deletes(Flat(queue), x)
  {}

  lemma UnnamedIsNormal(t: Table, peer: Peer, x: Name)
    requires !Named(peer.inbox, x) && !Named(peer.outbox, x) && x !in t && x !in peer.table && x !in peer.downloads
    ensures PeerNormal(t, peer, x)
  {
    Unnamed(Flat(peer.inbox), x);
    Unnamed(Flat(peer.outbox), x);
  }

  lemma Unnamed(es: Packet, x: Name)
    requires x !in Names(es)
    ensures ListTs(es, x) == -1 && forall ops :: Only(es, x, ops)
  {
    assert forall k :: 0 <= k < |es| ==> es[k].name in Names(es);
    ListTsMeans(es, x);
  }

  /** A name nobody is adding, changing or downloading is held by the tracker and all peers, with one
      timestamp, or by none of them. */
  lemma CalmAgrees(s: System, x: Name, p: nat)
    requires Normal(s, x) && Calm(s, x) && p < |s.peers|
    ensures !Named(s.peers[p].inbox, x) && !Named(s.peers[p].outbox, x)
    ensures Ts(s.peers[p].table, x) == Ts(s.tracker, x)
  {
    var peer := s.peers[p];
    assert PeerNormal(s.tracker, peer, x);
    OnlyBoth(Flat(peer.inbox), x);
    OnlyBoth(Flat(peer.outbox), x);
    Unnamed(Flat(peer.inbox), x);
    Unnamed(Flat(peer.outbox), x);
  }

  lemma OnlyBoth(es: Packet, x: Name)
    requires Only(es, x, EDITS) && Only(es, x, DELETES)
    ensures x !in Names(es)
  {}

  lemma CalmIsDying(s: System, x: Name)
    requires NameInv(s, x) && Calm(s, x)
    ensures Dying(s, x) || (x in s.tracker && forall p :: 0 <= p < |s.peers| ==>
              PeerDying(s.tracker, s.peers[p], x) && !Named(s.peers[p].inbox, x) && !Named(s.peers[p].outbox, x))
  {
    if !Dying(s, x) {
      forall p | 0 <= p < |s.peers|
        ensures PeerDying(s.tracker, s.peers[p], x) && !Named(s.peers[p].inbox, x) && !Named(s.peers[p].outbox, x)
      {
        CalmAgrees(s, x, p);
      }
    }
  }

  /** A peer deletes a name that nobody is adding, changing or downloading. */
  lemma DeletedDying(s: System, p: nat, batch: Packet, x: Name)
    requires NameInv(s, x) && Calm(s, x) && Enabled(s, LocalEdit(p, batch))
    requires x in Names(batch) && Only(batch, x, DELETES)
    ensures Dying(Apply(s, LocalEdit(p, batch)), x)
  {
    var s', peer := Apply(s, LocalEdit(p, batch)), s.peers[p];
    CalmIsDying(s, x);
    LocalRunIsUpdate(peer.table, batch);
    UpdateRunTs(peer.table, batch, x);
    ReplayDeletes(Ts(peer.table, x), batch, x);
    QueueSnoc(peer.outbox, batch, x);
    assert Named(s'.peers[p].outbox, x);
    forall q | 0 <= q < |s'.peers|
      ensures PeerDying(s'.tracker, s'.peers[q], x)
    {
      assert PeerDying(s.tracker, s.peers[q], x);
    }
  }

  lemma HearDying(t: Table, t': Table, peer: Peer, packet: Packet, x: Name)
    requires PeerDying(t, peer, x) && Only(packet, x, DELETES)
    requires x !in t' ==> x !in t || x in Names(packet)
    ensures PeerDying(t', Hear(peer, packet), x)
  {
    QueueSnoc(peer.inbox, packet, x);
  }

  lemma UpdateDying(s: System, p: nat, x: Name)
    requires Inv(s) && Dying(s, x) && Enabled(s, DeliverUpdate(p))
    ensures Dying(Apply(s, DeliverUpdate(p)), x)
  {
    var s', t, peer := Apply(s, DeliverUpdate(p)), s.tracker, s.peers[p];
    var packet := peer.outbox[0];
    NoConflict(s, p);
    QueueCons(peer.outbox, x);
    UpdateRunTs(t, packet, x);
    ReplayDeletes(Ts(t, x), packet, x);
    DeletesTold(t, packet, x);
    forall q | 0 <= q < |s'.peers| && q != p
      ensures PeerDying(s'.tracker, s'.peers[q], x)
    {
      HearDying(t, s'.tracker, s.peers[q], UpdateRun(t, packet).out, x);
    }
    if x in s'.tracker {
      var q :| 0 <= q < |s.peers| && Named(s.peers[q].outbox, x);
      assert Named(s'.peers[q].outbox, x);
    }
  }

  lemma ReceivedDying(t: Table, peer: Peer, x: Name)
    requires PeerDying(t, peer, x) && peer.inbox != []
    ensures PeerDying(t, Received(peer), x)
  {
    var packet := peer.inbox[0];
    QueueCons(peer.inbox, x);
    HearRunTs(peer.table, packet, peer.id.ip, x);
    ReplayDeletes(Ts(peer.table, x), packet, x);
    HearDownloads(peer.table, packet, peer.id.ip, x);
  }

  lemma DownloadedDying(t: Table, peer: Peer, d: nat, x: Name)
    requires PeerDying(t, peer, x) && d < |peer.downloads| && peer.downloads[d] in peer.table
    ensures PeerDying(t, Downloaded(peer, d), x)
    ensures Named(peer.outbox, x) ==> Named(Downloaded(peer, d).outbox, x)
  {
    var note := Notify(peer.table, peer.downloads[d], peer.id);
    QueueSnoc(peer.outbox, [note], x);
    NamesOne(note);
  }

  lemma JoinDying(s: System, id: PeerId, local: Table, sent: Packet, visited: seq<TransEntry>, x: Name)
    requires Dying(s, x) && Enabled(s, Join(id, local, sent, visited)) && x !in local && x !in s.tracker
    ensures Dying(Apply(s, Join(id, local, sent, visited)), x)
  {
    var s', t := Apply(s, Join(id, local, sent, visited)), s.tracker;
    var out := SyncRun(t, sent).out;
    SyncLearnDownloads(local, SyncReply(visited, sent), id.ip);
    SyncExchange(t, local, sent, visited, id.ip, x);
    ListTsMeans(out, x);
    assert Only(out, x, DELETES);
    assert PeerDying(s'.tracker, Joined(s, id, local, sent, visited), x);
    forall p | 0 <= p < |s.peers|
      ensures PeerDying(s'.tracker, s'.peers[p], x)
    {
      HearDying(t, s'.tracker, s.peers[p], out, x);
    }
  }

  lemma EditedDying(s: System, p: nat, batch: Packet, x: Name)
    requires Dying(s, x) && Enabled(s, LocalEdit(p, batch)) && x !in Names(batch)
    ensures Dying(Apply(s, LocalEdit(p, batch)), x)
  {
    var s', peer := Apply(s, LocalEdit(p, batch)), s.peers[p];
    Unnamed(batch, x);
    LocalRunIsUpdate(peer.table, batch);
    UpdateRunTs(peer.table, batch, x);
    ReplayDeletes(Ts(peer.table, x), batch, x);
    QueueSnoc(peer.outbox, batch, x);
    StillTelling(s, s', x);
  }

  lemma StillTelling(s: System, s': System, x: Name)
    requires |s.peers| <= |s'.peers|
    requires forall p :: 0 <= p < |s.peers| && Named(s.peers[p].outbox, x) ==> Named(s'.peers[p].outbox, x)
    ensures SomeoneTells(s, x) ==> SomeoneTells(s', x)
  {}

  lemma StepDying(s: System, step: Step, x: Name)
    requires Inv(s) && Dying(s, x) && Deleting(s, x) && Enabled(s, step) && Orderly(s, step)
    ensures Dying(Apply(s, step), x)
  {
    var s' := Apply(s, step);
    match step
    case Join(id, local, sent, visited) => JoinDying(s, id, local, sent, visited, x);
    case LocalEdit(p, batch) =>
      if x in Names(batch) {
        DeletedDying(s, p, batch, x);
      } else {
        EditedDying(s, p, batch, x);
      }
    case DeliverUpdate(p) => UpdateDying(s, p, x);
    case DeliverBroadcast(p) =>
      ReceivedDying(s.tracker, s.peers[p], x);
      StillTelling(s, s', x);
    case DownloadDone(p, d) =>
      DownloadedDying(s.tracker, s.peers[p], d, x);
      StillTelling(s, s', x);
    case DownloadFail(p, d) => StillTelling(s, s', x);
  }

  // ---------- every run ----------

  /** Every orderly step keeps the invariant. */
  lemma StepKeepsInv(s: System, step: Step)
    requires Inv(s) && Enabled(s, step) && Orderly(s, step)
    ensures Inv(Apply(s, step))
  {
    forall x
      ensures NameInv(Apply(s, step), x)
    {
      assert NameInv(s, x);
      if Dying(s, x) && Deleting(s, x) {
        StepDying(s, step, x);
      } else {
        if Dying(s, x) { DeletionOver(s, x); }
        NormalStep(s, step, x);
      }
    }
  }

  lemma NormalStep(s: System, step: Step, x: Name)
    requires Inv(s) && Normal(s, x) && Enabled(s, step) && Orderly(s, step)
    ensures NameInv(Apply(s, step), x)
  {
    if step.LocalEdit? && x in Names(step.batch) && Only(step.batch, x, DELETES) {
      if Calm(s, x) {
        DeletedDying(s, step.p, step.batch, x);
      } else {
        OnlyBoth(step.batch, x);
      }
    } else {
      if step.LocalEdit? && x !in Names(step.batch) { Unnamed(step.batch, x); }
      StepNormal(s, step, x);
    }
  }

  lemma {:induction false} RunKeepsInv(s: System, steps: seq<Step>)
    requires Inv(s) && IsRun(s, steps) && OrderlyRun(s, steps)
    ensures Inv(After(s, steps))
    decreases |steps|
  {
    if steps != [] {
      StepKeepsInv(s, steps[0]);
      RunKeepsInv(Apply(s, steps[0]), steps[1..]);
    }
  }

  lemma InitialInv()
    ensures Inv(INITIAL)
  {
    forall x
      ensures NameInv(INITIAL, x)
    {
      assert Normal(INITIAL, x);
    }
  }

  // ---------- convergence ----------

  function Timestamps(t: Table): map<Name, nat> {
    map x | x in t :: t[x].timestamp
  }

  ghost predicate QueuesEmpty(s: System) {
    forall p :: 0 <= p < |s.peers| ==> s.peers[p].inbox == [] && s.peers[p].outbox == []
  }

  /** Whenever no message is under way, every peer holds exactly the tracker's names and
      timestamps: in every orderly run, of any length, with any number of peers. */
  lemma {:induction false} Convergence(steps: seq<Step>, p: nat)
    requires IsRun(INITIAL, steps) && OrderlyRun(INITIAL, steps)
    requires p < |After(INITIAL, steps).peers|
    requires QueuesEmpty(After(INITIAL, steps))
    ensures Timestamps(After(INITIAL, steps).peers[p].table) == Timestamps(After(INITIAL, steps).tracker)
  {
    InitialInv();
    RunKeepsInv(INITIAL, steps);
    SameTimestamps(After(INITIAL, steps), p);
  }

  lemma SameTimestamps(s: System, p: nat)
    requires Inv(s) && p < |s.peers| && QueuesEmpty(s)
    ensures Timestamps(s.peers[p].table) == Timestamps(s.tracker)
  {
    forall x
      ensures Ts(s.tracker, x) == Ts(s.peers[p].table, x)
    {
      assert NameInv(s, x);
      if Normal(s, x) {
        assert PeerNormal(s.tracker, s.peers[p], x);
      } else {
        assert PeerDying(s.tracker, s.peers[p], x);
      }
    }
    SameTs(s.tracker, s.peers[p].table);
  }

  lemma SameTs(a: Table, b: Table)
    requires forall x :: Ts(a, x) == Ts(b, x)
    ensures Timestamps(b) == Timestamps(a)
  {
    forall x
      ensures x in a <==> x in b
      ensures x in a ==> a[x].timestamp == b[x].timestamp
    {
      assert Ts(a, x) == Ts(b, x);
    }
  }

  predicate OnlyEdits(step: Step) {
    step.LocalEdit? ==> forall k :: 0 <= k < |step.batch| ==> IsEdit(step.batch[k])
  }

  /** A run without deletions is orderly. */
  lemma {:induction false} EditsAreOrderly(s: System, steps: seq<Step>)
    requires IsRun(s, steps) && forall x :: Normal(s, x)
    requires forall i :: 0 <= i < |steps| ==> OnlyEdits(steps[i])
    ensures OrderlyRun(s, steps)
    decreases |steps|
  {
    if steps != [] {
      forall x
        ensures !Deleting(s, x)
      {
        assert Normal(s, x);
      }
      assert Inv(s);
      forall x
        ensures Normal(Apply(s, steps[0]), x)
      {
        StepNormal(s, steps[0], x);
      }
      EditsAreOrderly(Apply(s, steps[0]), steps[1..]);
    }
  }

  /** So without deletions nothing has to be avoided. */
  lemma {:induction false} EditsConverge(steps: seq<Step>, p: nat)
    requires IsRun(INITIAL, steps) && forall i :: 0 <= i < |steps| ==> OnlyEdits(steps[i])
    requires p < |After(INITIAL, steps).peers|
    requires QueuesEmpty(After(INITIAL, steps))
    ensures Timestamps(After(INITIAL, steps).peers[p].table) == Timestamps(After(INITIAL, steps).tracker)
  {
    forall x
      ensures Normal(INITIAL, x)
    {}
    EditsAreOrderly(INITIAL, steps);
    Convergence(steps, p);
  }

  /** In no orderly run does the tracker meet a MODIFY of a name it does not know. */
  lemma UnknownModifyNeverFires(steps: seq<Step>, p: nat)
    requires IsRun(INITIAL, steps) && OrderlyRun(INITIAL, steps)
    requires p < |After(INITIAL, steps).peers| && After(INITIAL, steps).peers[p].outbox != []
    ensures !ConflictFires(After(INITIAL, steps).tracker, After(INITIAL, steps).peers[p].outbox[0])
  {
    InitialInv();
    RunKeepsInv(INITIAL, steps);
    NoConflict(After(INITIAL, steps), p);
  }
}
