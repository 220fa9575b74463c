/** Why a deletion must not cross a change of the same file: it ignores timestamps, and the peer that deletes
    is not told about its own deletion. */
module DeletionRace {
  import opened Entries
  import opened TrackerSpec
  import opened PeerSpec
  import opened SyncProtocol

  /** The entries about one name. */
  function About(es: seq<TransEntry>, x: Name): seq<TransEntry> {
    if es == [] then []
    else About(es[..|es| - 1], x) + if es[|es| - 1].name == x then [es[|es| - 1]] else []
  }

  lemma {:induction false} AboutConcat(a: seq<TransEntry>, b: seq<TransEntry>, x: Name)
    ensures About(a + b, x) == About(a, x) + About(b, x)
    decreases |b|
  {
    if b == [] {
      assert a + b == a;
    } else {
      assert (a + b)[..|a + b| - 1] == a + b[..|b| - 1];
      AboutConcat(a, b[..|b| - 1], x);
    }
  }

  lemma {:induction false} NothingAbout(es: seq<TransEntry>, x: Name)
    requires x !in Names(es)
    ensures About(es, x) == [] && forall v :: Replay(v, es, x) == v
  {
    if es != [] {
      var rest, last := es[..|es| - 1], es[|es| - 1];
      assert es == rest + [last];
      NamesSnoc(rest, last);
      NothingAbout(rest, x);
    }
  }

  // ---------- what a packet with at most one entry about a name does ----------

  lemma OneTold(t: Table, te: TransEntry, x: Name, v: int)
    requires x != []
    ensures te.name != x ==> Replay(v, UpdateOne(t, te).out, x) == v
    ensures te.name == x && te.op == OpDelete ==>
              Replay(v, UpdateOne(t, te).out, x) == if x in t then -1 else v
    ensures te.name == x && te.op == OpModify ==>
              (Replay(v, UpdateOne(t, te).out, x) >= 0 <==> x in t || v >= 0)
  {
    var out := UpdateOne(t, te).out;
    if out != [] {
      assert out[..|out| - 1] == [] && Replay(v, [], x) == v;
    }
  }

  lemma {:induction false} UpdateUnmentioned(t: Table, packet: Packet, x: Name)
    requires x != [] && About(packet, x) == []
    ensures x in UpdateRun(t, packet).table <==> x in t
    ensures forall v :: Replay(v, UpdateRun(t, packet).out, x) == v
  {
    if packet != [] {
      var rest, last := packet[..|packet| - 1], packet[|packet| - 1];
      UpdateUnmentioned(t, rest, x);
      forall v
        ensures Replay(v, UpdateRun(t, packet).out, x) == v
      {
        NextTold(UpdateRun(t, rest), last, x, v);
      }
    }
  }

  lemma NextTold(prior: Outcome, te: TransEntry, x: Name, v: int)
    requires x != []
    ensures te.name != x ==>
              Replay(v, prior.out + UpdateOne(prior.table, te).out, x) == Replay(v, prior.out, x)
    ensures te.name == x ==>
              Replay(v, prior.out + UpdateOne(prior.table, te).out, x)
              == Replay(Replay(v, prior.out, x), UpdateOne(prior.table, te).out, x)
  {
    ReplayConcat(v, prior.out, UpdateOne(prior.table, te).out, x);
    OneTold(prior.table, te, x, Replay(v, prior.out, x));
  }

  /** A deletion takes a name away from the tracker, and from whoever hears of it if the tracker had the
      name. A change brings the name to the tracker, but to others only if the tracker had it. */
  lemma {:induction false} UpdateMentioned(t: Table, packet: Packet, x: Name, te: TransEntry, v: int)
    requires x != [] && About(packet, x) == [te] && te.name == x && (te.op == OpDelete || te.op == OpModify)
    ensures x in UpdateRun(t, packet).table <==> te.op == OpModify
    ensures Replay(v, UpdateRun(t, packet).out, x) >= 0 <==>
            if x in t then te.op == OpModify else v >= 0
  {
    var rest, last := packet[..|packet| - 1], packet[|packet| - 1];
    var prior := UpdateRun(t, rest);
    NextTold(prior, last, x, v);
    if last.name == x {
      assert About(packet, x)[|About(rest, x)|] == last;
      UpdateUnmentioned(t, rest, x);
      OneTold(prior.table, te, x, v);
      OnePresent(prior.table, te, x);
    } else {
      UpdateMentioned(t, rest, x, te, v);
      OnePresent(prior.table, last, x);
    }
  }

  lemma OnePresent(t: Table, te: TransEntry, x: Name)
    ensures x in UpdateOne(t, te).table <==>
            if te.name == x && te.op != OpNone then te.op != OpDelete else x in t
  {}

  // ---------- the course of the race ----------

  /** Peer p deletes `x` while peer q changes it. */
  datatype Race = Race(x: Name, p: nat, q: nat, del: TransEntry, change: TransEntry) {
    predicate Valid() {
      && x != [] && p != q
      && del.name == x && del.op == OpDelete && change.name == x && change.op == OpModify
    }
  }

  /** Both are under way; or the deletion arrived first, and then the change; or the change arrived first,
      and then the deletion. */
  datatype Stage = Crossing | DeletedFirst | Stranded | ChangedFirst | Kept

  /** The tracker has the name. */
  predicate Holds(stage: Stage) {
    stage == Crossing || stage == Stranded || stage == ChangedFirst
  }

  /** What a peer has yet to tell the tracker about the name. */
  function Pending(race: Race, stage: Stage, r: nat): seq<TransEntry> {
    if r == race.p && (stage == Crossing || stage == ChangedFirst) then [race.del]
    else if r == race.q && (stage == Crossing || stage == DeletedFirst) then [race.change]
    else []
  }

  /** Whether the peer has the name once it has heard all that is on its way. */
  ghost predicate Ends(peer: Peer, x: Name) {
    Replay(Ts(peer.table, x), Flat(peer.inbox), x) >= 0
  }

  ghost predicate PeerAt(race: Race, stage: Stage, r: nat, peer: Peer) {
    && About(Flat(peer.outbox), race.x) == Pending(race, stage, r)
    && (r == race.p ==> (Ends(peer, race.x) <==> stage == ChangedFirst || stage == Kept))
    && (stage == DeletedFirst || stage == Stranded ==> !Ends(peer, race.x))
  }

  ghost predicate At(race: Race, stage: Stage, s: System) {
    && race.p < |s.peers| && race.q < |s.peers|
    && (race.x in s.tracker <==> Holds(stage))
    && forall r :: 0 <= r < |s.peers| ==> PeerAt(race, stage, r, s.peers[r])
  }

  /** Nobody else touches the name, no download of it ends well, and no new peer is handed it. */
  ghost predicate LeavesAlone(s: System, step: Step, x: Name)
    requires Enabled(s, step)
  {
    match step
    case Join(_, local, _, _) => x !in local && x !in s.tracker
    case LocalEdit(_, batch) => x !in Names(batch)
    case DownloadDone(p, d) => s.peers[p].downloads[d] != x
    case _ => true
  }

  ghost predicate LeftAlone(s: System, steps: seq<Step>, x: Name)
    requires IsRun(s, steps)
    decreases |steps|
  {
    steps == [] || (LeavesAlone(s, steps[0], x) && LeftAlone(Apply(s, steps[0]), steps[1..], x))
  }

  lemma HearEnds(peer: Peer, packet: Packet, x: Name)
    ensures Ends(Hear(peer, packet), x) <==> Replay(Replay(Ts(peer.table, x), Flat(peer.inbox), x), packet, x) >= 0
  {
    FlatSnoc(peer.inbox, packet);
    ReplayConcat(Ts(peer.table, x), Flat(peer.inbox), packet, x);
    assert packet == [] ==> Replay(Replay(Ts(peer.table, x), Flat(peer.inbox), x), packet, x) == Replay(Ts(peer.table, x), Flat(peer.inbox), x);
  }

  lemma ReceivedEnds(peer: Peer, x: Name)
    requires peer.inbox != []
    ensures Ends(Received(peer), x) <==> Ends(peer, x)
  {
    HearRunTs(peer.table, peer.inbox[0], peer.id.ip, x);
    ReplayConcat(Ts(peer.table, x), peer.inbox[0], Flat(peer.inbox[1..]), x);
  }

  lemma EnqueuedAbout(peer: Peer, packet: Packet, x: Name)
    requires x !in Names(packet)
    ensures About(Flat(peer.outbox + [packet]), x) == About(Flat(peer.outbox), x)
  {
    FlatSnoc(peer.outbox, packet);
    AboutConcat(Flat(peer.outbox), packet, x);
    NothingAbout(packet, x);
  }

  function Next(race: Race, stage: Stage, r: nat): Stage {
    match stage
    case Crossing => if r == race.p then DeletedFirst else ChangedFirst
    case DeletedFirst => Stranded
    case ChangedFirst => Kept
    case _ => stage
  }

  /** What the tracker and a bystander make of the entry that is due. */
  lemma {:induction false} BystanderMoves(race: Race, stage: Stage, t: Table, packet: Packet, r: nat, k: nat, peer: Peer)
    requires race.Valid() && (race.x in t <==> Holds(stage)) && k != r && PeerAt(race, stage, k, peer)
    requires Pending(race, stage, r) != [] && About(packet, race.x) == Pending(race, stage, r)
    ensures PeerAt(race, Next(race, stage, r), k, Hear(peer, UpdateRun(t, packet).out))
  {
    var v := Replay(Ts(peer.table, race.x), Flat(peer.inbox), race.x);
    var te := Pending(race, stage, r)[0];
    UpdateMentioned(t, packet, race.x, te, v);
    HearEnds(peer, UpdateRun(t, packet).out, race.x);
    HearingMoves(race, stage, r, k, peer, Hear(peer, UpdateRun(t, packet).out));
  }

  lemma HearingMoves(race: Race, stage: Stage, r: nat, k: nat, peer: Peer, peer': Peer)
    requires race.Valid() && k != r && PeerAt(race, stage, k, peer) && Pending(race, stage, r) != []
    requires peer'.outbox == peer.outbox
    requires Ends(peer', race.x) <==>
             if Holds(stage) then Pending(race, stage, r)[0].op == OpModify else Ends(peer, race.x)
    ensures PeerAt(race, Next(race, stage, r), k, peer')
  {}

  lemma BystanderStays(race: Race, stage: Stage, t: Table, packet: Packet, k: nat, peer: Peer)
    requires race.Valid() && PeerAt(race, stage, k, peer) && About(packet, race.x) == []
    ensures PeerAt(race, stage, k, Hear(peer, UpdateRun(t, packet).out))
  {
    UpdateUnmentioned(t, packet, race.x);
    HearEnds(peer, UpdateRun(t, packet).out, race.x);
  }

  lemma SenderMoves(race: Race, stage: Stage, r: nat, peer: Peer)
    requires race.Valid() && PeerAt(race, stage, r, peer) && peer.outbox != []
    ensures var about := About(peer.outbox[0], race.x);
            if about == [] then PeerAt(race, stage, r, Sent(peer))
            else Pending(race, stage, r) == about && PeerAt(race, Next(race, stage, r), r, Sent(peer))
  {
    var packet, rest := peer.outbox[0], Flat(peer.outbox[1..]);
    AboutConcat(packet, rest, race.x);
    assert |About(packet, race.x)| + |About(rest, race.x)| == |Pending(race, stage, r)| <= 1;
    if About(packet, race.x) != [] { assert About(rest, race.x) == []; }
  }

  /** An update reaches the tracker. */
  lemma UpdateMoves(race: Race, stage: Stage, s: System, r: nat) returns (stage': Stage)
    requires race.Valid() && At(race, stage, s) && Enabled(s, DeliverUpdate(r))
    ensures At(race, stage', Apply(s, DeliverUpdate(r)))
  {
    var t, peer, s' := s.tracker, s.peers[r], Apply(s, DeliverUpdate(r));
    var packet := peer.outbox[0];
    var due := About(packet, race.x) != [];
    SenderMoves(race, stage, r, peer);
    if due {
      stage' := Next(race, stage, r);
      UpdateMentioned(t, packet, race.x, Pending(race, stage, r)[0], 0);
    } else {
      stage' := stage;
      UpdateUnmentioned(t, packet, race.x);
    }
    forall k | 0 <= k < |s'.peers| && k != r
      ensures PeerAt(race, stage', k, s'.peers[k])
    {
      if due {
        BystanderMoves(race, stage, t, packet, r, k, s.peers[k]);
      } else {
        BystanderStays(race, stage, t, packet, k, s.peers[k]);
      }
    }
  }

  lemma JoinKeepsAt(race: Race, stage: Stage, s: System, step: Step)
    requires race.Valid() && At(race, stage, s) && step.Join? && Enabled(s, step) && LeavesAlone(s, step, race.x)
    ensures At(race, stage, Apply(s, step))
  {
    var x, t, s' := race.x, s.tracker, Apply(s, step);
    var out := SyncRun(t, step.sent).out;
    SyncExchange(t, step.local, step.sent, step.visited, step.id.ip, x);
    ListTsMeans(out, x);
    NothingAbout(out, x);
    assert Flat([]) == [];
    forall k | 0 <= k < |s'.peers|
      ensures PeerAt(race, stage, k, s'.peers[k])
    {
      if k < |s.peers| {
        assert PeerAt(race, stage, k, s.peers[k]);
        HearEnds(s.peers[k], out, x);
      }
    }
  }

  /** A peer changes, but not in what it has to tell about the name or in how it ends. */
  lemma OneChanges(race: Race, stage: Stage, s: System, r: nat, peer: Peer)
    requires At(race, stage, s) && r < |s.peers|
    requires About(Flat(peer.outbox), race.x) == About(Flat(s.peers[r].outbox), race.x)
    requires Ends(peer, race.x) <==> Ends(s.peers[r], race.x)
    ensures At(race, stage, s.(peers := s.peers[r := peer]))
  {
    assert PeerAt(race, stage, r, s.peers[r]);
  }

  lemma EditKeepsAt(race: Race, stage: Stage, s: System, step: Step)
    requires race.Valid() && At(race, stage, s) && step.LocalEdit? && Enabled(s, step) && LeavesAlone(s, step, race.x)
    ensures At(race, stage, Apply(s, step))
  {
    var x, peer, batch := race.x, s.peers[step.p], step.batch;
    LocalRunIsUpdate(peer.table, batch);
    UpdateRunTs(peer.table, batch, x);
    NothingAbout(batch, x);
    EnqueuedAbout(peer, batch, x);
    OneChanges(race, stage, s, step.p, LocallyEdited(peer, batch));
  }

  lemma StepMoves(race: Race, stage: Stage, s: System, step: Step) returns (stage': Stage)
    requires race.Valid() && At(race, stage, s) && Enabled(s, step) && LeavesAlone(s, step, race.x)
    ensures At(race, stage', Apply(s, step))
  {
    stage' := stage;
    match step
    case Join(_, _, _, _) => JoinKeepsAt(race, stage, s, step);
    case LocalEdit(_, _) => EditKeepsAt(race, stage, s, step);
    case DeliverUpdate(r) => stage' := UpdateMoves(race, stage, s, r);
    case DeliverBroadcast(r) =>
      ReceivedEnds(s.peers[r], race.x);
      OneChanges(race, stage, s, r, Received(s.peers[r]));
    case DownloadDone(r, d) =>
      var peer := s.peers[r];
      var note := Notify(peer.table, peer.downloads[d], peer.id);
      NamesOne(note);
      EnqueuedAbout(peer, [note], race.x);
      OneChanges(race, stage, s, r, Downloaded(peer, d));
    case DownloadFail(r, d) => OneChanges(race, stage, s, r, Apply(s, step).peers[r]);
  }

  lemma {:induction false} RunMoves(race: Race, stage: Stage, s: System, steps: seq<Step>) returns (stage': Stage)
    requires race.Valid() && At(race, stage, s) && IsRun(s, steps) && LeftAlone(s, steps, race.x)
    ensures At(race, stage', After(s, steps))
    decreases |steps|
  {
    stage' := stage;
    if steps != [] {
      stage' := StepMoves(race, stage, s, steps[0]);
      stage' := RunMoves(race, stage', Apply(s, steps[0]), steps[1..]);
    }
  }

  // ---------- how it ends ----------

  /** The state in which both are under way. */
  ghost function Crossed(race: Race, s: System): System
    requires race.p < |s.peers| && race.q < |s.peers|
  {
    s.(peers := s.peers[race.p := LocallyEdited(s.peers[race.p], [race.del])]
                       [race.q := LocallyEdited(s.peers[race.q], [race.change])])
  }

  /** Nothing about the name is on its way to the tracker or to the deleting peer. */
  ghost predicate Undisturbed(race: Race, s: System) {
    && race.p < |s.peers| && race.q < |s.peers|
    && race.x in s.tracker && race.x in s.peers[race.q].table
    && !Named(s.peers[race.p].inbox, race.x)
    && forall r :: 0 <= r < |s.peers| ==> !Named(s.peers[r].outbox, race.x)
  }

  lemma CrossedAt(race: Race, s: System)
    requires race.Valid() && Undisturbed(race, s)
    ensures At(race, Crossing, Crossed(race, s))
  {
    var x, p, q, s' := race.x, race.p, race.q, Crossed(race, s);
    forall r | 0 <= r < |s'.peers|
      ensures PeerAt(race, Crossing, r, s'.peers[r])
    {
      NothingAbout(Flat(s.peers[r].outbox), x);
      if r == p {
        Announced(s.peers[p], race.del);
        NothingAbout(Flat(s.peers[p].inbox), x);
      } else if r == q {
        Announced(s.peers[q], race.change);
      }
    }
  }

  lemma Announced(peer: Peer, te: TransEntry)
    requires !Named(peer.outbox, te.name)
    ensures var peer' := LocallyEdited(peer, [te]);
            About(Flat(peer'.outbox), te.name) == [te] && peer'.table == LocalOne(peer.table, te)
  {
    Single(te);
    NothingAbout(Flat(peer.outbox), te.name);
    FlatSnoc(peer.outbox, [te]);
    AboutConcat(Flat(peer.outbox), [te], te.name);
  }

  lemma Single(te: TransEntry)
    ensures About([te], te.name) == [te]
    ensures forall t :: LocalRun(t, [te]) == LocalOne(t, te)
  {
    assert [te][..0] == [];
    assert About([te], te.name) == About([te][..0], te.name) + [te];
  }

  /** Let one peer delete a file while another changes it. Whichever reaches the tracker first, and however
      the run goes on, as long as nobody touches the file or completes a download of it: whenever no
      message is under way, the peer that deleted it and the tracker disagree about it. */
  lemma RaceDiverges(race: Race, s: System, steps: seq<Step>)
    requires race.Valid() && Undisturbed(race, s)
    requires IsRun(Crossed(race, s), steps) && LeftAlone(Crossed(race, s), steps, race.x)
    requires QueuesEmpty(After(Crossed(race, s), steps))
    ensures var s' := After(Crossed(race, s), steps);
            && race.p < |s'.peers|
            && (race.x in s'.tracker <==> race.x !in s'.peers[race.p].table)
  {
    CrossedAt(race, s);
    var stage := RunMoves(race, Crossing, Crossed(race, s), steps);
    var s' := After(Crossed(race, s), steps);
    assert PeerAt(race, stage, race.p, s'.peers[race.p]) && PeerAt(race, stage, race.q, s'.peers[race.q]);
    assert Flat([]) == [];
  }

  // ---------- it does happen ----------

  /** The two peers act one after the other, before either is heard of. */
  lemma CrossingIsRun(race: Race, s: System)
    requires race.Valid() && Undisturbed(race, s)
    ensures var steps := [LocalEdit(race.p, [race.del]), LocalEdit(race.q, [race.change])];
            IsRun(s, steps) && After(s, steps) == Crossed(race, s)
  {
    var first, second := LocalEdit(race.p, [race.del]), LocalEdit(race.q, [race.change]);
    assert [race.change][..0] == [];
    var s1 := Apply(s, first);
    var s2 := Apply(s1, second);
    assert [first, second][1..] == [second] && [second][1..] == [];
    assert IsRun(s2, []) && IsRun(s1, [second]);
    assert After(s2, []) == s2 && After(s1, [second]) == s2;
  }

  /** An update with one entry, delivered in a system of two peers with nothing else under way. */
  lemma OneDelivered(s: System, r: nat, te: TransEntry, inbox: seq<Packet>)
    requires |s.peers| == 2 && r < 2 && s.peers[r].outbox == [[te]] && s.peers[1 - r].inbox == inbox
    requires te.op == OpModify || (te.op == OpDelete && te.name in s.tracker)
    ensures Enabled(s, DeliverUpdate(r))
    ensures var s' := Apply(s, DeliverUpdate(r));
            && |s'.peers| == 2 && s'.tracker == UpdateOne(s.tracker, te).table
            && s'.peers[r] == s.peers[r].(outbox := [])
            && s'.peers[1 - r].outbox == s.peers[1 - r].outbox && |s'.peers[1 - r].inbox| == |inbox| + 1
  {
    assert [te][..0] == [] && UpdateRun(s.tracker, []) == Outcome(s.tracker, []);
    assert UpdateRun(s.tracker, [te]) == UpdateOne(s.tracker, te);
  }

  /** Two peers, in either order: both updates and both broadcasts are delivered, and then no message is
      under way any more. */
  lemma RaceEnds(race: Race, s: System, first: nat)
    requires race.Valid() && Undisturbed(race, s) && |s.peers| == 2 && QueuesEmpty(s) && first < 2
    ensures var steps := [DeliverUpdate(first), DeliverUpdate(1 - first), DeliverBroadcast(0), DeliverBroadcast(1)];
            && IsRun(Crossed(race, s), steps) && LeftAlone(Crossed(race, s), steps, race.x)
            && QueuesEmpty(After(Crossed(race, s), steps))
  {
    var s0 := Crossed(race, s);
    var te := if first == race.p then race.del else race.change;
    var te' := if first == race.p then race.change else race.del;
    BothAnnounced(race, s);
    var s1, s2 := BothDelivered(s0, first, te, te');
    var s4 := BothHear(s2, race.x);
    Prepend(s4, s1, DeliverUpdate(1 - first), [DeliverBroadcast(0), DeliverBroadcast(1)], race.x);
    Prepend(s4, s0, DeliverUpdate(first), [DeliverUpdate(1 - first), DeliverBroadcast(0), DeliverBroadcast(1)], race.x);
  }

  lemma BothAnnounced(race: Race, s: System)
    requires race.Valid() && Undisturbed(race, s) && |s.peers| == 2 && QueuesEmpty(s)
    ensures var s0 := Crossed(race, s);
            && s0.tracker == s.tracker && |s0.peers| == 2
            && s0.peers[race.p].outbox == [[race.del]] && s0.peers[race.q].outbox == [[race.change]]
            && s0.peers[0].inbox == [] && s0.peers[1].inbox == []
  {}

  lemma BothDelivered(s0: System, first: nat, te: TransEntry, te': TransEntry) returns (s1: System, s2: System)
    requires |s0.peers| == 2 && first < 2 && s0.peers[first].outbox == [[te]] && s0.peers[1 - first].outbox == [[te']]
    requires s0.peers[0].inbox == [] && s0.peers[1].inbox == []
    requires te.name == te'.name && te.name in s0.tracker
    requires (te.op == OpDelete && te'.op == OpModify) || (te.op == OpModify && te'.op == OpDelete)
    ensures Enabled(s0, DeliverUpdate(first)) && s1 == Apply(s0, DeliverUpdate(first))
    ensures Enabled(s1, DeliverUpdate(1 - first)) && s2 == Apply(s1, DeliverUpdate(1 - first))
    ensures |s2.peers| == 2 && forall r :: 0 <= r < 2 ==> s2.peers[r].outbox == [] && |s2.peers[r].inbox| == 1
  {
    OneDelivered(s0, first, te, []);
    s1 := Apply(s0, DeliverUpdate(first));
    OneDelivered(s1, 1 - first, te', []);
    s2 := Apply(s1, DeliverUpdate(1 - first));
  }

  lemma BothHear(s: System, x: Name) returns (s': System)
    requires |s.peers| == 2
    requires forall r :: 0 <= r < 2 ==> s.peers[r].outbox == [] && |s.peers[r].inbox| == 1
    ensures var steps := [DeliverBroadcast(0), DeliverBroadcast(1)];
            IsRun(s, steps) && LeftAlone(s, steps, x) && After(s, steps) == s'
    ensures QueuesEmpty(s')
  {
    var s1 := Apply(s, DeliverBroadcast(0));
    s' := Apply(s1, DeliverBroadcast(1));
    Prepend(s', s1, DeliverBroadcast(1), [], x);
    Prepend(s', s, DeliverBroadcast(0), [DeliverBroadcast(1)], x);
  }

  lemma Prepend(end: System, s: System, step: Step, rest: seq<Step>, x: Name)
    requires Enabled(s, step) && LeavesAlone(s, step, x)
    requires IsRun(Apply(s, step), rest) && LeftAlone(Apply(s, step), rest, x) && After(Apply(s, step), rest) == end
    ensures IsRun(s, [step] + rest) && LeftAlone(s, [step] + rest, x) && After(s, [step] + rest) == end
  {
    assert ([step] + rest)[1..] == rest;
  }
}
