/** The tracker alone, over every run of registrations, updates, syncs and lost connections, deletions
    included, in which a peer lists nobody but itself as owner of what it sends. */
module TrackerRuns {
  import opened Entries
  import opened TrackerSpec
  import opened PeerTable
  import opened Sequences
  import opened Words

  datatype State = State(files: Table, peers: seq<Registered>)

  datatype Step =
    | Register(pe: Registered)
    | Update(sender: nat, packet: seq<TransEntry>)
    | Sync(sender: nat, tft: seq<TransEntry>)
    | Cleanup(conn: int)

  /** Every entry lists the ip, perhaps more than once, and no other. */
  ghost predicate OwnedBy(es: seq<TransEntry>, ip: nat) {
    forall i :: 0 <= i < |es| ==> Ips(es[i].owners) == {ip}
  }

  ghost predicate Enabled(s: State, step: Step) {
    match step
    case Register(pe) => pe.id.ip < TWO32
    case Update(k, packet) => k < |s.peers| && OwnedBy(packet, s.peers[k].id.ip)
    case Sync(k, tft) => k < |s.peers| && OwnedBy(tft, s.peers[k].id.ip)
    case Cleanup(conn) => true
  }

  function Apply(s: State, step: Step): State {
    match step
    case Register(pe) => s.(peers := [pe] + s.peers)
    case Update(_, packet) => s.(files := UpdateRun(s.files, packet).table)
    case Sync(_, tft) => s.(files := SyncRun(s.files, tft).table)
    case Cleanup(conn) => State(DeleteOwner(s.files, IpOf(s.peers, conn)), Forget(s.peers, conn))
  }

  ghost predicate IsRun(s: State, steps: seq<Step>)
    decreases |steps|
  {
    steps == [] || (Enabled(s, steps[0]) && IsRun(Apply(s, steps[0]), steps[1..]))
  }

  function After(s: State, steps: seq<Step>): State
    decreases |steps|
  {
    if steps == [] then s else After(Apply(s, steps[0]), steps[1..])
  }

  const INITIAL := State(map[], [])

  function RegisteredIps(peers: seq<Registered>): set<nat> {
    set i | 0 <= i < |peers| :: peers[i].id.ip
  }

  /** An owner list that is not empty, with distinct ips out of `ips`. */
  ghost predicate Sound(owners: seq<PeerId>, ips: set<nat>) {
    owners != [] && DistinctIps(owners) && Ips(owners) <= ips
  }

  ghost predicate AllSound(t: Table, ips: set<nat>) {
    forall x :: x in t ==> Sound(t[x].owners, ips)
  }

  ghost predicate Inv(s: State) {
    && AllSound(s.files, RegisteredIps(s.peers))
    && forall i :: 0 <= i < |s.peers| ==> s.peers[i].id.ip < TWO32
  }

  lemma AddSound(t: Table, te: TransEntry, ips: set<nat>)
    requires AllSound(t, ips) && Ips(te.owners) <= ips && te.owners != []
    ensures AllSound(TableAdd(t, te), ips)
  {
    AddOwnersIps([], te.owners);
    NonEmpty(te.owners);
    assert Ips([]) == {};
    if te.name in t { AddOwnersIps(t[te.name].owners, te.owners); }
  }

  lemma NonEmpty(owners: seq<PeerId>)
    requires owners != []
    ensures AddOwners([], owners) != []
  {
    AddOwnersIps([], owners);
    assert owners[0].ip in Ips(owners);
  }

  lemma {:induction false} SyncSound(t: Table, tft: seq<TransEntry>, ip: nat, ips: set<nat>)
    requires AllSound(t, ips) && OwnedBy(tft, ip) && ip in ips
    ensures AllSound(SyncRun(t, tft).table, ips)
  {
    if tft != [] {
      SyncSound(t, tft[..|tft| - 1], ip, ips);
      AddSound(SyncRun(t, tft[..|tft| - 1]).table, tft[|tft| - 1], ips);
    }
  }

  /** An update leaves a sound table, and so does every entry it exports from the table. */
  lemma {:induction false} UpdateSound(t: Table, packet: seq<TransEntry>, ip: nat, ips: set<nat>)
    requires AllSound(t, ips) && OwnedBy(packet, ip) && ip in ips
    ensures AllSound(UpdateRun(t, packet).table, ips)
    ensures forall te :: te in UpdateRun(t, packet).out && te.op != OpDelete && te != BLANK ==> Sound(te.owners, ips)
  {
    if packet != [] {
      var rest, last := packet[..|packet| - 1], packet[|packet| - 1];
      UpdateSound(t, rest, ip, ips);
      var prior := UpdateRun(t, rest);
      if last.op == OpAdd || last.op == OpModify {
        AddSound(prior.table, last, ips);
      }
    }
  }

  lemma WithoutSound(owners: seq<PeerId>, ip: nat, ips: set<nat>)
    requires DistinctIps(owners) && Ips(owners) <= ips
    ensures DistinctIps(WithoutOwner(owners, ip)) && Ips(WithoutOwner(owners, ip)) <= ips - {ip}
  {
    if owners != [] {
      var rest, last := owners[..|owners| - 1], owners[|owners| - 1];
      assert Ips(rest) <= Ips(owners);
      WithoutSound(rest, ip, ips);
      IpsSnoc(WithoutOwner(rest, ip), last);
      assert last.ip in Ips(owners);
      var left := WithoutOwner(rest, ip);
      forall i | 0 <= i < |left|
        ensures left[i].ip != last.ip
      {
        assert left[i] in rest;
      }
    }
  }

  lemma {:induction false} ForgetIps(peers: seq<Registered>, conn: int)
    requires forall i :: 0 <= i < |peers| ==> peers[i].id.ip < TWO32
    ensures RegisteredIps(peers) - {IpOf(peers, conn)} <= RegisteredIps(Forget(peers, conn))
    ensures forall pe :: pe in Forget(peers, conn) ==> pe in peers
  {
    if peers != [] {
      ConsIps(peers[0], peers[1..]);
      assert peers == [peers[0]] + peers[1..];
      if peers[0].conn == conn {
        assert ToUint32(peers[0].id.ip) == peers[0].id.ip;
      } else {
        ForgetIps(peers[1..], conn);
        ConsIps(peers[0], Forget(peers[1..], conn));
      }
    }
  }

  lemma ConsIps(pe: Registered, peers: seq<Registered>)
    ensures RegisteredIps([pe] + peers) == {pe.id.ip} + RegisteredIps(peers)
  {
    var all := [pe] + peers;
    assert all[0] == pe;
    forall ip | ip in RegisteredIps(peers)
      ensures ip in RegisteredIps(all)
    {
      var i :| 0 <= i < |peers| && peers[i].id.ip == ip;
      assert all[i + 1].id.ip == ip;
    }
    forall ip | ip in RegisteredIps(all)
      ensures ip in {pe.id.ip} + RegisteredIps(peers)
    {
      var i :| 0 <= i < |all| && all[i].id.ip == ip;
      if i > 0 { assert peers[i - 1].id.ip == ip; }
    }
  }

  lemma {:induction false} CleanupKeeps(s: State, conn: int)
    requires Inv(s)
    ensures Inv(Apply(s, Cleanup(conn)))
  {
    var ip, s' := IpOf(s.peers, conn), Apply(s, Cleanup(conn));
    ForgetIps(s.peers, conn);
    forall x | x in s'.files
      ensures Sound(s'.files[x].owners, RegisteredIps(s'.peers))
    {
      WithoutSound(s.files[x].owners, ip, RegisteredIps(s.peers));
    }
    forall i | 0 <= i < |s'.peers|
      ensures s'.peers[i].id.ip < TWO32
    {
      assert s'.peers[i] in s.peers;
    }
  }

  lemma StepKeepsInv(s: State, step: Step)
    requires Inv(s) && Enabled(s, step)
    ensures Inv(Apply(s, step))
  {
    match step
    case Register(pe) => ConsIps(pe, s.peers);
    case Update(k, packet) => UpdateSound(s.files, packet, s.peers[k].id.ip, RegisteredIps(s.peers));
    case Sync(k, tft) => SyncSound(s.files, tft, s.peers[k].id.ip, RegisteredIps(s.peers));
    case Cleanup(conn) => CleanupKeeps(s, conn);
  }

  lemma {:induction false} RunKeepsInv(s: State, steps: seq<Step>)
    requires Inv(s) && IsRun(s, steps)
    ensures Inv(After(s, steps))
    decreases |steps|
  {
    if steps != [] {
      StepKeepsInv(s, steps[0]);
      RunKeepsInv(Apply(s, steps[0]), steps[1..]);
    }
  }

  /** In every run, every file has an owner, its owners have distinct ips, and each of them is
      registered now. */
  lemma OwnersAreRegistered(steps: seq<Step>, x: Name)
    requires IsRun(INITIAL, steps) && x in After(INITIAL, steps).files
    ensures var s := After(INITIAL, steps);
            Sound(s.files[x].owners, RegisteredIps(s.peers))
  {
    RunKeepsInv(INITIAL, steps);
  }

  lemma {:induction false} Pigeonhole(owners: seq<PeerId>)
    requires DistinctIps(owners)
    ensures |Ips(owners)| == |owners|
  {
    if owners == [] {
    } else {
      var rest, last := owners[..|owners| - 1], owners[|owners| - 1];
      Pigeonhole(rest);
      IpsSnoc(rest, last);
      assert owners == rest + [last];
    }
  }

  lemma SoundFits(owners: seq<PeerId>, ips: set<nat>)
    requires Sound(owners, ips) && |ips| <= MAX_PEER_ENTRIES
    ensures |owners| <= MAX_PEER_ENTRIES
  {
    Pigeonhole(owners);
    SubsetSize(Ips(owners), ips);
  }

  /** As long as at most 16 ips are registered, exporting an entry of the table never writes past the 16
      owner slots: so neither a sync reply nor the export of the whole table does. */
  lemma TableExportsFit(steps: seq<Step>, x: Name)
    requires IsRun(INITIAL, steps) && |RegisteredIps(After(INITIAL, steps).peers)| <= MAX_PEER_ENTRIES
    requires x in After(INITIAL, steps).files
    ensures |After(INITIAL, steps).files[x].owners| <= MAX_PEER_ENTRIES
  {
    var s := After(INITIAL, steps);
    OwnersAreRegistered(steps, x);
    SoundFits(s.files[x].owners, RegisteredIps(s.peers));
  }

  /** Nor does the export of any entry while an update packet is processed. */
  lemma UpdateExportsFit(steps: seq<Step>, sender: nat, packet: seq<TransEntry>, te: TransEntry)
    requires IsRun(INITIAL, steps) && Enabled(After(INITIAL, steps), Update(sender, packet))
    requires |RegisteredIps(After(INITIAL, steps).peers)| <= MAX_PEER_ENTRIES
    requires te in UpdateRun(After(INITIAL, steps).files, packet).out && te.op != OpDelete
    ensures |te.owners| <= MAX_PEER_ENTRIES
  {
    var s := After(INITIAL, steps);
    var ips := RegisteredIps(s.peers);
    RunKeepsInv(INITIAL, steps);
    UpdateSound(s.files, packet, s.peers[sender].id.ip, ips);
    if te != BLANK { SoundFits(te.owners, ips); }
  }
}
