/** Once joins and local changes stop, the messages that are still under way, the downloads they
    start, the notifications those send and the broadcasts that answer them die out: a potential
    drops with every step. */
module Chatter {
  import opened Entries
  import opened TrackerSpec
  import opened PeerSpec
  import opened SyncProtocol
  import opened Sequences

  /** A name with a timestamp that was given to it somewhere in the system. */
  type Version = (Name, int)

  /** The versions that may still spread, and the names that are being deleted. */
  datatype Ledger = Ledger(issued: set<Version>, dead: set<Name>) {
    ghost predicate Valid() {
      forall v :: v in issued ==> v.0 !in dead
    }

    ghost predicate Lists(te: TransEntry) {
      && (IsEdit(te) ==> (te.name, te.timestamp) in issued)
      && (te.op == OpDelete ==> te.name in dead)
    }
  }

  ghost predicate ListIn(es: seq<TransEntry>, l: Ledger) {
    forall i :: 0 <= i < |es| ==> l.Lists(es[i])
  }

  ghost predicate TableIn(t: Table, l: Ledger) {
    forall x :: x in t && x !in l.dead ==> (x, t[x].timestamp) in l.issued
  }

  ghost predicate PeerIn(peer: Peer, l: Ledger) {
    && ListIn(Flat(peer.inbox), l) && ListIn(Flat(peer.outbox), l) && TableIn(peer.table, l)
    && forall i :: 0 <= i < |peer.downloads| ==> peer.downloads[i] !in l.dead
  }

  ghost predicate Within(s: System, l: Ledger) {
    l.Valid() && TableIn(s.tracker, l) && forall p :: 0 <= p < |s.peers| ==> PeerIn(s.peers[p], l)
  }

  /** The issued versions that are newer than what a table holds. */
  ghost function Newer(t: Table, issued: set<Version>): set<Version> {
    set v | v in issued && v.1 > Ts(t, v.0)
  }

  ghost function Weight(peer: Peer, n: nat, issued: set<Version>): nat {
    (n + 2) * |Newer(peer.table, issued)| + (n + 1) * |peer.downloads| + n * |peer.outbox| + |peer.inbox|
  }

  ghost function Total(peers: seq<Peer>, n: nat, issued: set<Version>): nat {
    if peers == [] then 0
    else Total(peers[..|peers| - 1], n, issued) + Weight(peers[|peers| - 1], n, issued)
  }

  ghost function Potential(s: System, issued: set<Version>): nat {
    Total(s.peers, |s.peers|, issued)
  }

  predicate Quiet(step: Step) {
    !step.Join? && !step.LocalEdit?
  }

  // ---------- sums over peers ----------

  lemma {:induction false} TotalUpdate(peers: seq<Peer>, p: nat, peer: Peer, n: nat, issued: set<Version>)
    requires p < |peers|
    ensures Total(peers[p := peer], n, issued) ==
            Total(peers, n, issued) - Weight(peers[p], n, issued) + Weight(peer, n, issued)
  {
    var rest := peers[..|peers| - 1];
    var updated := peers[p := peer];
    if p == |peers| - 1 {
      assert updated[..|updated| - 1] == rest;
    } else {
      TotalUpdate(rest, p, peer, n, issued);
      assert updated[..|updated| - 1] == rest[p := peer];
    }
  }

  lemma {:induction false} TotalBroadcast(peers: seq<Peer>, peers': seq<Peer>, p: nat, n: nat, issued: set<Version>)
    requires |peers| == |peers'|
    requires forall q :: 0 <= q < |peers| && q != p ==> Weight(peers'[q], n, issued) <= Weight(peers[q], n, issued) + 1
    requires p < |peers| ==> Weight(peers'[p], n, issued) <= Weight(peers[p], n, issued) - n
    ensures Total(peers', n, issued) <= Total(peers, n, issued) + |peers| - (if p < |peers| then n + 1 else 0)
  {
    if peers != [] {
      TotalBroadcast(peers[..|peers| - 1], peers'[..|peers| - 1], p, n, issued);
    }
  }

  // ---------- where versions come from ----------

  lemma ListInConcat(a: Packet, b: Packet, l: Ledger)
    ensures ListIn(a + b, l) <==> ListIn(a, l) && ListIn(b, l)
  {
    if ListIn(a + b, l) {
      assert forall k :: 0 <= k < |a| ==> (a + b)[k] == a[k];
      assert forall k :: 0 <= k < |b| ==> (a + b)[|a| + k] == b[k];
    }
  }

  lemma {:induction false} UpdateRunIn(t: Table, packet: Packet, l: Ledger)
    requires l.Valid() && !ConflictFires(t, packet)
    requires TableIn(t, l) && ListIn(packet, l)
    ensures TableIn(UpdateRun(t, packet).table, l) && ListIn(UpdateRun(t, packet).out, l)
  {
    if packet != [] {
      var rest, last := packet[..|packet| - 1], packet[|packet| - 1];
      ConflictSnoc(t, packet);
      UpdateRunIn(t, rest, l);
      var prior := UpdateRun(t, rest);
      UpdateOneIn(prior.table, last, l);
      ListInConcat(prior.out, UpdateOne(prior.table, last).out, l);
    }
  }

  lemma UpdateOneIn(t: Table, te: TransEntry, l: Ledger)
    requires l.Valid() && (te.op == OpModify ==> te.name in t)
    requires TableIn(t, l) && l.Lists(te)
    ensures TableIn(UpdateOne(t, te).table, l) && ListIn(UpdateOne(t, te).out, l)
  {}

  /** Every download a peer starts uses up an issued version that was newer than its table. */
  lemma {:induction false} HearSpends(t: Table, packet: Packet, me: nat, l: Ledger)
    requires l.Valid() && TableIn(t, l) && ListIn(packet, l)
    ensures TableIn(HearRun(t, packet, me).table, l)
    ensures |HearRun(t, packet, me).downloads| + |Newer(HearRun(t, packet, me).table, l.issued)| <= |Newer(t, l.issued)|
    ensures forall x :: x in HearRun(t, packet, me).downloads ==> x !in l.dead
  {
    if packet != [] {
      var rest, last := packet[..|packet| - 1], packet[|packet| - 1];
      HearSpends(t, rest, me, l);
      HearOneSpends(HearRun(t, rest, me).table, last, me, l);
    }
  }

  lemma HearOneSpends(t: Table, te: TransEntry, me: nat, l: Ledger)
    requires l.Valid() && TableIn(t, l) && l.Lists(te)
    ensures TableIn(HearOne(t, te, me).table, l)
    ensures |HearOne(t, te, me).downloads| + |Newer(HearOne(t, te, me).table, l.issued)| <= |Newer(t, l.issued)|
    ensures forall x :: x in HearOne(t, te, me).downloads ==> x !in l.dead
  {
    var r := HearOne(t, te, me);
    var before, now := Newer(t, l.issued), Newer(r.table, l.issued);
    assert now <= before;
    if r.downloads != [] {
      var v := (te.name, te.timestamp);
      assert v in before && v !in now;
      SubsetSize(now, before - {v});
    } else {
      SubsetSize(now, before);
    }
  }

  // ---------- every quiet step ----------

  lemma HearingWeighs(peer: Peer, packet: Packet, n: nat, l: Ledger)
    requires PeerIn(peer, l) && ListIn(packet, l)
    ensures PeerIn(Hear(peer, packet), l)
    ensures Weight(Hear(peer, packet), n, l.issued) <= Weight(peer, n, l.issued) + 1
  {
    FlatSnoc(peer.inbox, packet);
    ListInConcat(Flat(peer.inbox), packet, l);
  }

  lemma SendingSpends(peer: Peer, n: nat, issued: set<Version>)
    requires peer.outbox != []
    ensures Weight(Sent(peer), n, issued) == Weight(peer, n, issued) - n
  {
    OneLess(n, |peer.outbox|);
  }

  lemma SentSpends(s: System, p: nat, l: Ledger)
    requires Inv(s) && Within(s, l) && Enabled(s, DeliverUpdate(p))
    ensures Within(Apply(s, DeliverUpdate(p)), l)
    ensures Potential(Apply(s, DeliverUpdate(p)), l.issued) < Potential(s, l.issued)
  {
    var peer, s' := s.peers[p], Apply(s, DeliverUpdate(p));
    var packet := peer.outbox[0];
    NoConflict(s, p);
    ListInConcat(packet, Flat(peer.outbox[1..]), l);
    UpdateRunIn(s.tracker, packet, l);
    var n, out := |s.peers|, UpdateRun(s.tracker, packet).out;
    forall q | 0 <= q < n && q != p
      ensures PeerIn(s'.peers[q], l)
      ensures Weight(s'.peers[q], n, l.issued) <= Weight(s.peers[q], n, l.issued) + 1
    {
      HearingWeighs(s.peers[q], out, n, l);
    }
    SendingSpends(peer, n, l.issued);
    TotalBroadcast(s.peers, s'.peers, p, n, l.issued);
  }

  lemma ReceivedSpends(peer: Peer, n: nat, l: Ledger)
    requires l.Valid() && PeerIn(peer, l) && peer.inbox != []
    ensures PeerIn(Received(peer), l)
    ensures Weight(Received(peer), n, l.issued) < Weight(peer, n, l.issued)
  {
    var packet := peer.inbox[0];
    ListInConcat(packet, Flat(peer.inbox[1..]), l);
    HearSpends(peer.table, packet, peer.id.ip, l);
    var heard := HearRun(peer.table, packet, peer.id.ip);
    var k, a, b := |heard.downloads|, |Newer(peer.table, l.issued)|, |Newer(heard.table, l.issued)|;
    Trade(n, k, a, b, |peer.downloads|);
    var peer' := Received(peer);
    assert |peer'.downloads| == |peer.downloads| + k && peer'.table == heard.table;
    assert Weight(peer', n, l.issued) == (n + 2) * b + (n + 1) * (|peer.downloads| + k) + n * |peer.outbox| + |peer.inbox| - 1;
  }

  lemma Trade(n: nat, k: nat, a: nat, b: nat, d: nat)
    requires k + b <= a
    ensures (n + 2) * b + (n + 1) * (d + k) <= (n + 2) * a + (n + 1) * d
  {
    Monotone(n + 2, k + b, a);
    assert (n + 2) * (k + b) == (n + 2) * b + (n + 1) * k + k;
    assert (n + 1) * (d + k) == (n + 1) * d + (n + 1) * k;
  }

  lemma Monotone(m: nat, a: nat, b: nat)
    requires a <= b
    ensures m * a <= m * b
  {
    assert m * b - m * a == m * (b - a);
  }

  lemma DownloadedSpends(peer: Peer, d: nat, n: nat, l: Ledger)
    requires PeerIn(peer, l) && d < |peer.downloads| && peer.downloads[d] in peer.table
    ensures PeerIn(Downloaded(peer, d), l)
    ensures Weight(Downloaded(peer, d), n, l.issued) < Weight(peer, n, l.issued)
  {
    var note := Notify(peer.table, peer.downloads[d], peer.id);
    FlatSnoc(peer.outbox, [note]);
    ListInConcat(Flat(peer.outbox), [note], l);
    var peer' := Downloaded(peer, d);
    OneLess(n + 1, |peer.downloads|);
    OneLess(n, |peer'.outbox|);
    assert |peer'.downloads| == |peer.downloads| - 1 && |peer'.outbox| - 1 == |peer.outbox|;
  }

  lemma OneLess(m: nat, k: nat)
    requires k > 0
    ensures m * (k - 1) == m * k - m
  {}

  lemma FailedSpends(peer: Peer, d: nat, n: nat, l: Ledger)
    requires PeerIn(peer, l) && d < |peer.downloads|
    ensures PeerIn(peer.(downloads := Drop(peer.downloads, d)), l)
    ensures Weight(peer.(downloads := Drop(peer.downloads, d)), n, l.issued) < Weight(peer, n, l.issued)
  {
    OneLess(n + 1, |peer.downloads|);
  }

  /** Every delivery and every end of a download lowers the potential. */
  lemma QuietStepSpends(s: System, step: Step, l: Ledger)
    requires Inv(s) && Within(s, l) && Enabled(s, step) && Quiet(step)
    ensures Within(Apply(s, step), l)
    ensures Potential(Apply(s, step), l.issued) < Potential(s, l.issued)
  {
    var n := |s.peers|;
    match step
    case DeliverUpdate(p) => SentSpends(s, p, l);
    case DeliverBroadcast(p) =>
      ReceivedSpends(s.peers[p], n, l);
      TotalUpdate(s.peers, p, Received(s.peers[p]), n, l.issued);
    case DownloadDone(p, d) =>
      DownloadedSpends(s.peers[p], d, n, l);
      TotalUpdate(s.peers, p, Downloaded(s.peers[p], d), n, l.issued);
    case DownloadFail(p, d) =>
      FailedSpends(s.peers[p], d, n, l);
      TotalUpdate(s.peers, p, s.peers[p].(downloads := Drop(s.peers[p].downloads, d)), n, l.issued);
  }

  /** No quiet run is longer than the potential it starts with. */
  lemma {:induction false} QuietRunBounded(s: System, steps: seq<Step>, l: Ledger)
    requires Inv(s) && Within(s, l) && IsRun(s, steps)
    requires forall i :: 0 <= i < |steps| ==> Quiet(steps[i])
    ensures |steps| <= Potential(s, l.issued)
    decreases |steps|
  {
    if steps != [] {
      QuietStepSpends(s, steps[0], l);
      StepKeepsInv(s, steps[0]);
      QuietRunBounded(Apply(s, steps[0]), steps[1..], l);
    }
  }

  // ---------- the versions of a state ----------

  ghost function Versions(es: seq<TransEntry>): set<Version> {
    set i | 0 <= i < |es| :: (es[i].name, es[i].timestamp)
  }

  ghost function TableVersions(t: Table): set<Version> {
    set x | x in t :: (x, t[x].timestamp)
  }

  ghost function PeerVersions(peers: seq<Peer>): set<Version> {
    if peers == [] then {}
    else
      var last := peers[|peers| - 1];
      PeerVersions(peers[..|peers| - 1])
      + Versions(Flat(last.inbox)) + Versions(Flat(last.outbox)) + TableVersions(last.table)
  }

  ghost function AllVersions(s: System): set<Version> {
    TableVersions(s.tracker) + PeerVersions(s.peers)
  }

  ghost function Dead(s: System): set<Name> {
    set v | v in AllVersions(s) && Deleting(s, v.0) :: v.0
  }

  ghost function Books(s: System): Ledger {
    var issued := set v | v in AllVersions(s) && v.0 !in Dead(s);
    Ledger(issued, Dead(s))
  }

  lemma {:induction false} PeerVersionsCover(peers: seq<Peer>, p: nat)
    requires p < |peers|
    ensures Versions(Flat(peers[p].inbox)) + Versions(Flat(peers[p].outbox)) + TableVersions(peers[p].table)
            <= PeerVersions(peers)
  {
    if p < |peers| - 1 {
      PeerVersionsCover(peers[..|peers| - 1], p);
    }
  }

  /** An entry under way about a name: a deletion exactly if the name is being deleted. */
  lemma UnderWay(s: System, p: nat, es: Packet)
    requires Inv(s) && p < |s.peers| && (es == Flat(s.peers[p].inbox) || es == Flat(s.peers[p].outbox))
    ensures ListIn(es, Books(s))
  {
    PeerVersionsCover(s.peers, p);
    forall i | 0 <= i < |es|
      ensures Books(s).Lists(es[i])
    {
      var x := es[i].name;
      assert (x, es[i].timestamp) in Versions(es);
      assert (x, es[i].timestamp) in AllVersions(s);
      if es[i].op == OpDelete {
        assert Deleting(s, x);
      }
      if Deleting(s, x) {
        DeletingIsDying(s, x);
        assert PeerDying(s.tracker, s.peers[p], x);
      }
    }
  }

  lemma DeletingIsDying(s: System, x: Name)
    requires NameInv(s, x) && Deleting(s, x)
    ensures Dying(s, x)
  {}

  lemma TableCovered(s: System, t: Table)
    requires TableVersions(t) <= AllVersions(s)
    ensures TableIn(t, Books(s))
  {
    forall x | x in t && x !in Dead(s)
      ensures (x, t[x].timestamp) in Books(s).issued
    {
      assert (x, t[x].timestamp) in TableVersions(t);
    }
  }

  lemma BooksCover(s: System)
    requires Inv(s)
    ensures Within(s, Books(s))
  {
    TableCovered(s, s.tracker);
    forall p | 0 <= p < |s.peers|
      ensures PeerIn(s.peers[p], Books(s))
    {
      var peer := s.peers[p];
      UnderWay(s, p, Flat(peer.inbox));
      UnderWay(s, p, Flat(peer.outbox));
      PeerVersionsCover(s.peers, p);
      TableCovered(s, peer.table);
      forall i | 0 <= i < |peer.downloads|
        ensures peer.downloads[i] !in Dead(s)
      {
        var x := peer.downloads[i];
        if Deleting(s, x) {
          DeletingIsDying(s, x);
        }
      }
    }
  }

  /** Some delivery or end of a download can happen. */
  ghost predicate CanMove(s: System) {
    exists step :: Quiet(step) && Enabled(s, step)
  }

  lemma StillMeansAgreement(s: System, p: nat)
    requires Inv(s) && !CanMove(s) && p < |s.peers|
    ensures Timestamps(s.peers[p].table) == Timestamps(s.tracker)
  {
    forall q | 0 <= q < |s.peers|
      ensures s.peers[q].inbox == [] && s.peers[q].outbox == []
    {
      assert !Enabled(s, DeliverUpdate(q)) && !Enabled(s, DeliverBroadcast(q));
    }
    SameTimestamps(s, p);
  }

  /** From every state reached in an orderly run the quiet steps come to an end, however they are
      interleaved, within a bound that is known at the start ... */
  lemma {:induction false} ChatterEnds(history: seq<Step>, quiet: seq<Step>)
    requires IsRun(INITIAL, history) && OrderlyRun(INITIAL, history)
    requires IsRun(After(INITIAL, history), quiet)
    requires forall i :: 0 <= i < |quiet| ==> Quiet(quiet[i])
    ensures |quiet| <= Potential(After(INITIAL, history), Books(After(INITIAL, history)).issued)
  {
    var s := After(INITIAL, history);
    InitialInv();
    RunKeepsInv(INITIAL, history);
    BooksCover(s);
    QuietRunBounded(s, quiet, Books(s));
  }

  /** ... and where they end, every peer's names and timestamps are the tracker's. */
  lemma {:induction false} ChatterEndsInAgreement(history: seq<Step>, quiet: seq<Step>, p: nat)
    requires IsRun(INITIAL, history) && OrderlyRun(INITIAL, history)
    requires IsRun(After(INITIAL, history), quiet)
    requires forall i :: 0 <= i < |quiet| ==> Quiet(quiet[i])
    requires !CanMove(After(After(INITIAL, history), quiet)) && p < |After(After(INITIAL, history), quiet).peers|
    ensures Timestamps(After(After(INITIAL, history), quiet).peers[p].table)
            == Timestamps(After(After(INITIAL, history), quiet).tracker)
  {
    InitialInv();
    RunKeepsInv(INITIAL, history);
    QuietIsOrderly(After(INITIAL, history), quiet);
    RunKeepsInv(After(INITIAL, history), quiet);
    StillMeansAgreement(After(After(INITIAL, history), quiet), p);
  }

  lemma {:induction false} QuietIsOrderly(s: System, quiet: seq<Step>)
    requires IsRun(s, quiet) && forall i :: 0 <= i < |quiet| ==> Quiet(quiet[i])
    ensures OrderlyRun(s, quiet)
    decreases |quiet|
  {
    if quiet != [] {
      QuietIsOrderly(Apply(s, quiet[0]), quiet[1..]);
    }
  }
}
