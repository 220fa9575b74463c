/** What the protocol is for: once everything has come to rest, every peer has every file. */
module Replication {
  import opened Entries
  import opened SyncProtocol
  import opened Chatter
  import opened Ownership

  /** When the system has come to rest, every peer holds every file of the tracker, in the tracker's version, and
      is listed as an owner of it. */
  lemma {:induction false} RestMeansReplicated(steps: seq<Step>, p: nat, x: Name)
    requires IsRun(INITIAL, steps) && OrderlyRun(INITIAL, steps) && CandidRun(INITIAL, steps, p, x)
    requires !CanMove(After(INITIAL, steps)) && p < |After(INITIAL, steps).peers|
    requires x in After(INITIAL, steps).tracker
    ensures var s := After(INITIAL, steps);
            && x in s.peers[p].table && s.peers[p].table[x].timestamp == s.tracker[x].timestamp
            && HasIp(s.tracker[x].owners, s.peers[p].id.ip)
  {
    var s := After(INITIAL, steps);
    InitialInv();
    RunKeepsInv(INITIAL, steps);
    StillMeansAgreement(s, p);
    assert x in Timestamps(s.tracker) && x in Timestamps(s.peers[p].table);
    forall q | 0 <= q < |s.peers|
      ensures s.peers[q].inbox == [] && s.peers[q].outbox == []
    {
      assert !Enabled(s, DeliverUpdate(q)) && !Enabled(s, DeliverBroadcast(q));
    }
    assert !Enabled(s, DownloadFail(p, 0));
    HolderIsOwner(steps, p, x);
  }
}
