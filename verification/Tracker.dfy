/** The tracker's handlers, which work in place on the global file table and fill reply and
    broadcast tables entry by entry. Each is tied to what TrackerSpec says on values. */
module Tracker {
  import opened Entries
  import opened TrackerSpec
  import opened FileTable
  import opened Words
  import Peers = PeerTable

  /** trans_file_search */
  method TransFileSearch(tft: seq<TransEntry>, name: Name) returns (r: Option<TransEntry>)
    ensures r == Search(tft, name)
  {
    for i := 0 to |tft|
      invariant Search(tft, name) == Search(tft[i..], name)
    {
      if tft[i].name == name {
        return Some(tft[i]);
      }
      assert tft[i..][1..] == tft[i + 1..];
    }
    return None;
  }

  /** has_same_owners: count first, then compare in order */
  method HasSameOwners(fe: FileEntry, te: TransEntry) returns (same: bool)
    ensures same <==> fe.owners == te.owners
  {
    if |fe.owners| != |te.owners| {
      return false;
    }
    for k := 0 to |fe.owners|
      invariant fe.owners[..k] == te.owners[..k]
    {
      if fe.owners[k].ip != te.owners[k].ip || fe.owners[k].port != te.owners[k].port {
        return false;
      }
    }
    assert fe.owners == fe.owners[..|fe.owners|] && te.owners == te.owners[..|fe.owners|];
    return true;
  }

  /** The first half of sync_task for one tracker entry: is the peer told about it, and how? */
  method ReplyFor(fe: FileEntry, tft: seq<TransEntry>) returns (visited: TransEntry, out: seq<TransEntry>)
    ensures visited == ToTrans(fe.name, fe.State(), OpNone)
    ensures out == ReplyOne(visited, tft)
  {
    visited := fe.Export();
    out := [];
    var te := TransFileSearch(tft, fe.name);
    if te.None? {
      out := [visited.(op := OpAdd)];
    } else {
      var same := HasSameOwners(fe, te.value);
      if fe.timestamp > te.value.timestamp || (fe.timestamp == te.value.timestamp && !same) {
        out := [visited.(op := OpModify)];
      }
    }
  }

  /** The first half of sync_task: the TRACKER_SYNC reply, while the table stays as it is. */
  method SyncPeerTable(ft: FileTable, tft: seq<TransEntry>) returns (reply: seq<TransEntry>, ghost visited: seq<TransEntry>)
    requires ft.Valid()
    ensures Enumerates(ft.View(), visited)
    ensures reply == SyncReply(visited, tft)
  {
    reply, visited := [], [];
    for b := 0 to |ft.chains|
      invariant ft.Visited(visited, b, 0) && reply == SyncReply(visited, tft)
    {
      for i := 0 to |ft.chains[b]|
        invariant ft.Visited(visited, b, i) && reply == SyncReply(visited, tft)
      {
        var te, out := ReplyFor(ft.chains[b][i], tft);
        ft.VisitOne(visited, te, b, i);
        assert (visited + [te])[..|visited|] == visited;
        reply, visited := reply + out, visited + [te];
      }
      ft.VisitNext(visited, b);
    }
    ft.VisitedAll(visited);
  }

  /** The second half of sync_task for one entry of the peer. */
  method SyncSelfEntry(ft: FileTable, te: TransEntry) returns (out: seq<TransEntry>)
    requires ft.Valid()
    modifies ft, ft.Linked()
    ensures ft.Valid() && ft.dropped == old(ft.dropped)
    ensures Outcome(ft.View(), out) == SyncOne(old(ft.View()), te)
    ensures old(ft.Linked()) <= ft.Linked() && fresh(ft.Linked() - old(ft.Linked()))
  {
    out := [];
    var fe := ft.Find(te);
    if fe == null {
      var added := ft.Add(te);
      out := [te.(op := OpAdd)];
    } else if fe.timestamp < te.timestamp {
      var ret := ft.Update(te);
      out := [te.(op := OpModify)];
    } else {
      var ret := ft.Update(te);
    }
  }

  /** sync_task: reply with what the peer lacks, then take over what the tracker lacks and return
      what is to be broadcast. */
  method SyncTask(ft: FileTable, tft: seq<TransEntry>)
    returns (reply: seq<TransEntry>, broad: seq<TransEntry>, ghost visited: seq<TransEntry>)
    requires ft.Valid()
    modifies ft, ft.Linked()
    ensures ft.Valid() && ft.dropped == old(ft.dropped)
    ensures Enumerates(old(ft.View()), visited) && reply == SyncReply(visited, tft)
    ensures Outcome(ft.View(), broad) == SyncRun(old(ft.View()), tft)
    ensures fresh(ft.Linked() - old(ft.Linked()))
  {
    reply, visited := SyncPeerTable(ft, tft);
    broad := [];
    for i := 0 to |tft|
      invariant ft.Valid() && ft.dropped == old(ft.dropped)
      invariant Outcome(ft.View(), broad) == SyncRun(old(ft.View()), tft[..i])
      invariant fresh(ft.Linked() - old(ft.Linked()))
    {
      assert tft[..i + 1][..i] == tft[..i];
      var out := SyncSelfEntry(ft, tft[i]);
      broad := broad + out;
    }
    assert tft[..|tft|] == tft;
  }

  method UpdateAdd(ft: FileTable, te: TransEntry) returns (out: seq<TransEntry>)
    requires ft.Valid() && te.op == OpAdd
    modifies ft, ft.Linked()
    ensures ft.Valid() && ft.dropped == old(ft.dropped)
    ensures Outcome(ft.View(), out) == UpdateOne(old(ft.View()), te)
    ensures fresh(ft.Linked() - old(ft.Linked()))
  {
    var fe := ft.Add(te);
    ghost var t := ft.View();
    assert t[te.name] == fe.State();
    var exported := fe.Export();
    assert exported == ToTrans(te.name, t[te.name], OpNone) && ft.View() == t;
    out := [exported.(op := OpAdd)];
  }

  /** The entry that is exported after a MODIFY of an unknown name is null. */
  method UpdateModify(ft: FileTable, te: TransEntry) returns (out: seq<TransEntry>)
    requires ft.Valid() && te.op == OpModify
    modifies ft, ft.Linked()
    ensures ft.Valid() && ft.dropped == old(ft.dropped)
    ensures Outcome(ft.View(), out) == UpdateOne(old(ft.View()), te)
    ensures fresh(ft.Linked() - old(ft.Linked()))
  {
    var fe := ft.Find(te);
    if fe == null {
      var added := ft.Add(te);
      out := [BLANK];
    } else {
      ft.UpdateEntry(fe, te);
      ghost var t := ft.View();
      assert t[te.name] == fe.State();
      var exported := fe.Export();
      assert exported == ToTrans(te.name, t[te.name], OpNone) && ft.View() == t;
      out := [exported.(op := OpModify)];
    }
  }

  /** One entry of a PEER_FILE_UPDATE packet. */
  method UpdateEntry(ft: FileTable, te: TransEntry) returns (out: seq<TransEntry>)
    requires ft.Valid()
    modifies ft, ft.Linked()
    ensures ft.Valid() && ft.dropped == old(ft.dropped)
    ensures Outcome(ft.View(), out) == UpdateOne(old(ft.View()), te)
    ensures fresh(ft.Linked() - old(ft.Linked()))
  {
    out := [];
    match te.op {
      case OpAdd => out := UpdateAdd(ft, te);
      case OpDelete =>
        var ret := ft.Delete(te);
        if ret == 0 {
          out := [te];
        }
      case OpModify => out := UpdateModify(ft, te);
      case OpNone =>
    }
  }

  /** peer_file_update_task: apply the packet entry by entry and return what is to be broadcast. */
  method PeerFileUpdateTask(ft: FileTable, tft: seq<TransEntry>) returns (broad: seq<TransEntry>)
    requires ft.Valid()
    modifies ft, ft.Linked()
    ensures ft.Valid() && ft.dropped == old(ft.dropped)
    ensures Outcome(ft.View(), broad) == UpdateRun(old(ft.View()), tft)
    ensures fresh(ft.Linked() - old(ft.Linked()))
  {
    broad := [];
    for i := 0 to |tft|
      invariant ft.Valid() && ft.dropped == old(ft.dropped)
      invariant Outcome(ft.View(), broad) == UpdateRun(old(ft.View()), tft[..i])
      invariant fresh(ft.Linked() - old(ft.Linked()))
    {
      assert tft[..i + 1][..i] == tft[..i];
      var out := UpdateEntry(ft, tft[i]);
      broad := broad + out;
    }
    assert tft[..|tft|] == tft;
  }

  method MarkModified(es: seq<TransEntry>) returns (tft: seq<TransEntry>)
    ensures tft == Marked(es)
  {
    tft := es;
    for i := 0 to |tft|
      invariant |tft| == |es|
      invariant forall k :: 0 <= k < |es| ==> tft[k] == if k < i then es[k].(op := OpModify) else es[k]
    {
      tft := tft[i := tft[i].(op := OpModify)];
    }
  }

  /** The first half of receiver_task_cleanup: forget the connection and drop its ip from every owner
      list. */
  method DropConnection(ft: FileTable, pt: Peers.PeerTable, conn: int)
    requires ft.Valid() && pt.Valid()
    modifies ft, ft.Linked(), pt
    ensures ft.Valid() && pt.Valid()
    ensures pt.peers == Peers.Forget(old(pt.peers), conn)
    ensures ft.View() == DeleteOwner(old(ft.View()), Peers.IpOf(old(pt.peers), conn))
  {
    ghost var t, registered := ft.View(), pt.peers;
    var ip := pt.Delete(conn);
    assert ft.View() == t;
    var owner := ToUint32(ip);
    assert owner == Peers.IpOf(registered, conn);
    ft.DeleteOwner(owner);
  }

  /** receiver_task_cleanup: forget the connection, drop its ip from every owner list and return the
      remaining table, marked as modified, to be broadcast. */
  method ReceiverTaskCleanup(ft: FileTable, pt: Peers.PeerTable, conn: int)
    returns (tft: seq<TransEntry>, ghost visited: seq<TransEntry>)
    requires ft.Valid() && pt.Valid()
    modifies ft, ft.Linked(), pt
    ensures ft.Valid() && pt.Valid()
    ensures pt.peers == Peers.Forget(old(pt.peers), conn)
    ensures ft.View() == DeleteOwner(old(ft.View()), Peers.IpOf(old(pt.peers), conn))
    ensures Enumerates(ft.View(), visited) && tft == Marked(visited)
  {
    DropConnection(ft, pt, conn);
    tft, visited := MarkedTable(ft);
  }

  /** The second half of receiver_task_cleanup: the whole table, marked as modified */
  method MarkedTable(ft: FileTable) returns (tft: seq<TransEntry>, ghost visited: seq<TransEntry>)
    requires ft.Valid()
    ensures ft.Valid() && ft.View() == old(ft.View())
    ensures Enumerates(ft.View(), visited) && tft == Marked(visited)
  {
    var left := ft.FillFrom();
    visited := left;
    tft := MarkModified(left);
  }
}
