/** The peer's handlers, which work in place on its file table. Each is tied to what PeerSpec says
    on values; the downloads it starts are returned by name, in order. */
module PeerNode {
  import opened Entries
  import opened TrackerSpec
  import opened PeerSpec
  import opened FileTable
  import opened Sequences

  /** peer_id_list_remove_myself: unlink the first owner with this ip and stop */
  method PeerIdListRemoveMyself(fe: FileEntry, me: nat)
    modifies fe`owners
    ensures fe.owners == RemoveFirst(old(fe.owners), me)
  {
    var i := 0;
    while i < |fe.owners|
      invariant i <= |fe.owners| && fe.owners == old(fe.owners)
      invariant RemoveFirst(fe.owners, me) == fe.owners[..i] + RemoveFirst(fe.owners[i..], me)
    {
      assert fe.owners[i..][1..] == fe.owners[i + 1..];
      if fe.owners[i].ip == me {
        fe.owners := Drop(fe.owners, i);
        return;
      }
      assert fe.owners[..i] + [fe.owners[i]] == fe.owners[..i + 1];
      i := i + 1;
    }
    assert fe.owners[..i] + [] == fe.owners;
  }

  /** A known entry takes over the listed owners, and the timestamp if it is newer. */
  method Refresh(fe: FileEntry, te: TransEntry, me: nat) returns (newer: bool)
    modifies fe
    ensures fe.State() == Entry(if newer then te.timestamp else old(fe.timestamp), old(fe.ftype),
                                RemoveFirst(AddOwners([], te.owners), me))
    ensures newer <==> te.timestamp > old(fe.timestamp)
  {
    fe.PeerIdListReplace(te);
    PeerIdListRemoveMyself(fe, me);
    newer := te.timestamp > fe.timestamp;
    if newer {
      fe.timestamp := te.timestamp;
    }
  }

  /** The ADD and MODIFY branches of broadcast_entry_handler, which do the same, and the loop body of
      file_table_sync. */
  method LearnEntry(ft: FileTable, te: TransEntry, me: nat) returns (downloads: seq<Name>)
    requires ft.Valid()
    modifies ft, ft.Linked()
    ensures ft.Valid() && ft.dropped == old(ft.dropped)
    ensures PeerOutcome(ft.View(), downloads) == Learn(old(ft.View()), te, me)
    ensures fresh(ft.Linked() - old(ft.Linked()))
  {
    var fe := ft.Find(te);
    if fe == null {
      var added := ft.Add(te);
      downloads := [te.name];
    } else {
      var newer := Refresh(fe, te, me);
      ft.Changed(fe);
      downloads := if newer then [te.name] else [];
    }
  }

  /** file_table_sync */
  method FileTableSync(ft: FileTable, tft: seq<TransEntry>, me: nat) returns (downloads: seq<Name>)
    requires ft.Valid()
    modifies ft, ft.Linked()
    ensures ft.Valid() && ft.dropped == old(ft.dropped)
    ensures PeerOutcome(ft.View(), downloads) == SyncLearn(old(ft.View()), tft, me)
    ensures fresh(ft.Linked() - old(ft.Linked()))
  {
    downloads := [];
    for i := 0 to |tft|
      invariant ft.Valid() && ft.dropped == old(ft.dropped)
      invariant PeerOutcome(ft.View(), downloads) == SyncLearn(old(ft.View()), tft[..i], me)
      invariant fresh(ft.Linked() - old(ft.Linked()))
    {
      assert tft[..i + 1][..i] == tft[..i];
      var more := LearnEntry(ft, tft[i], me);
      downloads := downloads + more;
    }
    assert tft[..|tft|] == tft;
  }

  /** broadcast_entry_handler, apart from deleting the file itself */
  method BroadcastEntryHandler(ft: FileTable, te: TransEntry, me: nat) returns (downloads: seq<Name>)
    requires ft.Valid()
    modifies ft, ft.Linked()
    ensures ft.Valid() && ft.dropped == old(ft.dropped)
    ensures PeerOutcome(ft.View(), downloads) == HearOne(old(ft.View()), te, me)
    ensures fresh(ft.Linked() - old(ft.Linked()))
  {
    downloads := [];
    match te.op {
      case OpAdd => downloads := LearnEntry(ft, te, me);
      case OpDelete => var ret := ft.Delete(te);
      case OpModify => downloads := LearnEntry(ft, te, me);
      case OpNone =>
    }
  }

  /** The TRACKER_BROADCAST branch of ttop_receiver_task */
  method ReceiveBroadcast(ft: FileTable, tft: seq<TransEntry>, me: nat) returns (downloads: seq<Name>)
    requires ft.Valid()
    modifies ft, ft.Linked()
    ensures ft.Valid() && ft.dropped == old(ft.dropped)
    ensures PeerOutcome(ft.View(), downloads) == HearRun(old(ft.View()), tft, me)
    ensures fresh(ft.Linked() - old(ft.Linked()))
  {
    downloads := [];
    for i := 0 to |tft|
      invariant ft.Valid() && ft.dropped == old(ft.dropped)
      invariant PeerOutcome(ft.View(), downloads) == HearRun(old(ft.View()), tft[..i], me)
      invariant fresh(ft.Linked() - old(ft.Linked()))
    {
      assert tft[..i + 1][..i] == tft[..i];
      var more := BroadcastEntryHandler(ft, tft[i], me);
      downloads := downloads + more;
    }
    assert tft[..|tft|] == tft;
  }

  /** The table change at the end of handle_event */
  method HandleEvent(ft: FileTable, te: TransEntry)
    requires ft.Valid()
    modifies ft, ft.Linked()
    ensures ft.Valid() && ft.dropped == old(ft.dropped)
    ensures ft.View() == LocalOne(old(ft.View()), te)
    ensures fresh(ft.Linked() - old(ft.Linked()))
  {
    match te.op {
      case OpAdd => var fe := ft.Add(te);
      case OpModify => var ret := ft.Update(te);
      case OpDelete => var ret := ft.Delete(te);
      case OpNone =>
    }
  }
}
