/** What the tracker's handlers do with a received packet, on values: the new table and the
    entries to broadcast. */
module TrackerSpec {
  import opened Entries

  datatype Outcome = Outcome(table: Table, out: seq<TransEntry>)

  /** An array slot that was cleared and never filled, apart from its operation. */
  const BLANK := TransEntry([], 0, OpAdd, Regular, [])

  /** One entry of a PEER_FILE_UPDATE packet. A MODIFY of an unknown name adds the entry, but
      then exports a null entry, so the slot to broadcast stays blank. */
  function UpdateOne(t: Table, te: TransEntry): Outcome {
    match te.op
    case OpAdd =>
      var t' := TableAdd(t, te);
      Outcome(t', [ToTrans(te.name, t'[te.name], OpAdd)])
    case OpDelete =>
      if te.name in t then Outcome(TableDelete(t, te.name), [te]) else Outcome(t, [])
    case OpModify =>
      if te.name in t then
        var t' := TableUpdate(t, te);
        Outcome(t', [ToTrans(te.name, t'[te.name], OpModify)])
      else Outcome(TableAdd(t, te), [BLANK])
    case OpNone => Outcome(t, [])
  }

  function UpdateRun(t: Table, packet: seq<TransEntry>): Outcome {
    if packet == [] then Outcome(t, [])
    else
      var prior := UpdateRun(t, packet[..|packet| - 1]);
      var one := UpdateOne(prior.table, packet[|packet| - 1]);
      Outcome(one.table, prior.out + one.out)
  }

  /** The first entry listed with a name. */
  function Search(es: seq<TransEntry>, name: Name): (r: Option<TransEntry>)
    ensures r.None? <==> forall i :: 0 <= i < |es| ==> es[i].name != name
    ensures r.Some? ==> r.value in es && r.value.name == name
  {
    if es == [] then None
    else if es[0].name == name then Some(es[0])
    else Search(es[1..], name)
  }

  /** Whether a peer that sent `tft` is told about the tracker's entry `fe`, and how. */
  function ReplyOne(fe: TransEntry, tft: seq<TransEntry>): seq<TransEntry> {
    match Search(tft, fe.name)
    case None => [fe.(op := OpAdd)]
    case Some(te) =>
      if fe.timestamp > te.timestamp || (fe.timestamp == te.timestamp && fe.owners != te.owners)
      then [fe.(op := OpModify)]
      else []
  }

  /** The TRACKER_SYNC reply, in the order in which the tracker's entries are visited. */
  function SyncReply(visited: seq<TransEntry>, tft: seq<TransEntry>): seq<TransEntry> {
    if visited == [] then []
    else SyncReply(visited[..|visited| - 1], tft) + ReplyOne(visited[|visited| - 1], tft)
  }

  function SyncOne(t: Table, te: TransEntry): Outcome {
    Outcome(TableAdd(t, te),
            if te.name !in t then [te.(op := OpAdd)]
            else if t[te.name].timestamp < te.timestamp then [te.(op := OpModify)]
            else [])
  }

  function SyncRun(t: Table, tft: seq<TransEntry>): Outcome {
    if tft == [] then Outcome(t, [])
    else
      var prior := SyncRun(t, tft[..|tft| - 1]);
      var one := SyncOne(prior.table, tft[|tft| - 1]);
      Outcome(one.table, prior.out + one.out)
  }

  /** A table sent as modified. */
  function Marked(es: seq<TransEntry>): seq<TransEntry> {
    seq(|es|, i requires 0 <= i < |es| => es[i].(op := OpModify))
  }

  // ---------- timestamps ----------

  lemma {:induction false} ListTsConcat(a: seq<TransEntry>, b: seq<TransEntry>, x: Name)
    ensures ListTs(a + b, x) == Max(ListTs(a, x), ListTs(b, x))
    decreases |b|
  {
    if b == [] {
      assert a + b == a;
    } else {
      assert (a + b)[..|a + b| - 1] == a + b[..|b| - 1];
      ListTsConcat(a, b[..|b| - 1], x);
    }
  }

  lemma ListTsOne(te: TransEntry, x: Name)
    ensures ListTs([te], x) == if te.name == x then te.timestamp else -1
  {
    assert [te][..0] == [];
  }

  lemma TableAddTs(t: Table, te: TransEntry, x: Name)
    ensures Ts(TableAdd(t, te), x) == if x == te.name then Max(Ts(t, x), te.timestamp) else Ts(t, x)
  {}

  lemma SyncOneTs(t: Table, te: TransEntry, x: Name)
    ensures Ts(SyncOne(t, te).table, x) == if x == te.name then Max(Ts(t, x), te.timestamp) else Ts(t, x)
    ensures ListTs(SyncOne(t, te).out, x) == if x == te.name && te.timestamp > Ts(t, x) then te.timestamp else -1
  {
    ListTsOne(te.(op := OpAdd), x);
    ListTsOne(te.(op := OpModify), x);
  }

  lemma {:induction false} AddAllTs(t: Table, es: seq<TransEntry>, x: Name)
    ensures Ts(AddAll(t, es), x) == Max(Ts(t, x), ListTs(es, x))
  {
    if es != [] {
      AddAllTs(t, es[..|es| - 1], x);
      TableAddTs(AddAll(t, es[..|es| - 1]), es[|es| - 1], x);
    }
  }

  lemma {:induction false} SyncRunTable(t: Table, tft: seq<TransEntry>)
    ensures SyncRun(t, tft).table == AddAll(t, tft)
  {
    if tft != [] {
      SyncRunTable(t, tft[..|tft| - 1]);
    }
  }

  /** What a sync broadcasts for a name: the peer's timestamp when it is newer than the tracker's,
      and nothing otherwise. */
  lemma {:induction false} SyncRunTs(t: Table, tft: seq<TransEntry>, x: Name)
    ensures ListTs(SyncRun(t, tft).out, x) == if ListTs(tft, x) > Ts(t, x) then ListTs(tft, x) else -1
    ensures Only(SyncRun(t, tft).out, x, EDITS)
  {
    if tft != [] {
      var rest, last := tft[..|tft| - 1], tft[|tft| - 1];
      SyncRunTs(t, rest, x);
      SyncRunTable(t, rest);
      AddAllTs(t, rest, x);
      var prior := SyncRun(t, rest);
      SyncOneTs(prior.table, last, x);
      ListTsConcat(prior.out, SyncOne(prior.table, last).out, x);
    }
  }

  // ---------- what a list of entries does to one name ----------

  const EDITS := {OpAdd, OpModify}
  const DELETES := {OpDelete}

  /** Every entry about `x` carries one of the operations. */
  ghost predicate Only(es: seq<TransEntry>, x: Name, ops: set<Op>) {
    forall k :: 0 <= k < |es| && es[k].name == x ==> es[k].op in ops
  }

  /** The timestamp of `x` after one more entry, and after a list of them; -1 stands for no entry. */
  function ReplayOne(v: int, te: TransEntry, x: Name): int {
    if te.name != x then v
    else match te.op
         case OpNone => v
         case OpDelete => -1
         case _ => Max(v, te.timestamp)
  }

  function Replay(v: int, es: seq<TransEntry>, x: Name): int {
    if es == [] then v else ReplayOne(Replay(v, es[..|es| - 1], x), es[|es| - 1], x)
  }

  lemma {:induction false} ReplayConcat(v: int, a: seq<TransEntry>, b: seq<TransEntry>, x: Name)
    ensures Replay(v, a + b, x) == Replay(Replay(v, a, x), b, x)
    decreases |b|
  {
    if b == [] {
      assert a + b == a;
    } else {
      assert (a + b)[..|a + b| - 1] == a + b[..|b| - 1];
      ReplayConcat(v, a, b[..|b| - 1], x);
    }
  }

  lemma {:induction false} ReplayEdits(v: int, es: seq<TransEntry>, x: Name)
    requires v >= -1 && Only(es, x, EDITS)
    ensures Replay(v, es, x) == Max(v, ListTs(es, x))
  {
    if es != [] {
      ReplayEdits(v, es[..|es| - 1], x);
    }
  }

  lemma {:induction false} ReplayDeletes(v: int, es: seq<TransEntry>, x: Name)
    requires Only(es, x, DELETES)
    ensures Replay(v, es, x) == if x in Names(es) then -1 else v
  {
    if es != [] {
      var rest, last := es[..|es| - 1], es[|es| - 1];
      ReplayDeletes(v, rest, x);
      NamesSnoc(rest, last);
      assert es == rest + [last];
    }
  }

  /** Whatever the packet: the table has the timestamp that the entries about a name lead to. */
  lemma {:induction false} UpdateRunTs(t: Table, packet: seq<TransEntry>, x: Name)
    ensures Ts(UpdateRun(t, packet).table, x) == Replay(Ts(t, x), packet, x)
  {
    if packet != [] {
      var rest, last := packet[..|packet| - 1], packet[|packet| - 1];
      UpdateRunTs(t, rest, x);
      UpdateOneTs(UpdateRun(t, rest).table, last, x);
    }
  }

  lemma UpdateOneTs(t: Table, te: TransEntry, x: Name)
    ensures Ts(UpdateOne(t, te).table, x) == ReplayOne(Ts(t, x), te, x)
  {
    TableAddTs(t, te, x);
  }

  // ---------- the blank slot ----------

  /** The tracker meets a MODIFY of a name it does not know somewhere in the packet. */
  ghost predicate ConflictFires(t: Table, packet: seq<TransEntry>) {
    exists k :: 0 <= k < |packet| && packet[k].op == OpModify && packet[k].name !in UpdateRun(t, packet[..k]).table
  }

  lemma ConflictSnoc(t: Table, packet: seq<TransEntry>)
    requires packet != []
    ensures var rest, last := packet[..|packet| - 1], packet[|packet| - 1];
            ConflictFires(t, packet) <==>
            ConflictFires(t, rest) || (last.op == OpModify && last.name !in UpdateRun(t, rest).table)
  {
    var rest := packet[..|packet| - 1];
    assert forall k :: 0 <= k < |rest| ==> packet[..k] == rest[..k] && packet[k] == rest[k];
  }

  predicate IsEdit(te: TransEntry) {
    te.op == OpAdd || te.op == OpModify
  }

  /** No entry from place `from` up to place `until` deletes `x`. */
  predicate Undeleted(packet: seq<TransEntry>, from: nat, until: nat, x: Name)
    requires until <= |packet|
  {
    forall j :: from <= j < until ==> packet[j].name != x || packet[j].op != OpDelete
  }

  /** Before entry k is reached, `x` was there or was added or changed, and was not deleted since. */
  ghost predicate Live(t: Table, packet: seq<TransEntry>, k: nat, x: Name)
    requires k <= |packet|
  {
    || (x in t && Undeleted(packet, 0, k, x))
    || exists i :: 0 <= i < k && packet[i].name == x && IsEdit(packet[i]) && Undeleted(packet, i + 1, k, x)
  }

  lemma LiveNext(t: Table, packet: seq<TransEntry>, k: nat, x: Name)
    requires k < |packet|
    ensures Live(t, packet, k + 1, x) <==>
            if packet[k].name == x && packet[k].op != OpNone then IsEdit(packet[k]) else Live(t, packet, k, x)
  {
    var te, n := packet[k], k + 1;
    if te.name == x && IsEdit(te) {
      assert Undeleted(packet, n, n, x);
    } else if te.name != x || te.op == OpNone {
      assert forall i: nat :: i <= k ==> (Undeleted(packet, i, n, x) <==> Undeleted(packet, i, k, x));
    } else {
      assert forall i: nat :: i <= k ==> !Undeleted(packet, i, n, x);
    }
  }

  lemma {:induction false} LiveIff(t: Table, packet: seq<TransEntry>, k: nat, x: Name)
    requires k <= |packet|
    ensures x in UpdateRun(t, packet[..k]).table <==> Live(t, packet, k, x)
  {
    if k > 0 {
      LiveIff(t, packet, k - 1, x);
      LiveNext(t, packet, k - 1, x);
      assert packet[..k][..k - 1] == packet[..k - 1];
    }
  }

  /** The tracker broadcasts a blank slot exactly when the packet changes a name that at that point it
      does not hold: it neither had the name nor met an entry that adds it, or met a deletion since. */
  lemma ConflictIff(t: Table, packet: seq<TransEntry>)
    ensures ConflictFires(t, packet) <==>
            exists k :: 0 <= k < |packet| && packet[k].op == OpModify && !Live(t, packet, k, packet[k].name)
  {
    forall k | 0 <= k < |packet|
      ensures packet[k].name in UpdateRun(t, packet[..k]).table <==> Live(t, packet, k, packet[k].name)
    {
      LiveIff(t, packet, k, packet[k].name);
    }
  }

  // ---------- what an update broadcasts ----------

  lemma OnlyConcat(a: seq<TransEntry>, b: seq<TransEntry>, x: Name, ops: set<Op>)
    ensures Only(a + b, x, ops) <==> Only(a, x, ops) && Only(b, x, ops)
  {
    if Only(a + b, x, ops) {
      assert forall k :: 0 <= k < |a| ==> (a + b)[k] == a[k];
      assert forall k :: 0 <= k < |b| ==> (a + b)[|a| + k] == b[k];
    }
  }

  lemma NamesConcat(a: seq<TransEntry>, b: seq<TransEntry>)
    ensures Names(a + b) == Names(a) + Names(b)
  {
    forall x | x in Names(a) + Names(b)
      ensures x in Names(a + b)
    {
      if x in Names(a) {
        var i :| 0 <= i < |a| && a[i].name == x;
        assert (a + b)[i].name == x;
      } else {
        var i :| 0 <= i < |b| && b[i].name == x;
        assert (a + b)[|a| + i].name == x;
      }
    }
  }

  lemma NamesOne(te: TransEntry)
    ensures Names([te]) == {te.name}
  {
    assert [te] == [] + [te] && Names([]) == {};
    NamesSnoc([], te);
  }

  lemma EditTold(t: Table, te: TransEntry, x: Name)
    requires te.op == OpModify ==> te.name in t
    requires te.name == x ==> IsEdit(te)
    ensures var one := UpdateOne(t, te);
            && Only(one.out, x, EDITS)
            && ListTs(one.out, x) == if te.name == x then Ts(one.table, x) else -1
  {
    var one := UpdateOne(t, te);
    if one.out != [] { ListTsOne(one.out[0], x); }
  }

  /** Where a packet only adds and changes a name, the name is broadcast with exactly its new timestamp in
      the table, and not at all where the packet does not mention it. */
  lemma {:induction false} EditsTold(t: Table, packet: seq<TransEntry>, x: Name)
    requires Only(packet, x, EDITS) && !ConflictFires(t, packet)
    ensures var run := UpdateRun(t, packet);
            && Only(run.out, x, EDITS)
            && ListTs(run.out, x) == if ListTs(packet, x) >= 0 then Ts(run.table, x) else -1
  {
    if packet != [] {
      var rest, last := packet[..|packet| - 1], packet[|packet| - 1];
      ConflictSnoc(t, packet);
      EditsTold(t, rest, x);
      var prior := UpdateRun(t, rest);
      EditsToldNext(prior, last, x, ListTs(rest, x) >= 0);
    }
  }

  lemma EditsToldNext(prior: Outcome, te: TransEntry, x: Name, told: bool)
    requires te.op == OpModify ==> te.name in prior.table
    requires te.name == x ==> IsEdit(te)
    requires Only(prior.out, x, EDITS) && ListTs(prior.out, x) == if told then Ts(prior.table, x) else -1
    ensures var one := UpdateOne(prior.table, te);
            && Only(prior.out + one.out, x, EDITS)
            && ListTs(prior.out + one.out, x) == if told || te.name == x then Ts(one.table, x) else -1
  {
    var one := UpdateOne(prior.table, te);
    EditTold(prior.table, te, x);
    UpdateOneTs(prior.table, te, x);
    OnlyConcat(prior.out, one.out, x, EDITS);
    ListTsConcat(prior.out, one.out, x);
  }

  /** The last entry about a name. */
  function LastAbout(es: seq<TransEntry>, x: Name): Option<TransEntry> {
    if es == [] then None
    else if es[|es| - 1].name == x then Some(es[|es| - 1])
    else LastAbout(es[..|es| - 1], x)
  }

  lemma {:induction false} LastAboutConcat(a: seq<TransEntry>, b: seq<TransEntry>, x: Name)
    ensures LastAbout(a + b, x) == if LastAbout(b, x).Some? then LastAbout(b, x) else LastAbout(a, x)
    decreases |b|
  {
    if b == [] {
      assert a + b == a;
    } else {
      assert (a + b)[..|a + b| - 1] == a + b[..|b| - 1];
      LastAboutConcat(a, b[..|b| - 1], x);
    }
  }

  lemma {:induction false} LastAboutMeans(es: seq<TransEntry>, x: Name)
    ensures LastAbout(es, x).Some? <==> x in Names(es)
    ensures LastAbout(es, x).Some? ==> LastAbout(es, x).value in es && LastAbout(es, x).value.name == x
  {
    if es != [] {
      var rest, last := es[..|es| - 1], es[|es| - 1];
      LastAboutMeans(rest, x);
      assert es == rest + [last];
      NamesSnoc(rest, last);
    }
  }

  /** Two tables hold the same for a name, or neither holds it. */
  ghost predicate SameAt(a: Table, b: Table, x: Name) {
    (x in a <==> x in b) && (x in a ==> a[x] == b[x])
  }

  /** A packet that only adds and changes a name does to it what adding the entries one by one does: known or
      not, it ends with the owners, the type and the timestamp that follow from all of them. */
  lemma {:induction false} UpdateIsAdd(t: Table, packet: seq<TransEntry>, x: Name)
    requires Only(packet, x, EDITS)
    ensures SameAt(UpdateRun(t, packet).table, AddAll(t, packet), x)
  {
    if packet != [] {
      UpdateIsAdd(t, packet[..|packet| - 1], x);
    }
  }

  /** And the last that is broadcast about it is the table's entry, with all its owners. */
  lemma {:induction false} LastTold(t: Table, packet: seq<TransEntry>, x: Name)
    requires Only(packet, x, EDITS) && !ConflictFires(t, packet) && x in Names(packet)
    ensures var run := UpdateRun(t, packet);
            && x in run.table && LastAbout(packet, x).Some?
            && LastAbout(run.out, x) == Some(ToTrans(x, run.table[x], LastAbout(packet, x).value.op))
  {
    var rest, last := packet[..|packet| - 1], packet[|packet| - 1];
    assert packet == rest + [last];
    NamesSnoc(rest, last);
    ConflictSnoc(t, packet);
    var prior := UpdateRun(t, rest);
    LastAboutConcat(prior.out, UpdateOne(prior.table, last).out, x);
    if last.name != x {
      LastTold(t, rest, x);
      OneLastTold(prior.table, last, x);
    } else {
      OneLastTold(prior.table, last, x);
    }
  }

  lemma OneLastTold(t: Table, te: TransEntry, x: Name)
    requires te.op == OpModify ==> te.name in t
    ensures var one := UpdateOne(t, te);
            && (te.name != x ==> LastAbout(one.out, x) == None && SameAt(one.table, t, x))
            && (te.name == x && IsEdit(te) ==>
                  x in one.table && LastAbout(one.out, x) == Some(ToTrans(x, one.table[x], te.op)))
  {
    var one := UpdateOne(t, te);
    if one.out != [] {
      assert one.out[..|one.out| - 1] == [] && LastAbout([], x) == None;
    }
  }

  /** A packet of additions and changes is answered entry by entry: with the operation of each and the state
      of the table at that point. */
  lemma {:induction false} EntriesTold(t: Table, packet: seq<TransEntry>, k: nat)
    requires (forall i :: 0 <= i < |packet| ==> IsEdit(packet[i])) && !ConflictFires(t, packet) && k < |packet|
    ensures var run := UpdateRun(t, packet); var now := UpdateRun(t, packet[..k + 1]).table;
            && |run.out| == |packet| && packet[k].name in now
            && run.out[k] == ToTrans(packet[k].name, now[packet[k].name], packet[k].op)
  {
    var rest, last := packet[..|packet| - 1], packet[|packet| - 1];
    ConflictSnoc(t, packet);
    var prior := UpdateRun(t, rest);
    EditTold(prior.table, last, last.name);
    EntriesToldCount(t, rest);
    if k < |rest| {
      EntriesTold(t, rest, k);
      assert packet[..k + 1] == rest[..k + 1];
    } else {
      assert packet[..k + 1] == packet;
    }
  }

  lemma {:induction false} EntriesToldCount(t: Table, packet: seq<TransEntry>)
    requires forall i :: 0 <= i < |packet| ==> IsEdit(packet[i])
    ensures |UpdateRun(t, packet).out| == |packet|
  {
    if packet != [] {
      EntriesToldCount(t, packet[..|packet| - 1]);
    }
  }

  lemma {:induction false} BlankIff(t: Table, packet: seq<TransEntry>)
    requires [] !in Names(packet)
    ensures BLANK in UpdateRun(t, packet).out <==> ConflictFires(t, packet)
  {
    if packet != [] {
      var rest, last := packet[..|packet| - 1], packet[|packet| - 1];
      assert packet == rest + [last];
      NamesSnoc(rest, last);
      ConflictSnoc(t, packet);
      BlankIff(t, rest);
    }
  }

  /** Where a packet only deletes a name, the broadcast does too, if the tracker held the name. */
  lemma {:induction false} DeletesTold(t: Table, packet: seq<TransEntry>, x: Name)
    requires Only(packet, x, DELETES) && !ConflictFires(t, packet)
    ensures var run := UpdateRun(t, packet);
            && Only(run.out, x, DELETES)
            && (x in Names(run.out) <==> x in Names(packet) && x in t)
  {
    if packet != [] {
      var rest, last := packet[..|packet| - 1], packet[|packet| - 1];
      ConflictSnoc(t, packet);
      DeletesTold(t, rest, x);
      UpdateRunTs(t, rest, x);
      ReplayDeletes(Ts(t, x), rest, x);
      var prior := UpdateRun(t, rest);
      DeleteToldNext(prior, last, x);
      NamesSnoc(rest, last);
      assert packet == rest + [last];
    }
  }

  lemma DeleteToldNext(prior: Outcome, te: TransEntry, x: Name)
    requires te.op == OpModify ==> te.name in prior.table
    requires te.name == x ==> te.op == OpDelete
    requires Only(prior.out, x, DELETES)
    ensures var one := UpdateOne(prior.table, te);
            && Only(prior.out + one.out, x, DELETES)
            && (x in Names(prior.out + one.out) <==> x in Names(prior.out) || (te.name == x && x in prior.table))
  {
    var one := UpdateOne(prior.table, te);
    OnlyConcat(prior.out, one.out, x, DELETES);
    NamesConcat(prior.out, one.out);
    assert Names([]) == {};
    if one.out != [] {
      NamesOne(one.out[0]);
      assert one.out == [one.out[0]];
    }
  }

  /** At most one entry about a name, and then it is this one. */
  ghost predicate OnceAs(out: seq<TransEntry>, x: Name, te: Option<TransEntry>) {
    && (forall k :: 0 <= k < |out| && out[k].name == x ==> Some(out[k]) == te)
    && (forall i, j :: 0 <= i < j < |out| ==> out[i].name != x || out[j].name != x)
  }

  lemma OnceNext(out: seq<TransEntry>, one: seq<TransEntry>, x: Name, te: Option<TransEntry>)
    requires OnceAs(out, x, te) && |one| <= 1
    requires one != [] && one[0].name == x ==> x !in Names(out) && te == Some(one[0])
    ensures OnceAs(out + one, x, te)
  {
    assert forall k :: 0 <= k < |out| ==> out[k].name in Names(out);
  }

  /** What is broadcast about a name that is only deleted is the first entry that deletes it, once. */
  lemma {:induction false} DeletionCopied(t: Table, packet: seq<TransEntry>, x: Name)
    requires Only(packet, x, DELETES) && !ConflictFires(t, packet)
    ensures OnceAs(UpdateRun(t, packet).out, x, Search(packet, x))
  {
    if packet != [] {
      var rest, last := packet[..|packet| - 1], packet[|packet| - 1];
      assert packet == rest + [last];
      ConflictSnoc(t, packet);
      DeletionCopied(t, rest, x);
      SearchSnoc(rest, last, x);
      DeletesTold(t, rest, x);
      UpdateRunTs(t, rest, x);
      ReplayDeletes(Ts(t, x), rest, x);
      var prior := UpdateRun(t, rest);
      SearchNone(rest, x);
      assert Search(rest, x).None? ==> forall k :: 0 <= k < |prior.out| ==> prior.out[k].name in Names(prior.out);
      OnceNext(prior.out, UpdateOne(prior.table, last).out, x, Search(packet, x));
    }
  }

  lemma SearchNone(es: seq<TransEntry>, x: Name)
    ensures Search(es, x).None? <==> x !in Names(es)
  {
    assert forall i :: 0 <= i < |es| ==> es[i].name in Names(es);
  }

  lemma {:induction false} SearchSnoc(es: seq<TransEntry>, te: TransEntry, x: Name)
    ensures Search(es + [te], x) ==
            if Search(es, x).Some? then Search(es, x) else if te.name == x then Some(te) else None
  {
    if es == [] {
      assert es + [te] == [te] && [te][1..] == [];
    } else {
      assert (es + [te])[1..] == es[1..] + [te];
      SearchSnoc(es[1..], te, x);
    }
  }

  /** The type of a file never changes: it is that of the first entry about it. */
  lemma {:induction false} HistoryType(es: seq<TransEntry>, x: Name)
    ensures x in AddAll(map[], es) <==> Search(es, x).Some?
    ensures x in AddAll(map[], es) ==> AddAll(map[], es)[x].ftype == Search(es, x).value.ftype
  {
    if es != [] {
      var rest, last := es[..|es| - 1], es[|es| - 1];
      assert es == rest + [last];
      HistoryType(rest, x);
      SearchSnoc(rest, last, x);
    }
  }

  // ---------- what a sync broadcasts and replies ----------

  /** A sync broadcasts exactly the entries that are newer at the peer, as the peer sent them, as added or as
      modified ... */
  lemma {:induction false} SyncToldIff(t: Table, tft: seq<TransEntry>, te: TransEntry)
    requires DistinctNames(tft)
    ensures te in SyncRun(t, tft).out <==> exists s :: s in tft && ToldAs(t, s, te)
  {
    if tft != [] {
      var rest, last := tft[..|tft| - 1], tft[|tft| - 1];
      assert tft == rest + [last];
      SyncToldIff(t, rest, te);
      SyncRunTable(t, rest);
      AddAllAbsent(t, rest, last.name);
      assert te in SyncOne(SyncRun(t, rest).table, last).out <==> ToldAs(t, last, te);
      assert last in tft && forall s :: s in rest ==> s in tft;
    }
  }

  ghost predicate ToldAs(t: Table, s: TransEntry, te: TransEntry) {
    s.timestamp > Ts(t, s.name) && te == s.(op := if s.name in t then OpModify else OpAdd)
  }

  /** ... and each name once. */
  lemma {:induction false} SyncToldDistinct(t: Table, tft: seq<TransEntry>)
    requires DistinctNames(tft)
    ensures DistinctNames(SyncRun(t, tft).out)
    ensures forall i :: 0 <= i < |SyncRun(t, tft).out| ==> SyncRun(t, tft).out[i].name in Names(tft)
  {
    if tft != [] {
      var rest, last := tft[..|tft| - 1], tft[|tft| - 1];
      assert tft == rest + [last];
      NamesSnoc(rest, last);
      SyncToldDistinct(t, rest);
      assert last.name !in Names(rest);
    }
  }

  lemma {:induction false} AddAllAbsent(t: Table, es: seq<TransEntry>, x: Name)
    requires forall i :: 0 <= i < |es| ==> es[i].name != x
    ensures SameAt(AddAll(t, es), t, x)
  {
    if es != [] {
      AddAllAbsent(t, es[..|es| - 1], x);
    }
  }

  /** The peer does not have this entry of the tracker's: nothing with the name, or only something older, or
      something as old with other owners. */
  ghost predicate Lacking(fe: TransEntry, tft: seq<TransEntry>) {
    forall te :: te in tft && te.name == fe.name ==>
      te.timestamp < fe.timestamp || (te.timestamp == fe.timestamp && te.owners != fe.owners)
  }

  lemma ReplyOneIff(fe: TransEntry, tft: seq<TransEntry>)
    requires DistinctNames(tft)
    ensures ReplyOne(fe, tft) ==
            if Lacking(fe, tft) then [fe.(op := if fe.name in Names(tft) then OpModify else OpAdd)] else []
  {
    var r := Search(tft, fe.name);
    if r.Some? {
      var i :| 0 <= i < |tft| && tft[i] == r.value;
      assert forall te :: te in tft && te.name == fe.name ==> te == r.value;
      assert tft[i].name in Names(tft);
    }
  }

  /** A sync is answered with exactly the tracker's entries that the peer lacks, as added or as modified ... */
  lemma {:induction false} ReplyIff(visited: seq<TransEntry>, tft: seq<TransEntry>, te: TransEntry)
    requires DistinctNames(tft)
    ensures te in SyncReply(visited, tft) <==> exists fe :: fe in visited && RepliedAs(fe, tft, te)
  {
    if visited != [] {
      var rest, last := visited[..|visited| - 1], visited[|visited| - 1];
      assert visited == rest + [last];
      ReplyIff(rest, tft, te);
      ReplyOneIff(last, tft);
      assert te in ReplyOne(last, tft) <==> RepliedAs(last, tft, te);
      assert last in visited && forall fe :: fe in rest ==> fe in visited;
    }
  }

  ghost predicate RepliedAs(fe: TransEntry, tft: seq<TransEntry>, te: TransEntry) {
    Lacking(fe, tft) && te == fe.(op := if fe.name in Names(tft) then OpModify else OpAdd)
  }

  /** ... and each name once. */
  lemma {:induction false} ReplyDistinct(visited: seq<TransEntry>, tft: seq<TransEntry>)
    requires DistinctNames(visited)
    ensures DistinctNames(SyncReply(visited, tft))
    ensures forall i :: 0 <= i < |SyncReply(visited, tft)| ==> SyncReply(visited, tft)[i].name in Names(visited)
  {
    if visited != [] {
      var rest, last := visited[..|visited| - 1], visited[|visited| - 1];
      assert visited == rest + [last];
      NamesSnoc(rest, last);
      ReplyDistinct(rest, tft);
      assert last.name !in Names(rest);
    }
  }

  lemma ReplyOneTs(fe: TransEntry, tft: seq<TransEntry>, x: Name)
    requires DistinctNames(tft)
    ensures ListTs(ReplyOne(fe, tft), x) == -1 || (x == fe.name && ListTs(ReplyOne(fe, tft), x) == fe.timestamp)
    ensures x == fe.name && fe.timestamp > ListTs(tft, x) ==> ListTs(ReplyOne(fe, tft), x) == fe.timestamp
  {
    SearchTs(tft, fe.name);
    ListTsOne(fe.(op := OpAdd), x);
    ListTsOne(fe.(op := OpModify), x);
  }

  /** The reply carries, for every name, the tracker's timestamp where the peer's is older or
      missing; otherwise at most that same timestamp. */
  lemma {:induction false} SyncReplyTs(visited: seq<TransEntry>, tft: seq<TransEntry>, x: Name)
    requires DistinctNames(visited) && DistinctNames(tft)
    ensures ListTs(SyncReply(visited, tft), x) <= ListTs(visited, x)
    ensures ListTs(visited, x) > ListTs(tft, x) ==> ListTs(SyncReply(visited, tft), x) == ListTs(visited, x)
  {
    if visited != [] {
      var rest, last := visited[..|visited| - 1], visited[|visited| - 1];
      SyncReplyTs(rest, tft, x);
      var one := ReplyOne(last, tft);
      ListTsConcat(SyncReply(rest, tft), one, x);
      ReplyOneTs(last, tft, x);
      if x == last.name {
        ListTsMeans(rest, x);
      }
    }
  }

  lemma SearchTs(tft: seq<TransEntry>, x: Name)
    requires DistinctNames(tft)
    ensures Search(tft, x).None? ==> ListTs(tft, x) == -1
    ensures Search(tft, x).Some? ==> ListTs(tft, x) == Search(tft, x).value.timestamp
  {
    var r := Search(tft, x);
    ListTsMeans(tft, x);
    if r.Some? {
      var i :| 0 <= i < |tft| && tft[i] == r.value;
      assert forall j :: 0 <= j < |tft| && tft[j].name == x ==> j == i;
    }
  }

  lemma EnumeratesTs(t: Table, es: seq<TransEntry>, x: Name)
    requires Enumerates(t, es)
    ensures ListTs(es, x) == Ts(t, x)
  {
    ListTsMeans(es, x);
    if x in t {
      assert x in Names(es);
      var i :| 0 <= i < |es| && es[i].name == x;
      assert forall j :: 0 <= j < |es| && es[j].name == x ==> j == i;
    } else {
      assert x !in Names(es);
      assert forall i :: 0 <= i < |es| ==> es[i].name in Names(es);
    }
  }
}
