/** A file table on its way from a peer to the tracker: struct layout on a 64-bit little-endian machine,
    packet header with a 16-bit length, framing, and the copies the receiver makes. */
module Packets {
  import opened Entries
  import opened Segment
  import opened Bits

  const MAX_NAME_LEN := 128
  const MAX_FILE_ENTRIES := 4096
  const MAX_PKT_DATA_LEN := 65536
  const ENTRY_SIZE := 272
  const TABLE_SIZE := 8 + ENTRY_SIZE * MAX_FILE_ENTRIES
  const HEADER_SIZE := 140
  const PACKET_SIZE := HEADER_SIZE + MAX_PKT_DATA_LEN

  // ---------- little-endian numbers ----------

  function Pow256(n: nat): (r: nat)
    ensures r > 0
  {
    if n == 0 then 1 else 256 * Pow256(n - 1)
  }

  function Le(n: nat, v: nat): (r: seq<Byte>)
    ensures |r| == n
  {
    if n == 0 then [] else [v % 256] + Le(n - 1, v / 256)
  }

  function UnLe(s: seq<Byte>): nat {
    if s == [] then 0 else s[0] + 256 * UnLe(s[1..])
  }

  lemma {:induction false} LeRoundTrip(n: nat, v: nat)
    requires v < Pow256(n)
    ensures UnLe(Le(n, v)) == v
  {
    if n > 0 {
      LeRoundTrip(n - 1, v / 256);
      assert Le(n, v)[1..] == Le(n - 1, v / 256);
    }
  }

  lemma Powers()
    ensures Pow256(2) == 0x1_0000 && Pow256(4) == 0x1_0000_0000 && Pow256(8) == 0x1_0000_0000_0000_0000
  {
    assert Pow256(1) == 256;
    assert Pow256(3) == 0x100_0000;
    assert Pow256(5) == 0x100_0000_0000;
    assert Pow256(6) == 0x1_0000_0000_0000;
    assert Pow256(7) == 0x100_0000_0000_0000;
  }

  function Zeros(n: nat): (r: seq<Byte>)
    ensures |r| == n
  {
    seq(n, _ => 0)
  }

  // ---------- entries ----------

  function OpCode(op: Op): nat {
    match op
    case OpNone => 0
    case OpAdd => 1
    case OpDelete => 2
    case OpModify => 3
  }

  function OpOf(code: nat): Op {
    if code == 1 then OpAdd else if code == 2 then OpDelete else if code == 3 then OpModify else OpNone
  }

  function TypeCode(t: FileType): nat {
    match t
    case Regular => 0
    case Directory => 1
    case SoftLink => 2
  }

  function TypeOf(code: nat): FileType {
    if code == 1 then Directory else if code == 2 then SoftLink else Regular
  }

  predicate FitsPeer(o: PeerId) {
    o.ip < 0x1_0000_0000 && o.port < 0x1_0000
  }

  /** The entry can be stored in a struct trans_file_entry. */
  predicate Fits(te: TransEntry) {
    && |te.name| < MAX_NAME_LEN && (forall i :: 0 <= i < |te.name| ==> te.name[i] != 0)
    && te.timestamp < 0x1_0000_0000_0000_0000
    && |te.owners| <= MAX_PEER_ENTRIES && (forall i :: 0 <= i < |te.owners| ==> FitsPeer(te.owners[i]))
  }

  predicate AllFit(es: seq<TransEntry>) {
    forall i :: 0 <= i < |es| ==> Fits(es[i])
  }

  function SlotBytes(o: PeerId): (r: seq<Byte>)
    ensures |r| == 8
  {
    Le(4, o.ip) + Le(2, o.port) + Zeros(2)
  }

  function SlotsBytes(owners: seq<PeerId>): (r: seq<Byte>)
    ensures |r| == 8 * |owners|
  {
    if owners == [] then [] else SlotBytes(owners[0]) + SlotsBytes(owners[1..])
  }

  /** Name at 0, timestamp at 128, operation, type and owner count at 136, 138 and 140, owners at 144. */
  function EntryBytes(te: TransEntry): (r: seq<Byte>)
    requires Fits(te)
    ensures |r| == ENTRY_SIZE
  {
    (te.name + Zeros(MAX_NAME_LEN - |te.name|))
    + Le(8, te.timestamp)
    + (Le(2, OpCode(te.op)) + Le(2, TypeCode(te.ftype)) + Le(2, |te.owners|) + Zeros(2))
    + (SlotsBytes(te.owners) + Zeros(8 * (MAX_PEER_ENTRIES - |te.owners|)))
  }

  function SlotOf(s: seq<Byte>): PeerId
    requires |s| == 8
  {
    PeerId(UnLe(s[..4]), UnLe(s[4..6]))
  }

  function SlotsOf(s: seq<Byte>, n: nat): (r: seq<PeerId>)
    requires 8 * n <= |s|
    ensures |r| == n
  {
    if n == 0 then [] else [SlotOf(s[..8])] + SlotsOf(s[8..], n - 1)
  }

  function EntryOf(s: seq<Byte>): TransEntry
    requires |s| == ENTRY_SIZE
  {
    var ownerN := UnLe(s[140..142]);
    TransEntry(CString(s[..128]), UnLe(s[128..136]), OpOf(UnLe(s[136..138])), TypeOf(UnLe(s[138..140])),
               SlotsOf(s[144..], if ownerN <= MAX_PEER_ENTRIES then ownerN else MAX_PEER_ENTRIES))
  }

  lemma SlotRoundTrip(o: PeerId)
    requires FitsPeer(o)
    ensures SlotOf(SlotBytes(o)) == o
  {
    Powers();
    LeRoundTrip(4, o.ip);
    LeRoundTrip(2, o.port);
    assert SlotBytes(o)[..4] == Le(4, o.ip) && SlotBytes(o)[4..6] == Le(2, o.port);
  }

  lemma SplitAfter(a: seq<Byte>, b: seq<Byte>, c: seq<Byte>)
    ensures ((a + b) + c)[..|a|] == a && ((a + b) + c)[|a|..] == b + c
  {}

  lemma FirstSlot(o: PeerId, more: seq<Byte>, rest: seq<Byte>, n: nat)
    requires FitsPeer(o) && 8 * n <= |more + rest|
    ensures SlotsOf((SlotBytes(o) + more) + rest, n + 1) == [o] + SlotsOf(more + rest, n)
  {
    SlotRoundTrip(o);
    SplitAfter(SlotBytes(o), more, rest);
  }

  lemma {:induction false} SlotsRoundTrip(owners: seq<PeerId>, rest: seq<Byte>)
    requires forall i :: 0 <= i < |owners| ==> FitsPeer(owners[i])
    ensures SlotsOf(SlotsBytes(owners) + rest, |owners|) == owners
  {
    if owners != [] {
      var first, others := owners[0], owners[1..];
      assert owners == [first] + others;
      SlotsRoundTrip(others, rest);
      FirstSlot(first, SlotsBytes(others), rest, |others|);
    }
  }

  lemma CodesRoundTrip(te: TransEntry)
    requires Fits(te)
    ensures var codes := Le(2, OpCode(te.op)) + Le(2, TypeCode(te.ftype)) + Le(2, |te.owners|) + Zeros(2);
            && OpOf(UnLe(codes[..2])) == te.op && TypeOf(UnLe(codes[2..4])) == te.ftype
            && UnLe(codes[4..6]) == |te.owners|
  {
    Powers();
    LeRoundTrip(2, OpCode(te.op));
    LeRoundTrip(2, TypeCode(te.ftype));
    LeRoundTrip(2, |te.owners|);
    var codes := Le(2, OpCode(te.op)) + Le(2, TypeCode(te.ftype)) + Le(2, |te.owners|) + Zeros(2);
    assert codes[..2] == Le(2, OpCode(te.op));
    assert codes[2..4] == Le(2, TypeCode(te.ftype));
    assert codes[4..6] == Le(2, |te.owners|);
  }

  /** Fields laid out one after the other are found again at their offsets. */
  lemma EntryOfFields(a: seq<Byte>, b: seq<Byte>, c: seq<Byte>, d: seq<Byte>, n: nat)
    requires |a| == 128 && |b| == 8 && |c| == 8 && |d| == 128 && UnLe(c[4..6]) == n <= MAX_PEER_ENTRIES
    ensures EntryOf(a + b + c + d) ==
            TransEntry(CString(a), UnLe(b), OpOf(UnLe(c[..2])), TypeOf(UnLe(c[2..4])), SlotsOf(d, n))
  {
    var s := a + b + c + d;
    assert s[..128] == a && s[128..136] == b && s[136..138] == c[..2] && s[138..140] == c[2..4];
    assert s[140..142] == c[4..6] && s[144..] == d;
  }

  /** Storing an entry in its struct and reading it back changes nothing. */
  lemma EntryRoundTrip(te: TransEntry)
    requires Fits(te)
    ensures EntryOf(EntryBytes(te)) == te
  {
    var name := te.name + Zeros(MAX_NAME_LEN - |te.name|);
    var codes := Le(2, OpCode(te.op)) + Le(2, TypeCode(te.ftype)) + Le(2, |te.owners|) + Zeros(2);
    var slots := SlotsBytes(te.owners) + Zeros(8 * (MAX_PEER_ENTRIES - |te.owners|));
    CStringRoundTrip(te.name, Zeros(MAX_NAME_LEN - |te.name|));
    TimestampRoundTrip(te.timestamp);
    CodesRoundTrip(te);
    SlotsRoundTrip(te.owners, Zeros(8 * (MAX_PEER_ENTRIES - |te.owners|)));
    EntryOfFields(name, Le(8, te.timestamp), codes, slots, |te.owners|);
  }

  lemma TimestampRoundTrip(v: nat)
    requires v < 0x1_0000_0000_0000_0000
    ensures UnLe(Le(8, v)) == v
  {
    Powers();
    LeRoundTrip(8, v);
  }

  // ---------- the layout ----------

  /** Byte i of a number, the least significant first. */
  lemma {:induction false} LeByte(n: nat, v: nat, i: nat)
    requires i < n
    ensures Le(n, v)[i] == v / Pow256(i) % 256
  {
    if i > 0 {
      LeByte(n - 1, v / 256, i - 1);
      DivDiv(v, 256, Pow256(i - 1));
      assert Pow256(i) == Pow256(i - 1) * 256;
    } else {
      assert v / 1 == v;
    }
  }

  /** Every field of an entry lies at the offset that the struct gives it ... */
  lemma EntryLayout(te: TransEntry)
    requires Fits(te)
    ensures var s := EntryBytes(te);
            && s[..|te.name|] == te.name && s[|te.name|] == 0
            && s[128..136] == Le(8, te.timestamp)
            && s[136] == (match te.op case OpNone => 0 case OpAdd => 1 case OpDelete => 2 case OpModify => 3)
            && s[138] == (match te.ftype case Regular => 0 case Directory => 1 case SoftLink => 2)
            && s[140] == |te.owners|
            && s[137] == s[139] == s[141] == 0
  {
    var s := EntryBytes(te);
    var name := te.name + Zeros(MAX_NAME_LEN - |te.name|);
    var codes := Le(2, OpCode(te.op)) + Le(2, TypeCode(te.ftype)) + Le(2, |te.owners|) + Zeros(2);
    assert s[..128] == name && s[128..136] == Le(8, te.timestamp) && s[136..144] == codes;
    SmallCode(OpCode(te.op));
    SmallCode(TypeCode(te.ftype));
    SmallCode(|te.owners|);
    assert s[136..144][0] == s[136] && s[136..144][2] == s[138] && s[136..144][4] == s[140];
    assert s[136..144][1] == s[137] && s[136..144][3] == s[139] && s[136..144][5] == s[141];
  }

  /** ... and every owner in its slot, ip before port. */
  lemma OwnerLayout(te: TransEntry, i: nat)
    requires Fits(te) && i < |te.owners|
    ensures EntryBytes(te)[144 + 8 * i..144 + 8 * i + 4] == Le(4, te.owners[i].ip)
    ensures EntryBytes(te)[144 + 8 * i + 4..144 + 8 * i + 6] == Le(2, te.owners[i].port)
  {
    var s, rest := EntryBytes(te), Zeros(8 * (MAX_PEER_ENTRIES - |te.owners|));
    assert s[144..] == SlotsBytes(te.owners) + rest;
    SlotAt(te.owners, rest, i);
    SliceOfTail(s, 144, 8 * i, 8 * i + 4);
    SliceOfTail(s, 144, 8 * i + 4, 8 * i + 6);
  }

  /** The table: the count at 0, and entry i at 8 + 272 i. */
  lemma {:induction false} TableLayout(es: seq<TransEntry>, i: nat)
    requires AllFit(es) && i < |es|
    ensures var at := 8 + ENTRY_SIZE * i;
            TableBytes(es)[..4] == Le(4, |es|) && TableBytes(es)[at..at + ENTRY_SIZE] == EntryBytes(es[i])
  {
    ChunkAt(Le(4, |es|) + Zeros(4), Chunks(es), i);
    CountAt(Le(4, |es|), Zeros(4), EntriesBytes(es));
  }

  lemma CountAt(a: seq<Byte>, b: seq<Byte>, c: seq<Byte>)
    ensures (a + b + c)[..|a|] == a
  {}

  lemma ChunkAt(head: seq<Byte>, chunks: seq<seq<Byte>>, i: nat)
    requires |head| == 8 && Sized(chunks) && i < |chunks|
    ensures var at := 8 + ENTRY_SIZE * i;
            at + ENTRY_SIZE <= 8 + |Join(chunks)| && (head + Join(chunks))[at..at + ENTRY_SIZE] == chunks[i]
  {
    var s, at := head + Join(chunks), ENTRY_SIZE * i;
    JoinSlice(chunks, i);
    assert s[8..] == Join(chunks);
    SliceOfTail(s, 8, at, at + ENTRY_SIZE);
  }

  lemma SliceOfCopy(s: seq<Byte>, n: nat, copied: seq<Byte>, k: nat)
    requires n + |copied| <= |s| && s[n..][..|copied|] == copied && k <= |copied|
    ensures s[n..n + k] == copied[..k]
  {
    assert s[n..n + k] == s[n..][..|copied|][..k];
  }

  lemma SmallCode(v: nat)
    requires v < 256
    ensures Le(2, v) == [v, 0]
  {
    assert Le(1, v / 256) == [0];
  }

  lemma SliceOfTail(s: seq<Byte>, n: nat, i: nat, j: nat)
    requires n <= |s| && i <= j <= |s| - n
    ensures s[n..][i..j] == s[n + i..n + j]
  {}

  lemma {:induction false} SlotAt(owners: seq<PeerId>, rest: seq<Byte>, i: nat)
    requires i < |owners|
    ensures (SlotsBytes(owners) + rest)[8 * i..8 * i + 4] == Le(4, owners[i].ip)
    ensures (SlotsBytes(owners) + rest)[8 * i + 4..8 * i + 6] == Le(2, owners[i].port)
  {
    var first, more := SlotBytes(owners[0]), SlotsBytes(owners[1..]);
    SplitAfter(first, more, rest);
    var s := (first + more) + rest;
    if i == 0 {
      assert s[..8] == first;
      SlicesOfPrefix(s, 8);
      assert first[0..4] == Le(4, owners[0].ip) && first[4..6] == Le(2, owners[0].port);
    } else {
      SlotAt(owners[1..], rest, i - 1);
      SliceOfTail(s, 8, 8 * (i - 1), 8 * (i - 1) + 4);
      SliceOfTail(s, 8, 8 * (i - 1) + 4, 8 * (i - 1) + 6);
    }
  }

  // ---------- tables ----------

  ghost predicate Sized(chunks: seq<seq<Byte>>) {
    forall i :: 0 <= i < |chunks| ==> |chunks[i]| == ENTRY_SIZE
  }

  /** Array elements one after the other. */
  function Join(chunks: seq<seq<Byte>>): (r: seq<Byte>)
    requires Sized(chunks)
    ensures |r| == ENTRY_SIZE * |chunks|
  {
    if chunks == [] then [] else Join(chunks[..|chunks| - 1]) + chunks[|chunks| - 1]
  }

  lemma {:induction false} JoinSlice(chunks: seq<seq<Byte>>, i: nat)
    requires Sized(chunks) && i < |chunks|
    ensures Join(chunks)[ENTRY_SIZE * i..ENTRY_SIZE * (i + 1)] == chunks[i]
  {
    var rest, last := chunks[..|chunks| - 1], chunks[|chunks| - 1];
    if i == |chunks| - 1 {
      assert (Join(rest) + last)[|Join(rest)|..] == last;
    } else {
      JoinSlice(rest, i);
      SliceOfPrefix(Join(rest), last, ENTRY_SIZE * i, ENTRY_SIZE * (i + 1));
    }
  }

  lemma SliceOfPrefix(a: seq<Byte>, b: seq<Byte>, i: nat, j: nat)
    requires i <= j <= |a|
    ensures (a + b)[i..j] == a[i..j]
  {}

  function Chunks(es: seq<TransEntry>): (r: seq<seq<Byte>>)
    requires AllFit(es)
    ensures Sized(r) && |r| == |es|
  {
    seq(|es|, i requires 0 <= i < |es| => EntryBytes(es[i]))
  }

  function EntriesBytes(es: seq<TransEntry>): (r: seq<Byte>)
    requires AllFit(es)
    ensures |r| == ENTRY_SIZE * |es|
  {
    Join(Chunks(es))
  }

  /** The count at 0, four bytes of padding, and the entries from 8 on. */
  function TableBytes(es: seq<TransEntry>): (r: seq<Byte>)
    requires AllFit(es)
    ensures |r| == 8 + ENTRY_SIZE * |es|
  {
    Le(4, |es|) + Zeros(4) + EntriesBytes(es)
  }

  /** trans_table_len, which leaves the padding out of account. */
  function TableLen(n: nat): nat {
    4 + n * ENTRY_SIZE
  }

  function EntriesOf(s: seq<Byte>, n: nat): seq<TransEntry>
    requires ENTRY_SIZE * n <= |s|
  {
    seq(n, i requires 0 <= i < n => EntryOf(s[ENTRY_SIZE * i..ENTRY_SIZE * (i + 1)]))
  }

  /** A table struct as the receiver reads it. */
  function TableOf(s: seq<Byte>): seq<TransEntry>
    requires |s| == TABLE_SIZE
  {
    var n := UnLe(s[..4]);
    EntriesOf(s[8..], if n <= MAX_FILE_ENTRIES then n else MAX_FILE_ENTRIES)
  }

  lemma EntriesRoundTrip(es: seq<TransEntry>, rest: seq<Byte>)
    requires AllFit(es)
    ensures EntriesOf(EntriesBytes(es) + rest, |es|) == es
  {
    forall i | 0 <= i < |es|
      ensures EntryOf((EntriesBytes(es) + rest)[ENTRY_SIZE * i..ENTRY_SIZE * (i + 1)]) == es[i]
    {
      JoinSlice(Chunks(es), i);
      SliceOfPrefix(EntriesBytes(es), rest, ENTRY_SIZE * i, ENTRY_SIZE * (i + 1));
      EntryRoundTrip(es[i]);
    }
  }

  lemma TableRoundTrip(es: seq<TransEntry>)
    requires AllFit(es) && |es| <= MAX_FILE_ENTRIES
    ensures TableOf(TableBytes(es) + Zeros(TABLE_SIZE - |TableBytes(es)|)) == es
  {
    var rest := Zeros(TABLE_SIZE - |TableBytes(es)|);
    var s := TableBytes(es) + rest;
    Powers();
    LeRoundTrip(4, |es|);
    assert s[..4] == Le(4, |es|);
    assert s[8..] == EntriesBytes(es) + rest;
    EntriesRoundTrip(es, rest);
  }

  // ---------- the bytes that are not carried ----------

  function ClipEntry(te: TransEntry): TransEntry {
    if |te.owners| == MAX_PEER_ENTRIES
    then te.(owners := te.owners[15 := te.owners[15].(port := 0)])
    else te
  }

  /** The table without the port of the sixteenth owner of its last entry. */
  function Clip(es: seq<TransEntry>): seq<TransEntry> {
    if es == [] then [] else es[|es| - 1 := ClipEntry(es[|es| - 1])]
  }

  lemma {:induction false} SlotsConcat(a: seq<PeerId>, b: seq<PeerId>)
    ensures SlotsBytes(a + b) == SlotsBytes(a) + SlotsBytes(b)
  {
    if a == [] {
      assert a + b == b;
    } else {
      assert (a + b)[1..] == a[1..] + b;
      SlotsConcat(a[1..], b);
    }
  }

  lemma SlotsSnoc(owners: seq<PeerId>, o: PeerId)
    ensures SlotsBytes(owners + [o]) == SlotsBytes(owners) + SlotBytes(o)
  {
    SlotsConcat(owners, [o]);
    assert [o][1..] == [];
  }

  lemma LeZero(n: nat)
    ensures Le(n, 0) == Zeros(n)
  {}

  /** Losing the last four bytes of the owners means losing the port of the sixteenth. */
  lemma ClipSlots(owners: seq<PeerId>)
    requires |owners| <= MAX_PEER_ENTRIES
    ensures var full := SlotsBytes(owners) + Zeros(8 * (MAX_PEER_ENTRIES - |owners|));
            var kept := if |owners| == MAX_PEER_ENTRIES then owners[15 := owners[15].(port := 0)] else owners;
            full[..124] + Zeros(4) == SlotsBytes(kept) + Zeros(8 * (MAX_PEER_ENTRIES - |kept|))
  {
    var full := SlotsBytes(owners) + Zeros(8 * (MAX_PEER_ENTRIES - |owners|));
    if |owners| == MAX_PEER_ENTRIES {
      var rest, o := owners[..15], owners[15];
      assert owners == rest + [o];
      assert owners[15 := o.(port := 0)] == rest + [o.(port := 0)];
      SlotsSnoc(rest, o);
      SlotsSnoc(rest, o.(port := 0));
      LeZero(2);
      assert full[..124] == SlotsBytes(rest) + Le(4, o.ip);
      assert Zeros(4) == Zeros(2) + Zeros(2);
    } else {
      assert Zeros(8 * (MAX_PEER_ENTRIES - |owners|)) == Zeros(8 * (MAX_PEER_ENTRIES - |owners|) - 4) + Zeros(4);
    }
  }

  lemma ClipEntryBytes(te: TransEntry)
    requires Fits(te)
    ensures Fits(ClipEntry(te)) && EntryBytes(ClipEntry(te)) == EntryBytes(te)[..268] + Zeros(4)
  {
    ClipSlots(te.owners);
    var slots := SlotsBytes(te.owners) + Zeros(8 * (MAX_PEER_ENTRIES - |te.owners|));
    var head := te.name + Zeros(MAX_NAME_LEN - |te.name|)
                + Le(8, te.timestamp)
                + (Le(2, OpCode(te.op)) + Le(2, TypeCode(te.ftype)) + Le(2, |te.owners|) + Zeros(2));
    assert (head + slots)[..268] == head + slots[..124];
    assert head + slots[..124] + Zeros(4) == head + (slots[..124] + Zeros(4));
  }

  lemma EntriesSnoc(es: seq<TransEntry>, te: TransEntry)
    requires AllFit(es) && Fits(te)
    ensures AllFit(es + [te]) && EntriesBytes(es + [te]) == EntriesBytes(es) + EntryBytes(te)
  {
    var all := Chunks(es + [te]);
    assert all[..|es|] == Chunks(es) && all[|es|] == EntryBytes(te);
  }

  /** What trans_table_len bytes carry, completed with zeros, is the table without the sixteenth port of
      its last entry. */
  lemma CarriedBytes(es: seq<TransEntry>)
    requires AllFit(es)
    ensures AllFit(Clip(es)) && |Clip(es)| == |es|
    ensures TableBytes(es)[..TableLen(|es|)] + Zeros(4) == TableBytes(Clip(es))
  {
    if es == [] {
      assert TableBytes(es)[..4] == Le(4, 0);
    } else {
      var rest, last := es[..|es| - 1], es[|es| - 1];
      assert es == rest + [last] && Clip(es) == rest + [ClipEntry(last)];
      ClipEntryBytes(last);
      TableSnoc(rest, last);
      TableSnoc(rest, ClipEntry(last));
      var head := Le(4, |es|) + Zeros(4) + EntriesBytes(rest);
      CutTail(head, EntryBytes(last), TableBytes(es));
    }
  }

  lemma {:induction false} TableSnoc(rest: seq<TransEntry>, te: TransEntry)
    requires AllFit(rest) && Fits(te)
    ensures AllFit(rest + [te])
    ensures TableBytes(rest + [te]) == (Le(4, |rest| + 1) + Zeros(4) + EntriesBytes(rest)) + EntryBytes(te)
  {
    EntriesSnoc(rest, te);
  }

  lemma CutTail(head: seq<Byte>, entry: seq<Byte>, all: seq<Byte>)
    requires |entry| == ENTRY_SIZE && all == head + entry
    ensures all[..|all| - 4] + Zeros(4) == head + (entry[..268] + Zeros(4))
  {}

  // ---------- packets ----------

  /** The packet header: protocol name, type at 128, ip at 132, port at 136, data_len at 138. */
  function Header(kind: nat, id: PeerId, dataLen: nat): (r: seq<Byte>)
    ensures |r| == HEADER_SIZE
  {
    Zeros(128) + Le(2, kind) + Zeros(2) + Le(4, id.ip) + Le(2, id.port) + Le(2, dataLen)
  }

  /** The 16-bit data_len that ptot_packet_fill stores. */
  function DataLen(len: nat): nat {
    len % 0x1_0000
  }

  /** ptot_packet_init, ptot_packet_fill with a table, and the bytes send_ptot_packet hands over. */
  function Packed(kind: nat, id: PeerId, es: seq<TransEntry>): (r: seq<Byte>)
    requires AllFit(es)
  {
    var len := DataLen(TableLen(|es|));
    Header(kind, id, len) + TableBytes(es)[..len]
  }

  /** recv_ptot_packet copies the segment over a zeroed buffer, and the receiver task copies data_len
      bytes of it into a zeroed table. */
  function Unpacked(segment: seq<Byte>): (r: seq<Byte>)
    requires |segment| <= PACKET_SIZE + 2
    ensures |r| == TABLE_SIZE
  {
    var buf := segment + Zeros(PACKET_SIZE + 2 - |segment|);
    var dataLen := UnLe(buf[138..140]);
    UnLeBound(buf[138..140]);
    buf[HEADER_SIZE..HEADER_SIZE + dataLen] + Zeros(TABLE_SIZE - dataLen)
  }

  lemma UnLeBound(s: seq<Byte>)
    requires |s| == 2
    ensures UnLe(s) < 0x1_0000
  {
    assert UnLe(s[1..]) == s[1] + 256 * UnLe(s[1..][1..]);
  }

  /** The 16-bit length is exact exactly up to 240 entries. */
  lemma DataLenExactIff(n: nat)
    requires n <= MAX_FILE_ENTRIES
    ensures DataLen(TableLen(n)) == TableLen(n) <==> n <= 240
  {}

  lemma UnpackedData(kind: nat, id: PeerId, data: seq<Byte>)
    requires |data| < 0x1_0000
    ensures var segment := Header(kind, id, |data|) + data + TRAILER;
            |segment| <= PACKET_SIZE + 2 && Unpacked(segment) == data + Zeros(TABLE_SIZE - |data|)
  {
    var segment := Header(kind, id, |data|) + data + TRAILER;
    var buf := segment + Zeros(PACKET_SIZE + 2 - |segment|);
    Powers();
    LeRoundTrip(2, |data|);
    assert Header(kind, id, |data|)[138..140] == Le(2, |data|);
    assert buf[138..140] == Le(2, |data|);
    assert buf[HEADER_SIZE..HEADER_SIZE + |data|] == data;
  }

  /** The port that does not travel is missing from the last entry. */
  predicate LastPortLost(es: seq<TransEntry>) {
    es != [] && |es[|es| - 1].owners| == MAX_PEER_ENTRIES && es[|es| - 1].owners[15].port != 0
  }

  /** A zeroed table into which trans_table_len bytes of the sent one were copied. */
  function Copied(es: seq<TransEntry>): (r: seq<Byte>)
    requires AllFit(es) && |es| <= MAX_FILE_ENTRIES
    ensures |r| == TABLE_SIZE
  {
    TableBytes(es)[..TableLen(|es|)] + Zeros(TABLE_SIZE - TableLen(|es|))
  }

  lemma CopiedBytes(es: seq<TransEntry>)
    requires AllFit(es) && |es| <= MAX_FILE_ENTRIES
    ensures AllFit(Clip(es)) && |Clip(es)| == |es|
    ensures Copied(es) == TableBytes(Clip(es)) + Zeros(TABLE_SIZE - |TableBytes(Clip(es))|)
  {
    CarriedBytes(es);
    var data := TableBytes(es)[..TableLen(|es|)];
    ZerosAfter(data, 4, TABLE_SIZE - |data| - 4);
  }

  lemma CopiedTable(es: seq<TransEntry>)
    requires AllFit(es) && |es| <= MAX_FILE_ENTRIES
    ensures TableOf(Copied(es)) == Clip(es)
  {
    var clipped := Clip(es);
    CopiedBytes(es);
    TableRoundTrip(clipped);
    assert Copied(es) == TableBytes(clipped) + Zeros(TABLE_SIZE - |TableBytes(clipped)|);
  }

  /** For up to 240 entries whose packet does not contain the end mark, the segment arrives whole, fits
      the receiver's buffer, and carries trans_table_len bytes of the table. */
  lemma PacketArrives(kind: nat, id: PeerId, es: seq<TransEntry>, rest: seq<Byte>)
    requires AllFit(es) && |es| <= 240 && Lacks(Packed(kind, id, es))
    ensures var segment := Packed(kind, id, es) + TRAILER;
            && Receive(Frame(Packed(kind, id, es)) + rest) == Received(segment, |Frame(Packed(kind, id, es))|)
            && |segment| <= PACKET_SIZE + 2
            && Unpacked(segment) == Copied(es)
  {
    WholeIff(Packed(kind, id, es), rest);
    DataLenExactIff(|es|);
    UnpackedData(kind, id, TableBytes(es)[..TableLen(|es|)]);
  }

  /** Fill, frame, unframe and copy: the tracker reads exactly the table that was sent, but for the port
      of the sixteenth owner of the last entry; so it reads the same table exactly when that port is not
      lost. */
  lemma PacketPath(kind: nat, id: PeerId, es: seq<TransEntry>, rest: seq<Byte>)
    requires AllFit(es) && |es| <= 240 && Lacks(Packed(kind, id, es))
    ensures var got := Receive(Frame(Packed(kind, id, es)) + rest);
            && got.Received? && |got.data| <= PACKET_SIZE + 2
            && TableOf(Unpacked(got.data)) == Clip(es)
            && (TableOf(Unpacked(got.data)) == es <==> !LastPortLost(es))
  {
    PacketArrives(kind, id, es, rest);
    CopiedTable(es);
    ClipIff(es);
  }

  /** And it reads the type, the ip and the port that were sent, at the offsets of struct ptot_packet_header. */
  lemma HeaderArrives(kind: nat, id: PeerId, es: seq<TransEntry>, rest: seq<Byte>)
    requires AllFit(es) && |es| <= 240 && Lacks(Packed(kind, id, es))
    requires kind < 0x1_0000 && FitsPeer(id)
    ensures var got := Receive(Frame(Packed(kind, id, es)) + rest);
            && got.Received? && |got.data| >= HEADER_SIZE
            && UnLe(got.data[128..130]) == kind
            && UnLe(got.data[132..136]) == id.ip
            && UnLe(got.data[136..138]) == id.port
            && UnLe(got.data[138..140]) == TableLen(|es|)
  {
    PacketArrives(kind, id, es, rest);
    DataLenExactIff(|es|);
    HeaderFields(kind, id, TableLen(|es|));
    var segment := Packed(kind, id, es) + TRAILER;
    assert segment[..HEADER_SIZE] == Header(kind, id, TableLen(|es|));
    SlicesOfPrefix(segment, HEADER_SIZE);
  }

  lemma HeaderFields(kind: nat, id: PeerId, len: nat)
    requires kind < 0x1_0000 && FitsPeer(id) && len < 0x1_0000
    ensures var h := Header(kind, id, len);
            && UnLe(h[128..130]) == kind && UnLe(h[132..136]) == id.ip
            && UnLe(h[136..138]) == id.port && UnLe(h[138..140]) == len
  {
    var h := Header(kind, id, len);
    Powers();
    LeRoundTrip(2, kind);
    LeRoundTrip(4, id.ip);
    LeRoundTrip(2, id.port);
    LeRoundTrip(2, len);
    var upToType := Zeros(128) + Le(2, kind);
    var upToIp := upToType + Zeros(2) + Le(4, id.ip);
    var upToPort := upToIp + Le(2, id.port);
    assert h == upToPort + Le(2, len);
    assert h == upToIp + Le(2, id.port) + Le(2, len);
    Middle(Zeros(128), Le(2, kind), Zeros(2) + Le(4, id.ip) + Le(2, id.port) + Le(2, len));
    Middle(upToType + Zeros(2), Le(4, id.ip), Le(2, id.port) + Le(2, len));
    Middle(upToIp, Le(2, id.port), Le(2, len));
    Middle(upToPort, Le(2, len), []);
    Regrouped(Zeros(128), Le(2, kind), Zeros(2), Le(4, id.ip), Le(2, id.port), Le(2, len));
  }

  lemma Middle(a: seq<Byte>, b: seq<Byte>, c: seq<Byte>)
    ensures (a + b + c)[|a|..|a| + |b|] == b
  {}

  lemma Regrouped(a: seq<Byte>, b: seq<Byte>, c: seq<Byte>, d: seq<Byte>, e: seq<Byte>, f: seq<Byte>)
    ensures a + b + c + d + e + f == a + b + (c + d + e + f)
    ensures a + b + c + d + e + f == (a + b + c) + d + (e + f)
    ensures a + b + c + d + e + f == (a + b + c + d + e) + f + []
  {}

  lemma SlicesOfPrefix(s: seq<Byte>, n: nat)
    requires n <= |s|
    ensures forall i, j :: 0 <= i <= j <= n ==> s[..n][i..j] == s[i..j]
  {}

  lemma ZerosAfter(data: seq<Byte>, m: nat, n: nat)
    ensures data + Zeros(m + n) == (data + Zeros(m)) + Zeros(n)
  {}

  lemma ClipIff(es: seq<TransEntry>)
    ensures Clip(es) == es <==> !LastPortLost(es)
  {
    if LastPortLost(es) {
      assert Clip(es)[|es| - 1].owners[15].port == 0;
    } else if es != [] {
      var last := es[|es| - 1];
      assert |last.owners| == MAX_PEER_ENTRIES ==> last.owners[15 := last.owners[15].(port := 0)] == last.owners;
    }
  }

  // ---------- buffers ----------

  /** memcpy into a buffer, at an offset */
  method Memcpy(dst: array<Byte>, at: nat, src: seq<Byte>)
    requires at + |src| <= dst.Length
    modifies dst
    ensures dst[..at] == old(dst[..at]) && dst[at..at + |src|] == src
    ensures dst[at + |src|..] == old(dst[at + |src|..])
  {
    var i := 0;
    while i < |src|
      invariant i <= |src|
      invariant forall k :: 0 <= k < dst.Length ==>
                  dst[k] == if at <= k < at + i then src[k - at] else old(dst[k])
    {
      dst[at + i] := src[i];
      i := i + 1;
    }
  }

  /** ptot_packet_init: a zeroed packet with type, ip and port */
  method PtotPacketInit(kind: nat, id: PeerId) returns (pkt: array<Byte>)
    ensures fresh(pkt) && pkt.Length == PACKET_SIZE
    ensures pkt[..138] == Header(kind, id, 0)[..138]
  {
    pkt := new Byte[PACKET_SIZE](_ => 0);
    Memcpy(pkt, 128, Le(2, kind));
    assert pkt[..132] == Zeros(128) + Le(2, kind) + Zeros(2) by {
      assert pkt[130..][..2] == Zeros(2);
      assert pkt[..132] == pkt[..128] + pkt[128..130] + pkt[130..132];
    }
    Memcpy(pkt, 132, Le(4, id.ip));
    assert pkt[..136] == pkt[..132] + pkt[132..136];
    Memcpy(pkt, 136, Le(2, id.port));
    assert pkt[..138] == pkt[..136] + pkt[136..138];
    assert Header(kind, id, 0)[..138] == Zeros(128) + Le(2, kind) + Zeros(2) + Le(4, id.ip) + Le(2, id.port);
  }

  /** ptot_packet_fill: copy the table behind the header and store its length in 16 bits. The caller sends
      the first HEADER_SIZE + data_len bytes. */
  method PtotPacketFill(pkt: array<Byte>, table: seq<Byte>, ghost kind: nat, ghost id: PeerId) returns (dataLen: nat)
    requires pkt.Length == PACKET_SIZE && |table| <= MAX_PKT_DATA_LEN && pkt[..138] == Header(kind, id, 0)[..138]
    modifies pkt
    ensures dataLen == DataLen(|table|)
    ensures pkt[..HEADER_SIZE + dataLen] == Header(kind, id, dataLen) + table[..dataLen]
  {
    Memcpy(pkt, HEADER_SIZE, table);
    assert pkt[..HEADER_SIZE][..138] == Header(kind, id, 0)[..138];
    dataLen := |table| % 0x1_0000;
    Memcpy(pkt, 138, Le(2, dataLen));
    assert pkt[140..][..|table|] == table;
    SliceOfCopy(pkt[..], HEADER_SIZE, table, dataLen);
    assert pkt[HEADER_SIZE..HEADER_SIZE + dataLen] == pkt[..][HEADER_SIZE..HEADER_SIZE + dataLen];
    assert Header(kind, id, dataLen) == Header(kind, id, 0)[..138] + Le(2, dataLen);
    assert pkt[..HEADER_SIZE + dataLen] == pkt[..138] + pkt[138..140] + pkt[HEADER_SIZE..HEADER_SIZE + dataLen];
  }

  /** The copies of recv_ptot_packet and of the receiver task, into zeroed buffers */
  method UnpackTable(segment: seq<Byte>) returns (table: array<Byte>)
    requires |segment| <= PACKET_SIZE + 2
    ensures fresh(table) && table.Length == TABLE_SIZE && table[..] == Unpacked(segment)
  {
    var buf := new Byte[PACKET_SIZE + 2](_ => 0);
    Memcpy(buf, 0, segment);
    assert buf[..] == segment + Zeros(PACKET_SIZE + 2 - |segment|);
    var dataLen := UnLe(buf[138..140]);
    UnLeBound(buf[138..140]);
    var data := buf[HEADER_SIZE..HEADER_SIZE + dataLen];
    table := new Byte[TABLE_SIZE](_ => 0);
    Memcpy(table, 0, data);
    assert table[..] == data + Zeros(TABLE_SIZE - dataLen);
  }

  /** recv_ptot_packet and the copy into a new table: what the bytes on the connection become */
  method RecvTable(stream: seq<Byte>) returns (ret: int, table: array?<Byte>)
    requires Receive(stream).Received? ==> |Receive(stream).data| <= PACKET_SIZE + 2
    ensures ret < 0 <==> Receive(stream).Closed?
    ensures ret >= 0 ==> table != null && table.Length == TABLE_SIZE && table[..] == Unpacked(Receive(stream).data)
  {
    var segment, used;
    ret, segment, used := RecvSegment(stream);
    table := null;
    if ret >= 0 {
      table := UnpackTable(segment);
    }
  }
}
