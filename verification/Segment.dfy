/** Framing on a byte stream: a segment travels as "!&" payload "!#", and the receiver looks for these
    marks byte by byte with a five-state automaton. There is no escaping. */
module Segment {
  import opened Entries

  const BANG: Byte := 33
  const HASH: Byte := 35
  const AMPERSAND: Byte := 38

  const START: seq<Byte> := [BANG, AMPERSAND]
  const TRAILER: seq<Byte> := [BANG, HASH]

  /** What send_segment puts on the stream. */
  function Frame(payload: seq<Byte>): seq<Byte> {
    START + payload + TRAILER
  }

  /** send_segment: three sends, and the number of bytes sent */
  method SendSegment(stream: seq<Byte>, buf: seq<Byte>) returns (stream': seq<Byte>, ret: int)
    ensures stream' == stream + Frame(buf)
    ensures ret == |Frame(buf)|
  {
    stream' := stream + START;
    stream' := stream' + buf;
    stream' := stream' + TRAILER;
    ret := |buf| + |START| + |TRAILER|;
    assert stream' == stream + Frame(buf);
  }

  /** The first k bytes end in "!#". */
  predicate EndsAt(s: seq<Byte>, k: int) {
    2 <= k <= |s| && s[k - 2] == BANG && s[k - 1] == HASH
  }

  ghost predicate Lacks(s: seq<Byte>) {
    forall k :: !EndsAt(s, k)
  }

  /** The length of the shortest prefix that ends in "!#", or -1. */
  function FirstEnd(s: seq<Byte>): (r: int)
    ensures -1 <= r <= |s|
  {
    if |s| < 2 then -1
    else
      var r := FirstEnd(s[..|s| - 1]);
      if r >= 0 then r else if EndsAt(s, |s|) then |s| else -1
  }

  /** FirstEnd is the least length at which the sequence ends in "!#". */
  lemma {:induction false} FirstEndMeans(s: seq<Byte>)
    ensures FirstEnd(s) == -1 || EndsAt(s, FirstEnd(s))
    ensures forall k :: EndsAt(s, k) ==> 0 <= FirstEnd(s) <= k
  {
    if |s| >= 2 {
      var rest := s[..|s| - 1];
      FirstEndMeans(rest);
      assert forall k :: EndsAt(s, k) && k < |s| ==> EndsAt(rest, k);
    }
  }

  /** Where the payload begins: after a '!' that is followed by '&'. A '!' followed by anything else is
      skipped together with that byte. -1 when the stream ends first. */
  function BodyStart(s: seq<Byte>): (r: int)
    ensures r == -1 || 2 <= r <= |s|
  {
    if |s| < 2 then -1
    else if s[0] != BANG then
      var r := BodyStart(s[1..]); if r < 0 then -1 else r + 1
    else if s[1] == AMPERSAND then 2
    else
      var r := BodyStart(s[2..]); if r < 0 then -1 else r + 2
  }

  datatype Reception = Closed | Received(data: seq<Byte>, used: nat)

  /** What one call of recv_segment yields on a stream, and how much of it it consumes. */
  function Receive(s: seq<Byte>): Reception {
    var b := BodyStart(s);
    if b < 0 then Closed
    else
      var e := FirstEnd(s[b..]);
      if e < 0 then Closed else Received(s[b..][..e], b + e)
  }

  /** What the automaton knows after `used` bytes: 0 looks for a start, 1 has seen its '!', 2 is in the
      payload and 3 has just stored a '!' of it. */
  ghost predicate Scan(s: seq<Byte>, used: nat, state: int, buf: seq<Byte>) {
    used <= |s| &&
    if state == 0 then buf == [] && BodyStart(s) == Later(BodyStart(s[used..]), used)
    else if state == 1 then
      buf == [] && used > 0 && s[used - 1] == BANG && BodyStart(s) == Later(BodyStart(s[used - 1..]), used - 1)
    else InBody(s, used, buf) && (state == 3 <==> buf != [] && buf[|buf| - 1] == BANG)
  }

  ghost predicate InBody(s: seq<Byte>, used: nat, buf: seq<Byte>) {
    0 <= BodyStart(s) <= used <= |s| && buf == s[BodyStart(s)..used] && FirstEnd(buf) == -1
  }

  /** One round of recv_segment's loop, on the byte at `used` */
  method Round(ghost stream: seq<Byte>, ghost used: nat, c: Byte, state: int, buf: seq<Byte>)
    returns (state': int, buf': seq<Byte>, done: bool)
    requires used < |stream| && c == stream[used] && 0 <= state <= 3 && Scan(stream, used, state, buf)
    ensures 0 <= state' <= 3
    ensures if done then Receive(stream) == Received(buf', used + 1) else Scan(stream, used + 1, state', buf')
  {
    state', buf', done := state, buf, false;
    if state == 0 {
      StartSkips(stream, used);
      if c == BANG {
        state' := 1;
      }
    } else if state == 1 {
      StartPair(stream, used - 1);
      state' := if c == AMPERSAND then 2 else 0;
    } else {
      BodyStep(stream, used, buf);
      buf' := buf + [c];
      if state == 2 {
        if c == BANG {
          state' := 3;
        }
      } else if c == HASH {
        done := true;
      } else if c != BANG {
        state' := 2;
      }
    }
  }

  /** recv_segment, on a stream that is closed after its last byte */
  method RecvSegment(stream: seq<Byte>) returns (ret: int, buf: seq<Byte>, used: nat)
    ensures Receive(stream).Received? ==> Receive(stream) == Received(buf, used) && ret == |buf|
    ensures Receive(stream).Closed? ==> ret == -1
  {
    buf, used := [], 0;
    var state := 0;
    assert stream[0..] == stream;
    while used < |stream|
      invariant 0 <= state <= 3 && Scan(stream, used, state, buf)
    {
      var done;
      state, buf, done := Round(stream, used, stream[used], state, buf);
      used := used + 1;
      if done {
        return |buf|, buf, used;
      }
    }
    ScanEnds(stream, state, buf);
    return -1, buf, used;
  }

  lemma BodyStep(s: seq<Byte>, used: nat, buf: seq<Byte>)
    requires InBody(s, used, buf) && used < |s|
    ensures if buf != [] && buf[|buf| - 1] == BANG && s[used] == HASH
            then Receive(s) == Received(buf + [s[used]], used + 1)
            else InBody(s, used + 1, buf + [s[used]])
  {
    var b, next := BodyStart(s), buf + [s[used]];
    EndSnoc(buf, s[used]);
    NextSlice(s, b, used, buf);
    if buf != [] && buf[|buf| - 1] == BANG && s[used] == HASH {
      EndIsStable(s[b..], |next|);
    }
  }

  lemma NextSlice(s: seq<Byte>, b: nat, used: nat, buf: seq<Byte>)
    requires b <= used < |s| && buf == s[b..used]
    ensures var next := buf + [s[used]];
            next == s[b..used + 1] && |next| <= |s[b..]| && next == s[b..][..|next|]
  {}

  lemma ScanEnds(s: seq<Byte>, state: int, buf: seq<Byte>)
    requires 0 <= state <= 3 && Scan(s, |s|, state, buf)
    ensures Receive(s) == Closed
  {
    if state >= 2 {
      assert s[BodyStart(s)..|s|] == s[BodyStart(s)..];
    }
  }

  function Later(r: int, shift: int): int {
    if r < 0 then -1 else r + shift
  }

  lemma StartSkips(s: seq<Byte>, i: nat)
    requires i < |s|
    ensures s[i] != BANG ==> BodyStart(s[i..]) == Later(BodyStart(s[i + 1..]), 1)
  {
    assert s[i..][1..] == s[i + 1..];
  }

  lemma StartPair(s: seq<Byte>, i: nat)
    requires i + 1 < |s| && s[i] == BANG
    ensures BodyStart(s[i..]) == if s[i + 1] == AMPERSAND then 2 else Later(BodyStart(s[i + 2..]), 2)
  {
    assert s[i..][2..] == s[i + 2..];
  }

  lemma EndSnoc(s: seq<Byte>, c: Byte)
    ensures FirstEnd(s + [c]) ==
            if FirstEnd(s) >= 0 then FirstEnd(s)
            else if s != [] && s[|s| - 1] == BANG && c == HASH then |s| + 1
            else -1
  {
    assert (s + [c])[..|s|] == s;
  }

  /** The shortest prefix does not depend on what follows it. */
  lemma {:induction false} EndIsStable(s: seq<Byte>, k: nat)
    requires k <= |s| && FirstEnd(s[..k]) >= 0
    ensures FirstEnd(s) == FirstEnd(s[..k])
  {
    if k < |s| {
      assert s[..|s| - 1][..k] == s[..k];
      EndIsStable(s[..|s| - 1], k);
    } else {
      assert s[..k] == s;
    }
  }

  // ---------- frames ----------

  lemma {:induction false} FramedEnd(payload: seq<Byte>)
    ensures 2 <= FirstEnd(payload + TRAILER) <= |payload| + 2
    ensures FirstEnd(payload + TRAILER) == |payload| + 2 <==> Lacks(payload)
  {
    var framed := payload + TRAILER;
    FirstEndMeans(framed);
    assert EndsAt(framed, |payload| + 2);
    assert !EndsAt(framed, |payload| + 1);
    forall k
      ensures EndsAt(payload, k) <==> EndsAt(framed, k) && k <= |payload|
    {}
  }

  lemma FrameThen(payload: seq<Byte>, rest: seq<Byte>)
    ensures Frame(payload) + rest == START + ((payload + TRAILER) + rest)
  {}

  lemma ReceiveBody(s: seq<Byte>, body: seq<Byte>, e: int)
    requires s == START + body && e == FirstEnd(body) >= 0
    ensures Receive(s) == Received(body[..e], 2 + e)
  {
    assert s[0] == BANG && s[1] == AMPERSAND && BodyStart(s) == 2;
    assert s[2..] == body;
  }

  /** Receiving a frame yields the shortest prefix of payload ++ "!#" that ends in "!#", whatever
      follows on the stream. */
  lemma {:induction false} ReceiveFrame(payload: seq<Byte>, rest: seq<Byte>)
    ensures var e := FirstEnd(payload + TRAILER);
            2 <= e <= |payload| + 2
            && Receive(Frame(payload) + rest) == Received((payload + TRAILER)[..e], 2 + e)
  {
    FramedEnd(payload);
    FrameThen(payload, rest);
    ReceiveFramed(Frame(payload) + rest, payload + TRAILER, rest);
  }

  lemma ReceiveFramed(s: seq<Byte>, framed: seq<Byte>, rest: seq<Byte>)
    requires s == START + (framed + rest) && FirstEnd(framed) >= 0
    ensures Receive(s) == Received(framed[..FirstEnd(framed)], 2 + FirstEnd(framed))
  {
    EndBeforeRest(framed, rest);
    ReceiveBody(s, framed + rest, FirstEnd(framed));
  }

  lemma EndBeforeRest(framed: seq<Byte>, rest: seq<Byte>)
    requires FirstEnd(framed) >= 0
    ensures FirstEnd(framed + rest) == FirstEnd(framed)
    ensures (framed + rest)[..FirstEnd(framed)] == framed[..FirstEnd(framed)]
  {
    assert (framed + rest)[..|framed|] == framed;
    EndIsStable(framed + rest, |framed|);
  }

  /** The payload arrives whole, and its frame is consumed precisely, exactly when it does not contain
      the end mark. */
  lemma WholeIff(payload: seq<Byte>, rest: seq<Byte>)
    ensures Receive(Frame(payload) + rest) == Received(payload + TRAILER, |Frame(payload)|) <==> Lacks(payload)
  {
    ReceiveFrame(payload, rest);
    FramedEnd(payload);
    var framed := payload + TRAILER;
    assert framed[..|framed|] == framed;
  }

  lemma {:induction false} GarbageSkipped(g: seq<Byte>, s: seq<Byte>)
    requires BANG !in g
    ensures BodyStart(g + s) == Later(BodyStart(s), |g|)
  {
    if g == [] {
      assert g + s == s;
    } else {
      GarbageSkipped(g[1..], s);
      assert (g + s)[0] == g[0] && (g + s)[1..] == g[1..] + s;
    }
  }

  /** Bytes before a frame are skipped, if there is no '!' among them ... */
  lemma GarbageBefore(g: seq<Byte>, s: seq<Byte>)
    requires BANG !in g
    ensures Receive(g + s) == match Receive(s)
                              case Closed => Closed
                              case Received(data, used) => Received(data, |g| + used)
  {
    GarbageSkipped(g, s);
    if BodyStart(s) >= 0 {
      TailAfter(g, s, BodyStart(s));
    }
  }

  lemma TailAfter(g: seq<Byte>, s: seq<Byte>, i: nat)
    requires i <= |s|
    ensures (g + s)[|g| + i..] == s[i..]
  {}

  /** ... whereas a single '!' right before it swallows the one that begins it, and the frame is lost. */
  lemma StrayBang(payload: seq<Byte>)
    requires BANG !in payload
    ensures Receive([BANG] + Frame(payload)) == Closed
  {
    var g := [AMPERSAND] + payload;
    var s := [BANG] + Frame(payload);
    assert s[0] == BANG && s[1] == BANG && s[2..] == g + TRAILER;
    GarbageSkipped(g, TRAILER);
    assert TRAILER[2..] == [];
  }

  function Frames(payloads: seq<seq<Byte>>): seq<Byte> {
    if payloads == [] then [] else Frame(payloads[0]) + Frames(payloads[1..])
  }

  /** The results of n successive calls of recv_segment, as far as they succeed. */
  function Calls(s: seq<Byte>, n: nat): seq<seq<Byte>> {
    if n == 0 then []
    else
      match Receive(s)
      case Closed => []
      case Received(data, used) =>
        if used <= |s| then [data] + Calls(s[used..], n - 1) else []
  }

  function WithTrailers(payloads: seq<seq<Byte>>): seq<seq<Byte>> {
    seq(|payloads|, i requires 0 <= i < |payloads| => payloads[i] + TRAILER)
  }

  lemma CallsStep(payloads: seq<seq<Byte>>, rest: seq<Byte>)
    requires payloads != []
    ensures var s := Frames(payloads) + rest;
            var calls := Calls(s, |payloads|);
            && calls != []
            && (calls[0] == payloads[0] + TRAILER <==> Lacks(payloads[0]))
            && (Lacks(payloads[0]) ==> calls[1..] == Calls(Frames(payloads[1..]) + rest, |payloads| - 1))
  {
    var first, more := payloads[0], Frames(payloads[1..]) + rest;
    var s := Frames(payloads) + rest;
    assert s == Frame(first) + more;
    ReceiveFrame(first, more);
    FramedEnd(first);
    assert Lacks(first) ==> s[|Frame(first)|..] == more;
    assert (first + TRAILER)[..|first| + 2] == first + TRAILER;
  }

  ghost predicate AllLack(payloads: seq<seq<Byte>>) {
    forall i :: 0 <= i < |payloads| ==> Lacks(payloads[i])
  }

  lemma AllLackStep(payloads: seq<seq<Byte>>)
    requires payloads != []
    ensures AllLack(payloads) <==> Lacks(payloads[0]) && AllLack(payloads[1..])
  {
    var others := payloads[1..];
    if Lacks(payloads[0]) && AllLack(others) {
      forall i | 0 <= i < |payloads|
        ensures Lacks(payloads[i])
      {
        if i > 0 { assert payloads[i] == others[i - 1]; }
      }
    }
    assert forall i :: 0 <= i < |others| ==> others[i] == payloads[i + 1];
  }

  /** Call by call, the stream yields exactly the payloads, each with its trailer. */
  predicate Decodes(payloads: seq<seq<Byte>>, rest: seq<Byte>) {
    Calls(Frames(payloads) + rest, |payloads|) == WithTrailers(payloads)
  }

  lemma DecodesStep(payloads: seq<seq<Byte>>, rest: seq<Byte>)
    requires payloads != []
    ensures Decodes(payloads, rest) <==> Lacks(payloads[0]) && Decodes(payloads[1..], rest)
  {
    CallsStep(payloads, rest);
    TrailersStep(payloads);
    SplitFirst(Calls(Frames(payloads) + rest, |payloads|), payloads[0] + TRAILER, WithTrailers(payloads[1..]));
  }

  /** A stream of frames decodes, call by call, to exactly the payloads that were sent, each with its
      trailer, exactly when none of them contains the end mark. */
  lemma {:induction false} StreamDecodesIff(payloads: seq<seq<Byte>>, rest: seq<Byte>)
    ensures Decodes(payloads, rest) <==> AllLack(payloads)
  {
    if payloads != [] {
      DecodesStep(payloads, rest);
      AllLackStep(payloads);
      StreamDecodesIff(payloads[1..], rest);
    }
  }

  lemma TrailersStep(payloads: seq<seq<Byte>>)
    requires payloads != []
    ensures WithTrailers(payloads) == [payloads[0] + TRAILER] + WithTrailers(payloads[1..])
  {}

  lemma SplitFirst(a: seq<seq<Byte>>, first: seq<Byte>, others: seq<seq<Byte>>)
    requires a != []
    ensures a == [first] + others <==> a[0] == first && a[1..] == others
  {
    assert a == [a[0]] + a[1..];
  }
}
