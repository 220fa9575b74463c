/** The multi-owner download: one worker per owner, all sharing the piece flags under a mutex. Every
    access to the flags, every write to the file and every exit of a worker is a step, and the steps
    of different workers interleave freely. */
module Download {
  import opened Entries
  import opened Words
  import P = Pieces

  datatype Flag = Available | Downloading | Finished

  /** Why a worker ended: its owner is this peer, it could not set up its connection or file, it
      found no available piece, or it failed inside the loop. */
  datatype Exit = SelfOwner | SetupFailed | Exhausted | PieceFailed

  datatype Worker = Starting | Looping | Holding(piece: nat) | Written(piece: nat) | Exited(why: Exit)

  /** A download: the bytes every owner has, for each owner whether it is this peer, and whether the first
      of them answered the request for the length of the file. */
  datatype Job = Job(source: seq<Byte>, pieceLen: nat, self: seq<bool>, answered: bool) {
    /** file_len, an int: what the first owner says, or -1. This peer has just truncated its own file. */
    function FileLen(): int {
      if self == [] || !answered then -1 else if self[0] then 0 else ToInt32(|source|)
    }

    /** file_pieces */
    function FilePieces(): int
      requires pieceLen > 0
    {
      Quotient(FileLen() + pieceLen - 1, pieceLen)
    }

    /** Without an owner, or when a negative number of flags cannot be allocated, no worker is started. */
    predicate Starts()
      requires pieceLen > 0
    {
      self != [] && FilePieces() >= 0
    }

    /** The first owner is another peer and says how long the file is, and an int can hold that. */
    predicate LengthKnown() {
      answered && self != [] && !self[0] && |source| <= INT_MAX
    }

    /** How much of the file is asked for. */
    function Len(): (n: nat)
      ensures n <= |source|
    {
      if FileLen() < 0 then 0 else FileLen()
    }

    function Pieces(): nat
      requires pieceLen > 0
    {
      P.Count(Len(), pieceLen)
    }

    function From(i: nat): nat {
      P.Offset(i, pieceLen)
    }

    function Until(i: nat): int
      requires pieceLen > 0
    {
      P.Offset(i, pieceLen) + P.Len(i, Len(), pieceLen)
    }
  }

  /** The flags allocated are one for each piece of the part that is asked for. */
  lemma FilePiecesCount(job: Job)
    requires job.pieceLen > 0 && job.Starts()
    ensures job.FilePieces() == job.Pieces()
  {
    P.CountBounds(job.Len(), job.pieceLen);
    var a := job.FileLen() + job.pieceLen - 1;
    if a < 0 {
      P.SmallQuotient(-a, job.pieceLen);
    } else if job.FileLen() < 0 {
      P.SmallQuotient(a, job.pieceLen);
    }
  }

  /** The whole file is asked for exactly when it is empty or its length is known. */
  lemma WholeLenIff(job: Job)
    ensures job.Len() == |job.source| <==> job.source == [] || job.LengthKnown()
  {}

  datatype State = State(flags: seq<Flag>, workers: seq<Worker>, file: seq<Byte>)

  datatype Step =
    | Leave(w: nat)
    | FailSetup(w: nat)
    | Take(w: nat)
    | Exhaust(w: nat)
    | FailPiece(w: nat)
    | Write(w: nat)
    | Mark(w: nat)

  // ---------- the shared flags ----------

  /** The piece get_new_piece picks. */
  function FirstAvailable(flags: seq<Flag>): (r: int)
    ensures -1 <= r < |flags|
    ensures r >= 0 ==> flags[r] == Available && forall i :: 0 <= i < r ==> flags[i] != Available
    ensures r == -1 ==> forall i :: 0 <= i < |flags| ==> flags[i] != Available
  {
    if flags == [] then -1
    else
      var r := FirstAvailable(flags[..|flags| - 1]);
      if r >= 0 then r else if flags[|flags| - 1] == Available then |flags| - 1 else -1
  }

  /** get_new_piece */
  method GetNewPiece(flags: array<Flag>) returns (ret: int)
    modifies flags
    ensures ret == FirstAvailable(old(flags[..]))
    ensures flags[..] == if ret >= 0 then old(flags[..])[ret := Downloading] else old(flags[..])
  {
    ret := -1;
    for i := 0 to flags.Length
      invariant ret == -1 && flags[..] == old(flags[..])
      invariant forall j :: 0 <= j < i ==> flags[j] != Available
    {
      if flags[i] == Available {
        ret := i;
        ghost var picked := FirstAvailable(flags[..]);
        assert flags[..][i] == Available;
        assert picked == i;
        flags[i] := Downloading;
        return;
      }
    }
    assert forall j :: 0 <= j < flags.Length ==> flags[..][j] != Available;
  }

  /** mark_piece_finished */
  method MarkPieceFinished(flags: array<Flag>, piece: nat)
    requires piece < flags.Length
    modifies flags
    ensures flags[..] == old(flags[..])[piece := Finished]
  {
    flags[piece] := Finished;
  }

  /** mark_piece_failed */
  method MarkPieceFailed(flags: array<Flag>, piece: nat)
    requires piece < flags.Length
    modifies flags
    ensures flags[..] == old(flags[..])[piece := Available]
  {
    flags[piece] := Available;
  }

  // ---------- the file ----------

  /** lseek and write: a gap before the offset reads as zeros. */
  function WriteAt(file: seq<Byte>, offset: nat, data: seq<Byte>): seq<Byte> {
    var f := if |file| < offset then file + seq(offset - |file|, _ => 0) else file;
    f[..offset] + data + (if offset + |data| < |f| then f[offset + |data|..] else [])
  }

  lemma WriteAtMeans(file: seq<Byte>, offset: nat, data: seq<Byte>)
    requires data != []
    ensures var r := WriteAt(file, offset, data);
            && |r| == (if |file| < offset + |data| then offset + |data| else |file|)
            && (forall k :: offset <= k < offset + |data| ==> r[k] == data[k - offset])
            && (forall k :: |file| <= k < offset ==> r[k] == 0)
            && (forall k :: 0 <= k < |file| && !(offset <= k < offset + |data|) ==> r[k] == file[k])
  {}

  // ---------- steps ----------

  predicate InLoop(job: Job, s: State, w: nat)
    requires |s.workers| == |job.self|
  {
    w < |s.workers| && (s.workers[w] == Looping || (s.workers[w] == Starting && !job.self[w]))
  }

  predicate Shape(job: Job, s: State) {
    job.pieceLen > 0 && |s.flags| == job.Pieces() && |s.workers| == |job.self|
  }

  predicate Enabled(job: Job, s: State, step: Step)
    requires Shape(job, s)
  {
    && step.w < |s.workers|
    && match step
       case Leave(w) => s.workers[w] == Starting && job.self[w]
       case FailSetup(w) => s.workers[w] == Starting && !job.self[w]
       case Take(w) => InLoop(job, s, w) && FirstAvailable(s.flags) >= 0
       case Exhaust(w) => InLoop(job, s, w) && FirstAvailable(s.flags) < 0
       case FailPiece(w) => s.workers[w].Holding? && s.workers[w].piece < |s.flags|
       case Write(w) => s.workers[w].Holding? && s.workers[w].piece < |s.flags|
       case Mark(w) => s.workers[w].Written? && s.workers[w].piece < |s.flags|
  }

  /** The bytes of one piece, as every owner serves them. */
  function Piece(job: Job, i: nat): seq<Byte>
    requires job.pieceLen > 0 && i < job.Pieces()
  {
    P.Tiling(i, job.Len(), job.pieceLen);
    job.source[job.From(i)..job.Until(i)]
  }

  function Apply(job: Job, s: State, step: Step): (s': State)
    requires Shape(job, s) && Enabled(job, s, step)
    ensures Shape(job, s')
  {
    match step
    case Leave(w) => s.(workers := s.workers[w := Exited(SelfOwner)])
    case FailSetup(w) => s.(workers := s.workers[w := Exited(SetupFailed)])
    case Take(w) =>
      var i := FirstAvailable(s.flags);
      s.(flags := s.flags[i := Downloading], workers := s.workers[w := Holding(i)])
    case Exhaust(w) => s.(workers := s.workers[w := Exited(Exhausted)])
    case FailPiece(w) =>
      s.(flags := s.flags[s.workers[w].piece := Available], workers := s.workers[w := Exited(PieceFailed)])
    case Write(w) =>
      var i := s.workers[w].piece;
      s.(workers := s.workers[w := Written(i)], file := WriteAt(s.file, job.From(i), Piece(job, i)))
    case Mark(w) =>
      s.(flags := s.flags[s.workers[w].piece := Finished], workers := s.workers[w := Looping])
  }

  ghost predicate IsRun(job: Job, s: State, steps: seq<Step>)
    requires Shape(job, s)
    decreases |steps|
  {
    steps == [] || (Enabled(job, s, steps[0]) && IsRun(job, Apply(job, s, steps[0]), steps[1..]))
  }

  ghost function After(job: Job, s: State, steps: seq<Step>): (s': State)
    requires Shape(job, s) && IsRun(job, s, steps)
    ensures Shape(job, s')
    decreases |steps|
  {
    if steps == [] then s else After(job, Apply(job, s, steps[0]), steps[1..])
  }

  /** The file was just truncated, all pieces are available and no worker has done anything. */
  function Initial(job: Job): (s: State)
    requires job.pieceLen > 0
    ensures Shape(job, s)
  {
    State(seq(job.Pieces(), _ => Available), seq(|job.self|, _ => Starting), [])
  }

  // ---------- counting ----------

  ghost function Weigh<T>(s: seq<T>, f: T -> nat): nat {
    if s == [] then 0 else Weigh(s[..|s| - 1], f) + f(s[|s| - 1])
  }

  lemma {:induction false} WeighUpdate<T>(s: seq<T>, i: nat, v: T, f: T -> nat)
    requires i < |s|
    ensures Weigh(s[i := v], f) == Weigh(s, f) - f(s[i]) + f(v)
  {
    var rest, s' := s[..|s| - 1], s[i := v];
    if i == |s| - 1 {
      assert s'[..|s'| - 1] == rest;
    } else {
      WeighUpdate(rest, i, v, f);
      assert s'[..|s'| - 1] == rest[i := v];
    }
  }

  lemma {:induction false} WeighConstant<T>(s: seq<T>, f: T -> nat, c: nat)
    requires forall i :: 0 <= i < |s| ==> f(s[i]) == c
    ensures Weigh(s, f) == c * |s|
  {
    if s != [] {
      WeighConstant(s[..|s| - 1], f, c);
      assert c * |s| == c * (|s| - 1) + c;
    }
  }

  lemma {:induction false} WeighZero<T>(s: seq<T>, f: T -> nat)
    requires Weigh(s, f) == 0
    ensures forall i :: 0 <= i < |s| ==> f(s[i]) == 0
  {
    if s != [] {
      WeighZero(s[..|s| - 1], f);
    }
  }

  ghost function IsAvailable(): Flag -> nat {
    f => if f == Available then 1 else 0
  }

  ghost function IsUnfinished(): Flag -> nat {
    f => if f == Finished then 0 else 1
  }

  ghost function IsFailed(): Worker -> nat {
    w => if w == Exited(PieceFailed) then 1 else 0
  }

  ghost function AvailableCount(s: State): nat {
    Weigh(s.flags, IsAvailable())
  }

  ghost function UnfinishedCount(s: State): nat {
    Weigh(s.flags, IsUnfinished())
  }

  ghost function FailedCount(s: State): nat {
    Weigh(s.workers, IsFailed())
  }

  // ---------- the invariant ----------

  predicate Has(w: Worker, i: int) {
    (w.Holding? || w.Written?) && w.piece == i
  }

  /** Two different workers never hold the same piece. */
  ghost predicate Apart(s: State) {
    forall v, w :: 0 <= v < |s.workers| && 0 <= w < |s.workers| && v != w ==> Disjoint(s.workers[v], s.workers[w])
  }

  predicate Disjoint(v: Worker, w: Worker) {
    (v.Holding? || v.Written?) && (w.Holding? || w.Written?) ==> v.piece != w.piece
  }

  ghost predicate Marked(s: State, w: Worker) {
    w.Holding? || w.Written? ==> w.piece < |s.flags| && s.flags[w.piece] == Downloading
  }

  /** Each piece that is being downloaded is held by exactly one worker. */
  ghost predicate Exclusive(s: State) {
    && (forall w :: 0 <= w < |s.workers| ==> Marked(s, s.workers[w]))
    && Apart(s)
    && (forall i :: 0 <= i < |s.flags| && s.flags[i] == Downloading ==> Held(s, i))
  }

  ghost predicate Held(s: State, i: int) {
    exists w :: 0 <= w < |s.workers| && Has(s.workers[w], i)
  }

  /** The local bytes of a piece are the source's. */
  ghost predicate Stored(job: Job, s: State, i: nat)
    requires Shape(job, s) && i < |s.flags|
  {
    job.Until(i) <= |s.file| && forall k :: job.From(i) <= k < job.Until(i) && k < job.Len() ==> s.file[k] == job.source[k]
  }

  ghost predicate Correct(job: Job, s: State)
    requires Shape(job, s)
  {
    && |s.file| <= job.Len()
    && (forall i :: 0 <= i < |s.flags| && s.flags[i] == Finished ==> Stored(job, s, i))
    && (forall w :: 0 <= w < |s.workers| && s.workers[w].Written? && s.workers[w].piece < |s.flags| ==>
          Stored(job, s, s.workers[w].piece))
  }

  ghost predicate SomeExhausted(s: State) {
    exists w :: 0 <= w < |s.workers| && s.workers[w] == Exited(Exhausted)
  }

  /** A self-owner does nothing but leave, and nobody else leaves that way. */
  ghost predicate Selves(job: Job, s: State)
    requires |s.workers| == |job.self|
  {
    forall w :: 0 <= w < |s.workers| ==>
      if job.self[w] then s.workers[w] == Starting || s.workers[w] == Exited(SelfOwner)
      else s.workers[w] != Exited(SelfOwner)
  }

  ghost predicate Inv(job: Job, s: State) {
    && Shape(job, s) && Exclusive(s) && Correct(job, s) && Selves(job, s)
    && (SomeExhausted(s) ==> AvailableCount(s) <= FailedCount(s))
  }

  lemma InitialInv(job: Job)
    requires job.pieceLen > 0
    ensures Inv(job, Initial(job))
  {}

  lemma StepSelves(job: Job, s: State, step: Step)
    requires Shape(job, s) && Selves(job, s) && Enabled(job, s, step)
    ensures Selves(job, Apply(job, s, step))
  {}

  lemma StepHeld(job: Job, s: State, step: Step)
    requires Shape(job, s) && Exclusive(s) && Enabled(job, s, step)
    ensures var s' := Apply(job, s, step);
            forall i :: 0 <= i < |s'.flags| && s'.flags[i] == Downloading ==> Held(s', i)
  {
    var s' := Apply(job, s, step);
    forall i | 0 <= i < |s'.flags| && s'.flags[i] == Downloading
      ensures Held(s', i)
    {
      if s.flags[i] == Downloading {
        assert Held(s, i);
        var w :| 0 <= w < |s.workers| && Has(s.workers[w], i);
        assert Has(s'.workers[w], i);
      } else {
        assert Has(s'.workers[step.w], i);
      }
    }
  }

  lemma StepApart(job: Job, s: State, step: Step)
    requires Shape(job, s) && Exclusive(s) && Enabled(job, s, step)
    ensures var s' := Apply(job, s, step); Apart(s') && forall w :: 0 <= w < |s'.workers| ==> Marked(s', s'.workers[w])
  {
    var s', u := Apply(job, s, step), step.w;
    forall w | 0 <= w < |s.workers|
      ensures Marked(s', s'.workers[w])
      ensures w != u ==> Disjoint(s'.workers[w], s'.workers[u])
    {
      assert Marked(s, s.workers[w]);
      if w != u { assert s'.workers[w] == s.workers[w] && Disjoint(s.workers[w], s.workers[u]); }
    }
  }

  /** Writing one piece leaves the others as they are. */
  lemma WriteKeeps(job: Job, s: State, i: nat, j: nat)
    requires Shape(job, s) && |s.file| <= job.Len() && i < |s.flags| && j < |s.flags|
    requires i == j || Stored(job, s, j)
    ensures var s' := s.(file := WriteAt(s.file, job.From(i), Piece(job, i)));
            Stored(job, s', j) && |s'.file| <= job.Len()
  {
    P.Tiling(i, job.Len(), job.pieceLen);
    P.Tiling(j, job.Len(), job.pieceLen);
    var data := Piece(job, i);
    WriteAtMeans(s.file, job.From(i), data);
    var file' := WriteAt(s.file, job.From(i), data);
    forall k | job.From(j) <= k < job.Until(j) && k < job.Len()
      ensures file'[k] == job.source[k]
    {
      P.EachByteInOnePiece(k, i, job.Len(), job.pieceLen);
      P.EachByteInOnePiece(k, j, job.Len(), job.pieceLen);
    }
  }

  lemma StepCorrect(job: Job, s: State, step: Step)
    requires Inv(job, s) && Enabled(job, s, step)
    ensures Correct(job, Apply(job, s, step))
  {
    var s' := Apply(job, s, step);
    if step.Write? {
      var i := s.workers[step.w].piece;
      WriteKeeps(job, s, i, i);
      var s1 := s.(file := s'.file);
      forall j | 0 <= j < |s.flags| && (j == i || Stored(job, s, j))
        ensures Stored(job, s', j)
      {
        WriteKeeps(job, s, i, j);
        assert Stored(job, s1, j);
      }
    } else {
      assert forall j :: 0 <= j < |s.flags| && Stored(job, s, j) ==> Stored(job, s', j);
    }
  }

  lemma StepCounts(job: Job, s: State, step: Step)
    requires Inv(job, s) && Enabled(job, s, step)
    ensures var s' := Apply(job, s, step); SomeExhausted(s') ==> AvailableCount(s') <= FailedCount(s')
  {
    var s' := Apply(job, s, step);
    var w := step.w;
    WeighUpdate(s.workers, w, s'.workers[w], IsFailed());
    match step
    case Take(_) => WeighUpdate(s.flags, FirstAvailable(s.flags), Downloading, IsAvailable());
    case FailPiece(_) => WeighUpdate(s.flags, s.workers[w].piece, Available, IsAvailable());
    case Mark(_) => WeighUpdate(s.flags, s.workers[w].piece, Finished, IsAvailable());
    case Exhaust(_) => WeighConstant(s.flags, IsAvailable(), 0);
    case _ =>
  }

  lemma StepKeepsInv(job: Job, s: State, step: Step)
    requires Inv(job, s) && Enabled(job, s, step)
    ensures Inv(job, Apply(job, s, step))
  {
    StepHeld(job, s, step);
    StepApart(job, s, step);
    StepSelves(job, s, step);
    StepCorrect(job, s, step);
    StepCounts(job, s, step);
  }

  lemma {:induction false} RunKeepsInv(job: Job, s: State, steps: seq<Step>)
    requires Inv(job, s) && IsRun(job, s, steps)
    ensures Inv(job, After(job, s, steps))
    decreases |steps|
  {
    if steps != [] {
      StepKeepsInv(job, s, steps[0]);
      RunKeepsInv(job, Apply(job, s, steps[0]), steps[1..]);
    }
  }

  // ---------- when all workers have ended ----------

  function Status(w: Worker): int
    requires w.Exited?
  {
    if w.why == SelfOwner || w.why == Exhausted then 0 else -1
  }

  predicate Ended(s: State) {
    forall w :: 0 <= w < |s.workers| ==> s.workers[w].Exited?
  }

  lemma NothingLeftDownloading(job: Job, s: State)
    requires Inv(job, s) && Ended(s)
    ensures forall i :: 0 <= i < |s.flags| ==> s.flags[i] != Downloading
  {
    forall i | 0 <= i < |s.flags|
      ensures s.flags[i] != Downloading
    {
      assert s.flags[i] == Downloading ==> Held(s, i);
    }
  }

  lemma {:induction false} UnfinishedIsAvailable(flags: seq<Flag>)
    requires forall i :: 0 <= i < |flags| ==> flags[i] != Downloading
    ensures Weigh(flags, IsUnfinished()) == Weigh(flags, IsAvailable())
  {
    if flags != [] {
      UnfinishedIsAvailable(flags[..|flags| - 1]);
    }
  }

  /** Whatever the schedule: when all workers have ended, no piece is marked as being downloaded, and
      if one of them ended because it found no available piece, then at most as many pieces are
      missing as workers failed inside the loop. */
  lemma BoundedLoss(job: Job, steps: seq<Step>)
    requires job.pieceLen > 0 && IsRun(job, Initial(job), steps) && Ended(After(job, Initial(job), steps))
    ensures var s := After(job, Initial(job), steps);
            && (forall i :: 0 <= i < |s.flags| ==> s.flags[i] != Downloading)
            && (SomeExhausted(s) ==> UnfinishedCount(s) <= FailedCount(s))
  {
    var s := After(job, Initial(job), steps);
    InitialInv(job);
    RunKeepsInv(job, Initial(job), steps);
    NothingLeftDownloading(job, s);
    UnfinishedIsAvailable(s.flags);
  }

  lemma AllFinishedIsComplete(job: Job, s: State)
    requires Inv(job, s) && forall i :: 0 <= i < |s.flags| ==> s.flags[i] == Finished
    ensures s.file == job.source[..job.Len()]
  {
    var n := job.Len();
    P.CountBounds(n, job.pieceLen);
    if n > 0 {
      P.Tiling(job.Pieces() - 1, n, job.pieceLen);
      assert Stored(job, s, job.Pieces() - 1);
      forall k | 0 <= k < n
        ensures s.file[k] == job.source[k]
      {
        P.EachByteInOnePiece(k, 0, n, job.pieceLen);
        var i := k / job.pieceLen;
        P.EachByteInOnePiece(k, i, n, job.pieceLen);
        assert Stored(job, s, i);
      }
    }
  }

  /** Whatever the schedule: if every worker returned 0 and one of them was not for this peer itself, the
      file has all that was asked for. That is the source, byte for byte, exactly when the source is empty
      or its length is known: the first owner is another peer and has said how long the file is. */
  lemma AllZeroIsComplete(job: Job, steps: seq<Step>, other: nat)
    requires job.pieceLen > 0 && IsRun(job, Initial(job), steps) && Ended(After(job, Initial(job), steps))
    requires forall w :: 0 <= w < |job.self| ==> Status(After(job, Initial(job), steps).workers[w]) == 0
    requires other < |job.self| && !job.self[other]
    ensures After(job, Initial(job), steps).file == job.source[..job.Len()]
    ensures After(job, Initial(job), steps).file == job.source <==> job.source == [] || job.LengthKnown()
  {
    var s := After(job, Initial(job), steps);
    InitialInv(job);
    RunKeepsInv(job, Initial(job), steps);
    BoundedLoss(job, steps);
    assert s.workers[other] == Exited(Exhausted);
    WeighConstant(s.workers, IsFailed(), 0);
    WeighZero(s.flags, IsUnfinished());
    AllFinishedIsComplete(job, s);
    WholeLenIff(job);
    assert job.Len() == |job.source| ==> job.source[..job.Len()] == job.source;
  }

  // ---------- termination ----------

  ghost function Effort(): Worker -> nat {
    (w: Worker) => match w
      case Starting => 2
      case Looping => 2
      case Holding(_) => 4
      case Written(_) => 3
      case Exited(_) => 0
  }

  ghost function Potential(s: State): nat {
    3 * AvailableCount(s) + Weigh(s.workers, Effort())
  }

  ghost function IsDownloading(): Flag -> nat {
    f => if f == Downloading then 1 else 0
  }

  ghost function IsActive(): Worker -> nat {
    (w: Worker) => if w.Exited? then 0 else 1
  }

  /** The same without the writes: twice the available pieces, the pieces being downloaded, and twice
      the active workers. */
  ghost function FlagPotential(s: State): nat {
    2 * AvailableCount(s) + Weigh(s.flags, IsDownloading()) + 2 * Weigh(s.workers, IsActive())
  }

  /** Every step lowers the potential, and every step but a write lowers the one without writes. */
  lemma StepSpends(job: Job, s: State, step: Step)
    requires Inv(job, s) && Enabled(job, s, step)
    ensures Potential(Apply(job, s, step)) < Potential(s)
    ensures FlagPotential(Apply(job, s, step)) <= FlagPotential(s) - if step.Write? then 0 else 1
  {
    var s', w := Apply(job, s, step), step.w;
    assert Marked(s, s.workers[w]);
    WeighUpdate(s.workers, w, s'.workers[w], Effort());
    WeighUpdate(s.workers, w, s'.workers[w], IsActive());
    match step
    case Take(_) => FlagChanges(s, FirstAvailable(s.flags), Downloading);
    case FailPiece(_) => FlagChanges(s, s.workers[w].piece, Available);
    case Mark(_) => FlagChanges(s, s.workers[w].piece, Finished);
    case _ =>
  }

  lemma FlagChanges(s: State, i: nat, flag: Flag)
    requires i < |s.flags|
    ensures Weigh(s.flags[i := flag], IsAvailable())
            == Weigh(s.flags, IsAvailable()) - IsAvailable()(s.flags[i]) + IsAvailable()(flag)
    ensures Weigh(s.flags[i := flag], IsDownloading())
            == Weigh(s.flags, IsDownloading()) - IsDownloading()(s.flags[i]) + IsDownloading()(flag)
  {
    WeighUpdate(s.flags, i, flag, IsAvailable());
    WeighUpdate(s.flags, i, flag, IsDownloading());
  }

  function NonWrites(steps: seq<Step>): nat {
    if steps == [] then 0 else (if steps[0].Write? then 0 else 1) + NonWrites(steps[1..])
  }

  lemma {:induction false} RunSpends(job: Job, s: State, steps: seq<Step>)
    requires Inv(job, s) && IsRun(job, s, steps)
    ensures |steps| <= Potential(s)
    ensures NonWrites(steps) <= FlagPotential(s)
    decreases |steps|
  {
    if steps != [] {
      StepKeepsInv(job, s, steps[0]);
      StepSpends(job, s, steps[0]);
      RunSpends(job, Apply(job, s, steps[0]), steps[1..]);
    }
  }

  /** P pieces and W workers take at most 3P + 2W steps in any schedule, of which at most 2P + 2W are
      not writes. */
  lemma {:induction false} DownloadTerminates(job: Job, steps: seq<Step>)
    requires job.pieceLen > 0 && IsRun(job, Initial(job), steps)
    ensures |steps| <= 3 * job.Pieces() + 2 * |job.self|
    ensures NonWrites(steps) <= 2 * job.Pieces() + 2 * |job.self|
  {
    var s := Initial(job);
    InitialInv(job);
    RunSpends(job, s, steps);
    WeighConstant(s.flags, IsAvailable(), 1);
    WeighConstant(s.workers, Effort(), 2);
    WeighConstant(s.flags, IsDownloading(), 0);
    WeighConstant(s.workers, IsActive(), 1);
  }

  /** A worker that has not ended can always take a step, so a run can only stop when all have. */
  lemma NoWorkerIsStuck(job: Job, s: State, w: nat)
    requires Inv(job, s) && w < |s.workers| && !s.workers[w].Exited?
    ensures exists step: Step :: step.w == w && Enabled(job, s, step)
  {
    assert Marked(s, s.workers[w]);
    match s.workers[w]
    case Starting =>
      assert Enabled(job, s, if job.self[w] then Leave(w) else FailSetup(w));
    case Looping =>
      assert Enabled(job, s, if FirstAvailable(s.flags) >= 0 then Take(w) else Exhaust(w));
    case Holding(_) => assert Enabled(job, s, Write(w));
    case Written(_) => assert Enabled(job, s, Mark(w));
  }

  // ---------- the result of do_download ----------

  /** The results of the workers, folded with a logical and: 0 as soon as one of them is. */
  function Joined(status: seq<int>): int {
    if status == [] then -1
    else if status[|status| - 1] != 0 && Joined(status[..|status| - 1]) != 0 then 1
    else 0
  }

  /** do_download waits for its workers one after the other. */
  method JoinWorkers(status: seq<int>) returns (ret: int)
    ensures ret == Joined(status)
  {
    ret := -1;
    for i := 0 to |status|
      invariant ret == Joined(status[..i])
    {
      assert status[..i + 1][..i] == status[..i];
      ret := if status[i] != 0 && ret != 0 then 1 else 0;
    }
    assert status[..|status|] == status;
  }

  lemma {:induction false} JoinedZeroIff(status: seq<int>)
    ensures Joined(status) == 0 <==> 0 in status
    ensures Joined(status) == -1 <==> status == []
  {
    if status != [] {
      JoinedZeroIff(status[..|status| - 1]);
    }
  }

  function Statuses(s: State): seq<int>
    requires Ended(s)
  {
    seq(|s.workers|, w requires 0 <= w < |s.workers| => Status(s.workers[w]))
  }

  /** What do_download returns. */
  function Result(job: Job, s: State): int
    requires job.pieceLen > 0 && Ended(s)
  {
    if job.Starts() then Joined(Statuses(s)) else -1
  }

  lemma ResultZeroIff(job: Job, s: State)
    requires job.pieceLen > 0 && Ended(s)
    ensures Result(job, s) == 0 <==> job.Starts() && exists w :: 0 <= w < |s.workers| && Status(s.workers[w]) == 0
  {
    JoinedZeroIff(Statuses(s));
    assert forall w :: 0 <= w < |s.workers| ==> Statuses(s)[w] == Status(s.workers[w]);
  }
}
