/** do_download returns 0 as soon as one worker does, and asks only the first owner for the length of the
    file. Exactly when does 0 mean that the file is complete? */
module DownloadResult {
  import opened Entries
  import opened Download
  import P = Pieces

  /** In every schedule that lets all workers end, a result of 0 comes with a complete file. */
  ghost predicate ZeroMeansComplete(job: Job)
    requires job.pieceLen > 0
  {
    forall steps :: IsRun(job, Initial(job), steps) ==>
      var s := After(job, Initial(job), steps);
      Ended(s) && Result(job, s) == 0 ==> s.file == job.source
  }

  /** The file is empty, or no worker is started, or there is one owner, another peer that has told the
      length of the file. */
  predicate Trustworthy(job: Job)
    requires job.pieceLen > 0
  {
    job.source == [] || !job.Starts() || (job.self == [false] && job.LengthKnown())
  }

  lemma {:induction false} RunConcat(job: Job, s: State, a: seq<Step>, b: seq<Step>)
    requires Shape(job, s) && IsRun(job, s, a) && IsRun(job, After(job, s, a), b)
    ensures IsRun(job, s, a + b) && After(job, s, a + b) == After(job, After(job, s, a), b)
    decreases |a|
  {
    if a == [] {
      assert a + b == b;
    } else {
      assert (a + b)[0] == a[0] && (a + b)[1..] == a[1..] + b;
      RunConcat(job, Apply(job, s, a[0]), a[1..], b);
    }
  }

  lemma RunOne(job: Job, s: State, step: Step)
    requires Shape(job, s) && Enabled(job, s, step)
    ensures IsRun(job, s, [step]) && After(job, s, [step]) == Apply(job, s, step)
  {
    assert [step][1..] == [];
    assert IsRun(job, Apply(job, s, step), []);
  }

  /** Extend a run by one step. */
  lemma RunSnoc(job: Job, s: State, a: seq<Step>, step: Step)
    requires Shape(job, s) && IsRun(job, s, a) && Enabled(job, After(job, s, a), step)
    ensures IsRun(job, s, a + [step]) && After(job, s, a + [step]) == Apply(job, After(job, s, a), step)
  {
    RunOne(job, After(job, s, a), step);
    RunConcat(job, s, a, [step]);
  }

  /** The end of a worker that does not take a piece. */
  function Bow(job: Job, s: State, i: nat): Exit
    requires i < |job.self|
  {
    if job.self[i] then SelfOwner else if FirstAvailable(s.flags) < 0 then Exhausted else SetupFailed
  }

  /** All workers from `k` on have ended without taking a piece. */
  function Left(job: Job, s: State, k: nat): State
    requires |s.workers| == |job.self|
  {
    s.(workers := seq(|s.workers|, i requires 0 <= i < |s.workers| =>
      if i < k then s.workers[i] else Exited(Bow(job, s, i))))
  }

  lemma {:induction false} LeaveAll(job: Job, s: State, k: nat) returns (steps: seq<Step>)
    requires Shape(job, s) && k <= |s.workers|
    requires forall i :: k <= i < |s.workers| ==> s.workers[i] == Starting
    ensures IsRun(job, s, steps) && After(job, s, steps) == Left(job, s, k)
    decreases |s.workers| - k
  {
    if k == |s.workers| {
      steps := [];
      assert Left(job, s, k).workers == s.workers;
    } else {
      var step := match Bow(job, s, k)
        case SelfOwner => Leave(k)
        case Exhausted => Exhaust(k)
        case _ => FailSetup(k);
      var s' := Apply(job, s, step);
      var rest := LeaveAll(job, s', k + 1);
      RunOne(job, s, step);
      RunConcat(job, s, [step], rest);
      steps := [step] + rest;
      assert Left(job, s', k + 1).workers == Left(job, s, k).workers;
    }
  }

  /** Nothing is asked for when this peer is the first owner, or when the first owner does not answer: then
      all workers may return 0, and the file is empty. */
  lemma NothingAskedFor(job: Job) returns (steps: seq<Step>)
    requires job.pieceLen > 0 && job.self != [] && (!job.answered || job.self[0])
    ensures IsRun(job, Initial(job), steps) && Ended(After(job, Initial(job), steps))
    ensures forall w :: 0 <= w < |job.self| ==> Status(After(job, Initial(job), steps).workers[w]) == 0
    ensures After(job, Initial(job), steps).file == []
  {
    P.CountBounds(0, job.pieceLen);
    steps := LeaveAll(job, Initial(job), 0);
  }

  /** With this peer among the owners, everybody else may fail and the result is still 0. */
  lemma SelfOwnerMisleads(job: Job, self: nat)
    requires job.pieceLen > 0 && job.Starts() && job.source != [] && self < |job.self| && job.self[self]
    ensures !ZeroMeansComplete(job)
  {
    var steps := LeaveAll(job, Initial(job), 0);
    var s := After(job, Initial(job), steps);
    assert s.workers[self] == Exited(SelfOwner) && Status(s.workers[self]) == 0;
    ResultZeroIff(job, s);
    assert Ended(s) && Result(job, s) == 0 && s.file == [];
  }

  /** If the file has no pieces, the first worker that looks for one finds nothing to do. */
  lemma NoPiecesMislead(job: Job)
    requires job.pieceLen > 0 && job.Starts() && job.source != [] && job.Len() == 0
    ensures !ZeroMeansComplete(job)
  {
    P.CountBounds(0, job.pieceLen);
    var steps := LeaveAll(job, Initial(job), 0);
    var s := After(job, Initial(job), steps);
    assert s.workers[0] == Exited(Bow(job, Initial(job), 0)) && Status(s.workers[0]) == 0;
    ResultZeroIff(job, s);
    assert Ended(s) && Result(job, s) == 0 && s.file == [];
  }

  /** The length of the first k pieces. */
  function Reached(job: Job, k: nat): (n: nat)
    requires job.pieceLen > 0
    ensures n <= |job.source|
  {
    if k < job.Pieces() then
      P.Tiling(k, job.Len(), job.pieceLen);
      job.From(k)
    else job.Len()
  }

  lemma ReachedNext(job: Job, k: nat)
    requires job.pieceLen > 0 && k < job.Pieces()
    ensures job.From(k) == Reached(job, k) < Reached(job, k + 1) == job.Until(k) <= job.Len() <= |job.source|
  {
    P.Tiling(k, job.Len(), job.pieceLen);
  }

  /** Worker v has finished the first k pieces, and no other worker has done anything. */
  function Progress(job: Job, v: nat, k: nat): (s: State)
    requires job.pieceLen > 0 && k <= job.Pieces()
    ensures Shape(job, s)
  {
    State(seq(job.Pieces(), i => if i < k then Finished else Available),
          seq(|job.self|, i => if i == v && k > 0 then Looping else Starting),
          job.source[..Reached(job, k)])
  }

  lemma FinishNext(job: Job, v: nat, k: nat)
    requires job.pieceLen > 0 && k < job.Pieces() && v < |job.self| && !job.self[v]
    ensures var s := Progress(job, v, k);
            && Enabled(job, s, Take(v))
            && var s1 := Apply(job, s, Take(v));
            && Enabled(job, s1, Write(v))
            && var s2 := Apply(job, s1, Write(v));
            && Enabled(job, s2, Mark(v))
            && Apply(job, s2, Mark(v)) == Progress(job, v, k + 1)
  {
    var s := Progress(job, v, k);
    assert s.flags[k] == Available && FirstAvailable(s.flags) == k;
    var s1 := Apply(job, s, Take(v));
    var s2 := Apply(job, s1, Write(v));
    var s3 := Apply(job, s2, Mark(v));
    ReachedNext(job, k);
    if k + 1 < job.Pieces() { ReachedNext(job, k + 1); }
    assert s3.file == Progress(job, v, k + 1).file;
    assert s3.flags == Progress(job, v, k + 1).flags;
    assert s3.workers == Progress(job, v, k + 1).workers;
  }

  lemma {:induction false} FinishSome(job: Job, v: nat, k: nat) returns (steps: seq<Step>)
    requires job.pieceLen > 0 && k <= job.Pieces() && v < |job.self| && !job.self[v]
    ensures IsRun(job, Initial(job), steps) && After(job, Initial(job), steps) == Progress(job, v, k)
  {
    if k == 0 {
      steps := [];
      P.CountBounds(job.Len(), job.pieceLen);
      assert Initial(job).flags == Progress(job, v, 0).flags;
      assert Initial(job).workers == Progress(job, v, 0).workers;
    } else {
      var prior := FinishSome(job, v, k - 1);
      FinishNext(job, v, k - 1);
      RunSnoc(job, Initial(job), prior, Take(v));
      RunSnoc(job, Initial(job), prior + [Take(v)], Write(v));
      RunSnoc(job, Initial(job), prior + [Take(v)] + [Write(v)], Mark(v));
      steps := prior + [Take(v)] + [Write(v)] + [Mark(v)];
    }
  }

  /** A single owner is asked for less than it has: all of that arrives, and is not the file. */
  lemma ShortLengthMisleads(job: Job)
    requires job.pieceLen > 0 && job.Starts() && job.self == [false] && job.Len() < |job.source|
    ensures !ZeroMeansComplete(job)
  {
    var n := job.Pieces();
    var steps := FinishSome(job, 0, n);
    var s := After(job, Initial(job), steps);
    assert FirstAvailable(s.flags) < 0;
    RunSnoc(job, Initial(job), steps, Exhaust(0));
    var s' := After(job, Initial(job), steps + [Exhaust(0)]);
    assert s'.workers[0] == Exited(Exhausted) && Ended(s') && Status(s'.workers[0]) == 0;
    ResultZeroIff(job, s');
    assert |s'.file| == job.Len();
  }

  /** Worker 0 takes the last piece, worker 1 finds nothing left and ends, worker 0 fails. */
  lemma LoseLast(job: Job, last: nat) returns (s: State)
    requires job.pieceLen > 0 && last + 1 == job.Pieces() && |job.self| >= 2 && !job.self[0] && !job.self[1]
    ensures Shape(job, s)
    ensures IsRun(job, Progress(job, 1, last), [Take(0), Exhaust(1), FailPiece(0)])
    ensures s == After(job, Progress(job, 1, last), [Take(0), Exhaust(1), FailPiece(0)])
    ensures s.workers == Progress(job, 1, last).workers[0 := Exited(PieceFailed)][1 := Exited(Exhausted)]
    ensures s.file == Progress(job, 1, last).file
  {
    var p := Progress(job, 1, last);
    assert p.flags[last] == Available && FirstAvailable(p.flags) == last;
    var s1 := Apply(job, p, Take(0));
    assert FirstAvailable(s1.flags) < 0;
    var s2 := Apply(job, s1, Exhaust(1));
    s := Apply(job, s2, FailPiece(0));
    RunOne(job, p, Take(0));
    RunSnoc(job, p, [Take(0)], Exhaust(1));
    RunSnoc(job, p, [Take(0)] + [Exhaust(1)], FailPiece(0));
    assert [Take(0)] + [Exhaust(1)] + [FailPiece(0)] == [Take(0), Exhaust(1), FailPiece(0)];
  }

  /** With two foreign owners, one may find nothing left to take while the other still holds the last
      piece, and then loses it. */
  lemma TwoOwnersMislead(job: Job)
    requires job.pieceLen > 0 && job.Starts() && job.Len() > 0 && |job.self| >= 2
    requires forall w :: 0 <= w < |job.self| ==> !job.self[w]
    ensures !ZeroMeansComplete(job)
  {
    P.CountBounds(job.Len(), job.pieceLen);
    var lost, s := RunUntilLost(job);
    var rest := LeaveAll(job, s, 2);
    RunConcat(job, Initial(job), lost, rest);
    LastLost(job, s);
    assert After(job, Initial(job), lost + rest) == Left(job, s, 2);
  }

  lemma RunUntilLost(job: Job) returns (steps: seq<Step>, s: State)
    requires job.pieceLen > 0 && job.Pieces() > 0 && |job.self| >= 2 && !job.self[0] && !job.self[1]
    ensures IsRun(job, Initial(job), steps) && s == After(job, Initial(job), steps)
    ensures s.workers[0] == Exited(PieceFailed) && s.workers[1] == Exited(Exhausted)
    ensures forall i :: 2 <= i < |s.workers| ==> s.workers[i] == Starting
    ensures |s.file| < |job.source|
  {
    var last := job.Pieces() - 1;
    ReachedNext(job, last);
    var before := FinishSome(job, 1, last);
    s := LoseLast(job, last);
    steps := before + [Take(0), Exhaust(1), FailPiece(0)];
    RunConcat(job, Initial(job), before, [Take(0), Exhaust(1), FailPiece(0)]);
  }

  lemma LastLost(job: Job, s: State)
    requires job.pieceLen > 0 && job.Starts()
    requires |s.workers| == |job.self| >= 2 && |s.file| < |job.source|
    requires s.workers[0] == Exited(PieceFailed) && s.workers[1] == Exited(Exhausted)
    ensures var end := Left(job, s, 2);
            Ended(end) && Result(job, end) == 0 && end.file != job.source
  {
    var end := Left(job, s, 2);
    assert end.workers[1] == Exited(Exhausted) && Status(end.workers[1]) == 0;
    ResultZeroIff(job, end);
  }

  lemma TrustworthySuffices(job: Job, steps: seq<Step>)
    requires job.pieceLen > 0 && Trustworthy(job) && IsRun(job, Initial(job), steps)
    ensures var s := After(job, Initial(job), steps);
            Ended(s) && Result(job, s) == 0 ==> s.file == job.source
  {
    var s := After(job, Initial(job), steps);
    InitialInv(job);
    RunKeepsInv(job, Initial(job), steps);
    if Ended(s) && Result(job, s) == 0 && job.source != [] {
      ResultZeroIff(job, s);
      AllZeroIsComplete(job, steps, 0);
    }
  }

  /** A result of 0 means a complete file exactly when the file is empty, or no worker is started, or the
      only owner is another peer that has told the length of the file. */
  lemma ZeroMeansCompleteIff(job: Job)
    requires job.pieceLen > 0
    ensures ZeroMeansComplete(job) <==> Trustworthy(job)
  {
    if Trustworthy(job) {
      forall steps | IsRun(job, Initial(job), steps)
        ensures var s := After(job, Initial(job), steps);
                Ended(s) && Result(job, s) == 0 ==> s.file == job.source
      {
        TrustworthySuffices(job, steps);
      }
    } else if w: nat :| w < |job.self| && job.self[w] {
      SelfOwnerMisleads(job, w);
    } else if job.Len() == 0 {
      NoPiecesMislead(job);
    } else if |job.self| >= 2 {
      TwoOwnersMislead(job);
    } else {
      WholeLenIff(job);
      assert job.self == [false];
      ShortLengthMisleads(job);
    }
  }
}
