/** Sequences with some elements taken out, and the bookkeeping of a traversal that does so. */
module Sequences {

  ghost predicate Distinct<T>(s: seq<T>) {
    forall i, j :: 0 <= i < j < |s| ==> s[i] != s[j]
  }

  /** Everything but the element at place i. */
  function Drop<T>(s: seq<T>, i: nat): seq<T>
    requires i < |s|
  {
    s[..i] + s[i + 1..]
  }

  /** Dropping an element of a sequence without repetitions leaves exactly the others, in order. */
  lemma Dropped<T>(s: seq<T>, i: nat)
    requires i < |s| && Distinct(s)
    ensures Distinct(Drop(s, i)) && s[i] !in Drop(s, i)
    ensures forall e :: e in Drop(s, i) <==> e in s && e != s[i]
    ensures forall j :: 0 <= j < |Drop(s, i)| ==> Drop(s, i)[j] == s[if j < i then j else j + 1]
  {
    var rest := Drop(s, i);
    assert forall j :: 0 <= j < |rest| ==> rest[j] == s[if j < i then j else j + 1];
    forall e | e in s && e != s[i]
      ensures e in rest
    {
      var j :| 0 <= j < |s| && s[j] == e;
      assert rest[if j < i then j else j - 1] == e;
    }
  }

  lemma DropKeeps<T>(xs: seq<T>, i: nat, x: T)
    requires i < |xs| && x in xs && xs[i] != x
    ensures x in Drop(xs, i)
  {
    var j :| 0 <= j < |xs| && xs[j] == x;
    assert Drop(xs, i)[if j < i then j else j - 1] == x;
  }

  /** The elements that stay. */
  ghost function Keep<T>(xs: seq<T>, doomed: set<T>): seq<T> {
    if xs == [] then []
    else if xs[|xs| - 1] in doomed then Keep(xs[..|xs| - 1], doomed)
    else Keep(xs[..|xs| - 1], doomed) + [xs[|xs| - 1]]
  }

  lemma KeepSnoc<T>(xs: seq<T>, x: T, doomed: set<T>)
    ensures Keep(xs + [x], doomed) == if x in doomed then Keep(xs, doomed) else Keep(xs, doomed) + [x]
  {
    assert (xs + [x])[..|xs|] == xs;
  }

  /** What is kept or still to be visited was there at the start. */
  lemma {:induction false} StillOf<T>(visited: seq<T>, rest: seq<T>, xs: seq<T>, doomed: set<T>)
    requires visited + rest == xs
    ensures forall i :: 0 <= i < |rest| ==> rest[i] in xs
    ensures forall i :: 0 <= i < |Keep(visited, doomed)| ==> Keep(visited, doomed)[i] in xs
  {
    assert forall i :: 0 <= i < |rest| ==> xs[|visited| + i] == rest[i];
    if visited != [] {
      var prior, last := visited[..|visited| - 1], visited[|visited| - 1];
      assert xs[|visited| - 1] == last;
      StillOf(prior, [last] + rest, xs, doomed);
    }
  }

  lemma DropBetween<T>(a: seq<T>, b: seq<T>)
    requires b != []
    ensures (a + b)[|a|] == b[0] && Drop(a + b, |a|) == a + b[1..]
  {}

  lemma Shift<T>(a: seq<T>, b: seq<T>)
    requires b != []
    ensures (a + [b[0]]) + b[1..] == a + b
  {}

  lemma {:induction false} SubsetSize<T>(a: set<T>, b: set<T>)
    requires a <= b
    ensures |a| <= |b|
  {
    if a != {} {
      var v :| v in a;
      SubsetSize(a - {v}, b - {v});
    }
  }
}
