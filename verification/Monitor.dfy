/** The directories a peer watches, and how a logical name becomes a path of the file system. A logical
    name is the label of a shared root followed by a path below it. */
module Monitor {
  import opened Entries

  const SLASH: Byte := 47

  datatype Target = Target(sys: Name, logic: Name)

  datatype Root = Root(sys: Name, tag: Name)

  // ---------- slashes ----------

  /** index: the first slash at or after i, or -1 */
  function NextSlash(s: Name, i: nat): (r: int)
    requires i <= |s|
    ensures r == -1 || (i <= r < |s| && s[r] == SLASH)
    decreases |s| - i
  {
    if i == |s| then -1 else if s[i] == SLASH then i else NextSlash(s, i + 1)
  }

  lemma {:induction false} NextSlashMeans(s: Name, i: nat)
    requires i <= |s|
    ensures forall p :: i <= p < (if NextSlash(s, i) < 0 then |s| else NextSlash(s, i)) ==> s[p] != SLASH
    decreases |s| - i
  {
    if i < |s| && s[i] != SLASH { NextSlashMeans(s, i + 1); }
  }

  /** rindex: the last slash before i, or -1 */
  function LastSlash(s: Name, i: nat): (r: int)
    requires i <= |s|
    ensures r == -1 || (0 <= r < i && s[r] == SLASH)
  {
    if i == 0 then -1 else if s[i - 1] == SLASH then i - 1 else LastSlash(s, i - 1)
  }

  lemma {:induction false} LastSlashMeans(s: Name, i: nat)
    requires i <= |s|
    ensures forall p :: LastSlash(s, i) < p < i ==> s[p] != SLASH
  {
    if i > 0 && s[i - 1] != SLASH { LastSlashMeans(s, i - 1); }
  }

  lemma BeforeLast(s: Name, p: nat)
    requires p < |s| && s[p] == SLASH
    ensures p <= LastSlash(s, |s|)
  {
    LastSlashMeans(s, |s|);
  }

  lemma NoneAfter(s: Name, p: nat)
    requires 0 < p <= |s| && s[p - 1] == SLASH && NextSlash(s, p) < 0
    ensures LastSlash(s, |s|) == p - 1
  {
    NextSlashMeans(s, p);
    LastSlashMeans(s, |s|);
  }

  // ---------- translation ----------

  function LabelEnd(logic: Name): (r: nat)
    ensures r <= |logic|
  {
    var p := NextSlash(logic, 0);
    if p < 0 then |logic| else p
  }

  function RootAt(roots: seq<Root>, tag: Name): Option<Root> {
    if roots == [] then None
    else if roots[0].tag == tag then Some(roots[0])
    else RootAt(roots[1..], tag)
  }

  /** The path of a logical name: the directory of its root, then the rest of the name. */
  function SysOf(roots: seq<Root>, logic: Name): Option<Name> {
    SysAt(roots, logic[..LabelEnd(logic)], logic[LabelEnd(logic)..])
  }

  function SysAt(roots: seq<Root>, tag: Name, tail: Name): Option<Name> {
    match RootAt(roots, tag)
    case None => None
    case Some(root) => Some(root.sys + tail)
  }

  predicate IsBelow(s: Name) {
    s == [] || s[0] == SLASH
  }

  /** The directory b is a itself or lies below it. */
  predicate Within(a: Name, b: Name) {
    a <= b && IsBelow(b[|a|..])
  }

  /** The shared roots have different labels. */
  ghost predicate Labelled(roots: seq<Root>) {
    forall i, j :: 0 <= i < |roots| && 0 <= j < |roots| && i != j ==> roots[i].tag != roots[j].tag
  }

  /** None of the shared roots lies within another. */
  ghost predicate NotNested(roots: seq<Root>) {
    forall i, j :: 0 <= i < |roots| && 0 <= j < |roots| && i != j ==> !Within(roots[i].sys, roots[j].sys)
  }

  ghost predicate Apart(roots: seq<Root>) {
    Labelled(roots) && NotNested(roots)
  }

  lemma {:induction false} RootAtMeans(roots: seq<Root>, tag: Name)
    ensures RootAt(roots, tag).Some? ==>
              exists i :: 0 <= i < |roots| && roots[i] == RootAt(roots, tag).value && roots[i].tag == tag
  {
    if roots != [] {
      RootAtMeans(roots[1..], tag);
      if roots[0].tag != tag && RootAt(roots[1..], tag).Some? {
        var i :| 0 <= i < |roots[1..]| && roots[1..][i] == RootAt(roots, tag).value && roots[1..][i].tag == tag;
        assert roots[i + 1] == RootAt(roots, tag).value;
      } else {
        assert roots[0].tag == tag ==> roots[0] == RootAt(roots, tag).value;
      }
    }
  }

  /** If two paths below directories a and b coincide, one of the directories lies within the other. */
  lemma Overlap(a: Name, s: Name, b: Name, t: Name)
    requires IsBelow(s) && IsBelow(t) && a + s == b + t && |a| <= |b|
    ensures Within(a, b)
  {
    assert a == (a + s)[..|a|] == (b + t)[..|a|] == b[..|a|];
    assert b == (a + s)[..|b|];
    if |a| < |b| {
      assert b[|a|] == (a + s)[|a|] == s[0];
    }
  }

  /** With roots that lie apart, two logical names with the same path are the same name. */
  lemma SysOfInjective(roots: seq<Root>, x: Name, y: Name)
    requires Apart(roots) && SysOf(roots, x).Some? && SysOf(roots, x) == SysOf(roots, y)
    ensures x == y
  {
    var lx, ly := x[..LabelEnd(x)], y[..LabelEnd(y)];
    var sx, sy := x[LabelEnd(x)..], y[LabelEnd(y)..];
    RootAtMeans(roots, lx);
    RootAtMeans(roots, ly);
    var i :| 0 <= i < |roots| && roots[i] == RootAt(roots, lx).value && roots[i].tag == lx;
    var j :| 0 <= j < |roots| && roots[j] == RootAt(roots, ly).value && roots[j].tag == ly;
    if |roots[i].sys| <= |roots[j].sys| {
      Overlap(roots[i].sys, sx, roots[j].sys, sy);
    } else {
      Overlap(roots[j].sys, sy, roots[i].sys, sx);
    }
    assert i == j;
    assert sx == (roots[i].sys + sx)[|roots[i].sys|..] == sy;
    assert x == lx + sx && y == ly + sy;
  }

  /** A path below a logical name translates to the same path below its directory. */
  lemma SysOfBelow(roots: seq<Root>, x: Name, s: Name)
    requires IsBelow(s)
    ensures SysOf(roots, x).Some? ==> SysOf(roots, x + s) == Some(SysOf(roots, x).value + s)
  {
    var e := LabelEnd(x);
    LabelEndBelow(x, s);
    SplitBelow(x, s, e);
    SysAtBelow(roots, x[..e], x[e..], s);
  }

  lemma SysAtBelow(roots: seq<Root>, tag: Name, tail: Name, s: Name)
    ensures SysAt(roots, tag, tail).Some? ==> SysAt(roots, tag, tail + s) == Some(SysAt(roots, tag, tail).value + s)
  {
    if SysAt(roots, tag, tail).Some? {
      Associate(RootAt(roots, tag).value.sys, tail, s);
    }
  }

  lemma LabelEndBelow(x: Name, s: Name)
    requires IsBelow(s)
    ensures LabelEnd(x + s) == LabelEnd(x)
  {
    var e, y := LabelEnd(x), x + s;
    NextSlashMeans(x, 0);
    NextSlashMeans(y, 0);
    assert forall p :: 0 <= p < |x| ==> y[p] == x[p];
    if e < |x| {
      assert y[e] == SLASH;
    } else if s != [] {
      assert y[e] == s[0];
    } else {
      assert y == x;
    }
  }

  lemma SplitBelow(x: Name, s: Name, e: nat)
    requires e <= |x|
    ensures (x + s)[..e] == x[..e] && (x + s)[e..] == x[e..] + s
  {}

  // ---------- the watched directories ----------

  /** The first target with a logical name. */
  function Lookup(targets: seq<Target>, logic: Name): (r: Option<Target>)
    ensures r.Some? ==> r.value in targets && r.value.logic == logic
  {
    if targets == [] then None
    else if targets[0].logic == logic then Some(targets[0])
    else Lookup(targets[1..], logic)
  }

  lemma {:induction false} LookupNone(targets: seq<Target>, logic: Name)
    ensures Lookup(targets, logic).None? <==> forall i :: 0 <= i < |targets| ==> targets[i].logic != logic
  {
    if targets != [] {
      LookupNone(targets[1..], logic);
      assert forall i :: 1 <= i < |targets| ==> targets[i] == targets[1..][i - 1];
    }
  }

  /** The path of the target is the translation of its logical name. */
  predicate Fits(roots: seq<Root>, t: Target) {
    SysOf(roots, t.logic) == Some(t.sys)
  }

  /** Every target's path is the translation of its logical name. */
  ghost predicate Translated(roots: seq<Root>, targets: seq<Target>) {
    forall t {:trigger Fits(roots, t)} :: t in targets ==> Fits(roots, t)
  }

  /** The greatest slash position before i whose prefix is watched, or -1. */
  function Best(targets: seq<Target>, name: Name, i: nat): (r: int)
    requires i <= |name|
    ensures r == -1 || (0 <= r < i && name[r] == SLASH && Lookup(targets, name[..r]).Some?)
  {
    if i == 0 then -1
    else if name[i - 1] == SLASH && Lookup(targets, name[..i - 1]).Some? then i - 1
    else Best(targets, name, i - 1)
  }

  /** The prefix before position p, if a slash is there, is not watched. */
  predicate Missing(targets: seq<Target>, name: Name, p: int) {
    0 <= p < |name| && name[p] == SLASH ==> Lookup(targets, name[..p]).None?
  }

  /** No longer prefix than the best one is watched. */
  lemma {:induction false} BestMeans(targets: seq<Target>, name: Name, i: nat)
    requires i <= |name|
    ensures forall p :: Best(targets, name, i) < p < i ==> Missing(targets, name, p)
  {
    if i > 0 && Best(targets, name, i) < i - 1 { BestMeans(targets, name, i - 1); }
  }

  lemma {:induction false} BestSkips(targets: seq<Target>, name: Name, i: nat, j: nat)
    requires i <= j <= |name| && forall p :: i <= p < j ==> name[p] != SLASH
    ensures Best(targets, name, j) == Best(targets, name, i)
    decreases j - i
  {
    if i < j { BestSkips(targets, name, i, j - 1); }
  }

  /** The target for the prefix before position p. */
  function AncestorAt(name: Name, k: nat, sys: Name, p: nat): Target
    requires k <= p <= |name|
  {
    Target(sys + name[k..p], name[..p])
  }

  /** `created` holds exactly one target for every slash after position k and before p, in the order of
      the slashes. */
  ghost predicate Ancestry(created: seq<Target>, name: Name, k: nat, sys: Name, p: nat)
    requires k <= p <= |name|
  {
    && (forall j :: 0 <= j < |created| ==> IsAncestor(created[j], name, k, sys, p))
    && (forall i, j :: 0 <= i < j < |created| ==> |created[i].logic| < |created[j].logic|)
    && (forall q {:trigger AncestorAt(name, k, sys, q)} :: k < q < p && name[q] == SLASH ==>
          AncestorAt(name, k, sys, q) in created)
  }

  predicate IsAncestor(t: Target, name: Name, k: nat, sys: Name, p: nat)
    requires k <= p <= |name|
  {
    k < |t.logic| < p && name[|t.logic|] == SLASH && t == AncestorAt(name, k, sys, |t.logic|)
  }

  /** The targets of the slashes after position k and before p, one after the other. */
  function Ancestors(name: Name, k: nat, sys: Name, p: nat): seq<Target>
    requires k <= p <= |name|
  {
    if p <= k + 1 then []
    else Ancestors(name, k, sys, p - 1) + if name[p - 1] == SLASH then [AncestorAt(name, k, sys, p - 1)] else []
  }

  lemma {:induction false} AncestorsMeans(name: Name, k: nat, sys: Name, p: nat)
    requires k <= p <= |name|
    ensures Ancestry(Ancestors(name, k, sys, p), name, k, sys, p)
  {
    if p > k + 1 {
      AncestorsMeans(name, k, sys, p - 1);
      AncestryGrows(Ancestors(name, k, sys, p - 1), name, k, sys, p - 1);
    }
  }

  lemma AncestryGrows(created: seq<Target>, name: Name, k: nat, sys: Name, p: nat)
    requires k < p < |name| && Ancestry(created, name, k, sys, p)
    ensures Ancestry(created + if name[p] == SLASH then [AncestorAt(name, k, sys, p)] else [], name, k, sys, p + 1)
  {
    var all := created + if name[p] == SLASH then [AncestorAt(name, k, sys, p)] else [];
    forall r {:trigger AncestorAt(name, k, sys, r)} | k < r < p + 1 && name[r] == SLASH
      ensures AncestorAt(name, k, sys, r) in all
    {
      if r < p { assert AncestorAt(name, k, sys, r) in created; }
    }
    forall j | 0 <= j < |created|
      ensures IsAncestor(created[j], name, k, sys, p + 1)
    {
      assert IsAncestor(created[j], name, k, sys, p);
    }
  }

  /** Nothing is created between two slashes. */
  lemma {:induction false} AncestorsSkip(name: Name, k: nat, sys: Name, p: nat, q: nat)
    requires k < p <= q <= |name| && forall i :: p <= i < q ==> name[i] != SLASH
    ensures Ancestors(name, k, sys, q) == Ancestors(name, k, sys, p)
  {
    if p < q {
      AncestorsSkip(name, k, sys, p, q - 1);
    }
  }

  // ---------- the monitor table ----------

  datatype Outcome =
    | NoTarget                 // null is returned
    | Blocked(target: Target)  // the target is returned, blocked
    | NullLocked               // the mutex of a null target is locked

  /** The path as a C string in its buffer. */
  ghost predicate Stored(path: array<Byte>, name: Name)
    reads path
  {
    |name| < path.Length && path[..|name|] == name && path[|name|] == 0 && forall i :: 0 <= i < |name| ==> name[i] != 0
  }

  /** strcmp of a string with the C string in the buffer, as a test for equality */
  method StrEq(path: array<Byte>, s: Name, ghost name: Name) returns (same: bool)
    requires Stored(path, name)
    ensures same <==> s == name
  {
    for i := 0 to |s|
      invariant i <= |name| && s[..i] == name[..i]
    {
      assert path[i] == if i < |name| then name[i] else 0;
      if path[i] == 0 || path[i] != s[i] {
        return false;
      }
    }
    assert path[|s|] == if |s| < |name| then name[|s|] else 0;
    same := path[|s|] == 0;
    assert s[..|s|] == s && (same ==> name[..|s|] == name);
  }

  /** index, from a position on */
  method Index(path: array<Byte>, from: nat, ghost name: Name) returns (p: int)
    requires Stored(path, name) && from <= |name|
    ensures p == NextSlash(name, from)
  {
    p := from;
    while path[p] != 0
      invariant from <= p <= |name| && NextSlash(name, from) == NextSlash(name, p)
      decreases |name| - p
    {
      assert path[p] == name[p];
      if path[p] == SLASH {
        return;
      }
      p := p + 1;
    }
    return -1;
  }

  /** rindex */
  method Rindex(path: array<Byte>, ghost name: Name) returns (p: int)
    requires Stored(path, name)
    ensures p == LastSlash(name, |name|)
  {
    p := -1;
    var i := 0;
    while path[i] != 0
      invariant i <= |name| && p == LastSlash(name, i)
      decreases |name| - i
    {
      assert path[i] == name[i];
      if path[i] == SLASH {
        p := i;
      }
      i := i + 1;
    }
  }

  function BestTarget(targets: seq<Target>, name: Name, i: nat): Option<Target>
    requires i <= |name|
  {
    var b := Best(targets, name, i);
    if b < 0 then None else Lookup(targets, name[..b])
  }

  function Paths(ts: seq<Target>): seq<Name> {
    if ts == [] then [] else Paths(ts[..|ts| - 1]) + [ts[|ts| - 1].sys]
  }

  lemma {:induction false} LookupConcat(a: seq<Target>, b: seq<Target>, logic: Name)
    ensures Lookup(a + b, logic) == if Lookup(a, logic).Some? then Lookup(a, logic) else Lookup(b, logic)
  {
    if a == [] {
      assert a + b == b;
    } else {
      assert (a + b)[1..] == a[1..] + b;
      LookupConcat(a[1..], b, logic);
    }
  }

  /** Appending "/component" to a target's names gives the target of the next slash. */
  lemma NextAncestor(roots: seq<Root>, name: Name, k: nat, sys: Name, p: nat, q: nat, t: Target)
    requires k < p <= q < |name| && name[p - 1] == SLASH && t == AncestorAt(name, k, sys, p - 1)
    requires SysOf(roots, t.logic) == Some(t.sys)
    ensures var next := AncestorAt(name, k, sys, q);
            && t.sys + [SLASH] + name[p..q] == next.sys && t.logic + [SLASH] + name[p..q] == next.logic
            && SysOf(roots, next.logic) == Some(next.sys)
  {
    var seg := name[p - 1..q];
    SysOfBelow(roots, t.logic, seg);
    SliceCons(name, p, q);
    SliceJoin(name, k, p - 1, q);
    SliceJoin(name, 0, p - 1, q);
    assert name[..p - 1] == name[0..p - 1] && name[..q] == name[0..q];
    Associate(t.sys, [SLASH], name[p..q]);
    Associate(t.logic, [SLASH], name[p..q]);
    Associate(sys, name[k..p - 1], seg);
  }

  lemma SliceCons(s: Name, p: nat, q: nat)
    requires 0 < p <= q <= |s|
    ensures [s[p - 1]] + s[p..q] == s[p - 1..q]
  {}

  lemma SliceJoin(s: Name, a: nat, b: nat, c: nat)
    requires a <= b <= c <= |s|
    ensures s[a..b] + s[b..c] == s[a..c]
  {}

  lemma Associate(a: Name, b: Name, c: Name)
    ensures a + b + c == a + (b + c)
  {}

  /** The directories of `created` were added to those that were watched and made before. */
  ghost predicate Built(targets: seq<Target>, made: seq<Name>, targets': seq<Target>, made': seq<Name>, created: seq<Target>) {
    targets' == targets + created && made' == made + Paths(created)
  }

  lemma StillMissing(before: seq<Target>, created: seq<Target>, name: Name, k: nat, sys: Name, p: nat, q: nat)
    requires k <= p <= q < |name| && name[q] == SLASH && Missing(before, name, q) && Ancestry(created, name, k, sys, p)
    ensures Lookup(before + created, name[..q]).None?
  {
    LookupConcat(before, created, name[..q]);
    LookupNone(created, name[..q]);
    assert forall j :: 0 <= j < |created| ==> IsAncestor(created[j], name, k, sys, p);
  }

  /** All that the loop needs to know before it creates the directory for the next slash. */
  lemma NextStep(before: seq<Target>, name: Name, k: nat, sys: Name, p: nat, q: nat)
    requires k < p <= |name| && q == NextSlash(name, p)
    requires forall i :: k < i <= LastSlash(name, |name|) ==> Missing(before, name, i)
    ensures k < p <= q < |name| && name[q] == SLASH
    ensures Lookup(before + Ancestors(name, k, sys, p), name[..q]).None?
    ensures Ancestors(name, k, sys, q + 1) == Ancestors(name, k, sys, p) + [AncestorAt(name, k, sys, q)]
  {
    var created := Ancestors(name, k, sys, p);
    BeforeLast(name, q);
    assert Missing(before, name, q);
    AncestorsMeans(name, k, sys, p);
    StillMissing(before, created, name, k, sys, p, q);
    NextSlashMeans(name, p);
    AncestorsSkip(name, k, sys, p, q);
  }

  /** Nothing is left after the last slash. */
  lemma LastStep(name: Name, k: nat, sys: Name, p: nat)
    requires k < p <= |name| && name[p - 1] == SLASH && NextSlash(name, p) < 0
    ensures LastSlash(name, |name|) == p - 1
    ensures Ancestors(name, k, sys, |name|) == Ancestors(name, k, sys, p)
    ensures Ancestry(Ancestors(name, k, sys, |name|), name, k, sys, |name|)
  {
    NoneAfter(name, p);
    NextSlashMeans(name, p);
    AncestorsSkip(name, k, sys, p, |name|);
    AncestorsMeans(name, k, sys, |name|);
  }

  lemma BuiltStep(targets: seq<Target>, made: seq<Name>, targets': seq<Target>, made': seq<Name>, created: seq<Target>, t: Target)
    requires Built(targets, made, targets', made', created)
    ensures Built(targets, made, targets' + [t], made' + [t.sys], created + [t])
  {
    assert (created + [t])[..|created|] == created;
    assert made + Paths(created) + [t.sys] == made + (Paths(created) + [t.sys]);
  }

  /** A directory with its subdirectories. */
  datatype Dir = Dir(name: Name, below: seq<Dir>)

  function Child(parent: Name, d: Dir): Name {
    parent + [SLASH] + d.name
  }

  /** A directory and everything below it, the directory itself first. */
  function DirTargets(d: Dir, sys: Name, logic: Name): seq<Target>
    decreases d
  {
    [Target(sys, logic)] + ListTargets(d.below, sys, logic)
  }

  function ListTargets(ds: seq<Dir>, sys: Name, logic: Name): seq<Target>
    decreases ds
  {
    if ds == [] then []
    else
      var last := ds[|ds| - 1];
      ListTargets(ds[..|ds| - 1], sys, logic) + DirTargets(last, Child(sys, last), Child(logic, last))
  }

  /** The directory names of `path`, one after the other, lead down the tree. */
  ghost predicate Leads(d: Dir, path: seq<Name>)
    decreases |path|
  {
    path == [] || exists i :: 0 <= i < |d.below| && d.below[i].name == path[0] && Leads(d.below[i], path[1..])
  }

  /** /c1/c2/... */
  function PathText(path: seq<Name>): Name {
    if path == [] then [] else [SLASH] + path[0] + PathText(path[1..])
  }

  lemma {:induction false} InList(ds: seq<Dir>, sys: Name, logic: Name, t: Target)
    ensures t in ListTargets(ds, sys, logic) <==>
            exists i :: 0 <= i < |ds| && t in DirTargets(ds[i], Child(sys, ds[i]), Child(logic, ds[i]))
  {
    if ds != [] {
      var rest, last := ds[..|ds| - 1], ds[|ds| - 1];
      InList(rest, sys, logic, t);
      assert forall i :: 0 <= i < |rest| ==> rest[i] == ds[i];
    }
  }

  lemma ChildText(parent: Name, d: Dir, path: seq<Name>)
    ensures Child(parent, d) + PathText(path) == parent + PathText([d.name] + path)
  {
    assert ([d.name] + path)[1..] == path;
    assert Child(parent, d) + PathText(path) == parent + ([SLASH] + d.name + PathText(path));
  }

  /** Every directory down the tree is among the targets, under its path and its logical name ... */
  lemma {:induction false} LeadsToTarget(d: Dir, path: seq<Name>, sys: Name, logic: Name)
    requires Leads(d, path)
    ensures Target(sys + PathText(path), logic + PathText(path)) in DirTargets(d, sys, logic)
    decreases |path|
  {
    if path == [] {
      assert sys + [] == sys && logic + [] == logic;
    } else {
      var i :| 0 <= i < |d.below| && d.below[i].name == path[0] && Leads(d.below[i], path[1..]);
      var child := d.below[i];
      LeadsToTarget(child, path[1..], Child(sys, child), Child(logic, child));
      assert path == [child.name] + path[1..];
      ChildText(sys, child, path[1..]);
      ChildText(logic, child, path[1..]);
      InList(d.below, sys, logic, Target(sys + PathText(path), logic + PathText(path)));
    }
  }

  /** ... and nothing else is. */
  lemma {:induction false} TargetIsLed(d: Dir, sys: Name, logic: Name, t: Target) returns (path: seq<Name>)
    requires t in DirTargets(d, sys, logic)
    ensures Leads(d, path) && t == Target(sys + PathText(path), logic + PathText(path))
    decreases d
  {
    if t == Target(sys, logic) {
      path := [];
      assert sys + [] == sys && logic + [] == logic;
    } else {
      InList(d.below, sys, logic, t);
      var i :| 0 <= i < |d.below| && t in DirTargets(d.below[i], Child(sys, d.below[i]), Child(logic, d.below[i]));
      var child := d.below[i];
      var more := TargetIsLed(child, Child(sys, child), Child(logic, child), t);
      path := [child.name] + more;
      assert path[1..] == more;
      ChildText(sys, child, more);
      ChildText(logic, child, more);
    }
  }

  /** The targets of a directory are exactly those of the directories down the tree from it. */
  lemma DirTargetsIff(d: Dir, sys: Name, logic: Name, t: Target)
    ensures t in DirTargets(d, sys, logic) <==>
            exists path :: Leads(d, path) && t == Target(sys + PathText(path), logic + PathText(path))
  {
    if t in DirTargets(d, sys, logic) {
      var path := TargetIsLed(d, sys, logic, t);
    }
    forall path | Leads(d, path) && t == Target(sys + PathText(path), logic + PathText(path))
      ensures t in DirTargets(d, sys, logic)
    {
      LeadsToTarget(d, path, sys, logic);
    }
  }

  /** The targets `all` are those of `a` and those of `b`. */
  ghost predicate Union(all: seq<Target>, a: seq<Target>, b: seq<Target>) {
    forall t :: t in all <==> t in a || t in b
  }

  lemma UnionStep(all: seq<Target>, most: seq<Target>, a: seq<Target>, b: seq<Target>, c: seq<Target>)
    requires Union(all, most, c) && Union(most, a, b)
    ensures Union(all, a, b + c)
  {}

  lemma ChildTranslates(roots: seq<Root>, sys: Name, logic: Name, d: Dir)
    requires SysOf(roots, logic) == Some(sys)
    ensures SysOf(roots, Child(logic, d)) == Some(Child(sys, d))
  {
    SysOfBelow(roots, logic, [SLASH] + d.name);
    assert Child(logic, d) == logic + ([SLASH] + d.name) && Child(sys, d) == sys + ([SLASH] + d.name);
  }

  /** A root's label translates to its directory. */
  lemma RootTranslates(roots: seq<Root>, i: nat)
    requires Labelled(roots) && i < |roots| && SLASH !in roots[i].tag
    ensures SysOf(roots, roots[i].tag) == Some(roots[i].sys)
  {
    var tag := roots[i].tag;
    assert LabelEnd(tag) == |tag|;
    assert tag[..|tag|] == tag && tag[|tag|..] == [];
    RootAtFinds(roots, i);
    assert roots[i].sys + [] == roots[i].sys;
  }

  lemma {:induction false} RootAtFinds(roots: seq<Root>, i: nat)
    requires i < |roots| && forall j :: 0 <= j < i ==> roots[j].tag != roots[i].tag
    ensures RootAt(roots, roots[i].tag) == Some(roots[i])
  {
    if i > 0 {
      assert roots[1..][i - 1] == roots[i];
      RootAtFinds(roots[1..], i - 1);
    }
  }

  /** Two logical names never share a path. */
  ghost predicate Injective(roots: seq<Root>) {
    forall x, y :: SysOf(roots, x).Some? && SysOf(roots, x) == SysOf(roots, y) ==> x == y
  }

  /** A root within another is reached by two logical names. */
  lemma NestedRootsCollide(roots: seq<Root>, i: nat, j: nat)
    requires Labelled(roots) && forall k :: 0 <= k < |roots| ==> SLASH !in roots[k].tag
    requires i < |roots| && j < |roots| && i != j && Within(roots[i].sys, roots[j].sys)
    ensures !Injective(roots)
  {
    var below := roots[j].sys[|roots[i].sys|..];
    var x, y := roots[i].tag + below, roots[j].tag;
    RootTranslates(roots, i);
    RootTranslates(roots, j);
    SysOfBelow(roots, roots[i].tag, below);
    assert roots[i].sys + below == roots[j].sys;
    assert SysOf(roots, x) == SysOf(roots, y);
    if below != [] {
      assert x[|roots[i].tag|] == SLASH;
    } else {
      assert x == roots[i].tag;
    }
    assert x != y;
  }

  /** Given different labels without slashes, translation is injective exactly when no shared root lies
      within another. */
  lemma InjectiveIff(roots: seq<Root>)
    requires Labelled(roots) && forall k :: 0 <= k < |roots| ==> SLASH !in roots[k].tag
    ensures Injective(roots) <==> NotNested(roots)
  {
    if NotNested(roots) {
      forall x, y | SysOf(roots, x).Some? && SysOf(roots, x) == SysOf(roots, y)
        ensures x == y
      {
        SysOfInjective(roots, x, y);
      }
    } else {
      var i, j :| 0 <= i < |roots| && 0 <= j < |roots| && i != j && Within(roots[i].sys, roots[j].sys);
      NestedRootsCollide(roots, i, j);
    }
  }

  /** What file_monitor_block returns for a name and which directories it creates, given the targets
      before the call. */
  ghost predicate BlockedAs(before: seq<Target>, name: Name, del: bool, r: Outcome, created: seq<Target>) {
    var last := LastSlash(name, |name|);
    if last < 0 then r == NoTarget && created == []
    else if Lookup(before, name[..last]).Some? then r == Blocked(Lookup(before, name[..last]).value) && created == []
    else if del then r == NullLocked && created == []
    else
      var best := Best(before, name, last);
      if best < 0 then r == NoTarget && created == []
      else
        var t0 := Lookup(before, name[..best]).value;
        r == Blocked(AncestorAt(name, best, t0.sys, last)) && Ancestry(created, name, best, t0.sys, |name|)
  }

  class MonitorTable {
    ghost const roots: seq<Root>
    var targets: seq<Target>

    /** The directories that were created, in order. */
    var made: seq<Name>

    ghost predicate Valid()
      reads this
    {
      Apart(roots) && Translated(roots, targets)
    }

    constructor (ghost roots: seq<Root>)
      requires Apart(roots)
      ensures Valid() && this.roots == roots && targets == [] && made == []
    {
      this.roots := roots;
      targets, made := [], [];
    }

    /** watch_target_add. The kernel answers with the same watch descriptor for a directory that is
        watched already, so its slot is taken exactly when some target has the path. */
    method WatchTargetAdd(sys: Name, logic: Name) returns (t: Target)
      requires Valid() && SysOf(roots, logic) == Some(sys)
      modifies this`targets
      ensures Valid() && t == Target(sys, logic)
      ensures targets == if Lookup(old(targets), logic).Some? then old(targets) else old(targets) + [t]
    {
      LookupNone(targets, logic);
      for i := 0 to |targets|
        invariant forall j :: 0 <= j < i ==> targets[j].sys != sys
      {
        if targets[i].sys == sys {
          assert Fits(roots, targets[i]);
          SysOfInjective(roots, targets[i].logic, logic);
          return targets[i];
        }
      }
      assert forall j :: 0 <= j < |targets| ==> Fits(roots, targets[j]);
      t := Target(sys, logic);
      targets := targets + [t];
    }

    /** watch_target_add_dir: exactly the directory and its subdirectories are watched in addition. */
    method WatchTargetAddDir(dir: Dir, sys: Name, logic: Name)
      requires Valid() && SysOf(roots, logic) == Some(sys)
      modifies this`targets
      ensures Valid()
      ensures Union(targets, old(targets), DirTargets(dir, sys, logic))
      decreases dir
    {
      var t := WatchTargetAdd(sys, logic);
      Watched(old(targets), targets, t);
      for i := 0 to |dir.below|
        invariant Valid()
        invariant Union(targets, old(targets), [t] + ListTargets(dir.below[..i], sys, logic))
      {
        var d := dir.below[i];
        ghost var before := targets;
        ChildTranslates(roots, sys, logic, d);
        WatchTargetAddDir(d, Child(sys, d), Child(logic, d));
        assert dir.below[..i + 1][..i] == dir.below[..i];
        UnionStep(targets, before, old(targets), [t] + ListTargets(dir.below[..i], sys, logic),
                  DirTargets(d, Child(sys, d), Child(logic, d)));
      }
      assert dir.below[..|dir.below|] == dir.below;
    }

    /** The start of file_monitor_task: every shared root is watched with its subdirectories, and every
        target's path is the translation of its logical name. */
    method WatchRoots(shared: seq<Root>, trees: seq<Dir>)
      requires Valid() && targets == [] && shared == roots && |trees| == |shared|
      requires forall i :: 0 <= i < |shared| ==> SLASH !in shared[i].tag
      modifies this`targets
      ensures Valid()
      ensures forall i :: 0 <= i < |shared| ==> forall t :: t in DirTargets(trees[i], shared[i].sys, shared[i].tag) ==> t in targets
      ensures forall t :: t in targets ==> exists i :: 0 <= i < |shared| && t in DirTargets(trees[i], shared[i].sys, shared[i].tag)
    {
      for i := 0 to |shared|
        invariant Valid()
        invariant forall j :: 0 <= j < i ==> forall t :: t in DirTargets(trees[j], shared[j].sys, shared[j].tag) ==> t in targets
        invariant forall t :: t in targets ==> exists j :: 0 <= j < i && t in DirTargets(trees[j], shared[j].sys, shared[j].tag)
      {
        RootTranslates(shared, i);
        WatchTargetAddDir(trees[i], shared[i].sys, shared[i].tag);
      }
    }

    lemma Watched(before: seq<Target>, after: seq<Target>, t: Target)
      requires Translated(roots, before) && SysOf(roots, t.logic) == Some(t.sys)
      requires after == if Lookup(before, t.logic).Some? then before else before + [t]
      ensures Union(after, before, [t] + [])
    {
      var found := Lookup(before, t.logic);
      if found.Some? {
        var i :| 0 <= i < |before| && before[i] == found.value;
        assert Fits(roots, before[i]);
      }
    }

    /** The scan of get_file_target, get_dir_target and file_monitor_block: the first target whose logical
        name is the C string in the buffer */
    method Scan(path: array<Byte>, ghost name: Name) returns (t: Option<Target>)
      requires Stored(path, name)
      ensures t == Lookup(targets, name)
    {
      var i := 0;
      while i < |targets|
        invariant i <= |targets| && Lookup(targets, name) == Lookup(targets[i..], name)
      {
        assert targets[i..][1..] == targets[i + 1..];
        var same := StrEq(path, targets[i].logic, name);
        if same {
          return Some(targets[i]);
        }
        i := i + 1;
      }
      return None;
    }

    /** Cut the string at a slash, scan for the prefix, and put the slash back. */
    method ScanPrefix(path: array<Byte>, k: nat, ghost name: Name) returns (t: Option<Target>)
      requires Stored(path, name) && k < |name| && name[k] == SLASH
      modifies path
      ensures t == Lookup(targets, name[..k])
      ensures path[..] == old(path[..])
    {
      path[k] := 0;
      assert path[..k] == name[..k];
      t := Scan(path, name[..k]);
      path[k] := SLASH;
      assert path[..] == old(path[..])[k := SLASH];
    }

    /** get_file_target: the target of the directory the name is in */
    method GetFileTarget(path: array<Byte>, ghost name: Name) returns (t: Option<Target>)
      requires Stored(path, name) && LastSlash(name, |name|) >= 0
      modifies path
      ensures t == Lookup(targets, name[..LastSlash(name, |name|)])
      ensures path[..] == old(path[..])
    {
      var file := Rindex(path, name);
      t := ScanPrefix(path, file, name);
    }

    /** One round of the first loop: try the prefix before a slash and go on to the next one. */
    method NextPrefix(path: array<Byte>, first: nat, t: Option<Target>, ghost name: Name) returns (t': Option<Target>, next: int)
      requires Stored(path, name) && first < LastSlash(name, |name|)
      requires name[first] == SLASH && t == BestTarget(targets, name, first)
      modifies path
      ensures path[..] == old(path[..])
      ensures first < next <= LastSlash(name, |name|) && name[next] == SLASH && t' == BestTarget(targets, name, next)
    {
      var tmp := ScanPrefix(path, first, name);
      t' := if tmp.Some? then tmp else t;
      next := Index(path, first + 1, name);
      NextSlashMeans(name, first + 1);
      BestSkips(targets, name, first + 1, next);
    }

    /** The first loop of file_monitor_block: the target of the longest watched prefix */
    method LongestWatched(path: array<Byte>, last: nat, ghost name: Name) returns (t: Option<Target>)
      requires Stored(path, name) && LastSlash(name, |name|) == last
      modifies path
      ensures t == BestTarget(targets, name, last)
      ensures path[..] == old(path[..])
    {
      t := None;
      var first := Index(path, 0, name);
      NextSlashMeans(name, 0);
      BestSkips(targets, name, 0, first);
      while first != last
        invariant path[..] == old(path[..])
        invariant 0 <= first <= last && name[first] == SLASH && t == BestTarget(targets, name, first)
        decreases |name| - first
      {
        t, first := NextPrefix(path, first, t, name);
      }
    }

    /** Cut the string at the next slash, create and watch the directory, and put the slash back. */
    method CreateNext(path: array<Byte>, t: Target, p: nat, q: nat, ghost name: Name, ghost k: nat, ghost sys: Name)
      returns (t': Target)
      requires Valid() && Stored(path, name) && t in targets
      requires k < p <= q < |name| && name[p - 1] == SLASH && name[q] == SLASH && t == AncestorAt(name, k, sys, p - 1)
      requires Lookup(targets, name[..q]).None?
      modifies this, path
      ensures Valid() && path[..] == old(path[..])
      ensures t' == AncestorAt(name, k, sys, q)
      ensures targets == old(targets) + [AncestorAt(name, k, sys, q)]
      ensures made == old(made) + [AncestorAt(name, k, sys, q).sys]
    {
      path[q] := 0;
      assert path[p..q] == name[p..q];
      var sysDir := t.sys + [SLASH] + path[p..q];
      var logicDir := t.logic + [SLASH] + path[p..q];
      assert Fits(roots, t);
      NextAncestor(roots, name, k, sys, p, q, t);
      made := made + [sysDir];
      t' := WatchTargetAdd(sysDir, logicDir);
      path[q] := SLASH;
      assert path[..] == old(path[..])[q := SLASH];
    }

    /** The directories down to the slash before p are there, and nothing else was added to `before`. */
    ghost predicate Reached(before: seq<Target>, madeBefore: seq<Name>, name: Name, k: nat, sys: Name, t: Target, p: nat)
      reads this
    {
      && Valid() && k < p <= |name| && name[p - 1] == SLASH
      && t == AncestorAt(name, k, sys, p - 1) && t in targets
      && Built(before, madeBefore, targets, made, Ancestors(name, k, sys, p))
    }

    /** One round of the second loop. */
    method CreateStep(path: array<Byte>, t: Target, p: nat, q: nat, ghost name: Name, ghost k: nat, ghost sys: Name,
                      ghost before: seq<Target>, ghost madeBefore: seq<Name>)
      returns (t': Target, q': int)
      requires Stored(path, name) && Reached(before, madeBefore, name, k, sys, t, p) && q == NextSlash(name, p)
      requires forall i :: k < i <= LastSlash(name, |name|) ==> Missing(before, name, i)
      modifies this, path
      ensures path[..] == old(path[..])
      ensures Reached(before, madeBefore, name, k, sys, t', q + 1) && q' == NextSlash(name, q + 1)
    {
      NextStep(before, name, k, sys, p, q);
      BuiltStep(before, madeBefore, targets, made, Ancestors(name, k, sys, p), AncestorAt(name, k, sys, q));
      t' := CreateNext(path, t, p, q, name, k, sys);
      q' := Index(path, q + 1, name);
    }

    /** The second loop of file_monitor_block: create and watch one directory after the other, from the
        watched one down to the parent of the name */
    method CreateAncestors(path: array<Byte>, t0: Target, ghost name: Name) returns (t: Target, ghost created: seq<Target>)
      requires Valid() && Stored(path, name) && t0 in targets
      requires |t0.logic| < |name| && t0.logic == name[..|t0.logic|] && name[|t0.logic|] == SLASH
      requires forall p :: |t0.logic| < p <= LastSlash(name, |name|) ==> Missing(targets, name, p)
      modifies this, path
      ensures Valid() && path[..] == old(path[..])
      ensures var k, last := |t0.logic|, LastSlash(name, |name|);
              k <= last && t == AncestorAt(name, k, t0.sys, last) && Ancestry(created, name, k, t0.sys, |name|)
      ensures Built(old(targets), old(made), targets, made, created)
    {
      t := t0;
      ghost var k := |t0.logic|;
      var p := |t.logic| + 1;
      var first := Index(path, p, name);
      while first >= 0
        invariant path[..] == old(path[..])
        invariant Reached(old(targets), old(made), name, k, t0.sys, t, p) && first == NextSlash(name, p)
        decreases |name| - p
      {
        var next, after := CreateStep(path, t, p, first, name, k, t0.sys, old(targets), old(made));
        t, p, first := next, first + 1, after;
      }
      LastStep(name, k, t0.sys, p);
      created := Ancestors(name, k, t0.sys, |name|);
    }

    /** file_monitor_block, for a name in a buffer of its own. A watched parent is returned as it is. If
        there is none and the name is not to be deleted, the directories missing below the longest watched
        prefix are created. The name is cut and mended on the way, and comes back as it was. */
    method FileMonitorBlock(path: array<Byte>, del: bool, ghost name: Name) returns (r: Outcome, ghost created: seq<Target>)
      requires Valid() && Stored(path, name)
      modifies this, path
      ensures Valid() && path[..] == old(path[..])
      ensures BlockedAs(old(targets), name, del, r, created)
      ensures Built(old(targets), old(made), targets, made, created)
    {
      created := [];
      var last := Rindex(path, name);
      var first := Index(path, 0, name);
      NoSlash(name);
      if first < 0 {
        return NoTarget, [];
      }
      var parent := GetFileTarget(path, name);
      if parent.Some? {
        return Blocked(parent.value), [];
      }
      if del {
        return NullLocked, [];
      }
      var t0 := LongestWatched(path, last, name);
      if t0.None? {
        return NoTarget, [];
      }
      ghost var best := Best(targets, name, last);
      assert |name[..best]| == best;
      BestMeans(targets, name, last);
      var t;
      t, created := CreateAncestors(path, t0.value, name);
      return Blocked(t), created;
    }

    /** monitor_get_sys_name: for the target that file_monitor_block returned, this is the translation of
        the whole name. */
    method MonitorGetSysName(path: array<Byte>, target: Target, ghost name: Name) returns (sys: Name)
      requires Stored(path, name) && LastSlash(name, |name|) >= 0
      ensures SysOf(roots, name[..LastSlash(name, |name|)]) == Some(target.sys) ==> SysOf(roots, name) == Some(sys)
    {
      var file := Rindex(path, name);
      var end := file;
      while path[end] != 0
        invariant file <= end <= |name|
        decreases |name| - end
      {
        assert path[end] == name[end];
        end := end + 1;
      }
      assert end == |name|;
      sys := target.sys + path[file..end];
      assert path[file..end] == name[file..];
      SysOfBelow(roots, name[..file], name[file..]);
      assert name[..file] + name[file..] == name;
    }

    /** get_sys_name: the translation of the name, if the directory it is in is watched */
    method GetSysName(path: array<Byte>, ghost name: Name) returns (sys: Option<Name>)
      requires Valid() && Stored(path, name) && LastSlash(name, |name|) >= 0
      modifies path
      ensures path[..] == old(path[..])
      ensures sys.None? <==> Lookup(targets, name[..LastSlash(name, |name|)]).None?
      ensures sys.Some? ==> SysOf(roots, name) == sys
    {
      var target := GetFileTarget(path, name);
      if target.None? {
        return None;
      }
      ghost var i :| 0 <= i < |targets| && targets[i] == target.value;
      assert Fits(roots, targets[i]);
      var full := MonitorGetSysName(path, target.value, name);
      return Some(full);
    }
  }

  lemma NoSlash(name: Name)
    ensures NextSlash(name, 0) < 0 <==> LastSlash(name, |name|) < 0
  {
    NextSlashMeans(name, 0);
    LastSlashMeans(name, |name|);
  }

  /** The target that file_monitor_block returns is the one of the directory the name is in, and its path
      is the translation of that directory's logical name. */
  lemma BlockedTargetIsParent(roots: seq<Root>, before: seq<Target>, name: Name, del: bool, r: Outcome, created: seq<Target>)
    requires Apart(roots) && Translated(roots, before)
    requires BlockedAs(before, name, del, r, created) && r.Blocked?
    ensures LastSlash(name, |name|) >= 0 && r.target.logic == name[..LastSlash(name, |name|)]
    ensures SysOf(roots, r.target.logic) == Some(r.target.sys)
  {
    var last := LastSlash(name, |name|);
    if Lookup(before, name[..last]).Some? {
      LookupTranslates(roots, before, name[..last]);
    } else {
      AncestorTranslates(roots, before, name, Best(before, name, last), last);
    }
  }

  lemma LookupTranslates(roots: seq<Root>, targets: seq<Target>, logic: Name)
    requires Translated(roots, targets) && Lookup(targets, logic).Some?
    ensures SysOf(roots, logic) == Some(Lookup(targets, logic).value.sys)
  {
    assert Fits(roots, Lookup(targets, logic).value);
  }

  lemma AncestorTranslates(roots: seq<Root>, targets: seq<Target>, name: Name, k: nat, p: nat)
    requires Translated(roots, targets) && k < p <= |name| && name[k] == SLASH && Lookup(targets, name[..k]).Some?
    ensures var t := AncestorAt(name, k, Lookup(targets, name[..k]).value.sys, p);
            SysOf(roots, t.logic) == Some(t.sys)
  {
    LookupTranslates(roots, targets, name[..k]);
    SysOfBelow(roots, name[..k], name[k..p]);
    assert name[..k] + name[k..p] == name[..p];
  }
}
