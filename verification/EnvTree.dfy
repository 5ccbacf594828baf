/**
 The configuration tree built from environment variables: each name is split at underscores into a path,
 and its value is mounted at that path in a tree of nested maps.
 */
module EnvTree {
  import opened Options
  import opened Sorting
  import opened Text

  datatype Tree = Leaf(value: string) | Dir(entries: map<string, Tree>)

  type Path = seq<string>

  datatype Variable = Variable(path: Path, value: string)

  /** What mounting does to the contents of a map: a leaf in the way wins over what would go below it, and
      the last element overwrites whatever is there. */
  function Mount(m: map<string, Tree>, path: Path, v: string): map<string, Tree>
    requires path != []
    decreases |path|
  {
    if |path| > 1 then
      var m' := if path[0] in m then m else m[path[0] := Dir(map[])];
      match m'[path[0]]
      case Leaf(_) => m'
      case Dir(child) => m'[path[0] := Dir(Mount(child, path[1..], v))]
    else m[path[0] := Leaf(v)]
  }

  function MountAll(m: map<string, Tree>, vars: seq<Variable>): map<string, Tree>
    requires forall e | e in vars :: e.path != []
  {
    if vars == [] then m
    else
      var last := vars[|vars| - 1];
      assert last in vars;
      Mount(MountAll(m, vars[..|vars| - 1]), last.path, last.value)
  }

  /** The value at a path, if the path ends at a leaf. */
  function Find(t: Tree, path: Path): Option<string>
    decreases |path|
  {
    match t
    case Leaf(v) => if path == [] then Some(v) else None
    case Dir(m) => if path == [] || path[0] !in m then None else Find(m[path[0]], path[1..])
  }

  /** No inner map of the tree is empty. */
  ghost predicate Full(t: Tree) {
    match t
    case Leaf(_) => true
    case Dir(m) => m != map[] && forall k | k in m :: Full(m[k])
  }

  // ---------- one mount ----------

  /** Whether a leaf lies on the way to the path. */
  predicate Blocked(m: map<string, Tree>, path: Path)
    decreases |path|
  {
    |path| > 1 && path[0] in m && match m[path[0]]
                                  case Leaf(_) => true
                                  case Dir(child) => Blocked(child, path[1..])
  }

  lemma {:induction false} FindAfterMount(m: map<string, Tree>, p: Path, v: string, q: Path)
    requires p != []
    ensures Find(Dir(Mount(m, p, v)), q) ==
            if Blocked(m, p) || !(p <= q) then Find(Dir(m), q) else if p == q then Some(v) else None
    decreases |p|
  {
    if |p| > 1 && q != [] && q[0] == p[0] {
      var child := if p[0] in m then m[p[0]] else Dir(map[]);
      assert p <= q <==> p[1..] <= q[1..] by {
        assert p == [p[0]] + p[1..] && q == [q[0]] + q[1..];
      }
      assert p == q <==> p[1..] == q[1..];
      if child.Dir? {
        FindAfterMount(child.entries, p[1..], v, q[1..]);
      }
    } else if |p| > 1 {
      assert !(p <= q);
    } else {
      assert p == [p[0]];
      assert p <= q <==> q != [] && q[0] == p[0];
    }
  }

  lemma {:induction false} BlockingLeaf(m: map<string, Tree>, p: Path) returns (r: Path)
    requires Blocked(m, p)
    ensures r < p && Find(Dir(m), r).Some?
    decreases |p|
  {
    var below: Path := [];
    if m[p[0]].Dir? {
      below := BlockingLeaf(m[p[0]].entries, p[1..]);
    }
    r := [p[0]] + below;
    assert r[1..] == below;
    assert p == [p[0]] + p[1..];
  }

  lemma {:induction false} LeafBlocks(m: map<string, Tree>, p: Path, r: Path)
    requires r < p && Find(Dir(m), r).Some?
    ensures Blocked(m, p)
    decreases |p|
  {
    assert p[0] == r[0];
    if m[r[0]].Dir? {
      assert r[1..] < p[1..];
      LeafBlocks(m[r[0]].entries, p[1..], r[1..]);
    }
  }

  /** A path is blocked exactly when one of its proper prefixes already is a leaf. */
  lemma BlockedByLeaf(m: map<string, Tree>, p: Path)
    ensures Blocked(m, p) <==> exists r: Path :: r < p && Find(Dir(m), r).Some?
  {
    if Blocked(m, p) {
      var r := BlockingLeaf(m, p);
    }
    if r: Path :| r < p && Find(Dir(m), r).Some? {
      LeafBlocks(m, p, r);
    }
  }

  lemma {:induction false} MountKeepsFull(m: map<string, Tree>, p: Path, v: string)
    requires p != [] && forall k | k in m :: Full(m[k])
    ensures forall k | k in Mount(m, p, v) :: Full(Mount(m, p, v)[k])
    ensures p[0] in Mount(m, p, v)
    decreases |p|
  {
    if |p| > 1 {
      if p[0] !in m {
        MountKeepsFull(map[], p[1..], v);
      } else if m[p[0]].Dir? {
        assert Full(m[p[0]]);
        MountKeepsFull(m[p[0]].entries, p[1..], v);
      }
    }
  }

  // ---------- all mounts ----------

  ghost predicate DistinctPaths(vars: seq<Variable>) {
    forall i, j | 0 <= i < j < |vars| :: vars[i].path != vars[j].path
  }

  ghost predicate NonEmptyPaths(vars: seq<Variable>) {
    forall e | e in vars :: e.path != []
  }

  /** A variable keeps its place in the tree when no other variable's path is a proper prefix of its own. */
  ghost predicate Wins(vars: seq<Variable>, e: Variable) {
    e in vars && forall f | f in vars :: !(f.path < e.path)
  }

  /** Below every variable lies, on its way, one that wins. */
  lemma {:induction false} ShortestWins(vars: seq<Variable>, e: Variable) returns (w: Variable)
    requires e in vars
    ensures Wins(vars, w) && w.path <= e.path
    decreases |e.path|
  {
    if f :| f in vars && f.path < e.path {
      w := ShortestWins(vars, f);
    } else {
      w := e;
    }
  }

  ghost predicate Holds(m: map<string, Tree>, vars: seq<Variable>) {
    forall q: Path, v: string :: Find(Dir(m), q) == Some(v) <==> Wins(vars, Variable(q, v))
  }

  /** What blocks a path is a variable. */
  lemma BlockingVariable(m: map<string, Tree>, vars: seq<Variable>, p: Path) returns (f: Variable)
    requires Holds(m, vars) && Blocked(m, p)
    ensures f in vars && f.path < p
  {
    var r := BlockingLeaf(m, p);
    f := Variable(r, Find(Dir(m), r).value);
    assert Find(Dir(m), r) == Some(f.value);
    assert Wins(vars, Variable(r, f.value));
  }

  /** A variable on the way to a path blocks it, or one below that variable does. */
  lemma VariableBlocks(m: map<string, Tree>, vars: seq<Variable>, p: Path, f: Variable)
    requires Holds(m, vars) && f in vars && f.path < p
    ensures Blocked(m, p)
  {
    var w := ShortestWins(vars, f);
    assert Wins(vars, Variable(w.path, w.value));
    assert Find(Dir(m), w.path) == Some(w.value);
    LeafBlocks(m, p, w.path);
  }

  lemma BlockedIff(m: map<string, Tree>, vars: seq<Variable>, p: Path)
    requires Holds(m, vars)
    ensures Blocked(m, p) <==> exists f :: f in vars && f.path < p
  {
    if Blocked(m, p) {
      var f := BlockingVariable(m, vars, p);
    }
    if f :| f in vars && f.path < p {
      VariableBlocks(m, vars, p, f);
    }
  }

  lemma MountOne(m: map<string, Tree>, vars: seq<Variable>, e: Variable)
    requires Holds(m, vars) && e.path != []
    requires forall f | f in vars :: f.path != e.path
    ensures Holds(Mount(m, e.path, e.value), vars + [e])
  {
    var m' := Mount(m, e.path, e.value);
    BlockedIff(m, vars, e.path);
    forall q: Path, v: string ensures Find(Dir(m'), q) == Some(v) <==> Wins(vars + [e], Variable(q, v)) {
      FindAfterMount(m, e.path, e.value, q);
      var x := Variable(q, v);
      assert Find(Dir(m), q) == Some(v) <==> Wins(vars, x);
      WinsAfter(vars, e, x);
    }
  }

  /** How one more variable changes who wins. */
  lemma WinsAfter(vars: seq<Variable>, e: Variable, x: Variable)
    requires forall f | f in vars :: f.path != e.path
    ensures Wins(vars + [e], x) <==>
            if exists f :: f in vars && f.path < e.path then Wins(vars, x)
            else if e.path <= x.path then x == e
            else Wins(vars, x)
  {
    if f :| f in vars && f.path < e.path {
      assert x == e ==> !Wins(vars + [e], x);
      assert e.path < x.path ==> f.path < x.path;
    } else {
      if e.path <= x.path && x.path <= e.path { assert x.path == e.path; }
    }
  }

  /** The leaves of the tree are exactly the variables whose path has no proper prefix among the paths, each
      with its own value; no inner map is empty. */
  lemma {:induction false} TreeHoldsWinners(vars: seq<Variable>)
    requires DistinctPaths(vars) && NonEmptyPaths(vars)
    ensures forall q: Path, v: string ::
              Find(Dir(MountAll(map[], vars)), q) == Some(v) <==> Wins(vars, Variable(q, v))
    ensures forall k | k in MountAll(map[], vars) :: Full(MountAll(map[], vars)[k])
  {
    if vars == [] {
    } else {
      var n := |vars| - 1;
      var rest, e := vars[..n], vars[n];
      assert vars == rest + [e];
      assert e in vars;
      forall f | f in rest ensures f.path != e.path {
        var i :| 0 <= i < n && rest[i] == f;
        assert vars[i].path != vars[n].path;
      }
      TreeHoldsWinners(rest);
      assert Holds(MountAll(map[], rest), rest);
      MountOne(MountAll(map[], rest), rest, e);
      MountKeepsFull(MountAll(map[], rest), e.path, e.value);
      assert Holds(MountAll(map[], vars), vars);
    }
  }

  // ---------- a full tree is determined by its leaves ----------

  lemma {:induction false} SomeLeaf(t: Tree) returns (path: Path)
    requires Full(t)
    ensures Find(t, path).Some?
  {
    match t {
      case Leaf(_) => path := [];
      case Dir(m) =>
        var k :| k in m;
        var below := SomeLeaf(m[k]);
        path := [k] + below;
        assert path[1..] == below;
    }
  }

  lemma {:induction false} SameLeavesSameTree(a: Tree, b: Tree)
    requires a.Dir? && b.Dir?
    requires forall k | k in a.entries :: Full(a.entries[k])
    requires forall k | k in b.entries :: Full(b.entries[k])
    requires forall q: Path :: Find(a, q) == Find(b, q)
    ensures a == b
    decreases a
  {
    forall k ensures k in a.entries <==> k in b.entries {
      if k in a.entries { KeyCarriesOver(a, b, k); }
      if k in b.entries { KeyCarriesOver(b, a, k); }
    }
    forall k | k in a.entries ensures a.entries[k] == b.entries[k] {
      var x, y := a.entries[k], b.entries[k];
      forall q: Path ensures Find(x, q) == Find(y, q) {
        assert ([k] + q)[1..] == q;
        assert Find(a, [k] + q) == Find(x, q) && Find(b, [k] + q) == Find(y, q);
      }
      assert Find(x, []) == Find(y, []);
      if x.Dir? {
        SameLeavesSameTree(x, y);
      }
    }
    assert a.entries == b.entries;
  }

  lemma KeyCarriesOver(a: Tree, b: Tree, k: string)
    requires a.Dir? && b.Dir? && k in a.entries && Full(a.entries[k])
    requires forall q: Path :: Find(a, q) == Find(b, q)
    ensures k in b.entries
  {
    var below := SomeLeaf(a.entries[k]);
    assert ([k] + below)[1..] == below;
    assert Find(a, [k] + below) == Find(b, [k] + below);
  }

  /** Confluence: the tree does not depend on the order in which the variables are mounted. */
  lemma MountOrderIrrelevant(vars: seq<Variable>, vars': seq<Variable>)
    requires Permutation(vars, vars')
    requires DistinctPaths(vars) && DistinctPaths(vars') && NonEmptyPaths(vars) && NonEmptyPaths(vars')
    ensures MountAll(map[], vars) == MountAll(map[], vars')
  {
    PermutationElements(vars, vars');
    TreeHoldsWinners(vars);
    TreeHoldsWinners(vars');
    var a, b := Dir(MountAll(map[], vars)), Dir(MountAll(map[], vars'));
    forall q: Path ensures Find(a, q) == Find(b, q) {
      if Find(a, q).Some? {
        assert Wins(vars', Variable(q, Find(a, q).value));
      }
      if Find(b, q).Some? {
        assert Wins(vars, Variable(q, Find(b, q).value));
      }
    }
    SameLeavesSameTree(a, b);
  }
}
