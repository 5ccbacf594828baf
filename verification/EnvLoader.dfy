/**
 The loader itself: nested maps on the heap that are extended in place, one variable after the other.
 */
module EnvLoader {
  import opened Options
  import opened Sorting
  import opened Text
  import opened EnvTree

  /** What a map holds under a key: a string, or a reference to another map. */
  datatype Entry = Value(text: string) | Inner(node: MapNode)

  class MapNode {
    var entries: map<string, Entry>
    ghost var tree: map<string, Tree>   // the contents, as a value
    ghost var repr: set<MapNode>        // this map and all maps below it

    ghost predicate Valid()
      reads this, repr
      decreases repr
    {
      && this in repr
      && entries.Keys == tree.Keys
      && (forall k | k in entries :: EntryOk(k))
      && Disjoint()
    }

    ghost predicate EntryOk(k: string)
      requires k in entries && k in tree && this in repr
      reads this, repr
      decreases repr, 0
    {
      match entries[k]
      case Value(v) => tree[k] == Leaf(v)
      case Inner(n) =>
        && n in repr && n.repr < repr && this !in n.repr
        && n.Valid() && tree[k] == Dir(n.tree)
    }

    /** Different keys lead to maps that share nothing. */
    ghost predicate Disjoint()
      requires this in repr
      reads this, repr
    {
      forall j, k | j in entries && k in entries && j != k && entries[j].Inner? && entries[k].Inner?
          && entries[j].node in repr && entries[k].node in repr ::
        entries[j].node.repr !! entries[k].node.repr
    }

    constructor ()
      ensures Valid() && fresh(repr) && repr == {this}
      ensures tree == map[] && entries == map[]
    {
      entries, tree, repr := map[], map[], {this};
    }

    method SetText(k: string, v: string)
      requires Valid()
      modifies this
      ensures Valid() && repr == old(repr)
      ensures tree == old(tree)[k := Leaf(v)]
    {
      entries := entries[k := Value(v)];
      tree := tree[k := Leaf(v)];
    }

    method AddEmpty(k: string)
      requires Valid() && k !in entries
      modifies this
      ensures Valid() && fresh(repr - old(repr))
      ensures tree == old(tree)[k := Dir(map[])]
      ensures k in entries && entries[k].Inner?
    {
      var inner := new MapNode();
      entries := entries[k := Inner(inner)];
      tree := tree[k := Dir(map[])];
      repr := repr + {inner};
    }

    /** Mounts a value at a path, creating inner maps on the way; nothing happens below a string. */
    method MountMap(path: Path, v: string)
      requires Valid() && path != []
      modifies repr
      ensures Valid() && fresh(repr - old(repr))
      ensures tree == Mount(old(tree), path, v)
      decreases |path|, 1
    {
      if |path| > 1 {
        if path[0] !in entries {
          AddEmpty(path[0]);
        }
        assert EntryOk(path[0]);
        if entries[path[0]].Value? { return; }
        MountBelow(path, v);
      } else {
        SetText(path[0], v);
      }
    }

    /** The entry under j is in order and shares nothing with the given maps. */
    ghost predicate Apart(j: string, others: set<MapNode>)
      requires j in entries && j in tree && this in repr
      reads this, repr
    {
      EntryOk(j) && (entries[j].Inner? ==> entries[j].node.repr !! others)
    }

    /** Writes an extended map back under its key. */
    method PutBack(k: string, child: MapNode)
      requires this in repr && entries.Keys == tree.Keys && Disjoint()
      requires k in entries && child.Valid() && this !in child.repr
      requires forall j | j in entries && j != k :: Apart(j, child.repr)
      modifies this
      ensures Valid() && repr == old(repr) + child.repr
      ensures tree == old(tree)[k := Dir(child.tree)]
    {
      assert forall j | j in entries && j != k && entries[j].Inner? :: this !in entries[j].node.repr;
      repr := repr + child.repr;
      tree := tree[k := Dir(child.tree)];
      entries := entries[k := Inner(child)];
      assert EntryOk(k);
      forall j | j in entries && j != k
        ensures EntryOk(j) && (entries[j].Inner? ==> entries[j].node.repr !! child.repr)
      {
        assert old(Apart(j, child.repr));
        assert entries[j] == old(entries[j]) && tree[j] == old(tree[j]);
      }
      assert Disjoint();
    }

    /** The recursive call, and writing the extended map back under its key. */
    method MountBelow(path: Path, v: string)
      requires Valid() && |path| > 1
      requires path[0] in entries && entries[path[0]].Inner?
      modifies repr
      ensures Valid() && fresh(repr - old(repr))
      ensures old(tree[path[0]]).Dir?
      ensures tree == old(tree)[path[0] := Dir(Mount(old(tree[path[0]]).entries, path[1..], v))]
      decreases |path|, 0
    {
      assert EntryOk(path[0]);
      var child := entries[path[0]].node;
      forall j | j in entries && j != path[0]
        ensures Apart(j, child.repr)
        ensures entries[j].Inner? ==> entries[j].node.Valid() && entries[j].node in entries[j].node.repr
      {
        assert EntryOk(j);
      }
      label before:
      child.MountMap(path[1..], v);
      forall j | j in entries && j != path[0]
        ensures Apart(j, child.repr) && (entries[j].Inner? ==> entries[j].node.repr == old@before(entries[j].node.repr))
      {
        assert old@before(Apart(j, child.repr));
        assert old@before(EntryOk(j));
      }
      assert Disjoint() by {
        assert old@before(Disjoint());
      }
      PutBack(path[0], child);
    }
  }

  // ---------- from the environment to the tree ----------

  const ENV_PREFIX := "SYG"

  /** strings.Contains: the prefix may occur anywhere in the entry, in its name or in its value. */
  predicate Contains(s: string, sub: string) {
    exists i | 0 <= i <= |s| - |sub| :: OccursAt(s, sub, i)
  }

  predicate OccursAt(s: string, sub: string, i: int) {
    0 <= i <= |s| - |sub| && s[i..i + |sub|] == sub
  }

  function Relevant(): string -> bool {
    (e: string) => Contains(e, ENV_PREFIX)
  }

  function NameOf(): string -> string {
    (e: string) => if '=' in e then e[..IndexOf(e, '=')] else e
  }

  /** The variable an entry `name=value` stands for. */
  function VariableOf(): string -> Variable {
    (e: string) => if '=' in e then Variable(Split(e[..IndexOf(e, '=')], '_'), e[IndexOf(e, '=') + 1..])
                   else Variable(Split(e, '_'), "")
  }

  function Variables(environ: seq<string>): (vars: seq<Variable>)
    ensures NonEmptyPaths(vars)
  {
    Map(VariableOf(), Filter(Relevant(), environ))
  }

  /** An entry without '=' makes the loader index past the end of the split. */
  predicate Malformed(e: string) {
    Contains(e, ENV_PREFIX) && '=' !in e
  }

  /** Whether the loader gets through. */
  predicate Loads(environ: seq<string>) {
    forall e | e in environ :: !Malformed(e)
  }

  function TreeOf(environ: seq<string>): map<string, Tree> {
    MountAll(map[], Variables(environ))
  }

  /** What one entry does to the tree. */
  function AfterEntry(tree: map<string, Tree>, e: string): map<string, Tree> {
    if Contains(e, ENV_PREFIX) then Mount(tree, VariableOf()(e).path, VariableOf()(e).value) else tree
  }

  lemma VariablesSnoc(environ: seq<string>, e: string)
    ensures Variables(environ + [e]) ==
            if Contains(e, ENV_PREFIX) then Variables(environ) + [VariableOf()(e)] else Variables(environ)
  {
    FilterAppend(Relevant(), environ, [e]);
    MapConcat(VariableOf(), Filter(Relevant(), environ), Filter(Relevant(), [e]));
    if Contains(e, ENV_PREFIX) {
      assert Filter(Relevant(), [e]) == [e];
      assert Map(VariableOf(), [e]) == [VariableOf()(e)];
    } else {
      assert Filter(Relevant(), [e]) == [];
      assert Variables(environ) + [] == Variables(environ);
    }
  }

  lemma TreeSnoc(environ: seq<string>, i: nat)
    requires i < |environ|
    ensures TreeOf(environ[..i + 1]) == AfterEntry(TreeOf(environ[..i]), environ[i])
    ensures Loads(environ[..i + 1]) <==> Loads(environ[..i]) && !Malformed(environ[i])
    ensures Malformed(environ[i]) ==> !Loads(environ)
  {
    var e := environ[i];
    assert environ[..i + 1] == environ[..i] + [e];
    assert e in environ;
    VariablesSnoc(environ[..i], e);
    if Contains(e, ENV_PREFIX) {
      var vars := Variables(environ[..i]) + [VariableOf()(e)];
      assert vars[..|vars| - 1] == Variables(environ[..i]);
    }
  }

  /** Builds the structure; `ok` is false when the Go code would panic. */
  method LoadEnv(environ: seq<string>) returns (ok: bool, structure: MapNode)
    ensures ok <==> Loads(environ)
    ensures ok ==> structure.Valid() && structure.tree == TreeOf(environ)
  {
    structure := new MapNode();
    for i := 0 to |environ|
      invariant Loads(environ[..i])
      invariant structure.Valid() && fresh(structure.repr)
      invariant structure.tree == TreeOf(environ[..i])
    {
      TreeSnoc(environ, i);
      var loaded := LoadEntry(structure, environ[i]);
      if !loaded { return false, structure; }
    }
    assert environ[..|environ|] == environ;
    return true, structure;
  }

  method LoadEntry(structure: MapNode, e: string) returns (ok: bool)
    requires structure.Valid()
    modifies structure.repr
    ensures structure.Valid() && fresh(structure.repr - old(structure.repr))
    ensures ok <==> !Malformed(e)
    ensures structure.tree == if ok then AfterEntry(old(structure.tree), e) else old(structure.tree)
  {
    var relevant := Contains(e, ENV_PREFIX);
    if !relevant { return true; }
    if '=' !in e { return false; }
    MountEntry(structure, e);
    return true;
  }

  /** Splits one entry at its first '=' and mounts the value at the path its name spells. */
  method MountEntry(structure: MapNode, e: string)
    requires structure.Valid() && '=' in e
    modifies structure.repr
    ensures structure.Valid() && fresh(structure.repr - old(structure.repr))
    ensures structure.tree == Mount(old(structure.tree), VariableOf()(e).path, VariableOf()(e).value)
  {
    var i := IndexOf(e, '=');
    var path, value := Split(e[..i], '_'), e[i + 1..];
    assert VariableOf()(e) == Variable(path, value);
    structure.MountMap(path, value);
  }

  /** Variables with different names have different paths. */
  lemma DistinctNamesDistinctPaths(environ: seq<string>)
    requires Loads(environ) && Distinct(Map(NameOf(), Filter(Relevant(), environ)))
    ensures DistinctPaths(Variables(environ))
  {
    var kept := Filter(Relevant(), environ);
    var vars := Variables(environ);
    var names := Map(NameOf(), kept);
    FilterMembers(Relevant(), environ);
    forall i, j | 0 <= i < j < |vars| ensures vars[i].path != vars[j].path {
      assert kept[i] in kept && kept[j] in kept;
      assert vars[i].path == Split(names[i], '_') && vars[j].path == Split(names[j], '_');
      assert names[i] != names[j];
      if Split(names[i], '_') == Split(names[j], '_') {
        SplitInjective(names[i], names[j], '_');
      }
    }
  }

  // ---------- what an entry means ----------

  /** The loader takes an entry into account exactly when the letters SYG occur somewhere in it. */
  lemma MentionIsContained(before: string, after: string)
    ensures Contains(before + "SYG" + after, ENV_PREFIX)
  {
    assert OccursAt(before + "SYG" + after, ENV_PREFIX, |before|);
  }

  lemma ContainedIsMention(e: string) returns (before: string, after: string)
    requires Contains(e, ENV_PREFIX)
    ensures e == before + "SYG" + after
  {
    var i :| 0 <= i <= |e| - |ENV_PREFIX| && OccursAt(e, ENV_PREFIX, i);
    before, after := e[..i], e[i + 3..];
  }

  /** An entry is cut at its first equals sign: what stands before it, split at underscores, is the path, and
      everything behind it, further equals signs included, is the value. */
  lemma EntryVariable(name: string, value: string)
    requires '=' !in name
    ensures VariableOf()(name + "=" + value) == Variable(Split(name, '_'), value)
    ensures NameOf()(name + "=" + value) == name
    ensures '=' in name + "=" + value
  {
    var e := name + "=" + value;
    IndexOfFirst(name, '=', value);
    assert e == name + ['='] + value;
    assert e[..|name|] == name && e[|name| + 1..] == value;
  }

  lemma EntryOfName(e: string) returns (name: string, value: string)
    requires '=' in e
    ensures '=' !in name && e == name + "=" + value
  {
    var i := IndexOf(e, '=');
    name, value := e[..i], e[i + 1..];
  }

  /** The environment sets the name, in an entry the loader takes into account. */
  predicate Sets(environ: seq<string>, name: string, value: string) {
    name + "=" + value in environ && Contains(name + "=" + value, ENV_PREFIX)
  }

  /** Another name the environment sets spells a proper prefix of the path of this one. */
  ghost predicate Shadowed(environ: seq<string>, name: string) {
    exists other, value :: '=' !in other && Sets(environ, other, value) && Split(other, '_') < Split(name, '_')
  }

  lemma VariablesAreEntries(environ: seq<string>, name: string, value: string)
    requires Loads(environ) && '=' !in name
    ensures Variable(Split(name, '_'), value) in Variables(environ) <==> Sets(environ, name, value)
  {
    var e := name + "=" + value;
    var kept := Filter(Relevant(), environ);
    EntryVariable(name, value);
    FilterMembers(Relevant(), environ);
    if Sets(environ, name, value) {
      assert e in kept;
      var i :| 0 <= i < |kept| && kept[i] == e;
      assert Variables(environ)[i] == VariableOf()(e);
    }
    if Variable(Split(name, '_'), value) in Variables(environ) {
      var i :| 0 <= i < |kept| && Variables(environ)[i] == Variable(Split(name, '_'), value);
      assert kept[i] in kept;
      var n, v := EntryOfName(kept[i]);
      EntryVariable(n, v);
      SplitInjective(n, name, '_');
    }
  }

  /** Every variable of the environment comes from an entry. */
  lemma EntryOfVariable(environ: seq<string>, x: Variable) returns (name: string)
    requires Loads(environ) && x in Variables(environ)
    ensures '=' !in name && Sets(environ, name, x.value) && x.path == Split(name, '_')
  {
    var kept := Filter(Relevant(), environ);
    FilterMembers(Relevant(), environ);
    var i :| 0 <= i < |kept| && Variables(environ)[i] == x;
    assert kept[i] in kept;
    var n, v := EntryOfName(kept[i]);
    EntryVariable(n, v);
    name := n;
  }

  lemma WinsIffNotShadowed(environ: seq<string>, name: string, value: string)
    requires Loads(environ) && '=' !in name
    ensures Wins(Variables(environ), Variable(Split(name, '_'), value)) <==>
            Sets(environ, name, value) && !Shadowed(environ, name)
  {
    var vars := Variables(environ);
    VariablesAreEntries(environ, name, value);
    if Shadowed(environ, name) {
      var other, v :| '=' !in other && Sets(environ, other, v) && Split(other, '_') < Split(name, '_');
      VariablesAreEntries(environ, other, v);
      assert Variable(Split(other, '_'), v).path < Split(name, '_');
    }
    if f :| f in vars && f.path < Split(name, '_') {
      var other := EntryOfVariable(environ, f);
      assert Shadowed(environ, name);
    }
  }

  /** What is loaded, in terms of the entries alone: the value at the path of a name is the value the environment
      sets it to, unless a name that spells a proper prefix of the path is set as well. */
  lemma LoadedValues(environ: seq<string>, name: string, value: string)
    requires Loads(environ) && Distinct(Map(NameOf(), Filter(Relevant(), environ))) && '=' !in name
    ensures Find(Dir(TreeOf(environ)), Split(name, '_')) == Some(value) <==>
            Sets(environ, name, value) && !Shadowed(environ, name)
  {
    DistinctNamesDistinctPaths(environ);
    TreeHoldsWinners(Variables(environ));
    WinsIffNotShadowed(environ, name, value);
  }

  /** An entry in which the letters SYG do not occur contributes nothing and does no harm. */
  lemma OthersAreIgnored(before: seq<string>, e: string, after: seq<string>)
    requires forall x, y: string :: e != x + "SYG" + y
    ensures TreeOf(before + [e] + after) == TreeOf(before + after)
    ensures Loads(before + [e] + after) <==> Loads(before + after)
  {
    if Contains(e, ENV_PREFIX) {
      var x, y := ContainedIsMention(e);
      assert false;
    }
    FilterAppend(Relevant(), before + [e], after);
    FilterAppend(Relevant(), before, [e]);
    FilterAppend(Relevant(), before, after);
    assert Filter(Relevant(), [e]) == [];
    assert Filter(Relevant(), before) + [] == Filter(Relevant(), before);
  }

  /** The loader panics exactly on an entry that mentions SYG and has no equals sign. */
  lemma LoadsExactly(environ: seq<string>)
    ensures Loads(environ) <==> forall e, x, y: string | e in environ && e == x + "SYG" + y :: '=' in e
  {
    if Loads(environ) {
      forall e, x, y: string | e in environ && e == x + "SYG" + y ensures '=' in e {
        MentionIsContained(x, y);
        assert !Malformed(e);
      }
    }
    if e :| e in environ && Malformed(e) {
      var x, y := ContainedIsMention(e);
    }
  }

  /** The structure loaded from an environment whose names are distinct does not depend on the order in which the
      environment lists them. */
  lemma LoadOrderIrrelevant(environ: seq<string>, environ': seq<string>)
    requires Permutation(environ, environ') && Loads(environ)
    requires Distinct(Map(NameOf(), Filter(Relevant(), environ)))
    ensures Loads(environ')
    ensures TreeOf(environ) == TreeOf(environ')
  {
    PermutationElements(environ, environ');
    FilterPermutation(Relevant(), environ, environ');
    PermutationMap(NameOf(), Filter(Relevant(), environ), Filter(Relevant(), environ'));
    PermutationMap(VariableOf(), Filter(Relevant(), environ), Filter(Relevant(), environ'));
    PermutationDistinct(Map(NameOf(), Filter(Relevant(), environ)), Map(NameOf(), Filter(Relevant(), environ')));
    DistinctNamesDistinctPaths(environ);
    DistinctNamesDistinctPaths(environ');
    MountOrderIrrelevant(Variables(environ), Variables(environ'));
  }
}
