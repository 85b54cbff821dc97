/**
 * The client's file tree (main.py): `build_file_tree` turns the server's
 * '/'-separated paths into nested dictionaries with `None` at the files,
 * and `populate_tree_view` walks them, files before folders and each group
 * by name, rebuilding every file's full path with `os.path.join`.
 */
module FileTree {
  import opened Wrappers
  import opened Strings

  /** A value of the nested dictionary: `None` for a file, a dictionary for a folder. */
  datatype Node = File | Folder(entries: map<string, Node>)

  type Tree = map<string, Node>

  /** `path.split('/')` */
  function Segments(path: string): seq<string>
  {
    Split(path, '/')
  }

  function SegmentsOf(paths: seq<string>): (r: seq<seq<string>>)
    ensures |r| == |paths|
    ensures forall i :: 0 <= i < |paths| ==> r[i] == Segments(paths[i])
  {
    seq(|paths|, i requires 0 <= i < |paths| => Segments(paths[i]))
  }

  // ---------------------------------------------------------------------
  // What a tree contains

  /** Walking `segs` from the root ends on a file. */
  predicate HasFile(t: Tree, segs: seq<string>)
    decreases |segs|
  {
    && |segs| >= 1
    && segs[0] in t
    && if |segs| == 1 then t[segs[0]].File?
       else t[segs[0]].Folder? && HasFile(t[segs[0]].entries, segs[1..])
  }

  /** Walking `segs` from the root ends on a folder. */
  predicate HasFolder(t: Tree, segs: seq<string>)
    decreases |segs|
  {
    && |segs| >= 1
    && segs[0] in t
    && t[segs[0]].Folder?
    && (|segs| == 1 || HasFolder(t[segs[0]].entries, segs[1..]))
  }

  predicate StrictPrefix(a: seq<string>, b: seq<string>)
  {
    |a| < |b| && b[..|a|] == a
  }

  /** No input is a folder of another input: the tree can hold them all. */
  predicate PrefixFree(ps: seq<seq<string>>)
  {
    forall i, j :: 0 <= i < |ps| && 0 <= j < |ps| ==> !StrictPrefix(ps[i], ps[j])
  }

  /** A non-empty strict prefix of some input. */
  ghost predicate IsFolderPath(s: seq<string>, ps: seq<seq<string>>)
  {
    |s| >= 1 && exists q :: q in ps && StrictPrefix(s, q)
  }

  /** The files of `t` are exactly `ps`, and its folders exactly their strict prefixes. */
  ghost predicate Describes(t: Tree, ps: seq<seq<string>>)
  {
    && (forall s :: HasFile(t, s) <==> s in ps)
    && (forall s :: HasFolder(t, s) <==> IsFolderPath(s, ps))
  }

  // ---------------------------------------------------------------------
  // build_file_tree

  /**
   * One pass of the inner loop: descend through `segs[..|segs|-1]`, creating
   * missing folders as `defaultdict` does, then set the last name to `None`.
   * Descending through a file indexes `None` and raises `TypeError`: `None` here.
   */
  function Insert(t: Tree, segs: seq<string>): Option<Tree>
    requires |segs| >= 1
    decreases |segs|
  {
    var name := segs[0];
    if |segs| == 1 then Some(t[name := File])
    else if name in t && t[name].File? then None
    else
      var sub := if name in t then t[name].entries else map[];
      match Insert(sub, segs[1..])
      case None => None
      case Some(s) => Some(t[name := Folder(s)])
  }

  /** A path that crosses no file still crosses none in the subtree under its first name. */
  lemma DescendNoFile(t: Tree, segs: seq<string>)
    requires |segs| >= 2
    requires forall k :: 1 <= k < |segs| ==> !HasFile(t, segs[..k])
    ensures !(segs[0] in t && t[segs[0]].File?)
    ensures var sub := if segs[0] in t then t[segs[0]].entries else map[];
      forall k :: 1 <= k < |segs[1..]| ==> !HasFile(sub, segs[1..][..k])
  {
    var name, rest := segs[0], segs[1..];
    assert segs[..1] == [name];
    assert !HasFile(t, segs[..1]);
    var sub := if name in t then t[name].entries else map[];
    forall k | 1 <= k < |rest| ensures !HasFile(sub, rest[..k]) {
      assert segs[..k + 1] == [name] + rest[..k];
      assert !HasFile(t, segs[..k + 1]);
    }
  }

  /** The conditions of `InsertSpec` carry over from a tree to the subtree under the path's first name. */
  lemma Descend(t: Tree, segs: seq<string>)
    requires |segs| >= 2
    requires forall k :: 1 <= k < |segs| ==> !HasFile(t, segs[..k])
    requires !HasFolder(t, segs)
    ensures !(segs[0] in t && t[segs[0]].File?)
    ensures var sub := if segs[0] in t then t[segs[0]].entries else map[];
      && (forall k :: 1 <= k < |segs[1..]| ==> !HasFile(sub, segs[1..][..k]))
      && !HasFolder(sub, segs[1..])
  {
    DescendNoFile(t, segs);
  }

  /** Inserting a path that crosses no file and is no folder succeeds and adds exactly that file. */
  lemma {:induction false} InsertFiles(t: Tree, segs: seq<string>)
    requires |segs| >= 1
    requires forall k :: 1 <= k < |segs| ==> !HasFile(t, segs[..k])
    requires !HasFolder(t, segs)
    ensures Insert(t, segs).Some?
    ensures forall s :: HasFile(Insert(t, segs).value, s) <==> HasFile(t, s) || s == segs
    decreases |segs|
  {
    var name := segs[0];
    if |segs| == 1 {
      var t' := t[name := File];
      assert segs == [name];
      forall s ensures HasFile(t', s) <==> HasFile(t, s) || s == segs {
        if |s| >= 1 && s[0] == name {
          if |s| == 1 {
            assert s == segs;
          } else {
            assert !HasFolder(t, [name]);
          }
        }
      }
    } else {
      Descend(t, segs);
      var sub := if name in t then t[name].entries else map[];
      var rest := segs[1..];
      assert segs == [name] + rest;
      InsertFiles(sub, rest);
      var sub' := Insert(sub, rest).value;
      var t' := t[name := Folder(sub')];
      assert Insert(t, segs) == Some(t');
      forall s ensures HasFile(t', s) <==> HasFile(t, s) || s == segs {
        if |s| > 1 && s[0] == name {
          assert s == [name] + s[1..];
          assert HasFile(t', s) <==> HasFile(sub', s[1..]);
          assert HasFile(t, s) <==> HasFile(sub, s[1..]);
        }
      }
    }
  }

  /** One path of `InsertFolders`' descend case: the folders under the first name are those of the new subtree. */
  lemma FolderThrough(t: Tree, segs: seq<string>, sub: Tree, sub': Tree, s: seq<string>)
    requires |segs| >= 2
    requires !(segs[0] in t && t[segs[0]].File?)
    requires sub == if segs[0] in t then t[segs[0]].entries else map[]
    requires forall x :: HasFolder(sub', x) <==> HasFolder(sub, x) || (|x| >= 1 && StrictPrefix(x, segs[1..]))
    ensures HasFolder(t[segs[0] := Folder(sub')], s) <==> HasFolder(t, s) || (|s| >= 1 && StrictPrefix(s, segs))
  {
    var name := segs[0];
    if |s| >= 1 && s[0] == name {
      if |s| > 1 {
        FolderBelow(t, segs, sub, sub', s);
      } else {
        assert segs[..1] == s;
      }
    }
  }

  lemma FolderBelow(t: Tree, segs: seq<string>, sub: Tree, sub': Tree, s: seq<string>)
    requires |segs| >= 2 && |s| >= 2 && s[0] == segs[0]
    requires !(segs[0] in t && t[segs[0]].File?)
    requires sub == if segs[0] in t then t[segs[0]].entries else map[]
    requires HasFolder(sub', s[1..]) <==> HasFolder(sub, s[1..]) || StrictPrefix(s[1..], segs[1..])
    ensures HasFolder(t[segs[0] := Folder(sub')], s) <==> HasFolder(t, s) || StrictPrefix(s, segs)
  {
    var name, rest := segs[0], segs[1..];
    assert HasFolder(t[name := Folder(sub')], s) <==> HasFolder(sub', s[1..]);
    assert HasFolder(t, s) <==> HasFolder(sub, s[1..]);
    assert s == [name] + s[1..] && segs == [name] + rest;
    StrictPrefixCons(name, s[1..], rest);
  }

  lemma StrictPrefixCons(name: string, a: seq<string>, b: seq<string>)
    ensures StrictPrefix(a, b) <==> StrictPrefix([name] + a, [name] + b)
  {
    if |a| < |b| {
      assert ([name] + b)[..|a| + 1] == [name] + b[..|a|];
      assert ([name] + a)[1..] == a;
      assert ([name] + b[..|a|])[1..] == b[..|a|];
    }
  }

  /** Inserting such a path adds exactly the path's strict prefixes as folders. */
  lemma {:induction false} InsertFolders(t: Tree, segs: seq<string>)
    requires |segs| >= 1
    requires forall k :: 1 <= k < |segs| ==> !HasFile(t, segs[..k])
    requires !HasFolder(t, segs)
    ensures Insert(t, segs).Some?
    ensures forall s :: HasFolder(Insert(t, segs).value, s) <==> HasFolder(t, s) || (|s| >= 1 && StrictPrefix(s, segs))
    decreases |segs|
  {
    var name := segs[0];
    if |segs| == 1 {
      var t' := t[name := File];
      assert segs == [name];
      forall s ensures HasFolder(t', s) <==> HasFolder(t, s) || (|s| >= 1 && StrictPrefix(s, segs)) {
        if |s| >= 1 && s[0] == name {
          assert !HasFolder(t, [name]);
        }
      }
    } else {
      Descend(t, segs);
      var sub := if name in t then t[name].entries else map[];
      var rest := segs[1..];
      assert segs == [name] + rest;
      InsertFolders(sub, rest);
      var sub' := Insert(sub, rest).value;
      var t' := t[name := Folder(sub')];
      assert Insert(t, segs) == Some(t');
      forall s ensures HasFolder(t', s) <==> HasFolder(t, s) || (|s| >= 1 && StrictPrefix(s, segs)) {
        FolderThrough(t, segs, sub, sub', s);
      }
    }
  }

  /** Inserting a path that crosses no file and is no folder adds exactly that file and its folders. */
  lemma InsertSpec(t: Tree, segs: seq<string>)
    requires |segs| >= 1
    requires forall k :: 1 <= k < |segs| ==> !HasFile(t, segs[..k])
    requires !HasFolder(t, segs)
    ensures Insert(t, segs).Some?
    ensures forall s :: HasFile(Insert(t, segs).value, s) <==> HasFile(t, s) || s == segs
    ensures forall s :: HasFolder(Insert(t, segs).value, s) <==> HasFolder(t, s) || (|s| >= 1 && StrictPrefix(s, segs))
  {
    InsertFiles(t, segs);
    InsertFolders(t, segs);
  }

  /** `a` is `b` or a prefix of it. */
  predicate IsPrefix(a: seq<string>, b: seq<string>)
  {
    |a| <= |b| && b[..|a|] == a
  }

  /** Neither path lies on the other. */
  predicate Apart(a: seq<string>, b: seq<string>)
  {
    !IsPrefix(a, b) && !IsPrefix(b, a)
  }

  /**
   * Descending through a file raises: whenever a strict prefix of the path
   * is a file of the tree, `node[part]` indexes `None` and the insert fails.
   */
  lemma {:induction false} FileOnPathRaises(t: Tree, segs: seq<string>, k: nat)
    requires 1 <= k < |segs| && HasFile(t, segs[..k])
    ensures Insert(t, segs) == None
    decreases |segs|
  {
    var name := segs[0];
    assert segs[..k][0] == name;
    if k == 1 {
      assert segs[..1] == [name];
    } else {
      assert segs[..k][1..] == segs[1..][..k - 1];
      FileOnPathRaises(t[name].entries, segs[1..], k - 1);
    }
  }

  /** So an insert that succeeds crossed no file. */
  lemma InsertSomeNoFile(t: Tree, segs: seq<string>)
    requires |segs| >= 1
    ensures Insert(t, segs).Some? ==> forall k :: 1 <= k < |segs| ==> !HasFile(t, segs[..k])
  {
    forall k | 1 <= k < |segs| && HasFile(t, segs[..k]) ensures Insert(t, segs) == None {
      FileOnPathRaises(t, segs, k);
    }
  }

  /**
   * `node[parts[-1]] = None` overwrites whatever the path named: the path
   * becomes a file, and a folder that was there loses everything under it.
   */
  lemma {:induction false} InsertOverwrites(t: Tree, segs: seq<string>)
    requires |segs| >= 1
    requires forall k :: 1 <= k < |segs| ==> !HasFile(t, segs[..k])
    ensures Insert(t, segs).Some?
    ensures HasFile(Insert(t, segs).value, segs)
    ensures forall s :: StrictPrefix(segs, s) ==>
      !HasFile(Insert(t, segs).value, s) && !HasFolder(Insert(t, segs).value, s)
    decreases |segs|
  {
    var name := segs[0];
    if |segs| == 1 {
      assert segs == [name];
      forall s | StrictPrefix(segs, s)
        ensures !HasFile(t[name := File], s) && !HasFolder(t[name := File], s)
      {
        assert s[0] == name;
      }
    } else {
      DescendNoFile(t, segs);
      var sub := if name in t then t[name].entries else map[];
      var rest := segs[1..];
      InsertOverwrites(sub, rest);
      var sub' := Insert(sub, rest).value;
      var t' := t[name := Folder(sub')];
      assert Insert(t, segs) == Some(t');
      assert segs == [name] + rest;
      forall s | StrictPrefix(segs, s) ensures !HasFile(t', s) && !HasFolder(t', s) {
        assert s[0] == name;
        assert s[1..][..|rest|] == s[..|segs|][1..];
        assert StrictPrefix(rest, s[1..]);
      }
    }
  }

  /** An insert leaves alone every file whose path is apart from the inserted one. */
  lemma {:induction false} InsertKeepsApart(t: Tree, segs: seq<string>, s: seq<string>)
    requires |segs| >= 1
    requires forall k :: 1 <= k < |segs| ==> !HasFile(t, segs[..k])
    requires Apart(s, segs)
    ensures Insert(t, segs).Some?
    ensures HasFile(Insert(t, segs).value, s) <==> HasFile(t, s)
    decreases |segs|
  {
    InsertOverwrites(t, segs);
    var name := segs[0];
    assert |s| >= 1;
    if s[0] == name {
      assert segs[..1] == s[..1];
      var rest := segs[1..];
      DescendNoFile(t, segs);
      var sub := if name in t then t[name].entries else map[];
      assert s == [name] + s[1..] && segs == [name] + rest;
      PrefixCons(name, s[1..], rest);
      PrefixCons(name, rest, s[1..]);
      InsertKeepsApart(sub, rest, s[1..]);
      var sub' := Insert(sub, rest).value;
      assert Insert(t, segs) == Some(t[name := Folder(sub')]);
    }
  }

  lemma PrefixCons(name: string, a: seq<string>, b: seq<string>)
    ensures IsPrefix(a, b) <==> IsPrefix([name] + a, [name] + b)
  {
    if |a| <= |b| {
      assert ([name] + b)[..|a| + 1] == [name] + b[..|a|];
      assert ([name] + a)[1..] == a;
      assert ([name] + b[..|a|])[1..] == b[..|a|];
    }
  }

  /**
   * Once a strict prefix of `p` is a file, it stays so (or another strict
   * prefix becomes one) through any insert that does not raise.
   */
  lemma InsertKeepsFileOnPath(t: Tree, segs: seq<string>, p: seq<string>, k: nat)
    requires |segs| >= 1
    requires 1 <= k < |p| && HasFile(t, p[..k])
    ensures Insert(t, segs).Some? ==>
      exists k' :: 1 <= k' < |p| && HasFile(Insert(t, segs).value, p[..k'])
  {
    var f := p[..k];
    if |f| < |segs| && segs[..|f|] == f {
      FileOnPathRaises(t, segs, |f|);
    } else if Insert(t, segs).Some? {
      InsertSomeNoFile(t, segs);
      if IsPrefix(segs, f) {
        InsertOverwrites(t, segs);
        assert segs == p[..|segs|];
      } else {
        InsertKeepsApart(t, segs, f);
      }
    }
  }

  /** The result of `build_file_tree(paths)`: the paths inserted in order, `None` once one raises. */
  function BuildTree(paths: seq<string>): Option<Tree>
    decreases |paths|
  {
    if paths == [] then Some(map[])
    else
      match BuildTree(paths[..|paths| - 1])
      case None => None
      case Some(t) => Insert(t, Segments(paths[|paths| - 1]))
  }

  lemma BuildTreeStep(paths: seq<string>, m: nat)
    requires m < |paths|
    ensures BuildTree(paths[..m + 1]) ==
      match BuildTree(paths[..m])
      case None => None
      case Some(t) => Insert(t, Segments(paths[m]))
  {
    assert paths[..m + 1][..m] == paths[..m];
  }

  /** Whether the tree has failed, or has a file on a strict prefix of `p`. */
  ghost predicate Blocked(r: Option<Tree>, p: seq<string>)
  {
    r.None? || exists k :: 1 <= k < |p| && HasFile(r.value, p[..k])
  }

  /**
   * A listed file followed later by a path under it makes
   * `build_file_tree` raise: `build_file_tree(["a", "a/b"])`.
   */
  lemma FileBeforeSubpathRaises(paths: seq<string>, j: nat, i: nat)
    requires j < i < |paths|
    requires StrictPrefix(Segments(paths[j]), Segments(paths[i]))
    ensures BuildTree(paths).None?
  {
    BlockedBefore(paths, j, i);
    BlockedRaises(paths, i);
  }

  lemma BlockedBefore(paths: seq<string>, j: nat, i: nat)
    requires j < i < |paths|
    requires StrictPrefix(Segments(paths[j]), Segments(paths[i]))
    ensures Blocked(BuildTree(paths[..i]), Segments(paths[i]))
  {
    var p := Segments(paths[i]);
    BlockedStart(paths, j, p);
    BlockedUntil(paths, j + 1, i, p);
  }

  lemma BlockedUntil(paths: seq<string>, m: nat, i: nat, p: seq<string>)
    requires m <= i <= |paths| && Blocked(BuildTree(paths[..m]), p)
    ensures Blocked(BuildTree(paths[..i]), p)
  {
    var n := m;
    while n < i
      invariant m <= n <= i
      invariant Blocked(BuildTree(paths[..n]), p)
    {
      BlockedStep(paths, n, p);
      n := n + 1;
    }
  }

  lemma BlockedStart(paths: seq<string>, j: nat, p: seq<string>)
    requires j < |paths| && StrictPrefix(Segments(paths[j]), p)
    ensures Blocked(BuildTree(paths[..j + 1]), p)
  {
    var segs := Segments(paths[j]);
    BuildTreeStep(paths, j);
    match BuildTree(paths[..j]) {
      case None =>
      case Some(t) =>
        InsertSomeNoFile(t, segs);
        if Insert(t, segs).Some? {
          InsertOverwrites(t, segs);
          assert p[..|segs|] == segs;
        }
    }
  }

  lemma BlockedStep(paths: seq<string>, m: nat, p: seq<string>)
    requires m < |paths| && Blocked(BuildTree(paths[..m]), p)
    ensures Blocked(BuildTree(paths[..m + 1]), p)
  {
    BuildTreeStep(paths, m);
    match BuildTree(paths[..m]) {
      case None =>
      case Some(t) =>
        var k :| 1 <= k < |p| && HasFile(t, p[..k]);
        InsertKeepsFileOnPath(t, Segments(paths[m]), p, k);
    }
  }

  lemma BlockedRaises(paths: seq<string>, i: nat)
    requires i < |paths| && Blocked(BuildTree(paths[..i]), Segments(paths[i]))
    ensures BuildTree(paths).None?
  {
    BlockedRaisesHere(paths, i);
    NoneStays(paths, i + 1);
  }

  lemma BlockedRaisesHere(paths: seq<string>, i: nat)
    requires i < |paths| && Blocked(BuildTree(paths[..i]), Segments(paths[i]))
    ensures BuildTree(paths[..i + 1]).None?
  {
    var p := Segments(paths[i]);
    BuildTreeStep(paths, i);
    match BuildTree(paths[..i]) {
      case None =>
      case Some(t) =>
        var k :| 1 <= k < |p| && HasFile(t, p[..k]);
        FileOnPathRaises(t, p, k);
    }
  }

  /**
   * `build_file_tree(file_paths)`. When no input is a folder of another,
   * it returns a tree whose files are exactly the inputs and whose folders
   * are exactly their strict prefixes.
   */
  method BuildFileTree(paths: seq<string>) returns (r: Option<Tree>)
    ensures r == BuildTree(paths)
    ensures PrefixFree(SegmentsOf(paths)) ==> r.Some? && Describes(r.value, SegmentsOf(paths))
  {
    ghost var all := SegmentsOf(paths);
    var tree: Tree := map[];
    var i := 0;
    while i < |paths|
      invariant 0 <= i <= |paths|
      invariant BuildTree(paths[..i]) == Some(tree)
      invariant PrefixFree(all) ==> Describes(tree, all[..i])
    {
      var parts := Segments(paths[i]);
      var inserted := Insert(tree, parts);
      BuildTreeStep(paths, i);
      if PrefixFree(all) {
        AddPath(tree, all, i);
      }
      match inserted {
        case None =>
          assert paths[..|paths|] == paths;
          NoneStays(paths, i + 1);
          return None;
        case Some(next) =>
          tree := next;
      }
      i := i + 1;
    }
    assert paths[..|paths|] == paths;
    return Some(tree);
  }

  /** Once `build_file_tree` has raised, later paths do not matter. */
  lemma NoneStays(paths: seq<string>, m: nat)
    requires m <= |paths| && BuildTree(paths[..m]).None?
    ensures BuildTree(paths).None?
  {
    var n := m;
    while n < |paths|
      invariant m <= n <= |paths|
      invariant BuildTree(paths[..n]).None?
    {
      BuildTreeStep(paths, n);
      n := n + 1;
    }
    assert paths[..|paths|] == paths;
  }

  lemma AddPath(tree: Tree, all: seq<seq<string>>, i: nat)
    requires i < |all| && |all[i]| >= 1
    requires PrefixFree(all) && Describes(tree, all[..i])
    ensures Insert(tree, all[i]).Some?
    ensures Describes(Insert(tree, all[i]).value, all[..i + 1])
  {
    var segs := all[i];
    forall k | 1 <= k < |segs| ensures !HasFile(tree, segs[..k]) {
    }
    InsertSpec(tree, segs);
    var t' := Insert(tree, segs).value;
    assert all[..i + 1] == all[..i] + [segs];
    forall s ensures HasFolder(t', s) <==> IsFolderPath(s, all[..i + 1]) {
      if HasFolder(t', s) && !HasFolder(tree, s) {
        assert segs in all[..i + 1];
      }
      if IsFolderPath(s, all[..i + 1]) {
        var q :| q in all[..i + 1] && StrictPrefix(s, q);
        if q != segs {
          assert q in all[..i];
        }
      }
    }
  }

  // ---------------------------------------------------------------------
  // The order of populate_tree_view

  /** The sort key `(isinstance(content, defaultdict), name)`: files first, then by name. */
  predicate Before(t: Tree, a: string, b: string)
  {
    && a in t && b in t
    && ((t[a].File? && t[b].Folder?) || (t[a].Folder? == t[b].Folder? && Less(a, b)))
  }

  lemma BeforeTransitive(t: Tree, a: string, b: string, c: string)
    requires Before(t, a, b) && Before(t, b, c)
    ensures Before(t, a, c)
  {
    if t[a].Folder? == t[b].Folder? == t[c].Folder? {
      LessTransitive(a, b, c);
    }
  }

  lemma BeforeTotal(t: Tree, a: string, b: string)
    requires a in t && b in t && a != b
    ensures Before(t, a, b) || Before(t, b, a)
  {
    LessTotal(a, b);
  }

  predicate IsLeast(t: Tree, m: string, ks: set<string>)
  {
    m in ks && forall x :: x in ks && x != m ==> Before(t, m, x)
  }

  lemma {:induction false} LeastExists(t: Tree, ks: set<string>)
    requires ks != {} && ks <= t.Keys
    ensures exists m :: IsLeast(t, m, ks)
    decreases |ks|
  {
    var x :| x in ks;
    if ks == {x} {
      assert IsLeast(t, x, ks);
    } else {
      LeastExists(t, ks - {x});
      var m :| IsLeast(t, m, ks - {x});
      if Before(t, x, m) {
        forall y | y in ks && y != x ensures Before(t, x, y) {
          if y != m {
            BeforeTransitive(t, x, m, y);
          }
        }
        assert IsLeast(t, x, ks);
      } else {
        BeforeTotal(t, x, m);
        assert IsLeast(t, m, ks);
      }
    }
  }

  lemma LeastUnique(t: Tree, ks: set<string>)
    ensures forall m1, m2 :: IsLeast(t, m1, ks) && IsLeast(t, m2, ks) ==> m1 == m2
  {
    forall m1, m2 | IsLeast(t, m1, ks) && IsLeast(t, m2, ks) ensures m1 == m2 {
      if m1 != m2 {
        assert Before(t, m1, m2) && Before(t, m2, m1);
        if t[m1].Folder? == t[m2].Folder? {
          LessAsymmetric(m1, m2);
        }
      }
    }
  }

  /**
   * The names of `ks` in the order `sorted(tree.items(), key=...)` gives:
   * each name once, files before folders, each group in ascending order.
   */
  function SortedNames(t: Tree, ks: set<string>): (r: seq<string>)
    requires ks <= t.Keys
    ensures |r| == |ks|
    ensures forall n :: n in r <==> n in ks
    ensures forall i, j :: 0 <= i < j < |r| ==> Before(t, r[i], r[j])
    decreases |ks|
  {
    if ks == {} then []
    else
      LeastExists(t, ks);
      LeastUnique(t, ks);
      var m :| IsLeast(t, m, ks);
      [m] + SortedNames(t, ks - {m})
  }

  // ---------------------------------------------------------------------
  // Full paths and the visit

  /** `os.path.join(a, b)` on POSIX. */
  function PosixJoin(a: string, b: string): string
  {
    if |b| > 0 && b[0] == '/' then b
    else if a == "" || a[|a| - 1] == '/' then a + b
    else a + "/" + b
  }

  /** `os.path.join(current_path, name).replace("\\", "/")` */
  function FullPath(parent: string, name: string): string
  {
    ReplaceChar(PosixJoin(parent, name), '\\', '/')
  }

  /** The full path `populate_tree_view` rebuilds for the node at `segs` below `parent`. */
  function PathOf(parent: string, segs: seq<string>): string
    decreases |segs|
  {
    if |segs| == 0 then parent else PathOf(FullPath(parent, segs[0]), segs[1..])
  }

  /** The full paths `create_file_node` registers, in visit order. */
  function Visit(t: Tree, parent: string): seq<string>
    decreases Folder(t), 1
  {
    VisitNames(t, parent, SortedNames(t, t.Keys))
  }

  function VisitNames(t: Tree, parent: string, names: seq<string>): seq<string>
    requires forall i :: 0 <= i < |names| ==> names[i] in t
    decreases Folder(t), 0, |names|
  {
    if names == [] then []
    else
      var name := names[0];
      assert t[name] in t.Values;
      VisitEntry(t, parent, name) + VisitNames(t, parent, names[1..])
  }

  function VisitEntry(t: Tree, parent: string, name: string): seq<string>
    requires name in t
    decreases Folder(t), 0, 0
  {
    assert t[name] in t.Values;
    match t[name]
    case File => [FullPath(parent, name)]
    case Folder(e) => Visit(e, FullPath(parent, name))
  }

  lemma {:induction false} VisitNamesAppend(t: Tree, parent: string, names: seq<string>, name: string)
    requires forall i :: 0 <= i < |names| ==> names[i] in t
    requires name in t
    ensures VisitNames(t, parent, names + [name]) == VisitNames(t, parent, names) + VisitEntry(t, parent, name)
    decreases |names|
  {
    if names == [] {
      assert [name][1..] == [];
    } else {
      assert (names + [name])[1..] == names[1..] + [name];
      VisitNamesAppend(t, parent, names[1..], name);
    }
  }

  /** The segments of every file, in visit order. */
  function Leaves(t: Tree): seq<seq<string>>
    decreases Folder(t), 1
  {
    LeavesOf(t, SortedNames(t, t.Keys))
  }

  function LeavesOf(t: Tree, names: seq<string>): seq<seq<string>>
    requires forall i :: 0 <= i < |names| ==> names[i] in t
    decreases Folder(t), 0, |names|
  {
    if names == [] then []
    else EntryLeaves(t, names[0]) + LeavesOf(t, names[1..])
  }

  function EntryLeaves(t: Tree, name: string): seq<seq<string>>
    requires name in t
    decreases Folder(t), 0, 0
  {
    assert t[name] in t.Values;
    match t[name]
    case File => [[name]]
    case Folder(e) => Prefixed(name, Leaves(e))
  }

  function Prefixed(name: string, ss: seq<seq<string>>): (r: seq<seq<string>>)
    ensures |r| == |ss|
    ensures forall i :: 0 <= i < |ss| ==> r[i] == [name] + ss[i]
  {
    seq(|ss|, i requires 0 <= i < |ss| => [name] + ss[i])
  }

  function PathsOf(parent: string, ss: seq<seq<string>>): (r: seq<string>)
    ensures |r| == |ss|
    ensures forall i :: 0 <= i < |ss| ==> r[i] == PathOf(parent, ss[i])
  {
    seq(|ss|, i requires 0 <= i < |ss| => PathOf(parent, ss[i]))
  }

  /** The visit reaches a file exactly when the file is in the tree. */
  lemma {:induction false} LeavesAreFiles(t: Tree)
    ensures forall s :: s in Leaves(t) <==> HasFile(t, s)
    decreases Folder(t), 1
  {
    var names := SortedNames(t, t.Keys);
    LeavesOfAreFiles(t, names);
    forall s | HasFile(t, s) ensures s[0] in names {
    }
  }

  lemma {:induction false} LeavesOfAreFiles(t: Tree, names: seq<string>)
    requires forall i :: 0 <= i < |names| ==> names[i] in t
    ensures forall s :: s in LeavesOf(t, names) <==> HasFile(t, s) && s[0] in names
    decreases Folder(t), 0, |names|
  {
    if names != [] {
      var name := names[0];
      LeavesOfAreFiles(t, names[1..]);
      EntryLeavesAreFiles(t, name);
      assert names == [name] + names[1..];
    }
  }

  lemma {:induction false} EntryLeavesAreFiles(t: Tree, name: string)
    requires name in t
    ensures forall s :: s in EntryLeaves(t, name) <==> HasFile(t, s) && s[0] == name
    decreases Folder(t), 0, 0
  {
    assert t[name] in t.Values;
    match t[name] {
      case File =>
        forall s | HasFile(t, s) && s[0] == name ensures s == [name] {
        }
      case Folder(e) =>
        LeavesAreFiles(e);
        forall s ensures s in Prefixed(name, Leaves(e)) <==> HasFile(t, s) && s[0] == name {
          PrefixedMember(t, name, e, Leaves(e), s);
        }
    }
  }

  /** A path under a folder entry is one of its prefixed leaves exactly when it is a file of the tree. */
  lemma PrefixedMember(t: Tree, name: string, e: Tree, leaves: seq<seq<string>>, s: seq<string>)
    requires name in t && t[name] == Folder(e)
    requires forall x :: x in leaves <==> HasFile(e, x)
    ensures s in Prefixed(name, leaves) <==> HasFile(t, s) && s[0] == name
  {
    var here := Prefixed(name, leaves);
    if s in here {
      var i :| 0 <= i < |here| && here[i] == s;
      assert HasFile(e, leaves[i]);
      assert s[0] == name && s[1..] == leaves[i];
    }
    if HasFile(t, s) && s[0] == name {
      assert s == [name] + s[1..];
      assert HasFile(e, s[1..]);
      assert s[1..] in leaves;
      var i :| 0 <= i < |leaves| && leaves[i] == s[1..];
      assert here[i] == s;
    }
  }

  /** The paths the visit registers are the leaves' segments joined up by `PathOf`. */
  lemma {:induction false} VisitIsPathsOfLeaves(t: Tree, parent: string)
    ensures Visit(t, parent) == PathsOf(parent, Leaves(t))
    decreases Folder(t), 1
  {
    VisitNamesIsPathsOfLeaves(t, parent, SortedNames(t, t.Keys));
  }

  lemma {:induction false} VisitNamesIsPathsOfLeaves(t: Tree, parent: string, names: seq<string>)
    requires forall i :: 0 <= i < |names| ==> names[i] in t
    ensures VisitNames(t, parent, names) == PathsOf(parent, LeavesOf(t, names))
    decreases Folder(t), 0, |names|
  {
    if names != [] {
      var name := names[0];
      VisitNamesIsPathsOfLeaves(t, parent, names[1..]);
      VisitEntryIsPathsOfLeaves(t, parent, name);
      PathsOfConcat(parent, EntryLeaves(t, name), LeavesOf(t, names[1..]));
    }
  }

  lemma PathsOfConcat(parent: string, a: seq<seq<string>>, b: seq<seq<string>>)
    ensures PathsOf(parent, a + b) == PathsOf(parent, a) + PathsOf(parent, b)
  {
  }

  lemma {:induction false} VisitEntryIsPathsOfLeaves(t: Tree, parent: string, name: string)
    requires name in t
    ensures VisitEntry(t, parent, name) == PathsOf(parent, EntryLeaves(t, name))
    decreases Folder(t), 0, 0
  {
    assert t[name] in t.Values;
    match t[name] {
      case File =>
        assert PathOf(parent, [name]) == PathOf(FullPath(parent, name), []);
      case Folder(e) =>
        var child := FullPath(parent, name);
        VisitIsPathsOfLeaves(e, child);
        var ls := Leaves(e);
        forall i | 0 <= i < |ls| ensures PathOf(parent, [name] + ls[i]) == PathOf(child, ls[i]) {
          assert ([name] + ls[i])[1..] == ls[i];
        }
    }
  }

  // ---------------------------------------------------------------------
  // Clean paths: the rebuilt full path is the original path

  /** Every segment is non-empty and free of backslashes. */
  predicate CleanPath(p: string)
  {
    forall i :: 0 <= i < |Segments(p)| ==> Segments(p)[i] != "" && '\\' !in Segments(p)[i]
  }

  lemma ReplaceAbsent(s: string)
    requires '\\' !in s
    ensures ReplaceChar(s, '\\', '/') == s
  {
  }

  lemma FullPathClean(parent: string, seg: string)
    requires '\\' !in parent && (parent == "" || parent[|parent| - 1] != '/')
    requires seg != "" && '\\' !in seg && '/' !in seg
    ensures FullPath(parent, seg) == if parent == "" then seg else parent + "/" + seg
  {
    var joined := PosixJoin(parent, seg);
    assert joined == if parent == "" then seg else parent + "/" + seg;
    ReplaceAbsent(joined);
  }

  /** A clean parent joined with a clean segment is again a clean parent. */
  lemma ChildClean(parent: string, seg: string)
    requires '\\' !in parent && (parent == "" || parent[|parent| - 1] != '/')
    requires seg != "" && '\\' !in seg && '/' !in seg
    ensures var child := FullPath(parent, seg);
      '\\' !in child && child != "" && child[|child| - 1] != '/'
  {
    FullPathClean(parent, seg);
    var child := FullPath(parent, seg);
    if parent != "" {
      assert child == (parent + "/") + seg;
    }
    assert child[|child| - 1] == seg[|seg| - 1];
  }

  lemma JoinCons(segs: seq<string>, sep: string)
    requires |segs| > 1
    ensures Join(segs, sep) == segs[0] + sep + Join(segs[1..], sep)
  {
  }

  lemma {:induction false} PathOfClean(parent: string, segs: seq<string>)
    requires |segs| >= 1
    requires '\\' !in parent && (parent == "" || parent[|parent| - 1] != '/')
    requires forall i :: 0 <= i < |segs| ==> segs[i] != "" && '\\' !in segs[i] && '/' !in segs[i]
    ensures PathOf(parent, segs) == if parent == "" then Join(segs, "/") else parent + "/" + Join(segs, "/")
    decreases |segs|
  {
    var seg := segs[0];
    FullPathClean(parent, seg);
    if |segs| > 1 {
      var child := FullPath(parent, seg);
      var rest := segs[1..];
      ChildClean(parent, seg);
      PathOfClean(child, rest);
      JoinCons(segs, "/");
      var tail := Join(rest, "/");
      assert PathOf(parent, segs) == PathOf(child, rest);
      if parent != "" {
        var x := parent + "/";
        ConcatAssoc(x + seg, "/", tail);
        ConcatAssoc(x, seg, "/" + tail);
        ConcatAssoc(seg, "/", tail);
      }
    }
  }

  lemma ConcatAssoc(a: string, b: string, c: string)
    ensures (a + b) + c == a + (b + c)
  {
  }

  /**
   * With clean paths, the visit of the tree `build_file_tree` returns
   * registers exactly the input paths: the selection map's keys are the
   * paths the server listed.
   */
  lemma VisitRegistersInputPaths(t: Tree, paths: seq<string>)
    requires forall i :: 0 <= i < |paths| ==> CleanPath(paths[i])
    requires Describes(t, SegmentsOf(paths))
    ensures forall p :: p in Visit(t, "") <==> p in paths
  {
    VisitIsPathsOfLeaves(t, "");
    LeavesAreFiles(t);
    var all := SegmentsOf(paths);
    PathOfInputs(paths);
    forall p ensures p in Visit(t, "") <==> p in paths {
      if p in Visit(t, "") {
        var k :| 0 <= k < |Leaves(t)| && Visit(t, "")[k] == p;
        var s := Leaves(t)[k];
        assert HasFile(t, s);
        var i :| 0 <= i < |all| && all[i] == s;
        assert p == paths[i];
      }
      if p in paths {
        var i :| 0 <= i < |paths| && paths[i] == p;
        assert HasFile(t, all[i]);
        var k :| 0 <= k < |Leaves(t)| && Leaves(t)[k] == all[i];
        assert Visit(t, "")[k] == p;
      }
    }
  }

  /** A clean path is rebuilt from its own segments. */
  lemma PathOfInputs(paths: seq<string>)
    requires forall i :: 0 <= i < |paths| ==> CleanPath(paths[i])
    ensures forall i :: 0 <= i < |paths| ==> PathOf("", SegmentsOf(paths)[i]) == paths[i]
  {
    var all := SegmentsOf(paths);
    forall i | 0 <= i < |paths| ensures PathOf("", all[i]) == paths[i] {
      PathOfClean("", all[i]);
      JoinSplit(paths[i], '/');
    }
  }

  /** No two positions hold the same path. */
  predicate DistinctPaths(ss: seq<seq<string>>)
  {
    forall i, j :: 0 <= i < j < |ss| ==> ss[i] != ss[j]
  }

  lemma SortedNamesDistinct(t: Tree, names: seq<string>)
    requires names == SortedNames(t, t.Keys)
    ensures forall i, j :: 0 <= i < j < |names| ==> names[i] != names[j]
  {
    forall i, j | 0 <= i < j < |names| ensures names[i] != names[j] {
      LessIrreflexive(names[i]);
    }
  }

  lemma ConcatDistinct(a: seq<seq<string>>, b: seq<seq<string>>)
    requires DistinctPaths(a) && DistinctPaths(b)
    requires forall x :: x in a ==> x !in b
    ensures DistinctPaths(a + b)
  {
    forall i, j | 0 <= i < j < |a + b| ensures (a + b)[i] != (a + b)[j] {
      if i < |a| && j >= |a| {
        assert (a + b)[i] in a && (a + b)[j] in b;
      }
    }
  }

  /** The visit reaches every file once. */
  lemma {:induction false} LeavesDistinct(t: Tree)
    ensures DistinctPaths(Leaves(t))
    decreases Folder(t), 1
  {
    var names := SortedNames(t, t.Keys);
    SortedNamesDistinct(t, names);
    LeavesOfDistinct(t, names);
  }

  lemma {:induction false} LeavesOfDistinct(t: Tree, names: seq<string>)
    requires forall i :: 0 <= i < |names| ==> names[i] in t
    requires forall i, j :: 0 <= i < j < |names| ==> names[i] != names[j]
    ensures DistinctPaths(LeavesOf(t, names))
    decreases Folder(t), 0, |names|
  {
    if names != [] {
      var name := names[0];
      EntryLeavesDistinct(t, name);
      LeavesOfDistinct(t, names[1..]);
      EntryLeavesAreFiles(t, name);
      LeavesOfAreFiles(t, names[1..]);
      forall k | 0 <= k < |names[1..]| ensures names[1..][k] != name {
        assert names[1..][k] == names[k + 1];
      }
      ConcatDistinct(EntryLeaves(t, name), LeavesOf(t, names[1..]));
    }
  }

  lemma {:induction false} EntryLeavesDistinct(t: Tree, name: string)
    requires name in t
    ensures DistinctPaths(EntryLeaves(t, name))
    decreases Folder(t), 0, 0
  {
    assert t[name] in t.Values;
    match t[name] {
      case File =>
      case Folder(e) =>
        LeavesDistinct(e);
        var here := Prefixed(name, Leaves(e));
        forall i, j | 0 <= i < j < |here| ensures here[i] != here[j] {
          assert here[i][1..] == Leaves(e)[i];
          assert here[j][1..] == Leaves(e)[j];
        }
    }
  }

  /**
   * With clean paths, the visit of the tree `build_file_tree` returns
   * registers each input path once.
   */
  lemma VisitDistinct(t: Tree, paths: seq<string>)
    requires forall i :: 0 <= i < |paths| ==> CleanPath(paths[i])
    requires Describes(t, SegmentsOf(paths))
    ensures forall i, j :: 0 <= i < j < |Visit(t, "")| ==> Visit(t, "")[i] != Visit(t, "")[j]
  {
    var all := SegmentsOf(paths);
    var leaves := Leaves(t);
    VisitIsPathsOfLeaves(t, "");
    LeavesAreFiles(t);
    LeavesDistinct(t);
    PathOfInputs(paths);
    forall i, j | 0 <= i < j < |leaves| ensures Visit(t, "")[i] != Visit(t, "")[j] {
      assert HasFile(t, leaves[i]) && HasFile(t, leaves[j]);
      var a :| 0 <= a < |all| && all[a] == leaves[i];
      var b :| 0 <= b < |all| && all[b] == leaves[j];
      assert Visit(t, "")[i] == paths[a] && Visit(t, "")[j] == paths[b];
      assert Segments(paths[a]) != Segments(paths[b]);
    }
  }
}
