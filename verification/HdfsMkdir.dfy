/**
 Recursive directory creation over HDFS: a shell recursion that makes the missing
 ancestors with the parent attributes and the target with its own, one command at a time.
*/
module HdfsMkdir {
  import opened Prelude

  /** An absolute path. */
  datatype Path = Root | Child(parent: Path, name: string)

  datatype Attrs = Attrs(mode: string, user: string, group: string)
  datatype Entry = Dir(attrs: Attrs) | File(attrs: Attrs)
  type Tree = map<Path, Entry>

  /** Attributes the file system gives a directory it creates, from those of its parent. */
  type Defaults = (Path, Attrs) -> Attrs

  datatype Outcome = Skipped | Made | Aborted

  /** `dirname` */
  function Parent(path: Path): Path {
    if path.Root? then Root else path.parent
  }

  /** `path` is `q` or lies below it. */
  predicate Within(path: Path, q: Path) {
    path == q || (path.Child? && Within(path.parent, q))
  }

  function Depth(path: Path): nat {
    if path.Root? then 0 else Depth(path.parent) + 1
  }

  predicate IsDir(tree: Tree, path: Path) {
    path in tree && tree[path].Dir?
  }

  /** The root is a directory and every entry lies in one. */
  ghost predicate WellFormed(tree: Tree) {
    IsDir(tree, Root) && forall path :: path in tree ==> IsDir(tree, Parent(path))
  }

  /** Nothing can be created at `path`: the closest thing that exists on the way is a file. */
  predicate Blocked(tree: Tree, path: Path) {
    if path in tree then tree[path].File? else path.Child? && Blocked(tree, path.parent)
  }

  /** The directories missing on the way to `path`, itself included, parents first. */
  function Missing(tree: Tree, path: Path): seq<Path> {
    if path in tree || path.Root? then [] else Missing(tree, path.parent) + [path]
  }

  /** Only the attributes that are given are changed. */
  function Applied(base: Attrs, wanted: Attrs): Attrs {
    Attrs(
      if wanted.mode != "" then wanted.mode else base.mode,
      if wanted.user != "" then wanted.user else base.user,
      if wanted.group != "" then wanted.group else base.group)
  }

  const NOTHING := Attrs("", "", "")

  /** One directory more, in an existing one. */
  function Added(defaults: Defaults, tree: Tree, path: Path, wanted: Attrs): Tree
    requires Parent(path) in tree
  {
    tree[path := Dir(Applied(defaults(path, tree[Parent(path)].attrs), wanted))]
  }

  /** The directories missing up to `path` are created in turn, each given the `wanted` attributes. */
  function Built(defaults: Defaults, tree: Tree, path: Path, wanted: Attrs): (r: Tree)
    requires WellFormed(tree) && !Blocked(tree, path)
    ensures IsDir(r, path)
  {
    if path in tree then tree
    else Added(defaults, Built(defaults, tree, path.parent, wanted), path, wanted)
  }

  // ----- what these mean

  lemma {:induction false} AncestorsExist(tree: Tree, path: Path, q: Path)
    requires WellFormed(tree) && path in tree && Within(path, q)
    ensures q in tree && (q != path ==> tree[q].Dir?)
  {
    if q != path {
      assert IsDir(tree, Parent(path));
      AncestorsExist(tree, path.parent, q);
    }
  }

  /** Blocked exactly when the path or an ancestor is a file. */
  lemma {:induction false} BlockedExactly(tree: Tree, path: Path)
    requires WellFormed(tree)
    ensures Blocked(tree, path) <==> exists q :: q in tree && Within(path, q) && tree[q].File?
  {
    if path in tree {
      assert Within(path, path);
      forall q | Within(path, q) && q != path
        ensures q in tree && tree[q].Dir?
      {
        AncestorsExist(tree, path, q);
      }
    } else {
      BlockedExactly(tree, path.parent);
      assert forall q :: q != path ==> Within(path, q) == Within(path.parent, q);
    }
  }

  /** A list of directories, each deeper than those before it. */
  ghost predicate Descends(s: seq<Path>) {
    forall i, j :: 0 <= i < j < |s| ==> Depth(s[i]) < Depth(s[j])
  }

  /** The list is exactly the ancestors-or-self that do not exist, from the top down. */
  lemma {:induction false} MissingExactly(tree: Tree, path: Path)
    requires WellFormed(tree)
    ensures forall q :: q in Missing(tree, path) <==> Within(path, q) && q !in tree
    ensures Descends(Missing(tree, path))
    ensures forall q :: Within(path, q) ==> Depth(q) <= Depth(path)
  {
    if path.Child? {
      MissingExactly(tree, path.parent);
    }
    if path in tree {
      forall q | Within(path, q)
        ensures q in tree
      {
        AncestorsExist(tree, path, q);
      }
    }
  }

  /** Attributes of a directory that a run creates, in the tree it leaves. */
  ghost predicate Given(defaults: Defaults, tree: Tree, path: Path, wanted: Attrs) {
    && IsDir(tree, path) && Parent(path) in tree
    && tree[path].attrs == Applied(defaults(path, tree[Parent(path)].attrs), wanted)
  }

  /** `r` is `tree` with the missing ancestors of `path`, itself included, and nothing else changed. */
  ghost predicate Grown(tree: Tree, path: Path, r: Tree) {
    && (forall q :: q in r <==> q in tree || Within(path, q))
    && (forall q :: q in tree ==> q in r && r[q] == tree[q])
  }

  ghost predicate AllGiven(defaults: Defaults, tree: Tree, r: Tree, wanted: Attrs) {
    forall q :: q in r && q !in tree ==> Given(defaults, r, q, wanted)
  }

  lemma AddedKeeps(defaults: Defaults, tree: Tree, path: Path, wanted: Attrs)
    requires WellFormed(tree) && path !in tree && IsDir(tree, Parent(path))
    ensures var r := Added(defaults, tree, path, wanted);
      && WellFormed(r) && Given(defaults, r, path, wanted)
      && (forall q :: q in r <==> q in tree || q == path)
      && (forall q :: q in tree ==> r[q] == tree[q])
  {
    var r := Added(defaults, tree, path, wanted);
    forall q | q in r
      ensures IsDir(r, Parent(q))
    {
      if q != path {
        assert IsDir(tree, Parent(q));
      }
    }
  }

  /** A directory that did not exist adds itself to what was built above it. */
  lemma GivenStays(defaults: Defaults, tree: Tree, path: Path, wanted: Attrs, q: Path, given: Attrs)
    requires WellFormed(tree) && path !in tree && IsDir(tree, Parent(path))
    requires Given(defaults, tree, q, given)
    ensures Given(defaults, Added(defaults, tree, path, wanted), q, given)
  {
    assert IsDir(tree, Parent(q));
  }

  /** Exactly the missing directories are added, each with the wanted attributes; the rest is untouched. */
  lemma {:induction false} BuiltExactly(defaults: Defaults, tree: Tree, path: Path, wanted: Attrs)
    requires WellFormed(tree) && !Blocked(tree, path)
    ensures var r := Built(defaults, tree, path, wanted);
      WellFormed(r) && Grown(tree, path, r) && AllGiven(defaults, tree, r, wanted)
  {
    if path in tree {
      forall q | Within(path, q)
        ensures q in tree
      {
        AncestorsExist(tree, path, q);
      }
    } else {
      BuiltExactly(defaults, tree, path.parent, wanted);
      var above := Built(defaults, tree, path.parent, wanted);
      OnTop(defaults, tree, above, path, wanted, wanted);
      assert AllGiven(defaults, tree, Added(defaults, above, path, wanted), wanted);
    }
  }

  lemma NotWithinParent(path: Path, q: Path)
    requires Within(path, q)
    ensures Depth(q) <= Depth(path)
  {
  }

  /** The last directory added on top of those built above it. */
  lemma OnTop(defaults: Defaults, tree: Tree, above: Tree, path: Path, wanted: Attrs, own: Attrs)
    requires WellFormed(above) && path !in tree && path.Child? && IsDir(above, path.parent)
    requires Grown(tree, path.parent, above) && AllGiven(defaults, tree, above, wanted)
    ensures path !in above
    ensures var r := Added(defaults, above, path, own);
      && WellFormed(r) && Grown(tree, path, r)
      && forall q :: q in r && q !in tree ==> Given(defaults, r, q, if q == path then own else wanted)
  {
    if Within(path.parent, path) {
      NotWithinParent(path.parent, path);
    }
    AddedKeeps(defaults, above, path, own);
    var r := Added(defaults, above, path, own);
    forall q | q in r && q !in tree
      ensures Given(defaults, r, q, if q == path then own else wanted)
    {
      if q != path {
        GivenStays(defaults, above, path, own, q, wanted);
      }
    }
  }

  // ----- the commands

  /** `options.mode`, `user` and `group`, with the defaults the parents take from the target. */
  datatype Options = Options(
    mode: Option<string>, user: Option<string>, group: Option<string>,
    parentMode: Option<string>, parentUser: Option<string>, parentGroup: Option<string>)
  {
    function Own(): Attrs {
      Attrs(mode.GetOr(""), user.GetOr(""), group.GetOr(""))
    }

    function Above(): Attrs {
      Attrs(parentMode.GetOr(Own().mode), parentUser.GetOr(Own().user), parentGroup.GetOr(Own().group))
    }
  }

  /** The tree after a run that is not blocked. */
  function After(defaults: Defaults, tree: Tree, target: Path, above: Attrs, own: Attrs): Tree
    requires WellFormed(tree) && !Blocked(tree, target)
  {
    if target in tree then tree
    else Added(defaults, Built(defaults, tree, target.parent, above), target, own)
  }

  class Hdfs {
    const defaults: Defaults
    var tree: Tree
    /** Every directory created so far, in order. */
    var made: seq<Path>

    constructor (defaults: Defaults, tree: Tree)
      requires WellFormed(tree)
      ensures this.defaults == defaults && this.tree == tree && made == []
    {
      this.defaults, this.tree, made := defaults, tree, [];
    }

    /** `hdfs dfs -mkdir -p` */
    method MkdirP(path: Path) returns (ok: bool)
      requires WellFormed(tree)
      modifies this
      ensures WellFormed(tree)
      ensures ok <==> !Blocked(old(tree), path)
      ensures !ok ==> tree == old(tree) && made == old(made)
      ensures ok ==> tree == Built(defaults, old(tree), path, NOTHING)
      ensures ok ==> made == old(made) + Missing(old(tree), path)
      decreases path
    {
      hide WellFormed, Grown, AllGiven;
      if path in tree {
        return tree[path].Dir?;
      }
      RootExists(tree);
      ok := MkdirP(path.parent);
      if ok {
        BuiltExactly(defaults, old(tree), path, NOTHING);
        tree := tree[path := Dir(defaults(path, tree[path.parent].attrs))];
        made := made + [path];
      }
    }

    /** `hdfs dfs -chmod`, `-chown` and `-chgrp`: the attributes of one directory. */
    method Change(path: Path, attrs: Attrs)
      requires WellFormed(tree) && IsDir(tree, path)
      modifies `tree
      ensures tree == old(tree)[path := Dir(attrs)] && WellFormed(tree)
    {
      tree := tree[path := Dir(attrs)];
      forall q | q in tree
        ensures IsDir(tree, Parent(q))
      {
        assert IsDir(old(tree), Parent(q));
      }
    }

    /** Creates a directory and sets the attributes that are not empty. */
    method CreateDir(path: Path, wanted: Attrs) returns (ok: bool)
      requires WellFormed(tree)
      modifies this
      ensures WellFormed(tree)
      ensures ok <==> !Blocked(old(tree), path)
      ensures !ok ==> tree == old(tree) && made == old(made)
      ensures ok ==> made == old(made) + Missing(old(tree), path)
      ensures ok ==> var built := Built(defaults, old(tree), path, NOTHING);
        tree == built[path := Dir(Applied(built[path].attrs, wanted))]
    {
      hide WellFormed, Blocked, Missing, Built;
      ok := MkdirP(path);
      if ok {
        if wanted.mode != "" {
          Change(path, tree[path].attrs.(mode := wanted.mode));
        }
        if wanted.user != "" {
          Change(path, tree[path].attrs.(user := wanted.user));
        }
        if wanted.group != "" {
          Change(path, tree[path].attrs.(group := wanted.group));
        }
      }
    }

    /** Creates the missing ancestors of `path`, from the top. */
    method CreateParentDir(path: Path, wanted: Attrs) returns (ok: bool)
      requires WellFormed(tree)
      modifies this
      ensures WellFormed(tree)
      ensures ok <==> !Blocked(old(tree), Parent(path))
      ensures !ok ==> tree == old(tree) && made == old(made)
      ensures ok ==> made == old(made) + Missing(old(tree), Parent(path))
      ensures ok ==> tree == Built(defaults, old(tree), Parent(path), wanted)
      decreases path
    {
      hide WellFormed, Added;
      var dir := Parent(path);
      RootExists(tree);
      if dir == Root || IsDir(tree, dir) {
        return true;
      }
      ok := CreateParentDir(dir, wanted);
      if ok {
        ok := Create(old(tree), dir, wanted, wanted);
      }
    }

    /** `create_dir` once the ancestors are there: one directory is added, or nothing when a file has the name. */
    method Create(ghost before: Tree, path: Path, above: Attrs, wanted: Attrs) returns (ok: bool)
      requires path.Child? && WellFormed(before) && !Blocked(before, path.parent) && !IsDir(before, path)
      requires WellFormed(tree) && tree == Built(defaults, before, path.parent, above)
      modifies this
      ensures WellFormed(tree)
      ensures ok <==> !Blocked(before, path)
      ensures !ok ==> tree == old(tree) == before && made == old(made)
      ensures ok ==> tree == Added(defaults, old(tree), path, wanted)
      ensures ok ==> made == old(made) + [path]
    {
      hide WellFormed;
      AboveIsReady(defaults, before, path, above);
      ok := CreateDir(path, wanted);
    }

    /** The script: skipped when the target is a directory already, abandoned when a file is in the way. */
    method Mkdir(target: Path, options: Options) returns (outcome: Outcome)
      requires WellFormed(tree)
      modifies this
      ensures WellFormed(tree)
      ensures outcome == Skipped <==> IsDir(old(tree), target)
      ensures outcome == Aborted <==> Blocked(old(tree), target)
      ensures outcome == Aborted ==> tree == old(tree) && made == old(made)
      ensures outcome != Aborted ==> tree == After(defaults, old(tree), target, options.Above(), options.Own())
      ensures outcome != Aborted ==> made == old(made) + Missing(old(tree), target)
    {
      hide WellFormed, Built, Added;
      RootExists(tree);
      if IsDir(tree, target) {
        return Skipped;
      }
      var ok := CreateParentDir(target, options.Above());
      if ok {
        ok := Create(old(tree), target, options.Above(), options.Own());
      }
      return if ok then Made else Aborted;
    }
  }

  lemma RootExists(tree: Tree)
    requires WellFormed(tree)
    ensures IsDir(tree, Root)
  {
  }

  /** Before the last directory is created, only that one is missing. */
  lemma AboveIsReady(defaults: Defaults, before: Tree, path: Path, above: Attrs)
    requires path.Child? && WellFormed(before) && !Blocked(before, path.parent) && !IsDir(before, path)
    ensures var tree := Built(defaults, before, path.parent, above);
      && WellFormed(tree) && IsDir(tree, path.parent) && Blocked(tree, path) == Blocked(before, path)
      && (Blocked(before, path) ==> tree == before)
      && (!Blocked(before, path) ==> path !in tree)
  {
    BuiltExactly(defaults, before, path.parent, above);
    if path in before {
      assert IsDir(before, Parent(path));
    } else if Within(path.parent, path) {
      NotWithinParent(path.parent, path);
    }
  }

  // ----- laws of a run

  /** What a run leaves: every ancestor, new ones with the parent attributes, the target with its own. */
  lemma AfterExactly(defaults: Defaults, tree: Tree, target: Path, above: Attrs, own: Attrs)
    requires WellFormed(tree) && !Blocked(tree, target)
    ensures var r := After(defaults, tree, target, above, own);
      && WellFormed(r) && IsDir(r, target) && Grown(tree, target, r)
      && forall q :: q in r && q !in tree ==> Given(defaults, r, q, if q == target then own else above)
  {
    if target in tree {
      BuiltExactly(defaults, tree, target, above);
    } else {
      BuiltExactly(defaults, tree, target.parent, above);
      hide WellFormed, Grown, AllGiven, Given;
      OnTop(defaults, tree, Built(defaults, tree, target.parent, above), target, above, own);
    }
  }

  /** An option that is given and not empty is taken, otherwise what the file system gives stays. */
  ghost predicate Takes(given: Option<string>, base: string, got: string) {
    got == match given
      case Some(value) => if value == "" then base else value
      case None => base
  }

  /** Of two options, the first that is given counts, even when it is empty. */
  ghost predicate TakesFirst(first: Option<string>, second: Option<string>, base: string, got: string) {
    if first.Some? then Takes(first, base, got) else Takes(second, base, got)
  }

  /**
   The attributes of every directory that a run creates: the target takes its own options;
   the others take those of the parents, and for lack of one that of the target.
  */
  lemma AttributesExactly(defaults: Defaults, tree: Tree, target: Path, options: Options, q: Path)
    requires WellFormed(tree) && !Blocked(tree, target)
    requires q !in tree && q in After(defaults, tree, target, options.Above(), options.Own())
    ensures var r := After(defaults, tree, target, options.Above(), options.Own());
      && IsDir(r, q) && Parent(q) in r
      && var base, got := defaults(q, r[Parent(q)].attrs), r[q].attrs;
      && (q == target ==>
        Takes(options.mode, base.mode, got.mode) && Takes(options.user, base.user, got.user)
        && Takes(options.group, base.group, got.group))
      && (q != target ==>
        && TakesFirst(options.parentMode, options.mode, base.mode, got.mode)
        && TakesFirst(options.parentUser, options.user, base.user, got.user)
        && TakesFirst(options.parentGroup, options.group, base.group, got.group))
  {
    AfterExactly(defaults, tree, target, options.Above(), options.Own());
    var r := After(defaults, tree, target, options.Above(), options.Own());
    assert Given(defaults, r, q, if q == target then options.Own() else options.Above());
    var base := defaults(q, r[Parent(q)].attrs);
    hide After, WellFormed, Grown, Takes, TakesFirst, Applied, Options.Own, Options.Above, Blocked;
    AppliedOwn(base, options);
    AppliedAbove(base, options);
  }

  lemma AppliedOwn(base: Attrs, options: Options)
    ensures var got := Applied(base, options.Own());
      Takes(options.mode, base.mode, got.mode) && Takes(options.user, base.user, got.user)
      && Takes(options.group, base.group, got.group)
  {
  }

  lemma AppliedAbove(base: Attrs, options: Options)
    ensures var got := Applied(base, options.Above());
      && TakesFirst(options.parentMode, options.mode, base.mode, got.mode)
      && TakesFirst(options.parentUser, options.user, base.user, got.user)
      && TakesFirst(options.parentGroup, options.group, base.group, got.group)
  {
  }

  /** A second run finds its directory and changes nothing, whatever attributes it is given. */
  lemma SecondRunIsSkipped(defaults: Defaults, tree: Tree, target: Path, above: Attrs, own: Attrs, a: Attrs, o: Attrs)
    requires WellFormed(tree) && !Blocked(tree, target)
    ensures var r := After(defaults, tree, target, above, own);
      && WellFormed(r) && IsDir(r, target) && !Blocked(r, target)
      && After(defaults, r, target, a, o) == r && Missing(r, target) == []
  {
    hide WellFormed;
    AfterExactly(defaults, tree, target, above, own);
  }
}
