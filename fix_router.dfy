/** The stand-alone router-conflict cleaner: when the project has an `app`
    directory, the Pages Router entry files are deleted from `pages`, and
    `pages` itself is removed once nothing is left in it. */
module FixRouter {

  datatype Kind = File | Dir

  /** A path below the project root, one name per level. */
  type Path = seq<string>

  /** The project tree: every path that exists, and what it is. */
  type Tree = map<Path, Kind>

  /** Every entry sits in a directory that exists (the root is implicit). */
  predicate WellFormed(t: Tree) {
    forall p :: p in t ==> |p| > 0 && (|p| > 1 ==> p[..|p| - 1] in t && t[p[..|p| - 1]] == Dir)
  }

  const App: Path := ["app"]
  const Pages: Path := ["pages"]

  /** The six files that clash with the App Router, in the script's order. */
  const Candidates: seq<Path> := [
    ["pages", "index.tsx"], ["pages", "index.jsx"], ["pages", "_app.tsx"],
    ["pages", "_app.jsx"], ["pages", "_document.tsx"], ["pages", "_document.jsx"]]

  const CandidateSet: set<Path> := set c | c in Candidates

  /** `p` names an entry directly inside `dir`. */
  predicate ChildOf(p: Path, dir: Path) {
    |p| == |dir| + 1 && p[..|dir|] == dir
  }

  /** `fs.readdirSync(dir)`, as a set of names. */
  function Names(t: Tree, dir: Path): set<string> {
    set p | p in t && ChildOf(p, dir) :: p[|dir|]
  }

  /** `rm` deletes `p` when it exists, is a regular file and the file system
      does not refuse (`faults` are the paths whose calls throw). */
  predicate Removable(t: Tree, faults: set<Path>, p: Path) {
    p in t && t[p] == File && p !in faults
  }

  /** The tree after `rm(p)`; a thrown error is caught and changes nothing. */
  function RmResult(t: Tree, faults: set<Path>, p: Path): Tree {
    if Removable(t, faults, p) then t - {p} else t
  }

  /** The tree after `conflictFiles.forEach(rm)` over the first paths of `ps`. */
  function RmAll(t: Tree, faults: set<Path>, ps: seq<Path>): Tree {
    if ps == [] then t
    else RmResult(RmAll(t, faults, ps[..|ps| - 1]), faults, ps[|ps| - 1])
  }

  /** The tree with the removable members of `s` gone, everything else kept. */
  function Without(t: Tree, faults: set<Path>, s: set<Path>): (r: Tree)
    ensures forall p :: p in r <==> p in t && !(p in s && Removable(t, faults, p))
    ensures forall p :: p in r ==> r[p] == t[p]
  {
    map p | p in t && !(p in s && Removable(t, faults, p)) :: t[p]
  }

  /** Deleting the candidates one by one removes exactly the removable
      ones: one failing file does not stop the others. */
  lemma {:induction false} RmAllRemovesExactly(t: Tree, faults: set<Path>, ps: seq<Path>)
    ensures RmAll(t, faults, ps) == Without(t, faults, set p | p in ps)
  {
    if ps != [] {
      var front := ps[..|ps| - 1];
      var x := ps[|ps| - 1];
      RmAllRemovesExactly(t, faults, front);
      var before := Without(t, faults, set p | p in front);
      var after := RmResult(before, faults, x);
      assert ps == front + [x];
      assert (set p | p in ps) == (set p | p in front) + {x};
      var want := Without(t, faults, set p | p in ps);
      assert forall p :: p in after <==> p in want;
    }
  }

  datatype RmdirOutcome =
    | Missing           // the directory does not exist
    | Removed           // it was empty and is gone
    | KeptApi           // only `api` is left in it
    | Kept(items: set<string>)
    | Failed            // reading or removing it threw

  /** `rmdirIfEmpty(dir)`. Reading a regular file as a directory throws. */
  function RmdirResult(t: Tree, faults: set<Path>, dir: Path): (Tree, RmdirOutcome) {
    if dir !in t then (t, Missing)
    else if dir in faults || t[dir] == File then (t, Failed)
    else
      var items := Names(t, dir);
      if items == {} then (t - {dir}, Removed)
      else if items == {"api"} then (t, KeptApi)
      else (t, Kept(items))
  }

  datatype Report = NoApp | NoPages | Cleaned(pages: RmdirOutcome)

  /** The whole script: the tree it leaves and what it reports. */
  function FixRouterResult(t: Tree, faults: set<Path>): (Tree, Report) {
    if App !in t then (t, NoApp)
    else if Pages !in t then (t, NoPages)
    else
      var (t', out) := RmdirResult(RmAll(t, faults, Candidates), faults, Pages);
      (t', Cleaned(out))
  }

  /** The tree the script leaves behind. */
  function TreeAfter(t: Tree, faults: set<Path>): Tree {
    FixRouterResult(t, faults).0
  }

  /** The project tree as the script changes it. */
  class Workspace {
    var tree: Tree
    const faults: set<Path>

    constructor (t: Tree, faults: set<Path>)
      ensures tree == t && this.faults == faults
    {
      tree := t;
      this.faults := faults;
    }

    /** `rm(filePath)`. */
    method Rm(p: Path)
      modifies this
      ensures tree == RmResult(old(tree), faults, p)
    {
      if p in tree {
        if p in faults {
          return;
        }
        if tree[p] == File {
          tree := tree - {p};
        }
      }
    }

    /** `rmdirIfEmpty(dir)`. */
    method RmdirIfEmpty(dir: Path) returns (out: RmdirOutcome)
      modifies this
      ensures (tree, out) == RmdirResult(old(tree), faults, dir)
    {
      if dir !in tree {
        return Missing;
      }
      if dir in faults || tree[dir] == File {
        return Failed;
      }
      var items := Names(tree, dir);
      if items == {} {
        tree := tree - {dir};
        out := Removed;
      } else if items == {"api"} {
        out := KeptApi;
      } else {
        out := Kept(items);
      }
    }

    /** `main`. */
    method Run() returns (report: Report)
      modifies this
      ensures (tree, report) == FixRouterResult(old(tree), faults)
    {
      if App !in tree {
        return NoApp;
      }
      if Pages !in tree {
        return NoPages;
      }
      var i := 0;
      while i < |Candidates|
        invariant 0 <= i <= |Candidates|
        invariant tree == RmAll(old(tree), faults, Candidates[..i])
      {
        assert Candidates[..i + 1][..i] == Candidates[..i];
        Rm(Candidates[i]);
        i := i + 1;
      }
      assert Candidates[..i] == Candidates;
      var out := RmdirIfEmpty(Pages);
      report := Cleaned(out);
    }
  }

  /** Without an `app` directory nothing is touched. */
  lemma NoAppNoChange(t: Tree, faults: set<Path>)
    requires App !in t
    ensures FixRouterResult(t, faults) == (t, NoApp)
  {
  }

  /** Without `pages`, neither deletion nor removal is attempted. */
  lemma NoPagesNoChange(t: Tree, faults: set<Path>)
    requires App in t && Pages !in t
    ensures FixRouterResult(t, faults) == (t, NoPages)
  {
  }

  /** Nothing is added or altered; what disappears is a removable
      candidate or the `pages` directory itself. */
  lemma OnlyCandidatesRemoved(t: Tree, faults: set<Path>)
    ensures forall p :: p in TreeAfter(t, faults) ==> p in t && TreeAfter(t, faults)[p] == t[p]
    ensures forall p :: p in t && p !in TreeAfter(t, faults) ==>
              p == Pages || (p in CandidateSet && Removable(t, faults, p))
  {
    RmAllRemovesExactly(t, faults, Candidates);
  }

  /** With `app` and `pages` present, a candidate disappears exactly when it
      is a regular file the file system lets the script delete. */
  lemma CandidateRemovedIff(t: Tree, faults: set<Path>, c: Path)
    requires App in t && Pages in t && c in CandidateSet && c in t
    ensures c !in TreeAfter(t, faults) <==> Removable(t, faults, c)
  {
    RmAllRemovesExactly(t, faults, Candidates);
  }

  /** An entry inside `dir` contributes its name to `dir`'s listing. */
  lemma NameListed(t: Tree, dir: Path, p: Path)
    ensures p in t && ChildOf(p, dir) ==> p[|dir|] in Names(t, dir)
  {
  }

  /** With `app` present and `pages` a readable directory, `pages` is
      removed exactly when every entry in it was a removable candidate. */
  lemma PagesRemovedIff(t: Tree, faults: set<Path>)
    requires App in t && Pages in t && t[Pages] == Dir && Pages !in faults
    ensures Pages !in TreeAfter(t, faults)
        <==> forall p :: p in t && ChildOf(p, Pages) ==> p in CandidateSet && Removable(t, faults, p)
  {
    RmAllRemovesExactly(t, faults, Candidates);
    var m := RmAll(t, faults, Candidates);
    if Names(m, Pages) == {} {
      forall p | p in t && ChildOf(p, Pages)
        ensures p in CandidateSet && Removable(t, faults, p)
      {
        NameListed(m, Pages, p);
      }
    } else {
      var n :| n in Names(m, Pages);
      var p :| p in m && ChildOf(p, Pages) && p[|Pages|] == n;
      assert p in t && !(p in CandidateSet && Removable(t, faults, p));
    }
  }

  /** A `pages` directory that holds `api` is kept, and so is `api`. */
  lemma ApiKept(t: Tree, faults: set<Path>)
    requires ["pages", "api"] in t
    ensures ["pages", "api"] in TreeAfter(t, faults)
    ensures Pages in t ==> Pages in TreeAfter(t, faults)
  {
    RmAllRemovesExactly(t, faults, Candidates);
    var api: Path := ["pages", "api"];
    assert api !in CandidateSet;
    var m := RmAll(t, faults, Candidates);
    assert ChildOf(api, Pages);
    NameListed(m, Pages, api);
  }

  /** Deleting files keeps a tree well formed: a parent is a directory, and
      directories are never deleted as files. */
  lemma WithoutKeepsWellFormed(t: Tree, faults: set<Path>, s: set<Path>)
    requires WellFormed(t)
    ensures WellFormed(Without(t, faults, s))
  {
  }

  /** Removing a directory only when it is empty keeps a tree well formed. */
  lemma RmdirKeepsWellFormed(t: Tree, faults: set<Path>, dir: Path)
    requires WellFormed(t)
    ensures WellFormed(RmdirResult(t, faults, dir).0)
  {
    var r := RmdirResult(t, faults, dir).0;
    forall p | p in r && |p| > 1
      ensures p[..|p| - 1] in r
    {
      NameListed(t, dir, p);
      if p[..|p| - 1] == dir {
        assert ChildOf(p, dir);
      }
    }
  }

  /** The cleaned tree is still a tree: only files and an empty directory go. */
  lemma KeepsWellFormed(t: Tree, faults: set<Path>)
    requires WellFormed(t)
    ensures WellFormed(TreeAfter(t, faults))
  {
    if App in t && Pages in t {
      RmAllRemovesExactly(t, faults, Candidates);
      WithoutKeepsWellFormed(t, faults, set p | p in Candidates);
      RmdirKeepsWellFormed(RmAll(t, faults, Candidates), faults, Pages);
    }
  }
}
