/**
 * Skill-package ownership: which directories of a bundle are package roots,
 * which package owns a path, and what class and concept id a file gets.
 */
module Packages {
  import opened Text
  import Sorting

  const MANIFEST := "SKILL.md"

  datatype FileClass =
    | OkfDocument | SkillManifest | SkillScript | SkillReference | SkillAsset | Reserved
  {
    predicate IsResource() {
      SkillScript? || SkillReference? || SkillAsset?
    }

    /** The catalog concept id a file of this class gets. */
    function ConceptId(path: string): string {
      if !IsResource() && HasSuffix(path, ".md") then path[..|path| - 3] else path
    }
  }

  // ----- The source's path functions -----

  predicate IsManifest(path: string) {
    BaseName(path) == MANIFEST
  }

  /** `path` below `root`, or nothing when it is not below it. */
  function StripRoot(root: string, path: string): Option<string> {
    if root == "" then Some(path)
    else if root + "/" <= path then Some(path[|root| + 1..])
    else None
  }

  function ResourceClass(root: string, path: string): Option<FileClass> {
    match StripRoot(root, path)
    case None => None
    case Some(relative) =>
      var slash := FirstIndex(relative, '/');
      if slash == |relative| then None
      else match relative[..slash]
        case "scripts" => Some(SkillScript)
        case "references" => Some(SkillReference)
        case "assets" => Some(SkillAsset)
        case _ => None
  }

  /** `Path::extension` of a base name, compared with `md`. */
  predicate IsMarkdown(name: string) {
    var dot := LastIndex(name, '.');
    dot > 0 && name[dot + 1..] == "md"
  }

  /** The walk of `owner_of`: the first indexed directory on the way up. */
  function OwnerFrom(roots: set<string>, directory: string): Option<string>
    decreases |directory|
  {
    if directory in roots then Some(directory)
    else if directory == "" then None
    else OwnerFrom(roots, Parent(directory))
  }

  function Owner(roots: set<string>, path: string): Option<string> {
    OwnerFrom(roots, Parent(path))
  }

  function Classify(roots: set<string>, path: string): Option<FileClass> {
    var owner := Owner(roots, path);
    if owner.Some? && ResourceClass(owner.value, path).Some? then ResourceClass(owner.value, path)
    else
      var name := BaseName(path);
      if name == "index.md" || name == "log.md" then Some(Reserved)
      else if name == MANIFEST then Some(SkillManifest)
      else if IsMarkdown(name) then Some(OkfDocument)
      else None
  }

  function PackageRelative(roots: set<string>, path: string): Option<string> {
    var owner := Owner(roots, path);
    if owner.Some? && ResourceClass(owner.value, path).Some? then StripRoot(owner.value, path) else None
  }

  // ----- What it means -----

  /** `path` lies strictly below the directory `dir`; the bundle root encloses everything. */
  predicate Encloses(dir: string, path: string) {
    dir == "" || (|dir| < |path| && path[..|dir|] == dir && path[|dir|] == '/')
  }

  predicate AtOrBelow(dir: string, other: string) {
    dir == other || Encloses(dir, other)
  }

  function Child(dir: string, name: string): string {
    if dir == "" then name else dir + "/" + name
  }

  const RESOURCE_DIRECTORIES: set<string> := {"scripts", "references", "assets"}

  /** `dir` lies at or below a resource directory of `root`. */
  predicate InResources(root: string, dir: string) {
    exists name :: name in RESOURCE_DIRECTORIES && AtOrBelow(Child(root, name), dir)
  }

  ghost predicate Given(paths: set<string>, dir: string) {
    exists p :: p in paths && IsManifest(p) && Parent(p) == dir
  }

  /**
   * The recursive meaning of a package root: its manifest is given, and it
   * does not lie at or below a resource directory of another root.
   */
  ghost predicate IsRoot(paths: set<string>, dir: string)
    decreases |dir|
  {
    && Given(paths, dir)
    && forall k :: 0 <= k < |dir| && InResources(dir[..k], dir) ==> !IsRoot(paths, dir[..k])
  }

  ghost function RootSet(paths: set<string>): set<string> {
    set p | p in paths && IsManifest(p) && IsRoot(paths, Parent(p)) :: Parent(p)
  }

  lemma InRootSet(paths: set<string>, dir: string)
    ensures dir in RootSet(paths) <==> IsRoot(paths, dir)
  {
  }

  // ----- Facts about enclosing directories -----

  lemma InResourcesIsLonger(root: string, dir: string)
    requires InResources(root, dir)
    ensures |root| < |dir| && dir[..|root|] == root
  {
  }

  /** The directories above a path are its parent and those above that. */
  lemma EnclosesViaParent(dir: string, path: string)
    requires dir != ""
    ensures Encloses(dir, path) <==> AtOrBelow(dir, Parent(path))
  {
  }

  predicate UnderName(root: string, path: string, name: string) {
    var r := StripRoot(root, path);
    r.Some? && FirstIndex(r.value, '/') < |r.value| && r.value[..FirstIndex(r.value, '/')] == name
  }

  lemma ResourceClassNames(root: string, path: string)
    ensures ResourceClass(root, path).Some?
        <==> UnderName(root, path, "scripts") || UnderName(root, path, "references") || UnderName(root, path, "assets")
  {
  }

  lemma UnderNameMeans(root: string, path: string, name: string)
    requires name in RESOURCE_DIRECTORIES
    ensures UnderName(root, path, name) <==> AtOrBelow(Child(root, name), Parent(path))
  {
    EnclosesViaParent(Child(root, name), path);
    if StripRoot(root, path).Some? {
      BelowChild(root, name, path, StripRoot(root, path).value);
    }
  }

  /** The string tests of `resource_class` say: below a resource directory. */
  lemma ResourceClassMeans(root: string, path: string)
    ensures ResourceClass(root, path).Some? <==> InResources(root, Parent(path))
  {
    ResourceClassNames(root, path);
    UnderNameMeans(root, path, "scripts");
    UnderNameMeans(root, path, "references");
    UnderNameMeans(root, path, "assets");
  }

  lemma BelowChild(root: string, name: string, path: string, relative: string)
    requires '/' !in name && name != ""
    requires StripRoot(root, path) == Some(relative)
    ensures var slash := FirstIndex(relative, '/');
            Encloses(Child(root, name), path) <==> slash < |relative| && relative[..slash] == name
  {
    hide FirstIndex;
    var child := Child(root, name);
    var base := |child| - |name|;
    assert path == child[..base] + relative by {
      if root != "" {
        assert child[..base] == root + "/";
      }
    }
    assert child == child[..base] + name;
    BelowName(child[..base], name, relative);
  }

  /** The first segment is `name` exactly when `name` and a slash come first. */
  lemma BelowName(above: string, name: string, relative: string)
    requires '/' !in name && name != ""
    ensures var slash := FirstIndex(relative, '/');
            Encloses(above + name, above + relative) <==> slash < |relative| && relative[..slash] == name
  {
    hide FirstIndex;
    var n := |name|;
    FirstSegment(name, relative);
    var path := above + relative;
    if n < |relative| {
      SamePrefix(above, name, relative);
      assert path[|above| + n] == relative[n];
    }
  }

  lemma SamePrefix(above: string, name: string, relative: string)
    requires |name| <= |relative|
    ensures (above + relative)[..|above| + |name|] == above + name <==> relative[..|name|] == name
  {
    var start := (above + relative)[..|above| + |name|];
    assert start == above + relative[..|name|];
    assert start[|above|..] == relative[..|name|];
    assert (above + name)[|above|..] == name;
  }

  lemma FirstSegment(name: string, relative: string)
    requires '/' !in name
    ensures var slash := FirstIndex(relative, '/');
            (slash < |relative| && relative[..slash] == name)
            <==> (|name| < |relative| && relative[..|name|] == name && relative[|name|] == '/')
  {
    hide FirstIndex;
    var slash := FirstIndex(relative, '/');
    if |name| < |relative| && relative[..|name|] == name && relative[|name|] == '/' {
      assert forall j :: 0 <= j < |name| ==> relative[j] == name[j];
      assert slash == |name|;
    }
  }

  /** The walk finds the longest indexed directory that encloses the path. */
  lemma {:induction false} WalkFindsNearest(roots: set<string>, directory: string)
    ensures match OwnerFrom(roots, directory)
            case Some(r) => r in roots && (r == "" || AtOrBelow(r, directory))
              && (forall other :: other in roots && (other == "" || AtOrBelow(other, directory)) ==> |other| <= |r|)
            case None => forall other :: other in roots ==> other != "" && !AtOrBelow(other, directory)
    decreases |directory|
  {
    if directory !in roots && directory != "" {
      WalkFindsNearest(roots, Parent(directory));
      forall other | other in roots && other != ""
        ensures AtOrBelow(other, directory) <==> AtOrBelow(other, Parent(directory))
      {
        EnclosesViaParent(other, directory);
      }
    }
  }

  /** `owner_of` is the nearest enclosing package, and nothing outside every package. */
  lemma OwnerIsNearest(roots: set<string>, path: string)
    ensures match Owner(roots, path)
            case Some(r) => r in roots && Encloses(r, path)
              && (forall other :: other in roots && Encloses(other, path) ==> |other| <= |r|)
            case None => forall other :: other in roots ==> !Encloses(other, path)
  {
    WalkFindsNearest(roots, Parent(path));
    forall other | other in roots && other != ""
      ensures Encloses(other, path) <==> AtOrBelow(other, Parent(path))
    {
      EnclosesViaParent(other, path);
    }
  }

  // ----- Roots -----

  /** No indexed package lies among the resources of another. */
  ghost predicate Clean(roots: set<string>) {
    forall r, d :: r in roots && d in roots ==> !InResources(r, d)
  }

  /** The equation that says what the roots of `paths` are. */
  ghost predicate SolvesRoots(paths: set<string>, roots: set<string>) {
    forall d :: d in roots <==> Given(paths, d) && !exists r :: r in roots && InResources(r, d)
  }

  /** The equation has exactly one solution, so "the package roots" is well defined. */
  lemma RootsAreUnique(paths: set<string>, roots: set<string>)
    ensures SolvesRoots(paths, roots) <==> roots == RootSet(paths)
  {
    if SolvesRoots(paths, roots) {
      forall d ensures d in roots <==> d in RootSet(paths) {
        SolutionAt(paths, roots, d);
        InRootSet(paths, d);
      }
    } else {
      RootSetSolves(paths);
    }
  }

  lemma RootSetSolves(paths: set<string>)
    ensures SolvesRoots(paths, RootSet(paths))
  {
    hide InResources, IsManifest, Parent;
    var roots := RootSet(paths);
    forall d ensures d in roots <==> Given(paths, d) && !exists r :: r in roots && InResources(r, d) {
      InRootSet(paths, d);
      forall r | InResources(r, d) ensures |r| < |d| && r == d[..|r|] {
        InResourcesIsLonger(r, d);
      }
      forall k | 0 <= k < |d| ensures d[..k] in roots <==> IsRoot(paths, d[..k]) {
        InRootSet(paths, d[..k]);
      }
    }
  }

  lemma {:induction false} SolutionAt(paths: set<string>, roots: set<string>, d: string)
    requires SolvesRoots(paths, roots)
    ensures d in roots <==> IsRoot(paths, d)
    decreases |d|
  {
    forall k | 0 <= k < |d| ensures d[..k] in roots <==> IsRoot(paths, d[..k]) {
      SolutionAt(paths, roots, d[..k]);
    }
    forall r | r in roots && InResources(r, d) ensures |r| < |d| && r == d[..|r|] {
      InResourcesIsLonger(r, d);
    }
  }

  lemma RootSetClean(paths: set<string>)
    ensures Clean(RootSet(paths))
  {
    RootSetSolves(paths);
  }

  /** A directory between a root and one of its resources is itself among those resources. */
  lemma BetweenRootAndResource(root: string, between: string, path: string)
    requires InResources(root, Parent(path))
    requires Encloses(between, path) && |root| < |between|
    ensures InResources(root, between)
  {
    var name :| name in RESOURCE_DIRECTORIES && AtOrBelow(Child(root, name), Parent(path));
    hide AtOrBelow, Child, Encloses, Parent;
    ResourceNames(root, name);
    EnclosesViaParent(Child(root, name), path);
    BetweenRootAndChild(root, name, between, path);
  }

  lemma ResourceNames(root: string, name: string)
    requires name in RESOURCE_DIRECTORIES
    ensures '/' !in name && Child(root, name) != ""
  {
  }

  lemma BetweenRootAndChild(root: string, name: string, between: string, path: string)
    requires '/' !in name && Encloses(Child(root, name), path)
    requires Encloses(between, path) && |root| < |between|
    ensures AtOrBelow(Child(root, name), between)
  {
    var child := Child(root, name);
    var base := |child| - |name|;
    assert forall i :: base <= i < |child| ==> path[i] == child[i] == name[i - base];
    assert |child| <= |between|;
    assert between[..|child|] == path[..|child|] == child;
  }

  lemma ResourcesAreEnclosed(root: string, path: string)
    requires InResources(root, Parent(path))
    ensures Encloses(root, path)
  {
    var name :| name in RESOURCE_DIRECTORIES && AtOrBelow(Child(root, name), Parent(path));
    hide Parent;
    var child := Child(root, name);
    EnclosesViaParent(child, path);
    if root != "" {
      assert path[..|root|] == child[..|root|];
      assert path[|root|] == child[|root|];
    }
  }

  /** Asking only the nearest package is asking them all. */
  lemma NearestDecides(roots: set<string>, path: string)
    requires Clean(roots)
    ensures Owner(roots, path).Some? && ResourceClass(Owner(roots, path).value, path).Some?
        <==> exists r :: r in roots && InResources(r, Parent(path))
    ensures forall r :: r in roots && InResources(r, Parent(path)) ==> Owner(roots, path) == Some(r)
  {
    hide InResources, ResourceClass, Parent;
    OwnerIsNearest(roots, path);
    var owner := Owner(roots, path);
    if owner.Some? {
      ResourceClassMeans(owner.value, path);
    }
    forall r | r in roots && InResources(r, Parent(path)) ensures owner == Some(r) {
      ResourcesAreEnclosed(r, path);
      if |r| < |owner.value| {
        BetweenRootAndResource(r, owner.value, path);
      }
      assert owner.value == "" || owner.value == path[..|owner.value|];
    }
  }

  // ----- The index, built in place -----

  predicate ShorterFirst(a: string, b: string) {
    |a| < |b| || (|a| == |b| && LexLe(a, b))
  }

  lemma ShorterFirstIsTotal()
    ensures Sorting.TotalPreorder(ShorterFirst)
  {
    forall a, b ensures ShorterFirst(a, b) || ShorterFirst(b, a) {
      LexTotal(a, b);
    }
    forall a, b, c | ShorterFirst(a, b) && ShorterFirst(b, c) ensures ShorterFirst(a, c) {
      if |a| == |b| == |c| {
        LexTransitive(a, b, c);
      }
    }
  }

  class PackageIndex {
    var roots: set<string>

    constructor ()
      ensures roots == {}
    {
      roots := {};
    }

    /** The root of the nearest package that encloses `path`. */
    method OwnerOf(path: string) returns (owner: Option<string>)
      ensures owner == Owner(roots, path)
    {
      var directory := Parent(path);
      while true
        invariant OwnerFrom(roots, directory) == Owner(roots, path)
        decreases |directory|
      {
        if directory in roots {
          return Some(directory);
        }
        if directory == "" {
          return None;
        }
        directory := Parent(directory);
      }
    }

    /** Register the package a manifest declares, unless it is another's resource. */
    method InsertManifest(path: string) returns (isNew: bool)
      modifies this
      ensures isNew <==> && IsManifest(path)
                         && (Owner(old(roots), path).Some? ==>
                               !InResources(Owner(old(roots), path).value, Parent(path)))
      ensures Clean(old(roots)) ==>
                (isNew <==> IsManifest(path) && !exists r :: r in old(roots) && InResources(r, Parent(path)))
      ensures roots == old(roots) + (if isNew then {Parent(path)} else {})
    {
      if !IsManifest(path) {
        return false;
      }
      if Clean(roots) {
        NearestDecides(roots, path);
      }
      var owner := OwnerOf(path);
      if owner.Some? {
        ResourceClassMeans(owner.value, path);
      }
      if owner.Some? && ResourceClass(owner.value, path).Some? {
        return false;
      }
      roots := roots + {Parent(path)};
      return true;
    }
  }

  method KeepManifests(paths: seq<string>) returns (manifests: seq<string>)
    ensures forall p :: p in manifests <==> p in paths && IsManifest(p)
  {
    manifests := [];
    for n := 0 to |paths|
      invariant forall p :: p in manifests <==> p in paths[..n] && IsManifest(p)
    {
      if IsManifest(paths[n]) {
        manifests := manifests + [paths[n]];
      }
    }
  }

  /** What has been decided once the first `n` manifests are in. */
  ghost predicate Decided(sorted: seq<string>, n: nat, roots: set<string>)
    requires n <= |sorted|
  {
    && Clean(roots)
    && (forall d :: d in roots ==> exists i :: 0 <= i < n && Parent(sorted[i]) == d)
    && (forall i :: 0 <= i < n && Parent(sorted[i]) !in roots ==>
          exists r :: r in roots && InResources(r, Parent(sorted[i])))
  }

  /** Index the packages a list of paths declares, in any order and with repetitions. */
  method FromPaths(paths: seq<string>) returns (index: PackageIndex)
    ensures fresh(index)
    ensures index.roots == RootSet(set p | p in paths)
  {
    hide InResources, IsManifest, Parent, IsRoot, RootSet, Decided, Clean;
    var manifests := KeepManifests(paths);
    ShorterFirstIsTotal();
    var sorted := Sorting.Sort(manifests, ShorterFirst);
    assert forall p :: p in sorted <==> p in multiset(manifests);
    index := new PackageIndex();
    NothingDecided(sorted);
    for n := 0 to |sorted|
      invariant fresh(index)
      invariant Decided(sorted, n, index.roots)
    {
      DecidedIsClean(sorted, n, index.roots);
      DecideNext(sorted, n, index.roots);
      ghost var before := index.roots;
      var isNew := index.InsertManifest(sorted[n]);
      assert !isNew ==> index.roots == before;
    }
    AllDecided(sorted, index.roots, set p | p in paths);
  }

  lemma NothingDecided(sorted: seq<string>)
    ensures Decided(sorted, 0, {})
  {
  }

  lemma DecidedIsClean(sorted: seq<string>, n: nat, roots: set<string>)
    requires n <= |sorted| && Decided(sorted, n, roots)
    ensures Clean(roots)
  {
  }

  lemma DecideNext(sorted: seq<string>, n: nat, roots: set<string>)
    requires n < |sorted| && Sorting.SortedBy(sorted, ShorterFirst)
    requires forall p :: p in sorted ==> IsManifest(p)
    requires Decided(sorted, n, roots)
    ensures IsManifest(sorted[n])
    ensures (exists r :: r in roots && InResources(r, Parent(sorted[n]))) ==> Decided(sorted, n + 1, roots)
    ensures (!exists r :: r in roots && InResources(r, Parent(sorted[n]))) ==>
              Decided(sorted, n + 1, roots + {Parent(sorted[n])})
  {
    hide InResources, IsManifest, Parent, ShorterFirst;
    assert sorted[n] in sorted;
    ShortRootsStayClean(roots, sorted, n);
  }

  lemma AllDecided(sorted: seq<string>, roots: set<string>, paths: set<string>)
    requires Decided(sorted, |sorted|, roots)
    requires forall p :: p in sorted <==> p in paths && IsManifest(p)
    ensures roots == RootSet(paths)
  {
    hide InResources, IsManifest, Parent, RootSet, Clean;
    forall d ensures Given(paths, d) <==> exists i :: 0 <= i < |sorted| && Parent(sorted[i]) == d {
      if Given(paths, d) {
        var p :| p in paths && IsManifest(p) && Parent(p) == d;
        assert p in sorted;
      }
    }
    forall r, d | r in roots && d in roots ensures !InResources(r, d) {
      CleanPair(roots, r, d);
    }
    RootsAreUnique(paths, roots);
  }

  lemma CleanPair(roots: set<string>, r: string, d: string)
    requires Clean(roots) && r in roots && d in roots
    ensures !InResources(r, d)
  {
  }

  /** Taking manifests shortest first, a new root never swallows an earlier one. */
  lemma ShortRootsStayClean(roots: set<string>, sorted: seq<string>, n: nat)
    requires n < |sorted| && Sorting.SortedBy(sorted, ShorterFirst)
    requires forall p :: p in sorted ==> IsManifest(p)
    requires Clean(roots)
    requires forall d :: d in roots ==> exists i :: 0 <= i < n && Parent(sorted[i]) == d
    ensures (forall r :: r in roots ==> !InResources(r, Parent(sorted[n]))) ==> Clean(roots + {Parent(sorted[n])})
  {
    hide InResources, Parent, IsManifest;
    var dir := Parent(sorted[n]);
    forall d | d in roots + {dir} ensures !InResources(dir, d) {
      if InResources(dir, d) {
        InResourcesIsLonger(dir, d);
        if d != dir {
          var i :| 0 <= i < n && Parent(sorted[i]) == d;
          ManifestLength(sorted[i]);
          ManifestLength(sorted[n]);
        }
      }
    }
  }

  lemma ManifestLength(path: string)
    requires IsManifest(path)
    ensures |Parent(path)| == if |path| <= 8 then 0 else |path| - 9
  {
  }

  // ----- What the index promises -----

  /** A given manifest is a manifest where it opened a package, and a resource elsewhere. */
  lemma ManifestsClassify(paths: set<string>, path: string)
    requires path in paths && IsManifest(path)
    ensures Classify(RootSet(paths), path).Some?
    ensures Parent(path) in RootSet(paths) <==> Classify(RootSet(paths), path) == Some(SkillManifest)
    ensures Parent(path) !in RootSet(paths) <==> Classify(RootSet(paths), path).value.IsResource()
  {
    RootSetClean(paths);
    NearestDecides(RootSet(paths), path);
    RootSetSolves(paths);
    assert Given(paths, Parent(path));
    ManifestClass(RootSet(paths), path);
  }

  lemma ManifestClass(roots: set<string>, path: string)
    requires IsManifest(path)
    ensures var owner := Owner(roots, path);
            if owner.Some? && ResourceClass(owner.value, path).Some?
            then Classify(roots, path) == ResourceClass(owner.value, path) && ResourceClass(owner.value, path).value.IsResource()
            else Classify(roots, path) == Some(SkillManifest)
  {
    hide Owner, InResources;
    assert MANIFEST[0] != "index.md"[0] && MANIFEST[0] != "log.md"[0];
  }

  /** A manifest committed among a package's resources changes no owner and no class. */
  lemma NestedManifestChangesNothing(paths: set<string>, path: string, root: string)
    requires IsManifest(path) && root in RootSet(paths) && InResources(root, Parent(path))
    ensures RootSet(paths + {path}) == RootSet(paths)
    ensures forall p :: Owner(RootSet(paths + {path}), p) == Owner(RootSet(paths), p)
    ensures forall p :: Classify(RootSet(paths + {path}), p) == Classify(RootSet(paths), p)
  {
    hide InResources, RootSet, Parent, IsManifest, Owner, Classify;
    RootSetSolves(paths);
    forall d | d != Parent(path) ensures Given(paths + {path}, d) <==> Given(paths, d) {
      if Given(paths, d) {
        var p :| p in paths && IsManifest(p) && Parent(p) == d;
        assert p in paths + {path};
      }
    }
    RootsAreUnique(paths + {path}, RootSet(paths));
  }

  /** A path has a package-relative form exactly when it is a resource, and its owner and that form make the path. */
  lemma PackageRelativeMeans(roots: set<string>, path: string)
    ensures PackageRelative(roots, path).Some? <==> Classify(roots, path).Some? && Classify(roots, path).value.IsResource()
    ensures PackageRelative(roots, path).Some? ==>
      Owner(roots, path).Some? && Child(Owner(roots, path).value, PackageRelative(roots, path).value) == path
  {
    hide Owner, IsMarkdown, BaseName;
    var owner := Owner(roots, path);
    if owner.Some? && owner.value != "" && ResourceClass(owner.value, path).Some? {
      assert path == owner.value + "/" + path[|owner.value| + 1..];
    }
  }

  lemma OwnerOfDirectory(roots: set<string>, p: string, q: string)
    requires Parent(p) == Parent(q)
    ensures Owner(roots, p) == Owner(roots, q)
  {
  }

  /** Owner and resource directory depend on the directory alone. */
  lemma SameDirectorySameResource(roots: set<string>, p: string, q: string)
    requires Parent(p) == Parent(q)
    requires Classify(roots, p).Some? && Classify(roots, p).value.IsResource()
    ensures Classify(roots, q).Some? && Classify(roots, q).value.IsResource()
  {
    hide Owner, InResources, IsMarkdown;
    var owner := Owner(roots, p);
    assert owner == Owner(roots, q) by { OwnerOfDirectory(roots, p, q); }
    ResourceClassMeans(owner.value, p);
    ResourceClassMeans(owner.value, q);
  }

  /** Under one index no two classified concepts share an id. */
  lemma ConceptIdsAreDistinct(roots: set<string>, p: string, q: string)
    requires p != q
    requires Classify(roots, p).Some? && !Classify(roots, p).value.Reserved?
    requires Classify(roots, q).Some? && !Classify(roots, q).value.Reserved?
    ensures Classify(roots, p).value.ConceptId(p) != Classify(roots, q).value.ConceptId(q)
  {
    hide Classify;
    var ofP, ofQ := Classify(roots, p).value, Classify(roots, q).value;
    if !ofP.IsResource() {
      DocumentsEndInMd(roots, p);
      assert p == p[..|p| - 3] + ".md";
    }
    if !ofQ.IsResource() {
      DocumentsEndInMd(roots, q);
      assert q == q[..|q| - 3] + ".md";
    }
    if ofP.IsResource() && q == p + ".md" {
      SameParentWithSuffix(p);
      SameDirectorySameResource(roots, p, q);
    }
    if ofQ.IsResource() && p == q + ".md" {
      SameParentWithSuffix(q);
      SameDirectorySameResource(roots, q, p);
    }
  }

  lemma SameParentWithSuffix(path: string)
    ensures Parent(path + ".md") == Parent(path)
  {
    var t := path + ".md";
    var i, j := LastIndex(path, '/'), LastIndex(t, '/');
    assert t[|path|] == '.' && t[|path| + 1] == 'm' && t[|path| + 2] == 'd';
    assert j < |path|;
    assert j >= 0 ==> path[j] == '/';
    assert i >= 0 ==> t[i] == '/';
    assert i == j;
    assert i >= 0 ==> t[..i] == path[..i];
  }

  lemma NamesEndInMd(name: string)
    requires name == "index.md" || name == "log.md" || name == MANIFEST || IsMarkdown(name)
    ensures HasSuffix(name, ".md")
  {
    if IsMarkdown(name) {
      var dot := LastIndex(name, '.');
      assert name[dot..] == ['.'] + name[dot + 1..];
    }
  }

  lemma DocumentsEndInMd(roots: set<string>, path: string)
    requires Classify(roots, path).Some? && !Classify(roots, path).value.IsResource()
    ensures HasSuffix(path, ".md")
  {
    hide Owner, IsMarkdown;
    var name := BaseName(path);
    NamesEndInMd(name);
    assert path[|path| - 3..] == name[|name| - 3..];
  }
}
