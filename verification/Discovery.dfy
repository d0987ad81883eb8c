/**
 * Discovery of a bundle's catalog content: two walks of one directory tree,
 * the first to find the packages, the second to take the candidate files,
 * stopping at the first escaping link or exceeded limit.
 */
module Discovery {
  import opened Text
  import Packages

  const U64_MAX: nat := 0xFFFF_FFFF_FFFF_FFFF

  /** Where a link's fully resolved target lies. */
  datatype LinkTarget = Inside | Outside | Dangling | Unresolvable

  datatype Kind =
    | Directory
    | Symlink(to: LinkTarget)
    | File(size: nat, hash: string, readable: bool)

  datatype Entry = Entry(path: string, kind: Kind)

  /** Include and exclude globs as predicates, and the optional ceilings. */
  datatype Config = Config(
    includeAll: bool,
    includes: string -> bool,
    excludes: string -> bool,
    maxFiles: Option<nat>,
    maxFileBytes: Option<nat>,
    maxTotalBytes: Option<nat>)

  datatype FileMetadata = FileMetadata(hash: string, size: nat, kind: Packages.FileClass)

  datatype SyncError = SymlinkEscape | Unreadable | TooManyFiles | FileTooLarge | BundleTooLarge
  datatype SyncResult = Snapshot(files: map<string, FileMetadata>) | Failed(error: SyncError)

  predicate SelectedByGlobs(config: Config, path: string) {
    (config.includeAll || config.includes(path)) && !config.excludes(path)
  }

  /** `CandidateRules::classify`. */
  function CandidateClass(config: Config, roots: set<string>, path: string): Option<Packages.FileClass> {
    if config.excludes(path) then None
    else
      var found := Packages.Classify(roots, path);
      if found.Some? && (found.value.IsResource() || config.includeAll || config.includes(path)) then found
      else None
  }

  // ----- What discovery should find -----

  predicate Candidate(config: Config, roots: set<string>, e: Entry) {
    e.kind.File? && CandidateClass(config, roots, e.path).Some?
  }

  predicate Escapes(config: Config, roots: set<string>, e: Entry) {
    && e.kind.Symlink? && (e.kind.to.Outside? || e.kind.to.Unresolvable?)
    && CandidateClass(config, roots, e.path).Some?
  }

  /** The size is asked before the file is read. */
  predicate WithinSize(config: Config, e: Entry)
    requires e.kind.File?
  {
    config.maxFileBytes.Some? ==> e.kind.size <= config.maxFileBytes.value
  }

  predicate Unfit(config: Config, roots: set<string>, e: Entry) {
    && Candidate(config, roots, e)
    && (!e.kind.readable || (config.maxFileBytes.Some? && e.kind.size > config.maxFileBytes.value))
  }

  function Count(config: Config, roots: set<string>, entries: seq<Entry>): nat {
    if entries == [] then 0
    else
      Count(config, roots, entries[..|entries| - 1])
      + (if Candidate(config, roots, entries[|entries| - 1]) then 1 else 0)
  }

  function TotalSize(config: Config, roots: set<string>, entries: seq<Entry>): nat {
    if entries == [] then 0
    else
      var last := entries[|entries| - 1];
      TotalSize(config, roots, entries[..|entries| - 1])
      + (if Candidate(config, roots, last) then last.kind.size else 0)
  }

  /**
   * Nothing stands in the way: no candidate link escapes, every candidate can
   * be read within its size limit, and their number and their true total size
   * are within theirs. A total limit of 2^64-1 is no limit, because the tally
   * saturates there.
   */
  ghost predicate Acceptable(config: Config, roots: set<string>, entries: seq<Entry>) {
    && (forall e :: e in entries ==> !Escapes(config, roots, e) && !Unfit(config, roots, e))
    && (config.maxFiles.Some? ==> Count(config, roots, entries) <= config.maxFiles.value)
    && (config.maxTotalBytes.Some? ==>
          TotalSize(config, roots, entries) <= config.maxTotalBytes.value || config.maxTotalBytes.value >= U64_MAX)
  }

  /** What each refusal says about the tree. */
  ghost predicate Justifies(config: Config, roots: set<string>, entries: seq<Entry>, error: SyncError) {
    match error
    case SymlinkEscape =>
      exists e :: e in entries && Escapes(config, roots, e) && e.kind.to.Outside?
    case Unreadable =>
      || (exists e :: e in entries && Escapes(config, roots, e) && e.kind.to.Unresolvable?)
      || (exists e :: e in entries && Candidate(config, roots, e) && !e.kind.readable && WithinSize(config, e))
    case FileTooLarge =>
      exists e :: e in entries && Candidate(config, roots, e) && config.maxFileBytes.Some?
        && e.kind.size > config.maxFileBytes.value
    case TooManyFiles =>
      config.maxFiles.Some? && Count(config, roots, entries) > config.maxFiles.value
    case BundleTooLarge =>
      && config.maxTotalBytes.Some? && config.maxTotalBytes.value < U64_MAX
      && TotalSize(config, roots, entries) > config.maxTotalBytes.value
  }

  function Metadata(config: Config, roots: set<string>, e: Entry): FileMetadata
    requires Candidate(config, roots, e)
  {
    FileMetadata(e.kind.hash, e.kind.size, CandidateClass(config, roots, e.path).value)
  }

  /** `files` holds the candidates of `entries`, all of them and nothing else. */
  ghost predicate Holds(config: Config, roots: set<string>, entries: seq<Entry>, files: map<string, FileMetadata>) {
    && (forall e :: e in entries && Candidate(config, roots, e) ==>
          e.path in files && files[e.path] == Metadata(config, roots, e))
    && (forall p :: p in files ==> exists e :: e in entries && Candidate(config, roots, e) && e.path == p)
  }

  /** A walk lists every path of the tree once. */
  ghost predicate OnePerPath(entries: seq<Entry>) {
    forall i, j :: 0 <= i < j < |entries| ==> entries[i].path != entries[j].path
  }

  ghost function Manifests(config: Config, entries: seq<Entry>): set<string> {
    set e | e in entries && e.kind.File? && Packages.IsManifest(e.path) && SelectedByGlobs(config, e.path) :: e.path
  }

  ghost function Roots(config: Config, entries: seq<Entry>): set<string> {
    Packages.RootSet(Manifests(config, entries))
  }

  // ----- The two walks -----

  method LocatePackages(config: Config, walk: seq<Entry>) returns (roots: set<string>)
    ensures roots == Roots(config, walk)
  {
    hide Packages.IsManifest, SelectedByGlobs;
    var manifests: seq<string> := [];
    for n := 0 to |walk|
      invariant (set p | p in manifests) == Manifests(config, walk[..n])
    {
      ManifestsStep(config, walk, n);
      var e := walk[n];
      ghost var before := set p | p in manifests;
      if e.kind.File? && Packages.IsManifest(e.path) && SelectedByGlobs(config, e.path) {
        manifests := manifests + [e.path];
        assert (set p | p in manifests) == before + {e.path};
      }
    }
    assert walk[..|walk|] == walk;
    var index := Packages.FromPaths(manifests);
    roots := index.roots;
  }

  lemma ManifestsStep(config: Config, walk: seq<Entry>, n: nat)
    requires n < |walk|
    ensures var e := walk[n];
            Manifests(config, walk[..n + 1])
            == Manifests(config, walk[..n])
               + (if e.kind.File? && Packages.IsManifest(e.path) && SelectedByGlobs(config, e.path) then {e.path} else {})
  {
    hide Packages.IsManifest, SelectedByGlobs;
    assert walk[..n + 1] == walk[..n] + [walk[n]];
    assert walk[n] in walk[..n + 1];
    forall e | e in walk[..n] ensures e in walk[..n + 1] {
    }
  }

  /**
   * `discover`: it succeeds exactly when nothing stands in the way, and the
   * snapshot is then exactly the candidates.
   */
  method Discover(config: Config, first: seq<Entry>, walk: seq<Entry>) returns (result: SyncResult)
    requires OnePerPath(walk)
    ensures result.Snapshot? <==> Acceptable(config, Roots(config, first), walk)
    ensures result.Snapshot? ==> Holds(config, Roots(config, first), walk, result.files)
    ensures result.Failed? ==> Justifies(config, Roots(config, first), walk, result.error)
  {
    var roots := LocatePackages(config, first);
    hide Roots, CandidateClass, Scanned, Acceptable, Holds, OnePerPath, Justifies;
    var files: map<string, FileMetadata> := map[];
    var totalBytes: nat := 0;
    NothingScanned(config, roots, walk);
    for n := 0 to |walk|
      invariant Scanned(config, roots, walk[..n], files, totalBytes)
    {
      var e := walk[n];
      if e.kind.Symlink? {
        if CandidateClass(config, roots, e.path).Some? && (e.kind.to.Outside? || e.kind.to.Unresolvable?) {
          var error := if e.kind.to.Outside? then SymlinkEscape else Unreadable;
          Stop(config, roots, walk, n, files, totalBytes, error);
          return Failed(error);
        }
        Skip(config, roots, walk, n, files, totalBytes);
        continue;
      }
      if !e.kind.File? {
        Skip(config, roots, walk, n, files, totalBytes);
        continue;
      }
      var found := CandidateClass(config, roots, e.path);
      if found.None? {
        Skip(config, roots, walk, n, files, totalBytes);
        continue;
      }
      if config.maxFiles.Some? && |files| >= config.maxFiles.value {
        Stop(config, roots, walk, n, files, totalBytes, TooManyFiles);
        return Failed(TooManyFiles);
      }
      if config.maxFileBytes.Some? && e.kind.size > config.maxFileBytes.value {
        Stop(config, roots, walk, n, files, totalBytes, FileTooLarge);
        return Failed(FileTooLarge);
      }
      if !e.kind.readable {
        Stop(config, roots, walk, n, files, totalBytes, Unreadable);
        return Failed(Unreadable);
      }
      ghost var before: nat := totalBytes;
      if config.maxTotalBytes.Some? {
        totalBytes := SaturatingAdd(totalBytes, e.kind.size);
        if totalBytes > config.maxTotalBytes.value {
          Stop(config, roots, walk, n, files, before, BundleTooLarge);
          return Failed(BundleTooLarge);
        }
      }
      Take(config, roots, walk, n, files, before);
      files := files[e.path := FileMetadata(e.kind.hash, e.kind.size, found.value)];
    }
    assert walk[..|walk|] == walk;
    AllScanned(config, roots, walk, files, totalBytes);
    return Snapshot(files);
  }

  /** Where the second walk stands after a prefix it found nothing wrong with. */
  ghost predicate Scanned(config: Config, roots: set<string>, prefix: seq<Entry>,
                          files: map<string, FileMetadata>, totalBytes: nat)
  {
    && Holds(config, roots, prefix, files)
    && |files| == Count(config, roots, prefix)
    && (forall e :: e in prefix ==> !Escapes(config, roots, e) && !Unfit(config, roots, e))
    && (config.maxFiles.Some? ==> Count(config, roots, prefix) <= config.maxFiles.value)
    && (config.maxTotalBytes.Some? ==>
          && totalBytes == Saturated(TotalSize(config, roots, prefix))
          && totalBytes <= config.maxTotalBytes.value)
  }

  lemma NothingScanned(config: Config, roots: set<string>, walk: seq<Entry>)
    ensures Scanned(config, roots, walk[..0], map[], 0)
  {
  }

  lemma AllScanned(config: Config, roots: set<string>, walk: seq<Entry>,
                   files: map<string, FileMetadata>, totalBytes: nat)
    requires Scanned(config, roots, walk, files, totalBytes)
    ensures Acceptable(config, roots, walk) && Holds(config, roots, walk, files)
  {
  }

  /** An entry that is no candidate and no escaping link changes nothing. */
  lemma Skip(config: Config, roots: set<string>, walk: seq<Entry>, n: nat,
             files: map<string, FileMetadata>, totalBytes: nat)
    requires n < |walk| && Scanned(config, roots, walk[..n], files, totalBytes)
    requires !Candidate(config, roots, walk[n]) && !Escapes(config, roots, walk[n])
    ensures Scanned(config, roots, walk[..n + 1], files, totalBytes)
  {
    PrefixStep(config, roots, walk, n);
    hide Candidate, Escapes, Count, TotalSize;
  }

  /** A candidate within every limit is taken. */
  lemma Take(config: Config, roots: set<string>, walk: seq<Entry>, n: nat,
             files: map<string, FileMetadata>, totalBytes: nat)
    requires n < |walk| && OnePerPath(walk) && Scanned(config, roots, walk[..n], files, totalBytes)
    requires Candidate(config, roots, walk[n]) && !Unfit(config, roots, walk[n])
    requires config.maxFiles.Some? ==> |files| < config.maxFiles.value
    requires config.maxTotalBytes.Some? ==>
               SaturatingAdd(totalBytes, walk[n].kind.size) <= config.maxTotalBytes.value
    ensures Scanned(config, roots, walk[..n + 1], files[walk[n].path := Metadata(config, roots, walk[n])],
                    if config.maxTotalBytes.Some? then SaturatingAdd(totalBytes, walk[n].kind.size) else totalBytes)
  {
    hide CandidateClass, Unfit, Count, TotalSize, Holds, OnePerPath, Metadata;
    PrefixStep(config, roots, walk, n);
    NewPath(config, roots, walk, n, files);
    HoldsOneMore(config, roots, walk, n, files);
    assert !Escapes(config, roots, walk[n]);
    hide Escapes, Candidate;
  }

  lemma HoldsOneMore(config: Config, roots: set<string>, walk: seq<Entry>, n: nat, files: map<string, FileMetadata>)
    requires n < |walk| && OnePerPath(walk) && Holds(config, roots, walk[..n], files)
    requires Candidate(config, roots, walk[n])
    ensures Holds(config, roots, walk[..n + 1], files[walk[n].path := Metadata(config, roots, walk[n])])
  {
    hide CandidateClass;
    NewPath(config, roots, walk, n, files);
    var e := walk[n];
    assert walk[..n + 1] == walk[..n] + [e];
    var files' := files[e.path := Metadata(config, roots, e)];
    forall x | x in walk[..n + 1] && Candidate(config, roots, x)
      ensures x.path in files' && files'[x.path] == Metadata(config, roots, x)
    {
      if x != e {
        assert x in walk[..n];
      }
    }
    forall p | p in files' ensures exists x :: x in walk[..n + 1] && Candidate(config, roots, x) && x.path == p {
      if p == e.path {
        assert e in walk[..n + 1];
      } else {
        var x :| x in walk[..n] && Candidate(config, roots, x) && x.path == p;
        assert x in walk[..n + 1];
      }
    }
  }

  /** The guard of each early exit. */
  ghost predicate StopsWith(config: Config, roots: set<string>, e: Entry, taken: nat, totalBytes: nat, error: SyncError) {
    match error
    case SymlinkEscape => Escapes(config, roots, e) && e.kind.to.Outside?
    case Unreadable =>
      || (Escapes(config, roots, e) && e.kind.to.Unresolvable?)
      || (Candidate(config, roots, e) && !e.kind.readable && WithinSize(config, e))
    case FileTooLarge =>
      Candidate(config, roots, e) && config.maxFileBytes.Some? && e.kind.size > config.maxFileBytes.value
    case TooManyFiles => Candidate(config, roots, e) && config.maxFiles.Some? && taken >= config.maxFiles.value
    case BundleTooLarge =>
      && Candidate(config, roots, e) && config.maxTotalBytes.Some?
      && SaturatingAdd(totalBytes, e.kind.size) > config.maxTotalBytes.value
  }

  /** Each early exit is taken only where the whole tree is unacceptable, and for that reason. */
  lemma Stop(config: Config, roots: set<string>, walk: seq<Entry>, n: nat,
             files: map<string, FileMetadata>, totalBytes: nat, error: SyncError)
    requires n < |walk| && Scanned(config, roots, walk[..n], files, totalBytes)
    requires StopsWith(config, roots, walk[n], |files|, totalBytes, error)
    ensures !Acceptable(config, roots, walk)
    ensures Justifies(config, roots, walk, error)
  {
    assert walk[n] in walk;
    PrefixStep(config, roots, walk, n);
    hide CandidateClass, Count, TotalSize, Holds;
    assert Justifies(config, roots, walk, error);
    assert error.SymlinkEscape? || (error.Unreadable? && walk[n].kind.Symlink?) ==> Escapes(config, roots, walk[n]);
    assert error.FileTooLarge? || (error.Unreadable? && walk[n].kind.File?) ==> Unfit(config, roots, walk[n]);
  }

  function SaturatingAdd(a: nat, b: nat): nat {
    if a + b > U64_MAX then U64_MAX else a + b
  }

  function Saturated(a: nat): nat {
    if a > U64_MAX then U64_MAX else a
  }

  /** Taking one more entry into the walked prefix. */
  lemma PrefixStep(config: Config, roots: set<string>, walk: seq<Entry>, n: nat)
    requires n < |walk|
    ensures walk[..n + 1] == walk[..n] + [walk[n]]
    ensures Count(config, roots, walk[..n + 1])
         == Count(config, roots, walk[..n]) + (if Candidate(config, roots, walk[n]) then 1 else 0)
    ensures TotalSize(config, roots, walk[..n + 1])
         == TotalSize(config, roots, walk[..n]) + (if Candidate(config, roots, walk[n]) then walk[n].kind.size else 0)
    ensures Count(config, roots, walk[..n + 1]) <= Count(config, roots, walk)
    ensures TotalSize(config, roots, walk[..n + 1]) <= TotalSize(config, roots, walk)
  {
    assert walk[..n + 1][..n] == walk[..n];
    PrefixIsSmaller(config, roots, walk, n + 1);
  }

  lemma {:induction false} PrefixIsSmaller(config: Config, roots: set<string>, walk: seq<Entry>, n: nat)
    requires n <= |walk|
    ensures Count(config, roots, walk[..n]) <= Count(config, roots, walk)
    ensures TotalSize(config, roots, walk[..n]) <= TotalSize(config, roots, walk)
    decreases |walk| - n
  {
    if n < |walk| {
      PrefixIsSmaller(config, roots, walk, n + 1);
      assert walk[..n + 1][..n] == walk[..n];
    } else {
      assert walk[..n] == walk;
    }
  }

  lemma NewPath(config: Config, roots: set<string>, walk: seq<Entry>, n: nat, files: map<string, FileMetadata>)
    requires n < |walk| && OnePerPath(walk) && Holds(config, roots, walk[..n], files)
    ensures walk[n].path !in files
  {
    forall e | e in walk[..n] ensures e.path != walk[n].path {
      var i :| 0 <= i < n && walk[i] == e;
    }
  }

  // ----- Walk order does not matter -----

  lemma LastEntry(config: Config, roots: set<string>, walk: seq<Entry>)
    requires walk != []
    ensures var init, last := walk[..|walk| - 1], walk[|walk| - 1];
            && Count(config, roots, walk)
               == Count(config, roots, init) + (if Candidate(config, roots, last) then 1 else 0)
            && TotalSize(config, roots, walk)
               == TotalSize(config, roots, init) + (if Candidate(config, roots, last) then last.kind.size else 0)
  {
    hide CandidateClass;
  }

  lemma {:induction false} TakeOut(config: Config, roots: set<string>, walk: seq<Entry>, k: nat)
    requires k < |walk|
    ensures var rest := walk[..k] + walk[k + 1..];
            && Count(config, roots, walk)
               == Count(config, roots, rest) + (if Candidate(config, roots, walk[k]) then 1 else 0)
            && TotalSize(config, roots, walk)
               == TotalSize(config, roots, rest) + (if Candidate(config, roots, walk[k]) then walk[k].kind.size else 0)
    decreases |walk|
  {
    hide CandidateClass, Count, TotalSize;
    var rest := walk[..k] + walk[k + 1..];
    LastEntry(config, roots, walk);
    if k + 1 == |walk| {
      assert rest == walk[..k];
    } else {
      var init := walk[..|walk| - 1];
      TakeOut(config, roots, init, k);
      LastEntry(config, roots, rest);
      assert init[..k] + init[k + 1..] == rest[..|rest| - 1];
      assert rest[|rest| - 1] == walk[|walk| - 1];
    }
  }

  lemma WhereFirst(a: seq<Entry>, b: seq<Entry>) returns (k: nat)
    requires a != [] && multiset(a) == multiset(b)
    ensures k < |b| && b[k] == a[0]
    ensures multiset(a[1..]) == multiset(b[..k] + b[k + 1..])
  {
    assert a[0] in multiset(b);
    k :| 0 <= k < |b| && b[k] == a[0];
    assert a == [a[0]] + a[1..];
    assert b == b[..k] + [b[k]] + b[k + 1..];
    assert multiset(b) == multiset(b[..k]) + multiset{b[k]} + multiset(b[k + 1..]);
    assert multiset(a[1..]) == multiset(a) - multiset{a[0]};
  }

  lemma {:induction false} CountsIgnoreOrder(config: Config, roots: set<string>, a: seq<Entry>, b: seq<Entry>)
    requires multiset(a) == multiset(b)
    ensures Count(config, roots, a) == Count(config, roots, b)
    ensures TotalSize(config, roots, a) == TotalSize(config, roots, b)
    decreases |a|
  {
    hide Candidate;
    assert |a| == |multiset(a)| == |multiset(b)| == |b|;
    if a != [] {
      var k := WhereFirst(a, b);
      TakeOut(config, roots, a, 0);
      TakeOut(config, roots, b, k);
      assert a[..0] + a[1..] == a[1..];
      CountsIgnoreOrder(config, roots, a[1..], b[..k] + b[k + 1..]);
    }
  }

  /** Whatever order the directories are read in, discovery succeeds or fails alike. */
  lemma OrderDoesNotMatter(config: Config, first: seq<Entry>, first': seq<Entry>, walk: seq<Entry>, walk': seq<Entry>)
    requires multiset(first) == multiset(first') && multiset(walk) == multiset(walk')
    ensures Roots(config, first) == Roots(config, first')
    ensures Acceptable(config, Roots(config, first), walk) <==> Acceptable(config, Roots(config, first'), walk')
    ensures forall files :: Holds(config, Roots(config, first), walk, files)
                       <==> Holds(config, Roots(config, first'), walk', files)
  {
    assert forall e :: e in first <==> e in multiset(first);
    assert forall e :: e in first' <==> e in multiset(first');
    assert Manifests(config, first) == Manifests(config, first');
    assert forall e :: e in walk <==> e in multiset(walk);
    assert forall e :: e in walk' <==> e in multiset(walk');
    hide Roots, Manifests, CandidateClass, Unfit, Escapes;
    CountsIgnoreOrder(config, Roots(config, first), walk, walk');
  }

  /** A snapshot is determined by the tree: no two maps hold the same candidates. */
  lemma SnapshotIsUnique(config: Config, roots: set<string>, walk: seq<Entry>,
                         a: map<string, FileMetadata>, b: map<string, FileMetadata>)
    requires Holds(config, roots, walk, a) && Holds(config, roots, walk, b)
    ensures a == b
  {
    hide CandidateClass;
    forall p ensures p in a <==> p in b {
      if p in a {
        var e :| e in walk && Candidate(config, roots, e) && e.path == p;
      }
      if p in b {
        var e :| e in walk && Candidate(config, roots, e) && e.path == p;
      }
    }
    forall p | p in a ensures a[p] == b[p] {
      var e :| e in walk && Candidate(config, roots, e) && e.path == p;
    }
  }

  /** Every resource in a snapshot has the manifest of its owning package there too. */
  lemma ResourcesComeWithTheirManifest(config: Config, walk: seq<Entry>, files: map<string, FileMetadata>, p: string)
    requires Holds(config, Roots(config, walk), walk, files)
    requires p in files && files[p].kind.IsResource()
    ensures var owner := Packages.Owner(Roots(config, walk), p);
            && owner.Some?
            && exists m :: m in files && Packages.IsManifest(m) && Parent(m) == owner.value
                 && files[m].kind == Packages.SkillManifest
  {
    var roots := Roots(config, walk);
    var given := Manifests(config, walk);
    var resource :| resource in walk && Candidate(config, roots, resource) && resource.path == p;
    ClassOfResource(config, roots, p);
    Packages.OwnerIsNearest(roots, p);
    var root := Packages.Owner(roots, p).value;
    Packages.RootSetSolves(given);
    assert Packages.Given(given, root);
    var m :| m in given && Packages.IsManifest(m) && Parent(m) == root;
    var e :| e in walk && e.kind.File? && e.path == m && SelectedByGlobs(config, m);
    Packages.ManifestsClassify(given, m);
    assert Candidate(config, roots, e);
  }

  lemma ClassOfResource(config: Config, roots: set<string>, p: string)
    requires CandidateClass(config, roots, p).Some? && CandidateClass(config, roots, p).value.IsResource()
    ensures Packages.Owner(roots, p).Some?
  {
    hide Packages.Owner, Packages.ResourceClass;
  }
}
