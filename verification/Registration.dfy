/**
 * What registering content leaves of each file: the content the catalog shows,
 * and the bytes it keeps to write the bundle back from. They part when content
 * is registered while the catalog is told not to keep sources.
 */
module Registration {
  import opened Text
  import opened Snapshots
  import Packages

  datatype Ref = ById(id: int) | ByName(name: string)

  datatype Call =
    | Put(ref: Ref, path: string, contribute: Contribution)
    | Delete(ref: Ref, path: string)
    | Create(name: string)

  /** A file as the catalog holds it. */
  datatype Held = Held(content: Bytes, kept: Option<Bytes>)

  type Files = map<string, Held>

  // ----- Registering -----

  /** Package manifests and resources have tables of their own, which keep their bytes whatever the setting. */
  ghost predicate AlwaysKept(paths: set<string>, path: string) {
    var found := Packages.Classify(Packages.RootSet(paths), path);
    found.Some? && (found.value.SkillManifest? || found.value.IsResource())
  }

  /** One file registered: unchanged content is passed over; otherwise its bytes are kept only if `keep`. */
  function HeldAfter(files: Files, path: string, bytes: Bytes, keep: bool): Held {
    if path in files && files[path].content == bytes then files[path]
    else Held(bytes, if keep then Some(bytes) else if path in files then files[path].kept else None)
  }

  /** `register_bundle_content`, with or without `store_source`. */
  ghost function Registering(files: Files, given: map<string, Bytes>, store: bool): Files {
    map p | p in given :: HeldAfter(files, p, given[p], store || AlwaysKept(given.Keys, p))
  }

  // ----- One call -----

  /** What the snapshot query finds: the kept bytes. */
  function Readable(files: Files): map<string, Bytes> {
    map p | p in files && files[p].kept.Some? :: files[p].kept.value
  }

  predicate Complete(files: Files) {
    forall p :: p in files ==> files[p].kept.Some?
  }

  function ContentOf(files: Files): map<string, Bytes> {
    map p | p in files :: files[p].content
  }

  /** The call is not refused on these files: the document is taken, or there is one to delete. */
  predicate Accepts(files: map<string, Bytes>, call: Call) {
    match call
    case Create(_) => false
    case Delete(_, path) => path in files
    case Put(_, path, contribute) => contribute(Lookup(files, path)).Some?
  }

  /** The call carried out on a plain mapping of paths to bytes. */
  function Plainly(files: map<string, Bytes>, call: Call): map<string, Bytes> {
    match call
    case Create(_) => map[]
    case Delete(_, path) => files - {path}
    case Put(_, path, contribute) =>
      var made := contribute(Lookup(files, path));
      if made.Some? then files[path := made.value] else files
  }

  /** One call executed alone: read what is kept, change it, register the whole. */
  ghost function Executed(files: Files, call: Call, store: bool): Files {
    if call.Create? then map[] else Registering(files, Plainly(Readable(files), call), store)
  }

  /** Every file's kept bytes are its content. */
  predicate KeptUp(files: Files) {
    forall p :: p in files ==> files[p].kept == Some(files[p].content)
  }

  /** No file's kept bytes are out of date, though some may be missing. */
  predicate NoneStale(files: Files) {
    forall p :: p in files && files[p].kept.Some? ==> files[p].kept.value == files[p].content
  }

  // ----- What a call leaves -----

  /** The content after a call is the call carried out on what was kept. */
  lemma ContentAfter(files: Files, call: Call, store: bool)
    requires !call.Create?
    ensures ContentOf(Executed(files, call, store)) == Plainly(Readable(files), call)
  {
    hide AlwaysKept;
  }

  lemma KeptUpReads(files: Files)
    requires Complete(files) && NoneStale(files)
    ensures KeptUp(files) && Readable(files) == ContentOf(files)
  {
  }

  /** While kept bytes are up to date, a call does to the content just what it says. */
  lemma PlainWhenKeptUp(files: Files, call: Call, store: bool)
    requires KeptUp(files) && !call.Create?
    ensures ContentOf(Executed(files, call, store)) == Plainly(ContentOf(files), call)
  {
    hide AlwaysKept, Plainly, Executed, Registering;
    KeptUpReads(files);
    ContentAfter(files, call, store);
  }

  /** A file other than the call's: its kept bytes stay, and become its content. */
  lemma OtherFiles(files: Files, call: Call, store: bool, p: string)
    requires Complete(files) && !call.Create? && p != call.path
    ensures p in Executed(files, call, store) <==> p in files
    ensures p in files ==>
      && Executed(files, call, store)[p] == Held(files[p].kept.value, files[p].kept)
      && (files[p].kept == Some(files[p].content) ==> Executed(files, call, store)[p] == files[p])
  {
    hide AlwaysKept;
    if p in files {
      assert Plainly(Readable(files), call)[p] == files[p].kept.value;
    }
  }

  /** What a put makes of its own file. */
  function Made(files: Files, call: Call): Option<Bytes>
    requires call.Put?
  {
    call.contribute(Lookup(Readable(files), call.path))
  }

  lemma OwnFile(files: Files, call: Call, store: bool)
    requires Complete(files) && Accepts(Readable(files), call)
    ensures call.Delete? ==> call.path !in Executed(files, call, store)
    ensures call.Put? ==>
      && call.path in Executed(files, call, store)
      && Executed(files, call, store)[call.path]
         == HeldAfter(files, call.path, Made(files, call).value,
                      store || AlwaysKept(Plainly(Readable(files), call).Keys, call.path))
  {
    hide AlwaysKept, HeldAfter;
  }

  /** The bytes of this call's file are kept when they change. */
  ghost predicate Keeps(files: Files, call: Call, store: bool)
    requires call.Put?
  {
    store || AlwaysKept(Plainly(Readable(files), call).Keys, call.path)
  }

  /**
   * After a call what is kept is what is shown, exactly when the call is a
   * delete, or the put leaves the kept bytes as they were, or its file is kept
   * and its content changes.
   */
  lemma KeptUpExactly(files: Files, call: Call, store: bool)
    requires Complete(files) && Accepts(Readable(files), call)
    ensures KeptUp(Executed(files, call, store))
       <==> || call.Delete?
            || (call.path in files && files[call.path].kept == Made(files, call))
            || (Keeps(files, call, store)
                && !(call.path in files && files[call.path].content == Made(files, call).value))
  {
    hide AlwaysKept, Executed;
    var after := Executed(files, call, store);
    OwnFile(files, call, store);
    forall p | p != call.path
      ensures p in after ==> after[p].kept == Some(after[p].content)
    {
      OtherFiles(files, call, store, p);
    }
    assert KeptUp(after) <==> (call.path in after ==> after[call.path].kept == Some(after[call.path].content));
  }

  /** From files kept up to date: exactly when it deletes, the setting is on, or the file is always kept or unchanged. */
  lemma StaysKeptUpExactly(files: Files, call: Call, store: bool)
    requires KeptUp(files) && Accepts(Readable(files), call)
    ensures KeptUp(Executed(files, call, store))
       <==> || call.Delete? || Keeps(files, call, store)
            || (call.path in files && files[call.path].content == Made(files, call).value)
  {
    hide AlwaysKept, Executed;
    KeptUpExactly(files, call, store);
  }

  // ----- Packages -----

  /** The paths are outside every package but one at the bundle's root. */
  ghost predicate PathOutside(paths: set<string>, path: string) {
    && !Packages.IsManifest(path)
    && forall root :: root in Packages.RootSet(paths) && root != "" ==> !Packages.Encloses(root, path)
  }

  /** Package roots stay, and so do the kept bytes of every file below them, and its content unless it was stale. */
  ghost predicate PackagesStay(files: Files, files': Files) {
    && Packages.RootSet(files'.Keys) == Packages.RootSet(files.Keys)
    && forall root, p :: root in Packages.RootSet(files.Keys) && root != "" && Packages.Encloses(root, p) ==>
         && (p in files' <==> p in files)
         && (p in files ==> && files'[p].kept == files[p].kept
                            && (files[p].kept == Some(files[p].content) ==> files'[p] == files[p]))
  }

  lemma PackagesStayOn(a: Files, b: Files, c: Files)
    requires PackagesStay(a, b) && PackagesStay(b, c)
    ensures PackagesStay(a, c)
  {
    hide Packages.RootSet, Packages.Encloses;
  }

  /** A call outside the packages leaves them alone. */
  lemma ExecutionOutsidePackages(files: Files, call: Call, store: bool)
    requires Complete(files) && !call.Create? && PathOutside(files.Keys, call.path)
    ensures PackagesStay(files, Executed(files, call, store))
  {
    hide Packages.RootSet, Packages.Encloses, Packages.IsManifest, Executed;
    var after := Executed(files, call, store);
    forall p | p != call.path
      ensures p in after <==> p in files
      ensures p in files ==> && after[p].kept == files[p].kept
                             && (files[p].kept == Some(files[p].content) ==> after[p] == files[p])
    {
      OtherFiles(files, call, store, p);
    }
    SameManifestsSameRoots(files.Keys, after.Keys);
  }

  lemma SameManifestsSameRoots(a: set<string>, b: set<string>)
    requires forall p :: Packages.IsManifest(p) ==> (p in a <==> p in b)
    ensures Packages.RootSet(a) == Packages.RootSet(b)
  {
    hide Packages.IsManifest, Packages.InResources, Parent, Packages.RootSet;
    forall d ensures Packages.Given(a, d) <==> Packages.Given(b, d) {
    }
    Packages.RootsAreUnique(a, Packages.RootSet(a));
    Packages.RootsAreUnique(b, Packages.RootSet(a));
  }
}
