/**
 * Writing one document into a content bundle. Every write reads the whole
 * bundle, changes one entry, and sends the whole of it back, in a transaction
 * that holds an advisory lock on the bundle's name. Any number of writers run
 * at once, one statement at a time.
 *
 * What is assumed of the database: a statement reads what is committed; the
 * lock is held until the transaction ends; registering content makes the
 * addressed bundle show exactly the files it is given, keeps their bytes as
 * the setting stands then, and until its transaction ends nobody can
 * unregister that bundle; a bundle keeps its tenant, name and path, and its id
 * is never given to another.
 */
module WriteProtocol {
  import opened Text
  import opened Snapshots
  import opened Registration
  import Sorting
  import Packages

  datatype Source = Content | Filesystem

  /** A row of the bundles table, with its concept rows. */
  datatype Bundle = Bundle(
    tenant: string,
    name: Option<string>,
    path: string,
    source: Source,
    retired: bool,
    fileCount: nat,
    hasVersion: bool,
    hasLog: bool,
    files: Files)

  /** `coalesce(name, path)`. */
  function Label(b: Bundle): string {
    if b.name.Some? then b.name.value else b.path
  }

  function ContentPath(name: string): string {
    "content:" + name
  }

  /** A bundle as a call has resolved it. */
  datatype Found = Found(id: int, named: string, retired: bool, fileCount: nat)

  /** How far a writer's transaction has come: the statements it has run. */
  datatype Stage =
    | Idle
    | Begun(call: Call)
    | SourcesKept(call: Call)
    | Resolved(call: Call, named: string)
    | Locked(call: Call, named: string)
    | Rechecked(call: Call, found: Found)
    | Confirmed(call: Call, found: Found)
    | Whole(call: Call, found: Found)
    | OutsidePackages(call: Call, found: Found)
    | Measured(call: Call, found: Found)
    | Snapped(call: Call, found: Found, files: seq<File>)
    | Registered(call: Call, found: Found, files: seq<File>, kept: bool)
    | NameLocked(call: Call)
    | NameFree(call: Call)
    | Created(call: Call)

  /** A connection; one that is not scoped to a tenant sees every tenant's bundles. */
  datatype Writer = Writer(tenant: Option<string>, stage: Stage)

  /** A committed call, and whether its bytes were kept. */
  datatype Commit = Commit(id: int, tenant: string, call: Call, kept: bool)

  /** The committed catalog, the ids it has given out, the locks, the writers, and the commits so far. */
  datatype System = System(
    storeSource: bool,
    bundles: map<int, Bundle>,
    used: set<int>,
    locks: map<int, nat>,
    writers: map<nat, Writer>,
    lockKey: string -> int,
    log: seq<Commit>)

  datatype Event =
    | Begin(w: nat, call: Call)
    | EnsureSources(w: nat)
    | Resolve(w: nat, id: int)
    | TakeLock(w: nat)
    | ResolveAgain(w: nat, id: int)
    | CheckSameBundle(w: nat)
    | CheckNothingLost(w: nat)
    | CheckPackages(w: nat)
    | Measure(w: nat, rows: seq<Row>)
    | ReadSnapshot(w: nat, rows: seq<Row>)
    | Register(w: nat, files: seq<File>)
    | CommitWrite(w: nat)
    | LockName(w: nat)
    | CheckName(w: nat)
    | RegisterEmpty(w: nat)
    | CommitCreate(w: nat, id: int)
    | Refuse(w: nat)
    | SetRetired(id: int, retired: bool)
    | SetStoreSource(keep: bool)
    | SyncFilesystem(id: int, bundle: Bundle)
    | Unregister(id: int)

  // ----- What the statements ask -----

  function Effective(tenant: Option<string>): string {
    if tenant.Some? then tenant.value else "default"
  }

  predicate Visible(writer: Writer, b: Bundle) {
    writer.tenant.None? || b.tenant == writer.tenant.value
  }

  /** `resolve` finds exactly the row `id`. */
  ghost predicate ResolvesTo(s: System, writer: Writer, ref: Ref, id: int) {
    && id in s.bundles && Visible(writer, s.bundles[id])
    && match ref
       case ById(i) => i == id
       case ByName(n) =>
         && s.bundles[id].name == Some(n)
         && forall other :: other in s.bundles && Visible(writer, s.bundles[other]) && s.bundles[other].name == Some(n)
              ==> other == id
  }

  /** `same_bundle`: in the session's own tenant the name is that content bundle alone. */
  ghost predicate NamesOnly(s: System, writer: Writer, named: string, id: int) {
    && id in s.bundles
    && forall other :: other in s.bundles ==>
         (&& s.bundles[other].name == Some(named) && s.bundles[other].source.Content?
          && s.bundles[other].tenant == Effective(writer.tenant)
          <==> other == id)
  }

  /** Registering under a name addresses the content bundle of the session's tenant. */
  ghost predicate LandsOn(s: System, writer: Writer, named: string, id: int) {
    && id in s.bundles
    && s.bundles[id].tenant == Effective(writer.tenant) && s.bundles[id].path == ContentPath(named)
  }

  /** The rows of the snapshot query: each concept once, in whatever order the database sorts paths. */
  ghost predicate Lists(rows: seq<Row>, files: Files) {
    && (forall i, j :: 0 <= i < j < |rows| ==> rows[i].path != rows[j].path)
    && (forall r :: r in rows ==> r.path in files && files[r.path].kept == r.bytes)
    && (forall p :: p in files ==> exists r :: r in rows && r.path == p)
  }

  /** The list a call sends back, given the one it read. */
  ghost predicate Edits(call: Call, files: seq<File>, changed: seq<File>) {
    && DistinctPaths(changed)
    && match call
       case Put(_, path, contribute) =>
         && Sorting.SortedBy(changed, PathLe)
         && contribute(Lookup(MapOf(files), path)).Some?
         && MapOf(changed) == MapOf(files)[path := contribute(Lookup(MapOf(files), path)).value]
       case Delete(_, path) => path in MapOf(files) && MapOf(changed) == MapOf(files) - {path}
       case Create(_) => false
  }

  predicate LockFree(s: System, w: nat, name: string) {
    s.lockKey(name) !in s.locks || s.locks[s.lockKey(name)] == w
  }

  /** What a query finds of a bundle's files: nothing once the bundle is gone. */
  function FilesAt(s: System, id: int): Files {
    if id in s.bundles then s.bundles[id].files else map[]
  }

  function StageOf(s: System, w: nat): Stage {
    if w in s.writers then s.writers[w].stage else Idle
  }

  // ----- Steps -----

  predicate CanCommit(s: System, w: nat) {
    StageOf(s, w).Registered? && StageOf(s, w).found.id in s.bundles
  }

  predicate CanCreate(s: System, w: nat, id: int) {
    StageOf(s, w).Created? && StageOf(s, w).call.Create? && id !in s.used
  }

  ghost predicate Enabled(s: System, e: Event) {
    match e
    case Begin(w, call) => w in s.writers && StageOf(s, w).Idle? && (call.Create? ==> call.name != "")
    case EnsureSources(w) => StageOf(s, w).Begun? && !StageOf(s, w).call.Create? && s.storeSource
    case Resolve(w, id) =>
      && StageOf(s, w).SourcesKept? && !StageOf(s, w).call.Create?
      && ResolvesTo(s, s.writers[w], StageOf(s, w).call.ref, id) && s.bundles[id].source.Content?
    case TakeLock(w) => StageOf(s, w).Resolved? && LockFree(s, w, StageOf(s, w).named)
    case ResolveAgain(w, id) =>
      && StageOf(s, w).Locked? && !StageOf(s, w).call.Create?
      && ResolvesTo(s, s.writers[w], StageOf(s, w).call.ref, id) && s.bundles[id].source.Content?
    case CheckSameBundle(w) =>
      && StageOf(s, w).Rechecked?
      && NamesOnly(s, s.writers[w], StageOf(s, w).found.named, StageOf(s, w).found.id)
      && !StageOf(s, w).found.retired
    case CheckNothingLost(w) =>
      && StageOf(s, w).Confirmed? && StageOf(s, w).found.id in s.bundles
      && !s.bundles[StageOf(s, w).found.id].hasVersion && !s.bundles[StageOf(s, w).found.id].hasLog
      && StageOf(s, w).found.fileCount <= MAX_SNAPSHOT_FILES
    case CheckPackages(w) =>
      && StageOf(s, w).Whole? && !StageOf(s, w).call.Create?
      && PathOutside(FilesAt(s, StageOf(s, w).found.id).Keys, StageOf(s, w).call.path)
    case Measure(w, rows) =>
      && StageOf(s, w).OutsidePackages?
      && Lists(rows, FilesAt(s, StageOf(s, w).found.id)) && SizeOf(rows) <= MAX_SNAPSHOT_BYTES
    case ReadSnapshot(w, rows) =>
      && StageOf(s, w).Measured?
      && Lists(rows, FilesAt(s, StageOf(s, w).found.id)) && CanCarry(rows)
    case Register(w, files) =>
      && StageOf(s, w).Snapped? && Edits(StageOf(s, w).call, StageOf(s, w).files, files)
      && LandsOn(s, s.writers[w], StageOf(s, w).found.named, StageOf(s, w).found.id)
    case CommitWrite(w) => CanCommit(s, w)
    case LockName(w) =>
      StageOf(s, w).Begun? && StageOf(s, w).call.Create? && LockFree(s, w, StageOf(s, w).call.name)
    case CheckName(w) =>
      && StageOf(s, w).NameLocked? && StageOf(s, w).call.Create?
      && forall id :: id in s.bundles && Visible(s.writers[w], s.bundles[id]) ==>
           && s.bundles[id].name != Some(StageOf(s, w).call.name)
           && s.bundles[id].path != ContentPath(StageOf(s, w).call.name)
    case RegisterEmpty(w) => StageOf(s, w).NameFree?
    case CommitCreate(w, id) => CanCreate(s, w, id)
    case Refuse(w) => w in s.writers && !StageOf(s, w).Idle?
    case SetRetired(id, _) => id in s.bundles
    case SetStoreSource(_) => true
    case SyncFilesystem(id, b) =>
      && b.source.Filesystem? && !("content:" <= b.path)
      && (id in s.bundles ==> && s.bundles[id].source.Filesystem? && s.bundles[id].tenant == b.tenant
                              && s.bundles[id].name == b.name && s.bundles[id].path == b.path)
      && (id !in s.bundles ==> && id !in s.used && forall other :: other in s.bundles ==>
            s.bundles[other].tenant != b.tenant || s.bundles[other].path != b.path)
    case Unregister(id) =>
      id in s.bundles && forall w :: w in s.writers && StageOf(s, w).Registered? ==> StageOf(s, w).found.id != id
  }

  function At(s: System, w: nat, stage: Stage): System
    requires w in s.writers
  {
    s.(writers := s.writers[w := s.writers[w].(stage := stage)])
  }

  function Lock(s: System, w: nat, name: string): System {
    s.(locks := s.locks[s.lockKey(name) := w])
  }

  /** The end of a transaction: its locks go with it. */
  function Ended(s: System, w: nat): System
    requires w in s.writers
  {
    At(s.(locks := map k | k in s.locks && s.locks[k] != w :: s.locks[k]), w, Idle)
  }

  function FoundRow(s: System, id: int): Found
    requires id in s.bundles
  {
    Found(id, Label(s.bundles[id]), s.bundles[id].retired, s.bundles[id].fileCount)
  }

  function EmptyBundle(tenant: string, name: string): Bundle {
    Bundle(tenant, Some(name), ContentPath(name), Content, false, 0, false, false, map[])
  }

  /** A bundle as a registration leaves it: no version and no log, for neither file is ever sent. */
  ghost function Written(b: Bundle, files: seq<File>, kept: bool): Bundle {
    b.(files := Registering(b.files, MapOf(files), kept), fileCount := |files|, hasVersion := false, hasLog := false)
  }

  /** The transaction of a write, committed. */
  ghost function Committed(s: System, w: nat): System
    requires CanCommit(s, w)
  {
    var stage := StageOf(s, w);
    Ended(s.(bundles := s.bundles[stage.found.id := Written(s.bundles[stage.found.id], stage.files, stage.kept)],
             log := s.log + [Commit(stage.found.id, Effective(s.writers[w].tenant), stage.call, stage.kept)]), w)
  }

  /** The transaction of a creation, committed. */
  function Creating(s: System, w: nat, id: int): System
    requires CanCreate(s, w, id)
  {
    var call, tenant := StageOf(s, w).call, Effective(s.writers[w].tenant);
    Ended(s.(bundles := s.bundles[id := EmptyBundle(tenant, call.name)], used := s.used + {id},
             log := s.log + [Commit(id, tenant, call, true)]), w)
  }

  ghost function Next(s: System, e: Event): System
    requires Enabled(s, e)
  {
    match e
    case Begin(w, call) => At(s, w, Begun(call))
    case EnsureSources(w) => At(s, w, SourcesKept(StageOf(s, w).call))
    case Resolve(w, id) => At(s, w, Resolved(StageOf(s, w).call, Label(s.bundles[id])))
    case TakeLock(w) => Lock(At(s, w, Locked(StageOf(s, w).call, StageOf(s, w).named)), w, StageOf(s, w).named)
    case ResolveAgain(w, id) => At(s, w, Rechecked(StageOf(s, w).call, FoundRow(s, id)))
    case CheckSameBundle(w) => At(s, w, Confirmed(StageOf(s, w).call, StageOf(s, w).found))
    case CheckNothingLost(w) => At(s, w, Whole(StageOf(s, w).call, StageOf(s, w).found))
    case CheckPackages(w) => At(s, w, OutsidePackages(StageOf(s, w).call, StageOf(s, w).found))
    case Measure(w, _) => At(s, w, Measured(StageOf(s, w).call, StageOf(s, w).found))
    case ReadSnapshot(w, rows) => At(s, w, Snapped(StageOf(s, w).call, StageOf(s, w).found, FilesOf(rows)))
    case Register(w, files) =>
      At(s, w, Registered(StageOf(s, w).call, StageOf(s, w).found, files, s.storeSource))
    case CommitWrite(w) => Committed(s, w)
    case LockName(w) => Lock(At(s, w, NameLocked(StageOf(s, w).call)), w, StageOf(s, w).call.name)
    case CheckName(w) => At(s, w, NameFree(StageOf(s, w).call))
    case RegisterEmpty(w) => At(s, w, Created(StageOf(s, w).call))
    case CommitCreate(w, id) => Creating(s, w, id)
    case Refuse(w) => Ended(s, w)
    case SetRetired(id, retired) => s.(bundles := s.bundles[id := s.bundles[id].(retired := retired)])
    case SetStoreSource(keep) => s.(storeSource := keep)
    case SyncFilesystem(id, b) => s.(bundles := s.bundles[id := b], used := s.used + {id})
    case Unregister(id) => s.(bundles := s.bundles - {id})
  }

  lemma CommitStep(s: System, w: nat)
    ensures Enabled(s, CommitWrite(w)) <==> CanCommit(s, w)
    ensures CanCommit(s, w) ==> Next(s, CommitWrite(w)) == Committed(s, w)
  {
    hide Committed;
  }

  lemma CreateStep(s: System, w: nat, id: int)
    ensures Enabled(s, CommitCreate(w, id)) <==> CanCreate(s, w, id)
    ensures CanCreate(s, w, id) ==> Next(s, CommitCreate(w, id)) == Creating(s, w, id)
  {
    hide Creating;
  }

  ghost predicate IsRun(s: System, run: seq<Event>)
    decreases |run|
  {
    run == [] || (Enabled(s, run[0]) && IsRun(Next(s, run[0]), run[1..]))
  }

  ghost function After(s: System, run: seq<Event>): System
    requires IsRun(s, run)
    decreases |run|
  {
    if run == [] then s else After(Next(s, run[0]), run[1..])
  }

  // ----- Serial execution -----

  /** The committed calls executed one by one, in commit order, on one bundle. */
  ghost function Serial(start: map<int, Bundle>, log: seq<Commit>, id: int): Files {
    if log == [] then (if id in start then start[id].files else map[])
    else
      var before := Serial(start, log[..|log| - 1], id);
      var last := log[|log| - 1];
      if last.id == id then Executed(before, last.call, last.kept) else before
  }

  // ----- What every step keeps -----

  ghost predicate Holds(s: System, w: nat, name: string) {
    s.lockKey(name) in s.locks && s.locks[s.lockKey(name)] == w
  }

  /** Each tenant has a path once, and content bundles are keyed by their name. */
  ghost predicate ValidBundles(bundles: map<int, Bundle>) {
    && (forall a, b :: a in bundles && b in bundles && a != b ==>
          bundles[a].tenant != bundles[b].tenant || bundles[a].path != bundles[b].path)
    && (forall a :: a in bundles && bundles[a].source.Content? ==>
          bundles[a].name.Some? && bundles[a].path == ContentPath(bundles[a].name.value))
    && (forall a :: a in bundles && bundles[a].source.Filesystem? ==> !("content:" <= bundles[a].path))
  }

  /** The name a reference stands for, once and for all. */
  ghost predicate RefNames(s: System, ref: Ref, named: string) {
    match ref
    case ById(id) => id in s.used && (id in s.bundles ==> Label(s.bundles[id]) == named)
    case ByName(n) => n == named
  }

  /** The content bundle a writer has resolved, under its lock, while it is there. */
  ghost predicate Owns(s: System, w: nat, found: Found) {
    && found.id in s.used && Holds(s, w, found.named)
    && (found.id in s.bundles ==>
          s.bundles[found.id].source.Content? && s.bundles[found.id].name == Some(found.named))
  }

  /** And once it is known to be the tenant's: when it is gone, nothing has taken its place. */
  ghost predicate OwnsInTenant(s: System, w: nat, found: Found)
    requires w in s.writers
  {
    && Owns(s, w, found)
    && (found.id in s.bundles ==> s.bundles[found.id].tenant == Effective(s.writers[w].tenant))
    && (found.id !in s.bundles ==> Unused(s, Effective(s.writers[w].tenant), found.named))
  }

  ghost predicate Unused(s: System, tenant: string, name: string) {
    forall id :: id in s.bundles ==> s.bundles[id].tenant != tenant || s.bundles[id].path != ContentPath(name)
  }

  /** And it has no version and no log that a write could lose. */
  ghost predicate Ready(s: System, w: nat, found: Found)
    requires w in s.writers
  {
    && OwnsInTenant(s, w, found)
    && (found.id in s.bundles ==> !s.bundles[found.id].hasVersion && !s.bundles[found.id].hasLog)
  }

  /** While the bundle is there, the path is outside its packages. */
  ghost predicate Allowed(s: System, found: Found, path: string) {
    found.id in s.bundles ==> PathOutside(s.bundles[found.id].files.Keys, path)
  }

  /** The list is every file's kept bytes. */
  ghost predicate Reads(files: Files, taken: seq<File>) {
    Complete(files) && MapOf(taken) == Readable(files)
  }

  /** The list is the call carried out on every file's kept bytes. */
  ghost predicate Sends(files: Files, call: Call, sent: seq<File>) {
    Complete(files) && Accepts(Readable(files), call) && MapOf(sent) == Plainly(Readable(files), call)
  }

  /** What a writer's stage says about the committed catalog. */
  ghost predicate StageHolds(s: System, w: nat)
    requires w in s.writers
  {
    match s.writers[w].stage
    case Idle => true
    case Begun(_) => true
    case SourcesKept(call) => !call.Create?
    case Resolved(call, named) => !call.Create? && RefNames(s, call.ref, named)
    case Locked(call, named) => !call.Create? && RefNames(s, call.ref, named) && Holds(s, w, named)
    case Rechecked(call, found) => !call.Create? && Owns(s, w, found)
    case Confirmed(call, found) => !call.Create? && OwnsInTenant(s, w, found)
    case Whole(call, found) => !call.Create? && Ready(s, w, found)
    case OutsidePackages(call, found) => !call.Create? && Ready(s, w, found) && Allowed(s, found, call.path)
    case Measured(call, found) => !call.Create? && Ready(s, w, found) && Allowed(s, found, call.path)
    case Snapped(call, found, files) =>
      && !call.Create? && Ready(s, w, found) && Allowed(s, found, call.path) && DistinctPaths(files)
      && (found.id in s.bundles ==> Reads(s.bundles[found.id].files, files))
    case Registered(call, found, files, _) =>
      && !call.Create? && Ready(s, w, found) && Allowed(s, found, call.path)
      && found.id in s.bundles && Sends(s.bundles[found.id].files, call, files)
    case NameLocked(call) => call.Create? && Holds(s, w, call.name)
    case NameFree(call) =>
      call.Create? && Holds(s, w, call.name) && Unused(s, Effective(s.writers[w].tenant), call.name)
    case Created(call) =>
      call.Create? && Holds(s, w, call.name) && Unused(s, Effective(s.writers[w].tenant), call.name)
  }

  ghost predicate WritersHold(s: System) {
    forall w :: w in s.writers ==> StageHolds(s, w)
  }

  /** No two writers hold the lock of one name. */
  lemma OneHolder(s: System, v: nat, w: nat, name: string)
    requires Holds(s, v, name) && Holds(s, w, name)
    ensures v == w
  {
  }

  /** The writer whose transaction a step belongs to, if any. */
  function ActorOf(e: Event): Option<nat> {
    match e
    case SetRetired(_, _) => None
    case SetStoreSource(_) => None
    case SyncFilesystem(_, _) => None
    case Unregister(_) => None
    case Begin(w, _) => Some(w)
    case EnsureSources(w) => Some(w)
    case Resolve(w, _) => Some(w)
    case TakeLock(w) => Some(w)
    case ResolveAgain(w, _) => Some(w)
    case CheckSameBundle(w) => Some(w)
    case CheckNothingLost(w) => Some(w)
    case CheckPackages(w) => Some(w)
    case Measure(w, _) => Some(w)
    case ReadSnapshot(w, _) => Some(w)
    case Register(w, _) => Some(w)
    case CommitWrite(w) => Some(w)
    case LockName(w) => Some(w)
    case CheckName(w) => Some(w)
    case RegisterEmpty(w) => Some(w)
    case CommitCreate(w, _) => Some(w)
    case Refuse(w) => Some(w)
  }

  /** Every bundle has an id that was given out. */
  ghost predicate Numbered(s: System) {
    s.bundles.Keys <= s.used
  }

  /** Of the bundles there were, those still there are as they were named, and no id has come back. */
  ghost predicate KeepsIdentity(s: System, s': System) {
    && s.used <= s'.used && (Numbered(s) ==> Numbered(s'))
    && forall id :: id in s.used && id in s'.bundles ==>
         && id in s.bundles && s'.bundles[id].tenant == s.bundles[id].tenant
         && s'.bundles[id].name == s.bundles[id].name && s'.bundles[id].path == s.bundles[id].path
         && s'.bundles[id].source == s.bundles[id].source
  }

  lemma ContentPathIsInjective(a: string, b: string)
    requires ContentPath(a) == ContentPath(b)
    ensures a == b
  {
    assert ContentPath(a)[8..] == a && ContentPath(b)[8..] == b;
  }

  /** The steps that change more than how far their own writer has come. */
  predicate Loud(e: Event) {
    || e.TakeLock? || e.LockName? || e.CommitWrite? || e.CommitCreate? || e.Refuse?
    || e.SetRetired? || e.SetStoreSource? || e.SyncFilesystem? || e.Unregister?
  }

  lemma QuietStep(s: System, e: Event)
    requires Enabled(s, e) && !Loud(e)
    ensures var s' := Next(s, e);
            && s'.bundles == s.bundles && s'.used == s.used
            && s'.locks == s.locks && s'.log == s.log && s'.lockKey == s.lockKey
            && s'.writers.Keys == s.writers.Keys
            && forall v :: v in s.writers && ActorOf(e) != Some(v) ==> s'.writers[v] == s.writers[v]
  {
    hide PathOutside, Edits, Lists, CanCarry, ResolvesTo, NamesOnly, LandsOn, Written, FilesOf;
  }

  lemma CreationKeepsIdentity(s: System, w: nat, id: int)
    requires CanCreate(s, w, id)
    ensures KeepsIdentity(s, Creating(s, w, id)) && Creating(s, w, id).writers.Keys == s.writers.Keys
  {
  }

  lemma SyncKeepsIdentity(s: System, id: int, b: Bundle)
    requires Enabled(s, SyncFilesystem(id, b))
    ensures KeepsIdentity(s, Next(s, SyncFilesystem(id, b))) && Next(s, SyncFilesystem(id, b)).writers == s.writers
  {
  }

  lemma LoudStepKeepsIdentity(s: System, e: Event)
    requires Enabled(s, e) && Loud(e) && !e.CommitWrite? && !e.CommitCreate? && !e.SyncFilesystem?
    ensures KeepsIdentity(s, Next(s, e))
    ensures Next(s, e).writers.Keys == s.writers.Keys
  {
  }

  lemma CommitKeepsIdentity(s: System, w: nat)
    requires CanCommit(s, w)
    ensures KeepsIdentity(s, Committed(s, w)) && Committed(s, w).writers.Keys == s.writers.Keys
    ensures ValidBundles(s.bundles) ==> ValidBundles(Committed(s, w).bundles)
  {
    hide Written;
    WrittenByCommit(s, w);
  }

  lemma StepKeepsIdentity(s: System, e: Event)
    requires Enabled(s, e)
    ensures KeepsIdentity(s, Next(s, e))
    ensures Next(s, e).writers.Keys == s.writers.Keys
  {
    hide Next, Enabled, KeepsIdentity;
    if e.CommitWrite? {
      CommitStep(s, e.w);
      CommitKeepsIdentity(s, e.w);
    } else if e.CommitCreate? {
      CreateStep(s, e.w, e.id);
      CreationKeepsIdentity(s, e.w, e.id);
    } else if e.SyncFilesystem? {
      SyncKeepsIdentity(s, e.id, e.bundle);
    } else if Loud(e) {
      LoudStepKeepsIdentity(s, e);
    } else {
      QuietStep(s, e);
      SameIdentity(s, Next(s, e));
    }
  }

  lemma SameIdentity(s: System, s': System)
    requires s'.bundles == s.bundles && s'.used == s.used
    ensures KeepsIdentity(s, s')
  {
  }

  lemma StepKeepsValidBundles(s: System, e: Event)
    requires Enabled(s, e) && ValidBundles(s.bundles) && WritersHold(s)
    ensures ValidBundles(Next(s, e).bundles)
  {
    hide Next, Enabled, WritersHold, ValidBundles;
    if e.CommitCreate? {
      CreateStep(s, e.w, e.id);
      CreationKeepsValidBundles(s, e.w, e.id);
    } else if e.CommitWrite? {
      CommitStep(s, e.w);
      CommitKeepsIdentity(s, e.w);
    } else if e.SyncFilesystem? {
      SyncKeepsValidBundles(s, e.id, e.bundle);
    } else if Loud(e) {
      LoudStepKeepsValidBundles(s, e);
    } else {
      QuietStep(s, e);
    }
  }

  lemma LoudStepKeepsValidBundles(s: System, e: Event)
    requires Enabled(s, e) && ValidBundles(s.bundles) && Loud(e)
    requires !e.CommitWrite? && !e.CommitCreate? && !e.SyncFilesystem?
    ensures ValidBundles(Next(s, e).bundles)
  {
  }

  lemma SyncKeepsValidBundles(s: System, id: int, b: Bundle)
    requires Enabled(s, SyncFilesystem(id, b)) && ValidBundles(s.bundles)
    ensures ValidBundles(Next(s, SyncFilesystem(id, b)).bundles)
  {
  }

  lemma CreationKeepsValidBundles(s: System, w: nat, id: int)
    requires CanCreate(s, w, id) && ValidBundles(s.bundles) && WritersHold(s)
    ensures ValidBundles(Creating(s, w, id).bundles)
  {
    assert StageHolds(s, w);
    assert "content:" <= ContentPath(StageOf(s, w).call.name);
  }

  /** What a write can change of a bundle is as it was. */
  predicate SameHoldings(b: Bundle, b': Bundle) {
    b'.files == b.files && b'.hasVersion == b.hasVersion && b'.hasLog == b.hasLog
  }

  ghost predicate LocksKept(s: System, s': System, v: nat) {
    forall name: string :: Holds(s, v, name) ==> Holds(s', v, name)
  }

  /** A content bundle whose lock the writer holds is as it was, or gone with its name unused. */
  ghost predicate BundlesKept(s: System, s': System, v: nat) {
    forall id :: id in s.bundles && s.bundles[id].source.Content? && s.bundles[id].name.Some?
                 && Holds(s, v, s.bundles[id].name.value)
      ==> if id in s'.bundles then SameHoldings(s.bundles[id], s'.bundles[id])
          else Unused(s', s.bundles[id].tenant, s.bundles[id].name.value)
  }

  /** A name whose lock the writer holds and nobody uses stays unused. */
  ghost predicate NamesKept(s: System, s': System, v: nat) {
    forall tenant, name :: Holds(s, v, name) && Unused(s, tenant, name) ==> Unused(s', tenant, name)
  }

  ghost predicate StaysRegistered(s: System, s': System, v: nat)
    requires v in s.writers
  {
    var stage := s.writers[v].stage;
    stage.Registered? && stage.found.id in s.bundles ==> stage.found.id in s'.bundles
  }

  /**
   * What a writer's stage relies on is as it was, but that the bundle may be
   * gone; then nothing has taken its place, nor is it gone once registered.
   */
  ghost predicate Undisturbed(s: System, s': System, v: nat) {
    && v in s.writers && v in s'.writers && s'.writers[v] == s.writers[v] && s'.lockKey == s.lockKey
    && KeepsIdentity(s, s') && LocksKept(s, s', v) && BundlesKept(s, s', v) && NamesKept(s, s', v)
    && StaysRegistered(s, s', v)
  }

  lemma UndisturbedStage(s: System, s': System, v: nat)
    requires Undisturbed(s, s', v) && StageHolds(s, v)
    ensures StageHolds(s', v)
  {
    hide PathOutside, Reads, Sends, MapOf, DistinctPaths, Unused, Holds;
  }

  /** Nothing new is named, so what was unused still is. */
  lemma NoNewNames(s: System, s': System, v: nat)
    requires forall id :: id in s'.bundles ==>
      id in s.bundles && s'.bundles[id].tenant == s.bundles[id].tenant && s'.bundles[id].path == s.bundles[id].path
    ensures NamesKept(s, s', v)
  {
    hide Holds;
  }

  lemma LocksOfOthers(s: System, w: nat, v: nat, name: string)
    requires v != w && w in s.writers
    ensures LockFree(s, w, name) ==> forall n: string :: Holds(s, v, n) ==> Holds(Lock(s, w, name), v, n)
    ensures forall n: string :: Holds(s, v, n) ==> Holds(Ended(s, w), v, n)
  {
  }

  lemma WrittenByCommit(s: System, w: nat)
    requires CanCommit(s, w)
    ensures var b, stage := s.bundles[StageOf(s, w).found.id], StageOf(s, w);
      var b' := Written(b, stage.files, stage.kept);
      && b'.tenant == b.tenant && b'.path == b.path && b'.name == b.name && b'.source == b.source
      && b'.retired == b.retired && !b'.hasVersion && !b'.hasLog
      && b'.files == Registering(b.files, MapOf(stage.files), stage.kept)
  {
  }

  /** A commit changes the files of one bundle, and its own writer. */
  lemma CommitShape(s: System, w: nat, v: nat)
    requires CanCommit(s, w) && v in s.writers && v != w
    ensures var s' := Committed(s, w);
      && s'.bundles.Keys == s.bundles.Keys && s'.used == s.used && s'.lockKey == s.lockKey
      && v in s'.writers && s'.writers[v] == s.writers[v]
      && (forall id :: id in s.bundles ==>
            && s'.bundles[id].tenant == s.bundles[id].tenant && s'.bundles[id].path == s.bundles[id].path
            && s'.bundles[id].name == s.bundles[id].name && s'.bundles[id].source == s.bundles[id].source)
      && (forall id :: id in s.bundles && id != StageOf(s, w).found.id ==> s'.bundles[id] == s.bundles[id])
      && LocksKept(s, s', v)
  {
    hide Written;
    WrittenByCommit(s, w);
    LocksOfOthers(s, w, v, "");
  }

  /** A commit changes only the bundle whose lock the committing writer holds. */
  lemma CommitDisturbsNobody(s: System, w: nat, v: nat)
    requires WritersHold(s) && CanCommit(s, w) && v in s.writers && v != w
    ensures Undisturbed(s, Committed(s, w), v)
  {
    hide Committed, Holds, LocksKept, BundlesKept, NamesKept, KeepsIdentity, StageHolds, WritersHold;
    CommitShape(s, w, v);
    CommitKeepsBundles(s, w, v);
    CommitKeepsIdentity(s, w);
    NoNewNames(s, Committed(s, w), v);
  }

  lemma CommitKeepsBundles(s: System, w: nat, v: nat)
    requires WritersHold(s) && CanCommit(s, w) && v in s.writers && v != w
    ensures BundlesKept(s, Committed(s, w), v)
  {
    hide Committed, Holds, WritersHold, LocksKept, Unused, StageHolds;
    var found := StageOf(s, w).found;
    CommitterOwns(s, w);
    CommitShape(s, w, v);
    if s.bundles[found.id].name.Some? && Holds(s, v, s.bundles[found.id].name.value) {
      OneHolder(s, v, w, s.bundles[found.id].name.value);
    }
  }

  lemma CommitterOwns(s: System, w: nat)
    requires WritersHold(s) && CanCommit(s, w)
    ensures Owns(s, w, StageOf(s, w).found)
  {
    assert StageHolds(s, w);
    hide Sends, Allowed, Holds, Unused;
  }

  lemma CreationDisturbsNobody(s: System, w: nat, id: int, v: nat)
    requires Numbered(s) && WritersHold(s) && CanCreate(s, w, id) && v in s.writers && v != w
    ensures Undisturbed(s, Creating(s, w, id), v)
  {
    hide Holds, LocksKept, BundlesKept, NamesKept, KeepsIdentity, StageHolds, WritersHold, Next, Numbered, Creating;
    CreationShape(s, w, id, v);
    CreateStep(s, w, id);
    StepKeepsIdentity(s, CommitCreate(w, id));
    CreationKeepsBundles(s, w, id, v);
    CreationKeepsNames(s, w, id, v);
  }

  /** A creation adds one bundle, and changes its own writer. */
  lemma CreationShape(s: System, w: nat, id: int, v: nat)
    requires Numbered(s) && CanCreate(s, w, id) && v in s.writers && v != w
    ensures var s' := Creating(s, w, id);
      && id !in s.bundles
      && s'.bundles == s.bundles[id := EmptyBundle(Effective(s.writers[w].tenant), StageOf(s, w).call.name)]
      && s'.lockKey == s.lockKey && v in s'.writers && s'.writers[v] == s.writers[v] && LocksKept(s, s', v)
  {
    LocksOfOthers(s, w, v, "");
  }

  lemma CreationKeepsBundles(s: System, w: nat, id: int, v: nat)
    requires Numbered(s) && CanCreate(s, w, id) && v in s.writers && v != w
    ensures BundlesKept(s, Creating(s, w, id), v)
  {
    CreationShape(s, w, id, v);
    hide Creating, Holds, Unused, LocksKept;
  }

  lemma CreationKeepsNames(s: System, w: nat, id: int, v: nat)
    requires Numbered(s) && WritersHold(s) && CanCreate(s, w, id) && v in s.writers && v != w
    ensures NamesKept(s, Creating(s, w, id), v)
  {
    assert StageHolds(s, w);
    CreationShape(s, w, id, v);
    var made := StageOf(s, w).call.name;
    hide Creating, WritersHold, StageHolds, LocksKept, Holds;
    forall name: string | Holds(s, v, name) ensures ContentPath(name) != ContentPath(made) {
      if ContentPath(name) == ContentPath(made) {
        ContentPathIsInjective(name, made);
        OneHolder(s, v, w, name);
      }
    }
  }

  lemma SyncDisturbsNobody(s: System, id: int, b: Bundle, v: nat)
    requires Enabled(s, SyncFilesystem(id, b)) && v in s.writers
    ensures Undisturbed(s, Next(s, SyncFilesystem(id, b)), v)
  {
    forall name: string ensures ContentPath(name) != b.path {
      assert "content:" <= ContentPath(name);
    }
  }

  lemma LocksDisturbNobody(s: System, e: Event, v: nat)
    requires Enabled(s, e) && v in s.writers && ActorOf(e) != Some(v)
    requires e.TakeLock? || e.LockName? || e.Refuse?
    ensures Undisturbed(s, Next(s, e), v)
  {
    hide Undisturbed, Holds, LocksKept;
    LocksAreKept(s, e, v);
    QuietDisturbsNobody(s, Next(s, e), v);
  }

  lemma LocksAreKept(s: System, e: Event, v: nat)
    requires Enabled(s, e) && v in s.writers && ActorOf(e) != Some(v)
    requires e.TakeLock? || e.LockName? || e.Refuse?
    ensures LocksKept(s, Next(s, e), v)
  {
    LocksOfOthers(s, e.w, v, if e.TakeLock? then StageOf(s, e.w).named else if e.LockName? then StageOf(s, e.w).call.name else "");
  }

  /** Only one bundle of a tenant has the name, so unregistering it leaves the name unused. */
  lemma UnregisteringDisturbsNobody(s: System, id: int, v: nat)
    requires ValidBundles(s.bundles) && Enabled(s, Unregister(id)) && v in s.writers
    ensures Undisturbed(s, Next(s, Unregister(id)), v)
  {
  }

  lemma RetiringDisturbsNobody(s: System, id: int, retired: bool, v: nat)
    requires Enabled(s, SetRetired(id, retired)) && v in s.writers
    ensures Undisturbed(s, Next(s, SetRetired(id, retired)), v)
  {
  }

  lemma StepDisturbsNobodyElse(s: System, e: Event, v: nat)
    requires ValidBundles(s.bundles) && Numbered(s) && WritersHold(s)
    requires Enabled(s, e) && v in s.writers && ActorOf(e) != Some(v)
    ensures Undisturbed(s, Next(s, e), v)
  {
    hide ValidBundles, Numbered, Enabled, WritersHold, Undisturbed, Next, LocksKept;
    match e
    case CommitWrite(w) =>
      CommitStep(s, w);
      CommitDisturbsNobody(s, w, v);
    case CommitCreate(w, id) =>
      CreateStep(s, w, id);
      CreationDisturbsNobody(s, w, id, v);
    case SyncFilesystem(id, b) => SyncDisturbsNobody(s, id, b, v);
    case TakeLock(w) => LocksDisturbNobody(s, e, v);
    case LockName(w) => LocksDisturbNobody(s, e, v);
    case Refuse(w) => LocksDisturbNobody(s, e, v);
    case SetRetired(id, retired) => RetiringDisturbsNobody(s, id, retired, v);
    case Unregister(id) => UnregisteringDisturbsNobody(s, id, v);
    case SetStoreSource(keep) => SettingDisturbsNobody(s, keep, v);
    case _ =>
      QuietStep(s, e);
      SameLocks(s, Next(s, e), v);
      QuietDisturbsNobody(s, Next(s, e), v);
  }

  lemma SettingDisturbsNobody(s: System, keep: bool, v: nat)
    requires Enabled(s, SetStoreSource(keep)) && v in s.writers
    ensures Undisturbed(s, Next(s, SetStoreSource(keep)), v)
  {
    hide Undisturbed, LocksKept;
    SameLocks(s, Next(s, SetStoreSource(keep)), v);
    QuietDisturbsNobody(s, Next(s, SetStoreSource(keep)), v);
  }

  lemma SameLocks(s: System, s': System, v: nat)
    requires s'.locks == s.locks && s'.lockKey == s.lockKey
    ensures LocksKept(s, s', v)
  {
  }

  lemma QuietDisturbsNobody(s: System, s': System, v: nat)
    requires v in s.writers && v in s'.writers && s'.writers[v] == s.writers[v] && s'.lockKey == s.lockKey
    requires s'.bundles == s.bundles && s'.used == s.used
    requires LocksKept(s, s', v)
    ensures Undisturbed(s, s', v)
  {
    hide LocksKept, Holds;
  }

  /** A snapshot that can be carried is every file's kept bytes. */
  lemma SnapshotIsTheBundle(rows: seq<Row>, files: Files)
    requires Lists(rows, files) && CanCarry(rows)
    ensures DistinctPaths(FilesOf(rows)) && Reads(files, FilesOf(rows))
  {
    hide MapOf, SizeOf;
    var taken := FilesOf(rows);
    assert DistinctPaths(taken);
    forall p | p in files ensures p in MapOf(taken) && Some(MapOf(taken)[p]) == files[p].kept {
      var r :| r in rows && r.path == p;
      var i :| 0 <= i < |rows| && rows[i] == r;
      assert taken[i] in taken;
      MapOfListed(taken, taken[i]);
    }
    forall p | p in MapOf(taken) ensures p in files {
      var f :| f in taken && f.path == p;
      var i :| 0 <= i < |taken| && taken[i] == f;
      assert rows[i] in rows;
    }
    assert MapOf(taken) == Readable(files);
  }

  /** What is sent back is the call carried out on what was read. */
  lemma EditsExecute(call: Call, files: seq<File>, changed: seq<File>)
    requires Edits(call, files, changed)
    ensures Accepts(MapOf(files), call) && MapOf(changed) == Plainly(MapOf(files), call)
  {
    hide DistinctPaths, MapOf;
  }

  /** Resolving again under the lock finds a bundle of the locked name. */
  lemma OwnResolve(s: System, w: nat, id: int)
    requires ValidBundles(s.bundles) && Numbered(s) && Enabled(s, ResolveAgain(w, id)) && StageHolds(s, w)
    ensures StageHolds(Next(s, ResolveAgain(w, id)), w)
  {
  }

  lemma OwnSameBundle(s: System, w: nat)
    requires Enabled(s, CheckSameBundle(w)) && StageHolds(s, w)
    ensures StageHolds(Next(s, CheckSameBundle(w)), w)
  {
  }

  lemma OwnSnapshot(s: System, w: nat, rows: seq<Row>)
    requires Enabled(s, ReadSnapshot(w, rows)) && StageHolds(s, w)
    ensures StageHolds(Next(s, ReadSnapshot(w, rows)), w)
  {
    hide PathOutside, MapOf, DistinctPaths, Lists, Reads, CanCarry;
    SnapshotIsTheBundle(rows, FilesAt(s, StageOf(s, w).found.id));
  }

  lemma OwnRegister(s: System, w: nat, files: seq<File>)
    requires Enabled(s, Register(w, files)) && StageHolds(s, w)
    ensures StageHolds(Next(s, Register(w, files)), w)
  {
    hide PathOutside, MapOf, DistinctPaths, Accepts, Plainly, Edits;
    EditsExecute(StageOf(s, w).call, StageOf(s, w).files, files);
  }

  lemma OwnName(s: System, w: nat)
    requires ValidBundles(s.bundles) && Enabled(s, CheckName(w)) && StageHolds(s, w)
    ensures StageHolds(Next(s, CheckName(w)), w)
  {
    UnusedInTenant(s, w, StageOf(s, w).call.name);
  }

  lemma OwnLock(s: System, w: nat, e: Event)
    requires Enabled(s, e) && (e == TakeLock(w) || e == LockName(w)) && StageHolds(s, w)
    ensures StageHolds(Next(s, e), w)
  {
  }

  /** A check that only reads moves the writer on with what it has. */
  lemma OwnCheck(s: System, w: nat, e: Event)
    requires Enabled(s, e) && ActorOf(e) == Some(w) && StageHolds(s, w)
    requires e.CheckNothingLost? || e.CheckPackages? || e.Measure? || e.RegisterEmpty?
    ensures StageHolds(Next(s, e), w)
  {
    hide PathOutside, Lists;
  }

  lemma OwnStartOrEnd(s: System, w: nat, e: Event)
    requires Numbered(s) && Enabled(s, e) && ActorOf(e) == Some(w) && StageHolds(s, w)
    requires e.Begin? || e.EnsureSources? || e.Resolve? || e.Refuse?
    ensures StageHolds(Next(s, e), w)
  {
    hide PathOutside, MapOf, DistinctPaths, Reads, Sends, Unused, Holds, Written;
  }

  lemma StepKeepsOwnStage(s: System, e: Event, w: nat)
    requires ValidBundles(s.bundles) && Numbered(s) && w in s.writers && StageHolds(s, w)
    requires Enabled(s, e) && ActorOf(e) == Some(w)
    ensures w in Next(s, e).writers && StageHolds(Next(s, e), w)
  {
    hide StageHolds, Next, Enabled, ValidBundles, Numbered;
    StepKeepsIdentity(s, e);
    match e
    case ResolveAgain(_, id) => OwnResolve(s, w, id);
    case CheckSameBundle(_) => OwnSameBundle(s, w);
    case ReadSnapshot(_, rows) => OwnSnapshot(s, w, rows);
    case Register(_, files) => OwnRegister(s, w, files);
    case CheckName(_) => OwnName(s, w);
    case TakeLock(_) => OwnLock(s, w, e);
    case LockName(_) => OwnLock(s, w, e);
    case CheckNothingLost(_) => OwnCheck(s, w, e);
    case CheckPackages(_) => OwnCheck(s, w, e);
    case Measure(_, _) => OwnCheck(s, w, e);
    case RegisterEmpty(_) => OwnCheck(s, w, e);
    case CommitWrite(_) =>
      CommitStep(s, w);
      OwnCommit(s, w);
    case CommitCreate(_, id) =>
      CreateStep(s, w, id);
      OwnCreation(s, w, id);
    case _ => OwnStartOrEnd(s, w, e);
  }

  lemma OwnCommit(s: System, w: nat)
    requires CanCommit(s, w)
    ensures w in Committed(s, w).writers && StageHolds(Committed(s, w), w)
  {
  }

  lemma OwnCreation(s: System, w: nat, id: int)
    requires CanCreate(s, w, id)
    ensures w in Creating(s, w, id).writers && StageHolds(Creating(s, w, id), w)
  {
  }

  lemma UnusedInTenant(s: System, w: nat, name: string)
    requires ValidBundles(s.bundles) && w in s.writers
    requires forall id :: id in s.bundles && Visible(s.writers[w], s.bundles[id]) ==>
               s.bundles[id].path != ContentPath(name)
    ensures Unused(s, Effective(s.writers[w].tenant), name)
  {
  }

  lemma StepKeepsWriters(s: System, e: Event)
    requires ValidBundles(s.bundles) && Numbered(s) && WritersHold(s) && Enabled(s, e)
    ensures WritersHold(Next(s, e))
  {
    hide Next, Enabled, StageHolds, Undisturbed, ValidBundles, Numbered;
    StepKeepsIdentity(s, e);
    var s' := Next(s, e);
    forall v | v in s'.writers ensures StageHolds(s', v) {
      if ActorOf(e) == Some(v) {
        StepKeepsOwnStage(s, e, v);
      } else {
        StepDisturbsNobodyElse(s, e, v);
        UndisturbedStage(s, s', v);
      }
    }
  }

  // ----- Runs -----

  /** No transaction is open yet. */
  ghost predicate Initial(s: System) {
    && ValidBundles(s.bundles) && Numbered(s) && s.log == []
    && forall w :: w in s.writers ==> s.writers[w].stage.Idle?
  }

  /** Every content bundle is what the committed calls make of it, one after another. */
  ghost predicate IsSerial(start: map<int, Bundle>, s: System) {
    forall id :: id in s.bundles && s.bundles[id].source.Content? ==> s.bundles[id].files == Serial(start, s.log, id)
  }

  /** Each committed write was made on a bundle whose every file was kept, and was not refused. */
  ghost predicate CommitsSound(start: map<int, Bundle>, log: seq<Commit>) {
    forall i :: 0 <= i < |log| ==> SoundCommit(Serial(start, log[..i], log[i].id), log[i].call)
  }

  predicate SoundCommit(files: Files, call: Call) {
    call.Create? || (Complete(files) && Accepts(Readable(files), call))
  }

  ghost predicate Invariant(start: map<int, Bundle>, s: System) {
    ValidBundles(s.bundles) && Numbered(s) && WritersHold(s) && IsSerial(start, s) && CommitsSound(start, s.log)
  }

  lemma SerialOfOneMore(start: map<int, Bundle>, log: seq<Commit>, c: Commit, id: int)
    ensures Serial(start, log + [c], id)
         == if c.id == id then Executed(Serial(start, log, id), c.call, c.kept) else Serial(start, log, id)
  {
    assert (log + [c])[..|log|] == log;
  }

  lemma OneMoreSound(start: map<int, Bundle>, log: seq<Commit>, c: Commit)
    requires CommitsSound(start, log) && SoundCommit(Serial(start, log, c.id), c.call)
    ensures CommitsSound(start, log + [c])
  {
    hide SoundCommit, Serial;
    var more := log + [c];
    forall i | 0 <= i < |more|
      ensures SoundCommit(Serial(start, more[..i], more[i].id), more[i].call)
    {
      assert more[..i] == log[..i];
      if i == |log| {
        assert log[..i] == log;
      }
    }
  }

  /** Steps other than commits leave content bundles and the log alone. */
  lemma OnlyCommitsWrite(s: System, e: Event)
    requires Enabled(s, e) && !e.CommitWrite? && !e.CommitCreate?
    ensures Next(s, e).log == s.log
    ensures forall id :: id in Next(s, e).bundles && Next(s, e).bundles[id].source.Content? ==>
              id in s.bundles && s.bundles[id].source.Content? && Next(s, e).bundles[id].files == s.bundles[id].files
    ensures e.Refuse? ==> Next(s, e).bundles == s.bundles
  {
    if !Loud(e) {
      QuietStep(s, e);
      hide Next, Enabled;
    }
  }

  /** A committed write is its call executed on the committed files, and touches nothing else. */
  lemma CommitExecutes(s: System, w: nat)
    requires CanCommit(s, w) && StageHolds(s, w)
    ensures var s', stage := Committed(s, w), StageOf(s, w);
            var id, call := stage.found.id, stage.call;
            && !call.Create? && id in s.bundles && s.bundles[id].source.Content?
            && PathOutside(s.bundles[id].files.Keys, call.path)
            && Complete(s.bundles[id].files) && Accepts(Readable(s.bundles[id].files), call)
            && s'.log == s.log + [Commit(id, Effective(s.writers[w].tenant), call, stage.kept)]
            && s'.bundles.Keys == s.bundles.Keys
            && s'.bundles[id].files == Executed(s.bundles[id].files, call, stage.kept)
            && (forall other :: other in s.bundles && other != id ==> s'.bundles[other] == s.bundles[other])
  {
    hide PathOutside, MapOf, DistinctPaths, Registering, Accepts, Readable, Plainly, Complete, Written;
    WrittenByCommit(s, w);
  }

  lemma StepKeepsSerial(start: map<int, Bundle>, s: System, e: Event)
    requires Invariant(start, s) && Enabled(s, e)
    ensures IsSerial(start, Next(s, e)) && CommitsSound(start, Next(s, e).log)
  {
    hide Next, Enabled, StageHolds, ValidBundles, Numbered, CommitsSound;
    match e
    case CommitWrite(w) =>
      CommitStep(s, w);
      CommitIsSerial(start, s, w);
    case CommitCreate(w, made) =>
      CreateStep(s, w, made);
      CreationIsEmpty(start, s, w, made);
    case _ => OnlyCommitsWrite(s, e);
  }

  lemma CommitIsSerial(start: map<int, Bundle>, s: System, w: nat)
    requires IsSerial(start, s) && CommitsSound(start, s.log) && WritersHold(s) && CanCommit(s, w)
    ensures IsSerial(start, Committed(s, w)) && CommitsSound(start, Committed(s, w).log)
  {
    assert StageHolds(s, w);
    CommitExecutes(s, w);
    CommitKeepsSources(s, w);
    var s' := Committed(s, w);
    var stage := StageOf(s, w);
    var commit := Commit(stage.found.id, Effective(s.writers[w].tenant), stage.call, stage.kept);
    hide Committed, StageHolds, PathOutside, Executed, WritersHold, CommitsSound, Serial, Complete, Accepts, Readable;
    OneMoreSound(start, s.log, commit);
    forall id | id in s'.bundles && s'.bundles[id].source.Content?
      ensures s'.bundles[id].files == Serial(start, s'.log, id)
    {
      SerialOfOneMore(start, s.log, commit, id);
    }
  }

  lemma CommitKeepsSources(s: System, w: nat)
    requires CanCommit(s, w)
    ensures forall id :: id in Committed(s, w).bundles ==>
              id in s.bundles && Committed(s, w).bundles[id].source == s.bundles[id].source
  {
    hide Written;
    WrittenByCommit(s, w);
  }

  lemma CreationIsEmpty(start: map<int, Bundle>, s: System, w: nat, made: int)
    requires IsSerial(start, s) && CommitsSound(start, s.log) && CanCreate(s, w, made)
    ensures IsSerial(start, Creating(s, w, made)) && CommitsSound(start, Creating(s, w, made).log)
  {
    var s' := Creating(s, w, made);
    var commit := Commit(made, Effective(s.writers[w].tenant), StageOf(s, w).call, true);
    OneMoreSound(start, s.log, commit);
    hide CommitsSound, Serial;
    forall id | id in s'.bundles && s'.bundles[id].source.Content?
      ensures s'.bundles[id].files == Serial(start, s'.log, id)
    {
      SerialOfOneMore(start, s.log, commit, id);
    }
  }

  lemma StepKeepsInvariant(start: map<int, Bundle>, s: System, e: Event)
    requires Invariant(start, s) && Enabled(s, e)
    ensures Invariant(start, Next(s, e))
  {
    StepKeepsValidBundles(s, e);
    StepKeepsWriters(s, e);
    StepKeepsSerial(start, s, e);
    StepKeepsIdentity(s, e);
    hide Next, ValidBundles, WritersHold, IsSerial, CommitsSound;
  }

  lemma {:induction false} RunKeepsInvariant(start: map<int, Bundle>, s: System, run: seq<Event>)
    requires Invariant(start, s) && IsRun(s, run)
    ensures Invariant(start, After(s, run))
    decreases |run|
  {
    hide Invariant, Enabled, Next;
    if run != [] {
      StepKeepsInvariant(start, s, run[0]);
      RunKeepsInvariant(start, Next(s, run[0]), run[1..]);
    }
  }

  lemma InitialInvariant(s: System)
    requires Initial(s)
    ensures Invariant(s.bundles, s)
  {
  }

  /**
   * Serializability: for any number of writers and any interleaving of their
   * statements, every content bundle holds exactly what the committed calls
   * make of it when executed one by one, in commit order, each with its bytes
   * kept or not as the setting stood when it registered.
   */
  lemma WritesAreSerial(s: System, run: seq<Event>, id: int)
    requires Initial(s) && IsRun(s, run)
    requires id in After(s, run).bundles && After(s, run).bundles[id].source.Content?
    ensures After(s, run).bundles[id].files == Serial(s.bundles, After(s, run).log, id)
  {
    InitialInvariant(s);
    RunKeepsInvariant(s.bundles, s, run);
  }

  /** Commits are only ever added. */
  lemma {:induction false} LogGrows(s: System, run: seq<Event>)
    requires IsRun(s, run)
    ensures s.log <= After(s, run).log
    decreases |run|
  {
    if run != [] {
      StepAddsAtMostOne(s, run[0]);
      hide Enabled, Next;
      LogGrows(Next(s, run[0]), run[1..]);
    }
  }

  lemma StepAddsAtMostOne(s: System, e: Event)
    requires Enabled(s, e)
    ensures s.log <= Next(s, e).log && |Next(s, e).log| <= |s.log| + 1
    ensures |Next(s, e).log| > |s.log| ==> e.CommitWrite? || e.CommitCreate?
  {
    hide Next, Enabled, Written;
    if e.CommitWrite? {
      CommitStep(s, e.w);
    } else if e.CommitCreate? {
      CreateStep(s, e.w, e.id);
    } else {
      OnlyCommitsWrite(s, e);
    }
  }

  /** Somewhere in the run bundle `id` is unregistered, with more than `from` and at most `to` commits made. */
  ghost predicate UnregisteredWhile(s: System, run: seq<Event>, id: int, from: int, to: nat)
    requires IsRun(s, run)
    decreases |run|
  {
    && run != []
    && (|| (run[0] == Unregister(id) && from < |s.log| <= to)
        || UnregisteredWhile(Next(s, run[0]), run[1..], id, from, to))
  }

  /** What a committed creation says about the catalog it was committed to. */
  lemma CreationCommits(s: System, e: Event)
    requires WritersHold(s) && Enabled(s, e) && |Next(s, e).log| > |s.log| && Next(s, e).log[|s.log|].call.Create?
    ensures var c := Next(s, e).log[|s.log|];
      && Unused(s, c.tenant, c.call.name)
      && c.id in Next(s, e).bundles && Next(s, e).bundles[c.id] == EmptyBundle(c.tenant, c.call.name)
  {
    StepAddsAtMostOne(s, e);
    if e.CommitWrite? {
      CommitStep(s, e.w);
      assert StageHolds(s, e.w);
      hide Next, Enabled, WritersHold, StageHolds;
      CommitExecutes(s, e.w);
    } else {
      CreateStep(s, e.w, e.id);
      assert StageHolds(s, e.w);
      hide Next, Enabled, WritersHold;
    }
  }

  /** A tenant's content bundle keeps its name from being created until it is unregistered. */
  lemma {:induction false} CreatedOnlyOnceFreed(start: map<int, Bundle>, s: System, run: seq<Event>, id: int, from: int, j: nat)
    requires Invariant(start, s) && IsRun(s, run) && from < |s.log| <= j < |After(s, run).log|
    requires id in s.bundles && After(s, run).log[j].call.Create?
    requires s.bundles[id].tenant == After(s, run).log[j].tenant
    requires s.bundles[id].path == ContentPath(After(s, run).log[j].call.name)
    ensures UnregisteredWhile(s, run, id, from, j)
    decreases |run|
  {
    hide Next, Enabled, ValidBundles, WritersHold, IsSerial, CommitsSound;
    var e := run[0];
    var s' := Next(s, e);
    LogGrows(s', run[1..]);
    StepAddsAtMostOne(s, e);
    if |s.log| == j && |s'.log| > j {
      CreationCommits(s, e);
    } else if e != Unregister(id) {
      StepKeepsInvariant(start, s, e);
      StepKeepsIdentity(s, e);
      OnlyUnregisteringRemoves(s, e, id);
      assert id in s.used;
      CreatedOnlyOnceFreed(start, s', run[1..], id, from, j);
    }
  }

  lemma OnlyUnregisteringRemoves(s: System, e: Event, id: int)
    requires Enabled(s, e) && id in s.bundles && e != Unregister(id)
    ensures id in Next(s, e).bundles
  {
    hide Written;
    if !Loud(e) {
      QuietStep(s, e);
    }
  }

  /** A second committed creation of a name in a tenant comes only after the first one's bundle was unregistered. */
  lemma OneCreationPerName(s: System, run: seq<Event>, i: nat, j: nat)
    requires Initial(s) && IsRun(s, run) && i < j < |After(s, run).log|
    requires After(s, run).log[i].call.Create? && After(s, run).log[j].call.Create?
    requires After(s, run).log[i].call.name == After(s, run).log[j].call.name
    requires After(s, run).log[i].tenant == After(s, run).log[j].tenant
    ensures UnregisteredWhile(s, run, After(s, run).log[i].id, i, j)
  {
    InitialInvariant(s);
    SecondCreation(s.bundles, s, run, i, j);
  }

  lemma {:induction false} SecondCreation(start: map<int, Bundle>, s: System, run: seq<Event>, i: nat, j: nat)
    requires Invariant(start, s) && IsRun(s, run) && |s.log| <= i < j < |After(s, run).log|
    requires After(s, run).log[i].call.Create? && After(s, run).log[j].call.Create?
    requires After(s, run).log[i].call.name == After(s, run).log[j].call.name
    requires After(s, run).log[i].tenant == After(s, run).log[j].tenant
    ensures UnregisteredWhile(s, run, After(s, run).log[i].id, i, j)
    decreases |run|
  {
    hide Next, Enabled, ValidBundles, Numbered, WritersHold, IsSerial, CommitsSound;
    var e := run[0];
    var s' := Next(s, e);
    StepAddsAtMostOne(s, e);
    StepKeepsInvariant(start, s, e);
    LogGrows(s', run[1..]);
    if |s'.log| > i {
      CreationCommits(s, e);
      CreatedOnlyOnceFreed(start, s', run[1..], s'.log[i].id, i, j);
    } else {
      SecondCreation(start, s', run[1..], i, j);
    }
  }

  /** A name taken from the start is created in its tenant only after its bundle was unregistered. */
  lemma TakenNamesAreNotCreated(s: System, run: seq<Event>, id: int, j: nat)
    requires Initial(s) && IsRun(s, run) && id in s.bundles && s.bundles[id].source.Content?
    requires j < |After(s, run).log| && After(s, run).log[j].call.Create?
    requires s.bundles[id].name == Some(After(s, run).log[j].call.name)
    requires s.bundles[id].tenant == After(s, run).log[j].tenant
    ensures UnregisteredWhile(s, run, id, -1, j)
  {
    InitialInvariant(s);
    CreatedOnlyOnceFreed(s.bundles, s, run, id, -1, j);
  }

  /**
   * Each commit changes one path of one bundle, and a refusal changes nothing.
   * Of every other path it leaves the kept bytes, which are then what is shown.
   */
  lemma CommitsChangeOnePath(start: map<int, Bundle>, s: System, e: Event)
    requires Invariant(start, s) && Enabled(s, e)
    ensures e.Refuse? ==> Next(s, e).bundles == s.bundles && Next(s, e).log == s.log
    ensures e.CommitWrite? ==>
              && CanCommit(s, e.w)
              && var id, path := StageOf(s, e.w).found.id, StageOf(s, e.w).call.path;
              && id in s.bundles && Next(s, e).bundles.Keys == s.bundles.Keys
              && (forall other :: other in s.bundles && other != id ==> Next(s, e).bundles[other] == s.bundles[other])
              && (forall p :: p != path ==> OthersAsKept(s.bundles[id].files, Next(s, e).bundles[id].files, p))
  {
    hide PathOutside, Next, Executed, Enabled, Accepts, Readable, ValidBundles, IsSerial, CommitsSound;
    if e.CommitWrite? {
      CommitStep(s, e.w);
      assert StageHolds(s, e.w);
      hide StageHolds, WritersHold;
      CommitExecutes(s, e.w);
      var stage := StageOf(s, e.w);
      var files := s.bundles[stage.found.id].files;
      forall p | p != stage.call.path
        ensures OthersAsKept(files, Next(s, e).bundles[stage.found.id].files, p)
      {
        OtherFiles(files, stage.call, stage.kept, p);
      }
    } else if e.Refuse? {
      OnlyCommitsWrite(s, e);
    }
  }

  /** The path is as it was, but that stale content gives way to what is kept. */
  ghost predicate OthersAsKept(files: Files, files': Files, p: string) {
    && (p in files' <==> p in files)
    && (p in files ==>
          && files'[p].kept == files[p].kept && files'[p].kept == Some(files'[p].content)
          && (files[p].kept == Some(files[p].content) ==> files'[p] == files[p]))
  }

  // ----- Versions and logs -----

  /** A commit finds no version and no log to take. */
  lemma CommitTakesNoVersion(start: map<int, Bundle>, s: System, w: nat)
    requires Invariant(start, s) && CanCommit(s, w)
    ensures var id := StageOf(s, w).found.id;
      && id in s.bundles && !s.bundles[id].hasVersion && !s.bundles[id].hasLog
  {
    assert StageHolds(s, w);
    hide PathOutside, IsSerial, CommitsSound, Sends;
  }

  lemma StepKeepsVersion(start: map<int, Bundle>, s: System, e: Event, id: int)
    requires Invariant(start, s) && Enabled(s, e)
    requires id in s.bundles && s.bundles[id].source.Content? && id in Next(s, e).bundles
    ensures Next(s, e).bundles[id].hasVersion == s.bundles[id].hasVersion
    ensures Next(s, e).bundles[id].hasLog == s.bundles[id].hasLog
  {
    hide Next, Enabled, Written, ValidBundles, WritersHold, IsSerial, CommitsSound;
    if e.CommitWrite? {
      CommitStep(s, e.w);
      CommitTakesNoVersion(start, s, e.w);
      WrittenByCommit(s, e.w);
    } else if e.CommitCreate? {
      CreateStep(s, e.w, e.id);
      CreationLeavesOthers(s, e.w, e.id, id);
    } else if Loud(e) {
      LoudStepKeepsVersion(s, e, id);
    } else {
      QuietStep(s, e);
    }
  }

  lemma LoudStepKeepsVersion(s: System, e: Event, id: int)
    requires Enabled(s, e) && Loud(e) && !e.CommitWrite? && !e.CommitCreate?
    requires id in s.bundles && s.bundles[id].source.Content? && id in Next(s, e).bundles
    ensures Next(s, e).bundles[id].hasVersion == s.bundles[id].hasVersion
    ensures Next(s, e).bundles[id].hasLog == s.bundles[id].hasLog
  {
  }

  /** Over any run a content bundle that has a version or a log keeps it, for as long as it is registered. */
  lemma {:induction false} VersionsAreNeverLost(start: map<int, Bundle>, s: System, run: seq<Event>, id: int)
    requires Invariant(start, s) && IsRun(s, run)
    requires id in s.bundles && s.bundles[id].source.Content? && id in After(s, run).bundles
    ensures After(s, run).bundles[id].hasVersion == s.bundles[id].hasVersion
    ensures After(s, run).bundles[id].hasLog == s.bundles[id].hasLog
    decreases |run|
  {
    hide Invariant, Enabled, Next;
    if run != [] {
      var e := run[0];
      StepKeepsInvariant(start, s, e);
      StillRegistered(start, s, e, run[1..], id);
      StepKeepsVersion(start, s, e, id);
      VersionsAreNeverLost(start, Next(s, e), run[1..], id);
    }
  }

  /** A bundle registered at both ends of a run was registered throughout, and of the same kind. */
  lemma StillRegistered(start: map<int, Bundle>, s: System, e: Event, rest: seq<Event>, id: int)
    requires Invariant(start, s) && Enabled(s, e) && IsRun(Next(s, e), rest)
    requires id in s.bundles && id in After(Next(s, e), rest).bundles
    ensures id in Next(s, e).bundles && Next(s, e).bundles[id].source == s.bundles[id].source
  {
    hide Enabled, Next, ValidBundles, WritersHold, IsSerial, CommitsSound;
    StepKeepsIdentity(s, e);
    assert id in s.used;
    if id !in Next(s, e).bundles {
      GoneStaysGone(Next(s, e), rest, id);
    }
  }

  /**
   * Registering under the name lands on the bundle that was read exactly when
   * that bundle is still there, and never on another: once it is unregistered
   * the name is unused, and the landing check refuses the row it would make.
   */
  lemma WritesLandWhereTheyRead(start: map<int, Bundle>, s: System, w: nat)
    requires Invariant(start, s) && w in s.writers && StageOf(s, w).Snapped?
    ensures var found := StageOf(s, w).found;
            && (LandsOn(s, s.writers[w], found.named, found.id) <==> found.id in s.bundles)
            && (forall id :: LandsOn(s, s.writers[w], found.named, id) ==> id == found.id)
            && (found.id !in s.bundles <==> Unused(s, Effective(s.writers[w].tenant), found.named))
  {
    assert StageHolds(s, w);
    hide PathOutside, Reads, DistinctPaths, IsSerial, CommitsSound;
  }

  // ----- Packages -----

  /**
   * Packages are served whole and never edited: over any run, a content
   * bundle keeps its package roots and the bytes kept of every file below
   * them, for as long as it is registered.
   */
  lemma {:induction false} PackagesAreNeverEdited(start: map<int, Bundle>, s: System, run: seq<Event>, id: int)
    requires Invariant(start, s) && IsRun(s, run)
    requires id in s.bundles && s.bundles[id].source.Content? && id in After(s, run).bundles
    ensures PackagesStay(s.bundles[id].files, After(s, run).bundles[id].files)
    decreases |run|
  {
    hide Invariant, Enabled, Next, PackagesStay;
    if run == [] {
      NothingChanges(s.bundles[id].files);
    } else {
      var e := run[0];
      StepKeepsInvariant(start, s, e);
      StillRegistered(start, s, e, run[1..], id);
      StepKeepsPackages(start, s, e, id);
      PackagesAreNeverEdited(start, Next(s, e), run[1..], id);
      PackagesStayOn(s.bundles[id].files, Next(s, e).bundles[id].files, After(s, run).bundles[id].files);
    }
  }

  lemma NothingChanges(files: Files)
    ensures PackagesStay(files, files)
  {
  }

  /** An id that was given out and is gone never comes back. */
  lemma {:induction false} GoneStaysGone(s: System, run: seq<Event>, id: int)
    requires IsRun(s, run) && id in s.used && id !in s.bundles
    ensures id !in After(s, run).bundles
    decreases |run|
  {
    if run != [] {
      StepKeepsIdentity(s, run[0]);
      hide Enabled, Next;
      GoneStaysGone(Next(s, run[0]), run[1..], id);
    }
  }

  lemma StepKeepsPackages(start: map<int, Bundle>, s: System, e: Event, id: int)
    requires Invariant(start, s) && Enabled(s, e)
    requires id in s.bundles && s.bundles[id].source.Content? && id in Next(s, e).bundles
    requires Next(s, e).bundles[id].source.Content?
    ensures PackagesStay(s.bundles[id].files, Next(s, e).bundles[id].files)
  {
    hide PackagesStay, Next, Enabled, ValidBundles, IsSerial, CommitsSound, Executed, Complete, Accepts, Readable, PathOutside;
    NothingChanges(s.bundles[id].files);
    if e.CommitWrite? {
      CommitStep(s, e.w);
      assert StageHolds(s, e.w);
      hide StageHolds;
      CommitExecutes(s, e.w);
      var stage := StageOf(s, e.w);
      if stage.found.id == id {
        ExecutionOutsidePackages(s.bundles[id].files, stage.call, stage.kept);
      }
    } else if e.CommitCreate? {
      CreateStep(s, e.w, e.id);
      CreationLeavesOthers(s, e.w, e.id, id);
    } else {
      OnlyCommitsWrite(s, e);
    }
  }

  lemma CreationLeavesOthers(s: System, w: nat, made: int, id: int)
    requires Numbered(s) && CanCreate(s, w, made) && id in s.bundles
    ensures id in Creating(s, w, made).bundles && Creating(s, w, made).bundles[id] == s.bundles[id]
  {
  }
}
