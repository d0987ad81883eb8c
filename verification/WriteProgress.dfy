/**
 * The other half of the write protocol: a write that nothing stands in the way
 * of does go through. What stands in the way is only what its own statements
 * ask, all of it visible in the committed catalog before the call.
 */
module WriteProgress {
  import opened Text
  import opened Snapshots
  import opened Registration
  import opened WriteProtocol

  /** Everything the statements of one put or delete ask of the committed catalog, but the setting. */
  ghost predicate Writable(s: System, w: nat, call: Call, id: int, rows: seq<Row>, edited: seq<File>) {
    && w in s.writers && !call.Create?
    && ResolvesTo(s, s.writers[w], call.ref, id) && s.bundles[id].source.Content?
    && NamesOnly(s, s.writers[w], Label(s.bundles[id]), id)
    && !s.bundles[id].retired && !s.bundles[id].hasVersion && !s.bundles[id].hasLog
    && s.bundles[id].fileCount <= MAX_SNAPSHOT_FILES
    && PathOutside(s.bundles[id].files.Keys, call.path)
    && Lists(rows, s.bundles[id].files) && CanCarry(rows)
    && Edits(call, FilesOf(rows), edited)
  }

  /** The statements of one put or delete, in order. */
  function Statements(w: nat, call: Call, id: int, rows: seq<Row>, edited: seq<File>): seq<Event> {
    BeforeLock(w, call, id) + (Reading(w, id, rows) + Writing(w, edited))
  }

  function BeforeLock(w: nat, call: Call, id: int): seq<Event> {
    [Begin(w, call), EnsureSources(w), Resolve(w, id), TakeLock(w)]
  }

  function Reading(w: nat, id: int, rows: seq<Row>): seq<Event> {
    [ResolveAgain(w, id), CheckSameBundle(w), CheckNothingLost(w), CheckPackages(w)]
    + [Measure(w, rows), ReadSnapshot(w, rows)]
  }

  function Writing(w: nat, edited: seq<File>): seq<Event> {
    [Register(w, edited), CommitWrite(w)]
  }

  lemma {:induction false} RunsCompose(s: System, a: seq<Event>, b: seq<Event>)
    requires IsRun(s, a) && IsRun(After(s, a), b)
    ensures IsRun(s, a + b) && After(s, a + b) == After(After(s, a), b)
    decreases |a|
  {
    hide Enabled, Next;
    if a == [] {
      assert a + b == b;
    } else {
      assert (a + b)[1..] == a[1..] + b;
      RunsCompose(Next(s, a[0]), a[1..], b);
    }
  }

  lemma OneStep(s: System, e: Event)
    requires Enabled(s, e)
    ensures IsRun(s, [e]) && After(s, [e]) == Next(s, e)
  {
    hide Enabled, Next;
    assert [e][1..] == [];
  }

  lemma FourSteps(s: System, t: System, u: System, v: System, x: System, a: Event, b: Event, c: Event, d: Event)
    requires Enabled(s, a) && Next(s, a) == t && Enabled(t, b) && Next(t, b) == u
    requires Enabled(u, c) && Next(u, c) == v && Enabled(v, d) && Next(v, d) == x
    ensures IsRun(s, [a, b, c, d]) && After(s, [a, b, c, d]) == x
  {
    hide Enabled, Next, IsRun, After;
    OneStep(s, a);
    OneStep(t, b);
    OneStep(u, c);
    OneStep(v, d);
    RunsCompose(u, [c], [d]);
    RunsCompose(t, [b], [c] + [d]);
    RunsCompose(s, [a], [b] + ([c] + [d]));
    assert [a] + ([b] + ([c] + [d])) == [a, b, c, d];
  }

  lemma TwoSteps(s: System, t: System, u: System, a: Event, b: Event)
    requires Enabled(s, a) && Next(s, a) == t && Enabled(t, b) && Next(t, b) == u
    ensures IsRun(s, [a, b]) && After(s, [a, b]) == u
  {
    hide Enabled, Next, IsRun, After;
    OneStep(s, a);
    OneStep(t, b);
    RunsCompose(s, [a], [b]);
    assert [a] + [b] == [a, b];
  }

  /** A writer's stage, put anew. */
  lemma AtAgain(s: System, w: nat, a: Stage, b: Stage)
    requires w in s.writers
    ensures At(At(s, w, a), w, b) == At(s, w, b)
  {
    assert s.writers[w := s.writers[w].(stage := a)][w := s.writers[w].(stage := b)]
        == s.writers[w := s.writers[w].(stage := b)];
  }

  /** What the statements ask does not depend on how far the writer has come, or on the locks. */
  lemma WritableAt(s: System, w: nat, call: Call, id: int, rows: seq<Row>, edited: seq<File>, stage: Stage)
    requires Writable(s, w, call, id, rows, edited)
    ensures Writable(At(s, w, stage), w, call, id, rows, edited)
    ensures StageOf(At(s, w, stage), w) == stage
  {
    hide PathOutside, Lists, Edits, CanCarry;
  }

  lemma FirstSteps(s: System, w: nat, call: Call, id: int, rows: seq<Row>, edited: seq<File>)
    requires Writable(s, w, call, id, rows, edited) && StageOf(s, w).Idle? && s.storeSource
    requires LockFree(s, w, Label(s.bundles[id]))
    ensures IsRun(s, BeforeLock(w, call, id))
    ensures var named := Label(s.bundles[id]);
      After(s, BeforeLock(w, call, id)) == Lock(At(s, w, Locked(call, named)), w, named)
  {
    hide PathOutside, Lists, Edits, CanCarry, NamesOnly, IsRun, After;
    var named := Label(s.bundles[id]);
    var s1, s2, s3 := At(s, w, Begun(call)), At(s, w, SourcesKept(call)), At(s, w, Resolved(call, named));
    AtAgain(s, w, Begun(call), SourcesKept(call));
    AtAgain(s, w, SourcesKept(call), Resolved(call, named));
    AtAgain(s, w, Resolved(call, named), Locked(call, named));
    WritableAt(s, w, call, id, rows, edited, SourcesKept(call));
    FourSteps(s, s1, s2, s3, Lock(At(s, w, Locked(call, named)), w, named),
              Begin(w, call), EnsureSources(w), Resolve(w, id), TakeLock(w));
  }

  lemma Checks(t: System, w: nat, call: Call, id: int, rows: seq<Row>, edited: seq<File>)
    requires Writable(t, w, call, id, rows, edited)
    ensures var found := FoundRow(t, id);
      var a, b := At(t, w, Locked(call, found.named)), At(t, w, Rechecked(call, found));
      var c, d := At(t, w, Confirmed(call, found)), At(t, w, Whole(call, found));
      && Enabled(a, ResolveAgain(w, id)) && Next(a, ResolveAgain(w, id)) == b
      && Enabled(b, CheckSameBundle(w)) && Next(b, CheckSameBundle(w)) == c
      && Enabled(c, CheckNothingLost(w)) && Next(c, CheckNothingLost(w)) == d
  {
    hide PathOutside, Lists, Edits, CanCarry;
    var found := FoundRow(t, id);
    AtAgain(t, w, Locked(call, found.named), Rechecked(call, found));
    AtAgain(t, w, Rechecked(call, found), Confirmed(call, found));
    AtAgain(t, w, Confirmed(call, found), Whole(call, found));
    WritableAt(t, w, call, id, rows, edited, Locked(call, found.named));
    WritableAt(t, w, call, id, rows, edited, Rechecked(call, found));
  }

  lemma Looks(t: System, w: nat, call: Call, id: int, rows: seq<Row>, edited: seq<File>)
    requires Writable(t, w, call, id, rows, edited)
    ensures var found := FoundRow(t, id);
      var a, b := At(t, w, Whole(call, found)), At(t, w, OutsidePackages(call, found));
      var c, d := At(t, w, Measured(call, found)), At(t, w, Snapped(call, found, FilesOf(rows)));
      && Enabled(a, CheckPackages(w)) && Next(a, CheckPackages(w)) == b
      && Enabled(b, Measure(w, rows)) && Next(b, Measure(w, rows)) == c
      && Enabled(c, ReadSnapshot(w, rows)) && Next(c, ReadSnapshot(w, rows)) == d
  {
    hide PathOutside, Lists, Edits, ResolvesTo, NamesOnly, SizeOf;
    WritableMeans(t, w, call, id, rows, edited);
    var found := FoundRow(t, id);
    AtAgain(t, w, Whole(call, found), OutsidePackages(call, found));
    AtAgain(t, w, OutsidePackages(call, found), Measured(call, found));
    AtAgain(t, w, Measured(call, found), Snapped(call, found, FilesOf(rows)));
  }

  /** The bundle the name stands for is the one a registration addresses. */
  lemma Addressed(t: System, writer: Writer, id: int)
    requires ValidBundles(t.bundles) && id in t.bundles && t.bundles[id].source.Content?
    requires NamesOnly(t, writer, Label(t.bundles[id]), id)
    ensures LandsOn(t, writer, Label(t.bundles[id]), id)
  {
  }

  /** The read half of a transaction, from its lock on. */
  lemma ReadingRuns(t: System, w: nat, call: Call, id: int, rows: seq<Row>, edited: seq<File>)
    requires Writable(t, w, call, id, rows, edited) && StageOf(t, w) == Locked(call, Label(t.bundles[id]))
    ensures IsRun(t, Reading(w, id, rows))
    ensures After(t, Reading(w, id, rows)) == At(t, w, Snapped(call, FoundRow(t, id), FilesOf(rows)))
  {
    hide Writable, Enabled, Next, IsRun, After;
    WritableMeans(t, w, call, id, rows, edited);
    var found := FoundRow(t, id);
    Checks(t, w, call, id, rows, edited);
    Looks(t, w, call, id, rows, edited);
    assert At(t, w, Locked(call, found.named)) == t by { Already(t, w); }
    var mid := At(t, w, OutsidePackages(call, found));
    FourSteps(t, At(t, w, Rechecked(call, found)), At(t, w, Confirmed(call, found)), At(t, w, Whole(call, found)), mid,
              ResolveAgain(w, id), CheckSameBundle(w), CheckNothingLost(w), CheckPackages(w));
    TwoSteps(mid, At(t, w, Measured(call, found)), At(t, w, Snapped(call, found, FilesOf(rows))),
             Measure(w, rows), ReadSnapshot(w, rows));
    RunsCompose(t, [ResolveAgain(w, id), CheckSameBundle(w), CheckNothingLost(w), CheckPackages(w)],
                [Measure(w, rows), ReadSnapshot(w, rows)]);
  }

  lemma Registers(t: System, w: nat, call: Call, id: int, rows: seq<Row>, edited: seq<File>)
    requires ValidBundles(t.bundles) && Writable(t, w, call, id, rows, edited)
    requires StageOf(t, w) == Snapped(call, FoundRow(t, id), FilesOf(rows))
    ensures var b := At(t, w, Registered(call, FoundRow(t, id), edited, t.storeSource));
      Enabled(t, Register(w, edited)) && Next(t, Register(w, edited)) == b && CanCommit(b, w)
  {
    hide PathOutside, Lists, Edits, ResolvesTo, NamesOnly, ValidBundles, LandsOn, Committed;
    WritableMeans(t, w, call, id, rows, edited);
    Addressed(t, t.writers[w], id);
  }

  /** The write half of a transaction, as the setting then stands. */
  lemma WritingRuns(t: System, w: nat, call: Call, id: int, rows: seq<Row>, edited: seq<File>)
    requires ValidBundles(t.bundles) && Writable(t, w, call, id, rows, edited)
    requires StageOf(t, w) == Snapped(call, FoundRow(t, id), FilesOf(rows))
    ensures IsRun(t, Writing(w, edited))
    ensures var b := At(t, w, Registered(call, FoundRow(t, id), edited, t.storeSource));
      CanCommit(b, w) && After(t, Writing(w, edited)) == Committed(b, w)
  {
    hide Writable, Enabled, Next, IsRun, After, ValidBundles, Committed;
    WritableMeans(t, w, call, id, rows, edited);
    Registers(t, w, call, id, rows, edited);
    var b := At(t, w, Registered(call, FoundRow(t, id), edited, t.storeSource));
    CommitStep(b, w);
    TwoSteps(t, b, Committed(b, w), Register(w, edited), CommitWrite(w));
  }

  lemma WritableMeans(t: System, w: nat, call: Call, id: int, rows: seq<Row>, edited: seq<File>)
    requires Writable(t, w, call, id, rows, edited)
    ensures w in t.writers && id in t.bundles && (forall r :: r in rows ==> r.bytes.Some?)
  {
    hide Lists, Edits, NamesOnly, PathOutside, SizeOf;
  }

  lemma Already(t: System, w: nat)
    requires w in t.writers
    ensures At(t, w, StageOf(t, w)) == t
  {
    assert t.writers[w := t.writers[w]] == t.writers;
  }

  /** The catalog after a transaction of an idle writer: one bundle written, one commit more, its locks gone. */
  ghost function Done(s: System, w: nat, call: Call, id: int, edited: seq<File>): System
    requires w in s.writers && id in s.bundles
  {
    s.(bundles := s.bundles[id := Written(s.bundles[id], edited, s.storeSource)],
       locks := map k | k in s.locks && s.locks[k] != w :: s.locks[k],
       log := s.log + [Commit(id, Effective(s.writers[w].tenant), call, s.storeSource)])
  }

  lemma CommittedIsDone(s: System, w: nat, call: Call, id: int, files: seq<File>, edited: seq<File>)
    requires w in s.writers && id in s.bundles && StageOf(s, w).Idle? && LockFree(s, w, Label(s.bundles[id]))
    ensures var named, found := Label(s.bundles[id]), FoundRow(s, id);
      var r := At(Lock(s, w, named), w, Snapped(call, found, files));
      var b := At(r, w, Registered(call, found, edited, s.storeSource));
      && CanCommit(b, w) && Committed(b, w) == Done(s, w, call, id, edited)
  {
    hide Written;
    var named, found := Label(s.bundles[id]), FoundRow(s, id);
    var r := At(Lock(s, w, named), w, Snapped(call, found, files));
    var b := At(r, w, Registered(call, found, edited, s.storeSource));
    var locked := Lock(s, w, named).locks;
    assert (map k | k in locked && locked[k] != w :: locked[k])
        == (map k | k in s.locks && s.locks[k] != w :: s.locks[k]);
    AtAgain(Lock(s, w, named), w, Snapped(call, found, files), Registered(call, found, edited, s.storeSource));
    assert Committed(b, w).writers == s.writers;
  }

  /** A transaction whose setting is changed after it has read the bundle, and before it registers. */
  function Switching(w: nat, call: Call, id: int, rows: seq<Row>, edited: seq<File>, keep: bool): seq<Event> {
    (BeforeLock(w, call, id) + Reading(w, id, rows)) + ([SetStoreSource(keep)] + Writing(w, edited))
  }

  /** Up to the snapshot nothing is changed but the writer's own stage and lock. */
  lemma ReadsThrough(s: System, w: nat, call: Call, id: int, rows: seq<Row>, edited: seq<File>)
    requires Writable(s, w, call, id, rows, edited) && StageOf(s, w).Idle? && s.storeSource
    requires LockFree(s, w, Label(s.bundles[id]))
    ensures forall r :: r in rows ==> r.bytes.Some?
    ensures IsRun(s, BeforeLock(w, call, id) + Reading(w, id, rows))
    ensures var r := At(Lock(s, w, Label(s.bundles[id])), w, Snapped(call, FoundRow(s, id), FilesOf(rows)));
      && After(s, BeforeLock(w, call, id) + Reading(w, id, rows)) == r
      && Writable(r, w, call, id, rows, edited)
  {
    hide Enabled, Next, IsRun, After, Lists, CanCarry, NamesOnly, ResolvesTo, PathOutside, Edits;
    WritableMeans(s, w, call, id, rows, edited);
    var named := Label(s.bundles[id]);
    FirstSteps(s, w, call, id, rows, edited);
    var t := Lock(At(s, w, Locked(call, named)), w, named);
    LockedIsWritable(s, w, call, id, rows, edited);
    ReadingRuns(t, w, call, id, rows, edited);
    RunsCompose(s, BeforeLock(w, call, id), Reading(w, id, rows));
    AtAgain(Lock(s, w, named), w, Locked(call, named), Snapped(call, FoundRow(s, id), FilesOf(rows)));
    WritableAt(t, w, call, id, rows, edited, Snapped(call, FoundRow(s, id), FilesOf(rows)));
  }

  /**
   * A call that finds its lock free, its bundle writable and sources kept runs
   * through all its statements, commits, and leaves the bundle as the call
   * executed on it.
   */
  lemma UncontendedWriteCommits(s: System, w: nat, call: Call, id: int, rows: seq<Row>, edited: seq<File>)
    requires ValidBundles(s.bundles) && Writable(s, w, call, id, rows, edited) && StageOf(s, w).Idle? && s.storeSource
    requires LockFree(s, w, Label(s.bundles[id]))
    ensures IsRun(s, Statements(w, call, id, rows, edited))
    ensures After(s, Statements(w, call, id, rows, edited)) == Done(s, w, call, id, edited)
    ensures Done(s, w, call, id, edited).bundles[id].files == Executed(s.bundles[id].files, call, true)
  {
    hide Enabled, Next, IsRun, After, ValidBundles, Writable, Committed, Executed;
    WritableMeans(s, w, call, id, rows, edited);
    ReadsThrough(s, w, call, id, rows, edited);
    var r := At(Lock(s, w, Label(s.bundles[id])), w, Snapped(call, FoundRow(s, id), FilesOf(rows)));
    WritingRuns(r, w, call, id, rows, edited);
    CommittedIsDone(s, w, call, id, FilesOf(rows), edited);
    RunsCompose(s, BeforeLock(w, call, id) + Reading(w, id, rows), Writing(w, edited));
    assert BeforeLock(w, call, id) + Reading(w, id, rows) + Writing(w, edited) == Statements(w, call, id, rows, edited);
    DoneExecutes(s, w, call, id, rows, edited);
  }

  /** What a finished transaction leaves is its call executed, its bytes kept as the setting stood. */
  lemma DoneExecutes(s: System, w: nat, call: Call, id: int, rows: seq<Row>, edited: seq<File>)
    requires Writable(s, w, call, id, rows, edited)
    ensures Done(s, w, call, id, edited).bundles[id].files == Executed(s.bundles[id].files, call, s.storeSource)
    ensures Complete(s.bundles[id].files) && Accepts(Readable(s.bundles[id].files), call)
  {
    hide MapOf, PathOutside, Lists, CanCarry, NamesOnly, ResolvesTo, Registering, Plainly, Accepts;
    WritableMeans(s, w, call, id, rows, edited);
    SnapshotIsTheBundle(rows, s.bundles[id].files);
    EditsExecute(call, FilesOf(rows), edited);
  }

  /** The same when the setting is changed in between: the bytes are kept or not as it stands at the registration. */
  lemma SwitchedWriteCommits(s: System, w: nat, call: Call, id: int, rows: seq<Row>, edited: seq<File>, keep: bool)
    requires ValidBundles(s.bundles) && Writable(s, w, call, id, rows, edited) && StageOf(s, w).Idle? && s.storeSource
    requires LockFree(s, w, Label(s.bundles[id]))
    ensures IsRun(s, Switching(w, call, id, rows, edited, keep))
    ensures After(s, Switching(w, call, id, rows, edited, keep)) == Done(s.(storeSource := keep), w, call, id, edited)
    ensures Done(s.(storeSource := keep), w, call, id, edited).bundles[id].files
         == Executed(s.bundles[id].files, call, keep)
  {
    hide Enabled, Next, IsRun, After, ValidBundles, Writable, Committed, Executed, Done;
    WritableMeans(s, w, call, id, rows, edited);
    ReadsThrough(s, w, call, id, rows, edited);
    var r := At(Lock(s, w, Label(s.bundles[id])), w, Snapped(call, FoundRow(s, id), FilesOf(rows)));
    var switched := r.(storeSource := keep);
    SwitchStep(r, keep);
    WritableWhatever(r, w, call, id, rows, edited, keep);
    WritableWhatever(s, w, call, id, rows, edited, keep);
    WritingRuns(switched, w, call, id, rows, edited);
    CommittedIsDone(s.(storeSource := keep), w, call, id, FilesOf(rows), edited);
    RunsCompose(r, [SetStoreSource(keep)], Writing(w, edited));
    RunsCompose(s, BeforeLock(w, call, id) + Reading(w, id, rows), [SetStoreSource(keep)] + Writing(w, edited));
    DoneExecutes(s.(storeSource := keep), w, call, id, rows, edited);
  }

  lemma SwitchStep(s: System, keep: bool)
    ensures IsRun(s, [SetStoreSource(keep)]) && After(s, [SetStoreSource(keep)]) == s.(storeSource := keep)
  {
    OneStep(s, SetStoreSource(keep));
  }

  lemma WritableWhatever(s: System, w: nat, call: Call, id: int, rows: seq<Row>, edited: seq<File>, keep: bool)
    requires Writable(s, w, call, id, rows, edited)
    ensures Writable(s.(storeSource := keep), w, call, id, rows, edited)
  {
    hide PathOutside, Lists, Edits, CanCarry;
  }

  lemma LockedIsWritable(s: System, w: nat, call: Call, id: int, rows: seq<Row>, edited: seq<File>)
    requires Writable(s, w, call, id, rows, edited)
    ensures var named := Label(s.bundles[id]);
      var t := Lock(At(s, w, Locked(call, named)), w, named);
      && Writable(t, w, call, id, rows, edited) && t.bundles == s.bundles && t.log == s.log
      && StageOf(t, w) == Locked(call, named) && t.writers[w].tenant == s.writers[w].tenant
  {
    hide PathOutside, Lists, Edits, CanCarry;
  }

  // ----- Creating -----

  /** The name is nobody's that the writer can see. */
  ghost predicate Creatable(s: System, w: nat, name: string) {
    && w in s.writers && name != ""
    && forall id :: id in s.bundles && Visible(s.writers[w], s.bundles[id]) ==>
         s.bundles[id].name != Some(name) && s.bundles[id].path != ContentPath(name)
  }

  function CreationStatements(w: nat, name: string, id: int): seq<Event> {
    [Begin(w, Create(name)), LockName(w), CheckName(w), RegisterEmpty(w)] + [CommitCreate(w, id)]
  }

  /** A creation that finds its lock and its name free commits an empty bundle under any new id. */
  lemma UncontendedCreationCommits(s: System, w: nat, name: string, id: int)
    requires Creatable(s, w, name) && StageOf(s, w).Idle? && LockFree(s, w, name) && id !in s.used
    ensures IsRun(s, CreationStatements(w, name, id))
    ensures var u := After(s, CreationStatements(w, name, id));
      && u.log == s.log + [Commit(id, Effective(s.writers[w].tenant), Create(name), true)] && StageOf(u, w).Idle?
      && u.bundles == s.bundles[id := EmptyBundle(Effective(s.writers[w].tenant), name)]
  {
    hide IsRun, After, Enabled, Next;
    var call := Create(name);
    var t := Lock(s, w, name);
    CreationChecks(s, w, name);
    CreationWrites(s, w, name, id);
    FourSteps(s, At(s, w, Begun(call)), At(t, w, NameLocked(call)), At(t, w, NameFree(call)), At(t, w, Created(call)),
              Begin(w, call), LockName(w), CheckName(w), RegisterEmpty(w));
    OneStep(At(t, w, Created(call)), CommitCreate(w, id));
    RunsCompose(s, [Begin(w, call), LockName(w), CheckName(w), RegisterEmpty(w)], [CommitCreate(w, id)]);
  }

  lemma CreationChecks(s: System, w: nat, name: string)
    requires Creatable(s, w, name) && StageOf(s, w).Idle? && LockFree(s, w, name)
    ensures var call, t := Create(name), Lock(s, w, name);
      var a, b, c := At(s, w, Begun(call)), At(t, w, NameLocked(call)), At(t, w, NameFree(call));
      && Enabled(s, Begin(w, call)) && Next(s, Begin(w, call)) == a
      && Enabled(a, LockName(w)) && Next(a, LockName(w)) == b
      && Enabled(b, CheckName(w)) && Next(b, CheckName(w)) == c
  {
    var call, t := Create(name), Lock(s, w, name);
    AtAgain(s, w, Begun(call), NameLocked(call));
    AtAgain(t, w, NameLocked(call), NameFree(call));
  }

  lemma CreationWrites(s: System, w: nat, name: string, id: int)
    requires w in s.writers && id !in s.used
    ensures var call, t := Create(name), Lock(s, w, name);
      var c, d := At(t, w, NameFree(call)), At(t, w, Created(call));
      && Enabled(c, RegisterEmpty(w)) && Next(c, RegisterEmpty(w)) == d
      && Enabled(d, CommitCreate(w, id))
      && Next(d, CommitCreate(w, id)).log == s.log + [Commit(id, Effective(s.writers[w].tenant), call, true)]
      && StageOf(Next(d, CommitCreate(w, id)), w).Idle?
      && Next(d, CommitCreate(w, id)).bundles == s.bundles[id := EmptyBundle(Effective(s.writers[w].tenant), name)]
  {
    var call, t := Create(name), Lock(s, w, name);
    AtAgain(t, w, NameFree(call), Created(call));
  }

  /** Unregistering a tenant's bundle frees its name for a scoped writer of that tenant. */
  lemma UnregisteringFreesTheName(s: System, w: nat, id: int, name: string)
    requires ValidBundles(s.bundles) && Enabled(s, Unregister(id)) && s.bundles[id].source.Content?
    requires w in s.writers && s.writers[w].tenant == Some(s.bundles[id].tenant) && name != ""
    requires s.bundles[id].name == Some(name)
    requires forall other :: other in s.bundles && s.bundles[other].tenant == s.bundles[id].tenant && other != id ==>
               s.bundles[other].name != Some(name)
    ensures Creatable(Next(s, Unregister(id)), w, name)
  {
  }
}
