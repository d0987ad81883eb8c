/**
 * The setting that tells the catalog to keep document sources. A write asks
 * for it once, at its start; the registration reads it again. While it stays
 * on, writes are what they say; switched off in between, a committed put can
 * be lost.
 */
module SourceSetting {
  import opened Text
  import opened Snapshots
  import opened Registration
  import opened WriteProtocol
  import opened WriteProgress

  // ----- Committed calls on plain contents -----

  /** The committed calls carried out one by one on what a bundle shows, as if nothing else existed. */
  ghost function PlainSerial(start: map<int, Bundle>, log: seq<Commit>, id: int): map<string, Bytes> {
    if log == [] then (if id in start then ContentOf(start[id].files) else map[])
    else
      var before := PlainSerial(start, log[..|log| - 1], id);
      var last := log[|log| - 1];
      if last.id == id then Plainly(before, last.call) else before
  }

  /** Every put on the bundle had its bytes kept. */
  predicate PutsKept(log: seq<Commit>, id: int) {
    forall i :: 0 <= i < |log| && log[i].id == id && log[i].call.Put? ==> log[i].kept
  }

  lemma SoundPrefix(start: map<int, Bundle>, log: seq<Commit>)
    requires log != [] && CommitsSound(start, log)
    ensures var init, last := log[..|log| - 1], log[|log| - 1];
      CommitsSound(start, init) && SoundCommit(Serial(start, init, last.id), last.call)
  {
    hide Serial, SoundCommit;
    var init := log[..|log| - 1];
    forall i | 0 <= i < |init|
      ensures SoundCommit(Serial(start, init[..i], init[i].id), init[i].call)
    {
      assert init[..i] == log[..i];
    }
  }

  /** While every put is kept, the bundle shows what plain execution would, and nothing kept is out of date. */
  lemma {:induction false} SerialIsPlain(start: map<int, Bundle>, log: seq<Commit>, id: int)
    requires CommitsSound(start, log) && PutsKept(log, id)
    requires id in start ==> NoneStale(start[id].files)
    ensures ContentOf(Serial(start, log, id)) == PlainSerial(start, log, id)
    ensures NoneStale(Serial(start, log, id))
    decreases |log|
  {
    hide CommitsSound, Executed, Plainly, NoneStale, ContentOf;
    if log == [] {
      NothingStale();
    } else {
      var init, last := log[..|log| - 1], log[|log| - 1];
      SoundPrefix(start, log);
      SerialIsPlain(start, init, id);
      if last.id == id {
        OneMorePlain(Serial(start, init, id), last.call, last.kept);
      }
    }
  }

  lemma NothingStale()
    ensures NoneStale(map[]) && ContentOf(map[]) == map[]
  {
  }

  lemma OneMorePlain(files: Files, call: Call, kept: bool)
    requires NoneStale(files) && SoundCommit(files, call) && (call.Put? ==> kept)
    ensures ContentOf(Executed(files, call, kept)) == Plainly(ContentOf(files), call)
    ensures NoneStale(Executed(files, call, kept))
  {
    hide Executed, ContentOf, AlwaysKept, Readable;
    if call.Create? {
      CreatedEmpty(files, call, kept);
    } else {
      KeptUpReads(files);
      PlainWhenKeptUp(files, call, kept);
      StaysKeptUpExactly(files, call, kept);
    }
  }

  lemma CreatedEmpty(files: Files, call: Call, kept: bool)
    requires call.Create?
    ensures Executed(files, call, kept) == map[] && ContentOf(map[]) == map[]
  {
  }

  /**
   * Over any run in which every put registered while sources were kept, what a
   * content bundle shows is what the committed calls make of it, one by one in
   * commit order, and nothing kept is out of date.
   */
  lemma WritesArePlainlySerial(s: System, run: seq<Event>, id: int)
    requires Initial(s) && IsRun(s, run) && PutsKept(After(s, run).log, id)
    requires id in s.bundles ==> NoneStale(s.bundles[id].files)
    requires id in After(s, run).bundles && After(s, run).bundles[id].source.Content?
    ensures ContentOf(After(s, run).bundles[id].files) == PlainSerial(s.bundles, After(s, run).log, id)
    ensures NoneStale(After(s, run).bundles[id].files)
  {
    hide IsRun, After, Serial, NoneStale, PutsKept, CommitsSound, ContentOf, ValidBundles, WritersHold, Numbered;
    InitialInvariant(s);
    RunKeepsInvariant(s.bundles, s, run);
    WritesAreSerial(s, run, id);
    SerialIsPlain(s.bundles, After(s, run).log, id);
  }

  /**
   * What a commit leaves kept is what it shows, exactly when it deletes, or its
   * put leaves the kept bytes as they were, or the setting was on at its
   * registration - or its file is one always kept - and the content changes.
   */
  lemma CommitKeepsUpExactly(start: map<int, Bundle>, s: System, w: nat)
    requires Invariant(start, s) && CanCommit(s, w)
    ensures var stage := StageOf(s, w);
      var files, call := s.bundles[stage.found.id].files, stage.call;
      && !call.Create?
      && (KeptUp(Committed(s, w).bundles[stage.found.id].files)
          <==> || call.Delete?
               || (call.path in files && files[call.path].kept == Made(files, call))
               || (Keeps(files, call, stage.kept)
                   && !(call.path in files && Some(files[call.path].content) == Made(files, call))))
  {
    assert StageHolds(s, w);
    hide Committed, StageHolds, Executed, PathOutside, WritersHold, ValidBundles, IsSerial, CommitsSound, AlwaysKept;
    CommitExecutes(s, w);
    var stage := StageOf(s, w);
    KeptUpExactly(s.bundles[stage.found.id].files, stage.call, stage.kept);
  }

  // ----- What the check at the start is good for -----

  /** Between asking for the setting and registering. */
  predicate Asked(stage: Stage) {
    || stage.SourcesKept? || stage.Resolved? || stage.Locked? || stage.Rechecked? || stage.Confirmed?
    || stage.Whole? || stage.OutsidePackages? || stage.Measured? || stage.Snapped?
  }

  ghost predicate StillOn(s: System) {
    && (forall w :: w in s.writers && Asked(s.writers[w].stage) ==> s.storeSource)
    && (forall w :: w in s.writers && s.writers[w].stage.Registered? ==> s.writers[w].stage.kept)
    && (forall i :: 0 <= i < |s.log| ==> s.log[i].kept)
  }

  /** How a writer's stage can come to rely on the setting. */
  lemma StageOrigin(s: System, e: Event, v: nat)
    requires Enabled(s, e) && v in Next(s, e).writers
    ensures v in s.writers
    ensures var was, now := s.writers[v].stage, Next(s, e).writers[v].stage;
      && (Asked(now) ==> Asked(was) || s.storeSource)
      && (now.Registered? ==> was == now || (Asked(was) && now.kept == s.storeSource))
  {
    hide PathOutside, Edits, Lists, CanCarry, ResolvesTo, NamesOnly, LandsOn, Written, FilesOf;
  }

  lemma SettingStays(s: System, e: Event)
    requires Enabled(s, e) && !e.SetStoreSource?
    ensures Next(s, e).storeSource == s.storeSource
  {
    hide PathOutside, Edits, Lists, CanCarry, ResolvesTo, NamesOnly, LandsOn, Written, FilesOf;
  }

  lemma CommitsStayKept(s: System, e: Event)
    requires StillOn(s) && Enabled(s, e)
    ensures forall i :: 0 <= i < |Next(s, e).log| ==> Next(s, e).log[i].kept
  {
    hide Enabled, Next, Written;
    if e.CommitWrite? {
      CommitStep(s, e.w);
    } else if e.CommitCreate? {
      CreateStep(s, e.w, e.id);
    } else {
      OnlyCommitsWrite(s, e);
    }
  }

  lemma StepStaysOn(s: System, e: Event)
    requires StillOn(s) && Enabled(s, e) && e != SetStoreSource(false)
    ensures StillOn(Next(s, e))
  {
    assert e.SetStoreSource? ==> Next(s, e).storeSource;
    hide Enabled, Next, Asked;
    CommitsStayKept(s, e);
    if !e.SetStoreSource? {
      SettingStays(s, e);
    }
    forall v | v in Next(s, e).writers
      ensures Asked(Next(s, e).writers[v].stage) ==> Next(s, e).storeSource
      ensures Next(s, e).writers[v].stage.Registered? ==> Next(s, e).writers[v].stage.kept
    {
      StageOrigin(s, e, v);
    }
  }

  lemma {:induction false} RunStaysOn(s: System, run: seq<Event>)
    requires StillOn(s) && IsRun(s, run) && SetStoreSource(false) !in run
    ensures StillOn(After(s, run))
    decreases |run|
  {
    hide StillOn, Enabled, Next;
    if run != [] {
      assert run[0] in run;
      StepStaysOn(s, run[0]);
      RunStaysOn(Next(s, run[0]), run[1..]);
    }
  }

  /** While nobody switches the setting off, every run's writes are plainly serial. */
  lemma UnswitchedWritesArePlainlySerial(s: System, run: seq<Event>, id: int)
    requires Initial(s) && IsRun(s, run) && SetStoreSource(false) !in run
    requires id in s.bundles ==> NoneStale(s.bundles[id].files)
    requires id in After(s, run).bundles && After(s, run).bundles[id].source.Content?
    ensures ContentOf(After(s, run).bundles[id].files) == PlainSerial(s.bundles, After(s, run).log, id)
    ensures NoneStale(After(s, run).bundles[id].files)
  {
    assert StillOn(s);
    hide IsRun, After, NoneStale, ContentOf, Initial;
    RunStaysOn(s, run);
    WritesArePlainlySerial(s, run, id);
  }

  // ----- A committed put, lost -----

  /** Two puts: the setting is off when the first registers and on again for the second. */
  function LosingRun(w: nat, first: Call, second: Call, id: int, rows: seq<Row>,
                     edited: seq<File>, editedNext: seq<File>): seq<Event> {
    Switching(w, first, id, rows, edited, false) + [SetStoreSource(true)] + Statements(w, second, id, rows, editedNext)
  }

  /** What the first put leaves: its content shown, the old bytes kept. */
  lemma FirstPutLeaves(files: Files, call: Call, rows: seq<Row>)
    requires KeptUp(files) && call.Put? && Accepts(Readable(files), call) && Lists(rows, files)
    requires call.path in files && Made(files, call) != Some(files[call.path].content)
    requires !Keeps(files, call, false)
    ensures var after := Executed(files, call, false);
      && after.Keys == files.Keys && Complete(after) && Lists(rows, after)
      && after[call.path] == Held(Made(files, call).value, Some(files[call.path].content))
  {
    hide Executed, AlwaysKept;
    var after := Executed(files, call, false);
    OwnFile(files, call, false);
    forall p | p != call.path
      ensures p in after <==> p in files
      ensures p in files ==> after[p] == files[p]
    {
      OtherFiles(files, call, false, p);
    }
    assert after.Keys == files.Keys;
  }

  lemma NextIsWritable(s: System, w: nat, first: Call, second: Call, id: int, rows: seq<Row>,
                       edited: seq<File>, editedNext: seq<File>)
    requires Writable(s, w, first, id, rows, edited) && Writable(s, w, second, id, rows, editedNext)
    requires |edited| <= MAX_SNAPSHOT_FILES
    requires var files := Done(s, w, first, id, edited).bundles[id].files;
      files.Keys == s.bundles[id].files.Keys && Lists(rows, files)
    ensures Writable(Done(s, w, first, id, edited), w, second, id, rows, editedNext)
    ensures Label(Done(s, w, first, id, edited).bundles[id]) == Label(s.bundles[id])
    ensures LockFree(Done(s, w, first, id, edited), w, Label(s.bundles[id])) || !LockFree(s, w, Label(s.bundles[id]))
  {
    hide PathOutside, Lists, Edits, CanCarry, Registering;
  }

  /**
   * The check at the start does not hold to the end: a put that registers
   * while the setting is off commits and is shown, but the next write of any
   * other path, with the setting on again, puts the old bytes back.
   */
  lemma CommittedPutIsLost(s: System, w: nat, first: Call, second: Call, id: int, rows: seq<Row>,
                           edited: seq<File>, editedNext: seq<File>)
    requires ValidBundles(s.bundles) && StageOf(s, w).Idle? && s.storeSource
    requires Writable(s, w, first, id, rows, edited) && Writable(s, w, second, id, rows, editedNext)
    requires LockFree(s, w, Label(s.bundles[id])) && |edited| <= MAX_SNAPSHOT_FILES
    requires first.Put? && second.Put? && first.path != second.path
    requires KeptUp(s.bundles[id].files) && first.path in s.bundles[id].files
    requires Made(s.bundles[id].files, first) != Some(s.bundles[id].files[first.path].content)
    requires !Keeps(s.bundles[id].files, first, false)
    ensures IsRun(s, LosingRun(w, first, second, id, rows, edited, editedNext))
    ensures var u := After(s, LosingRun(w, first, second, id, rows, edited, editedNext));
      var tenant := Effective(s.writers[w].tenant);
      && u.log == s.log + [Commit(id, tenant, first, false), Commit(id, tenant, second, true)]
      && id in u.bundles && first.path in u.bundles[id].files
      && u.bundles[id].files[first.path] == s.bundles[id].files[first.path]
  {
    hide ValidBundles, IsRun, After, Enabled, Next, Writable, KeptUp, Keeps, Executed, Made, Written;
    WritableMeans(s, w, first, id, rows, edited);
    var files := s.bundles[id].files;
    var off := s.(storeSource := false);
    SwitchedWriteCommits(s, w, first, id, rows, edited, false);
    DoneExecutes(s, w, first, id, rows, edited);
    var t := Done(off, w, first, id, edited);
    assert Lists(rows, files) by { WritableLists(s, w, first, id, rows, edited); }
    FirstPutLeaves(files, first, rows);
    WritableWhatever(s, w, first, id, rows, edited, false);
    WritableWhatever(s, w, second, id, rows, editedNext, false);
    NextIsWritable(off, w, first, second, id, rows, edited, editedNext);
    var on := t.(storeSource := true);
    SwitchStep(t, true);
    WritableWhatever(t, w, second, id, rows, editedNext, true);
    DoneKeepsValid(off, w, first, id, edited);
    UncontendedWriteCommits(on, w, second, id, rows, editedNext);
    OtherFiles(t.bundles[id].files, second, true, first.path);
    RunsCompose(s, Switching(w, first, id, rows, edited, false), [SetStoreSource(true)]);
    RunsCompose(s, Switching(w, first, id, rows, edited, false) + [SetStoreSource(true)],
                Statements(w, second, id, rows, editedNext));
    KeptUpAt(files, first.path);
  }

  lemma KeptUpAt(files: Files, p: string)
    requires KeptUp(files) && p in files
    ensures files[p] == Held(files[p].content, Some(files[p].content))
  {
  }

  lemma WritableLists(s: System, w: nat, call: Call, id: int, rows: seq<Row>, edited: seq<File>)
    requires Writable(s, w, call, id, rows, edited)
    ensures Lists(rows, s.bundles[id].files)
  {
    hide PathOutside, Lists, Edits, CanCarry, NamesOnly;
  }

  lemma DoneKeepsValid(s: System, w: nat, call: Call, id: int, edited: seq<File>)
    requires ValidBundles(s.bundles) && w in s.writers && id in s.bundles
    ensures ValidBundles(Done(s, w, call, id, edited).bundles)
  {
    hide Registering, MapOf;
  }
}
