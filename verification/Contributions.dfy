/**
 * What a put makes of a text: parsed, its provenance settled, validated and
 * rendered. `put_document` settles it against the version kept under its lock,
 * a web page against the version it was opened from; and what either does to
 * documents over any run of the write protocol.
 */
module Contributions {
  import opened Text
  import opened Snapshots
  import opened Registration
  import opened WriteProtocol
  import opened SourceSetting
  import F = Frontmatter
  import P = Provenance

  /** The YAML library, the size limit, and the two library checks a document passes. */
  datatype Setting = Setting(
    codec: F.Codec<P.Frontmatter>,
    limit: nat,
    isText: Bytes -> bool,
    accepts: (string, Bytes) -> bool)

  /**
   * YAML reads back the frontmatter it wrote, writes no line of it that is a
   * fence, and reads none that it could not have written; what the catalog's
   * parser accepts is text with a frontmatter block after its byte order mark.
   */
  ghost predicate Sound(env: Setting) {
    && env.codec.empty.Proper()
    && (forall text :: env.codec.read(text).Mapping? ==> env.codec.read(text).entries.Proper())
    && (forall m: P.Frontmatter :: m.Proper() ==>
          F.ReadsBack(env.codec, m) && F.NoFence(BlockOf(env, m), 0, |BlockOf(env, m)|))
    && (forall path, bytes :: env.accepts(path, bytes) ==>
          env.isText(bytes) && F.SplitOf(F.WithoutBom(bytes), env.limit).Ok?)
  }

  function BlockOf(env: Setting, m: P.Frontmatter): string {
    F.Block(F.YamlOf(env.codec, m))
  }

  /** The frontmatter of stored bytes, when they read as a document. */
  function FrontOf(env: Setting, bytes: Option<Bytes>): Option<P.Frontmatter> {
    if bytes.None? || !env.isText(bytes.value) then None
    else match F.Parse(env.codec, bytes.value, env.limit)
      case Some(doc) => Some(doc.frontmatter)
      case None => None
  }

  /** The document a put leaves, from the one typed and the bytes stored at its path. */
  function Settled(env: Setting, typed: P.Frontmatter, actor: string, at: string, stored: Option<Bytes>): P.Frontmatter {
    if stored.Some? then P.AfterEdit(typed, actor, at, FrontOf(env, stored)) else P.AfterNew(typed, actor, at)
  }

  /** The document validated and rendered, or refused. */
  function Finished(env: Setting, path: string, front: P.Frontmatter, body: string): Option<Bytes> {
    var bytes := F.Render(env.codec, F.Document(front, body));
    if env.accepts(path, bytes) then Some(bytes) else None
  }

  /** The work of `put_document` between the snapshot and the resync. */
  function PutDocument(env: Setting, path: string, text: string, actor: string, at: string): Contribution {
    (stored: Option<Bytes>) =>
      match F.Parse(env.codec, text, env.limit)
      case None => None
      case Some(doc) =>
        if stored.None? && !P.MayContribute(doc.frontmatter, actor) then None
        else Finished(env, path, Settled(env, doc.frontmatter, actor, at, stored), doc.body)
  }

  /** What is read is a frontmatter YAML can write. */
  lemma ReadIsProper(env: Setting, text: string)
    requires Sound(env) && F.Parse(env.codec, text, env.limit).Some?
    ensures F.Parse(env.codec, text, env.limit).value.frontmatter.Proper()
  {
    hide F.SplitOf, F.ReadsBack, F.NoFence, P.Frontmatter.Proper, Trim;
  }

  lemma FrontIsProper(env: Setting, bytes: Option<Bytes>)
    requires Sound(env) && FrontOf(env, bytes).Some?
    ensures FrontOf(env, bytes).value.Proper()
  {
    hide Sound, F.Parse, P.Frontmatter.Proper;
    ReadIsProper(env, bytes.value);
  }

  lemma SettledIsProper(env: Setting, typed: P.Frontmatter, actor: string, at: string, stored: Option<Bytes>)
    requires Sound(env) && typed.Proper()
    ensures Settled(env, typed, actor, at, stored).Proper()
  {
    hide Sound, FrontOf, P.Frontmatter.Proper, P.AfterEdit, P.AfterNew;
    if FrontOf(env, stored).Some? {
      FrontIsProper(env, stored);
    }
    P.NewKeepsProper(typed, actor, at);
    P.EditKeepsProper(typed, actor, at, FrontOf(env, stored));
  }

  /** A finished document reads back as the one that was rendered. */
  lemma FinishedReadsBack(env: Setting, path: string, front: P.Frontmatter, body: string)
    requires Sound(env) && front.Proper() && Finished(env, path, front, body).Some?
    ensures FrontOf(env, Finished(env, path, front, body)) == Some(front)
  {
    hide Sound, F.RenderText, F.SplitOf, F.NoFence, F.Block, F.YamlOf, F.Parse, F.ReadsBack, F.WithoutBom;
    var doc := F.Document(front, body);
    SoundMeans(env, path, F.Render(env.codec, doc), front);
    F.RenderHasNoMark(F.YamlOf(env.codec, front), body);
    F.ParseOfRender(env.codec, doc, env.limit);
    F.RenderedBlockFits(F.YamlOf(env.codec, front), body, env.limit);
  }

  lemma SoundMeans(env: Setting, path: string, bytes: Bytes, front: P.Frontmatter)
    requires Sound(env) && env.accepts(path, bytes) && front.Proper()
    ensures env.isText(bytes) && F.SplitOf(F.WithoutBom(bytes), env.limit).Ok?
    ensures F.ReadsBack(env.codec, front) && F.NoFence(BlockOf(env, front), 0, |BlockOf(env, front)|)
  {
    hide F.ReadsBack, F.SplitOf, F.NoFence, BlockOf, F.WithoutBom, P.Frontmatter.Proper;
  }

  /** The stored bytes a put is given are what its document is settled against. */
  lemma PutMeans(env: Setting, path: string, text: string, actor: string, at: string, stored: Option<Bytes>)
    requires Sound(env) && PutDocument(env, path, text, actor, at)(stored).Some?
    ensures F.Parse(env.codec, text, env.limit).Some?
    ensures FrontOf(env, PutDocument(env, path, text, actor, at)(stored))
         == Some(Settled(env, F.Parse(env.codec, text, env.limit).value.frontmatter, actor, at, stored))
  {
    hide Sound, F.Parse, Settled, FrontOf, P.MayContribute, Finished, P.Frontmatter.Proper;
    var doc := F.Parse(env.codec, text, env.limit).value;
    ReadIsProper(env, text);
    SettledIsProper(env, doc.frontmatter, actor, at, stored);
    FinishedReadsBack(env, path, Settled(env, doc.frontmatter, actor, at, stored), doc.body);
  }

  lemma SettledIsUnverified(env: Setting, typed: P.Frontmatter, actor: string, at: string, stored: Option<Bytes>)
    ensures !P.HasHumanVerification(Settled(env, typed, actor, at, stored))
  {
    hide P.AfterQuarantine, P.AfterInherit, P.AfterStamp, P.Event, FrontOf;
    P.QuarantineUnverifies(P.AfterStamp(typed, actor, at), actor, at, "uploaded");
    P.EditUnverifies(typed, actor, at, FrontOf(env, stored));
  }

  lemma SettledKeepsRecord(env: Setting, typed: P.Frontmatter, actor: string, at: string, stored: Option<Bytes>, event: P.Value)
    requires event.Mapping? && FrontOf(env, stored).Some? && P.Recorded(FrontOf(env, stored).value, event)
    ensures P.Recorded(Settled(env, typed, actor, at, stored), event)
  {
    hide P.AfterEdit, P.Recorded;
    P.StepKeepsRecord(FrontOf(env, stored).value, P.Edit(typed, actor, at), event);
  }

  /** A put leaves its document unverified, and keeps on it every event recorded in the version it replaces. */
  lemma PutSettles(env: Setting, path: string, text: string, actor: string, at: string, stored: Option<Bytes>)
    requires Sound(env) && PutDocument(env, path, text, actor, at)(stored).Some?
    ensures var now := FrontOf(env, PutDocument(env, path, text, actor, at)(stored));
      && now.Some? && !P.HasHumanVerification(now.value)
      && forall event: P.Value | event.Mapping? && FrontOf(env, stored).Some? && P.Recorded(FrontOf(env, stored).value, event)
           :: P.Recorded(now.value, event)
  {
    hide Sound, Settled, FrontOf, PutDocument, P.Recorded, P.HasHumanVerification, F.Parse;
    PutMeans(env, path, text, actor, at, stored);
    var typed := F.Parse(env.codec, text, env.limit).value.frontmatter;
    SettledIsUnverified(env, typed, actor, at, stored);
    forall event: P.Value | event.Mapping? && FrontOf(env, stored).Some? && P.Recorded(FrontOf(env, stored).value, event)
      ensures P.Recorded(Settled(env, typed, actor, at, stored), event)
    {
      SettledKeepsRecord(env, typed, actor, at, stored, event);
    }
  }

  // ----- A page opened from an earlier version -----

  /** What a person does on a page: type an edit, approve, or send back. */
  datatype PageAct = Type(text: string) | Approve(note: Option<string>) | Return(note: Option<string>)

  /** The operation an act is on the version the page was opened from. */
  function OpOf(env: Setting, act: PageAct, actor: string, at: string): Option<P.Op> {
    match act
    case Type(text) =>
      (match F.Parse(env.codec, text, env.limit)
       case None => None
       case Some(doc) => Some(P.Edit(doc.frontmatter, actor, at)))
    case Approve(note) => Some(P.Verify(actor, at, note))
    case Return(note) => Some(P.SendBack(actor, at, note))
  }

  function BodyOf(env: Setting, act: PageAct, read: Bytes): string {
    match F.Parse(env.codec, if act.Type? then act.text else read, env.limit)
    case Some(doc) => doc.body
    case None => ""
  }

  /**
   * The version a page was opened from. A review needs one that reads as a
   * document; an edit of one that does not inherits nothing.
   */
  function Opened(env: Setting, read: Bytes, act: PageAct): Option<P.Frontmatter> {
    if !env.isText(read) then None
    else if FrontOf(env, Some(read)).None? && act.Type? then Some(P.NOTHING)
    else FrontOf(env, Some(read))
  }

  /**
   * The document a page sends: the act carried out on the version it was
   * opened from. What is stored by then is not looked at.
   */
  function PageDocument(env: Setting, path: string, read: Bytes, act: PageAct, actor: string, at: string): Contribution {
    (stored: Option<Bytes>) =>
      var front, op := Opened(env, read, act), OpOf(env, act, actor, at);
      if front.None? || op.None? then None
      else Finished(env, path, P.Next(front.value, op.value), BodyOf(env, act, read))
  }

  lemma OpIsProper(env: Setting, act: PageAct, actor: string, at: string)
    requires Sound(env) && OpOf(env, act, actor, at).Some?
    ensures OpOf(env, act, actor, at).value.Edit? ==> OpOf(env, act, actor, at).value.typed.Proper()
  {
    hide Sound, F.Parse, P.Frontmatter.Proper;
    if act.Type? {
      ReadIsProper(env, act.text);
    }
  }

  lemma OpenedIsProper(env: Setting, read: Bytes, act: PageAct)
    requires Sound(env) && Opened(env, read, act).Some?
    ensures Opened(env, read, act).value.Proper()
  {
    hide Sound, FrontOf, P.Frontmatter.Proper;
    P.NothingIsProper();
    if FrontOf(env, Some(read)).Some? {
      FrontIsProper(env, Some(read));
    }
  }

  lemma PageMeans(env: Setting, path: string, read: Bytes, act: PageAct, actor: string, at: string, stored: Option<Bytes>)
    requires Sound(env) && PageDocument(env, path, read, act, actor, at)(stored).Some?
    ensures Opened(env, read, act).Some? && OpOf(env, act, actor, at).Some?
    ensures FrontOf(env, PageDocument(env, path, read, act, actor, at)(stored))
         == Some(P.Next(Opened(env, read, act).value, OpOf(env, act, actor, at).value))
  {
    hide Sound, FrontOf, Opened, OpOf, BodyOf, Finished, P.Frontmatter.Proper, P.Next;
    var front, op := Opened(env, read, act).value, OpOf(env, act, actor, at).value;
    OpenedIsProper(env, read, act);
    OpIsProper(env, act, actor, at);
    P.StepKeepsProper(front, op);
    FinishedReadsBack(env, path, P.Next(front, op), BodyOf(env, act, read));
  }

  /** What an operation on version `front` leaves recorded, said of `front` and what was typed alone. */
  ghost predicate Records(front: P.Frontmatter, op: P.Op, event: P.Value) {
    match op
    case Edit(typed, _, _) => P.Mentioned(front, typed, event)
    case Verify(actor, at, note) => P.Recorded(front, event) || event == P.Event(actor, at, note)
    case SendBack(_, _, _) => P.Recorded(front, event)
  }

  lemma RecordsExactly(front: P.Frontmatter, op: P.Op, event: P.Value)
    ensures P.Recorded(P.Next(front, op), event) <==> Records(front, op, event)
  {
    hide P.Recorded, P.AfterEdit, P.AfterVerification, P.AfterSendBack, P.Mentioned, P.Event;
    match op
    case Edit(typed, actor, at) => P.EditRecordsExactly(front, typed, actor, at, event);
    case Verify(actor, at, note) => P.ReviewRecordsExactly(front, actor, at, note, event);
    case SendBack(actor, at, note) => P.ReviewRecordsExactly(front, actor, at, note, event);
  }

  // ----- Over the write protocol -----

  /** The frontmatter of the bytes kept at a path, which writes read. */
  function FrontKept(env: Setting, files: Files, path: string): Option<P.Frontmatter> {
    FrontOf(env, Lookup(Readable(files), path))
  }

  /** The frontmatter of the document shown at a path. */
  function FrontShown(env: Setting, files: Files, path: string): Option<P.Frontmatter> {
    FrontOf(env, Lookup(ContentOf(files), path))
  }

  /** A put made by `put_document`. */
  ghost predicate ByTool(env: Setting, call: Call) {
    call.Put? && exists text, actor, at :: call.contribute == PutDocument(env, call.path, text, actor, at)
  }

  /** A put made by a page that was opened from `read`. */
  ghost predicate ByPage(env: Setting, call: Call, read: Bytes, act: PageAct, actor: string, at: string) {
    call.Put? && call.contribute == PageDocument(env, call.path, read, act, actor, at)
  }

  /** What a committed put shows is what it made of the kept bytes. */
  lemma CommitShows(env: Setting, start: map<int, Bundle>, s: System, w: nat)
    requires Invariant(start, s) && CanCommit(s, w) && StageOf(s, w).call.Put?
    ensures var stage := StageOf(s, w);
      var files, files' := s.bundles[stage.found.id].files, Committed(s, w).bundles[stage.found.id].files;
      && Made(files, stage.call).Some? && Complete(files)
      && FrontShown(env, files', stage.call.path) == FrontOf(env, Made(files, stage.call))
      && stage.call.path in files'
      && (files'[stage.call.path].kept == Made(files, stage.call)
          || (if stage.call.path in files then files'[stage.call.path].kept == files[stage.call.path].kept
              else files'[stage.call.path].kept == None))
  {
    assert StageHolds(s, w);
    hide FrontOf, Committed, StageHolds, Executed, PathOutside, WritersHold, ValidBundles, IsSerial, CommitsSound, AlwaysKept;
    CommitExecutes(s, w);
    var stage := StageOf(s, w);
    OwnFile(s.bundles[stage.found.id].files, stage.call, stage.kept);
  }

  /**
   * Whatever interleaving led here, committing a put of `put_document` shows
   * its document unverified, with every event recorded in the version kept
   * before it, even one committed after this writer began.
   */
  lemma CommittedPutSettles(env: Setting, start: map<int, Bundle>, s: System, w: nat)
    requires Sound(env) && Invariant(start, s) && CanCommit(s, w) && ByTool(env, StageOf(s, w).call)
    ensures var stage := StageOf(s, w);
      var files, files' := s.bundles[stage.found.id].files, Committed(s, w).bundles[stage.found.id].files;
      var was, now := FrontKept(env, files, stage.call.path), FrontShown(env, files', stage.call.path);
      && now.Some? && !P.HasHumanVerification(now.value)
      && forall event: P.Value | event.Mapping? && was.Some? && P.Recorded(was.value, event)
           :: P.Recorded(now.value, event)
  {
    hide Sound, Invariant, Committed, PutDocument, FrontOf, P.Recorded, P.HasHumanVerification, Readable, ContentOf;
    CommitShows(env, start, s, w);
    var stage := StageOf(s, w);
    var call, files := stage.call, s.bundles[stage.found.id].files;
    var text, actor, at :| call.contribute == PutDocument(env, call.path, text, actor, at);
    PutSettles(env, call.path, text, actor, at, Lookup(Readable(files), call.path));
  }

  /**
   * A page's put shows exactly what its act makes of the version it was opened
   * from: an event recorded in the version kept by then is on it exactly when
   * that earlier version, or what was typed, has it too.
   */
  lemma CommittedPageKeepsExactly(env: Setting, start: map<int, Bundle>, s: System, w: nat,
                                  read: Bytes, act: PageAct, actor: string, at: string)
    requires Sound(env) && Invariant(start, s) && CanCommit(s, w) && ByPage(env, StageOf(s, w).call, read, act, actor, at)
    ensures Opened(env, read, act).Some? && OpOf(env, act, actor, at).Some?
    ensures var stage := StageOf(s, w);
      var now := FrontShown(env, Committed(s, w).bundles[stage.found.id].files, stage.call.path);
      && now.Some?
      && forall event :: P.Recorded(now.value, event)
           <==> Records(Opened(env, read, act).value, OpOf(env, act, actor, at).value, event)
  {
    hide Sound, Invariant, Committed, PageDocument, FrontOf, Opened, P.Recorded, OpOf, Readable, ContentOf, Records, P.Next;
    CommitShows(env, start, s, w);
    var stage := StageOf(s, w);
    var call, files := stage.call, s.bundles[stage.found.id].files;
    PageMeans(env, call.path, read, act, actor, at, Lookup(Readable(files), call.path));
    var front, op := Opened(env, read, act).value, OpOf(env, act, actor, at).value;
    forall event: P.Value
      ensures P.Recorded(P.Next(front, op), event) <==> Records(front, op, event)
    {
      RecordsExactly(front, op, event);
    }
  }

  /**
   * Two people open one version; the first approves and commits, the second
   * sends it back: the approval, recorded by then, is on the document no more.
   */
  lemma OverlappingReviewIsLost(env: Setting, start: map<int, Bundle>, s: System, w: nat,
                                read: Bytes, note: Option<string>, actor: string, at: string,
                                approver: string, since: string, remark: Option<string>)
    requires Sound(env) && Invariant(start, s) && CanCommit(s, w)
    requires ByPage(env, StageOf(s, w).call, read, Return(note), actor, at)
    requires FrontOf(env, Some(read)).Some?
    requires !P.Recorded(FrontOf(env, Some(read)).value, P.Event(approver, since, remark))
    requires FrontKept(env, s.bundles[StageOf(s, w).found.id].files, StageOf(s, w).call.path)
          == Some(P.AfterVerification(FrontOf(env, Some(read)).value, approver, since, remark))
    ensures var stage, event := StageOf(s, w), P.Event(approver, since, remark);
      var was := FrontKept(env, s.bundles[stage.found.id].files, stage.call.path);
      var now := FrontShown(env, Committed(s, w).bundles[stage.found.id].files, stage.call.path);
      && was.Some? && P.Recorded(was.value, event)
      && now.Some? && !P.Recorded(now.value, event)
  {
    hide Sound, Invariant, Committed, PageDocument, FrontOf, P.Recorded, P.AfterVerification, P.Event;
    CommittedPageKeepsExactly(env, start, s, w, read, Return(note), actor, at);
    P.ReviewRecordsExactly(FrontOf(env, Some(read)).value, approver, since, remark, P.Event(approver, since, remark));
  }

  /** Nothing is lost by a page whose version is still the one kept. */
  lemma UpToDatePageKeeps(env: Setting, start: map<int, Bundle>, s: System, w: nat,
                          read: Bytes, act: PageAct, actor: string, at: string, event: P.Value)
    requires Sound(env) && Invariant(start, s) && CanCommit(s, w) && ByPage(env, StageOf(s, w).call, read, act, actor, at)
    requires var stage := StageOf(s, w);
      && Lookup(Readable(s.bundles[stage.found.id].files), stage.call.path) == Some(read)
      && event.Mapping? && FrontOf(env, Some(read)).Some? && P.Recorded(FrontOf(env, Some(read)).value, event)
    ensures var stage := StageOf(s, w);
      var now := FrontShown(env, Committed(s, w).bundles[stage.found.id].files, stage.call.path);
      now.Some? && P.Recorded(now.value, event)
  {
    hide Sound, Invariant, Committed, PageDocument, FrontOf, P.Recorded, OpOf, Readable, ContentOf, Records, P.Next;
    CommittedPageKeepsExactly(env, start, s, w, read, act, actor, at);
    var front, op := Opened(env, read, act).value, OpOf(env, act, actor, at).value;
    P.StepKeepsRecord(front, op, event);
    RecordsExactly(front, op, event);
  }

  // ----- Whole runs -----

  /** The commit leaves the path alone, or puts it as `put_document` does, or from a page opened from what is kept. */
  ghost predicate CarefulCommit(env: Setting, s: System, w: nat, id: int, path: string)
    requires CanCommit(s, w)
  {
    var stage := StageOf(s, w);
    stage.found.id == id && !stage.call.Create? && stage.call.path == path ==>
      || ByTool(env, stage.call)
      || exists read, act, actor, at ::
           && ByPage(env, stage.call, read, act, actor, at)
           && Lookup(Readable(s.bundles[id].files), path) == Some(read)
  }

  /** Every commit of the run is such a one. */
  ghost predicate Careful(env: Setting, s: System, run: seq<Event>, id: int, path: string)
    requires IsRun(s, run)
    decreases |run|
  {
    run == [] ||
      (&& (run[0].CommitWrite? ==> CanCommit(s, run[0].w) && CarefulCommit(env, s, run[0].w, id, path))
       && Careful(env, Next(s, run[0]), run[1..], id, path))
  }

  /** The bytes a path keeps after a commit are those it kept, or those the put made of them. */
  lemma KeptAfterPut(env: Setting, start: map<int, Bundle>, s: System, w: nat)
    requires Invariant(start, s) && CanCommit(s, w) && StageOf(s, w).call.Put?
    requires StageOf(s, w).call.path in s.bundles[StageOf(s, w).found.id].files
    ensures var stage := StageOf(s, w);
      var files, files' := s.bundles[stage.found.id].files, Committed(s, w).bundles[stage.found.id].files;
      var now := Lookup(Readable(files'), stage.call.path);
      now == Lookup(Readable(files), stage.call.path) || now == Made(files, stage.call)
  {
    hide Committed, Invariant, FrontOf, Made;
    CommitShows(env, start, s, w);
  }

  lemma CommitKeepsEvent(env: Setting, start: map<int, Bundle>, s: System, w: nat, id: int, path: string, event: P.Value)
    requires Sound(env) && Invariant(start, s) && CanCommit(s, w) && CarefulCommit(env, s, w, id, path)
    requires id in s.bundles && id in Committed(s, w).bundles && event.Mapping?
    requires FrontKept(env, s.bundles[id].files, path).Some?
    requires P.Recorded(FrontKept(env, s.bundles[id].files, path).value, event)
    ensures FrontKept(env, Committed(s, w).bundles[id].files, path).Some?
    ensures P.Recorded(FrontKept(env, Committed(s, w).bundles[id].files, path).value, event)
  {
    hide Sound, FrontOf, P.Recorded, Committed, Invariant, ByTool, PageDocument, Made;
    CommitIsAWrite(start, s, w);
    var stage := StageOf(s, w);
    var call, files := stage.call, s.bundles[id].files;
    if stage.found.id == id {
      if call.path != path {
        OtherPathsKeep(start, s, w, path);
      } else {
        CarefulPuts(env, s, w, id, path);
        KeptIsThere(env, files, path);
        CommitShows(env, start, s, w);
        KeptAfterPut(env, start, s, w);
        if ByTool(env, call) {
          CommittedPutSettles(env, start, s, w);
        } else {
          var read, act, actor, at :| ByPage(env, call, read, act, actor, at) && Lookup(Readable(files), path) == Some(read);
          UpToDatePageKeeps(env, start, s, w, read, act, actor, at, event);
        }
      }
    }
  }

  lemma CarefulPuts(env: Setting, s: System, w: nat, id: int, path: string)
    requires CanCommit(s, w) && CarefulCommit(env, s, w, id, path)
    requires StageOf(s, w).found.id == id && !StageOf(s, w).call.Create? && StageOf(s, w).call.path == path
    ensures StageOf(s, w).call.Put?
  {
    hide PageDocument, PutDocument;
  }

  lemma KeptIsThere(env: Setting, files: Files, path: string)
    requires FrontKept(env, files, path).Some?
    ensures path in files
  {
    hide F.Parse;
  }

  lemma CommitIsAWrite(start: map<int, Bundle>, s: System, w: nat)
    requires Invariant(start, s) && CanCommit(s, w)
    ensures var stage := StageOf(s, w);
      && !stage.call.Create?
      && forall other :: other in s.bundles && other != stage.found.id ==>
           other in Committed(s, w).bundles && Committed(s, w).bundles[other] == s.bundles[other]
  {
    assert StageHolds(s, w);
    hide Committed, StageHolds, Executed, PathOutside, WritersHold, ValidBundles, IsSerial, CommitsSound, Accepts;
    CommitExecutes(s, w);
  }

  lemma OtherPathsKeep(start: map<int, Bundle>, s: System, w: nat, path: string)
    requires Invariant(start, s) && CanCommit(s, w) && !StageOf(s, w).call.Create? && StageOf(s, w).call.path != path
    ensures var id := StageOf(s, w).found.id;
      Lookup(Readable(Committed(s, w).bundles[id].files), path) == Lookup(Readable(s.bundles[id].files), path)
  {
    assert StageHolds(s, w);
    hide Committed, StageHolds, Executed, PathOutside, WritersHold, ValidBundles, IsSerial, CommitsSound, Accepts;
    CommitExecutes(s, w);
    var stage := StageOf(s, w);
    OtherFiles(s.bundles[stage.found.id].files, stage.call, stage.kept, path);
  }

  lemma OtherStepsLeaveFiles(start: map<int, Bundle>, s: System, e: Event, id: int)
    requires Invariant(start, s) && Enabled(s, e) && !e.CommitWrite?
    requires id in s.bundles && s.bundles[id].source.Content? && id in Next(s, e).bundles
    requires Next(s, e).bundles[id].source.Content?
    ensures Next(s, e).bundles[id].files == s.bundles[id].files
  {
    hide Next, Enabled, WritersHold, IsSerial, ValidBundles, CommitsSound;
    if e.CommitCreate? {
      CreateStep(s, e.w, e.id);
      CreationLeavesOthers(s, e.w, e.id, id);
    } else {
      OnlyCommitsWrite(s, e);
    }
  }

  lemma StepKeepsEvent(env: Setting, start: map<int, Bundle>, s: System, e: Event, id: int, path: string, event: P.Value)
    requires Sound(env) && Invariant(start, s) && Enabled(s, e)
    requires e.CommitWrite? ==> CanCommit(s, e.w) && CarefulCommit(env, s, e.w, id, path)
    requires id in s.bundles && s.bundles[id].source.Content? && id in Next(s, e).bundles
    requires Next(s, e).bundles[id].source.Content? && event.Mapping?
    requires FrontKept(env, s.bundles[id].files, path).Some?
    requires P.Recorded(FrontKept(env, s.bundles[id].files, path).value, event)
    ensures FrontKept(env, Next(s, e).bundles[id].files, path).Some?
    ensures P.Recorded(FrontKept(env, Next(s, e).bundles[id].files, path).value, event)
  {
    hide Sound, FrontKept, P.Recorded, Next, Enabled, CarefulCommit, Invariant, Committed;
    if e.CommitWrite? {
      CommitStep(s, e.w);
      CommitKeepsEvent(env, start, s, e.w, id, path, event);
    } else {
      OtherStepsLeaveFiles(start, s, e, id);
    }
  }

  /**
   * No careful run loses a recorded event: while the bundle stays registered
   * and the document is written only by `put_document`, or by pages opened
   * from the version they replace, every event recorded on what is kept - live
   * or set aside - is on it still, however the writers interleave and whatever
   * becomes of the source setting.
   */
  lemma {:induction false} RunsKeepEvents(env: Setting, start: map<int, Bundle>, s: System, run: seq<Event>,
                                          id: int, path: string, event: P.Value)
    requires Sound(env) && Invariant(start, s) && IsRun(s, run) && Careful(env, s, run, id, path)
    requires id in s.bundles && s.bundles[id].source.Content? && id in After(s, run).bundles
    requires event.Mapping? && FrontKept(env, s.bundles[id].files, path).Some?
    requires P.Recorded(FrontKept(env, s.bundles[id].files, path).value, event)
    ensures FrontKept(env, After(s, run).bundles[id].files, path).Some?
    ensures P.Recorded(FrontKept(env, After(s, run).bundles[id].files, path).value, event)
    decreases |run|
  {
    hide Sound, Enabled, Next, Invariant, FrontKept, P.Recorded, CarefulCommit;
    if run != [] {
      var e := run[0];
      StepKeepsInvariant(start, s, e);
      StillRegistered(start, s, e, run[1..], id);
      StepKeepsEvent(env, start, s, e, id, path, event);
      RunsKeepEvents(env, start, Next(s, e), run[1..], id, path, event);
    }
  }

  /** And the document shown has it too, while nobody switches the source setting off. */
  lemma UnswitchedRunsShowEvents(env: Setting, s: System, run: seq<Event>, id: int, path: string, event: P.Value)
    requires Sound(env) && Initial(s) && IsRun(s, run) && Careful(env, s, run, id, path)
    requires SetStoreSource(false) !in run
    requires id in s.bundles && s.bundles[id].source.Content? && NoneStale(s.bundles[id].files)
    requires id in After(s, run).bundles && After(s, run).bundles[id].source.Content?
    requires event.Mapping? && FrontKept(env, s.bundles[id].files, path).Some?
    requires P.Recorded(FrontKept(env, s.bundles[id].files, path).value, event)
    ensures FrontShown(env, After(s, run).bundles[id].files, path).Some?
    ensures P.Recorded(FrontShown(env, After(s, run).bundles[id].files, path).value, event)
  {
    hide Sound, IsRun, After, Careful, Initial, FrontKept, FrontShown, P.Recorded, NoneStale;
    InitialInvariant(s);
    RunsKeepEvents(env, s.bundles, s, run, id, path, event);
    UnswitchedWritesArePlainlySerial(s, run, id);
    KeptIsShown(env, After(s, run).bundles[id].files, path);
  }

  lemma KeptIsShown(env: Setting, files: Files, path: string)
    requires NoneStale(files) && FrontKept(env, files, path).Some?
    ensures FrontShown(env, files, path) == FrontKept(env, files, path)
  {
    hide F.Parse;
  }
}
