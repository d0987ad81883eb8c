# Verified models of pgokf

pgokf keeps a catalog of Open Knowledge Format bundles in PostgreSQL, with
companions that write, sync, embed, ingest and serve them. This project models
the parts of it where a loop, shared state or several processes meet a simple
promise, and proves the promise for all inputs, all runs or all reachable
states. `dafny verify dfyconfig.toml` checks everything.

Code that changes things step by step is modelled by methods and classes that
do the same steps and are proved against a specification; the specification is
then related to an independent statement of what the code is for. Protocols
between processes are state machines over their statements, and their theorems
are about every run.

| file | what it models |
|---|---|
| `WriteProtocol.dfy`, `WriteProgress.dfy`, `Snapshots.dfy` | writing one document into a content bundle: whole-bundle read-modify-write under an advisory lock, any number of writers, one statement at a time, while bundles are retired, synced and unregistered |
| `Registration.dfy`, `SourceSetting.dfy` | what registering content leaves of each file - the content shown and the bytes kept - and the setting that tells the catalog to keep them |
| `Contributions.dfy` | what a put makes of a text and of the provenance stored at its path, or of an earlier version a page was opened from, over runs of that protocol |
| `Throttle.dfy`, `Sessions.dfy` | the shared sign-in throttle; sessions bound to a password fingerprint |
| `Packages.dfy`, `Discovery.dfy` | which directories are skill packages and what they own; the directory scan with its limits |
| `Provenance.dfy`, `Calendar.dfy` | who verified a document and what became of it; timestamps |
| `Embedding.dfy` | poll, embed, compare-and-set, with edits in between |
| `Links.dfy`, `Frontmatter.dfy` | link resolution and path normalization; the `---` block, read in three places and written in one |
| `SqlLexer.dfy`, `InstallScripts.dfy` | the install-script comparison |
| `Ingest.dfy`, `Slugs.dfy` | the object-store watcher and its fingerprint; provider slugs |
| `Text.dfy`, `Decimal.dfy`, `Sorting.dfy` | the library operations the sources use |

What is assumed:

- Of the database: a statement reads what is committed, a lock is held until
  its transaction ends, registering content makes the addressed bundle show
  exactly the files given, passes over files whose content is unchanged, keeps
  the bytes of the others as the setting stands at that statement, and keeps the
  bundle from being unregistered until its transaction ends, the
  compare-and-set setter is atomic, a bundle keeps its
  tenant, name and path while it is registered, and its id is never given to
  another bundle.
- Of cryptography: digests and fingerprints are injective where a theorem says
  so, nonces and password hashes are fresh, cookies cannot be forged.
- Of YAML: a non-empty mapping is written as a text that is not blank and reads
  back as that mapping; in `Contributions`, for frontmatter with each key once
  and spelled one way, and that no line of it reads `---`.
- Clocks, the network, the endpoint's answers, walk order and failures are
  parameters, and the theorems hold for all of them.

Where the code and its own words differ, the model follows the code:

- A comment on the throttle (`crates/pgokf-web/src/auth.rs:507-508`) says
  guessing cannot run in parallel. The check and the count are two steps, so
  any number of guesses pass at one instant (`OverlappingGuessesAreNotSpaced`).
  A guess is spaced from the failure counted before it exactly when it was
  checked against a table that held that failure (`SpacedExactlyWhenCounted`),
  and guessing at once is no faster than its width (`SpacedByWidth`).
- A comment on setting verifications aside
  (`crates/pgokf-companion/src/documents.rs:150-152`) says no shape of the field
  slips through unrecorded. A single event typed over a stored list does
  (`TypedEventVanishes`); `TypedClaimIsKeptExactly` says exactly which typed
  claims are kept.
- A write refuses when the catalog does not keep document sources
  (`crates/pgokf-mcp/src/write.rs:403-405`), because it would drop what it does
  not carry. It asks once, at its start, and the registration reads the setting
  again (`crates/extension/src/catalog/sync.rs:1463-1469`). A put that registers
  while the setting is off commits and is shown, and the next write of any other
  path puts the old bytes back (`CommittedPutIsLost`). `KeptUpExactly` says
  exactly when a commit leaves what is kept up to date, and while nobody switches
  the setting off writes are what they say (`UnswitchedWritesArePlainlySerial`).
- A web page carries over the verifications of the version it was opened from
  (`crates/pgokf-web/src/routes.rs:4204-4208`), not of the one stored when it
  takes the lock. An approval committed in between is lost
  (`OverlappingReviewIsLost`); `CommittedPageKeepsExactly` says which events stay.
- The watcher skips a listing as unchanged when it is the one last registered.
  If since then a registration was stored but its reply was lost, the catalog
  holds something else (`LostReplyGoesUnseen`); `SkippedCatalogIsCurrent` says
  exactly when a skip leaves the catalog current.
- `frontmatter::split` checks its size limit twice; the second check can never
  fire (`SecondSizeCheckIsDead`).

## Model

| member | source | states |
|---|---|---|
| `WriteProtocol.WritesAreSerial` | crates/pgokf-mcp/src/write.rs:240-272 | for any number of writers and any interleaving of their statements with retiring, syncing, unregistering and switching the source setting, every registered content bundle holds - content and kept bytes - exactly what the committed puts, deletes and creations make of it when executed one at a time in commit order, each kept or not as the setting stood at its registration |
| `WriteProtocol.CommitsChangeOnePath` | crates/pgokf-mcp/src/write.rs:261-271 | in every reachable state a commit changes the one path of its call in the one bundle it resolved - of every other path it leaves the kept bytes, and the content unless that was out of date - and a refused call changes no bundle |
| `WriteProtocol.OnlyCommitsWrite` | crates/pgokf-mcp/src/write.rs:240-272 | no statement before the commit, and no refusal, changes a content bundle's files or what counts as committed |
| `WriteProtocol.OneCreationPerName` | crates/pgokf-mcp/src/write.rs:728-759 | over any run, between two committed creations of one name in one tenant the first one's bundle was unregistered |
| `WriteProtocol.TakenNamesAreNotCreated` | crates/pgokf-mcp/src/write.rs:728-759 | a name some content bundle has from the start is created in that bundle's tenant only after the bundle was unregistered |
| `WriteProtocol.StepDisturbsNobodyElse` | crates/pgokf-mcp/src/write.rs:301-401 | whatever step any process takes, a bundle another writer has resolved under its lock keeps its identity and files, or is unregistered and then nothing takes its place; once registered it cannot go |
| `WriteProtocol.UnregisteringDisturbsNobody` | crates/extension/src/catalog/admin.rs:300-349 | unregistering, which takes no name lock, leaves every writer's claims true and a freed name unused |
| `WriteProtocol.StepKeepsWriters` | crates/pgokf-mcp/src/write.rs:617-759 | every step keeps what each writer's stage claims about the committed catalog, from the lock to the registered files |
| `WriteProtocol.StepKeepsInvariant` | crates/pgokf-mcp/src/write.rs:240-759 | every step of every process keeps the whole invariant: identities, one path per tenant, stages, serial contents, creations |
| `WriteProtocol.SnapshotIsTheBundle` | crates/pgokf-mcp/src/write.rs:510-583 | a snapshot that can be carried is the kept bytes of every file, with distinct paths |
| `WriteProtocol.EditsExecute` | crates/pgokf-mcp/src/write.rs:650-716 | what a put or delete sends back is the call carried out on what it read |
| `WriteProtocol.CommitExecutes` | crates/pgokf-mcp/src/write.rs:261-271 | a commit applies its call to what is kept at that moment, not to what was read earlier, keeps the bytes as the setting stood at its registration, and touches no other bundle |
| `WriteProtocol.WritesLandWhereTheyRead` | crates/pgokf-mcp/src/write.rs:586-612 | registering under the bundle's name lands on the bundle that was read exactly when it is still registered, and never on another: once it is unregistered the name is unused, and the landing check refuses |
| `WriteProtocol.PackagesAreNeverEdited` | crates/pgokf-mcp/src/write.rs:481-507 | over any run a content bundle keeps its package roots and the kept bytes of all their files, and their content unless it was out of date, for as long as it is registered |
| `WriteProtocol.CommitTakesNoVersion` | crates/pgokf-mcp/src/write.rs:432-463 | a commit, which writes a bundle without its `index.md` and `log.md`, only ever finds one that has neither a version nor a log |
| `WriteProtocol.VersionsAreNeverLost` | crates/pgokf-mcp/src/write.rs:424-463 | over any run a content bundle keeps its version and its log for as long as it is registered |
| `Registration.ContentAfter` | crates/extension/src/catalog/sync.rs:1439-1469 | what a bundle shows after a write is the call carried out on what was kept |
| `Registration.OtherFiles` | crates/extension/src/catalog/sync.rs:190-244 | a write leaves the kept bytes of every other file and makes them its content |
| `Registration.OwnFile` | crates/extension/src/catalog/source.rs:164-195 | what a write leaves of its own file: unchanged content is passed over, and changed bytes are kept only if the setting is on or the file belongs to a package |
| `Registration.PlainWhenKeptUp` | crates/pgokf-mcp/src/write.rs:640-723 | while kept bytes are up to date a call does to the content just what it says, whatever the setting |
| `Registration.KeptUpExactly` | crates/extension/src/catalog/batch.rs:176-188 | after a write what is kept is what is shown exactly when it deletes, or the put leaves the kept bytes as they were, or its bytes are kept and its content changes |
| `Registration.StaysKeptUpExactly` | crates/extension/src/catalog/sync.rs:766-779 | from a bundle kept up to date: exactly when it deletes, the setting was on, the file belongs to a package, or the put changes nothing |
| `Registration.ExecutionOutsidePackages` | crates/pgokf-mcp/src/write.rs:481-507 | a call let through by the package check leaves the package roots and the kept bytes of every file below them alone |
| `SourceSetting.WritesArePlainlySerial` | crates/pgokf-mcp/src/write.rs:240-272 | over any run whose puts all registered while sources were kept, what a bundle shows is what the committed calls make of it one by one, and nothing kept is out of date |
| `SourceSetting.UnswitchedWritesArePlainlySerial` | crates/pgokf-mcp/src/write.rs:403-422 | the same for every run in which nobody switches the setting off: asking for it at the start is then enough |
| `SourceSetting.CommitKeepsUpExactly` | crates/extension/src/catalog/sync.rs:1439-1469 | in every reachable state, exactly when a commit leaves its bundle's kept bytes up to date |
| `SourceSetting.CommittedPutIsLost` | crates/extension/src/catalog/sync.rs:766-779 | a run in which a put commits while the setting is off and the next write of another path puts its old bytes back |
| `WriteProgress.UncontendedWriteCommits` | crates/pgokf-mcp/src/write.rs:617-723 | a put or delete whose lock is free, whose bundle meets what its statements ask and whose sources are kept runs through all of them, commits, and leaves the bundle as the call executed on it |
| `WriteProgress.SwitchedWriteCommits` | crates/pgokf-mcp/src/write.rs:617-723 | so does one whose setting is changed after its snapshot, with its bytes kept or not as the setting then stands |
| `WriteProgress.UncontendedCreationCommits` | crates/pgokf-mcp/src/write.rs:728-759 | a creation whose lock and name are free commits an empty bundle and changes no other |
| `WriteProgress.UnregisteringFreesTheName` | crates/extension/src/catalog/admin.rs:300-349 | once its bundle is unregistered a name can be created again in that tenant |
| `Contributions.PutMeans` | crates/pgokf-mcp/src/write.rs:653-671 | the bytes a put sends read back as the typed document with its provenance settled against the stored one |
| `Contributions.PutSettles` | crates/pgokf-mcp/src/write.rs:653-671 | a `put_document` leaves its document unverified and keeps every event recorded in the version it replaces |
| `Contributions.CommittedPutSettles` | crates/pgokf-mcp/src/write.rs:640-677 | whatever interleaving led to the commit of a `put_document`, the document shown is unverified and has every event recorded in the version kept just before it, even one committed after the writer began |
| `Contributions.CommittedPageKeepsExactly` | crates/pgokf-web/src/routes.rs:4166-4240 | a page's put shows exactly the events its act leaves on the version it was opened from: those that version or the typed text mentions, and its own |
| `Contributions.OverlappingReviewIsLost` | crates/pgokf-web/src/routes.rs:4313-4349 | an approval committed after a page was opened is gone once that page's send-back commits |
| `Contributions.UpToDatePageKeeps` | crates/pgokf-web/src/routes.rs:4166-4240 | a page whose version is still the one kept loses no event |
| `Contributions.RunsKeepEvents` | crates/pgokf-mcp/src/write.rs:640-677 | over any run in which the document is written only by `put_document`, or by pages opened from the version they replace, every event recorded on what is kept stays on it, live or set aside with its by, at and note intact, whatever becomes of the setting, while the bundle is registered |
| `Contributions.UnswitchedRunsShowEvents` | crates/pgokf-mcp/src/write.rs:640-677 | and on the document shown, while nobody switches the setting off |
| `Snapshots.Snapshot` | crates/pgokf-mcp/src/write.rs:510-583 | the rows come back as files with their bytes, or nothing does: exactly when some file's bytes are not kept or together they exceed the ceiling |
| `Snapshots.PutInto` | crates/pgokf-mcp/src/write.rs:650-677 | the sorted list sent back maps the path to the contributed document and every other path to what it had, or the contribution is refused |
| `Snapshots.DeleteFrom` | crates/pgokf-mcp/src/write.rs:707-716 | refused exactly when the path is not there; otherwise every other file stays, in order |
| `Throttle.SignInThrottle.Cooldown` | crates/pgokf-web/src/auth.rs:1146-1150 | a key waits exactly while now is at or before its deadline, and for the rest of that time |
| `Throttle.SignInThrottle.CountFailure` | crates/pgokf-web/src/auth.rs:1156-1181 | old entries are pruned, over-long names and new keys at the ceiling are not counted, and otherwise the key's count and deadline move on |
| `Throttle.SignInThrottle.ForgetFailures` | crates/pgokf-web/src/auth.rs:1183-1187 | exactly the key's entry goes |
| `Throttle.SignInThrottle.Verify` | crates/pgokf-web/src/auth.rs:1091-1134 | which of refused, unavailable, signed in and failed an attempt is, decided on the table it found, and what each does to the table other sign-ins have left by the time the record is read |
| `Throttle.SharedTableIsPrivate` | crates/pgokf-web/src/auth.rs:1146-1187 | over every interleaved run the cooldown reported for a key is the one its own attempts alone earn, so long as the ceiling never turned it away |
| `Throttle.TableIsBounded` | crates/pgokf-web/src/auth.rs:515-531 | in every reachable state at most 10,000 entries, and nobody waits more than 15 minutes |
| `Throttle.SpacedExactlyWhenCounted` | crates/pgokf-web/src/auth.rs:1091-1181 | past the free failures, a guess is checked more than the cooldown after the failure counted before it exactly when the table it was checked against held that failure |
| `Throttle.SpacedByWidth` | crates/pgokf-web/src/auth.rs:1091-1181 | when fewer than K earlier guesses are between check and count, the n-th check comes more than the (n-K)-th cooldown after the (n-K)-th check |
| `Throttle.GuessesAtOnceAreSpaced` | crates/pgokf-web/src/auth.rs:1091-1181 | when that is so at every check, the n-th check, n at least 14 + K, comes more than (1022 + 900(n-14-K)) / K seconds after the first |
| `Throttle.GuessesAreSpaced` | crates/pgokf-web/src/auth.rs:1156-1181 | guessing one at a time, the n-th guess of an entry's life, n at least 15, is checked more than 1022 + 900(n-15) seconds after the first was counted |
| `Throttle.WaitsAddUp` | crates/pgokf-web/src/auth.rs:1171-1180 | the closed form of the sum of all the cooldowns before the n-th guess |
| `Throttle.OverlappingGuessesAreNotSpaced` | crates/pgokf-web/src/auth.rs:1091-1134 | any number of guesses that all pass their check, at one instant, are one entry's life |
| `Sessions.StepKeepsValid` | crates/pgokf-web/src/auth.rs:1050-1241 | every step keeps hashes and nonces used once and sessions told apart by their nonces |
| `Sessions.OldBindingsIdentifyNobody` | crates/pgokf-web/src/auth.rs:1190-1241 | however requests interleave, a session bound to a password a person no longer has identifies nobody ever after, even one recorded after all sessions were ended |
| `Sessions.StoringAHashChangesIt` | crates/pgokf-web/src/auth.rs:1050-1065 | storing a new hash at once ends every cookie bound to the old one |
| `Sessions.EndedStaysEnded` | crates/pgokf-web/src/auth.rs:647-667 | a cookie whose session is no longer recorded never identifies anyone again |
| `Sessions.EndingTouchesNobodyElse` | crates/pgokf-web/src/auth.rs:700-720 | a password change, removal, sign-out or ending of sessions leaves whom anyone else's cookie identifies unchanged |
| `Sessions.EndingIsExact` | crates/pgokf-web/src/auth.rs:715-720 | ending a person's sessions ends all of theirs and none of anyone else's |
| `Sessions.FreshCookiesIdentify` | crates/pgokf-web/src/auth.rs:1190-1212 | a cookie just issued identifies its person exactly when the password read for it is still theirs |
| `Packages.OwnerIsNearest` | crates/okf-sync/src/package.rs:191-202 | the owner is the longest indexed directory that encloses the path, and there is none exactly when no indexed directory does |
| `Packages.ResourceClassMeans` | crates/okf-sync/src/package.rs:241-259 | the string tests succeed exactly for paths below scripts, references or assets of the root |
| `Packages.RootsAreUnique` | crates/okf-sync/src/package.rs:127-168 | the recursive equation (a directory is a root exactly when its manifest is given and it is not among another root's resources) has one solution, the root set |
| `Packages.RootSetSolves` | crates/okf-sync/src/package.rs:127-168 | the root set satisfies that equation |
| `Packages.NearestDecides` | crates/okf-sync/src/package.rs:165-168 | asking only the nearest package whether a path is its resource is asking all of them |
| `Packages.PackageIndex.OwnerOf` | crates/okf-sync/src/package.rs:191-202 | the parent-walking loop finds the owner |
| `Packages.PackageIndex.InsertManifest` | crates/okf-sync/src/package.rs:152-161 | a root is added exactly when the path is a manifest and the nearest package does not have its directory among its resources; in an index without nested packages, exactly when no package has |
| `Packages.KeepManifests` | crates/okf-sync/src/package.rs:127-133 | exactly the manifests among the paths are kept |
| `Packages.FromPaths` | crates/okf-sync/src/package.rs:127-140 | for every order and repetition of its input, the roots are the one root set of the given paths |
| `Packages.ManifestsClassify` | crates/okf-sync/src/package.rs:207-225 | a given manifest classifies as a manifest exactly when it opened a package, and as a resource exactly when it did not |
| `Packages.NestedManifestChangesNothing` | crates/okf-sync/src/package.rs:142-168 | a manifest added among a package's resources changes no root, no owner and no class |
| `Packages.PackageRelativeMeans` | crates/okf-sync/src/package.rs:228-235 | a path has a package-relative form exactly when it classifies as a resource, and the owner's directory and that form make up the path |
| `Packages.SameDirectorySameResource` | crates/okf-sync/src/package.rs:207-225 | files of one directory are resources together |
| `Packages.ConceptIdsAreDistinct` | crates/okf-sync/src/package.rs:90-109 | under one index no two classified, non-reserved paths get the same concept id |
| `Discovery.LocatePackages` | crates/okf-sync/src/discover.rs:163-191 | the first walk finds exactly the roots of the selected manifests |
| `Discovery.Discover` | crates/okf-sync/src/discover.rs:104-160 | the scan succeeds exactly when no candidate link escapes, all candidates can be read, and each size, the count and the true total are within limits; then the snapshot is exactly the candidates; each error says something true of the tree |
| `Discovery.Take` | crates/okf-sync/src/discover.rs:275-301 | taking a candidate within the limits keeps the running map, count and saturating total those of the entries walked |
| `Discovery.Stop` | crates/okf-sync/src/discover.rs:254-301 | an early exit is taken only where the whole tree is unacceptable, and for the reason given |
| `Discovery.OrderDoesNotMatter` | crates/okf-sync/src/discover.rs:104-160 | the roots, success and the snapshot are the same for every order of either walk |
| `Discovery.SnapshotIsUnique` | crates/okf-sync/src/discover.rs:104-160 | only one map holds the candidates of a tree |
| `Discovery.ResourcesComeWithTheirManifest` | crates/okf-sync/src/discover.rs:201-222 | every resource in a snapshot has its owning package's manifest in it, classified as one |
| `Links.NormalizePath` | crates/okf-parser/src/normalize.rs:23-56 | the loop over components gives the clean segments joined with the extension settled, or the error for an empty, absolute, climbing or non-Markdown path |
| `Links.ResolveLinkPath` | crates/okf-parser/src/normalize.rs:165-194 | the push-and-pop loop ends where the walk from the source's directory, or the root, ends |
| `Links.ExtensionKeepsClean` | crates/okf-parser/src/normalize.rs:198-211 | the extension rule keeps a path's segments clean, and applying it again changes nothing |
| `Links.NormalizingSettles` | crates/okf-parser/src/normalize.rs:23-56 | whatever `normalize_path` returns, it returns unchanged |
| `Links.NormalizedSegments` | crates/okf-parser/src/normalize.rs:23-56 | a path that is normalized is clean segments joined, and splits into them |
| `Links.ResolvedTargetsAreNormalized` | crates/okf-parser/src/normalize.rs:149-152 | from a normalized source every resolved target is a fixed point of `normalize_path` with no empty, `.` or `..` segment |
| `Links.UnresolvedExactlyAboveRoot` | crates/okf-parser/src/normalize.rs:175-193 | a destination with a path names nothing exactly when some prefix of it climbs above the bundle root or it ends on the root |
| `Links.RootIsNotClamped` | crates/okf-parser/src/normalize.rs:182-185 | a rooted destination that begins by climbing is refused whatever follows, unlike section 5.2.4 of RFC 3986 |
| `Links.FragmentsNeverMatter` | crates/okf-parser/src/normalize.rs:166-173 | a fragment after a non-empty path never changes what is resolved |
| `Links.RootedTargetsResolveToThemselves` | crates/okf-parser/src/normalize.rs:149-194 | `/` and a resolved target free of `#` and backslashes resolves to that target from any document |
| `Links.Link.ResolveResource` | crates/okf-parser/src/skill.rs:287-298 | the link's fields change exactly when it is internal and its destination is a resource of the package, and then name that file |
| `Links.ResourceLinksMatchDiscovery` | crates/okf-parser/src/skill.rs:287-314 | a link from an indexed package resolves to a resource exactly when discovery gives that file to this package as a resource, under the same concept id |
| `Provenance.Document.StampOrigin` | crates/pgokf-companion/src/documents.rs:107-118 | origin and author are filled in only where absent, and a change is reported exactly then |
| `Provenance.Document.RecordVerification` | crates/pgokf-companion/src/documents.rs:122-127 | one event is appended and a draft or missing status becomes active |
| `Provenance.Document.SendBack` | crates/pgokf-companion/src/documents.rs:131-141 | the status becomes draft and one review is appended |
| `Provenance.Document.QuarantineVerifications` | crates/pgokf-companion/src/documents.rs:153-186 | every claimed verification, in whatever shape, moves to the trail with who, when and why, and is counted |
| `Provenance.Document.InheritVerifications` | crates/pgokf-companion/src/documents.rs:193-205 | the stored live events and trail are merged in |
| `Provenance.Document.Inherit` | crates/pgokf-companion/src/documents.rs:194-204 | one stored list is merged in without repeating an event |
| `Provenance.Document.ContributeNew` | crates/pgokf-companion/src/documents.rs:222-239 | refused exactly when it puts another person's name to its origin, and then unchanged; otherwise stamped with every claim set aside |
| `Provenance.Document.ContributeEdit` | crates/pgokf-companion/src/documents.rs:264-271 | inherits what is stored, sets aside what is then claimed, counts it and names the editor, whether or not a stored version can be read |
| `Provenance.NewSetsEveryClaimAside` | crates/pgokf-companion/src/documents.rs:153-239 | every claim typed into a new document, in any shape, is on its trail |
| `Provenance.TypedClaimIsKeptExactly` | crates/pgokf-companion/src/documents.rs:153-271 | a claim typed into an edit is set aside exactly when the typed field is a list or the stored one is not, or else when its set-aside form is on a trail or comes of a stored event |
| `Provenance.TypedEventVanishes` | crates/pgokf-companion/src/documents.rs:193-205 | a single event typed over a stored list is neither live nor on the trail |
| `Provenance.ReviewsTouchNothingElse` | crates/pgokf-companion/src/documents.rs:122-141 | a review adds at most its own event and leaves the trail alone |
| `Provenance.VerifiedIsWhatWasGranted` | crates/pgokf-companion/src/documents.rs:153-271 | along every life of a document the live verifications are exactly those granted since the last contribution, in order |
| `Provenance.HumanVerifiedExactlyWhenGranted` | crates/pgokf-companion/src/documents.rs:274-286 | a document counts as human-verified exactly when a human verification was recorded after its last contribution, whatever contributors typed |
| `Provenance.EditCarriesOver` | crates/pgokf-companion/src/documents.rs:193-271 | an edit keeps every entry of the stored trail and sets aside every stored live event under the editor's name |
| `Provenance.StepKeepsRecord` | crates/pgokf-companion/src/documents.rs:153-205 | no operation loses a recorded event |
| `Provenance.StepKeepsTrail` | crates/pgokf-companion/src/documents.rs:153-205 | no operation loses an entry of the trail |
| `Provenance.GrantedEventsAreNeverLost` | crates/pgokf-companion/src/documents.rs:93-286 | in every run every event ever granted is still live, or set aside with its by, at and note intact |
| `Provenance.TrailIsNeverLost` | crates/pgokf-companion/src/documents.rs:93-286 | in every run an entry of the trail stays |
| `Provenance.EditRecordsExactly` | crates/pgokf-companion/src/documents.rs:153-271 | an edit records an event exactly when the version it was made from, or what was typed over it, mentions one with its verifier, time and note |
| `Provenance.ReviewRecordsExactly` | crates/pgokf-companion/src/documents.rs:122-141 | a review records exactly what was recorded before it and the event it grants |
| `Provenance.StepKeepsProper` | crates/pgokf-companion/src/documents.rs:88-271 | every operation keeps frontmatter something a YAML text can be: each key once and spelled one way, at every depth |
| `Provenance.UnreadableIsNothing` | crates/pgokf-companion/src/documents.rs:264-271 | an edit without a readable stored version is an edit of an empty one |
| `Provenance.UnreadableStoredVersion` | crates/pgokf-companion/src/documents.rs:264-271 | without a readable stored version an edit is still unverified, and what was typed is set aside |
| `Provenance.OperationsKeepItAMapping` | crates/pgokf-companion/src/documents.rs:88-102 | setting and removing keep each key once, and the order of the others |
| `Calendar.YearOfEraIs` | crates/pgokf-companion/src/documents.rs:330 | the division formula finds the year of the era for every day of it |
| `Calendar.NextDayOfYear` | crates/pgokf-companion/src/documents.rs:331-336 | month and day formulas step through a March-based year as the calendar does |
| `Calendar.CivilStep` | crates/pgokf-companion/src/documents.rs:324-336 | one more day gives the next date |
| `Calendar.CivilIsTheCalendar` | crates/pgokf-companion/src/documents.rs:324-336 | for every day number a 64-bit timestamp reaches, the formulas give the valid Gregorian date reached by stepping day by day from 1970-01-01; no step overflows 64 bits |
| `Calendar.NeverBefore1970` | crates/pgokf-companion/src/documents.rs:324-336 | no timestamp falls before 1970 |
| `Calendar.IsoIsRfc3339` | crates/pgokf-companion/src/documents.rs:337-343 | the text is a date-time of section 5.6 of RFC 3339 within the day limits of section 5.7 exactly up to the end of year 9999, and then names the instant it was made from |
| `Embedding.RenderContractIsInjective` | crates/pgokf-embed/src/db.rs:70-72 | a contract names one input bound |
| `Embedding.StepKeepsValid` | crates/pgokf-embed/src/db.rs:185-214 | every edit, removal, policy change, poll and store keeps each stored row honest about the text, model and contract it was computed from |
| `Embedding.CurrentRowsMatchCurrentText` | crates/pgokf-embed/src/db.rs:130-214 | however edits and workers interleave, a row that is not pending holds the vector of its concept's current text, with the policy's dimension and pins |
| `Embedding.EveryIndexAppears` | crates/pgokf-companion/src/embeddings.rs:112-142 | as many distinct indices as inputs leave no input out |
| `Embedding.OrderByIndex` | crates/pgokf-companion/src/embeddings.rs:112-142 | succeeds exactly on permutations, gives each input its own vector, says truly what else was wrong, and never reports one missing |
| `Embedding.AnswersInOrder` | crates/pgokf-companion/src/embeddings.rs:80-142 | put back in order, the answers are the embeddings of the inputs |
| `Embedding.Catalog.PendingConcepts` | crates/pgokf-embed/src/db.rs:130-167 | exactly the pending concepts in scope, each once |
| `Embedding.Catalog.StoreEmbedding` | crates/pgokf-embed/src/db.rs:185-214 | an error for an unknown concept or a wrong length; otherwise stored exactly when the hash is still the polled one |
| `Embedding.Catalog.EmbedBatch` | crates/pgokf-embed/src/main.rs:252-301 | succeeds when the endpoint serves vectors of the policy's length; then each concept of the batch has the vector of its own text, and nothing else changed |
| `Embedding.Catalog.EmbedAll` | crates/pgokf-embed/src/main.rs:208-244 | the same for everything pending in scope; after it nothing in scope is pending exactly when the policy's pins accept this worker, or nothing was |
| `Embedding.WhatIsLeft` | crates/pgokf-embed/src/db.rs:130-167 | after everything found is stamped, something is still pending exactly when the pins refuse the stamp |
| `Frontmatter.ScanReports` | crates/okf-parser/src/frontmatter.rs:69-87 | the line-by-line scan finds the first fence, or the first line end past the limit, or that there is neither |
| `Frontmatter.SplitMeans` | crates/okf-parser/src/frontmatter.rs:57-103 | exactly one of the four answers describes a source, said without the order of reading, and it is the one given |
| `Frontmatter.SecondSizeCheckIsDead` | crates/okf-parser/src/frontmatter.rs:95-101 | the second size check can never fire |
| `Frontmatter.OwnLengthIsEnough` | crates/extension/src/catalog/packages.rs:634-635 | with the text's own length as limit, size is never the reason to refuse |
| `Frontmatter.Split` | crates/okf-parser/src/frontmatter.rs:57-103 | the loop gives the answer that describes the source |
| `Frontmatter.IndexBlock` | crates/okf-parser/src/frontmatter.rs:175-195 | the root index reader finds the block `split` finds once the byte order mark is off, and none exactly when `split` refuses |
| `Frontmatter.OpeningsAgree` | crates/pgokf-web/src/markdown.rs:147-153 | the page's reading of the opening delimiter is the parser's |
| `Frontmatter.StripFrontmatter` | crates/pgokf-web/src/markdown.rs:146-164 | a page shows `split`'s body at unlimited size, and the untouched file exactly when `split` finds no block |
| `Frontmatter.PagesShowTheParsedBody` | crates/pgokf-web/src/markdown.rs:146-164 | whatever the parser's limit, when it succeeds the page shows the body it found |
| `Frontmatter.RenderThenSplit` | crates/pgokf-companion/src/documents.rs:55-70 | for every body, a rendered block splits back to itself and the body exactly when it fits and no line of it reads `---` |
| `Frontmatter.RenderHasNoMark` | crates/pgokf-companion/src/documents.rs:55-70 | a rendered text has no byte order mark for the parser to take off |
| `Frontmatter.RenderedBlockFits` | crates/okf-parser/src/frontmatter.rs:57-103 | a rendered block without such a line that splits at all is within the limit |
| `Frontmatter.EmbeddedFenceCutsTheBlock` | crates/okf-parser/src/frontmatter.rs:42-49 | a block with such a line is cut at the first one and the rest lands in the body |
| `Frontmatter.SplitThenRender` | crates/pgokf-companion/src/documents.rs:34-70 | rendering what was split and splitting again gives the same |
| `Frontmatter.ParseOfRender` | crates/pgokf-companion/src/documents.rs:34-70 | a document read back from its own text is the document exactly when its YAML fits and has no line that reads `---` |
| `SqlLexer.CommentEnd` | scripts/compare-install-sql.py:39-52 | the depth loop ends where the nested comments are all closed, or finds that they are not |
| `SqlLexer.QuoteEnd` | scripts/compare-install-sql.py:53-69 | the quote loop ends at the first quote neither doubled nor escaped, or finds none |
| `SqlLexer.Tokens` | scripts/compare-install-sql.py:30-84 | every turn advances, and the result is the token list of the specification, or its fault |
| `SqlLexer.TokenStands` | scripts/compare-install-sql.py:53-83 | a token cut out and set before white space or the end is read as the same token |
| `SqlLexer.RelexIsIdentity` | scripts/compare-install-sql.py:30-84 | the tokens of any text, joined by single spaces, lex to the same tokens |
| `SqlLexer.BlankIsIgnored` | scripts/compare-install-sql.py:34-52 | comments and white space put before a line change none of its tokens |
| `SqlLexer.LayoutDoesNotMatter` | scripts/compare-install-sql.py:9-11 | a text's tokens laid out with any comments between them lex to the same tokens |
| `SqlLexer.NothingIsDropped` | scripts/compare-install-sql.py:27-29 | every character is in a token or in a gap that holds only comments and white space |
| `InstallScripts.PartsRejoin` | scripts/compare-install-sql.py:91 | splitting at the markers loses no text |
| `InstallScripts.Blocks` | scripts/compare-install-sql.py:87-109 | the loop counts the token lists of all parts, or reports the first fault |
| `InstallScripts.Surplus` | scripts/compare-install-sql.py:116-119 | each surplus entry once, with exactly how many there are too many |
| `InstallScripts.Compare` | scripts/compare-install-sql.py:112-120 | nothing is reported exactly when both counters are equal; every report is a true difference with its count, and every difference is reported |
| `InstallScripts.ScriptsAddUp` | scripts/compare-install-sql.py:87-109 | the counter of a generated script is the sum over its entities and the text around them |
| `InstallScripts.EntityOrderIsIgnored` | scripts/compare-install-sql.py:5-12 | reordering entities is never reported |
| `InstallScripts.AlteredEntityIsSeen` | scripts/compare-install-sql.py:9-12 | putting one entity in another's place goes unreported exactly when the two have the same tokens |
| `InstallScripts.DroppedEntityIsSeen` | scripts/compare-install-sql.py:9-12 | dropping an entity is reported unless there was no SQL in it or before it |
| `Ingest.EncodingIsInjective` | crates/pgokf-ingest/src/main.rs:275-288 | different object lists are never hashed from the same bytes |
| `Ingest.HashObjects` | crates/pgokf-ingest/src/main.rs:279-288 | the four updates an object feed the hasher that encoding |
| `Ingest.Collect` | crates/pgokf-ingest/src/main.rs:343-347 | the arrived objects, all of them, sorted by path |
| `Ingest.ArrivalOrderIsLost` | crates/pgokf-ingest/src/main.rs:343-347 | the same objects make the same listing however they arrived |
| `Ingest.Watcher.SyncPass` | crates/pgokf-ingest/src/main.rs:238-273 | which of failed, empty, unchanged and registered a pass is, what the catalog then holds, and a fingerprint exactly for a registration |
| `Ingest.Watcher.Turn` | crates/pgokf-ingest/src/main.rs:213-225 | only a registration moves the remembered fingerprint |
| `Ingest.WatcherRemembers` | crates/pgokf-ingest/src/main.rs:199-273 | after every run with failures, lost replies and empty listings the watcher remembers the last registered listing's fingerprint, and the catalog holds that listing exactly when no reply was lost since |
| `Ingest.SkippedExactlyWhenRegistered` | crates/pgokf-ingest/src/main.rs:256-263 | in every run a non-empty listing is skipped exactly when it is the one last registered |
| `Ingest.SkippedCatalogIsCurrent` | crates/pgokf-ingest/src/main.rs:256-263 | a skip leaves the catalog holding the listing exactly when no reply was lost since it was registered |
| `Ingest.RegisteredCatalogIsCurrent` | crates/pgokf-ingest/src/main.rs:265-273 | after a registration the catalog holds the listing and nothing is in doubt, whatever happened before |
| `Ingest.LostReplyGoesUnseen` | crates/pgokf-ingest/src/main.rs:199-273 | one listing, another whose reply is lost, the first again: the last pass is skipped over a catalog that holds the second |
| `Slugs.SlugFor` | crates/pgokf-web/src/provider_settings.rs:90-116 | the character loop gives the name's words, lowercased and joined by dashes, cut to 32 without a trailing dash, or the kind when there are no words |
| `Slugs.SlugIsValid` | crates/pgokf-web/src/provider_settings.rs:77-116 | whatever the name, its slug is one the catalog accepts |
| `Slugs.FallsBackToKind` | crates/pgokf-web/src/provider_settings.rs:110-115 | the kind's name is used exactly when the name holds no ASCII letter or digit |
| `Slugs.NumbersFit` | crates/pgokf-web/src/provider_settings.rs:127-128 | no `usize` suffix is longer than the bound, so the room left is never negative |
| `Slugs.CandidateIsValid` | crates/pgokf-web/src/provider_settings.rs:126-130 | every numbered candidate is one the catalog accepts |
| `Slugs.CandidatesDiffer` | crates/pgokf-web/src/provider_settings.rs:126-130 | different numbers make different candidates even after cutting and trimming |
| `Slugs.SearchEnds` | crates/pgokf-web/src/provider_settings.rs:125-132 | a free candidate is among the first `taken` plus one numbers |
| `Slugs.FreeSlug` | crates/pgokf-web/src/provider_settings.rs:120-133 | a valid slug nobody has: the plain one if free, else the lowest free number, within the first `taken` plus one |

## Left out

- PostgreSQL itself, SQL text, row-level security and the extension's own SQL functions: only the contracts above are used.
- The ingest companion registers content without the bundle-name lock, and the web interface registers outside a transaction, several paths at a time, without the package, version and size checks; neither is among the writers of `WriteProtocol`, whose theorems are about the MCP servers. How a web page builds its document is modelled, in `Contributions`, as a put.
- Registration: files the catalog's parser skips under its non-strict policy, and concepts re-staged because their class or owner changed.
- Unregistering and purging are one step that removes a bundle; their audit rows, events and dependents are not modelled.
- `WriteProtocol`: a refusal may come at any statement and its reason is not modelled, except in `UncontendedWriteCommits` and `UncontendedCreationCommits`, which say when none is needed; the bundle refresh and state tools appear as environment steps.
- Throttle.SignInThrottle.CountFailure: the count is an unbounded number where the source has a 32-bit one; overflow of that counter is not modelled.
- Throttle.SharedTableIsPrivate: stated for keys the ceiling never turned away, as the source drops those by design.
- Throttle.SpacedByWidth: how many guesses are in flight is a hypothesis; the sign-in page takes one of four permits around a check, and the profile page's password change takes none.
- Sign-in through an identity provider, cookies' encoding and sealing, and the store implementations: external code or cryptography.
- Discovery.Discover: glob matching and symlink resolution are parameters of the entries; errors of the walk itself are not modelled.
- Windows path separators: paths are POSIX paths made of well-formed segments.
- Provenance.GrantedEventsAreNeverLost: conservation is membership, not multiplicity, because the merge drops an event equal to one already there.
- Tagged YAML nodes; nested mappings compare without key order, as the YAML library's equality does.
- Embedding.CurrentRowsMatchCurrentText: a concept's text is a function of its id and file hash, so a file that changes class but neither its id nor its bytes is not modelled.
- Embedding.Catalog.PendingConcepts: the order of the polling query is not modelled; nothing proved depends on it.
- Embedding.Catalog.EmbedAll: with nobody else writing; interleaved edits are the subject of `CurrentRowsMatchCurrentText`.
- Frontmatter.ParseOfRender: YAML is a pair of functions with an assumed round trip, and deserializing into typed fields is not modelled.
- SqlLexer: universal newline translation when the file is read; the report lines of `compare` and its 200-character cut.
- InstallScripts.ScriptsAddUp: about texts free of markers between the generated ones, as the generator writes them; `Blocks` itself is for every text.
- Ingest.ArrivalOrderIsLost: requires distinct paths, as the keys of one listing under one prefix are.
- Slugs.FreeSlug: requires fewer taken slugs than `usize` has numbers, as any vector has.
- Heading ids, Markdown rendering, HTML sanitizing, HTTP layers, command lines and object-store clients: presentation and input/output.
- Sync planning and reports, role and tool tables, name validators, version checks, and the container, packaging and upgrade scripts.
