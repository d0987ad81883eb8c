/**
 * Password sessions: cookies bound to a fingerprint of the password hash and
 * recorded in a store, against people who change passwords, are removed, sign
 * out and sign in, all interleaved one statement at a time.
 *
 * The seal is taken as unforgeable (only issued claims are ever presented),
 * nonces and salted hashes as never repeated, and fingerprints as injective.
 */
module Sessions {
  import opened Text

  /** A person's row; someone an identity provider brought has no hash. */
  datatype Record = Record(hash: Option<nat>, role: nat)
  datatype Fingerprint = Fingerprint(of: nat)
  datatype Claims = Claims(subject: string, expires: nat, nonce: nat, binding: Fingerprint)
  datatype Live = Live(subject: string, expires: nat)
  datatype Principal = Principal(subject: string, role: nat)

  /** A cookie being issued: the record has been read, the session not yet recorded. */
  datatype Opening = Opening(subject: string, binding: Fingerprint)

  datatype State = State(
    now: nat,
    users: map<string, Record>,
    store: map<nat, Live>,
    issued: set<Claims>,
    opening: map<nat, Opening>,
    ending: map<nat, string>,
    usedHashes: set<nat>,
    usedNonces: set<nat>)

  /** One statement of one request; requests in progress are told apart by `request`. */
  datatype Step =
    | Tick(to: nat)
    | AddUser(name: string, role: nat, hash: nat)
    | Provision(name: string, role: nat)
    | SetRole(name: string, role: nat)
    | ReadRecord(request: nat, name: string)
    | RecordSession(request: nat, nonce: nat, seconds: nat)
    | AbandonSession(request: nat)
    | StoreHash(request: nat, name: string, hash: nat)
    | RemovePerson(request: nat, name: string)
    | EndSessions(request: nat)
    | SignOut(claims: Claims)

  predicate Enabled(s: State, step: Step) {
    match step
    case Tick(to) => s.now <= to
    case AddUser(name, _, hash) => name !in s.users && hash !in s.usedHashes
    case Provision(name, _) => name !in s.users
    case SetRole(name, _) => name in s.users
    case ReadRecord(request, name) =>
      request !in s.opening && name in s.users && s.users[name].hash.Some?
    case RecordSession(request, nonce, _) => request in s.opening && nonce !in s.usedNonces
    case AbandonSession(request) => request in s.opening
    case StoreHash(request, name, hash) =>
      request !in s.ending && name in s.users && s.users[name].hash.Some? && hash !in s.usedHashes
    case RemovePerson(request, name) => request !in s.ending && name in s.users
    case EndSessions(request) => request in s.ending
    case SignOut(claims) => claims in s.issued && claims.expires > s.now
  }

  function Apply(s: State, step: Step): State
    requires Enabled(s, step)
  {
    match step
    case Tick(to) => s.(now := to)
    case AddUser(name, role, hash) =>
      s.(users := s.users[name := Record(Some(hash), role)], usedHashes := s.usedHashes + {hash})
    case Provision(name, role) => s.(users := s.users[name := Record(None, role)])
    case SetRole(name, role) => s.(users := s.users[name := s.users[name].(role := role)])
    case ReadRecord(request, name) =>
      s.(opening := s.opening[request := Opening(name, Fingerprint(s.users[name].hash.value))])
    case RecordSession(request, nonce, seconds) =>
      var o := s.opening[request];
      var claims := Claims(o.subject, s.now + seconds, nonce, o.binding);
      s.(opening := s.opening - {request},
         store := s.store[nonce := Live(o.subject, claims.expires)],
         issued := s.issued + {claims},
         usedNonces := s.usedNonces + {nonce})
    case AbandonSession(request) => s.(opening := s.opening - {request})
    case StoreHash(request, name, hash) =>
      s.(users := s.users[name := s.users[name].(hash := Some(hash))],
         usedHashes := s.usedHashes + {hash},
         ending := s.ending[request := name])
    case RemovePerson(request, name) => s.(users := s.users - {name}, ending := s.ending[request := name])
    case EndSessions(request) =>
      s.(store := Without(s.store, s.ending[request]), ending := s.ending - {request})
    case SignOut(claims) => s.(store := s.store - {claims.nonce})
  }

  /** `remove_all_for`. */
  function Without(store: map<nat, Live>, subject: string): map<nat, Live> {
    map nonce | nonce in store && store[nonce].subject != subject :: store[nonce]
  }

  // ----- Identifying a request -----

  /** `read_session`: signed here, not expired, and still in the store as this person's. */
  predicate ReadsAsLive(s: State, claims: Claims) {
    && claims in s.issued && claims.expires > s.now
    && claims.nonce in s.store && s.store[claims.nonce].subject == claims.subject
  }

  /** The second half of `identify`: a person still, under the password the session was opened with. */
  function Recognized(users: map<string, Record>, claims: Claims): Option<Principal> {
    if claims.subject !in users then None
    else
      var record := users[claims.subject];
      if record.hash.None? || claims.binding != Fingerprint(record.hash.value) then None
      else Some(Principal(claims.subject, record.role))
  }

  function Identified(s: State, claims: Claims): Option<Principal> {
    if ReadsAsLive(s, claims) then Recognized(s.users, claims) else None
  }

  // ----- Runs -----

  predicate IsRun(s: State, steps: seq<Step>)
    decreases |steps|
  {
    steps == [] || (Enabled(s, steps[0]) && IsRun(Apply(s, steps[0]), steps[1..]))
  }

  function After(s: State, steps: seq<Step>): State
    requires IsRun(s, steps)
    decreases |steps|
  {
    if steps == [] then s else After(Apply(s, steps[0]), steps[1..])
  }

  /** What the assumptions on nonces and hashes keep true. */
  ghost predicate Valid(s: State) {
    && (forall n :: n in s.users && s.users[n].hash.Some? ==> s.users[n].hash.value in s.usedHashes)
    && (forall m, n :: m in s.users && n in s.users && s.users[m].hash.Some? && s.users[n].hash == s.users[m].hash
                       ==> m == n)
    && (forall c :: c in s.issued ==> c.nonce in s.usedNonces)
    && (forall c, d :: c in s.issued && d in s.issued && c.nonce == d.nonce ==> c == d)
    && (forall nonce :: nonce in s.store ==> nonce in s.usedNonces)
  }

  lemma StepKeepsValid(s: State, step: Step)
    requires Valid(s) && Enabled(s, step)
    ensures Valid(Apply(s, step))
  {
  }

  lemma {:induction false} RunKeepsValid(s: State, steps: seq<Step>)
    requires Valid(s) && IsRun(s, steps)
    ensures Valid(After(s, steps))
    decreases |steps|
  {
    if steps != [] {
      StepKeepsValid(s, steps[0]);
      RunKeepsValid(Apply(s, steps[0]), steps[1..]);
    }
  }

  // ----- A changed password ends what was opened before it -----

  ghost predicate Holds(s: State, name: string, hash: nat) {
    name in s.users && s.users[name].hash == Some(hash)
  }

  /** A hash nobody has and nobody can get again. */
  ghost predicate Gone(s: State, hash: nat) {
    hash in s.usedHashes && forall n :: n in s.users ==> s.users[n].hash != Some(hash)
  }

  lemma {:induction false} GoneStaysGone(s: State, steps: seq<Step>, hash: nat)
    requires IsRun(s, steps) && Gone(s, hash)
    ensures Gone(After(s, steps), hash)
    decreases |steps|
  {
    if steps != [] {
      GoneStaysGone(Apply(s, steps[0]), steps[1..], hash);
    }
  }

  /** Over a run, a person keeps a hash or it is gone. */
  lemma {:induction false} KeptOrGone(s: State, steps: seq<Step>, name: string, hash: nat)
    requires Valid(s) && IsRun(s, steps) && Holds(s, name, hash)
    ensures Holds(After(s, steps), name, hash) || Gone(After(s, steps), hash)
    decreases |steps|
  {
    if steps != [] {
      var s' := Apply(s, steps[0]);
      StepKeepsValid(s, steps[0]);
      if Holds(s', name, hash) {
        KeptOrGone(s', steps[1..], name, hash);
      } else {
        assert Gone(s', hash);
        GoneStaysGone(s', steps[1..], hash);
      }
    }
  }

  /**
   * A session whose binding was read before a password change - or a removal -
   * identifies nobody afterwards, however the requests interleave: from a state
   * where `name` holds `hash`, run to one where the person no longer holds it,
   * and on from there. This covers a cookie whose record was read before the
   * change and whose session was recorded after every session was ended.
   */
  lemma OldBindingsIdentifyNobody(s: State, before: seq<Step>, after: seq<Step>,
                                  name: string, hash: nat, claims: Claims)
    requires Valid(s) && IsRun(s, before) && IsRun(After(s, before), after)
    requires Holds(s, name, hash) && !Holds(After(s, before), name, hash)
    requires claims.binding == Fingerprint(hash)
    ensures Recognized(After(After(s, before), after).users, claims) == None
    ensures Identified(After(After(s, before), after), claims) == None
  {
    KeptOrGone(s, before, name, hash);
    GoneStaysGone(After(s, before), after, hash);
  }

  /** Storing a new hash is such a change, at once. */
  lemma StoringAHashChangesIt(s: State, name: string, request: nat, hash: nat, oldHash: nat)
    requires Valid(s) && Enabled(s, StoreHash(request, name, hash)) && Holds(s, name, oldHash)
    ensures !Holds(Apply(s, StoreHash(request, name, hash)), name, oldHash)
    ensures forall claims: Claims :: claims.binding == Fingerprint(oldHash) ==>
              Identified(Apply(s, StoreHash(request, name, hash)), claims) == None
  {
    var step := StoreHash(request, name, hash);
    forall claims: Claims | claims.binding == Fingerprint(oldHash)
      ensures Identified(Apply(s, step), claims) == None
    {
      assert IsRun(Apply(s, step), []) && IsRun(s, [step]);
      OldBindingsIdentifyNobody(s, [step], [], name, oldHash, claims);
    }
  }

  // ----- An ended session stays ended -----

  lemma {:induction false} EndedStaysEnded(s: State, steps: seq<Step>, claims: Claims)
    requires Valid(s) && IsRun(s, steps)
    requires claims in s.issued && claims.nonce !in s.store
    ensures Identified(After(s, steps), claims) == None
    decreases |steps|
  {
    if steps != [] {
      StepKeepsValid(s, steps[0]);
      EndedStaysEnded(Apply(s, steps[0]), steps[1..], claims);
    }
  }

  // ----- One person's sessions are nobody else's -----

  /** The person whose password, row or sessions a step ends; nobody for the others. */
  function Ends(s: State, step: Step): Option<string>
    requires Enabled(s, step)
  {
    match step
    case StoreHash(_, name, _) => Some(name)
    case RemovePerson(_, name) => Some(name)
    case EndSessions(request) => Some(s.ending[request])
    case SignOut(claims) => Some(claims.subject)
    case _ => None
  }

  /** Ending one person's sessions changes nobody else's cookie. */
  lemma EndingTouchesNobodyElse(s: State, step: Step, claims: Claims)
    requires Valid(s) && Enabled(s, step) && Ends(s, step).Some?
    requires claims in s.issued && claims.subject != Ends(s, step).value
    ensures Identified(Apply(s, step), claims) == Identified(s, claims)
  {
    if step.SignOut? {
      assert step.claims.nonce != claims.nonce;
    }
  }

  /** Ending somebody's sessions ends all of them that are recorded, and no others. */
  lemma EndingIsExact(s: State, request: nat, claims: Claims)
    requires Valid(s) && Enabled(s, EndSessions(request)) && claims in s.issued
    ensures var s' := Apply(s, EndSessions(request));
            ReadsAsLive(s', claims) <==> ReadsAsLive(s, claims) && claims.subject != s.ending[request]
  {
  }

  /** A cookie, once issued, identifies its person until a step that ends it or its time. */
  lemma FreshCookiesIdentify(s: State, request: nat, nonce: nat, seconds: nat)
    requires Valid(s) && Enabled(s, RecordSession(request, nonce, seconds)) && seconds > 0
    ensures var o := s.opening[request];
            var s' := Apply(s, RecordSession(request, nonce, seconds));
            var claims := Claims(o.subject, s.now + seconds, nonce, o.binding);
            Identified(s', claims).Some? <==> Holds(s, o.subject, o.binding.of)
  {
  }
}
