/**
 * The sign-in throttle: one table of recent failures shared by every name and
 * client address, pruned by age, capped in size, with a cooldown that doubles.
 * Instants and durations are in nanoseconds; names are byte strings.
 */
module Throttle {
  import opened Text

  const SECOND: nat := 1_000_000_000
  const FREE_FAILURES: nat := 5
  const MAX_COOLDOWN: nat := 900 * SECOND
  const FAILURE_MEMORY: nat := 3_600 * SECOND
  const MAX_NAME_LEN: nat := 256
  const MAX_TRACKED_FAILURES: nat := 10_000

  datatype Key = Key(name: string, peer: Option<nat>)
  datatype Failures = Failures(count: nat, until: nat)
  type Table = map<Key, Failures>

  function Pow2(k: nat): (p: nat)
    ensures p >= 1
  {
    if k == 0 then 1 else 2 * Pow2(k - 1)
  }

  function Min(a: nat, b: nat): nat {
    if a <= b then a else b
  }

  /** `now.duration_since(earlier)`, which saturates at zero. */
  function Elapsed(now: nat, earlier: nat): nat {
    if now >= earlier then now - earlier else 0
  }

  /** How long the failure that brings the count to `count` makes the key wait. */
  function Wait(count: nat): nat
    requires count > FREE_FAILURES
  {
    Min(Pow2(Min(count - FREE_FAILURES, 10)) * SECOND, MAX_COOLDOWN)
  }

  function OneMore(entry: Failures, now: nat): Failures {
    if entry.count + 1 > FREE_FAILURES then Failures(entry.count + 1, now + Wait(entry.count + 1))
    else Failures(entry.count + 1, entry.until)
  }

  predicate Remembered(entry: Failures, now: nat) {
    Elapsed(now, entry.until) < FAILURE_MEMORY
  }

  function Pruned(t: Table, now: nat): Table {
    map k | k in t && Remembered(t[k], now) :: t[k]
  }

  /** The map is full of live entries, so a new key is turned away. */
  predicate Full(t: Table, key: Key, now: nat) {
    key !in Pruned(t, now) && |Pruned(t, now)| >= MAX_TRACKED_FAILURES
  }

  /** The table after a failure of `key` is counted. */
  function Counted(t: Table, key: Key, now: nat): Table {
    var live := Pruned(t, now);
    if |key.name| > MAX_NAME_LEN then t
    else if Full(t, key, now) then live
    else live[key := OneMore(if key in live then live[key] else Failures(0, now), now)]
  }

  /** `checked_duration_since`: a key waits up to and including its `until`. */
  function CooldownOf(t: Table, key: Key, now: nat): Option<nat> {
    if key in t && now <= t[key].until then Some(t[key].until - now) else None
  }

  // ----- The shared table, changed in place -----

  datatype Attempt = Refused | Failed | SignedIn | Unavailable

  class SignInThrottle {
    var failures: Table

    constructor ()
      ensures failures == map[]
    {
      failures := map[];
    }

    method Cooldown(name: string, peer: Option<nat>, now: nat) returns (wait: Option<nat>)
      ensures wait == CooldownOf(failures, Key(Trim(name), peer), now)
    {
      hide Trim;
      var key := Key(Trim(name), peer);
      if key !in failures {
        return None;
      }
      return if now <= failures[key].until then Some(failures[key].until - now) else None;
    }

    method CountFailure(name: string, peer: Option<nat>, now: nat)
      modifies this
      ensures failures == Counted(old(failures), Key(name, peer), now)
    {
      if |name| > MAX_NAME_LEN {
        return;
      }
      failures := map k | k in failures && Elapsed(now, failures[k].until) < FAILURE_MEMORY :: failures[k];
      assert failures == Pruned(old(failures), now);
      var key := Key(name, peer);
      if key !in failures && |failures| >= MAX_TRACKED_FAILURES {
        return;
      }
      var entry := if key in failures then failures[key] else Failures(0, now);
      entry := entry.(count := entry.count + 1);
      if entry.count > FREE_FAILURES {
        var doublings := Min(entry.count - FREE_FAILURES, 10);
        var wait := Min(Pow2(doublings) * SECOND, MAX_COOLDOWN);
        entry := entry.(until := now + wait);
      }
      failures := failures[key := entry];
    }

    method ForgetFailures(name: string, peer: Option<nat>)
      modifies this
      ensures failures == old(failures) - {Key(name, peer)}
    {
      failures := failures - {Key(name, peer)};
    }

    /**
     * One sign-in: `answer` is the person's record if the catalog answered
     * (whether it holds a password), `matches` whether the password verified,
     * and `meanwhile` what other sign-ins have made of the table by then.
     */
    method Verify(name: string, peer: Option<nat>, checked: nat, answer: Option<Option<bool>>, matches: bool,
                  meanwhile: Table, counted: nat) returns (attempt: Attempt)
      requires checked <= counted
      modifies this
      ensures var key := Key(Trim(name), peer);
              var isPerson := answer == Some(Some(true)) && matches;
              attempt == if |key.name| > MAX_NAME_LEN || CooldownOf(old(failures), key, checked).Some? then Refused
                         else if answer.None? then Unavailable
                         else if isPerson then SignedIn
                         else Failed
      ensures failures == match attempt
                          case Refused => old(failures)
                          case Unavailable => meanwhile
                          case SignedIn => meanwhile - {Key(Trim(name), peer)}
                          case Failed => Counted(meanwhile, Key(Trim(name), peer), counted)
    {
      hide Trim, Counted;
      var trimmed := Trim(name);
      if |trimmed| > MAX_NAME_LEN {
        return Refused;
      }
      TrimTwice(name);
      var wait := Cooldown(trimmed, peer, checked);
      if wait.Some? {
        return Refused;
      }
      // The record is awaited, with the table free for others.
      failures := meanwhile;
      if answer.None? {
        return Unavailable;
      }
      if answer.value.Some? && matches && answer.value.value {
        ForgetFailures(trimmed, peer);
        return SignedIn;
      }
      CountFailure(trimmed, peer, counted);
      return Failed;
    }
  }

  lemma TrimTwice(s: string)
    ensures Trim(Trim(s)) == Trim(s)
  {
    var t := Trim(s);
    assert TrimStart(t) == t;
    assert TrimEnd(t) == t;
  }

  // ----- Runs -----

  /** What reaches the table, from any number of names and addresses. */
  datatype Event = Fail(key: Key, at: nat) | Success(key: Key, at: nat)

  function Next(t: Table, event: Event): Table {
    match event
    case Fail(key, at) => Counted(t, key, at)
    case Success(key, _) => t - {key}
  }

  /** The table after a run that starts empty. */
  function After(run: seq<Event>): Table {
    if run == [] then map[] else Next(After(run[..|run| - 1]), run[|run| - 1])
  }

  ghost predicate InTimeOrder(run: seq<Event>) {
    forall i, j :: 0 <= i < j < |run| ==> run[i].at <= run[j].at
  }

  /** `now` is not before anything in the run. */
  ghost predicate NotBefore(run: seq<Event>, now: nat) {
    forall i :: 0 <= i < |run| ==> run[i].at <= now
  }

  /** The attempts of one key, in order. */
  function Only(run: seq<Event>, key: Key): seq<Event> {
    if run == [] then []
    else
      var last := run[|run| - 1];
      Only(run[..|run| - 1], key) + (if last.key == key then [last] else [])
  }

  /** The size ceiling turned a failure of `key` away at some point of the run. */
  ghost predicate TurnedAway(run: seq<Event>, key: Key) {
    exists i :: 0 <= i < |run| && run[i].Fail? && run[i].key == key && |key.name| <= MAX_NAME_LEN
                && Full(After(run[..i]), key, run[i].at)
  }

  // ----- The shared table acts like a private counter -----

  /** The two tables agree on `key`, or the private one only keeps a forgotten entry. */
  ghost predicate Agrees(shared: Table, own: Table, key: Key, now: nat) {
    if key in shared then key in own && own[key] == shared[key]
    else key in own ==> !Remembered(own[key], now)
  }

  lemma PrunedSize(t: Table, now: nat)
    ensures |Pruned(t, now)| <= |t|
  {
    assert Pruned(t, now).Keys <= t.Keys;
    SubsetSize(Pruned(t, now).Keys, t.Keys);
  }

  lemma {:induction false} SubsetSize<T>(a: set<T>, b: set<T>)
    requires a <= b
    ensures |a| <= |b|
  {
    assert b == a + (b - a);
  }

  lemma {:induction false} OwnTableIsSmall(run: seq<Event>, key: Key)
    ensures After(Only(run, key)).Keys <= {key}
    ensures |After(Only(run, key))| <= 1
  {
    if run != [] {
      var init := run[..|run| - 1];
      OwnTableIsSmall(init, key);
      var last := run[|run| - 1];
      if last.key == key {
        assert Only(run, key)[..|Only(run, key)| - 1] == Only(init, key);
      } else {
        assert Only(run, key) == Only(init, key);
      }
    }
    SubsetSize(After(Only(run, key)).Keys, {key});
  }

  lemma {:induction false} SharedAgreesWithOwn(run: seq<Event>, key: Key)
    requires InTimeOrder(run) && !TurnedAway(run, key)
    ensures run == [] || Agrees(After(run), After(Only(run, key)), key, run[|run| - 1].at)
    ensures run == [] ==> After(run) == After(Only(run, key)) == map[]
  {
    if run != [] {
      var init, last := run[..|run| - 1], run[|run| - 1];
      PrefixIsNotTurnedAway(run, key);
      SharedAgreesWithOwn(init, key);
      OwnTableIsSmall(init, key);
      var shared, own := After(init), After(Only(init, key));
      assert Agrees(shared, own, key, last.at);
      hide Full, Remembered;
      if last.key == key {
        assert Only(run, key)[..|Only(run, key)| - 1] == Only(init, key);
        if last.Fail? && |key.name| <= MAX_NAME_LEN {
          assert !Full(After(run[..|run| - 1]), key, last.at);
          PrunedSize(own, last.at);
          assert !Full(own, key, last.at);
          CountsAlike(shared, own, key, last.at);
        }
      } else {
        assert Only(run, key) == Only(init, key);
      }
    }
  }

  lemma PrefixIsNotTurnedAway(run: seq<Event>, key: Key)
    requires run != [] && !TurnedAway(run, key)
    ensures !TurnedAway(run[..|run| - 1], key)
    ensures run[|run| - 1].Fail? && run[|run| - 1].key == key && |key.name| <= MAX_NAME_LEN ==>
              !Full(After(run[..|run| - 1]), key, run[|run| - 1].at)
  {
    hide Full, After;
    var init := run[..|run| - 1];
    forall i | 0 <= i < |init| && init[i].Fail? && init[i].key == key && |key.name| <= MAX_NAME_LEN
      ensures !Full(After(init[..i]), key, init[i].at)
    {
      assert init[..i] == run[..i];
    }
  }

  lemma CountsAlike(shared: Table, own: Table, key: Key, now: nat)
    requires Agrees(shared, own, key, now)
    requires |key.name| <= MAX_NAME_LEN && !Full(shared, key, now) && !Full(own, key, now)
    ensures key in Counted(shared, key, now) && key in Counted(own, key, now)
    ensures Counted(shared, key, now)[key] == Counted(own, key, now)[key]
  {
  }

  /**
   * The shared, pruned table is to each key a private counter: whatever the
   * other names and addresses do, and however the attempts interleave, the
   * cooldown reported for `key` is the one its own attempts alone earn, so
   * long as the ceiling never turned it away.
   */
  lemma SharedTableIsPrivate(run: seq<Event>, key: Key, now: nat)
    requires InTimeOrder(run) && NotBefore(run, now) && !TurnedAway(run, key)
    ensures CooldownOf(After(run), key, now) == CooldownOf(After(Only(run, key)), key, now)
  {
    hide After, Only, TurnedAway, InTimeOrder;
    SharedAgreesWithOwn(run, key);
  }

  // ----- Bounds -----

  /** What every reachable table satisfies at `now`. */
  ghost predicate Bounded(t: Table, now: nat) {
    && |t| <= MAX_TRACKED_FAILURES
    && forall k :: k in t ==> t[k].until <= now + MAX_COOLDOWN
  }

  lemma CountingStaysBounded(t: Table, key: Key, now: nat)
    requires Bounded(t, now)
    ensures Bounded(Counted(t, key, now), now)
  {
    CountingSize(t, key, now);
  }

  lemma CountingSize(t: Table, key: Key, now: nat)
    requires |t| <= MAX_TRACKED_FAILURES
    ensures |Counted(t, key, now)| <= MAX_TRACKED_FAILURES
  {
    hide OneMore, Pruned;
    PrunedSize(t, now);
    var live := Pruned(t, now);
    UpdateSize(live, key, OneMore(if key in live then live[key] else Failures(0, now), now));
  }

  lemma UpdateSize(t: Table, key: Key, f: Failures)
    ensures |t[key := f]| == if key in t then |t| else |t| + 1
  {
    var t' := t[key := f];
    assert t'.Keys == t.Keys + {key};
    assert |t'| == |t'.Keys|;
    if key in t {
      assert t'.Keys == t.Keys;
    }
  }

  /**
   * In every reachable state the table holds at most 10,000 entries, and no
   * key waits longer than 15 minutes.
   */
  lemma {:induction false} TableIsBounded(run: seq<Event>, now: nat)
    requires InTimeOrder(run) && NotBefore(run, now)
    ensures |After(run)| <= MAX_TRACKED_FAILURES
    ensures forall key :: match CooldownOf(After(run), key, now)
                          case None => true
                          case Some(wait) => wait <= MAX_COOLDOWN
    ensures Bounded(After(run), now)
  {
    if run != [] {
      var init, last := run[..|run| - 1], run[|run| - 1];
      TableIsBounded(init, last.at);
      match last {
        case Fail(key, at) => CountingStaysBounded(After(init), key, at);
        case Success(key, _) =>
          var t' := After(init) - {key};
          assert t'.Keys <= After(init).Keys;
          SubsetSize(t'.Keys, After(init).Keys);
      }
    }
  }

  // ----- Guesses are spaced -----

  /** Nanoseconds the failures before the `n`-th guess make it wait in all. */
  function WaitsBefore(n: nat): nat {
    if n <= FREE_FAILURES + 1 then 0 else WaitsBefore(n - 1) + Wait(n - 1)
  }

  lemma {:induction false} WaitsAddUp(n: nat)
    requires n >= 15
    ensures WaitsBefore(n) == (1_022 + 900 * (n - 15)) * SECOND
  {
    if n == 15 {
      FirstWaits();
    } else {
      WaitsAddUp(n - 1);
      assert Pow2(10) == 1_024 by { Powers(); }
      assert Wait(n - 1) == MAX_COOLDOWN;
    }
  }

  lemma Powers()
    ensures Pow2(1) == 2 && Pow2(2) == 4 && Pow2(3) == 8 && Pow2(4) == 16 && Pow2(5) == 32
    ensures Pow2(6) == 64 && Pow2(7) == 128 && Pow2(8) == 256 && Pow2(9) == 512 && Pow2(10) == 1_024
  {
    assert Pow2(1) == 2 * Pow2(0);
    assert Pow2(3) == 2 * Pow2(2);
    assert Pow2(5) == 2 * Pow2(4);
    assert Pow2(7) == 2 * Pow2(6);
    assert Pow2(9) == 2 * Pow2(8);
  }

  lemma FirstWaits()
    ensures WaitsBefore(15) == 1_022 * SECOND
  {
    Powers();
    assert WaitsBefore(7) == Wait(6) == 2 * SECOND;
    assert WaitsBefore(9) == WaitsBefore(7) + Wait(7) + Wait(8);
    assert WaitsBefore(11) == WaitsBefore(9) + Wait(9) + Wait(10);
    assert WaitsBefore(13) == WaitsBefore(11) + Wait(11) + Wait(12);
    assert WaitsBefore(15) == WaitsBefore(13) + Wait(13) + Wait(14);
  }

  /** A guess: checked at an instant, against the table at a point of the run, then counted by an event. */
  datatype Guess = Guess(checked: nat, point: nat, event: nat)

  ghost predicate Counts(run: seq<Event>, key: Key, g: Guess) {
    g.event < |run| && run[g.event].Fail? && run[g.event].key == key
  }

  /** The guess is let through: checked no later than counted, between the events around its point, and not throttled. */
  ghost predicate Passes(run: seq<Event>, key: Key, g: Guess) {
    && Counts(run, key, g) && g.point <= g.event
    && (g.point > 0 ==> run[g.point - 1].at <= g.checked) && g.checked <= run[g.point].at
    && CooldownOf(After(run[..g.point]), key, g.checked).None?
  }

  /** The guess whose failure opens a new entry. */
  ghost predicate Opens(run: seq<Event>, key: Key, g: Guess) {
    && Counts(run, key, g)
    && key !in Pruned(After(run[..g.event]), run[g.event].at)
    && !Full(After(run[..g.event]), key, run[g.event].at)
  }

  /** The next failure of the key after event `previous`, while the entry is remembered. */
  ghost predicate Continues(run: seq<Event>, key: Key, previous: nat, g: Guess) {
    && Counts(run, key, g) && previous < g.event
    && (forall i :: previous < i < g.event ==> run[i].key != key)
    && key in Pruned(After(run[..g.event]), run[g.event].at)
  }

  /** The guesses of one entry's life, in the order they are counted; they may be checked in any order. */
  ghost predicate OneLife(run: seq<Event>, key: Key, guesses: seq<Guess>) {
    && |key.name| <= MAX_NAME_LEN && InTimeOrder(run)
    && guesses != [] && Opens(run, key, guesses[0])
    && (forall j :: 0 <= j < |guesses| ==> Passes(run, key, guesses[j]))
    && (forall j :: 1 <= j < |guesses| ==> Continues(run, key, guesses[j - 1].event, guesses[j]))
  }

  /** Other keys' attempts leave an entry alone unless they prune it for good. */
  lemma {:induction false} EntryPersists(run: seq<Event>, key: Key, p: nat, q: nat)
    requires p <= q <= |run|
    requires forall i :: p <= i < q ==> run[i].key != key
    requires key in After(run[..q])
    ensures key in After(run[..p]) && After(run[..p])[key] == After(run[..q])[key]
    decreases q - p
  {
    if p < q {
      assert run[..q][..q - 1] == run[..q - 1];
      assert After(run[..q]) == Next(After(run[..q - 1]), run[q - 1]);
      OthersOnlyPrune(After(run[..q - 1]), run[q - 1], key);
      EntryPersists(run, key, p, q - 1);
    }
  }

  lemma OthersOnlyPrune(t: Table, event: Event, key: Key)
    requires event.key != key && key in Next(t, event)
    ensures key in t && t[key] == Next(t, event)[key]
  {
  }

  /** The table right after a guess is counted. */
  lemma AfterCounting(run: seq<Event>, key: Key, g: Guess)
    requires Counts(run, key, g)
    ensures After(run[..g.event + 1]) == Counted(After(run[..g.event]), key, run[g.event].at)
  {
    assert run[..g.event + 1][..g.event] == run[..g.event];
  }

  /** The entry of a key after the first `n` events, or a zero count when it has none. */
  ghost function EntryAfter(run: seq<Event>, n: nat, key: Key): Failures {
    var t := if n <= |run| then After(run[..n]) else map[];
    if key in t then t[key] else Failures(0, 0)
  }

  lemma OpeningCount(run: seq<Event>, key: Key, g: Guess)
    requires |key.name| <= MAX_NAME_LEN && Opens(run, key, g)
    ensures g.event < |run| && EntryAfter(run, g.event + 1, key).count == 1
  {
    AfterCounting(run, key, g);
    hide After;
  }

  lemma CountingRemembered(t: Table, key: Key, now: nat)
    requires |key.name| <= MAX_NAME_LEN && key in Pruned(t, now)
    ensures key in t && key in Counted(t, key, now)
    ensures Counted(t, key, now)[key] == OneMore(t[key], now)
  {
  }

  /** One more failure of the life is counted on top. */
  lemma FollowingCount(run: seq<Event>, key: Key, previous: nat, g: Guess)
    requires |key.name| <= MAX_NAME_LEN && Continues(run, key, previous, g)
    ensures g.event < |run|
    ensures EntryAfter(run, g.event + 1, key) == OneMore(EntryAfter(run, previous + 1, key), run[g.event].at)
  {
    hide After, Counted, OneMore, Pruned;
    AfterCounting(run, key, g);
    CountingRemembered(After(run[..g.event]), key, run[g.event].at);
    EntryPersists(run, key, previous + 1, g.event);
  }

  /** The n-th guess of a life brings the count to n, and sets the n-th wait. */
  lemma {:induction false} NthCount(run: seq<Event>, key: Key, guesses: seq<Guess>, n: nat)
    requires OneLife(run, key, guesses) && 1 <= n <= |guesses|
    ensures var last := guesses[n - 1].event;
            && last < |run| && EntryAfter(run, last + 1, key).count == n
            && (n > FREE_FAILURES ==> EntryAfter(run, last + 1, key).until == run[last].at + Wait(n))
  {
    hide After, Opens, Continues, Wait, EntryAfter, Passes, InTimeOrder;
    if n == 1 {
      OpeningCount(run, key, guesses[0]);
      assert Passes(run, key, guesses[0]);
      assert guesses[0].event < |run| by { PassesMeans(run, key, guesses[0]); }
    } else {
      NthCount(run, key, guesses, n - 1);
      assert Continues(run, key, guesses[n - 2].event, guesses[n - 1]);
      FollowingCount(run, key, guesses[n - 2].event, guesses[n - 1]);
    }
  }

  lemma PassesMeans(run: seq<Event>, key: Key, g: Guess)
    requires Passes(run, key, g)
    ensures g.point <= g.event < |run| && g.checked <= run[g.point].at
  {
  }

  /** Failures are counted one after another. */
  lemma {:induction false} EventsIncrease(run: seq<Event>, key: Key, guesses: seq<Guess>, i: nat, j: nat)
    requires OneLife(run, key, guesses) && i < j < |guesses|
    ensures guesses[i].event < guesses[j].event < |run|
    decreases j
  {
    assert Continues(run, key, guesses[j - 1].event, guesses[j]);
    if i < j - 1 {
      EventsIncrease(run, key, guesses, i, j - 1);
    }
  }

  lemma PrunedIsPart(t: Table, key: Key, now: nat)
    requires key in Pruned(t, now)
    ensures key in t
  {
  }

  /** Between two failures of a life the entry is as the first left it. */
  lemma EntryStays(run: seq<Event>, key: Key, previous: nat, point: nat, g: Guess)
    requires Continues(run, key, previous, g) && previous < point <= g.event
    ensures key in After(run[..point]) && EntryAfter(run, point, key) == EntryAfter(run, previous + 1, key)
  {
    hide After, Pruned;
    PrunedIsPart(After(run[..g.event]), key, run[g.event].at);
    EntryPersists(run, key, point, g.event);
    EntryPersists(run, key, previous + 1, g.event);
  }

  /** A guess that passed was past the deadline of the entry it found. */
  lemma PassedTheDeadline(run: seq<Event>, key: Key, g: Guess)
    requires Passes(run, key, g) && key in After(run[..g.point])
    ensures g.checked > EntryAfter(run, g.point, key).until
  {
    hide After;
  }

  lemma LifePasses(run: seq<Event>, key: Key, guesses: seq<Guess>, j: nat)
    requires OneLife(run, key, guesses) && j < |guesses|
    ensures Passes(run, key, guesses[j]) && guesses[j].point <= |run|
    ensures j > 0 ==> Continues(run, key, guesses[j - 1].event, guesses[j])
  {
    hide After, Continues, Opens;
  }

  /** A guess that passed after the m-th failure was counted, and before the next, waited out the m-th wait. */
  lemma CheckedAfter(run: seq<Event>, key: Key, guesses: seq<Guess>, j: nat, m: nat)
    requires OneLife(run, key, guesses) && FREE_FAILURES < m <= j < |guesses|
    requires guesses[m - 1].event < guesses[j].point <= guesses[m].event
    ensures guesses[m - 1].event < |run|
    ensures guesses[j].checked > run[guesses[m - 1].event].at + Wait(m)
  {
    hide OneLife, Passes, Continues, EntryAfter, After, Wait;
    NthCount(run, key, guesses, m);
    LifePasses(run, key, guesses, j);
    LifePasses(run, key, guesses, m);
    EntryStays(run, key, guesses[m - 1].event, guesses[j].point, guesses[m]);
    PassedTheDeadline(run, key, guesses[j]);
  }

  /** A guess that passed before a failure was counted is no later than that failure. */
  lemma CheckedBefore(run: seq<Event>, key: Key, guesses: seq<Guess>, j: nat, event: nat)
    requires OneLife(run, key, guesses) && j < |guesses| && guesses[j].point <= event < |run|
    ensures guesses[j].checked <= run[event].at
  {
    assert Passes(run, key, guesses[j]);
    assert guesses[j].point < event ==> run[guesses[j].point].at <= run[event].at;
  }

  /**
   * Once the free failures are used up, a guess is checked more than the
   * cooldown after the failure counted before it exactly when it was checked
   * against a table that held that failure.
   */
  lemma SpacedExactlyWhenCounted(run: seq<Event>, key: Key, guesses: seq<Guess>, j: nat)
    requires OneLife(run, key, guesses) && FREE_FAILURES < j < |guesses|
    ensures guesses[j - 1].event < |run|
    ensures guesses[j].checked > run[guesses[j - 1].event].at + Wait(j)
       <==> guesses[j - 1].event < guesses[j].point
  {
    EventsIncrease(run, key, guesses, j - 1, j);
    assert Passes(run, key, guesses[j]);
    hide Passes, Opens, Continues, Wait;
    if guesses[j - 1].event < guesses[j].point {
      PassesMeans(run, key, guesses[j]);
      CheckedAfter(run, key, guesses, j, j);
    } else {
      CheckedBefore(run, key, guesses, j, guesses[j - 1].event);
    }
  }

  lemma GuessCounts(run: seq<Event>, key: Key, guesses: seq<Guess>, j: nat)
    requires OneLife(run, key, guesses) && j < |guesses|
    ensures guesses[j].point <= guesses[j].event < |run|
  {
    assert Passes(run, key, guesses[j]);
    hide After;
  }

  lemma LaterEvent(run: seq<Event>, key: Key, guesses: seq<Guess>, j: nat)
    requires OneLife(run, key, guesses) && 1 <= j < |guesses|
    requires guesses[j - 1].event < guesses[j].event < |run|
    ensures run[guesses[j - 1].event].at <= run[guesses[j].event].at
  {
    hide Passes, Opens, Continues;
  }

  /** Each guess is checked only once the one before it was counted. */
  ghost predicate OneAtATime(guesses: seq<Guess>) {
    forall j :: 1 <= j < |guesses| ==> guesses[j - 1].event < guesses[j].point
  }

  lemma {:induction false} NthGuess(run: seq<Event>, key: Key, guesses: seq<Guess>, n: nat)
    requires OneLife(run, key, guesses) && OneAtATime(guesses) && 1 <= n <= |guesses|
    ensures guesses[0].event < |run| && guesses[n - 1].event < |run|
    ensures run[guesses[0].event].at + WaitsBefore(n) <= run[guesses[n - 1].event].at
    ensures n > FREE_FAILURES + 1 ==> guesses[n - 1].checked > run[guesses[0].event].at + WaitsBefore(n)
  {
    hide OneLife, Wait;
    GuessCounts(run, key, guesses, 0);
    GuessCounts(run, key, guesses, n - 1);
    if n > 1 {
      NthGuess(run, key, guesses, n - 1);
      EventsIncrease(run, key, guesses, n - 2, n - 1);
      LaterEvent(run, key, guesses, n - 1);
      CheckedBefore(run, key, guesses, n - 1, guesses[n - 1].event);
      if n > FREE_FAILURES + 1 {
        SpacedExactlyWhenCounted(run, key, guesses, n - 1);
      }
    }
  }

  /**
   * Guessing one at a time is slow: within one entry's life the n-th guess
   * (n >= 15) is checked more than 1022 + 900*(n-15) seconds after the first
   * was counted.
   */
  lemma GuessesAreSpaced(run: seq<Event>, key: Key, guesses: seq<Guess>)
    requires OneLife(run, key, guesses) && OneAtATime(guesses) && |guesses| >= 15
    ensures var n := |guesses|;
            && guesses[0].event < |run|
            && guesses[0].checked <= run[guesses[0].event].at
            && guesses[n - 1].checked > run[guesses[0].event].at + (1_022 + 900 * (n - 15)) * SECOND
  {
    NthGuess(run, key, guesses, |guesses|);
    WaitsAddUp(|guesses|);
    CheckedBefore(run, key, guesses, 0, guesses[0].event);
    hide After, Opens, Continues;
  }

  // ----- Guesses at once -----

  function Burst(key: Key, n: nat, now: nat): seq<Event> {
    seq(n, _ => Fail(key, now))
  }

  /** As many guesses as one likes, all checked against the empty table at one instant. */
  function AtOnce(n: nat, now: nat): seq<Guess> {
    seq(n, i requires 0 <= i < n => Guess(now, 0, i))
  }

  /** A failure counted into a small table is remembered at that instant. */
  lemma CountedIsRemembered(t: Table, key: Key, now: nat)
    requires |key.name| <= MAX_NAME_LEN && |t| <= 1
    ensures key in Pruned(Counted(t, key, now), now)
  {
    hide Wait;
    PrunedSize(t, now);
  }

  lemma {:induction false} BurstCounts(key: Key, n: nat, now: nat)
    requires |key.name| <= MAX_NAME_LEN
    ensures |After(Burst(key, n, now))| <= 1
    ensures n == 0 ==> After(Burst(key, n, now)) == map[]
    ensures n > 0 ==> key in Pruned(After(Burst(key, n, now)), now)
  {
    hide Pruned, Counted;
    var run := Burst(key, n, now);
    if n > 0 {
      BurstCounts(key, n - 1, now);
      assert run[..n - 1] == Burst(key, n - 1, now);
      CountedIsRemembered(After(run[..n - 1]), key, now);
      OwnTable(run, key, n);
    }
  }

  /**
   * The check and the count are two steps, so any number of guesses pass at
   * one instant: they are one entry's life, none of them spaced.
   */
  lemma OverlappingGuessesAreNotSpaced(key: Key, n: nat, now: nat)
    requires |key.name| <= MAX_NAME_LEN && n > 0
    ensures OneLife(Burst(key, n, now), key, AtOnce(n, now))
    ensures forall i :: 0 <= i < n ==> AtOnce(n, now)[i].checked == now
  {
    var run, guesses := Burst(key, n, now), AtOnce(n, now);
    forall i | 0 <= i < n
      ensures run[..i] == Burst(key, i, now) && |After(run[..i])| <= 1
      ensures i == 0 ==> After(run[..i]) == map[]
      ensures i > 0 ==> key in Pruned(After(run[..i]), now)
    {
      assert run[..i] == Burst(key, i, now);
      BurstCounts(key, i, now);
    }
    hide After;
    assert After(run[..0]) == map[];
    PrunedSize(map[], now);
  }

  lemma OwnTable(run: seq<Event>, key: Key, n: nat)
    requires |run| == n && forall i :: 0 <= i < n ==> run[i].key == key
    ensures |After(run)| <= 1
  {
    OnlyOfOwn(run, key);
    OwnTableIsSmall(run, key);
  }

  lemma {:induction false} OnlyOfOwn(run: seq<Event>, key: Key)
    requires forall i :: 0 <= i < |run| ==> run[i].key == key
    ensures Only(run, key) == run
  {
    if run != [] {
      OnlyOfOwn(run[..|run| - 1], key);
    }
  }

  // ----- A bounded number of guesses at once -----

  /** `order` lists the guesses as they are checked. */
  ghost predicate CheckOrder(guesses: seq<Guess>, order: seq<nat>) {
    && |order| == |guesses|
    && (forall i :: 0 <= i < |order| ==> order[i] < |guesses|)
    && (forall i, j :: 0 <= i < j < |order| ==> order[i] != order[j])
    && (forall x :: 0 <= x < |guesses| ==> x in order)
    && (forall i, j :: 0 <= i < j < |order| ==>
          && guesses[order[i]].point <= guesses[order[j]].point
          && guesses[order[i]].checked <= guesses[order[j]].checked)
  }

  /** The guesses checked before the `p`-th that are not yet counted when it is checked. */
  ghost function InFlight(guesses: seq<Guess>, order: seq<nat>, p: nat): set<int>
    requires p < |order| && forall i :: 0 <= i < |order| ==> order[i] < |guesses|
  {
    set i | 0 <= i < p && guesses[order[i]].event >= guesses[order[p]].point
  }

  ghost function Landed(guesses: seq<Guess>, order: seq<nat>, p: nat): set<int>
    requires p < |order| && forall i :: 0 <= i < |order| ==> order[i] < |guesses|
  {
    set i | 0 <= i < p && guesses[order[i]].event < guesses[order[p]].point
  }

  function UpTo(n: nat): (all: set<int>)
    ensures forall i :: i in all <==> 0 <= i < n
    ensures |all| == n
  {
    if n == 0 then {} else UpTo(n - 1) + {n - 1}
  }

  function Chosen(order: seq<nat>, at: set<int>): set<nat>
    requires forall i :: i in at ==> 0 <= i < |order|
  {
    set i | i in at :: order[i]
  }

  lemma ChosenOneMore(order: seq<nat>, at: set<int>, i: int)
    requires forall k :: k in at ==> 0 <= k < |order|
    requires 0 <= i < |order| && i !in at
    requires forall k, l :: 0 <= k < l < |order| ==> order[k] != order[l]
    ensures |Chosen(order, at + {i})| == |Chosen(order, at)| + 1
  {
    assert Chosen(order, at + {i}) == Chosen(order, at) + {order[i]};
    assert order[i] !in Chosen(order, at);
  }

  /** Different positions hold different guesses. */
  lemma {:induction false} ChosenSize(order: seq<nat>, at: set<int>, n: nat)
    requires n <= |order| && at <= UpTo(n)
    requires forall i, j :: 0 <= i < j < |order| ==> order[i] != order[j]
    ensures |Chosen(order, at)| == |at|
    decreases n
  {
    hide Chosen, UpTo;
    if n == 0 {
      assert at == {};
      ChosenNothing(order);
    } else if n - 1 in at {
      var rest := at - {n - 1};
      assert at == rest + {n - 1};
      ChosenSize(order, rest, n - 1);
      ChosenOneMore(order, rest, n - 1);
    } else {
      ChosenSize(order, at, n - 1);
    }
  }

  lemma ChosenNothing(order: seq<nat>)
    ensures Chosen(order, {}) == {}
  {
  }

  /** How many failures the check of a guess finds counted. */
  lemma CountedByThen(run: seq<Event>, key: Key, guesses: seq<Guess>, j: nat) returns (m: nat)
    requires OneLife(run, key, guesses) && j < |guesses|
    ensures m <= j && guesses[j].point <= guesses[m].event
    ensures m > 0 ==> guesses[m - 1].event < guesses[j].point
    ensures forall x :: 0 <= x < |guesses| && guesses[x].event < guesses[j].point ==> x < m
  {
    GuessCounts(run, key, guesses, j);
    hide OneLife;
    m := 0;
    while guesses[m].event < guesses[j].point
      invariant 0 <= m <= j
      invariant m > 0 ==> guesses[m - 1].event < guesses[j].point
      decreases j - m
    {
      m := m + 1;
    }
    forall x | m <= x < |guesses|
      ensures guesses[x].event >= guesses[j].point
    {
      if m < x {
        EventsIncrease(run, key, guesses, m, x);
      }
    }
  }

  /** With fewer than K in flight, all but K of those checked before are counted. */
  lemma EnoughLanded(guesses: seq<Guess>, order: seq<nat>, limit: nat, p: nat, m: nat)
    requires CheckOrder(guesses, order) && p < |order| && |InFlight(guesses, order, p)| < limit
    requires forall x :: 0 <= x < |guesses| && guesses[x].event < guesses[order[p]].point ==> x < m
    ensures m >= p + 1 - limit
  {
    var landed, flying := Landed(guesses, order, p), InFlight(guesses, order, p);
    assert landed + flying == UpTo(p);
    assert |landed + flying| <= |landed| + |flying| by { assert landed !! flying; }
    ChosenSize(order, landed, p);
    var image := Chosen(order, landed);
    assert image <= UpTo(m);
    SubsetSize(image, UpTo(m));
  }

  /** The m failures counted last were all checked by then, so the check that ranks below m was too. */
  lemma RankedCheckIsEarlier(run: seq<Event>, key: Key, guesses: seq<Guess>, order: seq<nat>, m: nat, r: nat)
    requires OneLife(run, key, guesses) && CheckOrder(guesses, order) && r < m <= |guesses|
    ensures guesses[order[r]].point <= guesses[m - 1].event
  {
    hide OneLife;
    forall x | 0 <= x < m
      ensures guesses[x].point <= guesses[m - 1].event
    {
      GuessCounts(run, key, guesses, x);
      if x < m - 1 {
        EventsIncrease(run, key, guesses, x, m - 1);
      }
    }
    RankedPoint(guesses, order, m, r, guesses[m - 1].event);
  }

  /** If m guesses have their check by `point`, so has every check that ranks below m. */
  lemma RankedPoint(guesses: seq<Guess>, order: seq<nat>, m: nat, r: nat, point: nat)
    requires CheckOrder(guesses, order) && r < m <= |guesses|
    requires forall x :: 0 <= x < m ==> guesses[x].point <= point
    ensures guesses[order[r]].point <= point
  {
    if guesses[order[r]].point > point {
      var image := Chosen(order, UpTo(r));
      ChosenSize(order, UpTo(r), r);
      forall x | x in UpTo(m)
        ensures x in image
      {
        assert x in order;
        var i :| 0 <= i < |order| && order[i] == x;
        assert i in UpTo(r);
      }
      SubsetSize(UpTo(m), image);
    }
  }

  lemma WaitGrows(a: nat, b: nat)
    requires FREE_FAILURES < a <= b
    ensures Wait(a) <= Wait(b)
  {
    PowGrows(Min(a - FREE_FAILURES, 10), Min(b - FREE_FAILURES, 10));
  }

  lemma {:induction false} PowGrows(a: nat, b: nat)
    requires a <= b
    ensures Pow2(a) <= Pow2(b)
  {
    if a < b {
      PowGrows(a, b - 1);
    }
  }

  /**
   * Guessing at once is no faster than its width: when fewer than `limit`
   * earlier guesses are between check and count whenever one is checked, the
   * n-th check comes more than the (n - limit)-th cooldown after the
   * (n - limit)-th check.
   */
  lemma SpacedByWidth(run: seq<Event>, key: Key, guesses: seq<Guess>, order: seq<nat>, limit: nat, n: nat)
    requires OneLife(run, key, guesses) && CheckOrder(guesses, order)
    requires limit >= 1 && FREE_FAILURES + limit < n <= |guesses|
    requires |InFlight(guesses, order, n - 1)| < limit
    ensures guesses[order[n - 1]].checked > guesses[order[n - 1 - limit]].checked + Wait(n - limit)
  {
    hide OneLife, Wait;
    var j := order[n - 1];
    var m := CountedByThen(run, key, guesses, j);
    EnoughLanded(guesses, order, limit, n - 1, m);
    CheckedAfter(run, key, guesses, j, m);
    WaitGrows(n - limit, m);
    RankedCheckIsEarlier(run, key, guesses, order, m, n - 1 - limit);
    CheckedBefore(run, key, guesses, order[n - 1 - limit], guesses[m - 1].event);
  }

  /** Waits only grow, so a stretch of them is at most its length times the last. */
  lemma {:induction false} WaitsAtMost(a: nat, b: nat)
    requires a <= b && b > FREE_FAILURES + 1
    ensures WaitsBefore(b) <= WaitsBefore(a) + (b - a) * Wait(b - 1)
    decreases b - a
  {
    hide Wait;
    if a < b {
      WaitsAtMost(a + 1, b);
      assert (b - a) * Wait(b - 1) == (b - a - 1) * Wait(b - 1) + Wait(b - 1);
      if a > FREE_FAILURES {
        WaitGrows(a, b - 1);
      }
    }
  }

  /** Fewer than `limit` earlier guesses are between check and count whenever one is checked. */
  ghost predicate Narrow(guesses: seq<Guess>, order: seq<nat>, limit: nat)
    requires forall i :: 0 <= i < |order| ==> order[i] < |guesses|
  {
    forall p :: 0 <= p < |order| ==> |InFlight(guesses, order, p)| < limit
  }

  /** `limit` times the time since the first check is at least all the waits up to `limit` guesses ago. */
  lemma {:induction false} ChecksAddUp(run: seq<Event>, key: Key, guesses: seq<Guess>, order: seq<nat>, limit: nat, n: nat)
    requires OneLife(run, key, guesses) && CheckOrder(guesses, order) && Narrow(guesses, order, limit)
    requires limit >= 1 && limit <= n <= |guesses|
    ensures limit * (guesses[order[n - 1]].checked - guesses[order[0]].checked) >= WaitsBefore(n + 1 - limit)
    ensures n > FREE_FAILURES + limit ==>
      limit * (guesses[order[n - 1]].checked - guesses[order[0]].checked) > WaitsBefore(n + 1 - limit)
    decreases n
  {
    hide OneLife, Wait, InFlight;
    var now, first := guesses[order[n - 1]].checked, guesses[order[0]].checked;
    assert first <= now;
    if n > FREE_FAILURES + limit {
      SpacedByWidth(run, key, guesses, order, limit, n);
      var before := guesses[order[n - 1 - limit]].checked;
      var wait := Wait(n - limit);
      Scaled(limit, now, before, first, wait);
      if n - limit >= limit {
        ChecksAddUp(run, key, guesses, order, limit, n - limit);
        WaitsAtMost(n + 1 - limit - limit, n + 1 - limit);
      } else {
        WaitsAtMost(0, n + 1 - limit);
        Scaled(limit, before, first, first, 0);
        MoreTimes(n + 1 - limit, limit, wait);
      }
    } else {
      Scaled(limit, now, first, first, 0);
    }
  }

  lemma Scaled(k: nat, now: int, before: int, first: int, wait: int)
    requires k >= 1 && now >= before + wait
    ensures k * (now - first) >= k * (before - first) + k * wait
    ensures now > before + wait ==> k * (now - first) > k * (before - first) + k * wait
  {
    assert k * (now - first) == k * (before - first) + k * wait + k * (now - before - wait);
  }

  lemma MoreTimes(a: nat, b: nat, wait: nat)
    requires a <= b
    ensures a * wait <= b * wait
  {
    assert b * wait == a * wait + (b - a) * wait;
  }

  /**
   * Guessing up to `limit` at a time, the n-th check, n at least 14 + limit,
   * comes more than (1022 + 900*(n - 14 - limit)) / limit seconds after the
   * first; one at a time that is the bound of `GuessesAreSpaced`.
   */
  lemma GuessesAtOnceAreSpaced(run: seq<Event>, key: Key, guesses: seq<Guess>, order: seq<nat>, limit: nat)
    requires OneLife(run, key, guesses) && CheckOrder(guesses, order) && Narrow(guesses, order, limit)
    requires limit >= 1 && |guesses| >= 14 + limit
    ensures var n := |guesses|;
      limit * (guesses[order[n - 1]].checked - guesses[order[0]].checked) > (1_022 + 900 * (n - 14 - limit)) * SECOND
  {
    hide OneLife, InFlight;
    ChecksAddUp(run, key, guesses, order, limit, |guesses|);
    WaitsAddUp(|guesses| + 1 - limit);
  }
}
