/**
 * The object-store watcher: it fingerprints each listing and registers it only
 * when the fingerprint differs from that of the last registered one.
 */
module Ingest {
  import opened Text
  import Sorting

  /** Byte strings: one character a byte. */
  type Bytes = string

  datatype Object = Object(path: Bytes, bytes: Bytes)

  // ----- The fingerprint -----

  function Power256(k: nat): (p: nat)
    ensures p >= 1
  {
    if k == 0 then 1 else 256 * Power256(k - 1)
  }

  /** `to_le_bytes` of a number of `k` bytes. */
  function LittleEndian(n: nat, k: nat): (s: Bytes)
    ensures |s| == k
  {
    if k == 0 then [] else [(n % 256) as char] + LittleEndian(n / 256, k - 1)
  }

  function Value(s: Bytes): nat {
    if s == [] then 0 else s[0] as nat + 256 * Value(s[1..])
  }

  lemma {:induction false} ValueOfLittleEndian(n: nat, k: nat)
    requires n < Power256(k)
    ensures Value(LittleEndian(n, k)) == n
  {
    if k > 0 {
      assert n / 256 < Power256(k - 1);
      ValueOfLittleEndian(n / 256, k - 1);
      assert LittleEndian(n, k)[1..] == LittleEndian(n / 256, k - 1);
    }
  }

  /** A field with its length before it. */
  function Field(p: Bytes): Bytes {
    LittleEndian(|p|, 8) + p
  }

  function Encoded(objects: seq<Object>): Bytes {
    if objects == [] then []
    else Field(objects[0].path) + (Field(objects[0].bytes) + Encoded(objects[1..]))
  }

  /** Lengths fit a `u64`, as every length in memory does. */
  ghost predicate Sized(objects: seq<Object>) {
    forall o :: o in objects ==> |o.path| < Power256(8) && |o.bytes| < Power256(8)
  }

  /** A field says where it ends. */
  lemma FieldsPart(p: Bytes, x: Bytes, q: Bytes, y: Bytes)
    requires |p| < Power256(8) && |q| < Power256(8)
    requires Field(p) + x == Field(q) + y
    ensures p == q && x == y
  {
    var all := Field(p) + x;
    assert all[..8] == LittleEndian(|p|, 8);
    assert (Field(q) + y)[..8] == LittleEndian(|q|, 8);
    ValueOfLittleEndian(|p|, 8);
    ValueOfLittleEndian(|q|, 8);
    assert all[8..8 + |p|] == p;
    assert (Field(q) + y)[8..8 + |q|] == q;
    assert all[8 + |p|..] == x;
    assert (Field(q) + y)[8 + |q|..] == y;
  }

  /** Different object lists are never hashed from the same bytes. */
  lemma {:induction false} EncodingIsInjective(a: seq<Object>, b: seq<Object>)
    requires Sized(a) && Sized(b) && Encoded(a) == Encoded(b)
    ensures a == b
  {
    if a != [] && b != [] {
      assert a[0] in a && b[0] in b;
      var restA, restB := Encoded(a[1..]), Encoded(b[1..]);
      FieldsPart(a[0].path, Field(a[0].bytes) + restA, b[0].path, Field(b[0].bytes) + restB);
      FieldsPart(a[0].bytes, restA, b[0].bytes, restB);
      EncodingIsInjective(a[1..], b[1..]);
      assert a == [a[0]] + a[1..] && b == [b[0]] + b[1..];
    }
  }

  lemma {:induction false} EncodedAppends(a: seq<Object>, o: Object)
    ensures Encoded(a + [o]) == Encoded(a) + Field(o.path) + Field(o.bytes)
  {
    hide Field;
    var all := a + [o];
    if a == [] {
      assert all[1..] == [];
    } else {
      EncodedAppends(a[1..], o);
      assert all[1..] == a[1..] + [o];
      Regroup(Field(a[0].path), Field(a[0].bytes), Encoded(a[1..]), Field(o.path), Field(o.bytes));
    }
  }

  lemma Regroup(x: Bytes, y: Bytes, z: Bytes, p: Bytes, b: Bytes)
    ensures x + (y + (z + p + b)) == x + (y + z) + p + b
  {
  }

  lemma NothingEncoded()
    ensures Encoded([]) == []
  {
  }

  /** No two byte strings have the same digest. */
  ghost predicate CollisionFree<D(!new)>(digest: Bytes -> D) {
    forall x, y :: digest(x) == digest(y) ==> x == y
  }

  /** `hash_objects`: four updates an object, then the digest of all that was fed in. */
  method HashObjects<D>(digest: Bytes -> D, objects: seq<Object>) returns (hash: D)
    ensures hash == digest(Encoded(objects))
  {
    hide Encoded, LittleEndian;
    var fed: Bytes := [];
    NothingEncoded();
    for n := 0 to |objects|
      invariant fed == Encoded(objects[..n])
    {
      var o := objects[n];
      assert objects[..n + 1] == objects[..n] + [o];
      EncodedAppends(objects[..n], o);
      fed := fed + LittleEndian(|o.path|, 8);
      fed := fed + o.path;
      fed := fed + LittleEndian(|o.bytes|, 8);
      fed := fed + o.bytes;
      assert fed == Encoded(objects[..n]) + (LittleEndian(|o.path|, 8) + o.path) + (LittleEndian(|o.bytes|, 8) + o.bytes);
    }
    assert objects[..|objects|] == objects;
    return digest(fed);
  }

  // ----- Collecting a listing -----

  predicate ByPath(a: Object, b: Object) {
    LexLe(a.path, b.path)
  }

  lemma ByPathIsAnOrder()
    ensures Sorting.TotalPreorder(ByPath)
  {
    hide LexLe;
    forall a: Object, b: Object
      ensures ByPath(a, b) || ByPath(b, a)
    {
      LexTotal(a.path, b.path);
    }
    forall a: Object, b: Object, c: Object | ByPath(a, b) && ByPath(b, c)
      ensures ByPath(a, c)
    {
      LexTransitive(a.path, b.path, c.path);
    }
  }

  ghost predicate DistinctPaths(objects: seq<Object>) {
    forall i, j :: 0 <= i < j < |objects| ==> objects[i].path != objects[j].path
  }

  /** `collect_bundle` after its downloads, which finish in any order. */
  method Collect(arrivals: seq<Object>) returns (objects: seq<Object>)
    ensures multiset(objects) == multiset(arrivals)
    ensures Sorting.SortedBy(objects, ByPath)
  {
    ByPathIsAnOrder();
    objects := Sorting.Sort(arrivals, ByPath);
  }

  lemma FirstIsLeast(a: seq<Object>, i: nat)
    requires i < |a| && Sorting.SortedBy(a, ByPath)
    ensures LexLe(a[0].path, a[i].path)
  {
    hide LexLe;
    if i == 0 {
      LexTotal(a[0].path, a[0].path);
    } else {
      assert ByPath(a[0], a[i]);
    }
  }

  lemma FirstIsShared(a: seq<Object>, b: seq<Object>)
    requires a != [] && multiset(a) == multiset(b)
    requires Sorting.SortedBy(a, ByPath) && Sorting.SortedBy(b, ByPath)
    requires DistinctPaths(a)
    ensures b != [] && a[0] == b[0]
  {
    hide LexLe;
    assert |multiset(a)| == |a| && |multiset(b)| == |b|;
    assert a[0] in multiset(b) && b[0] in multiset(a);
    var i :| 0 <= i < |a| && a[i] == b[0];
    var j :| 0 <= j < |b| && b[j] == a[0];
    LexTotal(a[0].path, b[0].path);
    LexTotal(a[0].path, a[0].path);
    FirstIsLeast(a, i);
    FirstIsLeast(b, j);
  }

  lemma TailStaysSorted(a: seq<Object>)
    requires a != [] && Sorting.SortedBy(a, ByPath)
    ensures Sorting.SortedBy(a[1..], ByPath)
  {
  }

  lemma TailStaysDistinct(a: seq<Object>)
    requires a != [] && DistinctPaths(a)
    ensures DistinctPaths(a[1..])
  {
  }

  /** The same objects, however they arrived, make the same listing. */
  lemma {:induction false} ArrivalOrderIsLost(a: seq<Object>, b: seq<Object>)
    requires multiset(a) == multiset(b) && DistinctPaths(a)
    requires Sorting.SortedBy(a, ByPath) && Sorting.SortedBy(b, ByPath)
    ensures a == b
    decreases |a|
  {
    hide ByPath, DistinctPaths, Sorting.SortedBy;
    if a == [] {
      assert |b| == |multiset(b)| == |multiset(a)| == 0;
    } else {
      FirstIsShared(a, b);
      assert a == [a[0]] + a[1..] && b == [b[0]] + b[1..];
      assert multiset(a[1..]) == multiset(a) - multiset{a[0]};
      assert multiset(b[1..]) == multiset(b) - multiset{b[0]};
      TailStaysSorted(a);
      TailStaysSorted(b);
      TailStaysDistinct(a);
      ArrivalOrderIsLost(a[1..], b[1..]);
    }
  }

  // ----- The watch -----

  /** What becomes of a registration: stored and confirmed, not stored, or stored with the reply lost. */
  datatype Reply = Acked | NotStored | AckLost

  datatype Pass = CollectFails | Listing(objects: seq<Object>, reply: Reply)

  datatype Outcome = Failed | Empty | Unchanged | Registered

  /** The watcher's memory, and what it last had stored in the catalog. */
  datatype State<D> = State(lastHash: Option<D>, catalog: Option<seq<Object>>)

  function OutcomeOf<D(==)>(digest: Bytes -> D, s: State<D>, pass: Pass): Outcome {
    if pass.CollectFails? then Failed
    else if pass.objects == [] then Empty
    else if Some(digest(Encoded(pass.objects))) == s.lastHash then Unchanged
    else if pass.reply.Acked? then Registered
    else Failed
  }

  function Step<D(==)>(digest: Bytes -> D, s: State<D>, pass: Pass): State<D> {
    match OutcomeOf(digest, s, pass)
    case Registered => State(Some(digest(Encoded(pass.objects))), Some(pass.objects))
    case Failed =>
      if pass.Listing? && pass.reply.AckLost? then s.(catalog := Some(pass.objects)) else s
    case _ => s
  }

  class Watcher<D(==)> {
    const digest: Bytes -> D
    var lastHash: Option<D>
    var catalog: Option<seq<Object>>

    ghost function Now(): State<D>
      reads this
    {
      State(lastHash, catalog)
    }

    constructor (digest: Bytes -> D)
      ensures this.digest == digest && Now() == State(None, None)
    {
      this.digest := digest;
      lastHash := None;
      catalog := None;
    }

    /** The server's side of a registration. */
    method Register(objects: seq<Object>, reply: Reply) returns (ok: bool)
      modifies this`catalog
      ensures ok == reply.Acked?
      ensures catalog == if reply.NotStored? then old(catalog) else Some(objects)
    {
      if !reply.NotStored? {
        catalog := Some(objects);
      }
      return reply.Acked?;
    }

    /** `sync_pass`: the new fingerprint, when there is one; and whether the pass failed. */
    method SyncPass(pass: Pass) returns (hash: Option<D>, outcome: Outcome)
      modifies this`catalog
      ensures outcome == OutcomeOf(digest, old(Now()), pass)
      ensures catalog == Step(digest, old(Now()), pass).catalog
      ensures hash == if outcome.Registered? then Some(digest(Encoded(pass.objects))) else None
    {
      if pass.CollectFails? {
        return None, Failed;
      }
      if pass.objects == [] {
        return None, Empty;
      }
      var h := HashObjects(digest, pass.objects);
      if Some(h) == lastHash {
        return None, Unchanged;
      }
      var ok := Register(pass.objects, pass.reply);
      if !ok {
        return None, Failed;
      }
      return Some(h), Registered;
    }

    /** One turn of `run_watch`: a failure or a skip keeps the prior fingerprint. */
    method Turn(pass: Pass) returns (outcome: Outcome)
      modifies this
      ensures outcome == OutcomeOf(digest, old(Now()), pass)
      ensures Now() == Step(digest, old(Now()), pass)
    {
      var hash: Option<D>;
      hash, outcome := SyncPass(pass);
      if hash.Some? {
        lastHash := hash;
      }
    }
  }

  function Run<D(==)>(digest: Bytes -> D, passes: seq<Pass>): State<D> {
    if passes == [] then State(None, None)
    else Step(digest, Run(digest, passes[..|passes| - 1]), passes[|passes| - 1])
  }

  /** The listing of the last pass that was registered, if any was. */
  function LastRegistered<D(==)>(digest: Bytes -> D, passes: seq<Pass>): Option<seq<Object>> {
    if passes == [] then None
    else
      var before, pass := passes[..|passes| - 1], passes[|passes| - 1];
      if OutcomeOf(digest, Run(digest, before), pass).Registered? then Some(pass.objects)
      else LastRegistered(digest, before)
  }

  /** Since then, some registration was stored without the watcher hearing of it. */
  predicate ReplyLost<D(==)>(digest: Bytes -> D, passes: seq<Pass>) {
    if passes == [] then false
    else
      var before, pass := passes[..|passes| - 1], passes[|passes| - 1];
      var outcome := OutcomeOf(digest, Run(digest, before), pass);
      if outcome.Registered? then false
      else ReplyLost(digest, before) || (outcome.Failed? && pass.Listing? && pass.reply.AckLost?)
  }

  ghost predicate SizedPass(pass: Pass) {
    pass.Listing? ==> Sized(pass.objects)
  }

  ghost predicate SizedRun(passes: seq<Pass>) {
    forall p :: p in passes ==> SizedPass(p)
  }

  /**
   * After any run the watcher remembers the fingerprint of the last registered
   * listing, and the catalog holds that listing unless a reply was lost since.
   */
  ghost predicate Remembers<D>(digest: Bytes -> D, s: State<D>, last: Option<seq<Object>>, lost: bool) {
    && (last.None? ==> s.lastHash == None)
    && (last.Some? ==> Sized(last.value) && last.value != [] && s.lastHash == Some(digest(Encoded(last.value))))
    && (s.catalog == last <==> !lost)
  }

  lemma StepRemembers<D(!new)>(digest: Bytes -> D, s: State<D>, pass: Pass, last: Option<seq<Object>>, lost: bool)
    requires CollisionFree(digest) && SizedPass(pass) && Remembers(digest, s, last, lost)
    ensures var outcome := OutcomeOf(digest, s, pass);
      Remembers(digest, Step(digest, s, pass),
                if outcome.Registered? then Some(pass.objects) else last,
                !outcome.Registered?
                && (lost || (outcome.Failed? && pass.Listing? && pass.reply.AckLost?)))
  {
    hide Encoded, Sized;
  }

  lemma {:induction false} WatcherRemembers<D(!new)>(digest: Bytes -> D, passes: seq<Pass>)
    requires CollisionFree(digest) && SizedRun(passes)
    ensures Remembers(digest, Run(digest, passes), LastRegistered(digest, passes), ReplyLost(digest, passes))
  {
    hide Remembers, Step, OutcomeOf, CollisionFree, SizedPass;
    if passes == [] {
      RemembersNothing(digest);
    } else {
      var before, pass := passes[..|passes| - 1], passes[|passes| - 1];
      assert pass in passes;
      WatcherRemembers(digest, before);
      StepRemembers(digest, Run(digest, before), pass, LastRegistered(digest, before), ReplyLost(digest, before));
    }
  }

  lemma RemembersNothing<D>(digest: Bytes -> D)
    ensures Remembers(digest, State(None, None), None, false)
  {
  }

  /** In every run a listing is skipped exactly when it is the one last registered. */
  lemma SkippedExactlyWhenRegistered<D(!new)>(digest: Bytes -> D, passes: seq<Pass>, pass: Pass)
    requires CollisionFree(digest) && SizedRun(passes) && SizedPass(pass) && pass.Listing?
    ensures OutcomeOf(digest, Run(digest, passes), pass) == Unchanged
       <==> pass.objects != [] && LastRegistered(digest, passes) == Some(pass.objects)
  {
    hide Encoded, Run, LastRegistered, ReplyLost;
    WatcherRemembers(digest, passes);
    var last := LastRegistered(digest, passes);
    if last.Some? && Encoded(pass.objects) == Encoded(last.value) {
      EncodingIsInjective(pass.objects, last.value);
    }
  }

  /** After a skip the catalog holds the listing exactly when no reply was lost since it was registered. */
  lemma SkippedCatalogIsCurrent<D(!new)>(digest: Bytes -> D, passes: seq<Pass>, pass: Pass)
    requires CollisionFree(digest) && SizedRun(passes) && SizedPass(pass) && pass.Listing?
    requires OutcomeOf(digest, Run(digest, passes), pass) == Unchanged
    ensures Run(digest, passes + [pass]).catalog == Some(pass.objects) <==> !ReplyLost(digest, passes)
  {
    hide Encoded, LastRegistered, ReplyLost, OutcomeOf;
    WatcherRemembers(digest, passes);
    SkippedExactlyWhenRegistered(digest, passes, pass);
    assert (passes + [pass])[..|passes|] == passes;
  }

  /** After a registration the catalog holds the listing, whatever happened before. */
  lemma RegisteredCatalogIsCurrent<D(!new)>(digest: Bytes -> D, passes: seq<Pass>, pass: Pass)
    requires OutcomeOf(digest, Run(digest, passes), pass) == Registered
    ensures Run(digest, passes + [pass]).catalog == Some(pass.objects)
    ensures !ReplyLost(digest, passes + [pass])
    ensures LastRegistered(digest, passes + [pass]) == Some(pass.objects)
  {
    assert (passes + [pass])[..|passes|] == passes;
  }

  /** A, then B stored with its reply lost, then A again: the last pass is skipped over a catalog that holds B. */
  lemma LostReplyGoesUnseen<D(!new)>(digest: Bytes -> D, a: seq<Object>, b: seq<Object>)
    requires CollisionFree(digest) && Sized(a) && Sized(b) && a != [] && b != [] && a != b
    ensures var run := [Listing(a, Acked), Listing(b, AckLost)];
      && OutcomeOf(digest, Run(digest, run), Listing(a, Acked)) == Unchanged
      && Run(digest, run).catalog == Some(b)
  {
    hide Encoded;
    var one := [Listing(a, Acked)];
    var run := [Listing(a, Acked), Listing(b, AckLost)];
    assert one[..0] == [] && run[..1] == one;
    assert Run(digest, []) == State(None, None);
    assert Run(digest, one) == State(Some(digest(Encoded(a))), Some(a));
    if Encoded(a) == Encoded(b) {
      EncodingIsInjective(a, b);
    }
  }
}
