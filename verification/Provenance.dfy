/**
 * The provenance of a document: who produced it, who verified it, and what
 * became of each verification, kept in its frontmatter and changed in place.
 */
module Provenance {
  import opened Text

  /** A frontmatter key: the ones provenance uses, and any other. */
  datatype Key =
    | Verified | SupersededVerifications | Generated | Author | Status | Reviews
    | By | At | Note | EventText | SupersededBy | SupersededAt | Reason | Outcome
    | Other(name: string)
  {
    /** A key has one spelling: no other key is written like one of those above. */
    predicate Proper() {
      Other? ==> name !in NAMED_KEYS
    }
  }

  const NAMED_KEYS: set<string> := {
    "verified", "superseded_verifications", "generated", "author", "status", "reviews", "by", "at", "note", "event",
    "superseded_by", "superseded_at", "reason", "outcome"
  }

  /** A YAML value. Nested mappings compare without regard to key order, so they are maps. */
  datatype Value =
    | Null
    | Str(text: string)
    | Scalar(tag: int)
    | List(items: seq<Value>)
    | Mapping(entries: map<Key, Value>)
  {
    /** `get(key)`: nothing but a mapping has fields. */
    function Field(key: Key): Option<Value> {
      if Mapping? && key in entries then Some(entries[key]) else None
    }

    function Text(): Option<string> {
      if Str? then Some(text) else None
    }

    /** A value a YAML text can be. */
    ghost predicate Proper() {
      match this
      case List(items) => forall i :: 0 <= i < |items| ==> items[i].Proper()
      case Mapping(entries) => forall k :: k in entries ==> k.Proper() && entries[k].Proper()
      case _ => true
    }
  }

  /** The frontmatter: a mapping that keeps its keys in order. */
  datatype Frontmatter = Frontmatter(order: seq<Key>, at: map<Key, Value>)
  {
    ghost predicate Valid() {
      && (forall k :: k in order <==> k in at)
      && Distinct(order)
    }

    /** A frontmatter a YAML text can be. */
    ghost predicate Proper() {
      Valid() && forall k :: k in at ==> k.Proper() && at[k].Proper()
    }

    function Get(key: Key): Option<Value> {
      if key in at then Some(at[key]) else None
    }

    /** The list under a key; anything that is not a list counts as none. */
    function Items(key: Key): seq<Value> {
      if key in at && at[key].List? then at[key].items else []
    }

    /** `insert`: in place when the key is there, at the end when it is new. */
    function Set(key: Key, value: Value): Frontmatter {
      Frontmatter(if key in at then order else order + [key], at[key := value])
    }

    /** `shift_remove`: the other keys keep their order. */
    function Remove(key: Key): Frontmatter {
      Frontmatter(Dropping(order, key), at - {key})
    }
  }

  function Dropping(order: seq<Key>, key: Key): seq<Key> {
    if order == [] then []
    else (if order[0] == key then [] else [order[0]]) + Dropping(order[1..], key)
  }

  predicate IsHuman(actor: string) {
    "human:" <= actor
  }

  function Trimmed(note: Option<string>): Option<string> {
    if note.Some? && Trim(note.value) != "" then Some(Trim(note.value)) else None
  }

  function NoteField(note: Option<string>): map<Key, Value> {
    match Trimmed(note) case Some(n) => map[Note := Str(n)] case None => map[]
  }

  /** An OKF provenance event. */
  function Event(actor: string, at: string, note: Option<string>): Value {
    Mapping(map[By := Str(actor), At := Str(at)] + NoteField(note))
  }

  /** How a verification reads once it is set aside. */
  function SetAside(item: Value, actor: string, at: string, reason: string): Value {
    var base := if item.Mapping? then item.entries else map[EventText := Str(if item.Str? then item.text else "")];
    Mapping(base[SupersededBy := Str(actor)][SupersededAt := Str(at)][Reason := Str(reason)])
  }

  // ----- What each operation makes of the frontmatter -----

  function AfterStamp(f: Frontmatter, actor: string, at: string): Frontmatter {
    var f1 := if Generated in f.at then f else f.Set(Generated, Event(actor, at, None));
    if Author in f1.at then f1 else f1.Set(Author, Str(actor))
  }

  function AfterVerification(f: Frontmatter, actor: string, at: string, note: Option<string>): Frontmatter {
    var f1 := f.Set(Verified, List(f.Items(Verified) + [Event(actor, at, note)]));
    var status := f1.Get(Status);
    if status.None? || status.value.Text().None? || status.value.Text() == Some("draft")
    then f1.Set(Status, Str("active")) else f1
  }

  function AfterSendBack(f: Frontmatter, actor: string, at: string, note: Option<string>): Frontmatter {
    var f1 := f.Set(Status, Str("draft"));
    var review := Mapping(map[By := Str(actor), At := Str(at), Outcome := Str("sent-back")] + NoteField(note));
    f1.Set(Reviews, List(f1.Items(Reviews) + [review]))
  }

  /** Every claimed verification, in whatever shape it was written. */
  function Claimed(f: Frontmatter): seq<Value> {
    match f.Get(Verified)
    case None => []
    case Some(Null) => []
    case Some(List(events)) => events
    case Some(one) => [one]
  }

  function AllSetAside(events: seq<Value>, actor: string, at: string, reason: string): (r: seq<Value>)
    ensures |r| == |events|
    ensures forall i :: 0 <= i < |events| ==> r[i] == SetAside(events[i], actor, at, reason)
  {
    seq(|events|, i requires 0 <= i < |events| => SetAside(events[i], actor, at, reason))
  }

  function AfterQuarantine(f: Frontmatter, actor: string, at: string, reason: string): Frontmatter {
    var f1 := f.Remove(Verified);
    f1.Set(SupersededVerifications,
           List(f1.Items(SupersededVerifications) + AllSetAside(Claimed(f), actor, at, reason)))
  }

  /** Add the events that are not there yet. */
  function Merge(mine: seq<Value>, previous: seq<Value>): (all: seq<Value>)
    ensures forall e :: e in mine || e in previous <==> e in all
    decreases |previous|
  {
    if previous == [] then mine
    else
      assert previous == [previous[0]] + previous[1..];
      Merge(if previous[0] in mine then mine else mine + [previous[0]], previous[1..])
  }

  function InheritKey(f: Frontmatter, stored: Frontmatter, key: Key): Frontmatter {
    if key in stored.at && stored.at[key].List? then f.Set(key, List(Merge(f.Items(key), stored.at[key].items)))
    else f
  }

  function AfterInherit(f: Frontmatter, stored: Frontmatter): Frontmatter {
    InheritKey(InheritKey(f, stored, Verified), stored, SupersededVerifications)
  }

  /** The actor a field names, as itself or as an event's `by`. */
  function ActorOf(f: Frontmatter, key: Key): Option<string> {
    match f.Get(key)
    case None => None
    case Some(Str(actor)) => Some(Trim(actor))
    case Some(other) =>
      var field := other.Field(By);
      if field.Some? && field.value.Str? then Some(Trim(field.value.text)) else None
  }

  /** The field puts a person's name to what `actor`, who is not that person, contributes. */
  predicate Misattributes(f: Frontmatter, key: Key, actor: string) {
    var claimed := ActorOf(f, key);
    claimed.Some? && IsHuman(claimed.value) && claimed.value != actor && !IsHuman(actor)
  }

  predicate MayContribute(f: Frontmatter, actor: string) {
    !Misattributes(f, Generated, actor) && !Misattributes(f, Author, actor)
  }

  function AfterNew(f: Frontmatter, actor: string, at: string): Frontmatter {
    AfterQuarantine(AfterStamp(f, actor, at), actor, at, "uploaded")
  }

  function AfterEdit(f: Frontmatter, actor: string, at: string, stored: Option<Frontmatter>): Frontmatter {
    var f1 := if stored.Some? then AfterInherit(f, stored.value) else f;
    AfterQuarantine(f1, actor, at, "edited").Set(Generated, Event(actor, at, None))
  }

  function ByOf(event: Value): Option<string> {
    var field := event.Field(By);
    if field.Some? then field.value.Text() else None
  }

  /** Whether a human actor has verified the document. */
  predicate HasHumanVerification(f: Frontmatter) {
    exists e :: e in f.Items(Verified) && ByOf(e).Some? && IsHuman(ByOf(e).value)
  }

  // ----- The document, changed in place -----

  class Document {
    var front: Frontmatter
    var body: string

    constructor (front: Frontmatter, body: string)
      ensures this.front == front && this.body == body
    {
      this.front := front;
      this.body := body;
    }

    method StampOrigin(actor: string, at: string) returns (changed: bool)
      modifies this
      ensures front == AfterStamp(old(front), actor, at) && body == old(body)
      ensures changed <==> Generated !in old(front).at || Author !in old(front).at
    {
      changed := false;
      if Generated !in front.at {
        front := front.Set(Generated, Event(actor, at, None));
        changed := true;
      }
      if Author !in front.at {
        front := front.Set(Author, Str(actor));
        changed := true;
      }
    }

    method RecordVerification(actor: string, at: string, note: Option<string>)
      modifies this
      ensures front == AfterVerification(old(front), actor, at, note) && body == old(body)
    {
      front := front.Set(Verified, List(front.Items(Verified) + [Event(actor, at, note)]));
      var status := front.Get(Status);
      if status.None? || status.value.Text().None? || status.value.Text() == Some("draft") {
        front := front.Set(Status, Str("active"));
      }
    }

    method SendBack(actor: string, at: string, note: Option<string>)
      modifies this
      ensures front == AfterSendBack(old(front), actor, at, note) && body == old(body)
    {
      hide Trim;
      front := front.Set(Status, Str("draft"));
      var review := map[By := Str(actor), At := Str(at), Outcome := Str("sent-back")];
      if Trimmed(note).Some? {
        review := review[Note := Str(Trimmed(note).value)];
      }
      assert review == map[By := Str(actor), At := Str(at), Outcome := Str("sent-back")] + NoteField(note);
      front := front.Set(Reviews, List(front.Items(Reviews) + [Mapping(review)]));
    }

    method QuarantineVerifications(actor: string, at: string, reason: string) returns (count: nat)
      modifies this
      ensures front == AfterQuarantine(old(front), actor, at, reason) && body == old(body)
      ensures count == |Claimed(old(front))|
    {
      var previous := Claimed(front);
      front := front.Remove(Verified);
      var superseded := front.Items(SupersededVerifications);
      ghost var before := superseded;
      for n := 0 to |previous|
        invariant superseded == before + AllSetAside(previous[..n], actor, at, reason)
        invariant front == old(front).Remove(Verified) && body == old(body)
      {
        var entry := if previous[n].Mapping? then previous[n].entries
                     else map[EventText := Str(if previous[n].Str? then previous[n].text else "")];
        entry := entry[SupersededBy := Str(actor)];
        entry := entry[SupersededAt := Str(at)];
        entry := entry[Reason := Str(reason)];
        superseded := superseded + [Mapping(entry)];
        assert AllSetAside(previous[..n + 1], actor, at, reason)
            == AllSetAside(previous[..n], actor, at, reason) + [Mapping(entry)];
      }
      assert previous[..|previous|] == previous;
      front := front.Set(SupersededVerifications, List(superseded));
      count := |previous|;
    }

    method InheritVerifications(stored: Frontmatter)
      modifies this
      ensures front == AfterInherit(old(front), stored) && body == old(body)
    {
      Inherit(stored, Verified);
      Inherit(stored, SupersededVerifications);
    }

    method Inherit(stored: Frontmatter, key: Key)
      modifies this
      ensures front == InheritKey(old(front), stored, key) && body == old(body)
    {
      if key !in stored.at || !stored.at[key].List? {
        return;
      }
      var previous := stored.at[key].items;
      var mine := front.Items(key);
      for n := 0 to |previous|
        invariant Merge(mine, previous[n..]) == Merge(old(front).Items(key), previous)
        invariant front == old(front) && body == old(body)
      {
        assert previous[n..] == [previous[n]] + previous[n + 1..];
        if previous[n] !in mine {
          mine := mine + [previous[n]];
        }
      }
      front := front.Set(key, List(mine));
    }

    /** Take a document new to the catalog, refusing one that borrows a person's name. */
    method ContributeNew(actor: string, at: string) returns (setAside: Option<nat>)
      modifies this
      ensures body == old(body)
      ensures setAside.Some? <==> MayContribute(old(front), actor)
      ensures setAside.Some? ==> front == AfterNew(old(front), actor, at)
                                 && setAside.value == |Claimed(old(front))|
      ensures setAside.None? ==> front == old(front)
    {
      if Misattributes(front, Generated, actor) || Misattributes(front, Author, actor) {
        return None;
      }
      StampKeepsClaims(front, actor, at);
      var changed := StampOrigin(actor, at);
      var count := QuarantineVerifications(actor, at, "uploaded");
      return Some(count);
    }

    /** Take a document replacing a stored one. */
    method ContributeEdit(actor: string, at: string, stored: Option<Frontmatter>) returns (setAside: nat)
      modifies this
      ensures front == AfterEdit(old(front), actor, at, stored) && body == old(body)
      ensures setAside == |Claimed(if stored.Some? then AfterInherit(old(front), stored.value) else old(front))|
    {
      if stored.Some? {
        InheritVerifications(stored.value);
      }
      setAside := QuarantineVerifications(actor, at, "edited");
      front := front.Set(Generated, Event(actor, at, None));
    }
  }

  lemma StampKeepsClaims(f: Frontmatter, actor: string, at: string)
    ensures Claimed(AfterStamp(f, actor, at)) == Claimed(f)
  {
  }

  // ----- The life of a document -----

  /** What happens to a stored document after it is first contributed. */
  datatype Op =
    | Edit(typed: Frontmatter, actor: string, at: string)
    | Verify(actor: string, at: string, note: Option<string>)
    | SendBack(actor: string, at: string, note: Option<string>)

  function Next(f: Frontmatter, op: Op): Frontmatter {
    match op
    case Edit(typed, actor, at) => AfterEdit(typed, actor, at, Some(f))
    case Verify(actor, at, note) => AfterVerification(f, actor, at, note)
    case SendBack(actor, at, note) => AfterSendBack(f, actor, at, note)
  }

  function After(f: Frontmatter, ops: seq<Op>): Frontmatter {
    if ops == [] then f else Next(After(f, ops[..|ops| - 1]), ops[|ops| - 1])
  }

  /** The verifications granted since the last contribution. */
  function GrantedSince(ops: seq<Op>): seq<Value> {
    if ops == [] then []
    else
      var before := GrantedSince(ops[..|ops| - 1]);
      match ops[|ops| - 1]
      case Edit(_, _, _) => []
      case Verify(actor, at, note) => before + [Event(actor, at, note)]
      case SendBack(_, _, _) => before
  }

  lemma QuarantineUnverifies(f: Frontmatter, actor: string, at: string, reason: string)
    ensures Verified !in AfterQuarantine(f, actor, at, reason).at
    ensures AfterQuarantine(f, actor, at, reason).Get(SupersededVerifications).Some?
    ensures AfterQuarantine(f, actor, at, reason).at[SupersededVerifications].List?
  {
  }

  /** A review touches no verification but the one it records. */
  lemma ReviewsTouchNothingElse(f: Frontmatter, actor: string, at: string, note: Option<string>)
    ensures AfterVerification(f, actor, at, note).Items(Verified) == f.Items(Verified) + [Event(actor, at, note)]
    ensures AfterVerification(f, actor, at, note).Get(SupersededVerifications) == f.Get(SupersededVerifications)
    ensures AfterSendBack(f, actor, at, note).Get(Verified) == f.Get(Verified)
    ensures AfterSendBack(f, actor, at, note).Get(SupersededVerifications) == f.Get(SupersededVerifications)
  {
    hide Event, NoteField;
  }

  /** An edit leaves nothing verified, and a list of what it set aside. */
  lemma EditUnverifies(f: Frontmatter, actor: string, at: string, stored: Option<Frontmatter>)
    ensures Verified !in AfterEdit(f, actor, at, stored).at
    ensures SupersededVerifications in AfterEdit(f, actor, at, stored).at
    ensures AfterEdit(f, actor, at, stored).at[SupersededVerifications].List?
  {
    QuarantineUnverifies(if stored.Some? then AfterInherit(f, stored.value) else f, actor, at, "edited");
    hide AfterQuarantine, AfterInherit, Event;
  }

  /** The live verifications are exactly those granted since the last contribution. */
  lemma {:induction false} VerifiedIsWhatWasGranted(first: Frontmatter, actor: string, at: string, ops: seq<Op>)
    ensures After(AfterNew(first, actor, at), ops).Items(Verified) == GrantedSince(ops)
    ensures SupersededVerifications in After(AfterNew(first, actor, at), ops).at
    ensures After(AfterNew(first, actor, at), ops).at[SupersededVerifications].List?
  {
    hide AfterVerification, AfterSendBack, AfterEdit, AfterQuarantine, AfterStamp, Event;
    if ops == [] {
      QuarantineUnverifies(AfterStamp(first, actor, at), actor, at, "uploaded");
    } else {
      VerifiedIsWhatWasGranted(first, actor, at, ops[..|ops| - 1]);
      var f := After(AfterNew(first, actor, at), ops[..|ops| - 1]);
      match ops[|ops| - 1]
      case Edit(typed, editor, when) => EditUnverifies(typed, editor, when, Some(f));
      case Verify(reviewer, when, note) => ReviewsTouchNothingElse(f, reviewer, when, note);
      case SendBack(reviewer, when, note) => ReviewsTouchNothingElse(f, reviewer, when, note);
    }
  }

  /** A human verification that no contribution came after. */
  ghost predicate HumanVerifiedLast(ops: seq<Op>, i: nat) {
    && i < |ops| && ops[i].Verify? && IsHuman(ops[i].actor)
    && forall j :: i < j < |ops| ==> !ops[j].Edit?
  }

  lemma {:induction false} GrantedByHuman(ops: seq<Op>)
    ensures (exists e :: e in GrantedSince(ops) && ByOf(e).Some? && IsHuman(ByOf(e).value))
        <==> exists i :: HumanVerifiedLast(ops, i)
  {
    if ops != [] {
      var init, last := ops[..|ops| - 1], ops[|ops| - 1];
      GrantedByHuman(init);
      assert forall i :: 0 <= i < |init| ==> init[i] == ops[i];
      if last.Edit? {
        assert forall i :: 0 <= i < |init| ==> !HumanVerifiedLast(ops, i);
      } else {
        forall i | 0 <= i < |init| ensures HumanVerifiedLast(ops, i) <==> HumanVerifiedLast(init, i) {
        }
        if last.Verify? {
          assert ByOf(Event(last.actor, last.at, last.note)) == Some(last.actor);
          assert HumanVerifiedLast(ops, |init|) <==> IsHuman(last.actor);
          GrantedStep(init, Event(last.actor, last.at, last.note));
        } else {
          assert !HumanVerifiedLast(ops, |init|);
        }
      }
    }
  }

  lemma GrantedStep(init: seq<Op>, event: Value)
    ensures (exists e :: e in GrantedSince(init) + [event] && ByOf(e).Some? && IsHuman(ByOf(e).value))
        <==> || (exists e :: e in GrantedSince(init) && ByOf(e).Some? && IsHuman(ByOf(e).value))
             || (ByOf(event).Some? && IsHuman(ByOf(event).value))
  {
    assert event in GrantedSince(init) + [event];
  }

  /**
   * A verification is something an approver grants: along every life of a
   * document it counts as human-verified exactly when a human verification was
   * recorded after the last contribution, whatever the contributors typed.
   */
  lemma HumanVerifiedExactlyWhenGranted(first: Frontmatter, actor: string, at: string, ops: seq<Op>)
    ensures HasHumanVerification(After(AfterNew(first, actor, at), ops))
        <==> exists i :: HumanVerifiedLast(ops, i)
  {
    VerifiedIsWhatWasGranted(first, actor, at, ops);
    GrantedByHuman(ops);
  }

  // ----- Nothing granted is lost -----

  /** A set-aside entry that still says who verified, when, and with what note. */
  predicate Intact(event: Value, entry: Value) {
    && entry.Mapping?
    && entry.Field(By) == event.Field(By) && entry.Field(At) == event.Field(At)
    && entry.Field(Note) == event.Field(Note)
  }

  /** The event is live, or set aside with its particulars intact. */
  ghost predicate Recorded(f: Frontmatter, event: Value) {
    event in f.Items(Verified) || exists x :: x in f.Items(SupersededVerifications) && Intact(event, x)
  }

  lemma SettingAsideKeeps(event: Value, actor: string, at: string, reason: string)
    requires event.Mapping?
    ensures Intact(event, SetAside(event, actor, at, reason))
  {
  }

  /** What an edit carries over: the trail, and every live verification, set aside by the editor. */
  lemma EditCarriesOver(stored: Frontmatter, typed: Frontmatter, actor: string, at: string)
    ensures forall x :: x in stored.Items(SupersededVerifications) ==>
              x in AfterEdit(typed, actor, at, Some(stored)).Items(SupersededVerifications)
    ensures forall e :: e in stored.Items(Verified) ==>
              SetAside(e, actor, at, "edited") in AfterEdit(typed, actor, at, Some(stored)).Items(SupersededVerifications)
    ensures AfterEdit(typed, actor, at, Some(stored)).Items(Verified) == []
    ensures AfterEdit(typed, actor, at, Some(stored)).Get(Generated) == Some(Event(actor, at, None))
  {
    var f1 := InheritKey(typed, stored, Verified);
    var f2 := AfterInherit(typed, stored);
    var aside := AllSetAside(Claimed(f2), actor, at, "edited");
    assert f2.Get(Verified) == f1.Get(Verified);
    var result := AfterEdit(typed, actor, at, Some(stored));
    assert result.Items(SupersededVerifications) == f2.Items(SupersededVerifications) + aside;
    assert forall x :: x in stored.Items(SupersededVerifications) ==> x in f2.Items(SupersededVerifications);
    forall e | e in stored.Items(Verified) ensures SetAside(e, actor, at, "edited") in aside {
      assert e in Claimed(f2);
      var i :| 0 <= i < |Claimed(f2)| && Claimed(f2)[i] == e;
      assert aside[i] == SetAside(e, actor, at, "edited");
    }
  }

  /** Every claim typed into a new document is set aside. */
  lemma NewSetsEveryClaimAside(typed: Frontmatter, actor: string, at: string, claim: Value)
    requires claim in Claimed(typed)
    ensures SetAside(claim, actor, at, "uploaded") in AfterNew(typed, actor, at).Items(SupersededVerifications)
  {
    hide SetAside, Event;
    StampKeepsClaims(typed, actor, at);
    SetAsideAmong(Claimed(typed), actor, at, "uploaded", SetAside(claim, actor, at, "uploaded"));
  }

  lemma SetAsideAmong(claims: seq<Value>, actor: string, at: string, reason: string, entry: Value)
    ensures entry in AllSetAside(claims, actor, at, reason)
       <==> exists c :: c in claims && SetAside(c, actor, at, reason) == entry
  {
    hide SetAside;
    var aside := AllSetAside(claims, actor, at, reason);
    if c :| c in claims && SetAside(c, actor, at, reason) == entry {
      var i :| 0 <= i < |claims| && claims[i] == c;
      assert aside[i] == entry;
    }
    if entry in aside {
      var i :| 0 <= i < |aside| && aside[i] == entry;
      assert claims[i] in claims;
    }
  }

  /** The trail an edit leaves: what was on either trail, and what the editor set aside. */
  lemma TrailAfterEdit(stored: Frontmatter, typed: Frontmatter, actor: string, at: string, entry: Value)
    ensures entry in AfterEdit(typed, actor, at, Some(stored)).Items(SupersededVerifications)
       <==> || entry in typed.Items(SupersededVerifications) || entry in stored.Items(SupersededVerifications)
            || exists c :: c in Claimed(InheritKey(typed, stored, Verified)) && SetAside(c, actor, at, "edited") == entry
  {
    hide SetAside, Event;
    var f1 := InheritKey(typed, stored, Verified);
    var f2 := AfterInherit(typed, stored);
    assert Claimed(f2) == Claimed(f1);
    assert entry in f2.Items(SupersededVerifications)
      <==> entry in typed.Items(SupersededVerifications) || entry in stored.Items(SupersededVerifications);
    SetAsideAmong(Claimed(f2), actor, at, "edited", entry);
    assert AfterEdit(typed, actor, at, Some(stored)).Items(SupersededVerifications)
        == f2.Items(SupersededVerifications) + AllSetAside(Claimed(f2), actor, at, "edited");
  }

  /**
   * A claim typed into an edit is set aside exactly when the typed field is a
   * list or the stored one is not; or else when the trail has its set-aside
   * form anyway, from either version or from a stored event.
   */
  lemma TypedClaimIsKeptExactly(stored: Frontmatter, typed: Frontmatter, actor: string, at: string, claim: Value)
    requires claim in Claimed(typed)
    ensures var aside := SetAside(claim, actor, at, "edited");
      aside in AfterEdit(typed, actor, at, Some(stored)).Items(SupersededVerifications)
      <==> || typed.at[Verified].List?
           || !(Verified in stored.at && stored.at[Verified].List?)
           || aside in typed.Items(SupersededVerifications) || aside in stored.Items(SupersededVerifications)
           || exists c :: c in stored.Items(Verified) && SetAside(c, actor, at, "edited") == aside
  {
    hide SetAside, Event, AfterEdit;
    var aside := SetAside(claim, actor, at, "edited");
    TrailAfterEdit(stored, typed, actor, at, aside);
    var merged := InheritKey(typed, stored, Verified);
    if typed.at[Verified].List? || !(Verified in stored.at && stored.at[Verified].List?) {
      assert claim in Claimed(merged);
    } else {
      assert Claimed(merged) == Merge([], stored.Items(Verified));
    }
  }

  /** A single event typed over a stored list vanishes: it is neither live nor on the trail. */
  lemma TypedEventVanishes(event: Value, actor: string, at: string)
    requires event.Mapping?
    ensures var typed := Frontmatter([Verified], map[Verified := event]);
      var stored := Frontmatter([Verified], map[Verified := List([])]);
      && event in Claimed(typed)
      && AfterEdit(typed, actor, at, Some(stored)).Items(Verified) == []
      && AfterEdit(typed, actor, at, Some(stored)).Items(SupersededVerifications) == []
  {
    hide Event;
    var typed := Frontmatter([Verified], map[Verified := event]);
    var stored := Frontmatter([Verified], map[Verified := List([])]);
    EditCarriesOver(stored, typed, actor, at);
    assert Claimed(AfterInherit(typed, stored)) == [];
    assert AfterInherit(typed, stored).Items(SupersededVerifications) == [];
  }

  lemma StepKeepsRecord(f: Frontmatter, op: Op, event: Value)
    requires event.Mapping? && Recorded(f, event)
    ensures Recorded(Next(f, op), event)
  {
    hide AfterVerification, AfterSendBack, AfterEdit, SetAside, Event, Intact;
    match op
    case Edit(typed, actor, at) =>
      EditCarriesOver(f, typed, actor, at);
      SettingAsideKeeps(event, actor, at, "edited");
    case Verify(actor, at, note) => ReviewsTouchNothingElse(f, actor, at, note);
    case SendBack(actor, at, note) => ReviewsTouchNothingElse(f, actor, at, note);
  }

  /** No entry of the trail is ever lost. */
  lemma StepKeepsTrail(f: Frontmatter, op: Op, entry: Value)
    requires entry in f.Items(SupersededVerifications)
    ensures entry in Next(f, op).Items(SupersededVerifications)
  {
    hide AfterVerification, AfterSendBack, AfterEdit, SetAside, Event;
    match op
    case Edit(typed, actor, at) => EditCarriesOver(f, typed, actor, at);
    case Verify(actor, at, note) => ReviewsTouchNothingElse(f, actor, at, note);
    case SendBack(actor, at, note) => ReviewsTouchNothingElse(f, actor, at, note);
  }

  /**
   * Conservation: every verification ever granted is still in the document,
   * live or set aside with its by, at and note intact.
   */
  lemma {:induction false} GrantedEventsAreNeverLost(f: Frontmatter, ops: seq<Op>, i: nat)
    requires i < |ops| && ops[i].Verify?
    ensures Recorded(After(f, ops), Event(ops[i].actor, ops[i].at, ops[i].note))
    decreases |ops|
  {
    var init, last := ops[..|ops| - 1], ops[|ops| - 1];
    var event := Event(ops[i].actor, ops[i].at, ops[i].note);
    hide AfterVerification, AfterSendBack, AfterEdit, NoteField, Intact;
    if i == |init| {
      ReviewsTouchNothingElse(After(f, init), last.actor, last.at, last.note);
      assert After(f, ops) == AfterVerification(After(f, init), last.actor, last.at, last.note);
    } else {
      GrantedEventsAreNeverLost(f, init, i);
      StepKeepsRecord(After(f, init), last, event);
      hide Recorded, Next;
    }
  }

  /** And so is every entry of the trail, from any point on. */
  lemma {:induction false} TrailIsNeverLost(f: Frontmatter, ops: seq<Op>, entry: Value)
    requires entry in f.Items(SupersededVerifications)
    ensures entry in After(f, ops).Items(SupersededVerifications)
  {
    if ops != [] {
      TrailIsNeverLost(f, ops[..|ops| - 1], entry);
      StepKeepsTrail(After(f, ops[..|ops| - 1]), ops[|ops| - 1], entry);
    }
  }

  /** A contribution whose stored version cannot be read is unverified all the same. */
  lemma UnreadableStoredVersion(typed: Frontmatter, actor: string, at: string)
    ensures !HasHumanVerification(AfterEdit(typed, actor, at, None))
    ensures forall e :: e in Claimed(typed) ==>
              SetAside(e, actor, at, "edited") in AfterEdit(typed, actor, at, None).Items(SupersededVerifications)
  {
    QuarantineUnverifies(typed, actor, at, "edited");
    var aside := AllSetAside(Claimed(typed), actor, at, "edited");
    forall e | e in Claimed(typed) ensures SetAside(e, actor, at, "edited") in aside {
      var i :| 0 <= i < |Claimed(typed)| && Claimed(typed)[i] == e;
      assert aside[i] == SetAside(e, actor, at, "edited");
    }
  }

  // ----- Key order -----

  ghost predicate Distinct(order: seq<Key>) {
    forall i, j :: 0 <= i < j < |order| ==> order[i] != order[j]
  }

  lemma {:induction false} DroppingMeans(order: seq<Key>, key: Key)
    ensures forall k :: k in Dropping(order, key) <==> k in order && k != key
    ensures Distinct(order) ==> Distinct(Dropping(order, key))
  {
    if order != [] {
      DroppingMeans(order[1..], key);
      assert order == [order[0]] + order[1..];
      var rest := Dropping(order[1..], key);
      assert Distinct(order) ==> Distinct(order[1..]);
      assert forall j :: 0 <= j < |rest| ==> rest[j] in rest;
      assert Distinct(order) ==> order[0] !in order[1..];
    }
  }

  /** Frontmatter stays a mapping with each key once, whatever is done to it. */
  lemma OperationsKeepItAMapping(f: Frontmatter, key: Key, value: Value)
    requires f.Valid()
    ensures f.Set(key, value).Valid() && f.Remove(key).Valid()
    ensures f.Remove(key).order == Dropping(f.order, key)
    ensures key in f.at ==> f.Set(key, value).order == f.order
  {
    DroppingMeans(f.order, key);
  }

  // ----- Frontmatter stays something YAML can write -----

  ghost predicate AllProper(values: seq<Value>) {
    forall v :: v in values ==> v.Proper()
  }

  const NOTHING := Frontmatter([], map[])

  lemma NothingIsProper()
    ensures NOTHING.Proper()
  {
  }

  /** An edit without a readable stored version is an edit of an empty one. */
  lemma UnreadableIsNothing(f: Frontmatter, actor: string, at: string)
    ensures AfterEdit(f, actor, at, None) == AfterEdit(f, actor, at, Some(NOTHING))
  {
  }

  lemma SetKeepsProper(f: Frontmatter, key: Key, value: Value)
    requires f.Proper() && key.Proper() && value.Proper()
    ensures f.Set(key, value).Proper()
  {
    hide Value.Proper, Key.Proper, Dropping;
    OperationsKeepItAMapping(f, key, value);
  }

  lemma RemoveKeepsProper(f: Frontmatter, key: Key)
    requires f.Proper()
    ensures f.Remove(key).Proper()
  {
    hide Value.Proper, Key.Proper, Dropping;
    OperationsKeepItAMapping(f, key, Null);
  }

  lemma ListIsProper(values: seq<Value>)
    requires AllProper(values)
    ensures List(values).Proper()
  {
  }

  lemma ItemsAreProper(f: Frontmatter, key: Key)
    requires f.Proper()
    ensures AllProper(f.Items(key)) && AllProper(Claimed(f))
  {
    hide Key.Proper;
  }

  lemma EventIsProper(actor: string, at: string, note: Option<string>)
    ensures Event(actor, at, note).Proper()
  {
    hide Trim;
  }

  lemma ReviewIsProper(actor: string, at: string, note: Option<string>)
    ensures Mapping(map[By := Str(actor), At := Str(at), Outcome := Str("sent-back")] + NoteField(note)).Proper()
  {
    hide Trim;
  }

  lemma SetAsideIsProper(item: Value, actor: string, at: string, reason: string)
    requires item.Proper()
    ensures SetAside(item, actor, at, reason).Proper()
  {
  }

  lemma AllSetAsideAreProper(items: seq<Value>, actor: string, at: string, reason: string)
    requires AllProper(items)
    ensures AllProper(AllSetAside(items, actor, at, reason))
  {
    hide Value.Proper, SetAside;
    var aside := AllSetAside(items, actor, at, reason);
    forall v | v in aside
      ensures v.Proper()
    {
      var i :| 0 <= i < |aside| && aside[i] == v;
      assert items[i] in items;
      SetAsideIsProper(items[i], actor, at, reason);
    }
  }

  lemma QuarantineKeepsProper(f: Frontmatter, actor: string, at: string, reason: string)
    requires f.Proper()
    ensures AfterQuarantine(f, actor, at, reason).Proper()
  {
    hide Value.Proper, Frontmatter.Proper, SetAside, Frontmatter.Set, Frontmatter.Remove, Claimed, Frontmatter.Items;
    var f1 := f.Remove(Verified);
    RemoveKeepsProper(f, Verified);
    ItemsAreProper(f, Verified);
    ItemsAreProper(f1, SupersededVerifications);
    AllSetAsideAreProper(Claimed(f), actor, at, reason);
    var trail := f1.Items(SupersededVerifications) + AllSetAside(Claimed(f), actor, at, reason);
    ListIsProper(trail);
    SetKeepsProper(f1, SupersededVerifications, List(trail));
  }

  lemma InheritKeepsProper(f: Frontmatter, stored: Frontmatter, key: Key)
    requires f.Proper() && stored.Proper() && key.Proper()
    ensures InheritKey(f, stored, key).Proper()
  {
    hide Value.Proper, Frontmatter.Proper, Key.Proper, Frontmatter.Set;
    if key in stored.at && stored.at[key].List? {
      ItemsAreProper(f, key);
      ItemsAreProper(stored, key);
      assert stored.at[key].items == stored.Items(key);
      var merged := Merge(f.Items(key), stored.at[key].items);
      ListIsProper(merged);
      SetKeepsProper(f, key, List(merged));
    }
  }

  lemma NewKeepsProper(f: Frontmatter, actor: string, at: string)
    requires f.Proper()
    ensures AfterNew(f, actor, at).Proper()
  {
    hide Value.Proper, Frontmatter.Proper, Frontmatter.Set, AfterQuarantine, Event;
    EventIsProper(actor, at, None);
    SetKeepsProper(f, Generated, Event(actor, at, None));
    var f1 := if Generated in f.at then f else f.Set(Generated, Event(actor, at, None));
    assert Str(actor).Proper() by { StrIsProper(actor); }
    SetKeepsProper(f1, Author, Str(actor));
    QuarantineKeepsProper(AfterStamp(f, actor, at), actor, at, "uploaded");
  }

  lemma StrIsProper(text: string)
    ensures Str(text).Proper()
  {
  }

  lemma EditKeepsProper(f: Frontmatter, actor: string, at: string, stored: Option<Frontmatter>)
    requires f.Proper() && (stored.Some? ==> stored.value.Proper())
    ensures AfterEdit(f, actor, at, stored).Proper()
  {
    hide Value.Proper, Frontmatter.Proper, Frontmatter.Set, AfterQuarantine, Event, InheritKey;
    if stored.Some? {
      InheritKeepsProper(f, stored.value, Verified);
      InheritKeepsProper(InheritKey(f, stored.value, Verified), stored.value, SupersededVerifications);
    }
    var f1 := if stored.Some? then AfterInherit(f, stored.value) else f;
    QuarantineKeepsProper(f1, actor, at, "edited");
    EventIsProper(actor, at, None);
    SetKeepsProper(AfterQuarantine(f1, actor, at, "edited"), Generated, Event(actor, at, None));
  }

  lemma ReviewKeepsProper(f: Frontmatter, actor: string, at: string, note: Option<string>)
    requires f.Proper()
    ensures AfterVerification(f, actor, at, note).Proper() && AfterSendBack(f, actor, at, note).Proper()
  {
    hide Value.Proper, Frontmatter.Proper, Frontmatter.Set, Event, Frontmatter.Items, NoteField;
    EventIsProper(actor, at, note);
    ReviewIsProper(actor, at, note);
    ItemsAreProper(f, Verified);
    var live := f.Items(Verified) + [Event(actor, at, note)];
    ListIsProper(live);
    SetKeepsProper(f, Verified, List(live));
    StrIsProper("active");
    StrIsProper("draft");
    SetKeepsProper(f.Set(Verified, List(live)), Status, Str("active"));
    SetKeepsProper(f, Status, Str("draft"));
    var drafted := f.Set(Status, Str("draft"));
    ItemsAreProper(drafted, Reviews);
    var review := Mapping(map[By := Str(actor), At := Str(at), Outcome := Str("sent-back")] + NoteField(note));
    var reviews := drafted.Items(Reviews) + [review];
    ListIsProper(reviews);
    SetKeepsProper(drafted, Reviews, List(reviews));
  }

  lemma StepKeepsProper(f: Frontmatter, op: Op)
    requires f.Proper() && (op.Edit? ==> op.typed.Proper())
    ensures Next(f, op).Proper()
  {
    hide Frontmatter.Proper, AfterEdit, AfterVerification, AfterSendBack;
    match op
    case Edit(typed, actor, at) => EditKeepsProper(typed, actor, at, Some(f));
    case Verify(actor, at, note) => ReviewKeepsProper(f, actor, at, note);
    case SendBack(actor, at, note) => ReviewKeepsProper(f, actor, at, note);
  }

  // ----- What an operation on an older version records -----

  /** The value names the same verifier, time and note as the event. */
  predicate Matches(event: Value, value: Value) {
    && value.Field(By) == event.Field(By) && value.Field(At) == event.Field(At)
    && value.Field(Note) == event.Field(Note)
  }

  lemma AsideMatches(event: Value, value: Value, actor: string, at: string, reason: string)
    ensures Intact(event, SetAside(value, actor, at, reason)) <==> Matches(event, value)
  {
  }

  /** The event, or one with its particulars, is among what an edit typed over a version has to set aside or to keep. */
  ghost predicate Mentioned(stored: Frontmatter, typed: Frontmatter, event: Value) {
    || (exists c :: c in Claimed(InheritKey(typed, stored, Verified)) && Matches(event, c))
    || (exists x :: x in typed.Items(SupersededVerifications) && Intact(event, x))
    || (exists x :: x in stored.Items(SupersededVerifications) && Intact(event, x))
  }

  /** An edit records an event exactly when the version it was made from, or what was typed, mentions it. */
  lemma EditRecordsExactly(stored: Frontmatter, typed: Frontmatter, actor: string, at: string, event: Value)
    ensures Recorded(AfterEdit(typed, actor, at, Some(stored)), event) <==> Mentioned(stored, typed, event)
  {
    hide AfterEdit, SetAside, Event, Intact, Matches, Claimed, InheritKey;
    var after := AfterEdit(typed, actor, at, Some(stored));
    EditCarriesOver(stored, typed, actor, at);
    if x :| x in after.Items(SupersededVerifications) && Intact(event, x) {
      TrailAfterEdit(stored, typed, actor, at, x);
      if c :| c in Claimed(InheritKey(typed, stored, Verified)) && SetAside(c, actor, at, "edited") == x {
        AsideMatches(event, c, actor, at, "edited");
      }
    }
    if c :| c in Claimed(InheritKey(typed, stored, Verified)) && Matches(event, c) {
      AsideMatches(event, c, actor, at, "edited");
      TrailAfterEdit(stored, typed, actor, at, SetAside(c, actor, at, "edited"));
    }
    if x :| (x in typed.Items(SupersededVerifications) || x in stored.Items(SupersededVerifications)) && Intact(event, x) {
      TrailAfterEdit(stored, typed, actor, at, x);
    }
  }

  /** A review records what was recorded before it, and the event it grants, if it grants one. */
  lemma ReviewRecordsExactly(f: Frontmatter, actor: string, at: string, note: Option<string>, event: Value)
    ensures Recorded(AfterVerification(f, actor, at, note), event)
       <==> Recorded(f, event) || event == Event(actor, at, note)
    ensures Recorded(AfterSendBack(f, actor, at, note), event) <==> Recorded(f, event)
  {
    hide AfterVerification, AfterSendBack, Event, Intact;
    ReviewsTouchNothingElse(f, actor, at, note);
  }
}
