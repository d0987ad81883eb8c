/**
 * Comparing two generated install scripts: entities between markers, counted
 * as token lists, so that entity order does not matter and content does.
 */
module InstallScripts {
  import opened Text
  import opened SqlLexer

  const BEGIN := "/* <begin connected objects> */"
  const END := "/* </end connected objects> */"

  type Counter = multiset<seq<string>>

  // ----- Splitting at the markers -----

  datatype Part = Begin | End | Body(text: string)
  {
    function Text(): string {
      match this case Begin => BEGIN case End => END case Body(text) => text
    }
  }

  /** The marker `s` begins with. */
  function Mark(s: string): (m: Option<Part>)
    ensures m.Some? ==> !m.value.Body? && m.value.Text() <= s
  {
    if BEGIN <= s then Some(Begin) else if END <= s then Some(End) else None
  }

  /** Where the first marker begins, or the length. */
  function FirstMark(s: string): (i: nat)
    ensures i <= |s|
    ensures i < |s| ==> Mark(s[i..]).Some?
  {
    if s == [] || Mark(s).Some? then 0
    else
      var i := FirstMark(s[1..]);
      assert i < |s[1..]| ==> s[1..][i..] == s[i + 1..];
      i + 1
  }

  /** `re.split` with the markers captured. */
  function Parts(s: string): (parts: seq<Part>)
    decreases |s|
  {
    var i := FirstMark(s);
    if i == |s| then [Body(s)]
    else
      var m := Mark(s[i..]).value;
      [Body(s[..i]), m] + Parts(s[i + |m.Text()|..])
  }

  function Rejoined(parts: seq<Part>): string {
    if parts == [] then "" else parts[0].Text() + Rejoined(parts[1..])
  }

  /** The split loses no text. */
  lemma {:induction false} PartsRejoin(s: string)
    ensures Rejoined(Parts(s)) == s
    decreases |s|
  {
    hide Mark, FirstMark, Part.Text;
    var i := FirstMark(s);
    if i == |s| {
      RejoinOne(s);
    } else {
      var m := Mark(s[i..]).value;
      var rest := s[i + |m.Text()|..];
      MarkersOpenOnce(m);
      PartsRejoin(rest);
      RejoinTwo(Body(s[..i]), m, Parts(rest));
      BodyText(s[..i]);
      CutAt(s, i, m.Text());
    }
  }

  lemma CutAt(s: string, i: nat, middle: string)
    requires i <= |s| && middle <= s[i..]
    ensures i + |middle| <= |s|
    ensures s == s[..i] + (middle + s[i + |middle|..])
  {
    assert s[i..][..|middle|] == middle;
    assert s[i..] == middle + s[i + |middle|..];
  }

  lemma BodyText(s: string)
    ensures Body(s).Text() == s
  {
  }

  lemma RejoinOne(s: string)
    ensures Rejoined([Body(s)]) == s
  {
    assert [Body(s)][1..] == [];
    assert s + "" == s;
  }

  lemma RejoinTwo(a: Part, b: Part, rest: seq<Part>)
    ensures Rejoined([a, b] + rest) == a.Text() + (b.Text() + Rejoined(rest))
  {
    var all := [a, b] + rest;
    assert all[1..] == [b] + rest;
    assert all[1..][1..] == rest;
  }

  // ----- Counting -----

  function Sum(a: Result<Counter>, b: Result<Counter>): Result<Counter> {
    if a.Err? then a else if b.Err? then b else Ok(a.value + b.value)
  }

  /** A part with no tokens counts for nothing. */
  function Contribution(s: string): Result<Counter> {
    match TokensOf(s)
    case Err(fault) => Err(fault)
    case Ok(tokens) => Ok(if tokens == [] then multiset{} else multiset{tokens})
  }

  function Collect(parts: seq<Part>, inside: bool): Result<Counter> {
    if parts == [] then (if inside then Err(UnclosedEntity) else Ok(multiset{}))
    else
      match parts[0]
      case Begin => if inside then Err(NestedEntity) else Collect(parts[1..], true)
      case End => if !inside then Err(UnexpectedEnd) else Collect(parts[1..], false)
      case Body(text) => Sum(Contribution(text), Collect(parts[1..], inside))
  }

  function BlocksOf(text: string): Result<Counter> {
    if Find(text, BEGIN) == None || Find(text, END) == None then Err(NotAnInstallScript)
    else Collect(Parts(text), false)
  }

  lemma SumGroups(a: Result<Counter>, b: Result<Counter>, c: Result<Counter>)
    ensures Sum(Sum(a, b), c) == Sum(a, Sum(b, c))
  {
    if a.Ok? && b.Ok? && c.Ok? {
      assert a.value + b.value + c.value == a.value + (b.value + c.value);
    }
  }

  lemma SumNothing(r: Result<Counter>)
    ensures Sum(Ok(multiset([])), r) == r
  {
    if r.Ok? {
      assert multiset{} + r.value == r.value;
    }
  }

  lemma SumNone(had: Counter)
    ensures Sum(Ok(had), Ok(multiset{})) == Ok(had)
  {
    assert had + multiset{} == had;
  }

  lemma SumFails(had: Counter, fault: Fault)
    ensures Sum(Ok(had), Err(fault)) == Err(fault)
  {
  }

  /** What a part's tokens add to the list so far. */
  lemma CountBody(had: seq<seq<string>>, body: string, rest: Result<Counter>)
    ensures Sum(Ok(multiset(had)), Sum(Contribution(body), rest)) ==
      match TokensOf(body)
      case Err(fault) => Err(fault)
      case Ok(tokens) => Sum(Ok(multiset(if tokens == [] then had else had + [tokens])), rest)
  {
    hide TokensOf;
    SumGroups(Ok(multiset(had)), Contribution(body), rest);
    if TokensOf(body).Ok? {
      var tokens := TokensOf(body).value;
      assert multiset(had) + multiset{} == multiset(had);
      assert multiset(had + [tokens]) == multiset(had) + multiset{tokens};
    }
  }

  /** `blocks`, as its loop runs. */
  method Blocks(text: string) returns (r: Result<Counter>)
    ensures r == BlocksOf(text)
  {
    hide TokensOf, Find, Parts, Sum;
    if Find(text, BEGIN) == None || Find(text, END) == None {
      return Err(NotAnInstallScript);
    }
    var parts := Parts(text);
    var inside := false;
    var normalized: seq<seq<string>> := [];
    var k := 0;
    assert parts[0..] == parts;
    SumNothing(Collect(parts, false));
    while k < |parts|
      invariant k <= |parts|
      invariant Collect(parts, false) == Sum(Ok(multiset(normalized)), Collect(parts[k..], inside))
    {
      var part := parts[k];
      assert parts[k..][1..] == parts[k + 1..];
      match part {
        case Begin =>
          if inside {
            SumFails(multiset(normalized), NestedEntity);
            return Err(NestedEntity);
          }
          inside := true;
        case End =>
          if !inside {
            SumFails(multiset(normalized), UnexpectedEnd);
            return Err(UnexpectedEnd);
          }
          inside := false;
        case Body(body) =>
          var tokens := Tokens(body);
          CountBody(normalized, body, Collect(parts[k + 1..], inside));
          if tokens.Err? {
            return Err(tokens.fault);
          }
          if tokens.value != [] {
            normalized := normalized + [tokens.value];
          }
      }
      k := k + 1;
    }
    assert parts[k..] == [];
    if inside {
      SumFails(multiset(normalized), UnclosedEntity);
      return Err(UnclosedEntity);
    }
    SumNone(multiset(normalized));
    return Ok(multiset(normalized));
  }

  // ----- Comparing -----

  datatype Delta = OnlyInA(tokens: seq<string>, count: nat) | OnlyInB(tokens: seq<string>, count: nat)

  /** `(x - y).items()`: each surplus entry once, with how many there are too many. */
  method Surplus(x: Counter, y: Counter) returns (entries: seq<(seq<string>, nat)>)
    ensures forall t, n: nat :: (t, n) in entries <==> x[t] > y[t] && n == x[t] - y[t]
  {
    entries := [];
    var left := x - y;
    while left != multiset{}
      invariant forall t :: left[t] == 0 || (left[t] == x[t] - y[t] && x[t] > y[t])
      invariant forall t, n: nat :: (t, n) in entries <==> left[t] == 0 && x[t] > y[t] && n == x[t] - y[t]
      decreases left
    {
      var t :| t in left;
      ghost var before := left;
      entries := entries + [(t, left[t])];
      left := left[t := 0];
      assert left <= before && t !in left;
    }
  }

  /** `compare`: the differing blocks. Nothing differs exactly when the counters are equal. */
  method Compare(textA: string, textB: string) returns (r: Result<seq<Delta>>)
    ensures r.Err? <==> BlocksOf(textA).Err? || BlocksOf(textB).Err?
    ensures r.Err? ==> r.fault == if BlocksOf(textA).Err? then BlocksOf(textA).fault else BlocksOf(textB).fault
    ensures r.Ok? ==> (r.value == [] <==> BlocksOf(textA) == BlocksOf(textB))
    ensures r.Ok? ==> forall t, n: nat ::
      OnlyInA(t, n) in r.value <==> n > 0 && BlocksOf(textA).value[t] == BlocksOf(textB).value[t] + n
    ensures r.Ok? ==> forall t, n: nat ::
      OnlyInB(t, n) in r.value <==> n > 0 && BlocksOf(textB).value[t] == BlocksOf(textA).value[t] + n
  {
    hide BlocksOf;
    var a := Blocks(textA);
    if a.Err? {
      return Err(a.fault);
    }
    var b := Blocks(textB);
    if b.Err? {
      return Err(b.fault);
    }
    var more := Surplus(a.value, b.value);
    var less := Surplus(b.value, a.value);
    var delta := seq(|more|, i requires 0 <= i < |more| => OnlyInA(more[i].0, more[i].1))
               + seq(|less|, i requires 0 <= i < |less| => OnlyInB(less[i].0, less[i].1));
    ListedA(more, less, delta);
    NoSurplus(a.value, b.value, more, less);
    return Ok(delta);
  }

  lemma ListedA(more: seq<(seq<string>, nat)>, less: seq<(seq<string>, nat)>, delta: seq<Delta>)
    requires |delta| == |more| + |less|
    requires forall i :: 0 <= i < |more| ==> delta[i] == OnlyInA(more[i].0, more[i].1)
    requires forall i :: |more| <= i < |delta| ==> delta[i] == OnlyInB(less[i - |more|].0, less[i - |more|].1)
    ensures forall t, n: nat :: OnlyInA(t, n) in delta <==> (t, n) in more
    ensures forall t, n: nat :: OnlyInB(t, n) in delta <==> (t, n) in less
  {
    forall t, n: nat | (t, n) in more
      ensures OnlyInA(t, n) in delta
    {
      var i :| 0 <= i < |more| && more[i] == (t, n);
      assert delta[i] == OnlyInA(t, n);
    }
    forall t, n: nat | (t, n) in less
      ensures OnlyInB(t, n) in delta
    {
      var i :| 0 <= i < |less| && less[i] == (t, n);
      assert delta[|more| + i] == OnlyInB(t, n);
    }
    forall t, n: nat | OnlyInA(t, n) in delta
      ensures (t, n) in more
    {
      var i :| 0 <= i < |delta| && delta[i] == OnlyInA(t, n);
      assert more[i] == (t, n);
    }
    forall t, n: nat | OnlyInB(t, n) in delta
      ensures (t, n) in less
    {
      var i :| 0 <= i < |delta| && delta[i] == OnlyInB(t, n);
      assert less[i - |more|] == (t, n);
    }
  }

  lemma NoSurplus(a: Counter, b: Counter, more: seq<(seq<string>, nat)>, less: seq<(seq<string>, nat)>)
    requires forall t, n: nat :: (t, n) in more <==> a[t] > b[t] && n == a[t] - b[t]
    requires forall t, n: nat :: (t, n) in less <==> b[t] > a[t] && n == b[t] - a[t]
    ensures more == [] && less == [] <==> a == b
  {
    forall t
      ensures a[t] > b[t] ==> (t, a[t] - b[t]) in more
      ensures b[t] > a[t] ==> (t, b[t] - a[t]) in less
    {
    }
    assert more == [] || (more[0].0, more[0].1) in more;
    assert less == [] || (less[0].0, less[0].1) in less;
    if more == [] && less == [] {
      assert forall t :: a[t] == b[t];
    }
  }

  // ----- Scripts as the generator writes them -----

  /** An entity, with the text that stands before its opening marker. */
  datatype Entity = Entity(before: string, body: string)

  function Script(entities: seq<Entity>, last: string): string {
    if entities == [] then last
    else entities[0].before + BEGIN + (entities[0].body + END + Script(entities[1..], last))
  }

  /** No marker, not even one that a following marker's slash would complete. */
  predicate Clear(s: string) {
    FirstMark(s + "/") == |s| + 1
  }

  ghost predicate ClearEntities(entities: seq<Entity>) {
    forall e :: e in entities ==> Clear(e.before) && Clear(e.body)
  }

  function ScriptParts(entities: seq<Entity>, last: string): seq<Part> {
    if entities == [] then [Body(last)]
    else [Body(entities[0].before), Begin] + ([Body(entities[0].body), End] + ScriptParts(entities[1..], last))
  }

  lemma MarkersOpenOnce(m: Part)
    requires !m.Body?
    ensures |m.Text()| >= 2 && m.Text()[0] == '/' && m.Text()[1] == '*'
    ensures forall j :: 1 <= j < |m.Text()| - 1 ==> !(m.Text()[j] == '/' && m.Text()[j + 1] == '*')
  {
  }

  /** A marker cannot begin inside clear text and run on into the marker after it. */
  lemma NoOverlap(s: string, x: Part, m: Part, rest: string)
    requires s != [] && !x.Body? && !m.Body?
    requires !(x.Text() <= s + "/")
    ensures !(x.Text() <= s + m.Text() + rest)
  {
    hide Mark;
    MarkersOpenOnce(m);
    MarkersOpenOnce(x);
    Overlap(s, x.Text(), m.Text(), rest);
  }

  lemma Overlap(s: string, x: string, m: string, rest: string)
    requires s != [] && !(x <= s + "/")
    requires |m| >= 2 && m[0] == '/' && m[1] == '*'
    requires forall j :: 1 <= j < |x| - 1 ==> !(x[j] == '/' && x[j + 1] == '*')
    ensures !(x <= s + m + rest)
  {
    var all := s + m + rest;
    assert all[..|s| + 1] == s + "/";
    assert all[|s|] == '/' && all[|s| + 1] == '*';
  }

  lemma MarkIs(m: Part, rest: string)
    requires !m.Body?
    ensures Mark(m.Text() + rest) == Some(m)
  {
    var all := m.Text() + rest;
    assert all[..|m.Text()|] == m.Text();
    if m == End {
      assert all[4] == '/';
      assert BEGIN[4] == 'b';
    }
  }

  lemma NoMarkYet(s: string, m: Part, rest: string)
    requires s != [] && !m.Body? && Mark(s + "/") == None
    ensures Mark(s + m.Text() + rest) == None
  {
    NoOverlap(s, Begin, m, rest);
    NoOverlap(s, End, m, rest);
  }

  lemma FirstMarkTurn(s: string)
    ensures FirstMark(s) == if s == [] || Mark(s).Some? then 0 else 1 + FirstMark(s[1..])
  {
    hide Mark;
  }

  lemma {:induction false} FirstMarkAfter(s: string, m: Part, rest: string)
    requires Clear(s) && !m.Body?
    ensures FirstMark(s + m.Text() + rest) == |s|
  {
    hide Mark, FirstMark, Part.Text;
    var all := s + m.Text() + rest;
    FirstMarkTurn(all);
    if s == [] {
      assert all == m.Text() + rest;
      MarkIs(m, rest);
    } else {
      FirstMarkTurn(s + "/");
      assert (s + "/")[1..] == s[1..] + "/";
      NoMarkYet(s, m, rest);
      FirstMarkAfter(s[1..], m, rest);
      assert all[1..] == s[1..] + m.Text() + rest;
    }
  }

  lemma PartsAfter(s: string, m: Part, rest: string)
    requires Clear(s) && !m.Body?
    ensures Parts(s + m.Text() + rest) == [Body(s), m] + Parts(rest)
  {
    hide Mark, FirstMark, Clear, Part.Text;
    var all := s + m.Text() + rest;
    FirstMarkAfter(s, m, rest);
    assert all[|s|..] == m.Text() + rest;
    MarkIs(m, rest);
    MarkersOpenOnce(m);
    assert all[..|s|] == s;
    assert all[|s| + |m.Text()|..] == rest;
  }

  lemma {:induction false} PartsOfScript(entities: seq<Entity>, last: string)
    requires ClearEntities(entities) && FirstMark(last) == |last|
    ensures Parts(Script(entities, last)) == ScriptParts(entities, last)
  {
    hide Mark, FirstMark, Clear, Parts;
    if entities == [] {
      PartsOfBody(last);
    } else {
      var e := entities[0];
      var rest := Script(entities[1..], last);
      assert e in entities;
      PartsOfScript(entities[1..], last);
      PartsAfter(e.body, End, rest);
      PartsAfter(e.before, Begin, e.body + END + rest);
    }
  }

  lemma PartsOfBody(s: string)
    requires FirstMark(s) == |s|
    ensures Parts(s) == [Body(s)]
  {
  }

  /** What an entity adds, and what a script adds up to. */
  function Worth(e: Entity): Result<Counter> {
    Sum(Contribution(e.before), Contribution(e.body))
  }

  function Total(entities: seq<Entity>, last: string): Result<Counter> {
    if entities == [] then Contribution(last)
    else Sum(Worth(entities[0]), Total(entities[1..], last))
  }

  lemma {:induction false} CollectScript(entities: seq<Entity>, last: string)
    ensures Collect(ScriptParts(entities, last), false) == Total(entities, last)
  {
    hide Contribution;
    if entities == [] {
      CollectLast(last);
    } else {
      var e := entities[0];
      var rest := ScriptParts(entities[1..], last);
      CollectScript(entities[1..], last);
      CollectEntity(e, rest);
      SumGroups(Contribution(e.before), Contribution(e.body), Total(entities[1..], last));
    }
  }

  lemma CollectLast(last: string)
    ensures Collect([Body(last)], false) == Contribution(last)
  {
    assert [Body(last)][1..] == [];
    var c := Contribution(last);
    if c.Ok? {
      assert c.value + multiset{} == c.value;
    }
  }

  lemma CollectEntity(e: Entity, rest: seq<Part>)
    ensures Collect([Body(e.before), Begin] + ([Body(e.body), End] + rest), false)
         == Sum(Contribution(e.before), Sum(Contribution(e.body), Collect(rest, false)))
  {
    hide Contribution, Sum;
    var p2 := [Body(e.body), End] + rest;
    var p1 := [Begin] + p2;
    var p0 := [Body(e.before), Begin] + p2;
    assert p0[1..] == p1 && p1[1..] == p2;
    assert p2[1..] == [End] + rest && ([End] + rest)[1..] == rest;
    assert Collect(p2, true) == Sum(Contribution(e.body), Collect([End] + rest, true));
    assert Collect([End] + rest, true) == Collect(rest, false);
  }

  lemma {:induction false} FindsIt(a: string, d: string, b: string)
    ensures Find(a + d + b, d).Some?
  {
    var all := a + d + b;
    if a == [] {
      assert all[..|d|] == d;
    } else {
      FindsIt(a[1..], d, b);
      assert all[1..] == a[1..] + d + b;
    }
  }

  /** The counter of a generated script is the sum over its entities and the text around them. */
  lemma ScriptsAddUp(entities: seq<Entity>, last: string)
    requires entities != [] && ClearEntities(entities) && FirstMark(last) == |last|
    ensures BlocksOf(Script(entities, last)) == Total(entities, last)
  {
    hide Contribution, ClearEntities, FirstMark, Find;
    var text := Script(entities, last);
    var e := entities[0];
    var rest := Script(entities[1..], last);
    FindsIt(e.before, BEGIN, e.body + END + rest);
    FindsIt(e.before + BEGIN + e.body, END, rest);
    assert text == e.before + BEGIN + e.body + END + rest;
    PartsOfScript(entities, last);
    CollectScript(entities, last);
  }

  // ----- Order -----

  /** Two answers agree: the same counter, or a fault each. */
  ghost predicate Agree(a: Result<Counter>, b: Result<Counter>) {
    a.Ok? == b.Ok? && (a.Ok? ==> a == b)
  }

  lemma SumSwaps(a: Result<Counter>, b: Result<Counter>, c: Result<Counter>)
    ensures Agree(Sum(a, Sum(b, c)), Sum(b, Sum(a, c)))
  {
    if a.Ok? && b.Ok? && c.Ok? {
      assert a.value + (b.value + c.value) == b.value + (a.value + c.value);
    }
  }

  lemma SumAgrees(a: Result<Counter>, b: Result<Counter>, c: Result<Counter>)
    requires Agree(b, c)
    ensures Agree(Sum(a, b), Sum(a, c))
  {
  }

  lemma {:induction false} TotalMoves(x: seq<Entity>, e: Entity, y: seq<Entity>, last: string)
    ensures Agree(Total(x + [e] + y, last), Sum(Worth(e), Total(x + y, last)))
  {
    hide Worth, Sum;
    var all := x + [e] + y;
    if x == [] {
      assert all[1..] == y && x + y == y;
    } else {
      assert all[1..] == x[1..] + [e] + y;
      assert (x + y)[1..] == x[1..] + y;
      TotalMoves(x[1..], e, y, last);
      SumAgrees(Worth(x[0]), Total(all[1..], last), Sum(Worth(e), Total(x[1..] + y, last)));
      SumSwaps(Worth(x[0]), Worth(e), Total(x[1..] + y, last));
    }
  }

  lemma {:induction false} TotalIgnoresOrder(a: seq<Entity>, b: seq<Entity>, last: string)
    requires multiset(a) == multiset(b)
    ensures Agree(Total(a, last), Total(b, last))
    decreases |a|
  {
    hide Worth, Sum;
    if a == [] {
      assert |b| == |multiset(b)| == |multiset(a)| == 0;
    } else {
      var e := a[0];
      assert a == [e] + a[1..];
      assert e in multiset(b);
      var k :| 0 <= k < |b| && b[k] == e;
      var x, y := b[..k], b[k + 1..];
      assert b == x + [e] + y;
      assert multiset(x + y) == multiset(b) - multiset{e};
      assert multiset(a[1..]) == multiset(a) - multiset{e};
      TotalIgnoresOrder(a[1..], x + y, last);
      SumAgrees(Worth(e), Total(a[1..], last), Total(x + y, last));
      TotalMoves(x, e, y, last);
    }
  }

  /** Reordering entities is never reported. */
  lemma EntityOrderIsIgnored(a: seq<Entity>, b: seq<Entity>, last: string)
    requires multiset(a) == multiset(b) && a != []
    requires ClearEntities(a) && FirstMark(last) == |last|
    ensures Agree(BlocksOf(Script(a, last)), BlocksOf(Script(b, last)))
  {
    hide BlocksOf, Clear, FirstMark;
    assert forall e :: e in b ==> e in multiset(a);
    assert |multiset(b)| == |b|;
    assert a[0] in multiset(b);
    TotalIgnoresOrder(a, b, last);
    ScriptsAddUp(a, last);
    ScriptsAddUp(b, last);
  }

  /** Putting one entity in another's place goes unreported exactly when the two have the same tokens. */
  lemma AlteredEntityIsSeen(x: seq<Entity>, e: Entity, f: Entity, y: seq<Entity>, last: string)
    requires ClearEntities(x + [e] + y) && ClearEntities(x + [f] + y) && FirstMark(last) == |last|
    requires BlocksOf(Script(x + [e] + y, last)).Ok? && BlocksOf(Script(x + [f] + y, last)).Ok?
    ensures BlocksOf(Script(x + [e] + y, last)) == BlocksOf(Script(x + [f] + y, last))
       <==> Worth(e) == Worth(f)
  {
    hide BlocksOf, Clear, FirstMark, ClearEntities, Worth;
    ScriptsAddUp(x + [e] + y, last);
    ScriptsAddUp(x + [f] + y, last);
    TotalMoves(x, e, y, last);
    TotalMoves(x, f, y, last);
    SumCancels(Worth(e), Worth(f), Total(x + y, last));
  }

  lemma SumCancels(a: Result<Counter>, b: Result<Counter>, c: Result<Counter>)
    requires Sum(a, c).Ok? && Sum(b, c).Ok?
    ensures Sum(a, c) == Sum(b, c) <==> a == b
  {
    if a.value + c.value == b.value + c.value {
      assert a.value == a.value + c.value - c.value;
      assert b.value == b.value + c.value - c.value;
    }
  }

  /** Dropping an entity is reported, unless there was no SQL in it or before it. */
  lemma DroppedEntityIsSeen(x: seq<Entity>, e: Entity, y: seq<Entity>, last: string)
    requires x + y != [] && ClearEntities(x + [e] + y) && ClearEntities(x + y) && FirstMark(last) == |last|
    requires BlocksOf(Script(x + [e] + y, last)).Ok?
    ensures BlocksOf(Script(x + [e] + y, last)) == BlocksOf(Script(x + y, last))
       <==> Worth(e) == Ok(multiset{})
  {
    hide BlocksOf, Clear, FirstMark, ClearEntities, Worth;
    ScriptsAddUp(x + [e] + y, last);
    ScriptsAddUp(x + y, last);
    TotalMoves(x, e, y, last);
    var w, t := Worth(e), Total(x + y, last);
    if w.value + t.value == t.value {
      assert w.value == w.value + t.value - t.value;
      assert t.value - t.value == multiset{};
    }
    if w.value == multiset{} {
      assert w.value + t.value == t.value;
    }
  }
}
