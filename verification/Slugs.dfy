/**
 * Provider slugs: a name folded to lowercase words with dashes between them,
 * cut to the catalog's bound, and numbered until nobody else has it.
 */
module Slugs {
  import opened Text
  import opened Decimal

  const SLUG_MAX := 32
  const USIZE_MAX := 0xFFFF_FFFF_FFFF_FFFF

  datatype ProviderKind = Oidc | GitHub
  {
    function Id(): string {
      match this case Oidc => "oidc" case GitHub => "github"
    }
  }

  // ----- Characters -----

  predicate IsLowerOrDigit(c: char) {
    'a' <= c <= 'z' || '0' <= c <= '9'
  }

  predicate IsAlphanumeric(c: char) {
    IsLowerOrDigit(c) || 'A' <= c <= 'Z'
  }

  function Lower(c: char): (d: char)
    ensures IsAlphanumeric(c) ==> IsLowerOrDigit(d)
  {
    if 'A' <= c <= 'Z' then ((c as int) + 32) as char else c
  }

  /** The catalog's constraint. */
  predicate ValidSlug(id: string) {
    && id != [] && IsLowerOrDigit(id[0])
    && (forall i :: 1 <= i < |id| ==> IsLowerOrDigit(id[i]) || id[i] == '-')
    && |id| <= SLUG_MAX
  }

  // ----- A name as words -----

  function Run(s: string): (n: nat)
    ensures n <= |s|
    ensures n < |s| ==> !IsAlphanumeric(s[n])
    ensures forall i :: 0 <= i < n ==> IsAlphanumeric(s[i])
  {
    if s != [] && IsAlphanumeric(s[0]) then 1 + Run(s[1..]) else 0
  }

  function Lowered(s: string): (t: string)
    ensures |t| == |s|
    ensures forall i :: 0 <= i < |s| ==> t[i] == Lower(s[i])
  {
    seq(|s|, i requires 0 <= i < |s| => Lower(s[i]))
  }

  /** The maximal runs of letters and digits, lowercased, in order. */
  function Words(s: string): (words: seq<string>)
    decreases |s|
  {
    if s == [] then []
    else
      var n := Run(s);
      if n > 0 then [Lowered(s[..n])] + Words(s[n..]) else Words(s[1..])
  }

  /** The whole name as a slug, whatever its length. */
  function Folded(s: string): string {
    Join(Words(s), '-')
  }

  function TrimDash(s: string): (t: string)
    ensures t <= s
    ensures t == [] || t[|t| - 1] != '-'
    ensures s != [] && s[0] != '-' ==> t != []
  {
    if s != [] && s[|s| - 1] == '-' then TrimDash(s[..|s| - 1]) else s
  }

  function Cut(s: string, n: nat): string {
    if |s| <= n then s else s[..n]
  }

  function SlugOf(name: string, kind: ProviderKind): string {
    var slug := TrimDash(Cut(Folded(name), SLUG_MAX));
    if slug == [] then kind.Id() else slug
  }

  // ----- Folding character by character -----

  /** The words after some text, with the dash that parts them from it. */
  function Tail(words: seq<string>): string {
    if words == [] then [] else "-" + Join(words, '-')
  }

  /** What is still to come once something has been written. */
  function Rest(s: string, pending: bool): string {
    if pending then Tail(Words(s))
    else Lowered(s[..Run(s)]) + Tail(Words(s[Run(s)..]))
  }

  lemma JoinTail(word: string, words: seq<string>)
    ensures Join([word] + words, '-') == word + Tail(words)
  {
    assert ([word] + words)[1..] == words;
    if words == [] {
      assert word + [] == word;
    } else {
      assert word + ['-'] + Join(words, '-') == word + ("-" + Join(words, '-'));
    }
  }

  lemma LoweredCons(c: char, s: string)
    ensures Lowered([c] + s) == [Lower(c)] + Lowered(s)
  {
    hide Lower;
  }

  lemma RunStep(s: string)
    requires s != [] && IsAlphanumeric(s[0])
    ensures Run(s) == 1 + Run(s[1..])
    ensures Lowered(s[..Run(s)]) == [Lower(s[0])] + Lowered(s[1..][..Run(s[1..])])
    ensures s[Run(s)..] == s[1..][Run(s[1..])..]
  {
    hide IsAlphanumeric, Lower;
    var n := Run(s[1..]);
    LoweredCons(s[0], s[1..][..n]);
    assert s[..n + 1] == [s[0]] + s[1..][..n];
  }

  /** The words of a text that begins with a letter or digit. */
  lemma WordsStart(s: string)
    requires s != [] && IsAlphanumeric(s[0])
    ensures Folded(s) == [Lower(s[0])] + Rest(s[1..], false)
    ensures Rest(s, true) == "-" + [Lower(s[0])] + Rest(s[1..], false)
    ensures Rest(s, false) == [Lower(s[0])] + Rest(s[1..], false)
  {
    hide Join, Lowered, Lower, IsAlphanumeric;
    RunStep(s);
    var n := Run(s);
    var word, words := Lowered(s[..n]), Words(s[n..]);
    assert Words(s) == [word] + words;
    JoinTail(word, words);
    var rest := Lowered(s[1..][..Run(s[1..])]);
    assert [Lower(s[0])] + rest + Tail(words) == [Lower(s[0])] + (rest + Tail(words));
    assert "-" + ([Lower(s[0])] + (rest + Tail(words))) == "-" + [Lower(s[0])] + (rest + Tail(words));
  }

  /** Any other character only asks for a dash before the next word. */
  lemma WordsSkip(s: string, pending: bool)
    requires s != [] && !IsAlphanumeric(s[0])
    ensures Folded(s) == Folded(s[1..])
    ensures Rest(s, pending) == Rest(s[1..], true)
  {
    hide Join, IsAlphanumeric;
    assert Run(s) == 0;
    assert s[0..] == s && s[..0] == [];
    assert Lowered([]) == [];
    assert [] + Tail(Words(s)) == Tail(Words(s));
  }

  lemma WordsEnd(pending: bool)
    ensures Folded("") == "" && Rest("", pending) == ""
  {
  }

  /** What is left of the folded name, given what was written. */
  function Remaining(slug: string, s: string, pending: bool): string {
    if slug == [] then Folded(s) else Rest(s, pending)
  }

  /** `slug_for`, as its loop runs: it breaks off rather than overshoot. */
  method SlugFor(name: string, kind: ProviderKind) returns (r: string)
    ensures r == SlugOf(name, kind)
  {
    hide Words, Join, Tail, Rest, Folded, Lower, IsAlphanumeric;
    var slug := "";
    var pendingDash := false;
    var k := 0;
    assert name[0..] == name;
    while k < |name|
      invariant k <= |name|
      invariant |slug| <= SLUG_MAX
      invariant slug == [] || slug[|slug| - 1] != '-'
      invariant Folded(name) == slug + Remaining(slug, name[k..], pendingDash)
    {
      var c := name[k];
      var s := name[k..];
      assert s[1..] == name[k + 1..];
      if IsAlphanumeric(c) {
        WordsStart(s);
        LowerIsNoDash(c);
        var want := (if pendingDash && slug != [] then 1 else 0) + 1;
        if |slug| + want > SLUG_MAX {
          CutHere(Folded(name), slug);
          break;
        }
        if pendingDash && slug != [] {
          slug := slug + "-";
        }
        pendingDash := false;
        slug := slug + [Lower(c)];
        assert Folded(name) == slug + Rest(s[1..], false);
      } else {
        WordsSkip(s, pendingDash);
        pendingDash := true;
      }
      k := k + 1;
    }
    if k == |name| {
      assert name[k..] == [];
      WordsEnd(pendingDash);
      assert slug + [] == slug;
    }
    NothingToTrim(slug);
    slug := TrimDash(slug);
    return if slug == [] then kind.Id() else slug;
  }

  lemma LowerIsNoDash(c: char)
    requires IsAlphanumeric(c)
    ensures Lower(c) != '-'
  {
  }

  lemma NothingToTrim(slug: string)
    requires slug == [] || slug[|slug| - 1] != '-'
    ensures TrimDash(slug) == slug
  {
  }

  /** Where the loop breaks off is where the bound cuts, less a dash left hanging. */
  lemma CutHere(folded: string, slug: string)
    requires slug <= folded && |slug| <= SLUG_MAX < |folded| + 1
    requires slug != [] && slug[|slug| - 1] != '-'
    requires |slug| == SLUG_MAX || (|slug| == SLUG_MAX - 1 && |folded| > SLUG_MAX && folded[|slug|] == '-')
    ensures TrimDash(Cut(folded, SLUG_MAX)) == slug
  {
    var cut := Cut(folded, SLUG_MAX);
    NothingToTrim(slug);
    if |slug| == SLUG_MAX {
      assert cut == slug;
    } else {
      assert cut[..|cut| - 1] == slug;
    }
  }

  // ----- Validity -----

  ghost predicate IsWord(w: string) {
    w != [] && forall i :: 0 <= i < |w| ==> IsLowerOrDigit(w[i])
  }

  lemma {:induction false} WordsAreWords(s: string)
    ensures forall w :: w in Words(s) ==> IsWord(w)
    decreases |s|
  {
    hide IsLowerOrDigit, IsAlphanumeric, Lower;
    if s != [] {
      var n := Run(s);
      if n > 0 {
        WordsAreWords(s[n..]);
        assert IsWord(Lowered(s[..n]));
      } else {
        WordsAreWords(s[1..]);
      }
    }
  }

  ghost predicate SlugShaped(s: string) {
    && (s != [] ==> IsLowerOrDigit(s[0]))
    && (forall i :: 0 <= i < |s| ==> IsLowerOrDigit(s[i]) || s[i] == '-')
  }

  lemma {:induction false} JoinIsShaped(words: seq<string>)
    requires forall w :: w in words ==> IsWord(w)
    ensures SlugShaped(Join(words, '-'))
    ensures words != [] ==> Join(words, '-') != []
  {
    hide IsLowerOrDigit;
    if words != [] {
      assert words[0] in words;
      JoinIsShaped(words[1..]);
    }
  }

  lemma PrefixIsValid(s: string, t: string)
    requires SlugShaped(s) && t <= s && t != [] && |t| <= SLUG_MAX
    ensures ValidSlug(t)
  {
    hide IsLowerOrDigit;
  }

  /** Whatever the name, its slug is one the catalog accepts. */
  lemma SlugIsValid(name: string, kind: ProviderKind)
    ensures ValidSlug(SlugOf(name, kind))
  {
    hide Join, Words;
    WordsAreWords(name);
    JoinIsShaped(Words(name));
    var slug := TrimDash(Cut(Folded(name), SLUG_MAX));
    if slug == [] {
      KindIsValid(kind);
    } else {
      PrefixIsValid(Folded(name), slug);
    }
  }

  lemma KindIsValid(kind: ProviderKind)
    ensures ValidSlug(kind.Id())
  {
  }

  /** The kind's own name is used exactly when the name holds no letter or digit. */
  lemma FallsBackToKind(name: string, kind: ProviderKind)
    ensures TrimDash(Cut(Folded(name), SLUG_MAX)) == [] <==> forall c :: c in name ==> !IsAlphanumeric(c)
  {
    hide Join, IsAlphanumeric, IsLowerOrDigit;
    WordsAreWords(name);
    JoinIsShaped(Words(name));
    NoWords(name);
    if Words(name) != [] {
      ShapedStart(Folded(name));
    } else {
      assert Folded(name) == [] by { JoinNothing(); }
    }
  }

  lemma JoinNothing()
    ensures Join([], '-') == []
  {
  }

  lemma ShapedStart(s: string)
    requires SlugShaped(s) && s != []
    ensures s[0] != '-'
  {
  }

  lemma {:induction false} NoWords(s: string)
    ensures Words(s) == [] <==> forall c :: c in s ==> !IsAlphanumeric(c)
    decreases |s|
  {
    hide IsAlphanumeric, Lowered;
    if s != [] {
      if Run(s) > 0 {
        assert s[0] in s;
      } else {
        NoWords(s[1..]);
        assert s == [s[0]] + s[1..];
      }
    }
  }

  // ----- Numbering -----

  /** What `-n` leaves of the bound. */
  function Room(n: nat): nat {
    if 1 + |Digits(n)| > SLUG_MAX then 0 else SLUG_MAX - (1 + |Digits(n)|)
  }

  /** The base cut to leave room, with `-n` after it. */
  function Candidate(base: string, n: nat): string {
    TrimDash(Cut(base, Room(n))) + ("-" + Digits(n))
  }

  /** A `usize` takes at most twenty digits, so the room left for the base is never negative. */
  lemma NumbersFit(n: nat)
    requires n <= USIZE_MAX
    ensures |Digits(n)| <= 20
  {
    hide Digits;
    assert Power10(2) == 100;
    assert Power10(5) == 1000 * Power10(2) == 100000;
    PowersMultiply(5, 5);
    PowersMultiply(10, 10);
    DigitsLength(n, 20);
  }

  /** Every candidate is one the catalog accepts. */
  lemma CandidateIsValid(base: string, n: nat)
    requires ValidSlug(base) && n <= USIZE_MAX
    ensures ValidSlug(Candidate(base, n))
  {
    hide Digits;
    NumbersFit(n);
    var kept := TrimDash(Cut(base, Room(n)));
    assert kept != [] && kept[0] == base[0];
    assert forall i :: 1 <= i < |kept| ==> kept[i] == base[i];
  }

  /** Different numbers make different candidates: the digits after the last dash tell them apart. */
  lemma CandidatesDiffer(base: string, m: nat, n: nat)
    requires Candidate(base, m) == Candidate(base, n)
    ensures m == n
  {
    hide Digits, TrimDash, LastIndex, Cut, Room;
    LastDash(TrimDash(Cut(base, Room(m))), m);
    LastDash(TrimDash(Cut(base, Room(n))), n);
    DigitsInjective(m, n);
  }

  lemma LastDash(kept: string, n: nat)
    ensures var c := kept + ("-" + Digits(n)); c[LastIndex(c, '-') + 1..] == Digits(n)
  {
    hide Digits;
    var c := kept + ("-" + Digits(n));
    assert c[|kept|] == '-';
    assert forall i :: |kept| < i < |c| ==> c[i] == Digits(n)[i - |kept| - 1];
    assert LastIndex(c, '-') == |kept|;
  }

  ghost predicate Distinct(s: seq<string>) {
    forall i, j :: 0 <= i < j < |s| ==> s[i] != s[j]
  }

  /** Different strings that are all among `taken` are no more than `taken` has. */
  lemma {:induction false} Pigeonhole(some: seq<string>, taken: seq<string>)
    requires Distinct(some) && forall i :: 0 <= i < |some| ==> some[i] in taken
    ensures |some| <= |taken|
  {
    if some != [] {
      var k :| 0 <= k < |taken| && taken[k] == some[0];
      var others := taken[..k] + taken[k + 1..];
      forall i | 0 <= i < |some[1..]|
        ensures some[1..][i] in others
      {
        var j :| 0 <= j < |taken| && taken[j] == some[i + 1];
        assert some[0] != some[i + 1];
        assert j < k ==> others[j] == taken[j];
        assert j > k ==> others[j - 1] == taken[j];
      }
      Pigeonhole(some[1..], others);
    }
  }

  /** Among the first `|taken| + 1` numbers one is free, so the search ends. */
  lemma SearchEnds(base: string, taken: seq<string>, n: nat)
    requires n >= 2 && forall m :: 2 <= m < n ==> Candidate(base, m) in taken
    ensures n <= |taken| + 2
  {
    hide Candidate;
    var tried := seq(n - 2, i requires 0 <= i < n - 2 => Candidate(base, i + 2));
    forall i, j | 0 <= i < j < |tried|
      ensures tried[i] != tried[j]
    {
      if Candidate(base, i + 2) == Candidate(base, j + 2) {
        CandidatesDiffer(base, i + 2, j + 2);
      }
    }
    Pigeonhole(tried, taken);
  }

  /** The first number, from 2 on, whose candidate nobody has. */
  ghost predicate LowestFree(base: string, taken: seq<string>, n: nat) {
    && 2 <= n <= |taken| + 2 && Candidate(base, n) !in taken
    && (forall m :: 2 <= m < n ==> Candidate(base, m) in taken)
  }

  /**
   * `free_slug`: valid, nobody's yet, the plain slug if that is free and else
   * the lowest free number; the search never runs out of numbers.
   */
  method FreeSlug(name: string, kind: ProviderKind, taken: seq<string>) returns (r: string)
    requires |taken| + 2 <= USIZE_MAX
    ensures ValidSlug(r) && r !in taken
    ensures SlugOf(name, kind) !in taken ==> r == SlugOf(name, kind)
    ensures SlugOf(name, kind) in taken ==>
      exists n :: LowestFree(SlugOf(name, kind), taken, n) && r == Candidate(SlugOf(name, kind), n)
  {
    hide SlugOf, Candidate, ValidSlug;
    var base := SlugFor(name, kind);
    SlugIsValid(name, kind);
    if base !in taken {
      return base;
    }
    var n := 2;
    while Candidate(base, n) in taken
      invariant n >= 2
      invariant forall m :: 2 <= m < n ==> Candidate(base, m) in taken
      decreases |taken| + 2 - n
    {
      SearchEnds(base, taken, n + 1);
      n := n + 1;
    }
    SearchEnds(base, taken, n);
    CandidateIsValid(base, n);
    assert LowestFree(base, taken, n);
    return Candidate(base, n);
  }
}
