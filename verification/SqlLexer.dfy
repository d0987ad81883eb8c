/**
 * The install-script comparison: SQL tokens that ignore comments and layout,
 * entities between generated markers, and equality as multisets of token lists.
 */
module SqlLexer {
  import opened Text

  datatype Fault =
    | UnterminatedComment | UnterminatedQuote | UnterminatedDollarQuote
    | NotAnInstallScript | NestedEntity | UnexpectedEnd | UnclosedEntity

  datatype Result<+T> = Ok(value: T) | Err(fault: Fault)

  // ----- Characters -----

  /** `str.isspace`. */
  predicate IsSpace(c: char) {
    IsWhiteSpace(c) || '\U{1C}' <= c <= '\U{1F}'
  }

  predicate IsTagStart(c: char) {
    'A' <= c <= 'Z' || 'a' <= c <= 'z' || c == '_'
  }

  predicate IsWord(c: char) {
    IsTagStart(c) || '0' <= c <= '9'
  }

  // ----- What each kind of lexeme spans, counted from the start of `s` -----

  /** The longest run of word characters. */
  function WordRun(s: string): (n: nat)
    ensures n <= |s|
    ensures n < |s| ==> !IsWord(s[n])
    ensures s != [] && IsWord(s[0]) ==> n > 0
  {
    if s != [] && IsWord(s[0]) then 1 + WordRun(s[1..]) else 0
  }

  /** `find(d)`: the first place `d` begins. */
  function Find(s: string, d: string): (k: Option<nat>)
    ensures k.Some? ==> k.value + |d| <= |s|
  {
    if d <= s then Some(0)
    else if s == [] then None
    else match Find(s[1..], d) case Some(k) => Some(k + 1) case None => None
  }

  /** Through the newline, or to the end. */
  function LineComment(s: string): (n: nat)
    requires s != []
    ensures 0 < n <= |s|
  {
    var i := FirstIndex(s, '\n');
    if i == |s| then |s| else i + 1
  }

  function Plus(n: nat, r: Option<nat>): Option<nat> {
    match r case Some(m) => Some(n + m) case None => None
  }

  /** To where `depth` open comments are all closed. */
  function BlockComment(s: string, depth: nat): (n: Option<nat>)
    ensures n.Some? ==> n.value <= |s|
    decreases |s|
  {
    if depth == 0 then Some(0)
    else if s == [] then None
    else if "/*" <= s then Plus(2, BlockComment(s[2..], depth + 1))
    else if "*/" <= s then Plus(2, BlockComment(s[2..], depth - 1))
    else Plus(1, BlockComment(s[1..], depth))
  }

  /** After an opening quote, through the closing one: a doubled or escaped quote does not close. */
  function Quoted(s: string, quote: char): (n: Option<nat>)
    ensures n.Some? ==> 0 < n.value <= |s|
    decreases |s|
  {
    if s == [] then None
    else if s[0] == '\\' then (if |s| < 2 then None else Plus(2, Quoted(s[2..], quote)))
    else if s[0] == quote then
      if |s| > 1 && s[1] == quote then Plus(2, Quoted(s[2..], quote)) else Some(1)
    else Plus(1, Quoted(s[1..], quote))
  }

  /** The dollar-quote delimiter `s` begins with, by its length. */
  function Delimiter(s: string): (n: Option<nat>)
    ensures n.Some? ==> 2 <= n.value <= |s| && s[0] == '$'
  {
    if |s| < 2 || s[0] != '$' then None
    else if s[1] == '$' then Some(2)
    else if IsTagStart(s[1]) then
      var w := WordRun(s[1..]);
      if 1 + w < |s| && s[1 + w] == '$' then Some(w + 2) else None
    else None
  }

  /** One turn of the loop. */
  datatype Step = Skip(n: nat) | Take(n: nat) | Fail(fault: Fault)

  function Next(s: string): (r: Step)
    requires s != []
    ensures !r.Fail? ==> 0 < r.n <= |s|
  {
    if IsSpace(s[0]) then Skip(1)
    else if "--" <= s then Skip(LineComment(s))
    else if "/*" <= s then
      match BlockComment(s[2..], 1) case Some(n) => Skip(2 + n) case None => Fail(UnterminatedComment)
    else if s[0] in "'\"" then
      match Quoted(s[1..], s[0]) case Some(n) => Take(1 + n) case None => Fail(UnterminatedQuote)
    else if Delimiter(s).Some? then
      var d := Delimiter(s).value;
      match Find(s[d..], s[..d]) case Some(k) => Take(d + k + d) case None => Fail(UnterminatedDollarQuote)
    else if IsWord(s[0]) then Take(WordRun(s))
    else Take(1)
  }

  function Prepend(tokens: seq<string>, r: Result<seq<string>>): Result<seq<string>> {
    match r case Ok(rest) => Ok(tokens + rest) case Err(fault) => Err(fault)
  }

  function TokensOf(s: string): (r: Result<seq<string>>)
    decreases |s|
  {
    if s == [] then Ok([])
    else
      match Next(s)
      case Fail(fault) => Err(fault)
      case Skip(n) => TokensOf(s[n..])
      case Take(n) => Prepend([s[..n]], TokensOf(s[n..]))
  }

  lemma PrependNothing(r: Result<seq<string>>)
    ensures Prepend([], r) == r
  {
    if r.Ok? {
      assert [] + r.value == r.value;
    }
  }

  // ----- The lexer as it runs -----

  lemma CommentTurn(text: string, i: nat, depth: nat)
    requires i < |text| && depth > 0
    ensures BlockComment(text[i..], depth) ==
      if "/*" <= text[i..] then Plus(2, BlockComment(text[i + 2..], depth + 1))
      else if "*/" <= text[i..] then Plus(2, BlockComment(text[i + 2..], depth - 1))
      else Plus(1, BlockComment(text[i + 1..], depth))
  {
    var s := text[i..];
    assert s[1..] == text[i + 1..];
    if |s| >= 2 {
      assert s[2..] == text[i + 2..];
    }
  }

  lemma CommentEnds(s: string, depth: nat)
    ensures BlockComment(s, 0) == Some(0)
    ensures depth > 0 ==> BlockComment([], depth) == None
  {
  }

  method CommentEnd(text: string, start: nat) returns (end: Option<nat>)
    requires start + 2 <= |text|
    ensures end == Plus(start + 2, BlockComment(text[start + 2..], 1))
  {
    hide BlockComment;
    var depth := 1;
    var i := start + 2;
    while depth > 0
      invariant start + 2 <= i <= |text|
      invariant Plus(start + 2, BlockComment(text[start + 2..], 1)) == Plus(i, BlockComment(text[i..], depth))
      decreases |text| - i + (if depth > 0 then 1 else 0)
    {
      if i >= |text| {
        CommentEnds(text[i..], depth);
        return None;
      }
      CommentTurn(text, i, depth);
      if "/*" <= text[i..] {
        depth := depth + 1;
        i := i + 2;
      } else if "*/" <= text[i..] {
        depth := depth - 1;
        i := i + 2;
      } else {
        i := i + 1;
      }
    }
    CommentEnds(text[i..], depth);
    return Some(i);
  }

  lemma QuoteTurn(text: string, i: nat, quote: char)
    requires i < |text|
    ensures Quoted(text[i..], quote) ==
      if text[i] == '\\' then (if i + 2 <= |text| then Plus(2, Quoted(text[i + 2..], quote)) else None)
      else if text[i] != quote then Plus(1, Quoted(text[i + 1..], quote))
      else if i + 1 < |text| && text[i + 1] == quote then Plus(2, Quoted(text[i + 2..], quote))
      else Some(1)
  {
    var s := text[i..];
    assert s[1..] == text[i + 1..];
    if |s| >= 2 {
      assert s[2..] == text[i + 2..];
    }
  }

  lemma NothingIsQuoted(quote: char)
    ensures Quoted([], quote) == None
  {
  }

  method QuoteEnd(text: string, start: nat) returns (end: Option<nat>)
    requires start < |text|
    ensures end == Plus(start + 1, Quoted(text[start + 1..], text[start]))
  {
    hide Quoted;
    var quote := text[start];
    var i := start + 1;
    while i < |text|
      invariant start + 1 <= i <= |text| + 1
      invariant Plus(start + 1, Quoted(text[start + 1..], quote))
             == if i <= |text| then Plus(i, Quoted(text[i..], quote)) else None
    {
      QuoteTurn(text, i, quote);
      if text[i] == '\\' {
        i := i + 2;
      } else if text[i] == quote {
        i := i + 1;
        if i < |text| && text[i] == quote {
          i := i + 1;
        } else {
          return Some(i);
        }
      } else {
        i := i + 1;
      }
    }
    NothingIsQuoted(quote);
    return None;
  }

  /** `tokens`: every turn moves forward, and the result is the list `TokensOf` defines. */
  method Tokens(text: string) returns (r: Result<seq<string>>)
    ensures r == TokensOf(text)
  {
    hide TokensOf, IsSpace, IsWord, Delimiter, Find, LineComment, BlockComment, Quoted, WordRun;
    var result: seq<string> := [];
    var i := 0;
    assert text[0..] == text;
    PrependNothing(TokensOf(text));
    while i < |text|
      invariant i <= |text|
      invariant TokensOf(text) == Prepend(result, TokensOf(text[i..]))
    {
      var s := text[i..];
      ghost var before := i;
      ghost var had := result;
      if IsSpace(text[i]) {
        i := i + 1;
      } else if "--" <= s {
        i := i + LineComment(s);
      } else if "/*" <= s {
        assert text[i + 2..] == s[2..];
        var end := CommentEnd(text, i);
        if end == None {
          Failing(text, i, had);
          return Err(UnterminatedComment);
        }
        i := end.value;
      } else if text[i] in "'\"" {
        assert text[i + 1..] == s[1..];
        var end := QuoteEnd(text, i);
        if end == None {
          Failing(text, i, had);
          return Err(UnterminatedQuote);
        }
        result := result + [text[i..end.value]];
        i := end.value;
      } else if Delimiter(s).Some? {
        var d := Delimiter(s).value;
        var close := Find(s[d..], s[..d]);
        if close == None {
          Failing(text, i, had);
          return Err(UnterminatedDollarQuote);
        }
        var end := i + d + close.value + d;
        result := result + [text[i..end]];
        i := end;
      } else if IsWord(text[i]) {
        var end := i + WordRun(s);
        result := result + [text[i..end]];
        i := end;
      } else {
        result := result + [text[i..i + 1]];
        i := i + 1;
      }
      Turn(text, before, i, had, result);
    }
    NoTokens();
    assert text[i..] == [];
    assert result + [] == result;
    return Ok(result);
  }

  /** One turn of the loop carries the invariant over. */
  lemma Turn(text: string, i: nat, j: nat, had: seq<string>, result: seq<string>)
    requires i < j <= |text|
    requires || (Next(text[i..]) == Skip(j - i) && result == had)
             || (Next(text[i..]) == Take(j - i) && result == had + [text[i..j]])
    ensures Prepend(had, TokensOf(text[i..])) == Prepend(result, TokensOf(text[j..]))
  {
    hide Next;
    var s := text[i..];
    assert s[j - i..] == text[j..];
    assert s[..j - i] == text[i..j];
    match TokensOf(text[j..])
    case Ok(rest) => assert had + ([text[i..j]] + rest) == had + [text[i..j]] + rest;
    case Err(_) =>
  }

  lemma Failing(text: string, i: nat, had: seq<string>)
    requires i < |text| && Next(text[i..]).Fail?
    ensures Prepend(had, TokensOf(text[i..])) == Err(Next(text[i..]).fault)
  {
    hide Next;
  }

  lemma NoTokens()
    ensures TokensOf([]) == Ok([])
  {
  }

  // ----- A token read again, alone or before a space -----

  lemma {:induction false} WordRunAgain(s: string, tail: string)
    requires tail == [] || !IsWord(tail[0])
    ensures WordRun(s[..WordRun(s)] + tail) == WordRun(s)
  {
    var w := WordRun(s);
    var again := s[..w] + tail;
    if w > 0 {
      WordRunAgain(s[1..], tail);
      assert again[1..] == s[1..][..w - 1] + tail;
      assert again[0] == s[0];
    }
  }

  lemma {:induction false} QuotedAgain(s: string, quote: char, tail: string)
    requires Quoted(s, quote).Some?
    requires tail == [] || tail[0] != quote
    ensures Quoted(s[..Quoted(s, quote).value] + tail, quote) == Quoted(s, quote)
    decreases |s|
  {
    hide Quoted;
    NothingIsQuoted(quote);
    var n := Quoted(s, quote).value;
    var again := s[..n] + tail;
    assert s[0..] == s && again[0..] == again;
    QuoteTurn(s, 0, quote);
    QuoteTurn(again, 0, quote);
    assert again[0] == s[0];
    if s[0] == '\\' || (s[0] == quote && |s| > 1 && s[1] == quote) {
      QuotedAgain(s[2..], quote, tail);
      assert again[1] == s[1];
      assert again[2..] == s[2..][..n - 2] + tail;
    } else if s[0] != quote {
      QuotedAgain(s[1..], quote, tail);
      assert again[1..] == s[1..][..n - 1] + tail;
    }
  }

  lemma {:induction false} FindAgain(s: string, d: string, tail: string)
    requires Find(s, d).Some?
    ensures Find(s[..Find(s, d).value + |d|] + tail, d) == Find(s, d)
  {
    var k := Find(s, d).value;
    var again := s[..k + |d|] + tail;
    if d <= s {
      assert again[..|d|] == d;
    } else {
      FindAgain(s[1..], d, tail);
      assert again[1..] == s[1..][..k - 1 + |d|] + tail;
      assert s[..|d|] == again[..|d|];
    }
  }

  lemma DelimiterAgain(s: string, m: nat, tail: string)
    requires Delimiter(s).Some? && Delimiter(s).value <= m <= |s|
    ensures Delimiter(s[..m] + tail) == Delimiter(s)
  {
    var d := Delimiter(s).value;
    var again := s[..m] + tail;
    assert again[0] == s[0] && again[1] == s[1];
    if s[1] != '$' {
      var w := WordRun(s[1..]);
      var rest := again[d - 1..];
      assert rest[0] == '$';
      WordRunAgain(s[1..], rest);
      assert again[1..] == s[1..][..w] + rest;
    }
  }

  /** The tail a token may be followed by: nothing, or layout. */
  predicate Apart(tail: string) {
    tail == [] || IsSpace(tail[0])
  }

  lemma SpaceIsNothingElse(c: char)
    requires IsSpace(c)
    ensures !IsWord(c) && c !in "'\"$-/*"
  {
  }

  lemma LoneSign(s: string, tail: string)
    requires s != [] && Next(s) == Take(1) && Apart(tail)
    requires s[0] !in "'\"" && !IsWord(s[0]) && Delimiter(s).None?
    ensures Next([s[0]] + tail) == Take(1)
  {
    var again := [s[0]] + tail;
    if tail != [] {
      SpaceIsNothingElse(tail[0]);
      assert again[1] == tail[0];
    }
  }

  lemma QuoteAgain(s: string, tail: string)
    requires s != [] && Next(s).Take? && Apart(tail) && s[0] in "'\""
    ensures Next(s[..Next(s).n] + tail) == Next(s)
  {
    hide IsSpace, Quoted, Delimiter, WordRun, LineComment, BlockComment, Find, IsWord;
    var n := Next(s).n;
    var again := s[..n] + tail;
    assert again[0] == s[0];
    if tail != [] {
      SpaceIsNothingElse(tail[0]);
    }
    QuotedAgain(s[1..], s[0], tail);
    assert again[1..] == s[1..][..n - 1] + tail;
  }

  lemma DollarAgain(s: string, tail: string)
    requires s != [] && Next(s).Take? && Delimiter(s).Some?
    ensures Next(s[..Next(s).n] + tail) == Next(s)
  {
    hide IsSpace, Quoted, Delimiter, WordRun, LineComment, BlockComment, Find, IsWord;
    var n := Next(s).n;
    var d := Delimiter(s).value;
    var again := s[..n] + tail;
    assert again[0] == s[0] == '$';
    DelimiterAgain(s, n, tail);
    FindAgain(s[d..], s[..d], tail);
    assert again[d..] == s[d..][..n - d] + tail;
    assert again[..d] == s[..d];
  }

  lemma WordAgain(s: string, tail: string)
    requires s != [] && Next(s).Take? && Apart(tail) && IsWord(s[0])
    ensures Next(s[..Next(s).n] + tail) == Next(s)
  {
    hide Quoted, LineComment, BlockComment, Find;
    var n := Next(s).n;
    var again := s[..n] + tail;
    assert again[0] == s[0];
    if tail != [] {
      SpaceIsNothingElse(tail[0]);
    }
    WordRunAgain(s, tail);
  }

  /** A token stands by itself: cut out and set before layout, it is read as the same token. */
  lemma TokenStands(s: string, tail: string)
    requires s != [] && Next(s).Take? && Apart(tail)
    ensures Next(s[..Next(s).n] + tail) == Next(s)
  {
    hide IsSpace, Quoted, Delimiter, WordRun, LineComment, BlockComment, Find, IsWord;
    if s[0] in "'\"" {
      QuoteAgain(s, tail);
    } else if Delimiter(s).Some? {
      DollarAgain(s, tail);
    } else if IsWord(s[0]) {
      WordAgain(s, tail);
    } else {
      LoneSign(s, tail);
      assert s[..1] == [s[0]];
    }
  }

  // ----- Printing -----

  /** A string the lexer reads as one token wherever layout follows it. */
  ghost predicate Token(t: string) {
    t != [] && forall tail | Apart(tail) :: Next(t + tail) == Take(|t|)
  }

  lemma {:induction false} TokensAreTokens(s: string)
    ensures TokensOf(s).Ok? ==> forall t :: t in TokensOf(s).value ==> Token(t)
    decreases |s|
  {
    hide Next;
    if s != [] && !Next(s).Fail? {
      var n := Next(s).n;
      TokensAreTokens(s[n..]);
      if Next(s).Take? {
        forall tail | Apart(tail)
          ensures Next(s[..n] + tail) == Take(n)
        {
          TokenStands(s, tail);
        }
      }
    }
  }

  lemma ReadOne(t: string, tail: string)
    requires Token(t) && Apart(tail)
    ensures TokensOf(t + tail) == Prepend([t], TokensOf(tail))
  {
    hide Next;
    assert (t + tail)[..|t|] == t;
    assert (t + tail)[|t|..] == tail;
  }

  /** The tokens, one space apart. */
  function Printed(tokens: seq<string>): string {
    Join(tokens, ' ')
  }

  lemma SkipSpace(s: string)
    ensures TokensOf(" " + s) == TokensOf(s)
  {
    assert (" " + s)[1..] == s;
  }

  lemma {:induction false} PrintedReadsBack(tokens: seq<string>)
    requires forall t :: t in tokens ==> Token(t)
    ensures TokensOf(Printed(tokens)) == Ok(tokens)
  {
    hide TokensOf, Token;
    NoTokens();
    if tokens != [] {
      assert tokens[0] in tokens;
      assert tokens == [tokens[0]] + tokens[1..];
      var rest := Printed(tokens[1..]);
      if |tokens| == 1 {
        ReadOne(tokens[0], "");
        assert tokens[0] + "" == tokens[0];
      } else {
        assert Printed(tokens) == tokens[0] + (" " + rest);
        ReadOne(tokens[0], " " + rest);
        SkipSpace(rest);
        PrintedReadsBack(tokens[1..]);
      }
    }
  }

  /** Whatever a text was, its tokens printed one space apart lex to the same tokens. */
  lemma RelexIsIdentity(s: string)
    ensures TokensOf(s).Ok? ==> TokensOf(Printed(TokensOf(s).value)) == TokensOf(s)
  {
    if TokensOf(s).Ok? {
      TokensAreTokens(s);
      PrintedReadsBack(TokensOf(s).value);
    }
  }

  // ----- Layout -----

  /** Comments and white space only. */
  predicate Blank(s: string) {
    TokensOf(s) == Ok([])
  }

  lemma {:induction false} BlockCommentExtends(s: string, depth: nat, tail: string)
    requires BlockComment(s, depth).Some?
    ensures BlockComment(s + tail, depth) == BlockComment(s, depth)
    decreases |s|
  {
    if depth > 0 {
      var all := s + tail;
      assert all[0] == s[0];
      if |s| >= 2 {
        assert all[..2] == s[..2];
        assert all[2..] == s[2..] + tail;
      }
      assert all[1..] == s[1..] + tail;
      if "/*" <= s {
        assert s[..2] == "/*";
        BlockCommentExtends(s[2..], depth + 1, tail);
      } else if "*/" <= s {
        assert s[..2] == "*/";
        BlockCommentExtends(s[2..], depth - 1, tail);
      } else {
        assert |s| > 1;
        assert "/*" <= all <==> all[..2] == "/*";
        assert "*/" <= all <==> all[..2] == "*/";
        BlockCommentExtends(s[1..], depth, tail);
      }
    }
  }

  /** What a skip spans is also skipped before more text, once its line has ended. */
  lemma SkipExtends(s: string, tail: string)
    requires s != [] && Next(s).Skip?
    requires tail == [] || tail[0] == '\n'
    ensures Next(s + tail).Skip?
    ensures TokensOf((s + tail)[Next(s + tail).n..]) == TokensOf(s[Next(s).n..] + tail)
  {
    hide TokensOf, IsSpace, BlockComment, LineComment, Quoted, Delimiter, WordRun, Find, IsWord;
    var all := s + tail;
    var n := Next(s).n;
    assert all[0] == s[0];
    if IsSpace(s[0]) {
      assert all[1..] == s[1..] + tail;
    } else if "--" <= s {
      assert all[..2] == s[..2] == "--";
      LineCommentExtends(s, tail);
    } else {
      assert all[..2] == s[..2] == "/*";
      BlockCommentExtends(s[2..], 1, tail);
      assert all[2..] == s[2..] + tail;
      assert all[n..] == s[n..] + tail;
    }
  }

  lemma LineCommentExtends(s: string, tail: string)
    requires s != []
    requires tail == [] || tail[0] == '\n'
    ensures TokensOf((s + tail)[LineComment(s + tail)..]) == TokensOf(s[LineComment(s)..] + tail)
  {
    hide Next;
    var all := s + tail;
    var i := FirstIndex(s, '\n');
    assert forall j :: 0 <= j < |s| ==> all[j] == s[j];
    if i < |s| {
      assert FirstIndex(all, '\n') == i;
      assert all[i + 1..] == s[i + 1..] + tail;
    } else if tail == [] {
      assert all == s;
    } else {
      assert all[|s|] == '\n';
      assert FirstIndex(all, '\n') == |s|;
      assert all[|s| + 1..] == tail[1..];
      assert s[|s|..] + tail == tail;
      NewlineIsSkipped(tail);
    }
  }

  lemma NewlineIsSkipped(tail: string)
    requires tail != [] && tail[0] == '\n'
    ensures TokensOf(tail) == TokensOf(tail[1..])
  {
  }

  /** Comments and white space put before a line change nothing on it. */
  lemma {:induction false} BlankIsIgnored(gap: string, rest: string)
    requires Blank(gap)
    ensures TokensOf(gap + "\n" + rest) == TokensOf(rest)
    decreases |gap|
  {
    hide Next;
    var tail := "\n" + rest;
    var all := gap + tail;
    assert gap + "\n" + rest == all;
    if gap == [] {
      assert all == tail;
      NewlineIsSkipped(tail);
      assert tail[1..] == rest;
    } else {
      var n := Next(gap).n;
      SkipExtends(gap, tail);
      BlankIsIgnored(gap[n..], rest);
      assert gap[n..] + "\n" + rest == gap[n..] + tail;
    }
  }

  /** The same tokens laid out with any comments between them. */
  function LaidOut(tokens: seq<string>, gaps: seq<string>): string
    requires |gaps| == |tokens|
  {
    if tokens == [] then "" else tokens[0] + " " + gaps[0] + "\n" + LaidOut(tokens[1..], gaps[1..])
  }

  lemma {:induction false} LayoutReadsBack(tokens: seq<string>, gaps: seq<string>)
    requires |gaps| == |tokens|
    requires forall t :: t in tokens ==> Token(t)
    requires forall g :: g in gaps ==> Blank(g)
    ensures TokensOf(LaidOut(tokens, gaps)) == Ok(tokens)
  {
    hide Blank, Token, TokensOf;
    NoTokens();
    if tokens != [] {
      var rest := LaidOut(tokens[1..], gaps[1..]);
      var after := gaps[0] + "\n" + rest;
      assert tokens[0] in tokens && gaps[0] in gaps;
      assert LaidOut(tokens, gaps) == tokens[0] + (" " + after);
      ReadOne(tokens[0], " " + after);
      SkipSpace(after);
      BlankIsIgnored(gaps[0], rest);
      LayoutReadsBack(tokens[1..], gaps[1..]);
      assert tokens == [tokens[0]] + tokens[1..];
    }
  }

  /** Any two layouts of a text's tokens, with any comments, compare as that text does. */
  lemma LayoutDoesNotMatter(s: string, gaps: seq<string>)
    requires TokensOf(s).Ok? && |gaps| == |TokensOf(s).value|
    requires forall g :: g in gaps ==> Blank(g)
    ensures TokensOf(LaidOut(TokensOf(s).value, gaps)) == TokensOf(s)
  {
    TokensAreTokens(s);
    LayoutReadsBack(TokensOf(s).value, gaps);
  }

  // ----- Nothing is dropped -----

  /** Gaps and tokens in turn, ending with a gap. */
  function Woven(gaps: seq<string>, tokens: seq<string>): string
    requires |gaps| == |tokens| + 1
  {
    if tokens == [] then gaps[0] else gaps[0] + tokens[0] + Woven(gaps[1..], tokens[1..])
  }

  lemma {:induction false} BlockCommentCut(s: string, depth: nat, m: nat)
    requires BlockComment(s, depth).Some? && BlockComment(s, depth).value <= m <= |s|
    ensures BlockComment(s[..m], depth) == BlockComment(s, depth)
    decreases |s|
  {
    hide BlockComment;
    CommentEnds(s, depth);
    CommentEnds(s[..m], depth);
    if depth > 0 {
      var cut := s[..m];
      assert s[0..] == s && cut[0..] == cut;
      CommentTurn(s, 0, depth);
      CommentTurn(cut, 0, depth);
      assert cut[0] == s[0];
      if "/*" <= s {
        assert cut[..2] == s[..2] == "/*";
        BlockCommentCut(s[2..], depth + 1, m - 2);
        assert cut[2..] == s[2..][..m - 2];
      } else if "*/" <= s {
        assert cut[..2] == s[..2] == "*/";
        BlockCommentCut(s[2..], depth - 1, m - 2);
        assert cut[2..] == s[2..][..m - 2];
      } else {
        BlockCommentCut(s[1..], depth, m - 1);
        assert cut[1..] == s[1..][..m - 1];
        if |cut| >= 2 {
          assert cut[..2] == s[..2];
          assert "/*" <= cut <==> cut[..2] == "/*";
          assert "*/" <= cut <==> cut[..2] == "*/";
        }
      }
    }
  }

  /** A skip is still a skip when the text is cut anywhere after it. */
  lemma SkipCut(s: string, m: nat)
    requires s != [] && Next(s).Skip? && Next(s).n <= m <= |s|
    ensures Next(s[..m]) == Next(s)
  {
    var cut := s[..m];
    assert cut[0] == s[0];
    if IsSpace(s[0]) {
    } else if "--" <= s {
      assert s[..2] == "--" && s[1] == '-' && s[0] == '-';
      assert LineComment(s) >= 2;
      assert cut[..2] == s[..2];
      assert FirstIndex(s, '\n') < |s| ==> FirstIndex(cut, '\n') == FirstIndex(s, '\n');
    } else {
      assert cut[..2] == s[..2] == "/*";
      BlockCommentCut(s[2..], 1, m - 2);
      assert cut[2..] == s[2..][..m - 2];
    }
  }

  lemma BlankAfterSkip(s: string, gap: string, n: nat)
    requires s != [] && Next(s) == Skip(n)
    requires gap <= s[n..] && Blank(gap)
    ensures Blank(s[..n] + gap)
  {
    hide Next;
    var all := s[..n] + gap;
    assert all == s[..n + |gap|];
    SkipCut(s, n + |gap|);
    assert all[n..] == gap;
  }

  /** The gaps the lexer passes over. */
  function Gaps(s: string): (gaps: seq<string>)
    requires TokensOf(s).Ok?
    ensures |gaps| == |TokensOf(s).value| + 1
    decreases |s|
  {
    if s == [] then [""]
    else
      match Next(s)
      case Skip(n) => var rest := Gaps(s[n..]); [s[..n] + rest[0]] + rest[1..]
      case Take(n) => [""] + Gaps(s[n..])
  }

  /** Every character is in a token, or in a gap that holds nothing but comments and white space. */
  lemma {:induction false} NothingIsDropped(s: string)
    requires TokensOf(s).Ok?
    ensures Woven(Gaps(s), TokensOf(s).value) == s
    ensures forall g :: g in Gaps(s) ==> Blank(g)
    decreases |s|
  {
    hide Next, Blank, Woven, Gaps, TokensOf;
    if s == [] {
      WovenNothing();
    } else {
      Unfolded(s);
      var n := Next(s).n;
      NothingIsDropped(s[n..]);
      if Next(s).Skip? {
        DropSkipped(s, n);
      } else {
        DropTaken(s, n);
      }
    }
  }

  lemma Unfolded(s: string)
    requires s != [] && TokensOf(s).Ok?
    ensures !Next(s).Fail? && TokensOf(s[Next(s).n..]).Ok?
    ensures var n, rest := Next(s).n, s[Next(s).n..];
      if Next(s).Skip?
      then TokensOf(s) == TokensOf(rest) && Gaps(s) == [s[..n] + Gaps(rest)[0]] + Gaps(rest)[1..]
      else TokensOf(s).value == [s[..n]] + TokensOf(rest).value && Gaps(s) == [""] + Gaps(rest)
  {
    hide Next;
  }

  lemma DropSkipped(s: string, n: nat)
    requires s != [] && Next(s) == Skip(n) && TokensOf(s).Ok? && TokensOf(s[n..]).Ok?
    requires Woven(Gaps(s[n..]), TokensOf(s[n..]).value) == s[n..]
    requires forall g :: g in Gaps(s[n..]) ==> Blank(g)
    ensures Woven(Gaps(s), TokensOf(s).value) == s
    ensures forall g :: g in Gaps(s) ==> Blank(g)
  {
    hide Next, Blank, Woven, Gaps, TokensOf;
    Unfolded(s);
    var rest := Gaps(s[n..]);
    var tokens := TokensOf(s[n..]).value;
    assert rest[0] in rest;
    WovenStarts(rest, tokens);
    BlankAfterSkip(s, rest[0], n);
    WovenPrefix(s[..n], rest, tokens);
    assert s == s[..n] + s[n..];
  }

  lemma DropTaken(s: string, n: nat)
    requires s != [] && Next(s) == Take(n) && TokensOf(s).Ok? && TokensOf(s[n..]).Ok?
    requires Woven(Gaps(s[n..]), TokensOf(s[n..]).value) == s[n..]
    requires forall g :: g in Gaps(s[n..]) ==> Blank(g)
    ensures Woven(Gaps(s), TokensOf(s).value) == s
    ensures forall g :: g in Gaps(s) ==> Blank(g)
  {
    hide Next, Blank, Gaps, TokensOf;
    Unfolded(s);
    BlankNothing();
    var rest := Gaps(s[n..]);
    var tokens := TokensOf(s[n..]).value;
    assert ([""] + rest)[1..] == rest;
    assert ([s[..n]] + tokens)[1..] == tokens;
    assert s == s[..n] + s[n..];
  }

  lemma WovenNothing()
    ensures Woven(Gaps(""), TokensOf("").value) == ""
    ensures forall g :: g in Gaps("") ==> Blank(g)
  {
    BlankNothing();
  }

  lemma BlankNothing()
    ensures Blank("")
  {
  }

  lemma WovenStarts(gaps: seq<string>, tokens: seq<string>)
    requires |gaps| == |tokens| + 1
    ensures gaps[0] <= Woven(gaps, tokens)
  {
  }

  lemma WovenPrefix(a: string, gaps: seq<string>, tokens: seq<string>)
    requires |gaps| == |tokens| + 1
    ensures Woven([a + gaps[0]] + gaps[1..], tokens) == a + Woven(gaps, tokens)
  {
    var more := [a + gaps[0]] + gaps[1..];
    assert more[1..] == gaps[1..];
    if tokens != [] {
      var rest := Woven(gaps[1..], tokens[1..]);
      assert a + gaps[0] + tokens[0] + rest == a + (gaps[0] + tokens[0] + rest);
    }
  }
}
