/**
 * Where a document's `---` frontmatter block ends: the parser's splitter, the
 * root index reader and the web page stripper, each a loop of its own, and the
 * renderer whose output they read. Texts are byte strings.
 */
module Frontmatter {
  import opened Text

  const BOM := "\U{EF}\U{BB}\U{BF}"
  const FENCE := "---"

  // ----- Lines -----

  /** Where the line at `at` ends, its newline included. */
  function LineEnd(s: string, at: nat): (end: nat)
    requires at < |s|
    ensures at < end <= |s|
    ensures end == |s| || s[end - 1] == '\n'
    ensures forall j :: at <= j < end - 1 ==> s[j] != '\n'
    decreases |s| - at
  {
    if s[at] == '\n' || at + 1 == |s| then at + 1 else LineEnd(s, at + 1)
  }

  /** `trim_end_matches(['\r', '\n'])`. */
  function TrimEol(line: string): (t: string)
    ensures t <= line
    ensures t == [] || t[|t| - 1] !in "\r\n"
  {
    if line != [] && line[|line| - 1] in "\r\n" then TrimEol(line[..|line| - 1]) else line
  }

  /** A line begins here, or the text ends. */
  predicate Boundary(s: string, at: int) {
    0 <= at <= |s| && (at == 0 || at == |s| || s[at - 1] == '\n')
  }

  /** The line that begins here reads `---`. */
  predicate Fence(s: string, at: int) {
    Boundary(s, at) && at < |s| && TrimEol(s[at..LineEnd(s, at)]) == FENCE
  }

  ghost predicate NoFence(s: string, from: int, to: int) {
    forall k :: from <= k < to ==> !Fence(s, k)
  }

  ghost predicate FirstFence(s: string, at: int) {
    Fence(s, at) && NoFence(s, 0, at)
  }

  // ----- The split -----

  datatype Scanned = Closed(yamlEnd: nat, bodyStart: nat) | Exceeded(consumed: nat) | Ended

  /** Line by line from `at`: the closing fence, or the first line end past the limit. */
  function Scan(text: string, at: nat, maxBytes: nat): (r: Scanned)
    requires Boundary(text, at)
    ensures r.Closed? ==> at <= r.yamlEnd < r.bodyStart <= |text|
    decreases |text| - at
  {
    if at == |text| then Ended
    else
      var end := LineEnd(text, at);
      if TrimEol(text[at..end]) == FENCE then Closed(at, end)
      else if end > maxBytes then Exceeded(end)
      else Scan(text, end, maxBytes)
  }

  lemma ScanTurn(text: string, at: nat, maxBytes: nat)
    requires Boundary(text, at)
    ensures at == |text| ==> Scan(text, at, maxBytes) == Ended
    ensures at < |text| ==>
      var end := LineEnd(text, at);
      && Boundary(text, end)
      && Scan(text, at, maxBytes) ==
           if TrimEol(text[at..end]) == FENCE then Closed(at, end)
           else if end > maxBytes then Exceeded(end)
           else Scan(text, end, maxBytes)
  {
    hide TrimEol, LineEnd;
  }

  /** What a scan from `at` says about the lines from there on. */
  ghost predicate Reports(text: string, at: nat, maxBytes: nat, r: Scanned) {
    match r
    case Closed(yamlEnd, bodyStart) =>
      && at <= yamlEnd && Fence(text, yamlEnd) && NoFence(text, at, yamlEnd)
      && bodyStart == LineEnd(text, yamlEnd)
      && (yamlEnd == at || yamlEnd <= maxBytes)
    case Exceeded(consumed) =>
      && at < consumed && maxBytes < consumed && Boundary(text, consumed)
      && NoFence(text, at, consumed)
      && (forall k :: at < k < consumed && Boundary(text, k) ==> k <= maxBytes)
    case Ended => NoFence(text, at, |text|) && (at == |text| || |text| <= maxBytes)
  }

  /** Inside a line nothing begins. */
  lemma InsideALine(text: string, at: nat)
    requires at < |text|
    ensures Boundary(text, LineEnd(text, at))
    ensures forall k :: at < k < LineEnd(text, at) ==> !Boundary(text, k)
  {
  }

  lemma NoFenceThroughALine(text: string, at: nat)
    requires at < |text| && !Fence(text, at)
    ensures NoFence(text, at, LineEnd(text, at))
  {
    hide TrimEol, LineEnd;
    InsideALine(text, at);
  }

  lemma {:induction false} ScanReports(text: string, at: nat, maxBytes: nat)
    requires Boundary(text, at)
    ensures Reports(text, at, maxBytes, Scan(text, at, maxBytes))
    decreases |text| - at
  {
    hide TrimEol, LineEnd;
    if at < |text| {
      var end := LineEnd(text, at);
      InsideALine(text, at);
      if !Fence(text, at) {
        NoFenceThroughALine(text, at);
        if end <= maxBytes {
          ScanReports(text, end, maxBytes);
        }
      }
    }
  }

  datatype Result =
    | Ok(yaml: string, body: string)
    | MissingFrontmatter
    | TooLarge(actual: nat)
    | Unterminated

  /** What follows the opening delimiter. */
  function Opening(source: string): Option<string> {
    if "---\n" <= source then Some(source[4..])
    else if "---\r\n" <= source then Some(source[5..])
    else None
  }

  function SplitOf(source: string, maxBytes: nat): Result {
    match Opening(source)
    case None => MissingFrontmatter
    case Some(text) =>
      match Scan(text, 0, maxBytes)
      case Exceeded(consumed) => TooLarge(consumed)
      case Ended => Unterminated
      case Closed(yamlEnd, bodyStart) =>
        if yamlEnd > maxBytes then TooLarge(yamlEnd)
        else Ok(text[..yamlEnd], text[bodyStart..])
  }

  /** The answer in terms of the text alone, without the order it is read in. */
  ghost predicate Describes(source: string, maxBytes: nat, r: Result) {
    match Opening(source)
    case None => r == MissingFrontmatter
    case Some(text) =>
      match r
      case MissingFrontmatter => false
      case Ok(yaml, body) =>
        && |yaml| <= maxBytes && FirstFence(text, |yaml|)
        && yaml == text[..|yaml|] && body == text[LineEnd(text, |yaml|)..]
      case TooLarge(actual) =>
        && maxBytes < actual && Boundary(text, actual) && NoFence(text, 0, actual)
        && (forall k :: maxBytes < k < actual ==> !Boundary(text, k))
      case Unterminated => |text| <= maxBytes && NoFence(text, 0, |text|)
  }

  lemma DescribesOne(source: string, maxBytes: nat, p: Result, q: Result)
    requires Describes(source, maxBytes, p) && Describes(source, maxBytes, q)
    ensures p == q
  {
    hide Fence;
  }

  lemma BoundaryAtStart(text: string)
    ensures Boundary(text, 0) && Boundary(text, |text|)
  {
  }

  /** Exactly one of the four answers describes a source, and it is the one given. */
  lemma SplitMeans(source: string, maxBytes: nat, r: Result)
    ensures SplitOf(source, maxBytes) == r <==> Describes(source, maxBytes, r)
  {
    hide Fence, Opening, Scan, Boundary;
    if Opening(source).Some? {
      BoundaryAtStart(Opening(source).value);
      ScanReports(Opening(source).value, 0, maxBytes);
    }
    assert Describes(source, maxBytes, SplitOf(source, maxBytes));
    if Describes(source, maxBytes, r) {
      DescribesOne(source, maxBytes, r, SplitOf(source, maxBytes));
    }
  }

  /** The second size check can never fire: the loop has already made it. */
  lemma SecondSizeCheckIsDead(text: string, maxBytes: nat)
    ensures var r := Scan(text, 0, maxBytes); r.Closed? ==> r.yamlEnd <= maxBytes
  {
    ScanReports(text, 0, maxBytes);
  }

  /** A limit of the text's own length never refuses on size. */
  lemma OwnLengthIsEnough(source: string)
    ensures !SplitOf(source, |source|).TooLarge?
  {
    SplitMeans(source, |source|, SplitOf(source, |source|));
  }

  /** `frontmatter::split`, as its loop runs. */
  method Split(source: string, maxBytes: nat) returns (r: Result)
    ensures Describes(source, maxBytes, r)
    ensures r == SplitOf(source, maxBytes)
  {
    hide Describes, Opening, TrimEol, LineEnd, Scan, Boundary;
    SplitMeans(source, maxBytes, SplitOf(source, maxBytes));
    var opening := Opening(source);
    if opening == None {
      return MissingFrontmatter;
    }
    var text := opening.value;
    var consumed := 0;
    var close: Option<(nat, nat)> := None;
    BoundaryAtStart(text);
    while consumed < |text|
      invariant consumed <= |text|
      invariant Boundary(text, consumed)
      invariant close == None
      invariant Scan(text, 0, maxBytes) == Scan(text, consumed, maxBytes)
    {
      var end := LineEnd(text, consumed);
      InsideALine(text, consumed);
      ScanTurn(text, consumed, maxBytes);
      if TrimEol(text[consumed..end]) == FENCE {
        close := Some((consumed, end));
        break;
      }
      consumed := end;
      if consumed > maxBytes {
        return TooLarge(consumed);
      }
    }
    if close == None {
      ScanTurn(text, consumed, maxBytes);
      return Unterminated;
    }
    var (yamlEnd, bodyStart) := close.value;
    if yamlEnd > maxBytes {
      return TooLarge(yamlEnd);
    }
    return Ok(text[..yamlEnd], text[bodyStart..]);
  }

  // ----- The other two readers -----

  function WithoutBom(source: string): string {
    if BOM <= source then source[|BOM|..] else source
  }

  /** The block the root index reader hands to YAML; no second size check here. */
  method IndexBlock(source: string, maxBytes: nat) returns (r: Option<string>)
    ensures r == match SplitOf(WithoutBom(source), maxBytes) case Ok(yaml, _) => Some(yaml) case _ => None
  {
    hide TrimEol, Opening, WithoutBom;
    var opening := Opening(WithoutBom(source));
    if opening == None {
      return None;
    }
    var text := opening.value;
    SecondSizeCheckIsDead(text, maxBytes);
    var consumed := 0;
    while consumed < |text|
      invariant Boundary(text, consumed)
      invariant Scan(text, 0, maxBytes) == Scan(text, consumed, maxBytes)
    {
      var end := LineEnd(text, consumed);
      if TrimEol(text[consumed..end]) == FENCE {
        return Some(text[..consumed]);
      }
      consumed := end;
      if consumed > maxBytes {
        return None;
      }
    }
    return None;
  }

  /** The web page's own reading of the opening delimiter. */
  function PageOpening(source: string): Option<string> {
    if !(FENCE <= source) then None
    else
      var after := source[|FENCE|..];
      var after := if "\r" <= after then after[1..] else after;
      if "\n" <= after then Some(after[1..]) else None
  }

  lemma PrefixExtends(p: string, c: char, s: string)
    ensures p + [c] <= s <==> p <= s && |s| > |p| && s[|p|] == c
  {
    if p <= s && |s| > |p| && s[|p|] == c {
      assert s[..|p| + 1] == p + [c];
    }
  }

  lemma OpeningsAgree(source: string)
    ensures PageOpening(source) == Opening(source)
  {
    PrefixExtends(FENCE, '\n', source);
    PrefixExtends(FENCE, '\r', source);
    PrefixExtends(FENCE + "\r", '\n', source);
    assert FENCE + ['\n'] == "---\n" && FENCE + ['\r'] + ['\n'] == "---\r\n";
  }

  /** What a page shows of a file: everything after the block, or the file as it is. */
  function PageBody(source: string): string {
    match SplitOf(WithoutBom(source), |source|)
    case Ok(_, body) => body
    case _ => source
  }

  /** `strip_frontmatter`: no limit, and the untouched source when no block closes. */
  method StripFrontmatter(source: string) returns (body: string)
    ensures body == PageBody(source)
  {
    hide TrimEol, Fence;
    var rest := WithoutBom(source);
    OpeningsAgree(rest);
    OwnLengthIsEnough(rest);
    var opening := PageOpening(rest);
    if opening == None {
      return source;
    }
    var text := opening.value;
    var offset := 0;
    while offset < |text|
      invariant Boundary(text, offset)
      invariant Scan(text, 0, |source|) == Scan(text, offset, |source|)
    {
      var end := LineEnd(text, offset);
      if TrimEol(text[offset..end]) == FENCE {
        return text[end..];
      }
      offset := end;
    }
    return source;
  }

  lemma OpeningIsShorter(source: string)
    ensures Opening(source).Some? ==> |Opening(source).value| <= |source|
  {
  }

  /** Whatever limit the parser was given, a page shows the body the parser found. */
  lemma PagesShowTheParsedBody(source: string, maxBytes: nat)
    ensures var r := SplitOf(WithoutBom(source), maxBytes);
      r.Ok? ==> PageBody(source) == r.body
  {
    hide Fence, Opening;
    var rest := WithoutBom(source);
    var r := SplitOf(rest, maxBytes);
    SplitMeans(rest, maxBytes, r);
    if r.Ok? {
      OpeningIsShorter(rest);
      SplitMeans(rest, |source|, r);
    }
  }

  // ----- Rendering -----

  /** The block `render` writes: a newline is added unless there is one or nothing at all. */
  function Block(yaml: string): (block: string)
    ensures block == [] || block[|block| - 1] == '\n'
  {
    if yaml != [] && yaml[|yaml| - 1] != '\n' then yaml + "\n" else yaml
  }

  function RenderText(yaml: string, body: string): string {
    "---\n" + Block(yaml) + "---\n" + body
  }

  /** Lines of a text that ends in a newline are the same lines in anything it begins. */
  lemma {:induction false} LineEndInPrefix(a: string, b: string, at: nat)
    requires at < |a| && a[|a| - 1] == '\n'
    ensures LineEnd(a + b, at) == LineEnd(a, at)
    decreases |a| - at
  {
    if a[at] != '\n' && at + 1 < |a| {
      LineEndInPrefix(a, b, at + 1);
    }
  }

  lemma FenceInPrefix(a: string, b: string, at: nat)
    requires at < |a| && a[|a| - 1] == '\n'
    ensures Fence(a + b, at) == Fence(a, at)
  {
    LineEndInPrefix(a, b, at);
    assert (a + b)[at..LineEnd(a, at)] == a[at..LineEnd(a, at)];
  }

  lemma NoFenceInPrefix(a: string, b: string)
    requires a == [] || a[|a| - 1] == '\n'
    ensures NoFence(a + b, 0, |a|) == NoFence(a, 0, |a|)
  {
    hide Fence;
    forall k | 0 <= k < |a|
      ensures Fence(a + b, k) == Fence(a, k)
    {
      FenceInPrefix(a, b, k);
    }
  }

  lemma LineEndIs(s: string, at: nat, line: string)
    requires line != [] && at + |line| <= |s| && s[at..at + |line|] == line
    requires line[|line| - 1] == '\n' && '\n' !in line[..|line| - 1]
    ensures LineEnd(s, at) == at + |line|
  {
    forall j | at <= j < at + |line|
      ensures s[j] == line[j - at]
    {
      assert s[at..at + |line|][j - at] == s[j];
    }
    assert s[at + |line| - 1] == '\n';
  }

  lemma FenceReads()
    ensures TrimEol("---\n") == FENCE
  {
    assert "---\n"[..3] == FENCE;
    assert TrimEol(FENCE) == FENCE;
  }

  lemma LineInPlace(before: string, line: string, after: string)
    requires before == [] || before[|before| - 1] == '\n'
    requires line != [] && line[|line| - 1] == '\n' && '\n' !in line[..|line| - 1]
    requires TrimEol(line) == FENCE
    ensures var text := before + line + after;
      && Fence(text, |before|)
      && LineEnd(text, |before|) == |before| + |line|
      && text[|before| + |line|..] == after
  {
    hide TrimEol, LineEnd;
    var text := before + line + after;
    var n := |before|;
    assert text[n..n + |line|] == line;
    LineEndIs(text, n, line);
    assert n == 0 || text[n - 1] == before[n - 1];
  }

  lemma WrittenFence(block: string, body: string)
    requires block == [] || block[|block| - 1] == '\n'
    ensures var text := block + "---\n" + body;
      && Fence(text, |block|) && LineEnd(text, |block|) == |block| + 4 && text[|block| + 4..] == body
  {
    hide TrimEol, LineEnd, Fence;
    FenceReads();
    LineInPlace(block, "---\n", body);
  }

  lemma RenderOpens(yaml: string, body: string)
    ensures Opening(RenderText(yaml, body)) == Some(Block(yaml) + "---\n" + body)
  {
    var s := RenderText(yaml, body);
    assert s[..4] == "---\n";
    assert s[4..] == Block(yaml) + "---\n" + body;
  }

  /** A rendered block splits back exactly when it fits and none of its own lines is a fence. */
  lemma RenderThenSplit(yaml: string, body: string, maxBytes: nat)
    ensures SplitOf(RenderText(yaml, body), maxBytes) == Ok(Block(yaml), body)
       <==> |Block(yaml)| <= maxBytes && NoFence(Block(yaml), 0, |Block(yaml)|)
  {
    hide Fence, Opening, Block, RenderText, TrimEol, LineEnd;
    var block := Block(yaml);
    var text := block + "---\n" + body;
    RenderOpens(yaml, body);
    WrittenFence(block, body);
    NoFenceInPrefix(block, "---\n" + body);
    assert text == block + ("---\n" + body);
    assert text[..|block|] == block;
    SplitMeans(RenderText(yaml, body), maxBytes, Ok(block, body));
  }

  /** A rendered text has no byte order mark. */
  lemma RenderHasNoMark(yaml: string, body: string)
    ensures WithoutBom(RenderText(yaml, body)) == RenderText(yaml, body)
  {
    assert RenderText(yaml, body)[0] == '-';
  }

  /** A rendered block without a fence that splits at all fits the limit. */
  lemma RenderedBlockFits(yaml: string, body: string, maxBytes: nat)
    requires SplitOf(RenderText(yaml, body), maxBytes).Ok? && NoFence(Block(yaml), 0, |Block(yaml)|)
    ensures |Block(yaml)| <= maxBytes
  {
    hide Fence, Opening, Block, RenderText, TrimEol, LineEnd;
    var block := Block(yaml);
    var text := block + "---\n" + body;
    RenderOpens(yaml, body);
    WrittenFence(block, body);
    NoFenceInPrefix(block, "---\n" + body);
    assert text == block + ("---\n" + body);
    SplitMeans(RenderText(yaml, body), maxBytes, SplitOf(RenderText(yaml, body), maxBytes));
  }

  /** A block that holds a fence is cut at it, and what follows lands in the body. */
  lemma EmbeddedFenceCutsTheBlock(yaml: string, body: string, at: nat, maxBytes: nat)
    requires FirstFence(Block(yaml), at) && at <= maxBytes
    ensures SplitOf(RenderText(yaml, body), maxBytes)
         == Ok(Block(yaml)[..at], Block(yaml)[LineEnd(Block(yaml), at)..] + "---\n" + body)
  {
    hide Fence, Opening, Block, RenderText, TrimEol, LineEnd;
    var block := Block(yaml);
    var rest := "---\n" + body;
    var text := block + "---\n" + body;
    assert text == block + rest;
    RenderOpens(yaml, body);
    assert at < |block| by { assert Fence(block, at); FenceIsInside(block, at); }
    LineEndInPrefix(block, rest, at);
    forall k | 0 <= k <= at
      ensures Fence(text, k) == Fence(block, k)
    {
      FenceInPrefix(block, rest, k);
    }
    var end := LineEnd(block, at);
    assert text[..at] == block[..at];
    assert text[end..] == block[end..] + "---\n" + body;
    SplitMeans(RenderText(yaml, body), maxBytes, Ok(block[..at], block[end..] + "---\n" + body));
  }

  lemma FenceIsInside(s: string, at: int)
    requires Fence(s, at)
    ensures 0 <= at < |s|
  {
  }

  lemma SplitBlocksAreWhole(source: string, maxBytes: nat)
    ensures var r := SplitOf(source, maxBytes);
      r.Ok? ==> Block(r.yaml) == r.yaml && NoFence(r.yaml, 0, |r.yaml|)
  {
    hide TrimEol, LineEnd, Opening;
    var r := SplitOf(source, maxBytes);
    if r.Ok? {
      SplitMeans(source, maxBytes, r);
      var text := Opening(source).value;
      assert Fence(text, |r.yaml|);
      assert text == r.yaml + text[|r.yaml|..];
      NoFenceInPrefix(r.yaml, text[|r.yaml|..]);
    }
  }

  /** Rendering what was split, and splitting again, changes nothing. */
  lemma SplitThenRender(source: string, maxBytes: nat)
    ensures var r := SplitOf(source, maxBytes);
      r.Ok? ==> SplitOf(RenderText(r.yaml, r.body), maxBytes) == r
  {
    hide Fence, Opening;
    var r := SplitOf(source, maxBytes);
    if r.Ok? {
      SplitMeans(source, maxBytes, r);
      SplitBlocksAreWhole(source, maxBytes);
      RenderThenSplit(r.yaml, r.body, maxBytes);
    }
  }

  // ----- Documents -----

  datatype Yaml<+M> = Mapping(entries: M) | Null | OtherYaml | Malformed

  /** The YAML library: what it writes for a mapping, if it can, and what it reads from a text. */
  datatype Codec<!M> = Codec(empty: M, emit: M -> Option<string>, read: string -> Yaml<M>)

  /** What a mapping is written as, unless it is empty, is not blank and reads back as that mapping. */
  ghost predicate ReadsBack<M>(codec: Codec<M>, m: M) {
    m != codec.empty ==>
      && codec.emit(m).Some? && Trim(codec.emit(m).value) != []
      && codec.read(Block(codec.emit(m).value)) == Mapping(m)
  }

  datatype Document<+M> = Document(frontmatter: M, body: string)

  function YamlOf<M(==)>(codec: Codec<M>, m: M): string {
    if m == codec.empty then ""
    else match codec.emit(m) case Some(text) => text case None => ""
  }

  function Render<M(==)>(codec: Codec<M>, doc: Document<M>): string {
    RenderText(YamlOf(codec, doc.frontmatter), doc.body)
  }

  function Parse<M>(codec: Codec<M>, text: string, maxBytes: nat): Option<Document<M>> {
    match SplitOf(text, maxBytes)
    case Ok(yaml, body) =>
      if Trim(yaml) == [] then Some(Document(codec.empty, body))
      else (match codec.read(yaml)
            case Mapping(m) => Some(Document(m, body))
            case Null => Some(Document(codec.empty, body))
            case _ => None)
    case _ => None
  }

  /** The newline `render` adds does not make a blank text. */
  lemma {:induction false} NotBlankWithNewline(s: string)
    ensures Trim(s) != [] ==> Trim(Block(s)) != []
  {
    hide Trim;
    if Trim(s) != [] && Block(s) != s {
      TrimOfNewline(s);
    }
  }

  lemma BlankMeans(s: string)
    ensures Trim(s) == [] <==> forall c :: c in s ==> IsWhiteSpace(c)
  {
    hide IsWhiteSpace;
    var t := TrimStart(s);
    TrimStartBlank(s);
    TrimEndBlank(t);
    if t != [] {
      assert t[0] in t;
    }
  }

  lemma {:induction false} TrimStartBlank(s: string)
    ensures (forall c :: c in s ==> IsWhiteSpace(c)) <==> TrimStart(s) == []
  {
    if s != [] && IsWhiteSpace(s[0]) {
      TrimStartBlank(s[1..]);
      assert s == [s[0]] + s[1..];
    } else if s != [] {
      assert s[0] in s;
    }
  }

  lemma {:induction false} TrimEndBlank(s: string)
    ensures TrimEnd(s) == [] ==> forall c :: c in s ==> IsWhiteSpace(c)
  {
    if s != [] && IsWhiteSpace(s[|s| - 1]) {
      TrimEndBlank(s[..|s| - 1]);
      assert s == s[..|s| - 1] + [s[|s| - 1]];
    }
  }

  lemma TrimOfNewline(s: string)
    requires Trim(s) != []
    ensures Trim(s + "\n") != []
  {
    BlankMeans(s);
    BlankMeans(s + "\n");
    var c :| c in s && !IsWhiteSpace(c);
    assert c in s + "\n";
  }

  /**
   * A document read back from its own text is the document, exactly when the
   * YAML the library wrote for it fits and has no line that is a fence.
   */
  lemma ParseOfRender<M>(codec: Codec<M>, doc: Document<M>, maxBytes: nat)
    requires ReadsBack(codec, doc.frontmatter)
    ensures var block := Block(YamlOf(codec, doc.frontmatter));
      Parse(codec, Render(codec, doc), maxBytes) == Some(doc)
      <==> |block| <= maxBytes && NoFence(block, 0, |block|)
  {
    hide Fence, RenderText, SplitOf, Trim, Block;
    var yaml := YamlOf(codec, doc.frontmatter);
    var text := Render(codec, doc);
    RenderThenSplit(yaml, doc.body, maxBytes);
    NotBlankWithNewline(yaml);
    BlockOfNothing();
    var r := SplitOf(text, maxBytes);
    if r.Ok? && r.body == doc.body {
      SameBodySameBlock(yaml, doc.body, maxBytes);
    }
  }

  lemma BlockOfNothing()
    ensures Block("") == "" && Trim("") == ""
  {
  }

  /** Only the whole block leaves the body as it was: cutting it short makes the body longer. */
  lemma SameBodySameBlock(yaml: string, body: string, maxBytes: nat)
    ensures var r := SplitOf(RenderText(yaml, body), maxBytes);
      r.Ok? && r.body == body ==> r.yaml == Block(yaml)
  {
    hide Fence, Opening, RenderText, Block;
    var r := SplitOf(RenderText(yaml, body), maxBytes);
    if r.Ok? && r.body == body {
      var block := Block(yaml);
      var text := block + "---\n" + body;
      RenderOpens(yaml, body);
      WrittenFence(block, body);
      SplitMeans(RenderText(yaml, body), maxBytes, r);
      assert text[..|block|] == block;
      assert block == [] || text[|block| - 1] == '\n';
    }
  }
}
