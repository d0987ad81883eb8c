/**
 * Bundle-relative paths and Markdown link destinations: how a concept path is
 * normalized, and which path a link in a document names.
 */
module Links {
  import opened Text
  import Packages

  datatype PathError = EmptyPath | AbsolutePath | PathTraversal | UnsupportedExtension
  datatype PathResult = Ok(path: string) | Err(error: PathError)

  // ----- The extension rule -----

  /** `Path::extension` of a base name. */
  function Extension(name: string): Option<string> {
    var dot := LastIndex(name, '.');
    if name == ".." || dot <= 0 then None else Some(name[dot + 1..])
  }

  predicate IsMd(extension: string) {
    |extension| == 2 && extension[0] in "mM" && extension[1] in "dD"
  }

  /** Append `.md` when there is no extension, lowercase an `md`, refuse anything else. */
  function ApplyMarkdownExtension(path: string): PathResult {
    match Extension(BaseName(path))
    case None => Ok(path + ".md")
    case Some(extension) =>
      if IsMd(extension) then Ok(path[..|path| - |extension|] + "md") else Err(UnsupportedExtension)
  }

  // ----- Normalizing a concept path -----

  /** The components a path keeps, or nothing when one of them climbs. */
  function KeptComponents(components: seq<string>): Option<seq<string>> {
    if components == [] then Some([])
    else if components[0] == ".." then None
    else match KeptComponents(components[1..])
      case None => None
      case Some(rest) =>
        if components[0] == "" || components[0] == "." then Some(rest) else Some([components[0]] + rest)
  }

  /** What `normalize_path` returns. */
  function Normalized(raw: string): PathResult {
    if raw == "" then Err(EmptyPath)
    else if raw[0] == '/' then Err(AbsolutePath)
    else match KeptComponents(Split(raw, '/'))
      case None => Err(PathTraversal)
      case Some(parts) => if parts == [] then Err(EmptyPath) else ApplyMarkdownExtension(Join(parts, '/'))
  }

  method NormalizePath(raw: string) returns (result: PathResult)
    ensures result == Normalized(raw)
  {
    if raw == "" {
      return Err(EmptyPath);
    }
    if raw[0] == '/' {
      return Err(AbsolutePath);
    }
    var components := Split(raw, '/');
    var parts: seq<string> := [];
    assert components[0..] == components;
    for n := 0 to |components|
      invariant match KeptComponents(components[n..])
                case None => KeptComponents(components) == None
                case Some(rest) =>
                  KeptComponents(components).Some? && KeptComponents(components).value == parts + rest
    {
      assert components[n..] == [components[n]] + components[n + 1..];
      if components[n] == ".." {
        return Err(PathTraversal);
      }
      if components[n] != "" && components[n] != "." {
        ghost var tail := KeptComponents(components[n + 1..]);
        assert tail.Some? ==> parts + [components[n]] + tail.value == parts + ([components[n]] + tail.value);
        parts := parts + [components[n]];
      }
    }
    assert parts + [] == parts;
    if parts == [] {
      return Err(EmptyPath);
    }
    return ApplyMarkdownExtension(Join(parts, '/'));
  }

  // ----- Resolving a link -----

  function FoldSeparators(target: string): (folded: string)
    ensures |folded| == |target|
    ensures forall i :: 0 <= i < |target| ==> folded[i] == if target[i] == '\\' then '/' else target[i]
  {
    seq(|target|, i requires 0 <= i < |target| => if target[i] == '\\' then '/' else target[i])
  }

  function WithoutFragment(folded: string): string {
    folded[..FirstIndex(folded, '#')]
  }

  function ParentComponents(path: string): seq<string> {
    if LastIndex(path, '/') < 0 then [] else Split(Parent(path), '/')
  }

  /** Push and pop: where a walk from `parts` along `components` ends, if it stays inside. */
  function WalkFrom(parts: seq<string>, components: seq<string>): Option<seq<string>>
    decreases |components|
  {
    if components == [] then Some(parts)
    else if components[0] == "" || components[0] == "." then WalkFrom(parts, components[1..])
    else if components[0] == ".." then
      if parts == [] then None else WalkFrom(parts[..|parts| - 1], components[1..])
    else WalkFrom(parts + [components[0]], components[1..])
  }

  function StartOf(path: string, source: string): seq<string> {
    if path != "" && path[0] == '/' then [] else ParentComponents(source)
  }

  function ComponentsOf(path: string): seq<string> {
    Split(if path != "" && path[0] == '/' then path[1..] else path, '/')
  }

  /** What `resolve_link_path` returns. */
  function ResolvedPath(target: string, source: string): Option<string> {
    var folded := FoldSeparators(target);
    var path := WithoutFragment(folded);
    if path == "" then (if folded != "" && folded[0] == '#' then Some(source) else None)
    else match WalkFrom(StartOf(path, source), ComponentsOf(path))
      case None => None
      case Some(parts) => if parts == [] then None else Some(Join(parts, '/'))
  }

  method ResolveLinkPath(target: string, source: string) returns (result: Option<string>)
    ensures result == ResolvedPath(target, source)
  {
    var folded := FoldSeparators(target);
    var path := WithoutFragment(folded);
    if path == "" {
      return if folded != "" && folded[0] == '#' then Some(source) else None;
    }
    var parts := StartOf(path, source);
    var components := ComponentsOf(path);
    for n := 0 to |components|
      invariant WalkFrom(parts, components[n..]) == WalkFrom(StartOf(path, source), components)
    {
      if components[n] == "" || components[n] == "." {
      } else if components[n] == ".." {
        if parts == [] {
          return None;
        }
        parts := parts[..|parts| - 1];
      } else {
        parts := parts + [components[n]];
      }
    }
    return if parts == [] then None else Some(Join(parts, '/'));
  }

  /** What `resolve_link_target` returns. */
  function ResolvedTarget(target: string, source: string): Option<string> {
    match ResolvedPath(target, source)
    case None => None
    case Some(path) =>
      match ApplyMarkdownExtension(path)
      case Ok(r) => Some(r)
      case Err(_) => None
  }

  // ----- Clean segments -----

  predicate CleanSegment(s: string) {
    s != "" && s != "." && s != ".." && '/' !in s
  }

  ghost predicate CleanSegments(parts: seq<string>) {
    forall p :: p in parts ==> CleanSegment(p)
  }

  lemma {:induction false} JoinLast(parts: seq<string>)
    requires |parts| >= 2
    ensures Join(parts, '/') == Join(parts[..|parts| - 1], '/') + "/" + parts[|parts| - 1]
  {
    var init := parts[..|parts| - 1];
    if |parts| > 2 {
      JoinLast(parts[1..]);
      assert parts[1..][..|parts| - 2] == init[1..];
    } else {
      assert parts[1..] == [parts[1]];
    }
  }

  lemma PartsOfPath(above: string, name: string)
    requires '/' !in name
    ensures LastIndex(above + "/" + name, '/') == |above|
    ensures Parent(above + "/" + name) == above && BaseName(above + "/" + name) == name
    ensures LastIndex(name, '/') == -1 && BaseName(name) == name
  {
    hide LastIndex;
    var s := above + "/" + name;
    assert s[..|above|] == above && s[|above| + 1..] == name;
    assert s[|above|] == '/';
    LastIndexIs(s, '/', |above|);
  }

  /** The last segment of a joined path is its base name, the others its parent. */
  lemma BaseNameOfJoin(parts: seq<string>)
    requires parts != [] && CleanSegments(parts)
    ensures BaseName(Join(parts, '/')) == parts[|parts| - 1]
    ensures ParentComponents(Join(parts, '/')) == parts[..|parts| - 1]
  {
    var init, last := parts[..|parts| - 1], parts[|parts| - 1];
    assert last in parts;
    assert CleanSegment(last);
    PartsOfPath(Join(init, '/'), last);
    if |parts| > 1 {
      JoinLast(parts);
      assert forall p :: p in init ==> p in parts && CleanSegment(p);
      SplitOfJoin(init, '/');
      hide Join, LastIndex, Split, Parent, BaseName;
    }
  }

  lemma {:induction false} KeptOfClean(parts: seq<string>)
    requires CleanSegments(parts)
    ensures KeptComponents(parts) == Some(parts)
  {
    if parts != [] {
      assert parts[0] in parts;
      KeptOfClean(parts[1..]);
      assert parts == [parts[0]] + parts[1..];
    }
  }

  lemma {:induction false} KeptAreClean(components: seq<string>)
    requires forall p :: p in components ==> '/' !in p
    ensures KeptComponents(components).Some? ==> CleanSegments(KeptComponents(components).value)
  {
    if components != [] {
      assert components[0] in components;
      KeptAreClean(components[1..]);
    }
  }

  lemma JoinStartsClean(parts: seq<string>)
    requires parts != [] && CleanSegments(parts)
    ensures Join(parts, '/') != "" && Join(parts, '/')[0] != '/'
    ensures Join(parts, '/')[0] == parts[0][0]
  {
    assert parts[0] in parts;
    assert parts[0][0] in parts[0];
  }

  /** On clean segments, normalizing is the extension rule alone. */
  lemma NormalizedOfClean(parts: seq<string>)
    requires parts != [] && CleanSegments(parts)
    ensures Normalized(Join(parts, '/')) == ApplyMarkdownExtension(Join(parts, '/'))
  {
    assert forall p :: p in parts ==> CleanSegment(p);
    SplitOfJoin(parts, '/');
    JoinStartsClean(parts);
    KeptOfClean(parts);
  }

  lemma {:induction false} ReplaceLast(parts: seq<string>, last: string)
    requires parts != []
    ensures var s := Join(parts, '/');
            var n := |s| - |parts[|parts| - 1]|;
            n >= 0 && Join(parts[..|parts| - 1] + [last], '/') == s[..n] + last
  {
    var changed := parts[..|parts| - 1] + [last];
    if |parts| > 1 {
      JoinLast(parts);
      JoinLast(changed);
      assert changed[..|changed| - 1] == parts[..|parts| - 1];
    }
  }

  /** The extension rule as it changes the base name. */
  function NameWithMd(name: string): Option<string> {
    match Extension(name)
    case None => Some(name + ".md")
    case Some(extension) => if IsMd(extension) then Some(name[..|name| - 2] + "md") else None
  }

  lemma BaseNameIsSuffix(path: string)
    ensures |BaseName(path)| <= |path| && path == path[..|path| - |BaseName(path)|] + BaseName(path)
  {
  }

  lemma ChangeOfTail(above: string, name: string)
    ensures above + name + ".md" == above + (name + ".md")
    ensures |name| >= 2 ==> (above + name)[..|above| + |name| - 2] + "md" == above + (name[..|name| - 2] + "md")
  {
  }

  lemma ExtensionIsShort(name: string)
    ensures Extension(name).Some? && IsMd(Extension(name).value) ==> |name| >= 2
  {
  }

  lemma ExtensionChangesName(path: string)
    ensures var name := BaseName(path);
            |name| <= |path| &&
            ApplyMarkdownExtension(path)
            == match NameWithMd(name)
               case None => Err(UnsupportedExtension)
               case Some(changed) => Ok(path[..|path| - |name|] + changed)
  {
    hide BaseName, Extension, HasSuffix;
    BaseNameIsSuffix(path);
    var name := BaseName(path);
    ExtensionIsShort(name);
    ChangeOfTail(path[..|path| - |name|], name);
  }

  lemma AppendedMd(name: string)
    requires CleanSegment(name)
    ensures CleanSegment(name + ".md") && Extension(name + ".md") == Some("md")
  {
    var changed := name + ".md";
    var n := |name|;
    assert changed[n] == '.' && changed[n + 1] == 'm' && changed[n + 2] == 'd';
    assert LastIndex(changed, '.') == n;
    assert changed[n + 1..] == "md";
  }

  lemma LoweredMd(name: string)
    requires CleanSegment(name) && Extension(name).Some? && IsMd(Extension(name).value)
    ensures CleanSegment(name[..|name| - 2] + "md") && Extension(name[..|name| - 2] + "md") == Some("md")
  {
    var dot := LastIndex(name, '.');
    var changed := name[..|name| - 2] + "md";
    assert |name| == dot + 3;
    assert changed[dot] == '.' && changed[dot + 1] == 'm' && changed[dot + 2] == 'd';
    assert forall i :: 0 <= i <= dot ==> changed[i] == name[i] && name[i] in name;
    assert LastIndex(changed, '.') == dot;
    assert changed[dot + 1..] == "md";
  }

  lemma MdNamesAreSettled(name: string)
    requires Extension(name) == Some("md")
    ensures NameWithMd(name) == Some(name)
  {
    var dot := LastIndex(name, '.');
    assert name == name[..dot + 1] + name[dot + 1..];
    assert name[..|name| - 2] == name[..dot + 1];
  }

  lemma ChangedNameIsClean(name: string)
    requires CleanSegment(name) && NameWithMd(name).Some?
    ensures CleanSegment(NameWithMd(name).value) && Extension(NameWithMd(name).value) == Some("md")
  {
    if Extension(name).None? {
      AppendedMd(name);
    } else {
      LoweredMd(name);
    }
  }

  lemma CleanLast(parts: seq<string>)
    requires parts != [] && CleanSegments(parts)
    ensures CleanSegment(parts[|parts| - 1])
  {
    hide CleanSegment;
    assert parts[|parts| - 1] in parts;
  }

  lemma LastReplacedIsClean(parts: seq<string>, last: string)
    requires parts != [] && CleanSegments(parts) && CleanSegment(last)
    ensures CleanSegments(parts[..|parts| - 1] + [last])
  {
    hide CleanSegment;
  }

  /** Applying the extension rule to a clean path keeps it clean and settles it. */
  lemma ExtensionKeepsClean(parts: seq<string>) returns (changed: seq<string>)
    requires parts != [] && CleanSegments(parts)
    ensures match ApplyMarkdownExtension(Join(parts, '/'))
            case Err(_) => true
            case Ok(r) => changed != [] && CleanSegments(changed) && r == Join(changed, '/')
                          && ApplyMarkdownExtension(r) == Ok(r)
  {
    hide Join, ApplyMarkdownExtension, BaseName, NameWithMd, Extension, CleanSegment, ParentComponents, CleanSegments;
    changed := [];
    var s, name := Join(parts, '/'), parts[|parts| - 1];
    assert CleanSegment(name) by { CleanLast(parts); }
    BaseNameOfJoin(parts);
    ExtensionChangesName(s);
    if NameWithMd(name).Some? {
      var last := NameWithMd(name).value;
      ChangedNameIsClean(name);
      changed := parts[..|parts| - 1] + [last];
      ReplaceLast(parts, last);
      LastReplacedIsClean(parts, last);
      BaseNameOfJoin(changed);
      var r := Join(changed, '/');
      ExtensionChangesName(r);
      MdNamesAreSettled(last);
      BaseNameIsSuffix(r);
    }
  }

  // ----- What resolution promises -----

  lemma {:induction false} WalkStaysClean(parts: seq<string>, components: seq<string>)
    requires CleanSegments(parts)
    requires forall c :: c in components ==> '/' !in c
    ensures WalkFrom(parts, components).Some? ==> CleanSegments(WalkFrom(parts, components).value)
    decreases |components|
  {
    if components != [] {
      assert components[0] in components;
      if components[0] == "" || components[0] == "." {
        WalkStaysClean(parts, components[1..]);
      } else if components[0] == ".." {
        if parts != [] {
          WalkStaysClean(parts[..|parts| - 1], components[1..]);
        }
      } else {
        WalkStaysClean(parts + [components[0]], components[1..]);
      }
    }
  }

  /** Whatever `normalize_path` returns, it returns unchanged. */
  lemma NormalizingSettles(raw: string)
    ensures Normalized(raw).Ok? ==> Normalized(Normalized(raw).path) == Normalized(raw)
  {
    hide Join, Split, ApplyMarkdownExtension;
    if Normalized(raw).Ok? {
      KeptAreClean(Split(raw, '/'));
      var changed := ExtensionKeepsClean(KeptComponents(Split(raw, '/')).value);
      NormalizedOfClean(changed);
    }
  }

  /** A normalized path is its clean segments joined. */
  lemma NormalizedSegments(path: string) returns (parts: seq<string>)
    requires Normalized(path) == Ok(path)
    ensures parts != [] && CleanSegments(parts) && path == Join(parts, '/')
    ensures Split(path, '/') == parts
  {
    KeptAreClean(Split(path, '/'));
    parts := ExtensionKeepsClean(KeptComponents(Split(path, '/')).value);
    assert forall p :: p in parts ==> CleanSegment(p);
    SplitOfJoin(parts, '/');
  }

  /** A resolved path is made of clean segments. */
  lemma ResolvedSegments(target: string, source: string) returns (parts: seq<string>)
    requires Normalized(source) == Ok(source)
    requires ResolvedPath(target, source).Some?
    ensures parts != [] && CleanSegments(parts) && ResolvedPath(target, source).value == Join(parts, '/')
  {
    var from := NormalizedSegments(source);
    var path := WithoutFragment(FoldSeparators(target));
    if path == "" {
      parts := from;
    } else {
      BaseNameOfJoin(from);
      assert forall p :: p in StartOf(path, source) ==> p in from;
      WalkStaysClean(StartOf(path, source), ComponentsOf(path));
      parts := WalkFrom(StartOf(path, source), ComponentsOf(path)).value;
    }
  }

  /**
   * From a normalized source every resolved target is normalized already:
   * `normalize_path` returns it unchanged, and no segment of it is empty, `.` or `..`.
   */
  lemma ResolvedTargetsAreNormalized(target: string, source: string)
    requires Normalized(source) == Ok(source)
    requires ResolvedTarget(target, source).Some?
    ensures Normalized(ResolvedTarget(target, source).value) == Ok(ResolvedTarget(target, source).value)
    ensures CleanSegments(Split(ResolvedTarget(target, source).value, '/'))
  {
    var parts := ResolvedSegments(target, source);
    hide ResolvedPath, Normalized, ApplyMarkdownExtension, Join, Split;
    var changed := ExtensionKeepsClean(parts);
    NormalizedOfClean(changed);
    assert forall p :: p in changed ==> CleanSegment(p);
    SplitOfJoin(changed, '/');
  }

  /** Levels gained along `components`: one down a name, one up for `..`. */
  function Climb(components: seq<string>): int {
    if components == [] then 0
    else
      var last := components[|components| - 1];
      Climb(components[..|components| - 1])
      + (if last == "" || last == "." then 0 else if last == ".." then -1 else 1)
  }

  lemma {:induction false} ClimbFromFirst(components: seq<string>)
    requires components != []
    ensures Climb(components) == Climb(components[..1]) + Climb(components[1..])
  {
    assert Climb([]) == 0;
    if |components| == 1 {
      assert components[..1] == components;
    } else {
      var init := components[..|components| - 1];
      ClimbFromFirst(init);
      assert init[..1] == components[..1];
      assert components[1..][..|components| - 2] == init[1..];
    }
  }

  /** The walk fails exactly when some prefix climbs above the root. */
  lemma {:induction false} WalkFailsExactlyAbove(parts: seq<string>, components: seq<string>)
    ensures WalkFrom(parts, components).None?
        <==> exists k :: 0 <= k <= |components| && |parts| + Climb(components[..k]) < 0
    ensures WalkFrom(parts, components).Some? ==>
              |WalkFrom(parts, components).value| == |parts| + Climb(components)
    decreases |components|
  {
    assert Climb([]) == 0;
    if components != [] {
      var first := components[..1];
      assert first[..0] == [];
      var step := Climb(first);
      var next :=
        if step == 0 then parts else if step == 1 then parts + [components[0]]
        else if parts == [] then [] else parts[..|parts| - 1];
      WalkFailsExactlyAbove(next, components[1..]);
      ClimbFromFirst(components);
      forall k | 1 <= k <= |components|
        ensures Climb(components[..k]) == step + Climb(components[1..][..k - 1])
      {
        ClimbFromFirst(components[..k]);
        assert components[..k][..1] == first;
        assert components[..k][1..] == components[1..][..k - 1];
      }
      WalkStep(parts, components, next, step);
    }
  }

  /** The counting argument of one step of the walk. */
  lemma WalkStep(parts: seq<string>, components: seq<string>, next: seq<string>, step: int)
    requires components != [] && -1 <= step <= 1
    requires forall k :: 1 <= k <= |components| ==>
               Climb(components[..k]) == step + Climb(components[1..][..k - 1])
    requires (step == -1 && parts == []) || |next| == |parts| + step
    ensures Climb(components[..0]) == 0
    ensures step == -1 && parts == [] ==>
              exists k :: 0 <= k <= |components| && |parts| + Climb(components[..k]) < 0
    ensures |next| == |parts| + step ==>
              ((exists k :: 0 <= k <= |components| && |parts| + Climb(components[..k]) < 0)
               <==> exists k :: 0 <= k <= |components[1..]| && |next| + Climb(components[1..][..k]) < 0)
  {
    assert components[..0] == [];
    assert components[1..][..0] == [];
    if step == -1 && parts == [] {
      assert |parts| + Climb(components[..1]) < 0;
    }
    if |next| == |parts| + step {
      if k :| 0 <= k <= |components| && |parts| + Climb(components[..k]) < 0 {
        assert |next| + Climb(components[1..][..k - 1]) < 0;
      }
      if k :| 0 <= k <= |components[1..]| && |next| + Climb(components[1..][..k]) < 0 {
        assert |parts| + Climb(components[..k + 1]) < 0;
      }
    }
  }

  /**
   * A destination with a path names nothing exactly when it steps above the
   * bundle root on the way, or ends on the root itself.
   */
  lemma UnresolvedExactlyAboveRoot(target: string, source: string)
    requires WithoutFragment(FoldSeparators(target)) != ""
    ensures var path := WithoutFragment(FoldSeparators(target));
            var from, steps := |StartOf(path, source)|, ComponentsOf(path);
            ResolvedPath(target, source).None?
            <==> || (exists k :: 0 <= k <= |steps| && from + Climb(steps[..k]) < 0)
                 || from + Climb(steps) == 0
  {
    var path := WithoutFragment(FoldSeparators(target));
    WalkFailsExactlyAbove(StartOf(path, source), ComponentsOf(path));
    var steps := ComponentsOf(path);
    assert steps[..|steps|] == steps;
  }

  /** A step above the root is refused, not clamped as section 5.2.4 of RFC 3986 would. */
  lemma RootIsNotClamped(rest: string, source: string)
    ensures ResolvedPath("/../" + rest, source) == None
    ensures ResolvedTarget("/../" + rest, source) == None
  {
    var target := "/../" + rest;
    var folded := FoldSeparators(target);
    var path := WithoutFragment(folded);
    assert target[0] == '/' && target[1] == '.' && target[2] == '.' && target[3] == '/';
    assert folded[0] == '/' && folded[1] == '.' && folded[2] == '.' && folded[3] == '/';
    assert FirstIndex(folded, '#') >= 4;
    var below := path[1..];
    assert below[0] == '.' && below[1] == '.' && below[2] == '/';
    assert FirstIndex(below, '/') == 2;
    assert below[..2] == "..";
    assert ComponentsOf(path)[0] == "..";
    assert StartOf(path, source) == [];
    hide ComponentsOf, StartOf;
  }

  /** A fragment after a path never changes what the path names. */
  lemma FragmentsNeverMatter(path: string, fragment: string, source: string)
    requires path != "" && '#' !in path
    ensures ResolvedPath(path + "#" + fragment, source) == ResolvedPath(path, source)
    ensures ResolvedTarget(path + "#" + fragment, source) == ResolvedTarget(path, source)
  {
    var whole := FoldSeparators(path + "#" + fragment);
    var folded := FoldSeparators(path);
    assert whole[|path|] == '#';
    assert forall i :: 0 <= i < |path| ==> whole[i] == folded[i] && path[i] in path;
    assert FirstIndex(whole, '#') == |path| == FirstIndex(folded, '#');
    assert WithoutFragment(whole) == folded == WithoutFragment(folded);
  }

  lemma {:induction false} WalkAlongClean(done: seq<string>, parts: seq<string>)
    requires CleanSegments(parts)
    ensures WalkFrom(done, parts) == Some(done + parts)
    decreases |parts|
  {
    if parts != [] {
      assert parts[0] in parts;
      WalkAlongClean(done + [parts[0]], parts[1..]);
      assert done + [parts[0]] + parts[1..] == done + parts;
    } else {
      assert done + parts == done;
    }
  }

  /** `/` and a resolved target names that target again, from any document. */
  lemma RootedTargetsResolveToThemselves(target: string, source: string, anywhere: string)
    requires Normalized(source) == Ok(source)
    requires ResolvedTarget(target, source).Some?
    requires '#' !in ResolvedTarget(target, source).value && '\\' !in ResolvedTarget(target, source).value
    ensures ResolvedTarget("/" + ResolvedTarget(target, source).value, anywhere) == ResolvedTarget(target, source)
  {
    var r := ResolvedTarget(target, source).value;
    ResolvedTargetsAreNormalized(target, source);
    hide ResolvedTarget;
    var parts := NormalizedSegments(r);
    RootedResolvesToItself(r, parts, anywhere);
    NormalizedOfClean(parts);
    RootedTarget(r, anywhere);
  }

  lemma RootedResolvesToItself(r: string, parts: seq<string>, anywhere: string)
    requires parts != [] && CleanSegments(parts) && r == Join(parts, '/') && Split(r, '/') == parts
    requires '#' !in r && '\\' !in r
    ensures ResolvedPath("/" + r, anywhere) == Some(r)
  {
    var rooted := "/" + r;
    assert forall i :: 1 <= i < |rooted| ==> rooted[i] == r[i - 1] && r[i - 1] in r;
    assert FoldSeparators(rooted) == rooted;
    assert FirstIndex(rooted, '#') == |rooted|;
    assert WithoutFragment(rooted) == rooted;
    assert rooted[1..] == r;
    WalkAlongClean([], parts);
    assert [] + parts == parts;
  }

  lemma RootedTarget(r: string, anywhere: string)
    requires ResolvedPath("/" + r, anywhere) == Some(r) && ApplyMarkdownExtension(r) == Ok(r)
    ensures ResolvedTarget("/" + r, anywhere) == Some(r)
  {
  }

  // ----- Links into a package's resources -----

  /** `is_package_resource`. */
  predicate IsPackageResource(path: string, root: string) {
    var relative := Packages.StripRoot(root, path);
    && relative.Some?
    && var slash := FirstIndex(relative.value, '/');
       && slash < |relative.value|
       && relative.value[..slash] in Packages.RESOURCE_DIRECTORIES
       && relative.value[slash + 1..] != ""
  }

  class Link {
    const target: string
    const isExternal: bool
    var targetId: Option<string>
    var targetPath: Option<string>

    constructor (target: string, isExternal: bool)
      ensures this.target == target && this.isExternal == isExternal && targetId == targetPath == None
    {
      this.target := target;
      this.isExternal := isExternal;
      targetId, targetPath := None, None;
    }

    /** Point the link at a package resource when its destination is one. */
    method ResolveResource(source: string, root: string)
      modifies this
      ensures var resolved := ResolvedPath(target, source);
              if !isExternal && resolved.Some? && IsPackageResource(resolved.value, root)
              then targetId == targetPath == resolved
              else targetId == old(targetId) && targetPath == old(targetPath)
    {
      if isExternal {
        return;
      }
      var resolved := ResolveLinkPath(target, source);
      if resolved.Some? && IsPackageResource(resolved.value, root) {
        targetId := resolved;
        targetPath := resolved;
      }
    }
  }

  lemma CleanPathsEndInNames(parts: seq<string>)
    requires parts != [] && CleanSegments(parts)
    ensures var s := Join(parts, '/'); s != "" && s[|s| - 1] != '/'
  {
    assert parts[|parts| - 1] in parts;
    var last := parts[|parts| - 1];
    if |parts| > 1 {
      JoinLast(parts);
    }
    assert last[|last| - 1] in last;
  }

  lemma PackageResourceIsResourceClass(path: string, root: string)
    requires path != "" && path[|path| - 1] != '/'
    ensures IsPackageResource(path, root) <==> Packages.ResourceClass(root, path).Some?
  {
    var relative := Packages.StripRoot(root, path);
    if relative.Some? {
      var slash := FirstIndex(relative.value, '/');
      assert relative.value == path[|path| - |relative.value|..];
    }
  }

  /**
   * A link from an indexed package resolves to a resource exactly when
   * discovery classifies that file as a resource this package owns, and then
   * the id it gets is the concept id discovery gives the file.
   */
  lemma ResourceLinksMatchDiscovery(paths: set<string>, root: string, target: string, source: string)
    requires root in Packages.RootSet(paths) && Normalized(source) == Ok(source)
    requires ResolvedPath(target, source).Some?
    ensures var p := ResolvedPath(target, source).value;
            var roots := Packages.RootSet(paths);
            && (IsPackageResource(p, root)
                <==> Packages.Owner(roots, p) == Some(root) && Packages.Classify(roots, p).Some?
                     && Packages.Classify(roots, p).value.IsResource())
            && (IsPackageResource(p, root) ==> Packages.Classify(roots, p).value.ConceptId(p) == p)
  {
    hide ResolvedPath, Normalized, Packages.RootSet, Join, IsPackageResource, Packages.Owner;
    hide Packages.Classify, Packages.ResourceClass, Packages.InResources, Parent, CleanSegments;
    var roots := Packages.RootSet(paths);
    var parts := ResolvedSegments(target, source);
    CleanPathsEndInNames(parts);
    var p := ResolvedPath(target, source).value;
    PackageResourceIsResourceClass(p, root);
    Packages.RootSetClean(paths);
    Packages.NearestDecides(roots, p);
    Packages.ResourceClassMeans(root, p);
    ClassifiedByOwner(roots, p);
  }

  lemma ClassifiedByOwner(roots: set<string>, path: string)
    ensures var owner := Packages.Owner(roots, path);
            (Packages.Classify(roots, path).Some? && Packages.Classify(roots, path).value.IsResource())
            <==> owner.Some? && Packages.ResourceClass(owner.value, path).Some?
  {
    hide Packages.Owner;
  }
}
