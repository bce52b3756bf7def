/** Logical paths: how agent and backend cut them, and the way back to physical paths. */
module LogicalPaths {
  import opened Basics
  import opened Strings

  /** filepath.ToSlash under a system separator. */
  function ToSlash(s: string, system: char): string {
    if s == "" then "" else [if s[0] == system then '/' else s[0]] + ToSlash(s[1..], system)
  }

  lemma {:induction false} ToSlashIdentity(s: string)
    ensures ToSlash(s, '/') == s
  {
    if s != "" {
      ToSlashIdentity(s[1..]);
    }
  }

  lemma {:induction false} ToSlashConcat(a: string, b: string, system: char)
    ensures ToSlash(a + b, system) == ToSlash(a, system) + ToSlash(b, system)
  {
    if a == "" {
      assert a + b == b;
    } else {
      ToSlashConcat(a[1..], b, system);
      assert (a + b)[1..] == a[1..] + b;
    }
  }

  lemma {:induction false} ToSlashFree(s: string, system: char)
    requires Free(s, system)
    ensures ToSlash(s, system) == s
  {
    if s != "" {
      assert s[0] in s;
      ToSlashFree(s[1..], system);
    }
  }

  /** The parts of a cut path that are not blank, trimmed. */
  function Kept(parts: seq<string>): seq<string> {
    if parts == [] then [] else (if Trim(parts[0]) != "" then [Trim(parts[0])] else []) + Kept(parts[1..])
  }

  /** The segments of a path: splitSegments on the agent, the loop of splitPath on the backend. */
  function Segments(path: string, system: char): seq<string> {
    Kept(Split(ToSlash(path, system), '/'))
  }

  lemma KeptNext(parts: seq<string>, i: nat, segments: seq<string>)
    requires i < |parts|
    ensures segments + Kept(parts[i..]) ==
            (if Trim(parts[i]) != "" then segments + [Trim(parts[i])] else segments) + Kept(parts[i + 1..])
  {
    assert parts[i..][0] == parts[i] && parts[i..][1..] == parts[i + 1..];
    Associative(segments, [Trim(parts[i])], Kept(parts[i + 1..]));
  }

  method SplitSegments(path: string, system: char) returns (segments: seq<string>)
    ensures segments == Segments(path, system)
  {
    segments := [];
    if path == "" {
      assert Kept([""]) == [] by {
        assert Trim("") == "";
      }
      return;
    }
    var parts := Split(ToSlash(path, system), '/');
    for i := 0 to |parts|
      invariant segments + Kept(parts[i..]) == Kept(parts)
    {
      var trimmed := Trim(parts[i]);
      KeptNext(parts, i, segments);
      if trimmed != "" {
        segments := segments + [trimmed];
      }
    }
    assert parts[|parts|..] == [];
  }

  predicate Blank(s: string) {
    forall i :: 0 <= i < |s| ==> IsSpace(s[i])
  }

  lemma {:induction false} LeftOfTrim(s: string)
    ensures var t := TrimLeft(s); |t| <= |s| && t == s[|s| - |t|..] && Blank(s[..|s| - |t|])
  {
    if s != "" && IsSpace(s[0]) {
      LeftOfTrim(s[1..]);
      var n := |s| - |TrimLeft(s)|;
      assert s[..n] == [s[0]] + s[1..][..n - 1];
    }
  }

  lemma {:induction false} RightOfTrim(s: string)
    ensures var t := TrimRight(s); |t| <= |s| && t == s[..|t|] && Blank(s[|t|..])
  {
    if s != "" && IsSpace(s[|s| - 1]) {
      RightOfTrim(s[..|s| - 1]);
      var n := |TrimRight(s)|;
      assert s[n..] == s[..|s| - 1][n..] + [s[|s| - 1]];
    }
  }

  /** Trimming takes away blanks at both ends, and all of them. */
  lemma TrimExactly(s: string) returns (left: string, right: string)
    ensures s == left + Trim(s) + right && Blank(left) && Blank(right) && Trimmed(Trim(s))
  {
    var t := TrimLeft(s);
    LeftOfTrim(s);
    RightOfTrim(t);
    TrimIsTrimmed(s);
    left, right := s[..|s| - |t|], t[|Trim(s)|..];
  }

  /** A segment that no step of the path handling changes. */
  predicate Clean(segment: string) {
    segment != "" && Trimmed(segment) && Free(segment, '/')
  }

  predicate AllClean(segments: seq<string>) {
    forall i :: 0 <= i < |segments| ==> Clean(segments[i])
  }

  lemma {:induction false} KeptAreClean(parts: seq<string>)
    requires forall i :: 0 <= i < |parts| ==> Free(parts[i], '/')
    ensures AllClean(Kept(parts))
  {
    if parts != [] {
      KeptAreClean(parts[1..]);
      TrimIsTrimmed(parts[0]);
      if '/' in Trim(parts[0]) {
        TrimIsInfix(parts[0], '/');
      }
    }
  }

  lemma SegmentsAreClean(path: string, system: char)
    ensures AllClean(Segments(path, system))
  {
    SplitPartsAreFree(ToSlash(path, system), '/');
    KeptAreClean(Split(ToSlash(path, system), '/'));
  }

  lemma {:induction false} KeptOfClean(parts: seq<string>)
    requires AllClean(parts)
    ensures Kept(parts) == parts
  {
    if parts != [] {
      KeptOfClean(parts[1..]);
      TrimFixedPoint(parts[0]);
    }
  }

  /** Path agreement, exactly: the backend cuts the agent's joined logical path into the agent's
      segments if and only if every segment is non-empty, trimmed and free of slashes. */
  lemma JoinedPathSplitsBack(segments: seq<string>)
    ensures Segments(Join(segments, '/'), '/') == segments <==> AllClean(segments)
  {
    ToSlashIdentity(Join(segments, '/'));
    if AllClean(segments) {
      if segments == [] {
        assert Segments("", '/') == Kept([""]);
      } else {
        SplitInvertsJoin(segments, '/');
        KeptOfClean(segments);
      }
    }
    SegmentsAreClean(Join(segments, '/'), '/');
  }

  /** The agent's own segments always survive the trip: cutting is idempotent. */
  lemma CuttingIsIdempotent(path: string, system: char)
    ensures Segments(Join(Segments(path, system), '/'), '/') == Segments(path, system)
  {
    SegmentsAreClean(path, system);
    JoinedPathSplitsBack(Segments(path, system));
  }

  // ---- The splitter of deletes by path ------------------------------------------------------------

  function TrimLeftSlashes(s: string): string {
    if s != "" && s[0] == '/' then TrimLeftSlashes(s[1..]) else s
  }

  function TrimRightSlashes(s: string): string {
    if s != "" && s[|s| - 1] == '/' then TrimRightSlashes(s[..|s| - 1]) else s
  }

  /** strings.Split(strings.Trim(path, "/"), "/"), which neither trims segments nor drops blank ones. */
  function RawSegments(path: string): seq<string> {
    Split(TrimRightSlashes(TrimLeftSlashes(path)), '/')
  }

  predicate Slashes(s: string) {
    forall i :: 0 <= i < |s| ==> s[i] == '/'
  }

  lemma {:induction false} SlashesLeft(s: string)
    ensures var t := TrimLeftSlashes(s); |t| <= |s| && t == s[|s| - |t|..] && Slashes(s[..|s| - |t|]) && (t != "" ==> t[0] != '/')
  {
    if s != "" && s[0] == '/' {
      SlashesLeft(s[1..]);
      var n := |s| - |TrimLeftSlashes(s)|;
      assert s[..n] == [s[0]] + s[1..][..n - 1];
    }
  }

  lemma {:induction false} SlashesRight(s: string)
    ensures var t := TrimRightSlashes(s); |t| <= |s| && t == s[..|t|] && Slashes(s[|t|..]) && (t != "" ==> t[|t| - 1] != '/')
  {
    if s != "" && s[|s| - 1] == '/' {
      SlashesRight(s[..|s| - 1]);
      var n := |TrimRightSlashes(s)|;
      assert s[n..] == s[..|s| - 1][n..] + [s[|s| - 1]];
    }
  }

  /** The raw segments are those of the path without the slashes at its ends. */
  lemma RawSegmentsExactly(path: string) returns (left: string, core: string, right: string)
    ensures path == left + core + right && Slashes(left) && Slashes(right)
    ensures core != "" ==> core[0] != '/' && core[|core| - 1] != '/'
    ensures RawSegments(path) == Split(core, '/')
  {
    var t := TrimLeftSlashes(path);
    SlashesLeft(path);
    SlashesRight(t);
    left, core := path[..|path| - |t|], TrimRightSlashes(t);
    right := t[|core|..];
  }

  lemma {:induction false} KeptAppend(a: seq<string>, b: seq<string>)
    ensures Kept(a + b) == Kept(a) + Kept(b)
  {
    if a == [] {
      assert a + b == b;
    } else {
      KeptAppend(a[1..], b);
      assert (a + b)[1..] == a[1..] + b && (a + b)[0] == a[0];
      Associative(if Trim(a[0]) != "" then [Trim(a[0])] else [], Kept(a[1..]), Kept(b));
    }
  }

  lemma {:induction false} LeadingSlashesAreBlank(s: string)
    ensures Kept(Split(s, '/')) == Kept(Split(TrimLeftSlashes(s), '/'))
  {
    if s != "" && s[0] == '/' {
      LeadingSlashesAreBlank(s[1..]);
      assert Split(s, '/')[1..] == Split(s[1..], '/');
      assert Trim("") == "";
    }
  }

  lemma {:induction false} SplitLast(s: string)
    ensures Split(s + "/", '/') == Split(s, '/') + [""]
  {
    if s == "" {
      assert s + "/" == "/";
      assert Split("/", '/') == [""] + Split("", '/');
    } else {
      SplitLast(s[1..]);
      assert (s + "/")[1..] == s[1..] + "/";
    }
  }

  lemma {:induction false} TrailingSlashesAreBlank(s: string)
    ensures Kept(Split(s, '/')) == Kept(Split(TrimRightSlashes(s), '/'))
  {
    if s != "" && s[|s| - 1] == '/' {
      var front := s[..|s| - 1];
      TrailingSlashesAreBlank(front);
      assert s == front + "/";
      SplitLast(front);
      KeptAppend(Split(front, '/'), [""]);
      assert Kept([""]) == [] by {
        assert Trim("") == "";
      }
    }
  }

  /** Deleting by path looks for the folder that syncing created if and only if the path, without
      its outer slashes, is made of clean segments. */
  lemma DeleteSplitterAgreesExactly(path: string)
    ensures RawSegments(path) == Segments(path, '/') <==> AllClean(RawSegments(path))
  {
    ToSlashIdentity(path);
    LeadingSlashesAreBlank(path);
    TrailingSlashesAreBlank(TrimLeftSlashes(path));
    if AllClean(RawSegments(path)) {
      KeptOfClean(RawSegments(path));
    }
    SegmentsAreClean(path, '/');
  }

  // ---- Monitor roots --------------------------------------------------------------------------------

  function LowerChar(c: char): char {
    if 'A' <= c <= 'Z' then c + ' ' else c
  }

  function Lower(s: string): string {
    seq(|s|, i requires 0 <= i < |s| => LowerChar(s[i]))
  }

  /** The name after the last separator of a clean absolute path. */
  function Base(path: string, system: char): (name: string)
    ensures |name| <= |path|
  {
    if path == "" || path[|path| - 1] == system then "" else Base(path[..|path| - 1], system) + [path[|path| - 1]]
  }

  /** The root is the path itself or one of its ancestors, ignoring case. */
  predicate UnderRoot(root: string, path: string, system: char) {
    Trim(root) != "" && (Lower(path) == Lower(root) || Lower(root) + [system] <= Lower(path))
  }

  /** The index of the first root the path lies under, |roots| if there is none. */
  function FirstRoot(roots: seq<string>, path: string, system: char): (i: nat)
    ensures i <= |roots|
    ensures i < |roots| ==> UnderRoot(roots[i], path, system)
    ensures forall j :: 0 <= j < i ==> !UnderRoot(roots[j], path, system)
  {
    if roots == [] || UnderRoot(roots[0], path, system) then 0 else 1 + FirstRoot(roots[1..], path, system)
  }

  /** Two parts of a path are the same: filepath.Rel ignores their letter case on Windows only. */
  predicate SamePart(a: string, b: string, system: char) {
    a == b || (system == '\\' && Lower(a) == Lower(b))
  }

  /** filepath.Rel in parts: up from what the root has of its own, then down to the path. */
  function RelParts(root: seq<string>, path: seq<string>, system: char): seq<string> {
    if root == [] then path
    else if path != [] && SamePart(root[0], path[0], system) then RelParts(root[1..], path[1..], system)
    else Ups(|root|) + path
  }

  function Ups(n: nat): seq<string> {
    seq(n, _ => "..")
  }

  /** filepath.Rel of clean absolute paths; the empty path stands for ".". */
  function Rel(root: string, path: string, system: char): string {
    Join(RelParts(Split(root, system), Split(path, system), system), system)
  }

  /** buildLogicalSegments for absolute clean roots and paths. */
  function LogicalSegments(roots: seq<string>, path: string, system: char): seq<string> {
    var i := FirstRoot(roots, path, system);
    if |roots| == 0 || Trim(path) == "" || i == |roots| then Segments(path, system)
    else BaseSegment(roots[i], system) + Segments(Rel(roots[i], path, system), system)
  }

  function BaseSegment(root: string, system: char): seq<string> {
    if Base(root, system) == "" then [] else [Base(root, system)]
  }

  method BuildLogicalSegments(roots: seq<string>, path: string, system: char) returns (segments: seq<string>)
    ensures segments == LogicalSegments(roots, path, system)
  {
    if |roots| == 0 || Trim(path) == "" {
      segments := SplitSegments(path, system);
      return;
    }
    var i := 0;
    while i < |roots|
      invariant 0 <= i <= |roots|
      invariant FirstRoot(roots, path, system) == i + FirstRoot(roots[i..], path, system)
    {
      var root := roots[i];
      if Trim(root) != "" && (Lower(path) == Lower(root) || Lower(root) + [system] <= Lower(path)) {
        segments := [];
        if Base(root, system) != "" {
          segments := [Base(root, system)];
        }
        var rest := SplitSegments(Rel(root, path, system), system);
        segments := segments + rest;
        return;
      }
      assert roots[i..][1..] == roots[i + 1..];
      i := i + 1;
    }
    segments := SplitSegments(path, system);
  }

  /** The index of the first root with this base name, |roots| if there is none. */
  function RootNamed(roots: seq<string>, name: string, system: char): (i: nat)
    ensures i <= |roots|
    ensures i < |roots| ==> Trim(roots[i]) != "" && Base(roots[i], system) == name
    ensures forall j :: 0 <= j < i ==> Trim(roots[j]) == "" || Base(roots[j], system) != name
  {
    if roots == [] || (Trim(roots[0]) != "" && Base(roots[0], system) == name) then 0
    else 1 + RootNamed(roots[1..], name, system)
  }

  /** The directory above a clean absolute path; the top of a volume, which ends in a separator, stays. */
  function Parent(path: string, system: char): string {
    var dir := path[..|path| - |Base(path, system)|];
    if path == "" || dir == path || dir == "" then path
    else if Free(dir[..|dir| - 1], system) then dir
    else dir[..|dir| - 1]
  }

  /** One part further along: blank and "." parts stay, ".." goes up. */
  function Descend(path: string, part: string, system: char): string {
    if part == "" || part == "." then path
    else if part == ".." then Parent(path, system)
    else if path != "" && path[|path| - 1] == system then path + part
    else path + [system] + part
  }

  /** filepath.Join below a clean absolute path. */
  function Resolve(path: string, parts: seq<string>, system: char): string
    decreases |parts|
  {
    if parts == [] then path else Resolve(Descend(path, parts[0], system), parts[1..], system)
  }

  /** convertLogicalPathToPhysical. */
  function PhysicalPath(roots: seq<string>, logical: string, system: char): string {
    if |roots| == 0 || Trim(logical) == "" then "" else
    var segments := RawSegments(logical);
    var i := RootNamed(roots, segments[0], system);
    if i == |roots| then ""
    else if |segments| == 1 then roots[i]
    else Resolve(roots[i], Split(Join(segments[1..], system), system), system)
  }

  method ConvertLogicalPathToPhysical(roots: seq<string>, logical: string, system: char) returns (path: string)
    ensures path == PhysicalPath(roots, logical, system)
  {
    if |roots| == 0 || Trim(logical) == "" {
      return "";
    }
    var segments := RawSegments(logical);
    for i := 0 to |roots|
      invariant RootNamed(roots, segments[0], system) == i + RootNamed(roots[i..], segments[0], system)
    {
      assert roots[i..][1..] == roots[i + 1..];
      if Trim(roots[i]) != "" && Base(roots[i], system) == segments[0] {
        if |segments| == 1 {
          return roots[i];
        }
        return Resolve(roots[i], Split(Join(segments[1..], system), system), system);
      }
    }
    path := "";
  }

  // ---- From physical to logical and back ---------------------------------------------------------------

  /** Parts below a root that path cleaning and cutting leave alone. */
  predicate CleanParts(parts: seq<string>, system: char) {
    AllClean(parts) && forall i :: 0 <= i < |parts| ==> Free(parts[i], system) && parts[i] != "." && parts[i] != ".."
  }

  lemma {:induction false} ToSlashOfJoin(parts: seq<string>, system: char)
    requires CleanParts(parts, system)
    ensures ToSlash(Join(parts, system), system) == Join(parts, '/')
  {
    if parts != [] {
      ToSlashFree(parts[0], system);
      if |parts| > 1 {
        ToSlashOfJoin(parts[1..], system);
        ToSlashConcat(parts[0] + [system], Join(parts[1..], system), system);
        ToSlashConcat(parts[0], [system], system);
        assert ToSlash([system], system) == "/" + ToSlash("", system);
      }
    }
  }

  lemma RelativePartsSplitBack(parts: seq<string>, system: char)
    requires CleanParts(parts, system)
    ensures Segments(Join(parts, system), system) == parts
  {
    ToSlashOfJoin(parts, system);
    JoinedPathSplitsBack(parts);
    ToSlashIdentity(Join(parts, '/'));
  }

  lemma {:induction false} NoSlashAtTheEnds(segments: seq<string>)
    requires segments != [] && AllClean(segments)
    ensures var s := Join(segments, '/'); s != "" && s[0] != '/' && s[|s| - 1] != '/' && !IsSpace(s[0])
    ensures Trim(Join(segments, '/')) != ""
  {
    var s := Join(segments, '/');
    assert segments[0][0] in segments[0] && segments[0][|segments[0]| - 1] in segments[0];
    if |segments| > 1 {
      NoSlashAtTheEnds(segments[1..]);
      assert s[|s| - 1] == Join(segments[1..], '/')[|Join(segments[1..], '/')| - 1];
    }
    assert TrimLeft(s) == s;
    FirstCharSurvivesTrim(s);
  }

  lemma {:induction false} FirstCharSurvivesTrim(s: string)
    requires s != "" && !IsSpace(s[0])
    ensures TrimRight(s) != ""
  {
    if IsSpace(s[|s| - 1]) {
      FirstCharSurvivesTrim(s[..|s| - 1]);
    }
  }

  lemma RawSegmentsOfClean(segments: seq<string>)
    requires segments != [] && AllClean(segments)
    ensures RawSegments(Join(segments, '/')) == segments
  {
    NoSlashAtTheEnds(segments);
    SplitInvertsJoin(segments, '/');
  }

  lemma {:induction false} SplitConcat(a: string, b: string, sep: char)
    ensures Split(a + [sep] + b, sep) == Split(a, sep) + Split(b, sep)
  {
    if a == "" {
      assert "" + [sep] + b == [sep] + b;
      assert ([sep] + b)[1..] == b;
    } else {
      SplitConcat(a[1..], b, sep);
      assert (a + [sep] + b)[1..] == a[1..] + [sep] + b && (a + [sep] + b)[0] == a[0];
      SplitStep(a, sep);
      SplitStep(a + [sep] + b, sep);
      FirstGrows(a[0], Split(a[1..], sep), Split(b, sep));
      Associative([""], Split(a[1..], sep), Split(b, sep));
    }
  }

  /** Cutting a text, one character further. */
  function Grown(c: char, parts: seq<string>): seq<string>
    requires parts != []
  {
    [[c] + parts[0]] + parts[1..]
  }

  lemma SplitStep(s: string, sep: char)
    requires s != ""
    ensures Split(s, sep) == if s[0] == sep then [""] + Split(s[1..], sep) else Grown(s[0], Split(s[1..], sep))
  {
  }

  lemma FirstGrows(c: char, a: seq<string>, b: seq<string>)
    requires a != []
    ensures Grown(c, a + b) == Grown(c, a) + b
  {
    assert (a + b)[1..] == a[1..] + b;
  }

  lemma {:induction false} JoinInvertsSplit(s: string, sep: char)
    ensures Join(Split(s, sep), sep) == s
  {
    if s != "" {
      JoinInvertsSplit(s[1..], sep);
      assert s == [s[0]] + s[1..];
    }
  }

  lemma {:induction false} SameRootGoesDown(root: seq<string>, head: seq<string>, parts: seq<string>, system: char)
    requires |root| == |head| && forall i :: 0 <= i < |root| ==> SamePart(root[i], head[i], system)
    ensures RelParts(root, head + parts, system) == parts
  {
    if root == [] {
      assert head + parts == parts;
    } else {
      assert (head + parts)[1..] == head[1..] + parts;
      SameRootGoesDown(root[1..], head[1..], parts, system);
    }
  }

  lemma {:induction false} OtherRootGoesUp(root: seq<string>, head: seq<string>, parts: seq<string>, system: char)
    requires |root| == |head| && root != head && system != '\\'
    ensures var rel := RelParts(root, head + parts, system); rel != [] && rel[0] == ".."
  {
    if root[0] == head[0] {
      assert (head + parts)[1..] == head[1..] + parts;
      OtherRootGoesUp(root[1..], head[1..], parts, system);
    }
  }

  lemma LowerKeepsSeparator(c: char, system: char)
    requires system == '/' || system == '\\'
    ensures LowerChar(c) == system <==> c == system
  {
  }

  lemma LowerRest(a: string, b: string)
    requires a != "" && Lower(a) == Lower(b)
    ensures b != "" && LowerChar(a[0]) == LowerChar(b[0]) && Lower(a[1..]) == Lower(b[1..])
  {
    assert |a| == |Lower(a)| == |b|;
    assert Lower(a)[0] == Lower(b)[0];
    forall i | 0 <= i < |a| - 1 ensures LowerChar(a[1..][i]) == LowerChar(b[1..][i]) {
      assert Lower(a)[i + 1] == Lower(b)[i + 1];
    }
  }

  predicate SameLower(a: seq<string>, b: seq<string>) {
    |a| == |b| && forall i :: 0 <= i < |a| ==> Lower(a[i]) == Lower(b[i])
  }

  /** Paths that differ in letter case only have parts that differ in letter case only. */
  lemma {:induction false} LowerParts(a: string, b: string, system: char)
    requires Lower(a) == Lower(b) && (system == '/' || system == '\\')
    ensures SameLower(Split(a, system), Split(b, system))
  {
    if a == "" {
      assert |Lower(b)| == 0;
    } else {
      LowerRest(a, b);
      LowerKeepsSeparator(a[0], system);
      LowerKeepsSeparator(b[0], system);
      LowerParts(a[1..], b[1..], system);
      SplitStep(a, system);
      SplitStep(b, system);
      GrownLower(a[0], Split(a[1..], system), b[0], Split(b[1..], system));
      BlankLower(Split(a[1..], system), Split(b[1..], system));
    }
  }

  lemma BlankLower(a: seq<string>, b: seq<string>)
    requires SameLower(a, b)
    ensures SameLower([""] + a, [""] + b)
  {
  }

  lemma GrownLower(c: char, a: seq<string>, d: char, b: seq<string>)
    requires a != [] && b != [] && LowerChar(c) == LowerChar(d) && SameLower(a, b)
    ensures SameLower(Grown(c, a), Grown(d, b))
  {
    LowerFirst(c, a[0], d, b[0]);
  }

  lemma LowerFirst(c: char, a: string, d: char, b: string)
    requires LowerChar(c) == LowerChar(d) && Lower(a) == Lower(b)
    ensures Lower([c] + a) == Lower([d] + b)
  {
    assert |a| == |Lower(a)| == |b|;
    forall i | 0 < i <= |a| ensures LowerChar(([c] + a)[i]) == LowerChar(([d] + b)[i]) {
      assert Lower(a)[i - 1] == Lower(b)[i - 1];
    }
  }

  lemma ClimbingSegments(rel: seq<string>, system: char)
    requires rel != [] && rel[0] == ".." && system != '.'
    ensures var segments := Segments(Join(rel, system), system); segments != [] && segments[0] == ".."
  {
    ToSlashFree("..", system);
    TrimFixedPoint("..");
    if |rel| == 1 {
      SplitOfFree("..", '/');
    } else {
      var rest := Join(rel[1..], system);
      ToSlashConcat(".." + [system], rest, system);
      ToSlashConcat("..", [system], system);
      assert ToSlash([system], system) == "/" + ToSlash("", system);
      assert ToSlash(Join(rel, system), system) == ".." + ['/'] + ToSlash(rest, system);
      SplitFirst("..", ToSlash(rest, system), '/');
    }
  }

  /** A file below a root is given the root's base name and its parts below the root if and only if the
      path spells the root as it is, or the system ignores letter case: the root is found ignoring case
      everywhere, but filepath.Rel is not. */
  lemma SegmentsBelowRootExactly(roots: seq<string>, r: nat, head: string, parts: seq<string>, system: char)
    requires r < |roots| && parts != [] && CleanParts(parts, system) && (system == '/' || system == '\\')
    requires Lower(head) == Lower(roots[r])
    requires var path := head + [system] + Join(parts, system);
             FirstRoot(roots, path, system) == r && Trim(path) != ""
    ensures LogicalSegments(roots, head + [system] + Join(parts, system), system) == BaseSegment(roots[r], system) + parts <==>
            system == '\\' || head == roots[r]
  {
    var root, below := roots[r], Join(parts, system);
    var path := head + [system] + below;
    SplitConcat(head, below, system);
    SplitInvertsJoin(parts, system);
    LowerParts(root, head, system);
    if system == '\\' || head == root {
      SameRootGoesDown(Split(root, system), Split(head, system), parts, system);
      RelativePartsSplitBack(parts, system);
    } else {
      JoinInvertsSplit(root, system);
      JoinInvertsSplit(head, system);
      OtherRootGoesUp(Split(root, system), Split(head, system), parts, system);
      ClimbingSegments(RelParts(Split(root, system), Split(path, system), system), system);
      SamePrefix(BaseSegment(root, system), Segments(Rel(root, path, system), system), parts);
    }
  }

  lemma SamePrefix(a: seq<string>, b: seq<string>, c: seq<string>)
    ensures a + b == a + c <==> b == c
  {
    if a + b == a + c {
      assert b == (a + b)[|a|..] && c == (a + c)[|a|..];
    }
  }

  /** Joining clean parts below a path appends them. */
  lemma {:induction false} ResolveCleanParts(path: string, parts: seq<string>, system: char)
    requires parts != [] && CleanParts(parts, system) && (path == "" || path[|path| - 1] != system)
    ensures Resolve(path, parts, system) == path + [system] + Join(parts, system)
    decreases |parts|
  {
    var next := path + [system] + parts[0];
    assert next[|next| - 1] == parts[0][|parts[0]| - 1] && parts[0][|parts[0]| - 1] in parts[0];
    if |parts| > 1 {
      ResolveCleanParts(next, parts[1..], system);
      FourPieces(path, [system], parts[0], [system], Join(parts[1..], system));
    }
  }

  lemma FourPieces(a: string, b: string, c: string, d: string, e: string)
    ensures a + b + c + d + e == a + b + (c + d + e)
  {
  }

  lemma LogicalPathOfClean(name: string, parts: seq<string>, system: char)
    requires Clean(name) && parts != [] && CleanParts(parts, system)
    ensures var logical := Join([name] + parts, '/');
            && Trim(logical) != "" && |RawSegments(logical)| > 1
            && RawSegments(logical)[0] == name && RawSegments(logical)[1..] == parts
  {
    NoSlashAtTheEnds([name] + parts);
    RawSegmentsOfClean([name] + parts);
    assert ([name] + parts)[1..] == parts;
  }

  /** A logical path of clean segments is mapped below the first root that has its first one as base name. */
  lemma PhysicalPathOfClean(roots: seq<string>, logical: string, name: string, parts: seq<string>, system: char)
    requires Clean(name) && parts != [] && CleanParts(parts, system) && RootNamed(roots, name, system) < |roots|
    requires Trim(logical) != "" && |RawSegments(logical)| > 1
    requires RawSegments(logical)[0] == name && RawSegments(logical)[1..] == parts
    ensures PhysicalPath(roots, logical, system) == roots[RootNamed(roots, name, system)] + [system] + Join(parts, system)
  {
    SplitInvertsJoin(parts, system);
    ResolveCleanParts(roots[RootNamed(roots, name, system)], parts, system);
  }

  /** A path lies under a root exactly when, letter case aside, it begins with the root and ends there or goes on
      with a separator. */
  lemma UnderRootExactly(root: string, path: string, system: char)
    requires system == '/' || system == '\\'
    ensures UnderRoot(root, path, system) <==>
            && Trim(root) != "" && |root| <= |path| && Lower(path[..|root|]) == Lower(root)
            && (|path| > |root| ==> path[|root|] == system)
  {
    var n := |root|;
    assert |Lower(root)| == n && |Lower(path)| == |path|;
    if |path| == n {
      assert path[..n] == path;
    } else if |path| > n {
      LowerKeepsSeparator(path[n], system);
      assert Lower(path)[..n + 1] == Lower(path[..n]) + [LowerChar(path[n])];
      OneLonger(Lower(root), Lower(path[..n]), system, LowerChar(path[n]));
      assert Lower(root) + [system] <= Lower(path) <==> Lower(root) + [system] == Lower(path)[..n + 1];
    }
  }

  lemma OneLonger(a: string, b: string, c: char, d: char)
    ensures a + [c] == b + [d] <==> a == b && c == d
  {
    if a + [c] == b + [d] {
      assert |a| == |b|;
      assert a == (a + [c])[..|a|] && b == (b + [d])[..|b|];
      assert (a + [c])[|a|] == c && (b + [d])[|b|] == d;
    }
  }

  /** A root itself has its base name as logical path, in its own spelling or where letter case is ignored. */
  lemma SegmentsOfRootItself(roots: seq<string>, r: nat, path: string, system: char)
    requires r < |roots| && Lower(path) == Lower(roots[r]) && FirstRoot(roots, path, system) == r && Trim(path) != ""
    requires system == '\\' || path == roots[r]
    requires system == '/' || system == '\\'
    ensures LogicalSegments(roots, path, system) == if Base(roots[r], system) == "" then [] else [Base(roots[r], system)]
  {
    LowerParts(roots[r], path, system);
    assert Split(path, system) + [] == Split(path, system);
    SameRootGoesDown(Split(roots[r], system), Split(path, system), [], system);
    assert Kept([""]) == [] by {
      assert Trim("") == "";
    }
    assert Segments("", system) == [];
  }

  /** A path under no root keeps all its parts. */
  lemma SegmentsOutsideRoots(roots: seq<string>, path: string, system: char)
    requires forall r :: 0 <= r < |roots| ==> !UnderRoot(roots[r], path, system)
    ensures LogicalSegments(roots, path, system) == Segments(path, system)
  {
  }

  /** A logical path of one part is the root of that name, and without such a root there is no physical path. */
  lemma PhysicalPathOfOne(roots: seq<string>, name: string, system: char)
    requires Clean(name)
    ensures PhysicalPath(roots, name, system) ==
            if RootNamed(roots, name, system) < |roots| then roots[RootNamed(roots, name, system)] else ""
  {
    assert Join([name], '/') == name;
    NoSlashAtTheEnds([name]);
    RawSegmentsOfClean([name]);
  }

  lemma NoRootNoPath(roots: seq<string>, logical: string, system: char)
    requires forall r :: 0 <= r < |roots| ==> Trim(roots[r]) == "" || Base(roots[r], system) != RawSegments(logical)[0]
    ensures PhysicalPath(roots, logical, system) == ""
  {
  }

  lemma BlankPathIsNone(roots: seq<string>, logical: string, system: char)
    requires Trim(logical) == ""
    ensures PhysicalPath(roots, logical, system) == ""
  {
  }

  lemma DownThenUp(path: string, name: string, system: char)
    requires CleanParts([name], system) && path != "" && path[|path| - 1] != system && !Free(path, system)
    ensures Descend(Descend(path, name, system), "..", system) == path
  {
    var next := path + [system] + name;
    assert [name][0] == name;
    BaseBelow(path, name, system);
    assert next[..|next| - |name|] == path + [system];
    assert (path + [system])[..|path|] == path;
  }

  lemma ResolveNext(path: string, part: string, rest: seq<string>, system: char)
    ensures Resolve(path, [part] + rest, system) == Resolve(Descend(path, part, system), rest, system)
  {
    assert ([part] + rest)[1..] == rest;
  }

  /** Going up undoes going down, below a directory that is not the top of its volume; blank and "." parts stay. */
  lemma UpUndoesDown(path: string, name: string, rest: seq<string>, system: char)
    requires CleanParts([name], system) && path != "" && path[|path| - 1] != system && !Free(path, system)
    ensures Resolve(path, [name] + ([".."] + rest), system) == Resolve(path, rest, system)
    ensures Resolve(path, ["."] + rest, system) == Resolve(path, rest, system) == Resolve(path, [""] + rest, system)
  {
    DownThenUp(path, name, system);
    ResolveNext(path, name, [".."] + rest, system);
    ResolveNext(Descend(path, name, system), "..", rest, system);
    ResolveNext(path, ".", rest, system);
    ResolveNext(path, "", rest, system);
  }

  lemma {:induction false} BaseBelow(dir: string, name: string, system: char)
    requires Free(name, system)
    ensures Base(dir + [system] + name, system) == name
  {
    var path := dir + [system] + name;
    if name != "" {
      assert name[|name| - 1] in name;
      assert path[..|path| - 1] == dir + [system] + name[..|name| - 1];
      BaseBelow(dir, name[..|name| - 1], system);
      assert name == name[..|name| - 1] + [name[|name| - 1]];
    }
  }

  /** The logical path of a file below a root leads back to the same physical path if and only if
      the root is the first one with its base name. */
  lemma LogicalPathLeadsBackExactly(roots: seq<string>, r: nat, parts: seq<string>, system: char)
    requires r < |roots| && parts != [] && CleanParts(parts, system) && (system == '/' || system == '\\')
    requires Clean(Base(roots[r], system)) && Trim(roots[r]) != ""
    requires var path := roots[r] + [system] + Join(parts, system);
             FirstRoot(roots, path, system) == r && Trim(path) != ""
    ensures RootNamed(roots, Base(roots[r], system), system) < |roots|
    ensures var path := roots[r] + [system] + Join(parts, system);
            var logical := Join(LogicalSegments(roots, path, system), '/');
            && LogicalSegments(roots, path, system) == [Base(roots[r], system)] + parts
            && (PhysicalPath(roots, logical, system) == path <==>
                roots[RootNamed(roots, Base(roots[r], system), system)] == roots[r])
  {
    var path, name := roots[r] + [system] + Join(parts, system), Base(roots[r], system);
    SegmentsBelowRootExactly(roots, r, roots[r], parts, system);
    NamedRootExists(roots, r, system);
    LogicalPathOfClean(name, parts, system);
    PhysicalPathOfClean(roots, Join([name] + parts, '/'), name, parts, system);
    SameRootSamePath(roots[RootNamed(roots, name, system)], roots[r], [system], Join(parts, system));
  }

  lemma SameRootSamePath(a: string, b: string, sep: string, below: string)
    ensures a + sep + below == b + sep + below <==> a == b
  {
    SameTail(a, b, sep + below);
    Associative(a, sep, below);
    Associative(b, sep, below);
  }

  lemma SameTail(a: string, b: string, tail: string)
    ensures a + tail == b + tail <==> a == b
  {
    if a + tail == b + tail {
      assert a == (a + tail)[..|a|] && b == (b + tail)[..|b|];
    }
  }

  lemma {:induction false} NamedRootExists(roots: seq<string>, r: nat, system: char)
    requires r < |roots| && Trim(roots[r]) != ""
    ensures RootNamed(roots, Base(roots[r], system), system) <= r
  {
    if r > 0 {
      NamedRootExists(roots[1..], r - 1, system);
    }
  }
}
