/**
 The traversal of nested union errors into problem details
 (src/lib/errors/problem-details.ts, lines 58-194).
 */
module ProblemDetails {
  import opened Wrappers
  import opened Joining
  import opened Decimal

  const MAX_UNION_DEPTH := 3

  /** A character as the code sees it: one 16-bit unit, half of a surrogate pair included. */
  type CodeUnit = n: nat | n < 0x1_0000

  type Text = seq<CodeUnit>

  datatype PathPart = Key(name: Text) | Index(n: nat)

  datatype IssueCode = InvalidType | TooSmall | TooBig | OtherCode

  /** A union issue carries one error per branch of the union, each with its own issues. */
  datatype Issue =
    | Leaf(code: IssueCode, path: seq<PathPart>, message: Text)
    | Union(path: seq<PathPart>, unionErrors: seq<UnionError>)

  datatype UnionError = UnionError(issues: seq<Issue>)

  datatype ProblemCode = ParsingError | MalformedValueError | RangeError

  datatype ProblemDetail = ProblemDetail(title: ProblemCode, detail: Text)

  // ----- texts -------------------------------------------------------------

  /** The units of a literal. */
  function Units(s: string): Text {
    seq(|s|, i requires 0 <= i < |s| => s[i] as int % 0x1_0000)
  }

  const DOT: CodeUnit := 46
  const OPEN_BRACKET: CodeUnit := 91

  /** `String.fromCharCode`: the code wraps around at 16 bits. */
  function FromCharCode(code: nat): Text {
    [code % 0x1_0000]
  }

  /** Letters at even depths (capitals at depth 0), numbers from 1 at odd depths. */
  function LabelSegment(index: nat, depth: nat): Text {
    if depth % 2 == 1 then Units(Digits(index + 1))
    else if depth == 0 then FromCharCode(65 + index)
    else FromCharCode(97 + index)
  }

  /** Capitals from A at the top, numbers from 1 for branches, small letters from a below. */
  lemma SegmentTexts(index: nat, depth: nat)
    ensures index < 26 && depth == 0 ==> LabelSegment(index, depth) == ["ABCDEFGHIJKLMNOPQRSTUVWXYZ"[index] as int]
    ensures index < 26 && depth > 0 && depth % 2 == 0 ==>
              LabelSegment(index, depth) == ["abcdefghijklmnopqrstuvwxyz"[index] as int]
    ensures depth % 2 == 1 ==>
              |LabelSegment(index, depth)| == |Digits(index + 1)|
              && forall i :: 0 <= i < |Digits(index + 1)| ==>
                   LabelSegment(index, depth)[i] == Digits(index + 1)[i] as int
  {
    hide Digits;
    LetterAt(index);
    if depth % 2 == 1 {
      forall i | 0 <= i < |Digits(index + 1)| ensures LabelSegment(index, depth)[i] == Digits(index + 1)[i] as int {
        assert IsDigit(Digits(index + 1)[i]);
      }
    }
  }

  lemma LetterAt(index: nat)
    ensures index < 26 ==> "ABCDEFGHIJKLMNOPQRSTUVWXYZ"[index] as int == 65 + index
    ensures index < 26 ==> "abcdefghijklmnopqrstuvwxyz"[index] as int == 97 + index
  {
    if index < 13 {
      if index < 6 { if index < 3 { } else { } } else { if index < 9 { } else { } }
    } else {
      if index < 19 { if index < 16 { } else { } } else { if index < 22 { } else { } }
    }
  }

  function PartText(p: PathPart): Text {
    match p
    case Key(name) => name
    case Index(n) => Units("[") + Units(Digits(n)) + Units("]")
  }

  function PartTexts(path: seq<PathPart>): seq<Text> {
    seq(|path|, i requires 0 <= i < |path| => PartText(path[i]))
  }

  /** Every `.[` becomes `[`. */
  function DropDotBeforeBracket(s: Text): Text {
    if |s| < 2 then s
    else if s[0] == DOT && s[1] == OPEN_BRACKET then [OPEN_BRACKET] + DropDotBeforeBracket(s[2..])
    else [s[0]] + DropDotBeforeBracket(s[1..])
  }

  function FormatPath(path: seq<PathPart>): Text {
    if path == [] then [] else DropDotBeforeBracket(Join(PartTexts(path), DOT))
  }

  function JoinLocation(prefix: Option<Text>, path: Text): Text {
    if prefix.Some? && prefix.value != [] && path != [] then prefix.value + [DOT] + path
    else if prefix.Some? && prefix.value != [] then prefix.value
    else path
  }

  function IssueToCode(code: IssueCode): ProblemCode {
    match code
    case InvalidType => MalformedValueError
    case TooSmall => RangeError
    case TooBig => RangeError
    case OtherCode => ParsingError
  }

  function UnionProblem(path: seq<PathPart>, prefix: Option<Text>, unionLabel: Text): ProblemDetail {
    var location := JoinLocation(prefix, FormatPath(path));
    var at := if location != [] then Units(" at ") + location else [];
    ProblemDetail(ParsingError,
                  Units("(") + unionLabel + Units(")") + at + Units(": Input did not match any available schema"))
  }

  function LeafProblem(issue: Issue, prefix: Option<Text>, parentLabel: Text): ProblemDetail
    requires issue.Leaf?
  {
    var location := JoinLocation(prefix, FormatPath(issue.path));
    var labelPrefix := if parentLabel != [] then Units("(") + parentLabel + Units(") ") else [];
    ProblemDetail(IssueToCode(issue.code),
                  if location != [] then labelPrefix + Units("at ") + location + Units(": ") + issue.message
                  else labelPrefix + issue.message)
  }

  /** How a leaf's text is made up: the message last, before it the location if there is one, before that any label. */
  lemma LeafTexts(issue: Issue, prefix: Option<Text>, parentLabel: Text)
    requires issue.Leaf?
    ensures var p := LeafProblem(issue, prefix, parentLabel);
            && (issue.code == InvalidType ==> p.title == MalformedValueError)
            && (issue.code == TooSmall || issue.code == TooBig ==> p.title == RangeError)
            && (issue.code == OtherCode ==> p.title == ParsingError)
            && var path := FormatPath(issue.path);
               var tag := if parentLabel == [] then [] else Units("(") + parentLabel + Units(") ");
               && (prefix in {None, Some([])} && path == [] ==> p.detail == tag + issue.message)
               && (prefix.Some? && prefix.value != [] && path == [] ==>
                     p.detail == tag + Units("at ") + prefix.value + Units(": ") + issue.message)
               && (prefix in {None, Some([])} && path != [] ==>
                     p.detail == tag + Units("at ") + path + Units(": ") + issue.message)
               && (prefix.Some? && prefix.value != [] && path != [] ==>
                     p.detail == tag + Units("at ") + (prefix.value + [46] + path) + Units(": ") + issue.message)
  {
    hide FormatPath, Units;
  }

  /** Likewise for a union. */
  lemma UnionTexts(path: seq<PathPart>, prefix: Option<Text>, unionLabel: Text)
    ensures var p := UnionProblem(path, prefix, unionLabel);
            var end := Units(": Input did not match any available schema");
            var tag := Units("(") + unionLabel + Units(")");
            var at := FormatPath(path);
            && p.title == ParsingError
            && (prefix in {None, Some([])} && at == [] ==> p.detail == tag + end)
            && (prefix.Some? && prefix.value != [] && at == [] ==>
                  p.detail == tag + (Units(" at ") + prefix.value) + end)
            && (prefix in {None, Some([])} && at != [] ==> p.detail == tag + (Units(" at ") + at) + end)
            && (prefix.Some? && prefix.value != [] && at != [] ==>
                  p.detail == tag + (Units(" at ") + (prefix.value + [46] + at)) + end)
  {
    hide FormatPath, Units;
    var tag := Units("(") + unionLabel + Units(")");
    assert tag + [] == tag;
  }

  // ----- how a path reads --------------------------------------------------

  lemma {:induction false} DropDotConcat(a: Text, b: Text)
    requires b == [] || b[0] != OPEN_BRACKET
    ensures DropDotBeforeBracket(a + b) == DropDotBeforeBracket(a) + DropDotBeforeBracket(b)
  {
    if a == [] {
      assert a + b == b;
    } else if |a| == 1 {
      if b == [] {
        assert a + b == a;
      } else {
        assert (a + b)[1..] == b;
      }
    } else if a[0] == DOT && a[1] == OPEN_BRACKET {
      assert (a + b)[2..] == a[2..] + b;
      DropDotConcat(a[2..], b);
    } else {
      assert (a + b)[1..] == a[1..] + b;
      DropDotConcat(a[1..], b);
    }
  }

  /** No dot stands right before a bracket. */
  ghost predicate NoDotBracket(s: Text) {
    forall i :: 0 <= i < |s| - 1 ==> !(s[i] == DOT && s[i + 1] == OPEN_BRACKET)
  }

  lemma {:induction false} DropDotIdle(s: Text)
    requires NoDotBracket(s)
    ensures DropDotBeforeBracket(s) == s
  {
    if |s| >= 2 {
      assert !(s[0] == DOT && s[0 + 1] == OPEN_BRACKET);
      assert NoDotBracket(s[1..]) by {
        forall i | 0 <= i < |s[1..]| - 1 ensures !(s[1..][i] == DOT && s[1..][i + 1] == OPEN_BRACKET) {
          assert !(s[i + 1] == DOT && s[i + 1 + 1] == OPEN_BRACKET);
        }
      }
      DropDotIdle(s[1..]);
    }
  }

  function IndexPart(n: nat): Text {
    Units("[") + Units(Digits(n)) + Units("]")
  }

  /** A path reads from left to right: names are joined by dots. */
  lemma FormatPathName(path: seq<PathPart>, name: Text)
    requires NoDotBracket(name) && (name == [] || name[0] != OPEN_BRACKET)
    ensures FormatPath([Key(name)]) == name
    ensures path != [] ==> FormatPath(path + [Key(name)]) == FormatPath(path) + [46] + name
  {
    hide DropDotBeforeBracket;
    DropDotIdle(name);
    FormatOne(Key(name));
    if path != [] {
      hide FormatPath;
      AfterPath(path, Key(name));
      DottedName(name);
      assert FormatPath(path) + ([DOT] + name) == FormatPath(path) + [46] + name;
    }
  }

  lemma FormatOne(part: PathPart)
    ensures FormatPath([part]) == DropDotBeforeBracket(PartText(part))
  {
    hide DropDotBeforeBracket, PartText;
    assert PartTexts([part]) == [PartText(part)];
  }

  /** And an index stands in brackets right behind what it indexes. */
  lemma FormatPathIndex(path: seq<PathPart>, n: nat)
    ensures FormatPath([Index(n)]) == IndexPart(n)
    ensures path != [] ==> FormatPath(path + [Index(n)]) == FormatPath(path) + IndexPart(n)
  {
    hide DropDotBeforeBracket;
    IndexText(n);
    DropDotIdle(IndexPart(n));
    FormatOne(Index(n));
    if path != [] {
      hide FormatPath, IndexPart;
      AfterPath(path, Index(n));
      DottedIndex(n);
      assert PartText(Index(n)) == IndexPart(n) by { IndexIsPart(n); }
    }
  }

  lemma IndexIsPart(n: nat)
    ensures PartText(Index(n)) == IndexPart(n)
  {
  }

  /** The dot in front of an index goes. */
  lemma DottedIndex(n: nat)
    ensures DropDotBeforeBracket([DOT] + IndexPart(n)) == IndexPart(n)
  {
    hide IndexPart;
    var index := IndexPart(n);
    IndexText(n);
    var dotted := [DOT] + index;
    assert dotted[0] == DOT && dotted[1] == OPEN_BRACKET && dotted[2..] == index[1..];
    DropDotIdle(index[1..]);
    assert index == [OPEN_BRACKET] + index[1..];
  }

  lemma DottedName(name: Text)
    requires NoDotBracket(name) && (name == [] || name[0] != OPEN_BRACKET)
    ensures DropDotBeforeBracket([DOT] + name) == [DOT] + name
  {
    var s := [DOT] + name;
    forall i | 0 <= i < |s| - 1 ensures !(s[i] == DOT && s[i + 1] == OPEN_BRACKET) {
      if i > 0 { assert !(name[i - 1] == DOT && name[i - 1 + 1] == OPEN_BRACKET); }
    }
    DropDotIdle(s);
  }

  lemma AfterPath(path: seq<PathPart>, part: PathPart)
    requires path != []
    ensures FormatPath(path + [part]) == FormatPath(path) + DropDotBeforeBracket([DOT] + PartText(part))
  {
    hide DropDotBeforeBracket;
    assert PartTexts(path + [part]) == PartTexts(path) + [PartText(part)];
    JoinSnoc(PartTexts(path), PartText(part), DOT);
    var joined := Join(PartTexts(path), DOT);
    assert joined + [DOT] + PartText(part) == joined + ([DOT] + PartText(part));
    DropDotConcat(joined, [DOT] + PartText(part));
  }

  /** The text of an index: a bracket, then digits and the closing bracket, none of which is a dot. */
  lemma IndexText(n: nat)
    ensures |IndexPart(n)| >= 1 && IndexPart(n)[0] == OPEN_BRACKET
    ensures NoDotBracket(IndexPart(n)) && NoDotBracket(IndexPart(n)[1..])
  {
    hide Digits;
    forall i | 0 <= i < |Digits(n)| ensures Units(Digits(n))[i] != DOT {
      assert IsDigit(Digits(n)[i]);
    }
    assert forall i :: 0 <= i < |IndexPart(n)| ==> IndexPart(n)[i] != DOT;
  }

  // ----- what is visited, and where ---------------------------------------

  /**
   A visited issue and its trail: the position of each union among the unions of its list, and of each branch
   within its union, from the root down. A union's trail ends with its own position; a leaf has its list's trail.
   */
  datatype Visit = Visit(issue: Issue, trail: seq<nat>)

  function UnionsIn(issues: seq<Issue>): nat {
    if issues == [] then 0 else UnionsIn(issues[..|issues| - 1]) + if issues[|issues| - 1].Union? then 1 else 0
  }

  /** The preorder of a list of issues, descending into unions while the trail is shorter than the limit. */
  function Preorder(issues: seq<Issue>, trail: seq<nat>): seq<Visit>
    decreases issues, 1
  {
    if issues == [] then []
    else
      var init, last := issues[..|issues| - 1], issues[|issues| - 1];
      Preorder(init, trail) + PreorderOne(last, UnionsIn(init), trail)
  }

  /** One issue, with `u` unions before it in its list. */
  function PreorderOne(issue: Issue, u: nat, trail: seq<nat>): seq<Visit>
    decreases issue, 2
  {
    if issue.Leaf? then [Visit(issue, trail)]
    else
      [Visit(issue, trail + [u])] +
      if |trail| < MAX_UNION_DEPTH then PreorderBranches(issue.unionErrors, trail + [u]) else []
  }

  function PreorderBranches(branches: seq<UnionError>, trail: seq<nat>): seq<Visit>
    decreases branches, 0
  {
    if branches == [] then []
    else
      var n := |branches| - 1;
      PreorderBranches(branches[..n], trail) + Preorder(branches[n].issues, trail + [n])
  }

  /** The label of a trail: each position as a segment of its depth, joined by dots. */
  function Segments(trail: seq<nat>): seq<Text> {
    seq(|trail|, d requires 0 <= d < |trail| => LabelSegment(trail[d], d))
  }

  function Label(trail: seq<nat>): Text {
    Join(Segments(trail), DOT)
  }

  function Describe(v: Visit, prefix: Option<Text>): ProblemDetail {
    if v.issue.Union? then UnionProblem(v.issue.path, prefix,
                                        Label(v.trail)) else LeafProblem(v.issue, prefix, Label(v.trail))
  }

  function DescribeAll(vs: seq<Visit>, prefix: Option<Text>): seq<ProblemDetail> {
    seq(|vs|, i requires 0 <= i < |vs| => Describe(vs[i], prefix))
  }

  /** The label the code builds by appending one segment is the label of the extended trail. */
  lemma LabelSnoc(trail: seq<nat>, index: nat)
    ensures Label(trail + [index]) ==
            if trail == [] then LabelSegment(index, 0) else Label(trail) + [DOT] + LabelSegment(index, |trail|)
  {
    assert Segments(trail + [index]) == Segments(trail) + [LabelSegment(index, |trail|)];
    if trail == [] {
      assert Segments(trail) == [];
    } else {
      JoinSnoc(Segments(trail), LabelSegment(index, |trail|), DOT);
    }
  }

  lemma SegmentNotEmpty(index: nat, depth: nat)
    ensures LabelSegment(index, depth) != []
  {
  }

  lemma LabelNotEmpty(trail: seq<nat>)
    requires trail != []
    ensures Label(trail) != []
  {
    SegmentNotEmpty(trail[0], 0);
    HeadOfJoin(Segments(trail), DOT);
  }

  // ----- the traversal -----------------------------------------------------

  /** What one more issue adds to the preorder. */
  lemma PreorderStep(issues: seq<Issue>, n: nat, trail: seq<nat>)
    requires n < |issues|
    ensures UnionsIn(issues[..n + 1]) == UnionsIn(issues[..n]) + if issues[n].Union? then 1 else 0
    ensures Preorder(issues[..n + 1], trail) ==
              Preorder(issues[..n], trail) + PreorderOne(issues[n], UnionsIn(issues[..n]), trail)
  {
    hide PreorderOne;
    assert issues[..n + 1][..n] == issues[..n];
  }

  /** `traverseIssues`, with its counter; `trail` stands behind the label for the specification only. */
  method TraverseIssues(issues: seq<Issue>, prefix: Option<Text>, parentLabel: Text, depth: nat, ghost trail: seq<nat>)
    returns (results: seq<ProblemDetail>)
    requires |trail| == depth && parentLabel == Label(trail)
    ensures results == DescribeAll(Preorder(issues, trail), prefix)
    decreases issues, 1
  {
    hide *;
    EmptyPreorder(trail, prefix);
    results := [];
    var unionCounter := 0;
    for n := 0 to |issues|
      invariant unionCounter == UnionsIn(issues[..n])
      invariant results == DescribeAll(Preorder(issues[..n], trail), prefix)
    {
      var issue := issues[n];
      PreorderStep(issues, n, trail);
      DescribeConcat(Preorder(issues[..n], trail), PreorderOne(issue, unionCounter, trail), prefix);
      if issue.Union? {
        UnionLabel(trail, unionCounter);
        var segment := LabelSegment(unionCounter, depth);
        var unionLabel := if parentLabel != [] then parentLabel + [DOT] + segment else segment;
        ghost var here := trail + [unionCounter];
        ghost var before := results;
        results := results + [UnionProblem(issue.path, prefix, unionLabel)];
        if depth < MAX_UNION_DEPTH {
          var branchDetails := TraverseBranches(issue.unionErrors, prefix, unionLabel, depth, here);
          results := results + branchDetails;
          Regroup(before, [UnionProblem(issue.path, prefix, unionLabel)], branchDetails);
        }
        DescribeUnion(issue, unionCounter, trail, prefix);
        unionCounter := unionCounter + 1;
      } else {
        DescribeLeaf(issue, unionCounter, trail, prefix);
        results := results + [LeafProblem(issue, prefix, parentLabel)];
      }
    }
    assert issues[..|issues|] == issues;
  }

  lemma Regroup(a: seq<ProblemDetail>, b: seq<ProblemDetail>, c: seq<ProblemDetail>)
    ensures a + b + c == a + (b + c)
  {
  }

  /** The inner loop over the branches of one union. */
  method TraverseBranches(branches: seq<UnionError>, prefix: Option<Text>, unionLabel: Text, depth: nat,
                          ghost here: seq<nat>)
    returns (results: seq<ProblemDetail>)
    requires |here| == depth + 1 && unionLabel == Label(here)
    ensures results == DescribeAll(PreorderBranches(branches, here), prefix)
    decreases branches, 0
  {
    hide Label, LabelSegment, Describe;
    results := [];
    for i := 0 to |branches|
      invariant results == DescribeAll(PreorderBranches(branches[..i], here), prefix)
    {
      LabelSnoc(here, i);
      var branchLabel := unionLabel + [DOT] + LabelSegment(i, depth + 1);
      var branchDetails := TraverseIssues(branches[i].issues, prefix, branchLabel, depth + 2, here + [i]);
      assert branches[..i + 1][..i] == branches[..i];
      DescribeConcat(PreorderBranches(branches[..i], here), Preorder(branches[i].issues, here + [i]), prefix);
      results := results + branchDetails;
    }
    assert branches[..|branches|] == branches;
  }

  lemma EmptyPreorder(trail: seq<nat>, prefix: Option<Text>)
    ensures DescribeAll(Preorder([], trail), prefix) == [] && UnionsIn([]) == 0
  {
  }

  lemma DescribeLeaf(issue: Issue, u: nat, trail: seq<nat>, prefix: Option<Text>)
    requires issue.Leaf?
    ensures DescribeAll(PreorderOne(issue, u, trail), prefix) == [LeafProblem(issue, prefix, Label(trail))]
  {
    hide LeafProblem, Label;
  }

  lemma DescribeUnion(issue: Issue, u: nat, trail: seq<nat>, prefix: Option<Text>)
    requires issue.Union?
    ensures var here := trail + [u];
            DescribeAll(PreorderOne(issue, u, trail), prefix) ==
            [UnionProblem(issue.path, prefix, Label(here))] +
            if |trail| < MAX_UNION_DEPTH then DescribeAll(PreorderBranches(issue.unionErrors, here), prefix) else []
  {
    hide UnionProblem, Label, PreorderBranches;
  }

  /** The label a union is given: its segment alone at the top, appended to its list's label below. */
  lemma UnionLabel(trail: seq<nat>, u: nat)
    ensures Label(trail + [u]) ==
            if Label(trail) != [] then Label(trail) + [DOT] + LabelSegment(u, |trail|) else LabelSegment(u, |trail|)
  {
    LabelSnoc(trail, u);
    if trail != [] { LabelNotEmpty(trail); }
  }

  lemma DescribeConcat(a: seq<Visit>, b: seq<Visit>, prefix: Option<Text>)
    ensures DescribeAll(a + b, prefix) == DescribeAll(a, prefix) + DescribeAll(b, prefix)
  {
    hide Describe;
    var whole, parts := DescribeAll(a + b, prefix), DescribeAll(a, prefix) + DescribeAll(b, prefix);
    forall i | 0 <= i < |whole| ensures whole[i] == parts[i] {
      assert whole[i] == Describe((a + b)[i], prefix);
    }
  }

  method ZodProblemDetails(issues: seq<Issue>, prefix: Option<Text>) returns (results: seq<ProblemDetail>)
    ensures results == DescribeAll(Preorder(issues, []), prefix)
  {
    results := TraverseIssues(issues, prefix, [], 0, []);
  }

  // ----- properties of the preorder ---------------------------------------

  /** A visit's trail extends the list's trail. */
  ghost predicate Under(v: Visit, trail: seq<nat>) {
    trail <= v.trail
  }

  lemma {:induction false} PreorderUnder(issues: seq<Issue>, trail: seq<nat>)
    ensures forall i :: 0 <= i < |Preorder(issues, trail)| ==>
                          var v := Preorder(issues, trail)[i];
                          Under(v, trail)
                          && (v.issue.Union? ==> |v.trail| > |trail| && v.trail[|trail|] < UnionsIn(issues))
    decreases issues, 1
  {
    if issues != [] {
      var init, last := issues[..|issues| - 1], issues[|issues| - 1];
      PreorderUnder(init, trail);
      if last.Union? && |trail| < MAX_UNION_DEPTH {
        var here := trail + [UnionsIn(init)];
        BranchesUnder(last.unionErrors, here);
        assert PreorderOne(last, UnionsIn(init), trail) ==
                 [Visit(last, here)] + PreorderBranches(last.unionErrors, here);
      }
    }
  }

  lemma {:induction false} BranchesUnder(branches: seq<UnionError>, trail: seq<nat>)
    ensures forall i :: 0 <= i < |PreorderBranches(branches, trail)| ==>
                          var v := PreorderBranches(branches, trail)[i];
                          Under(v, trail) && |v.trail| > |trail| && v.trail[|trail|] < |branches|
    decreases branches, 0
  {
    if branches != [] {
      var n := |branches| - 1;
      BranchesUnder(branches[..n], trail);
      PreorderUnder(branches[n].issues, trail + [n]);
    }
  }

  ghost predicate LengthOk(v: Visit) {
    if v.issue.Union? then |v.trail| == 1 || |v.trail| == 3 || |v.trail| == 5
    else |v.trail| == 0 || |v.trail| == 2 || |v.trail| == 4
  }

  lemma {:induction false} PreorderLengths(issues: seq<Issue>, trail: seq<nat>)
    requires |trail| == 0 || |trail| == 2 || |trail| == 4
    ensures forall i :: 0 <= i < |Preorder(issues, trail)| ==> LengthOk(Preorder(issues, trail)[i])
    decreases issues, 1
  {
    if issues != [] {
      var init, last := issues[..|issues| - 1], issues[|issues| - 1];
      PreorderLengths(init, trail);
      if last.Union? && |trail| < MAX_UNION_DEPTH {
        var here := trail + [UnionsIn(init)];
        BranchLengths(last.unionErrors, here);
        assert PreorderOne(last, UnionsIn(init), trail) ==
                 [Visit(last, here)] + PreorderBranches(last.unionErrors, here);
      }
    }
  }

  lemma {:induction false} BranchLengths(branches: seq<UnionError>, trail: seq<nat>)
    requires |trail| == 1 || |trail| == 3
    ensures forall i :: 0 <= i < |PreorderBranches(branches, trail)| ==> LengthOk(PreorderBranches(branches, trail)[i])
    decreases branches, 0
  {
    if branches != [] {
      var n := |branches| - 1;
      BranchLengths(branches[..n], trail);
      PreorderLengths(branches[n].issues, trail + [n]);
    }
  }

  /** Every union label has one, three or five segments; a leaf carries the none, two or four of its list. */
  lemma LabelLengths(issues: seq<Issue>)
    ensures forall i :: 0 <= i < |Preorder(issues, [])| ==> LengthOk(Preorder(issues, [])[i])
  {
    PreorderLengths(issues, []);
  }

  // ----- nothing reachable is left out -------------------------------------

  /** Issue `x` of some list is visited with the trail of its list, extended by its own position if it is a union. */
  ghost predicate IsVisited(vs: seq<Visit>, x: Issue, trail: seq<nat>) {
    if x.Leaf? then Visit(x, trail) in vs else exists u: nat :: Visit(x, trail + [u]) in vs
  }

  lemma VisitedMore(part: seq<Visit>, whole: seq<Visit>, x: Issue, trail: seq<nat>)
    requires IsVisited(part, x, trail) && forall v :: v in part ==> v in whole
    ensures IsVisited(whole, x, trail)
  {
    if x.Union? {
      var u: nat :| Visit(x, trail + [u]) in part;
      assert Visit(x, trail + [u]) in whole;
    }
  }

  /** Every issue of a visited list is visited. */
  lemma {:induction false} ListIsVisited(issues: seq<Issue>, trail: seq<nat>, i: nat)
    requires i < |issues|
    ensures IsVisited(Preorder(issues, trail), issues[i], trail)
  {
    hide PreorderBranches, IsVisited;
    var init, last := issues[..|issues| - 1], issues[|issues| - 1];
    var before, one := Preorder(init, trail), PreorderOne(last, UnionsIn(init), trail);
    if i < |init| {
      ListIsVisited(init, trail, i);
      VisitedMore(before, before + one, issues[i], trail);
    } else {
      OneIsVisited(last, UnionsIn(init), trail);
      VisitedMore(one, before + one, last, trail);
    }
  }

  lemma OneIsVisited(x: Issue, u: nat, trail: seq<nat>)
    ensures IsVisited(PreorderOne(x, u, trail), x, trail)
  {
    hide PreorderBranches;
    var v := if x.Leaf? then Visit(x, trail) else Visit(x, trail + [u]);
    assert PreorderOne(x, u, trail)[0] == v;
    assert v in PreorderOne(x, u, trail);
  }

  /** All issues under a visited union are visited. */
  ghost predicate BranchesVisited(vs: seq<Visit>, v: Visit)
    requires v.issue.Union?
  {
    forall b, i :: 0 <= b < |v.issue.unionErrors| && 0 <= i < |v.issue.unionErrors[b].issues| ==>
                     IsVisited(vs, v.issue.unionErrors[b].issues[i], v.trail + [b])
  }

  lemma {:induction false} BranchListVisited(branches: seq<UnionError>, trail: seq<nat>, b: nat, i: nat)
    requires b < |branches| && i < |branches[b].issues|
    ensures IsVisited(PreorderBranches(branches, trail), branches[b].issues[i], trail + [b])
  {
    hide Preorder, IsVisited;
    var n := |branches| - 1;
    var before, last := PreorderBranches(branches[..n], trail), Preorder(branches[n].issues, trail + [n]);
    if b < n {
      BranchListVisited(branches[..n], trail, b, i);
      VisitedMore(before, before + last, branches[b].issues[i], trail + [b]);
    } else {
      ListIsVisited(branches[n].issues, trail + [n], i);
      VisitedMore(last, before + last, branches[n].issues[i], trail + [n]);
    }
  }

  ghost predicate AllDescended(vs: seq<Visit>, whole: seq<Visit>) {
    forall v :: v in vs && v.issue.Union? && (|v.trail| == 1 || |v.trail| == 3) ==> BranchesVisited(whole, v)
  }

  lemma DescendedMore(vs: seq<Visit>, part: seq<Visit>, whole: seq<Visit>)
    requires AllDescended(vs, part) && forall v :: v in part ==> v in whole
    ensures AllDescended(vs, whole)
  {
    hide IsVisited;
    forall v | v in vs && v.issue.Union? && (|v.trail| == 1 || |v.trail| == 3) ensures BranchesVisited(whole, v) {
      assert BranchesVisited(part, v);
      forall b, i | 0 <= b < |v.issue.unionErrors| && 0 <= i < |v.issue.unionErrors[b].issues|
        ensures IsVisited(whole, v.issue.unionErrors[b].issues[i], v.trail + [b])
      {
        VisitedMore(part, whole, v.issue.unionErrors[b].issues[i], v.trail + [b]);
      }
    }
  }

  lemma DescendedConcat(a: seq<Visit>, b: seq<Visit>)
    requires AllDescended(a, a) && AllDescended(b, b)
    ensures AllDescended(a + b, a + b)
  {
    hide BranchesVisited;
    DescendedMore(a, a, a + b);
    DescendedMore(b, b, a + b);
  }

  lemma {:induction false} PreorderDescends(issues: seq<Issue>, trail: seq<nat>)
    requires |trail| % 2 == 0
    ensures AllDescended(Preorder(issues, trail), Preorder(issues, trail))
    decreases issues, 1
  {
    hide AllDescended;
    if issues == [] {
      NothingDescends();
    } else {
      var init, last := issues[..|issues| - 1], issues[|issues| - 1];
      PreorderDescends(init, trail);
      OneDescends(last, UnionsIn(init), trail);
      DescendedConcat(Preorder(init, trail), PreorderOne(last, UnionsIn(init), trail));
    }
  }

  lemma NothingDescends()
    ensures AllDescended([], [])
  {
  }

  lemma OneDescends(issue: Issue, u: nat, trail: seq<nat>)
    requires |trail| % 2 == 0
    ensures AllDescended(PreorderOne(issue, u, trail), PreorderOne(issue, u, trail))
    decreases issue, 2
  {
    hide PreorderBranches, IsVisited;
    if issue.Union? && |trail| < 3 {
      var here := trail + [u];
      var below := PreorderBranches(issue.unionErrors, here);
      var whole := PreorderOne(issue, u, trail);
      assert whole == [Visit(issue, here)] + below;
      BranchesDescend(issue.unionErrors, here);
      DescendedMore(below, below, whole);
      forall b, i | 0 <= b < |issue.unionErrors| && 0 <= i < |issue.unionErrors[b].issues|
        ensures IsVisited(whole, issue.unionErrors[b].issues[i], here + [b])
      {
        BranchListVisited(issue.unionErrors, here, b, i);
        VisitedMore(below, whole, issue.unionErrors[b].issues[i], here + [b]);
      }
      assert BranchesVisited(whole, Visit(issue, here));
    }
  }

  lemma {:induction false} BranchesDescend(branches: seq<UnionError>, trail: seq<nat>)
    requires |trail| % 2 == 1
    ensures AllDescended(PreorderBranches(branches, trail), PreorderBranches(branches, trail))
    decreases branches, 0
  {
    hide AllDescended;
    if branches == [] {
      NothingDescends();
    } else {
      var n := |branches| - 1;
      BranchesDescend(branches[..n], trail);
      PreorderDescends(branches[n].issues, trail + [n]);
      DescendedConcat(PreorderBranches(branches[..n], trail), Preorder(branches[n].issues, trail + [n]));
    }
  }

  /**
   Exactly the right things are visited: every issue of the list, every issue under a visited union whose label has one
   or three segments, and, by `LabelLengths`, nothing deeper.
   */
  lemma NothingReachableIsLeftOut(issues: seq<Issue>, i: nat, v: Visit, b: nat, j: nat)
    ensures i < |issues| ==> IsVisited(Preorder(issues, []), issues[i], [])
    ensures v in Preorder(issues, []) && v.issue.Union? && (|v.trail| == 1 || |v.trail| == 3)
            && b < |v.issue.unionErrors| && j < |v.issue.unionErrors[b].issues| ==>
              IsVisited(Preorder(issues, []), v.issue.unionErrors[b].issues[j], v.trail + [b])
  {
    hide IsVisited, Preorder;
    if i < |issues| { ListIsVisited(issues, [], i); }
    PreorderDescends(issues, []);
    if v in Preorder(issues, []) && v.issue.Union? && (|v.trail| == 1 || |v.trail| == 3) {
      assert BranchesVisited(Preorder(issues, []), v);
    }
  }

  // ----- labels differ by trail --------------------------------------------

  ghost predicate UnionTrailsDiffer(vs: seq<Visit>) {
    forall i, j :: 0 <= i < j < |vs| && vs[i].issue.Union? && vs[j].issue.Union? ==> vs[i].trail != vs[j].trail
  }

  lemma {:induction false} PreorderDistinct(issues: seq<Issue>, trail: seq<nat>)
    ensures UnionTrailsDiffer(Preorder(issues, trail))
    decreases issues, 1
  {
    if issues != [] {
      var init, last := issues[..|issues| - 1], issues[|issues| - 1];
      PreorderDistinct(init, trail);
      PreorderUnder(init, trail);
      if last.Union? {
        var here := trail + [UnionsIn(init)];
        var a := Preorder(init, trail);
        var b := [Visit(last, here)] + if |trail| < MAX_UNION_DEPTH then PreorderBranches(last.unionErrors, here)
                                       else [];
        if |trail| < MAX_UNION_DEPTH {
          BranchesDistinct(last.unionErrors, here);
          BranchesUnder(last.unionErrors, here);
        }
        forall i | 0 <= i < |b| ensures Under(b[i], here) {}
        DistinctConcat(a, b, trail, UnionsIn(init));
        assert Preorder(issues, trail) == a + b;
      }
    }
  }

  /** Unions before position `u` of a list and unions at or below it never share a trail. */
  lemma DistinctConcat(a: seq<Visit>, b: seq<Visit>, trail: seq<nat>, u: nat)
    requires UnionTrailsDiffer(a) && UnionTrailsDiffer(b)
    requires forall i :: 0 <= i < |a| && a[i].issue.Union? ==> |a[i].trail| > |trail| && a[i].trail[|trail|] < u
    requires forall i :: 0 <= i < |b| ==> Under(b[i], trail + [u])
    ensures UnionTrailsDiffer(a + b)
  {
    forall i, j | 0 <= i < |a| && 0 <= j < |b| && a[i].issue.Union? ensures a[i].trail != b[j].trail {
      assert b[j].trail[|trail|] == (trail + [u])[|trail|] == u;
    }
  }

  lemma {:induction false} BranchesDistinct(branches: seq<UnionError>, trail: seq<nat>)
    ensures UnionTrailsDiffer(PreorderBranches(branches, trail))
    decreases branches, 0
  {
    if branches != [] {
      var n := |branches| - 1;
      BranchesDistinct(branches[..n], trail);
      BranchesUnder(branches[..n], trail);
      PreorderDistinct(branches[n].issues, trail + [n]);
      PreorderUnder(branches[n].issues, trail + [n]);
      DistinctConcat(PreorderBranches(branches[..n], trail), Preorder(branches[n].issues, trail + [n]), trail, n);
    }
  }

  // ----- labels ------------------------------------------------------------

  /** The same segments: positions shown as letters count modulo the 16-bit units, numbers in full. */
  ghost predicate Congruent(a: seq<nat>, b: seq<nat>) {
    |a| == |b| && forall d :: 0 <= d < |a| ==> if d % 2 == 0 then a[d] % 0x1_0000 == b[d] % 0x1_0000 else a[d] == b[d]
  }

  /** Shifting by less than a period keeps apart what differs within it. */
  lemma ShiftMod(k: nat, n: nat)
    requires k < 0x1_0000
    ensures (k + n) % 0x1_0000 == var r := n % 0x1_0000; if k + r < 0x1_0000 then k + r else k + r - 0x1_0000
  {
    assert n == 0x1_0000 * (n / 0x1_0000) + n % 0x1_0000;
  }

  lemma LetterIff(k: nat, a: nat, b: nat)
    requires k < 0x1_0000
    ensures FromCharCode(k + a) == FromCharCode(k + b) <==> a % 0x1_0000 == b % 0x1_0000
  {
    ShiftMod(k, a);
    ShiftMod(k, b);
    assert FromCharCode(k + a) == FromCharCode(k + b) <==> FromCharCode(k + a)[0] == FromCharCode(k + b)[0];
  }

  lemma NumberIff(a: nat, b: nat)
    ensures Units(Digits(a + 1)) == Units(Digits(b + 1)) <==> a == b
  {
    hide Digits, Units;
    if Units(Digits(a + 1)) == Units(Digits(b + 1)) {
      UnitsInjective(Digits(a + 1), Digits(b + 1));
      DigitsRoundTrip(a + 1);
      DigitsRoundTrip(b + 1);
    }
  }

  lemma SegmentIff(a: nat, b: nat, depth: nat)
    ensures LabelSegment(a, depth) == LabelSegment(b, depth) <==>
              if depth % 2 == 0 then a % 0x1_0000 == b % 0x1_0000 else a == b
  {
    hide Digits, Units, FromCharCode;
    NumberIff(a, b);
    LetterIff(65, a, b);
    LetterIff(97, a, b);
  }

  lemma UnitsInjective(s: string, t: string)
    requires Units(s) == Units(t) && forall i :: 0 <= i < |s| ==> IsDigit(s[i])
    requires forall i :: 0 <= i < |t| ==> IsDigit(t[i])
    ensures s == t
  {
    assert |s| == |Units(s)| == |t|;
    forall i | 0 <= i < |s| ensures s[i] == t[i] {
      assert Units(s)[i] == Units(t)[i];
    }
  }

  lemma SegmentsAligned(a: nat, b: nat, depth: nat)
    ensures Aligned(LabelSegment(a, depth), LabelSegment(b, depth), DOT)
  {
    if depth % 2 == 1 {
      assert forall i :: 0 <= i < |Digits(a + 1)| ==> LabelSegment(a, depth)[i] == Digits(a + 1)[i] as int;
      assert forall i :: 0 <= i < |Digits(b + 1)| ==> LabelSegment(b, depth)[i] == Digits(b + 1)[i] as int;
    }
  }

  lemma SameLabelIsCongruent(a: seq<nat>, b: seq<nat>)
    requires a != [] && b != [] && Label(a) == Label(b)
    ensures Congruent(a, b)
  {
    hide LabelSegment;
    forall d | 0 <= d < |a| && d < |b| ensures Aligned(Segments(a)[d], Segments(b)[d], DOT) {
      SegmentsAligned(a[d], b[d], d);
    }
    JoinInjective(Segments(a), Segments(b), DOT);
    assert |a| == |Segments(a)| == |Segments(b)| == |b|;
    forall d | 0 <= d < |a| ensures if d % 2 == 0 then a[d] % 0x1_0000 == b[d] % 0x1_0000 else a[d] == b[d] {
      assert Segments(a)[d] == Segments(b)[d];
      SegmentIff(a[d], b[d], d);
    }
  }

  lemma CongruentHaveSameLabel(a: seq<nat>, b: seq<nat>)
    requires Congruent(a, b)
    ensures Label(a) == Label(b)
  {
    hide LabelSegment;
    forall d | 0 <= d < |a| ensures Segments(a)[d] == Segments(b)[d] {
      SegmentIff(a[d], b[d], d);
    }
    assert Segments(a) == Segments(b);
  }

  /** A label determines its trail up to the wrap-around of letters, dots among them included, and nothing more. */
  lemma LabelIff(a: seq<nat>, b: seq<nat>)
    ensures Label(a) == Label(b) <==> Congruent(a, b)
  {
    hide Congruent, Label;
    if Congruent(a, b) {
      CongruentHaveSameLabel(a, b);
    } else if a != [] && b != [] {
      if Label(a) == Label(b) { SameLabelIsCongruent(a, b); }
    } else {
      EmptyIsAlone(a, b);
    }
  }

  lemma EmptyIsAlone(a: seq<nat>, b: seq<nat>)
    requires a == [] || b == []
    ensures Label(a) == Label(b) <==> Congruent(a, b)
  {
    if a != [] { LabelNotEmpty(a); }
    if b != [] { LabelNotEmpty(b); }
  }

  // ----- when labels are distinct ------------------------------------------

  const LETTERS := 0x1_0000

  /** No list the traversal visits, starting at this depth, has more unions than there are letters. */
  ghost predicate FewUnions(issues: seq<Issue>, depth: nat)
    decreases issues, 1
  {
    && UnionsIn(issues) <= LETTERS
    && (depth < MAX_UNION_DEPTH ==>
          forall i :: 0 <= i < |issues| && issues[i].Union? ==> FewUnionsBelow(issues[i].unionErrors, depth + 2))
  }

  ghost predicate FewUnionsBelow(branches: seq<UnionError>, depth: nat)
    decreases branches, 0
  {
    forall i :: 0 <= i < |branches| ==> FewUnions(branches[i].issues, depth)
  }

  ghost predicate Lettered(trail: seq<nat>) {
    forall d :: 0 <= d < |trail| && d % 2 == 0 ==> trail[d] < LETTERS
  }

  lemma {:induction false} PreorderLettered(issues: seq<Issue>, trail: seq<nat>)
    requires FewUnions(issues, |trail|) && Lettered(trail) && |trail| % 2 == 0
    ensures forall i :: 0 <= i < |Preorder(issues, trail)| ==> Lettered(Preorder(issues, trail)[i].trail)
    decreases issues, 1
  {
    if issues != [] {
      var init, last := issues[..|issues| - 1], issues[|issues| - 1];
      FewUnionsInit(issues, |trail|);
      PreorderLettered(init, trail);
      if last.Union? {
        var here := trail + [UnionsIn(init)];
        assert Lettered(here);
        if |trail| < MAX_UNION_DEPTH {
          BranchesLettered(last.unionErrors, here);
          assert PreorderOne(last, UnionsIn(init), trail) ==
                   [Visit(last, here)] + PreorderBranches(last.unionErrors, here);
        }
      }
    }
  }

  lemma {:induction false} BranchesLettered(branches: seq<UnionError>, trail: seq<nat>)
    requires FewUnionsBelow(branches, |trail| + 1) && Lettered(trail) && |trail| % 2 == 1
    ensures forall i :: 0 <= i < |PreorderBranches(branches, trail)| ==>
              Lettered(PreorderBranches(branches, trail)[i].trail)
    decreases branches, 0
  {
    if branches != [] {
      var n := |branches| - 1;
      FewBelowInit(branches, |trail| + 1);
      BranchesLettered(branches[..n], trail);
      assert Lettered(trail + [n]);
      PreorderLettered(branches[n].issues, trail + [n]);
    }
  }

  /** A list is within the limit exactly if it is without its last issue, and that issue keeps it so. */
  lemma FewUnionsInit(issues: seq<Issue>, depth: nat)
    requires issues != []
    ensures FewUnions(issues, depth) <==>
            var last := issues[|issues| - 1];
            && FewUnions(issues[..|issues| - 1], depth) && UnionsIn(issues) <= LETTERS
            && (last.Union? && depth < MAX_UNION_DEPTH ==> FewUnionsBelow(last.unionErrors, depth + 2))
  {
    var init := issues[..|issues| - 1];
    assert forall i :: 0 <= i < |init| ==> init[i] == issues[i];
  }

  lemma FewBelowInit(branches: seq<UnionError>, depth: nat)
    requires branches != []
    ensures FewUnionsBelow(branches, depth) <==>
            FewUnionsBelow(branches[..|branches| - 1], depth) && FewUnions(branches[|branches| - 1].issues, depth)
  {
    var init := branches[..|branches| - 1];
    assert forall i :: 0 <= i < |init| ==> init[i] == branches[i];
  }

  /** Every union of a visited list is visited, with its own position. */
  lemma {:induction false} UnionsAreVisited(issues: seq<Issue>, trail: seq<nat>, u: nat) returns (v: Visit)
    requires u < UnionsIn(issues)
    ensures v in Preorder(issues, trail) && v.issue.Union? && v.trail == trail + [u]
  {
    hide PreorderBranches;
    var init, last := issues[..|issues| - 1], issues[|issues| - 1];
    var before, more := Preorder(init, trail), PreorderOne(last, UnionsIn(init), trail);
    if u < UnionsIn(init) {
      v := UnionsAreVisited(init, trail, u);
      InConcat(before, more, v);
    } else {
      v := Visit(last, trail + [u]);
      assert more[0] == v;
      InConcat(before, more, v);
    }
  }

  lemma InConcat(a: seq<Visit>, b: seq<Visit>, v: Visit)
    requires v in a || v in b
    ensures v in a + b
  {
  }

  /** Two different visited unions get one label. */
  ghost predicate LabelsCollide(vs: seq<Visit>) {
    exists v, w ::
      v in vs && w in vs && v.issue.Union? && w.issue.Union? && v.trail != w.trail && Congruent(v.trail, w.trail)
  }

  lemma CollideIn(part: seq<Visit>, whole: seq<Visit>)
    requires LabelsCollide(part) && forall v :: v in part ==> v in whole
    ensures LabelsCollide(whole)
  {
  }

  lemma {:induction false} ManyUnionsCollide(issues: seq<Issue>, trail: seq<nat>)
    requires !FewUnions(issues, |trail|) && |trail| % 2 == 0
    ensures LabelsCollide(Preorder(issues, trail))
    decreases issues, 1
  {
    hide Congruent, LabelsCollide, FewUnionsBelow, PreorderBranches;
    if issues != [] {
      var init, last := issues[..|issues| - 1], issues[|issues| - 1];
      FewUnionsInit(issues, |trail|);
      if !FewUnions(init, |trail|) {
        ManyUnionsCollide(init, trail);
        CollideIn(Preorder(init, trail), Preorder(issues, trail));
      } else if UnionsIn(issues) > LETTERS {
        TooManyUnionsCollide(issues, trail);
      } else {
        var here := trail + [UnionsIn(init)];
        BranchesCollide(last.unionErrors, here);
        assert PreorderOne(last, UnionsIn(init), trail) ==
                 [Visit(last, here)] + PreorderBranches(last.unionErrors, here);
        CollideIn(PreorderBranches(last.unionErrors, here), Preorder(issues, trail));
      }
    }
  }

  lemma {:induction false} BranchesCollide(branches: seq<UnionError>, trail: seq<nat>)
    requires !FewUnionsBelow(branches, |trail| + 1) && |trail| % 2 == 1
    ensures LabelsCollide(PreorderBranches(branches, trail))
    decreases branches, 0
  {
    hide Congruent, LabelsCollide, FewUnions, Preorder;
    if branches != [] {
      var n := |branches| - 1;
      FewBelowInit(branches, |trail| + 1);
      if !FewUnionsBelow(branches[..n], |trail| + 1) {
        BranchesCollide(branches[..n], trail);
        CollideIn(PreorderBranches(branches[..n], trail), PreorderBranches(branches, trail));
      } else {
        ManyUnionsCollide(branches[n].issues, trail + [n]);
        CollideIn(Preorder(branches[n].issues, trail + [n]), PreorderBranches(branches, trail));
      }
    }
  }

  lemma TooManyUnionsCollide(issues: seq<Issue>, trail: seq<nat>)
    requires UnionsIn(issues) > LETTERS && |trail| % 2 == 0
    ensures LabelsCollide(Preorder(issues, trail))
  {
    hide Preorder, UnionsIn, Congruent;
    var v := UnionsAreVisited(issues, trail, 0);
    var w := UnionsAreVisited(issues, trail, LETTERS);
    assert v.trail[|trail|] != w.trail[|trail|];
    WrappedIsCongruent(trail);
  }

  lemma WrappedIsCongruent(trail: seq<nat>)
    ensures Congruent(trail + [0], trail + [LETTERS]) || |trail| % 2 == 1
  {
    assert LETTERS % 0x1_0000 == 0 % 0x1_0000;
  }

  ghost predicate UnionLabelsDiffer(vs: seq<Visit>) {
    forall i, j :: 0 <= i < j < |vs| && vs[i].issue.Union? && vs[j].issue.Union? ==>
      Label(vs[i].trail) != Label(vs[j].trail)
  }

  /**
   No two union problems carry the same label exactly when no visited list has more than 65536 sibling unions: the
   alphabet goes on far beyond the twenty-six letters, until it wraps around.
   */
  lemma UnionLabelsDifferIff(issues: seq<Issue>)
    ensures UnionLabelsDiffer(Preorder(issues, [])) <==> FewUnions(issues, 0)
  {
    hide Preorder, FewUnions, UnionLabelsDiffer;
    if FewUnions(issues, 0) {
      PreorderDistinct(issues, []);
      PreorderLettered(issues, []);
      LetteredLabelsDiffer(Preorder(issues, []));
    } else {
      ManyUnionsCollide(issues, []);
      CollidingLabels(Preorder(issues, []));
    }
  }

  lemma LetteredLabelsDiffer(vs: seq<Visit>)
    requires UnionTrailsDiffer(vs) && forall i :: 0 <= i < |vs| ==> Lettered(vs[i].trail)
    ensures UnionLabelsDiffer(vs)
  {
    hide Label, Lettered, Congruent;
    forall i, j | 0 <= i < j < |vs| && vs[i].issue.Union? && vs[j].issue.Union?
      ensures Label(vs[i].trail) != Label(vs[j].trail)
    {
      LabelIff(vs[i].trail, vs[j].trail);
      LetteredDiffer(vs[i].trail, vs[j].trail);
    }
  }

  lemma CollidingLabels(vs: seq<Visit>)
    requires LabelsCollide(vs)
    ensures !UnionLabelsDiffer(vs)
  {
    hide Label, Congruent;
    var v, w :| v in vs && w in vs && v.issue.Union? && w.issue.Union? && v.trail != w.trail
                && Congruent(v.trail, w.trail);
    LabelIff(v.trail, w.trail);
    var i, j :| 0 <= i < |vs| && 0 <= j < |vs| && vs[i] == v && vs[j] == w;
    assert i != j;
  }

  lemma LetteredDiffer(a: seq<nat>, b: seq<nat>)
    requires Lettered(a) && Lettered(b) && a != b
    ensures !Congruent(a, b)
  {
    if |a| == |b| {
      var d :| 0 <= d < |a| && a[d] != b[d];
      assert a[d] % 0x1_0000 == b[d] % 0x1_0000 ==> d % 2 == 1;
    }
  }
}
