/** Inputs of the coverage gate at which its promises end. */
module Limits {
  import opened Text
  import opened Sorting
  import opened Diff
  import opened Profile
  import opened Coverage
  import opened Gate

  // ---------------------------------------------------------------- measuring by hand

  lemma OneName(pick: string -> seq<Block>, name: string, only: bool)
    ensures SumOver({name}, pick, only) == Stmts(pick(name), only)
  {
    hide Stmts;
    SumTakesAnyName({name}, pick, only, name);
    assert {name} - {name} == {};
  }

  lemma TwoBlocks(a: Block, b: Block)
    ensures AddsBlock([], a, [a]) && AddsBlock([a], b, [a, b]) && Stmts([], false) == 0 && Stmts([], true) == 0
  {
    assert [a][..0] == [] && [a, b][..1] == [a];
  }

  lemma TouchedOfTwo(a: Block, b: Block, changed: LineSets, path: string)
    ensures TouchedBlocks([a], changed, path) == if FoundTouched(changed, path, a.startLine, a.endLine) then [a] else []
    ensures TouchedBlocks([a, b], changed, path) ==
            TouchedBlocks([a], changed, path) + if FoundTouched(changed, path, b.startLine, b.endLine) then [b] else []
  {
    hide FoundTouched;
    assert [a][..0] == [] && [a, b][..1] == [a];
    assert TouchedBlocks([], changed, path) == [];
  }

  const ONE_CHANGED_LINE: LineSets := map["a.go" := {1}]

  lemma OneFileName(path: string)
    ensures "m" + "/" + path == "m/a.go" <==> path == "a.go"
  {
    assert "m" + "/" + "a.go" == "m/a.go";
    if "m" + "/" + path == "m/a.go" {
      assert path == ("m" + "/" + path)[2..] == "a.go";
    }
  }

  /** The measurement of a profile with one file that has changed. */
  lemma OneFileMeasured(blocks: seq<Block>, touched: seq<Block>)
    requires touched == TouchedBlocks(blocks, ONE_CHANGED_LINE, "a.go") != []
    ensures var f := FileStats("a.go", Wrap64(Stmts(touched, false)), Wrap64(Stmts(touched, true)));
            Measures(Profile("set", map["m/a.go" := blocks]), ONE_CHANGED_LINE, "m",
                     Coverage(Wrap64(Stmts(blocks, false)), Wrap64(Stmts(blocks, true)), f.total, f.covered, [f], []))
  {
    var p, name := Profile("set", map["m/a.go" := blocks]), "m/a.go";
    var f := FileStats("a.go", Wrap64(Stmts(touched, false)), Wrap64(Stmts(touched, true)));
    hide TouchedBlocks, Stmts, WorseFirst, Wrap64;
    OneFileName("a.go");
    RepoPathInverse("m", name, "a.go");
    assert ChangedBlocks(p, ONE_CHANGED_LINE, "m", name) == touched;
    assert p.blocks.Keys == {name};
    OneName(AllPick(p), name, false);
    OneName(AllPick(p), name, true);
    OneName(ChangedPick(p, ONE_CHANGED_LINE, "m"), name, false);
    OneName(ChangedPick(p, ONE_CHANGED_LINE, "m"), name, true);
    hide SumOver, RepoPath;
    forall g ensures g in [f] <==> IsFileOf(p, ONE_CHANGED_LINE, "m", g) {
      OneFileName(g.path);
    }
    OneFileSum(f);
    WrapsTwiceIsOnce(Stmts(touched, false));
    WrapsTwiceIsOnce(Stmts(touched, true));
  }

  lemma OneFileSum(f: FileStats)
    ensures SumFiles([f], false) == f.total && SumFiles([f], true) == f.covered
  {
    assert [f][..0] == [];
  }

  lemma WrapsTwiceIsOnce(x: int)
    ensures Wrap64(Wrap64(x)) == Wrap64(x)
  {
  }

  // ---------------------------------------------------------------- a repository too large for the gate

  /** One changed line, covered, and the rest of the repository not. */
  function WrappingProfile(n: int): Profile
    requires n > 0
  {
    Profile("set", map["m/a.go" := [CoveredBlock(WrappingPart(n)), UncoveredBlock(n - WrappingPart(n))]])
  }

  function CoveredBlock(statements: int): Block { Block(1, 1, 1, 9, statements, 1) }

  function UncoveredBlock(statements: int): Block { Block(2, 1, 2, 9, statements, 0) }

  /** Its measurement is the one that the gate compares wrongly. */
  lemma WrappingProfileIsMeasured(n: int)
    requires SAFE_TOTAL + 2 <= n <= MAX_INT64
    ensures StaysInRange(WrappingProfile(n))
    ensures Measures(WrappingProfile(n), ONE_CHANGED_LINE, "m", WrappingFigures(n))
    ensures BelowRepoAverage(WrappingFigures(n)) && !ComparedExactly(WrappingFigures(n))
  {
    GateWrapsBeyondTheBound(n);
    WrappingPartBounds(n);
    var t := WrappingPart(n);
    assert t <= n by { assert Sound(WrappingFigures(n)); }
    hide Measures, StaysInRange, BelowRepoAverage, ComparedExactly;
    CoveredPartMeasured(t, n - t);
  }

  lemma CoveredPartMeasured(t: int, rest: int)
    requires 0 < t && 0 <= rest && t + rest <= MAX_INT64
    ensures var p := Profile("set", map["m/a.go" := [CoveredBlock(t), UncoveredBlock(rest)]]);
            && StaysInRange(p)
            && Measures(p, ONE_CHANGED_LINE, "m", Coverage(t + rest, t, t, t, [FileStats("a.go", t, t)], []))
  {
    var a, b := CoveredBlock(t), UncoveredBlock(rest);
    var p := Profile("set", map["m/a.go" := [a, b]]);
    TwoBlocks(a, b);
    TouchedOfTwo(a, b, ONE_CHANGED_LINE, "a.go");
    LinesTouched();
    hide Stmts, TouchedBlocks, FoundTouched;
    assert TouchedBlocks([a, b], ONE_CHANGED_LINE, "a.go") == [a];
    hide Measures;
    OneFileMeasured([a, b], [a]);
    assert p.blocks.Keys == {"m/a.go"};
    OneName(AllPick(p), "m/a.go", false);
    assert AllCounted([a, b]);
  }

  lemma LinesTouched()
    ensures FoundTouched(ONE_CHANGED_LINE, "a.go", 1, 1) && !FoundTouched(ONE_CHANGED_LINE, "a.go", 2, 2)
  {
    assert 1 in LinesOf(ONE_CHANGED_LINE, "a.go");
  }

  /** The lines of a coverage profile that say so. */
  function WrappingLines(n: int): seq<string>
    requires n > 0
  {
    ["mode: set", RenderLine("m/a.go", CoveredBlock(WrappingPart(n))), RenderLine("m/a.go", UncoveredBlock(n - WrappingPart(n)))]
  }

  lemma NoModeLine(b: Block)
    ensures !HasPrefix(RenderLine("m/a.go", b), "mode:") && !IsSpace("m/a.go"[0])
  {
    hide RenderBlock;
    assert RenderLine("m/a.go", b)[1] == '/' && "mode:"[1] == 'o';
  }

  lemma WrappingLinesAreRead(n: int)
    requires SAFE_TOTAL + 2 <= n <= MAX_INT64
    ensures Accepted(Kinds(WrappingLines(n))) && Describes(Kinds(WrappingLines(n)), WrappingProfile(n))
  {
    var a, b := CoveredBlock(WrappingPart(n)), UncoveredBlock(n - WrappingPart(n));
    WrappingPartBounds(n);
    hide WrappingPart;
    assert IsBlock(a) && IsBlock(b);
    hide RenderLine, Accepted, Describes;
    LinesAreKinds(a, b);
    TwoRecords(Kinds(WrappingLines(n)), "m/a.go", a, b);
  }

  lemma LinesAreKinds(a: Block, b: Block)
    requires IsBlock(a) && IsBlock(b)
    ensures Kinds(["mode: set", RenderLine("m/a.go", a), RenderLine("m/a.go", b)]) ==
            [Mode("set"), Record("m/a.go", a), Record("m/a.go", b)]
  {
    hide KindOf, RenderLine, IsBlock;
    ModeLineIsRead();
    NoModeLine(a);
    NoModeLine(b);
    RecordRoundTrip("m/a.go", a);
    RecordRoundTrip("m/a.go", b);
  }

  lemma TwoRecords(kinds: seq<Kind>, name: string, a: Block, b: Block)
    requires kinds == [Mode("set"), Record(name, a), Record(name, b)] && a.startLine < b.startLine
    ensures Accepted(kinds) && Describes(kinds, Profile("set", map[name := [a, b]]))
  {
    var p := Profile("set", map[name := [a, b]]);
    TwoRecordsMode(kinds, name, a, b);
    hide FinalMode;
    assert Unreadable !in kinds;
    forall n, c ensures Record(n, c) in kinds <==> n == name && (c == a || c == b) {}
    forall n, c, d | Record(n, c) in kinds && Record(n, d) in kinds && PositionOf(n, c) == PositionOf(n, d)
      ensures c == d
    {
    }
    forall c ensures c in p.blocks[name] <==> IsMerged(kinds, name, c) {}
    assert Record(name, a) in kinds;
    forall n ensures n in p.blocks <==> exists c :: Record(n, c) in kinds {}
  }

  lemma TwoRecordsMode(kinds: seq<Kind>, name: string, a: Block, b: Block)
    requires kinds == [Mode("set"), Record(name, a), Record(name, b)]
    ensures FinalMode(kinds) == "set"
  {
    assert kinds[..2] == [Mode("set"), Record(name, a)] && kinds[..2][..1] == [Mode("set")];
    assert FinalMode([Mode("set")]) == "set";
    assert FinalMode([Mode("set"), Record(name, a)]) == "set";
  }

  // ---------------------------------------------------------------- a diff as git prints it

  const REPLACED := HunkText(3, 1, true, 3, 2, false, " func F() {", ["-old", "+new", "+++ b/other.go"])
  const REMOVED := HunkText(9, 2, false, 10, 0, false, "", ["-x", "-y"])
  const FIRST_LINE := HunkText(0, 0, false, 1, 1, true, "", ["+x"])
  const LAST_GONE := HunkText(1, 1, true, 0, 0, false, "", ["-z"])

  const CODE_SECTION := Section("a/pkg/a.go b/pkg/a.go", ["--- a/pkg/a.go"], File("pkg/a.go"), [REPLACED, REMOVED])
  const TEST_SECTION := Section("a/pkg/a_test.go b/pkg/a_test.go", [], File("pkg/a_test.go"), [FIRST_LINE])
  const GONE_SECTION := Section("a/b.go b/b.go", [], Deleted, [LAST_GONE])

  const CODE_LINES := [
    "diff --git a/pkg/a.go b/pkg/a.go", "--- a/pkg/a.go", "+++ b/pkg/a.go",
    "@@ -3 +3,2 @@ func F() {", "-old", "+new", "+++ b/other.go",
    "@@ -9,2 +10,0 @@", "-x", "-y"
  ]
  const TEST_LINES := ["diff --git a/pkg/a_test.go b/pkg/a_test.go", "+++ b/pkg/a_test.go", "@@ -0,0 +1 @@", "+x"]
  const GONE_LINES := ["diff --git a/b.go b/b.go", "+++ /dev/null", "@@ -1 +0,0 @@", "-z"]

  lemma SmallHeaders()
    ensures RenderHeader(REPLACED) == "@@ -3 +3,2 @@ func F() {" && RenderHeader(REMOVED) == "@@ -9,2 +10,0 @@"
    ensures RenderHeader(FIRST_LINE) == "@@ -0,0 +1 @@" && RenderHeader(LAST_GONE) == "@@ -1 +0,0 @@"
  {
    SmallDecimals();
    hide Decimal;
    assert RenderRange(3, 1, true) == "3" && RenderRange(3, 2, false) == "3,2";
    assert RenderRange(9, 2, false) == "9,2" && RenderRange(10, 0, false) == "10,0";
    assert RenderRange(0, 0, false) == "0,0" && RenderRange(1, 1, true) == "1";
    hide RenderRange;
  }

  lemma SmallDecimals()
    ensures Decimal(0) == "0" && Decimal(1) == "1" && Decimal(2) == "2" && Decimal(3) == "3" && Decimal(9) == "9" && Decimal(10) == "10"
  {
  }

  /** A hunk whose body consists of counted lines, as many as the header says. */
  lemma HunkOfCounted(h: HunkText)
    requires (h.oldShort ==> h.oldCount == 1) && (h.newShort ==> h.newCount == 1) && (h.newStart == 0 ==> h.newCount == 0)
    requires h.oldStart <= MAX_INT64 && h.newStart <= MAX_INT64 && h.oldCount + h.newCount == |h.body| <= MAX_INT64
    requires forall i :: 0 <= i < |h.body| ==> h.body[i] != "" && (h.body[i][0] == '+' || h.body[i][0] == '-')
    ensures IsHunk(h)
  {
    Counts(h.body);
  }

  lemma {:induction false} Counts(body: seq<string>)
    requires forall i :: 0 <= i < |body| ==> body[i] != "" && (body[i][0] == '+' || body[i][0] == '-')
    ensures CountedLines(body) == |body| && forall i :: 0 <= i < |body| ==> IsCountedLine(body[i])
  {
    if body != [] {
      Counts(body[1..]);
    }
  }

  lemma SmallSections()
    ensures IsSection(CODE_SECTION) && IsSection(TEST_SECTION) && IsSection(GONE_SECTION)
  {
    hide IsHunk;
    HunkOfCounted(REPLACED);
    HunkOfCounted(REMOVED);
    HunkOfCounted(FIRST_LINE);
    HunkOfCounted(LAST_GONE);
    assert "--- a/pkg/a.go"[0] == '-' && "diff --git "[0] == 'd' && "+++ "[0] == '+' && "@@ "[0] == '@';
  }

  lemma CodeSectionText()
    ensures RenderSection(CODE_SECTION) == CODE_LINES
  {
    hide RenderHeader, RenderHunks;
    SmallHeaders();
    HunkTexts(REPLACED, REMOVED);
    assert "+++ b/" + "pkg/a.go" == "+++ b/pkg/a.go";
    assert "diff --git " + "a/pkg/a.go b/pkg/a.go" == "diff --git a/pkg/a.go b/pkg/a.go";
  }

  lemma TestSectionText()
    ensures RenderSection(TEST_SECTION) == TEST_LINES
  {
    hide RenderHeader, RenderHunks;
    SmallHeaders();
    HunkTexts(FIRST_LINE, FIRST_LINE);
    assert "+++ b/" + "pkg/a_test.go" == "+++ b/pkg/a_test.go";
    assert "diff --git " + "a/pkg/a_test.go b/pkg/a_test.go" == "diff --git a/pkg/a_test.go b/pkg/a_test.go";
  }

  lemma GoneSectionText()
    ensures RenderSection(GONE_SECTION) == GONE_LINES
  {
    hide RenderHeader, RenderHunks;
    SmallHeaders();
    HunkTexts(LAST_GONE, LAST_GONE);
    assert "diff --git " + "a/b.go b/b.go" == "diff --git a/b.go b/b.go";
  }

  lemma SmallDiffText()
    ensures RenderDiff([CODE_SECTION, TEST_SECTION, GONE_SECTION]) == CODE_LINES + TEST_LINES + GONE_LINES
  {
    hide RenderSection;
    CodeSectionText();
    TestSectionText();
    GoneSectionText();
    SectionTexts(CODE_SECTION, TEST_SECTION, GONE_SECTION);
  }

  lemma HunkTexts(h: HunkText, k: HunkText)
    ensures RenderHunks([h]) == [RenderHeader(h)] + h.body
    ensures RenderHunks([h, k]) == [RenderHeader(h)] + h.body + [RenderHeader(k)] + k.body
  {
    hide RenderHeader;
    assert [h][1..] == [] && [h, k][1..] == [k] && [k][1..] == [];
    assert RenderHunks([]) == [];
  }

  lemma SectionTexts(a: Section, b: Section, c: Section)
    ensures RenderDiff([a, b, c]) == RenderSection(a) + RenderSection(b) + RenderSection(c)
  {
    hide RenderSection;
    assert [a, b, c][1..] == [b, c] && [b, c][1..] == [c] && [c][1..] == [];
    assert RenderDiff([c]) == RenderSection(c) + RenderDiff([]);
  }

  lemma SmallHunkLines()
    ensures HunkLines([REPLACED, REMOVED]) == {3, 4}
  {
    assert Wrap64(3) == 3 && Wrap64(4) == 4;
    hide Wrap64;
    assert RangeSet(3, 0) == {} && RangeSet(3, 1) == {3} && RangeSet(3, 2) == {3, 4} && RangeSet(10, 0) == {};
    assert [REPLACED, REMOVED][1..] == [REMOVED] && [REMOVED][1..] == [];
    assert HunkLines([REMOVED]) == {};
  }

  lemma SmallReach(path: string, line: int)
    ensures Reaches(CODE_SECTION, path, line) <==> path == "pkg/a.go" && line in {3, 4}
    ensures !Reaches(TEST_SECTION, path, line) && !Reaches(GONE_SECTION, path, line)
  {
    SmallHunkLines();
    hide HunkLines, IsRelevantGoFile;
    NamesBySuffix("pkg/a");
    assert "pkg/a" + ".go" == "pkg/a.go" && "pkg/a" + "_test.go" == "pkg/a_test.go";
    assert "pkg/a"[0] == 'p';
  }

  /** Of a changed file, a test file and a deleted file only the two lines added to the first are read. */
  lemma SmallDiffIsRead()
    ensures ChangedOf(CODE_LINES + TEST_LINES + GONE_LINES) == Some(map["pkg/a.go" := {3, 4}])
  {
    var sections := [CODE_SECTION, TEST_SECTION, GONE_SECTION];
    SmallDiffText();
    SmallSections();
    hide IsSection, RenderDiff, ChangedOf, Reaches, LinesOf;
    assert sections[0] == CODE_SECTION && sections[1] == TEST_SECTION && sections[2] == GONE_SECTION;
    assert forall i :: 0 <= i < |sections| ==> IsSection(sections[i]);
    DiffIsRead(sections);
    var m := ChangedOf(CODE_LINES + TEST_LINES + GONE_LINES).value;
    forall path, line: int ensures line in LinesOf(m, path) <==> path == "pkg/a.go" && line in {3, 4} {
      SmallReach(path, line);
      assert Reaches(sections[0], path, line) <==> path == "pkg/a.go" && line in {3, 4};
    }
    OneEntry(m, "pkg/a.go", 3, 4);
  }

  lemma OneEntry(m: LineSets, name: string, a: int, b: int)
    requires forall path :: path in m ==> m[path] != {}
    requires forall path, line: int :: line in LinesOf(m, path) <==> path == name && line in {a, b}
    ensures m == map[name := {a, b}]
  {
    assert a in LinesOf(m, name);
    forall path | path in m ensures path == name {
      var line := Member(m[path]);
      assert line in LinesOf(m, path);
    }
    assert m[name] == LinesOf(m, name);
    forall line ensures line in m[name] <==> line in {a, b} { assert line in LinesOf(m, name) <==> line in {a, b}; }
    assert m[name] == {a, b} && m.Keys == {name};
  }

  // ---------------------------------------------------------------- a hunk at the greatest line number

  const OVERLONG := HunkText(0, 0, false, MAX_INT64, 2, false, "", ["+a", "+b"])

  const OVERLONG_SECTION := Section("a/a.go b/a.go", [], File("a.go"), [OVERLONG])

  lemma OverlongIsSection()
    ensures IsSection(OVERLONG_SECTION) && IsMeasured(OVERLONG_SECTION, "a.go")
  {
    assert ["+a", "+b"][1..] == ["+b"] && ["+b"][1..] == [];
    assert CountedLines(["+b"]) == 1 && CountedLines(["+a", "+b"]) == 2;
  }

  lemma OverlongLines()
    ensures HunkLines([OVERLONG]) == {MAX_INT64, MIN_INT64}
  {
    assert Wrap64(MAX_INT64 + 1) == MIN_INT64 && Wrap64(MAX_INT64) == MAX_INT64;
    hide Wrap64;
    assert RangeSet(MAX_INT64, 0) == {};
    assert RangeSet(MAX_INT64, 1) == {MAX_INT64};
    assert RangeSet(MAX_INT64, 2) == {MAX_INT64, MIN_INT64};
    assert [OVERLONG][1..] == [] && HunkLines([]) == {};
  }

  /** Of a hunk of two lines at the greatest 64-bit number, the second is read as the least. */
  lemma OverlongHunkWraps()
    ensures IsSection(OVERLONG_SECTION) && ChangedOf(RenderDiff([OVERLONG_SECTION])).Some?
    ensures LinesOf(ChangedOf(RenderDiff([OVERLONG_SECTION])).value, "a.go") == {MAX_INT64, MIN_INT64}
  {
    var sections := [OVERLONG_SECTION];
    OverlongIsSection();
    OverlongLines();
    hide RenderDiff, ChangedOf, IsSection, LinesOf, HunkLines, IsMeasured;
    assert sections[0] == OVERLONG_SECTION;
    DiffIsRead(sections);
    forall line ensures line in LinesOf(ChangedOf(RenderDiff(sections)).value, "a.go") <==> line in {MAX_INT64, MIN_INT64} {
      assert Reaches(sections[0], "a.go", line) <==> line in {MAX_INT64, MIN_INT64};
    }
  }

  // ---------------------------------------------------------------- a block at the greatest line number

  const ELSEWHERE := Block(5, 1, 5, 9, 1, 1)

  const AT_LAST_LINE := Block(MAX_INT64, 1, MAX_INT64, 9, 1, 0)

  const LAST_LINE_PROFILE := Profile("set", map["m/a.go" := [ELSEWHERE, AT_LAST_LINE]])

  /**
   Line 1 has changed.  The walk from the last block's line wraps and finds it: the block is counted as
   changed and, uncovered, fails a change that touches no block at all.
   */
  lemma LastLineIsMisread()
    ensures !Touched(ONE_CHANGED_LINE, "a.go", 5, 5) && !Touched(ONE_CHANGED_LINE, "a.go", MAX_INT64, MAX_INT64)
    ensures Misread(ONE_CHANGED_LINE, "a.go", AT_LAST_LINE)
    ensures var c := Coverage(2, 1, 1, 0, [FileStats("a.go", 1, 0)], []);
            Measures(LAST_LINE_PROFILE, ONE_CHANGED_LINE, "m", c) && BelowRepoAverage(c)
  {
    WalkPassesLastLine();
    hide Touched, WalksPastItsEnd;
    TwoBlocks(ELSEWHERE, AT_LAST_LINE);
    TwoBlocks(AT_LAST_LINE, AT_LAST_LINE);
    TouchedOfTwo(ELSEWHERE, AT_LAST_LINE, ONE_CHANGED_LINE, "a.go");
    hide Stmts, TouchedBlocks, Measures;
    assert TouchedBlocks([ELSEWHERE, AT_LAST_LINE], ONE_CHANGED_LINE, "a.go") == [] + [AT_LAST_LINE] == [AT_LAST_LINE];
    OneFileMeasured([ELSEWHERE, AT_LAST_LINE], [AT_LAST_LINE]);
  }

  lemma WalkPassesLastLine()
    ensures !Touched(ONE_CHANGED_LINE, "a.go", 5, 5) && !WalksPastItsEnd(ONE_CHANGED_LINE, "a.go", 5, 5)
    ensures !Touched(ONE_CHANGED_LINE, "a.go", MAX_INT64, MAX_INT64) && WalksPastItsEnd(ONE_CHANGED_LINE, "a.go", MAX_INT64, MAX_INT64)
  {
    assert |ONE_CHANGED_LINE["a.go"]| == 1;
  }

  /** Three lines of text are read as that profile. */
  lemma LastLineIsRead()
    ensures var kinds := Kinds(["mode: set", RenderLine("m/a.go", ELSEWHERE), RenderLine("m/a.go", AT_LAST_LINE)]);
            Accepted(kinds) && Describes(kinds, LAST_LINE_PROFILE)
  {
    assert IsBlock(ELSEWHERE) && IsBlock(AT_LAST_LINE);
    hide RenderLine, Accepted, Describes;
    LinesAreKinds(ELSEWHERE, AT_LAST_LINE);
    TwoRecords(Kinds(["mode: set", RenderLine("m/a.go", ELSEWHERE), RenderLine("m/a.go", AT_LAST_LINE)]), "m/a.go",
               ELSEWHERE, AT_LAST_LINE);
  }

  // ---------------------------------------------------------------- an empty file in the report

  function OneLine(statements: int, count: int): seq<Block> { [Block(1, 1, 1, 9, statements, count)] }

  const THREE_FILES := Profile("set", map["m/a.go" := OneLine(1, 1), "m/b.go" := OneLine(0, 0), "m/c.go" := OneLine(1, 0)])

  const THREE_CHANGED: LineSets := map["a.go" := {1}, "b.go" := {1}, "c.go" := {1}]

  const FULL_FILE := FileStats("a.go", 1, 1)
  const EMPTY_FILE := FileStats("b.go", 0, 0)
  const BARE_FILE := FileStats("c.go", 1, 0)

  lemma FilesCycle()
    ensures WorseFirst(FULL_FILE, EMPTY_FILE) && WorseFirst(EMPTY_FILE, BARE_FILE) && WorseFirst(BARE_FILE, FULL_FILE)
    ensures !WorseFirst(EMPTY_FILE, FULL_FILE) && !WorseFirst(BARE_FILE, EMPTY_FILE) && !WorseFirst(FULL_FILE, BARE_FILE)
    ensures StringLess("a.go", "b.go") && StringLess("b.go", "c.go")
  {
    assert StringLess("a.go", "b.go") && StringLess("b.go", "c.go");
    StringLessTotal("a.go", "b.go");
    StringLessTotal("b.go", "c.go");
  }

  lemma ThreeFileNames(path: string)
    ensures "m" + "/" + path == "m/a.go" <==> path == "a.go"
    ensures "m" + "/" + path == "m/b.go" <==> path == "b.go"
    ensures "m" + "/" + path == "m/c.go" <==> path == "c.go"
  {
    assert path == ("m" + "/" + path)[2..];
    assert "m" + "/" + "a.go" == "m/a.go" && "m" + "/" + "b.go" == "m/b.go" && "m" + "/" + "c.go" == "m/c.go";
  }

  lemma OneLineCounts(path: string, statements: nat, count: nat)
    requires path in THREE_CHANGED && statements <= MAX_INT64
    ensures var blocks := OneLine(statements, count);
            && TouchedBlocks(blocks, THREE_CHANGED, path) == blocks && Wrap64(statements) == statements
            && Stmts(blocks, false) == statements && Stmts(blocks, true) == if count > 0 then statements else 0
  {
    var b := OneLine(statements, count)[0];
    TwoBlocks(b, b);
    TouchedOfTwo(b, b, THREE_CHANGED, path);
    assert 1 in LinesOf(THREE_CHANGED, path);
  }

  lemma ThreeBlocksChanged()
    ensures ChangedBlocks(THREE_FILES, THREE_CHANGED, "m", "m/a.go") == OneLine(1, 1)
    ensures ChangedBlocks(THREE_FILES, THREE_CHANGED, "m", "m/b.go") == OneLine(0, 0)
    ensures ChangedBlocks(THREE_FILES, THREE_CHANGED, "m", "m/c.go") == OneLine(1, 0)
  {
    OneLineCounts("a.go", 1, 1);
    OneLineCounts("b.go", 0, 0);
    OneLineCounts("c.go", 1, 0);
    hide TouchedBlocks, OneLine, RepoPath;
    ThreeFileNames("a.go");
    ThreeFileNames("b.go");
    ThreeFileNames("c.go");
    RepoPathInverse("m", "m/a.go", "a.go");
    RepoPathInverse("m", "m/b.go", "b.go");
    RepoPathInverse("m", "m/c.go", "c.go");
  }

  lemma SumOfThree(pick: string -> seq<Block>, only: bool)
    ensures SumOver({"m/a.go", "m/b.go", "m/c.go"}, pick, only) ==
            Stmts(pick("m/a.go"), only) + Stmts(pick("m/b.go"), only) + Stmts(pick("m/c.go"), only)
  {
    hide Stmts, SumOver;
    var names := {"m/a.go", "m/b.go", "m/c.go"};
    SumTakesAnyName(names, pick, only, "m/a.go");
    assert names - {"m/a.go"} == {"m/b.go", "m/c.go"};
    SumTakesAnyName({"m/b.go", "m/c.go"}, pick, only, "m/b.go");
    assert {"m/b.go", "m/c.go"} - {"m/b.go"} == {"m/c.go"};
    OneName(pick, "m/c.go", only);
  }

  lemma ThreeFileEntries(f: FileStats)
    ensures IsFileOf(THREE_FILES, THREE_CHANGED, "m", f) <==> f in {FULL_FILE, EMPTY_FILE, BARE_FILE}
  {
    ThreeBlocksChanged();
    ThreeFileNames(f.path);
    OneLineCounts("a.go", 1, 1);
    OneLineCounts("b.go", 0, 0);
    OneLineCounts("c.go", 1, 0);
    hide TouchedBlocks, Stmts, RepoPath;
    assert "m" + "/" + f.path !in THREE_FILES.blocks ==> ChangedBlocks(THREE_FILES, THREE_CHANGED, "m", "m" + "/" + f.path) == [];
    hide ChangedBlocks;
  }

  /** Both orders are reports of the three files: nothing decides between them. */
  lemma ReportOrderIsOpen(files: seq<FileStats>)
    requires files == [FULL_FILE, EMPTY_FILE, BARE_FILE] || files == [BARE_FILE, FULL_FILE, EMPTY_FILE]
    ensures Measures(THREE_FILES, THREE_CHANGED, "m", Coverage(2, 1, 2, 1, files, []))
  {
    assert 2 <= MAX_INT64;
    hide *;
    ThreeFileFigures(false);
    ThreeFileFigures(true);
    NotOrderly(files);
    ThreeFileSums(files);
    AllPathsKnown();
    EntriesListed(files);
    MeasuredByParts(THREE_FILES, THREE_CHANGED, "m", Coverage(2, 1, 2, 1, files, []));
  }

  lemma AllPathsKnown()
    ensures forall path :: path in THREE_CHANGED ==> "m" + "/" + path in THREE_FILES.blocks
  {
    forall path | path in THREE_CHANGED ensures "m" + "/" + path in THREE_FILES.blocks { ThreeFileNames(path); }
  }

  lemma EntriesListed(files: seq<FileStats>)
    requires files == [FULL_FILE, EMPTY_FILE, BARE_FILE] || files == [BARE_FILE, FULL_FILE, EMPTY_FILE]
    ensures forall f :: f in files <==> IsFileOf(THREE_FILES, THREE_CHANGED, "m", f)
    ensures PathsDistinct(files)
  {
    hide IsFileOf;
    forall f ensures f in files <==> IsFileOf(THREE_FILES, THREE_CHANGED, "m", f) { ThreeFileEntries(f); }
  }

  lemma MeasuredByParts(p: Profile, changed: LineSets, mainModule: string, c: Coverage)
    requires c.repoTotal == RepoSum(p, false) && c.repoCovered == RepoSum(p, true)
    requires c.changedTotal == ChangedSum(p, changed, mainModule, false) && c.changedCovered == ChangedSum(p, changed, mainModule, true)
    requires 0 <= c.changedCovered <= c.changedTotal <= c.repoTotal <= MAX_INT64 && 0 <= c.repoCovered <= MAX_INT64
    requires (forall f :: f in c.files <==> IsFileOf(p, changed, mainModule, f)) && PathsDistinct(c.files) && !Orderly(c.files)
    requires c.noData == [] && forall path :: path in changed ==> mainModule + "/" + path in p.blocks
    requires SumFiles(c.files, false) == c.changedTotal && SumFiles(c.files, true) == c.changedCovered
    ensures Measures(p, changed, mainModule, c)
  {
    hide RepoSum, ChangedSum, IsFileOf, Orderly, Plausible, WorseFirst, StringLess, SumFiles, StaysInRange, PathsDistinct;
  }

  lemma NotOrderly(files: seq<FileStats>)
    requires FULL_FILE in files && EMPTY_FILE in files && BARE_FILE in files
    ensures !Orderly(files)
  {
    FilesCycle();
    assert Upset(files, FULL_FILE, EMPTY_FILE, BARE_FILE);
  }

  lemma ThreeFileFigures(only: bool)
    ensures RepoSum(THREE_FILES, only) == if only then 1 else 2
    ensures ChangedSum(THREE_FILES, THREE_CHANGED, "m", only) == if only then 1 else 2
  {
    ThreeBlocksChanged();
    OneLineCounts("a.go", 1, 1);
    OneLineCounts("b.go", 0, 0);
    OneLineCounts("c.go", 1, 0);
    hide Stmts, TouchedBlocks, ChangedBlocks, SumOver;
    assert THREE_FILES.blocks.Keys == {"m/a.go", "m/b.go", "m/c.go"};
    SumOfThree(AllPick(THREE_FILES), only);
    SumOfThree(ChangedPick(THREE_FILES, THREE_CHANGED, "m"), only);
  }

  lemma ThreeFileSums(files: seq<FileStats>)
    requires files == [FULL_FILE, EMPTY_FILE, BARE_FILE] || files == [BARE_FILE, FULL_FILE, EMPTY_FILE]
    ensures SumFiles(files, false) == 2 && SumFiles(files, true) == 1
  {
    assert files[..2] == [files[0], files[1]] && files[..2][..1] == [files[0]] && files[..2][..1][..0] == [];
    assert SumFiles(files[..2][..1], false) == files[0].total && SumFiles(files[..2][..1], true) == files[0].covered;
    assert SumFiles(files[..2], false) == files[0].total + files[1].total;
    assert SumFiles(files[..2], true) == files[0].covered + files[1].covered;
  }

  /** No report of the three files is in worst-first order. */
  lemma NoReportIsInOrder(c: Coverage)
    requires Measures(THREE_FILES, THREE_CHANGED, "m", c)
    ensures !StrictlySorted(WorseFirst, c.files)
  {
    ThreeFileEntries(FULL_FILE);
    ThreeFileEntries(EMPTY_FILE);
    ThreeFileEntries(BARE_FILE);
    FilesCycle();
    hide IsFileOf, RepoSum, ChangedSum, SumFiles, WorseFirst, StringLess, Orderly, Plausible;
    var f :| 0 <= f < |c.files| && c.files[f] == FULL_FILE;
    var e :| 0 <= e < |c.files| && c.files[e] == EMPTY_FILE;
    var b :| 0 <= b < |c.files| && c.files[b] == BARE_FILE;
    assert f != e && e != b && b != f;
    if f < e {
      assert e < b ==> f < b;
    }
  }
}
