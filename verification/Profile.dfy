/** The coverage profile: reading and merging its blocks.  First half of `tools/coveragegate/profile.go`. */
module Profile {
  import opened Text
  import opened Sorting

  datatype Block = Block(startLine: int, startCol: int, endLine: int, endCol: int, numStmts: int, count: int)

  datatype Profile = Profile(mode: string, blocks: map<string, seq<Block>>)

  // ---------------------------------------------------------------- one line

  function ParseLineCol(text: string): Option<(int, int)> {
    match Index(text, ".")
    case None => None
    case Some(dot) =>
      match (Atoi(text[..dot]), Atoi(if dot < |text| then text[dot + 1..] else ""))
      case (Some(line), Some(col)) => if line < 1 then None else Some((line, col))
      case _ => None
  }

  function ParseRange(text: string): Option<((int, int), (int, int))> {
    var span := SplitOn(text, ',');
    if |span| != 2 then None
    else
      match (ParseLineCol(span[0]), ParseLineCol(span[1]))
      case (Some(start), Some(end)) => Some((start, end))
      case _ => None
  }

  /** `range numStmts count`, the part behind the file name. */
  function ParseBlock(text: string): Option<Block> {
    var fields := Fields(text);
    if |fields| != 3 then None
    else
      match (ParseRange(fields[0]), Atoi(fields[1]), Atoi(fields[2]))
      case (Some(range), Some(numStmts), Some(count)) =>
        if numStmts < 0 || count < 0 || range.1.0 < range.0.0 then None
        else Some(Block(range.0.0, range.0.1, range.1.0, range.1.1, numStmts, count))
      case _ => None
  }

  /** The name ends at the last colon of the line. */
  function ParseProfileLine(line: string): Option<(string, Block)> {
    match LastIndexOf(line, ':')
    case None => None
    case Some(colon) =>
      if colon == 0 then None
      else
        match ParseBlock(line[colon + 1..])
        case None => None
        case Some(b) => Some((line[..colon], b))
  }

  predicate IsBlock(b: Block) {
    && 1 <= b.startLine <= b.endLine <= MAX_INT64
    && IsInt64(b.startCol) && IsInt64(b.endCol)
    && 0 <= b.numStmts <= MAX_INT64 && 0 <= b.count <= MAX_INT64
  }

  function RenderLineCol(line: int, col: int): string { Itoa(line) + "." + Itoa(col) }

  function RenderBlock(b: Block): string {
    RenderLineCol(b.startLine, b.startCol) + "," + RenderLineCol(b.endLine, b.endCol)
    + " " + Itoa(b.numStmts) + " " + Itoa(b.count)
  }

  function RenderLine(name: string, b: Block): string { name + ":" + RenderBlock(b) }

  lemma Misses(s: string, c: char)
    requires DigitsOrSign(s) && !IsDigit(c) && c != '-'
    ensures c !in s
  {
  }

  lemma LineColRoundTrip(line: int, col: int)
    requires 1 <= line <= MAX_INT64 && IsInt64(col)
    ensures ParseLineCol(RenderLineCol(line, col)) == Some((line, col))
    ensures IsWord(RenderLineCol(line, col)) && ',' !in RenderLineCol(line, col) && ':' !in RenderLineCol(line, col)
  {
    hide Itoa, Atoi, Index;
    var a, b := Itoa(line), Itoa(col);
    AtoiItoa(line);
    AtoiItoa(col);
    Misses(a, '.');
    IndexOfSeparator(a, '.', b);
    var s := a + "." + b;
    assert s[..|a|] == a && s[|a| + 1..] == b;
    forall i | 0 <= i < |s| ensures s[i] != ',' && s[i] != ':' && !IsSpace(s[i]) {
      assert s[i] == if i < |a| then a[i] else if i == |a| then '.' else b[i - |a| - 1];
    }
  }

  lemma RangeRoundTrip(b: Block)
    requires IsBlock(b)
    ensures var text := RenderLineCol(b.startLine, b.startCol) + "," + RenderLineCol(b.endLine, b.endCol);
            && ParseRange(text) == Some(((b.startLine, b.startCol), (b.endLine, b.endCol)))
            && IsWord(text) && ':' !in text
  {
    hide RenderLineCol, ParseLineCol, SplitOn;
    var a, c := RenderLineCol(b.startLine, b.startCol), RenderLineCol(b.endLine, b.endCol);
    LineColRoundTrip(b.startLine, b.startCol);
    LineColRoundTrip(b.endLine, b.endCol);
    SplitTwo(a, ',', c);
    var text := a + "," + c;
    assert text == a + [','] + c;
    forall i | 0 <= i < |text| ensures text[i] != ':' && !IsSpace(text[i]) {
      assert text[i] == if i < |a| then a[i] else if i == |a| then ',' else c[i - |a| - 1];
    }
  }

  lemma BlockRoundTrip(b: Block)
    requires IsBlock(b)
    ensures ParseBlock(RenderBlock(b)) == Some(b) && ':' !in RenderBlock(b)
  {
    hide RenderLineCol, ParseRange, Atoi, Itoa, Fields;
    var range := RenderLineCol(b.startLine, b.startCol) + "," + RenderLineCol(b.endLine, b.endCol);
    RangeRoundTrip(b);
    AtoiItoa(b.numStmts);
    AtoiItoa(b.count);
    FieldsOfThree(range, Itoa(b.numStmts), Itoa(b.count));
    Misses(Itoa(b.numStmts), ':');
    Misses(Itoa(b.count), ':');
  }

  /** Any name, also one with colons, survives; only the empty one cannot be written. */
  lemma LineRoundTrip(name: string, b: Block)
    requires IsBlock(b)
    ensures ParseProfileLine(RenderLine(name, b)) == if name == "" then None else Some((name, b))
  {
    hide RenderBlock, ParseBlock, LastIndexOf;
    BlockRoundTrip(b);
    LastIndexOfConcat(name, ':', RenderBlock(b));
    var line := RenderLine(name, b);
    assert line == name + [':'] + RenderBlock(b);
    assert line[..|name|] == name && line[|name| + 1..] == RenderBlock(b);
  }

  // ---------------------------------------------------------------- exactly the lines that are read

  /** Two numbers around the first dot, the first of them positive. */
  ghost predicate SpellsLineCol(text: string, line: int, col: int) {
    exists i: nat ::
      && i < |text| && text[i] == '.' && '.' !in text[..i]
      && Atoi(text[..i]) == Some(line) && Atoi(text[i + 1..]) == Some(col) && line >= 1
  }

  lemma LineColIsReadExactlyWhen(text: string, line: int, col: int)
    ensures ParseLineCol(text) == Some((line, col)) <==> SpellsLineCol(text, line, col)
  {
    hide Atoi, Index;
    IndexOfCharacter(text, '.');
  }

  /** Two such pairs around the only comma. */
  ghost predicate SpellsRange(text: string, b: Block) {
    exists i: nat ::
      && i < |text| && text[i] == ',' && ',' !in text[..i] && ',' !in text[i + 1..]
      && SpellsLineCol(text[..i], b.startLine, b.startCol) && SpellsLineCol(text[i + 1..], b.endLine, b.endCol)
  }

  lemma RangeIsReadExactlyWhen(text: string, b: Block)
    ensures ParseRange(text) == Some(((b.startLine, b.startCol), (b.endLine, b.endCol))) <==> SpellsRange(text, b)
  {
    hide ParseLineCol, SpellsLineCol, SplitOn;
    if |SplitOn(text, ',')| == 2 {
      var i := OneSeparator(text, ',');
      LineColIsReadExactlyWhen(text[..i], b.startLine, b.startCol);
      LineColIsReadExactlyWhen(text[i + 1..], b.endLine, b.endCol);
    }
    if SpellsRange(text, b) {
      var i: nat :| i < |text| && text[i] == ',' && ',' !in text[..i] && ',' !in text[i + 1..] &&
                    SpellsLineCol(text[..i], b.startLine, b.startCol) && SpellsLineCol(text[i + 1..], b.endLine, b.endCol);
      SplitTwo(text[..i], ',', text[i + 1..]);
      assert text == text[..i] + [','] + text[i + 1..];
      LineColIsReadExactlyWhen(text[..i], b.startLine, b.startCol);
      LineColIsReadExactlyWhen(text[i + 1..], b.endLine, b.endCol);
    }
  }

  lemma OneSeparator(text: string, c: char) returns (i: nat)
    requires |SplitOn(text, c)| == 2
    ensures i < |text| && text[i] == c && c !in text[..i] && c !in text[i + 1..]
    ensures SplitOn(text, c) == [text[..i], text[i + 1..]]
  {
    hide Index;
    IndexOfCharacter(text, c);
    i := Index(text, [c]).value;
    var rest := text[i + 1..];
    IndexOfCharacter(rest, c);
    assert SplitOn(text, c) == [text[..i]] + SplitOn(rest, c);
  }

  /**
   Behind the name, which is not empty and ends at the last colon, stand a range, a statement count and a
   hit count; neither is negative and the range does not end before it starts.
   */
  lemma LineIsReadExactlyWhen(line: string, name: string, b: Block)
    ensures ParseProfileLine(line) == Some((name, b)) <==>
              && name != "" && name + ":" <= line
              && var text := line[|name| + 1..];
                 && ':' !in text && |Fields(text)| == 3
                 && SpellsRange(Fields(text)[0], b)
                 && Atoi(Fields(text)[1]) == Some(b.numStmts) && Atoi(Fields(text)[2]) == Some(b.count)
                 && 0 <= b.numStmts && 0 <= b.count && b.startLine <= b.endLine
  {
    hide SpellsRange, ParseRange, Fields, Atoi, LastIndexOf;
    LastColon(line, name);
    if name != "" && name + ":" <= line && ':' !in line[|name| + 1..] {
      var text := line[|name| + 1..];
      assert line[..|name|] == name;
      BlockIsReadExactlyWhen(text, b);
    }
  }

  lemma LastColon(line: string, name: string)
    ensures name + ":" <= line && ':' !in line[|name| + 1..] <==> LastIndexOf(line, ':') == Some(|name|) && line[..|name|] == name
  {
    hide LastIndexOf;
    if name + ":" <= line && ':' !in line[|name| + 1..] {
      assert line == name + [':'] + line[|name| + 1..];
      LastIndexOfConcat(name, ':', line[|name| + 1..]);
    }
    if LastIndexOf(line, ':') == Some(|name|) && line[..|name|] == name {
      assert line[..|name| + 1] == name + ":";
    }
  }

  lemma BlockIsReadExactlyWhen(text: string, b: Block)
    ensures ParseBlock(text) == Some(b) <==>
              && |Fields(text)| == 3 && SpellsRange(Fields(text)[0], b)
              && Atoi(Fields(text)[1]) == Some(b.numStmts) && Atoi(Fields(text)[2]) == Some(b.count)
              && 0 <= b.numStmts && 0 <= b.count && b.startLine <= b.endLine
  {
    hide SpellsRange, ParseRange, Fields, Atoi;
    if |Fields(text)| == 3 {
      RangeIsReadExactlyWhen(Fields(text)[0], b);
    }
  }

  // ---------------------------------------------------------------- lines of a profile

  datatype Kind = Blank | Mode(mode: string) | Record(name: string, block: Block) | Unreadable

  function KindOf(text: string): Kind {
    var line := TrimSpace(text);
    if line == "" then Blank
    else if HasPrefix(line, "mode:") then Mode(TrimSpace(TrimPrefix(line, "mode:")))
    else
      match ParseProfileLine(line)
      case None => Unreadable
      case Some(r) => Record(r.0, r.1)
  }

  function Kinds(lines: seq<string>): (r: seq<Kind>)
    ensures |r| == |lines| && forall i :: 0 <= i < |r| ==> r[i] == KindOf(lines[i])
  {
    seq(|lines|, i requires 0 <= i < |lines| => KindOf(lines[i]))
  }

  /** The position that identifies a block. */
  datatype Position = Position(name: string, startLine: int, startCol: int, endLine: int, endCol: int)

  function PositionOf(name: string, b: Block): Position {
    Position(name, b.startLine, b.startCol, b.endLine, b.endCol)
  }

  /** A line that names a file and starts with a block keeps its meaning when rendered into a profile. */
  lemma RecordRoundTrip(name: string, b: Block)
    requires IsBlock(b) && name != "" && !IsSpace(name[0]) && !HasPrefix(RenderLine(name, b), "mode:")
    ensures KindOf(RenderLine(name, b)) == Record(name, b)
  {
    hide RenderBlock, TrimSpace, ParseProfileLine;
    LineRoundTrip(name, b);
    var line := RenderLine(name, b);
    LastIsNoSpace(b);
    assert line[0] == name[0] && line[|line| - 1] == RenderBlock(b)[|RenderBlock(b)| - 1];
    TrimSpaceExposes("", line, "");
    assert "" + line + "" == line;
  }

  lemma LastIsNoSpace(b: Block)
    requires IsBlock(b)
    ensures RenderBlock(b) != "" && !IsSpace(RenderBlock(b)[|RenderBlock(b)| - 1])
  {
    hide RenderLineCol, Itoa;
    AtoiItoa(b.count);
    var s := Itoa(b.count);
    assert RenderBlock(b)[|RenderBlock(b)| - 1] == s[|s| - 1];
  }

  lemma SmallLineText()
    ensures RenderLine("m/a.go", Block(1, 2, 3, 4, 5, 6)) == "m/a.go:1.2,3.4 5 6"
  {
    assert Itoa(1) == "1" && Itoa(2) == "2" && Itoa(3) == "3" && Itoa(4) == "4" && Itoa(5) == "5" && Itoa(6) == "6";
    hide Itoa;
  }

  /** Space around a line does not matter; a line that is no block line spoils the profile unless it is blank. */
  lemma SpacedLineIsRead(before: string, line: string, after: string)
    requires AllSpace(before) && AllSpace(after) && IsTrimmed(line) && !HasPrefix(line, "mode:")
    ensures KindOf(before + line + after) ==
            if line == "" then Blank
            else if ParseProfileLine(line) == None then Unreadable
            else Record(ParseProfileLine(line).value.0, ParseProfileLine(line).value.1)
  {
    hide TrimSpace, ParseProfileLine;
    if line == "" {
      TrimSpaceOfSpace(before + line + after);
    } else {
      TrimSpaceExposes(before, line, after);
    }
  }

  lemma UnreadableLineSpoils(lines: seq<string>, i: nat)
    requires i < |lines| && KindOf(lines[i]) == Unreadable
    ensures !Accepted(Kinds(lines))
  {
    hide KindOf, Consistent, FinalMode;
    assert Kinds(lines)[i] == Unreadable;
  }

  /** A line as the Go tool writes it. */
  lemma SmallLineIsRead()
    ensures KindOf("\t" + "m/a.go:1.2,3.4 5 6" + " ") == Record("m/a.go", Block(1, 2, 3, 4, 5, 6))
  {
    hide RenderLine, ParseProfileLine, KindOf;
    SmallLineText();
    LineRoundTrip("m/a.go", Block(1, 2, 3, 4, 5, 6));
    assert !HasPrefix("m/a.go:1.2,3.4 5 6", "mode:") by { assert "m/a.go:1.2,3.4 5 6"[1] == '/' && "mode:"[1] == 'o'; }
    SpacedLineIsRead("\t", "m/a.go:1.2,3.4 5 6", " ");
  }

  // ---------------------------------------------------------------- what a profile means

  /** The last mode line decides. */
  function FinalMode(kinds: seq<Kind>): string {
    if kinds == [] then ""
    else
      match kinds[|kinds| - 1]
      case Mode(mode) => mode
      case _ => FinalMode(kinds[..|kinds| - 1])
  }

  predicate AllReadable(kinds: seq<Kind>) { Unreadable !in kinds }

  /** The same two ends. */
  predicate SamePlace(b: Block, c: Block) {
    b.startLine == c.startLine && b.startCol == c.startCol && b.endLine == c.endLine && b.endCol == c.endCol
  }

  /** No place in a file is reported with two statement counts. */
  ghost predicate Consistent(kinds: seq<Kind>) {
    forall name, b, c :: Record(name, b) in kinds && Record(name, c) in kinds && SamePlace(b, c) ==> b.numStmts == c.numStmts
  }

  /** A reported block with the highest hit count of its place. */
  ghost predicate IsMerged(kinds: seq<Kind>, name: string, b: Block) {
    Record(name, b) in kinds && forall c :: Record(name, c) in kinds && SamePlace(b, c) ==> c.count <= b.count
  }

  predicate StartsBefore(a: Block, b: Block) {
    if a.startLine != b.startLine then a.startLine < b.startLine else a.startCol < b.startCol
  }

  /** In order of start lines, and of start columns within a line. */
  predicate InOrderOfStart(blocks: seq<Block>) {
    forall i, j :: 0 <= i < j < |blocks| ==>
      blocks[i].startLine < blocks[j].startLine ||
      (blocks[i].startLine == blocks[j].startLine && blocks[i].startCol <= blocks[j].startCol)
  }

  predicate PositionsDistinct(blocks: seq<Block>) {
    forall i, j :: 0 <= i < j < |blocks| ==> !SamePlace(blocks[i], blocks[j])
  }

  /** The profile holds, per file and sorted, each position once with its highest count. */
  ghost predicate Describes(kinds: seq<Kind>, p: Profile) {
    && p.mode == FinalMode(kinds)
    && (forall name :: name in p.blocks <==> exists b :: Record(name, b) in kinds)
    && (forall name, b :: name in p.blocks ==> (b in p.blocks[name] <==> IsMerged(kinds, name, b)))
    && (forall name :: name in p.blocks ==> PositionsDistinct(p.blocks[name]) && InOrderOfStart(p.blocks[name]))
  }

  /** When a profile is accepted. */
  ghost predicate Accepted(kinds: seq<Kind>) { AllReadable(kinds) && Consistent(kinds) && FinalMode(kinds) != "" }

  lemma ModeLineIsRead()
    ensures KindOf("mode: set") == Mode("set")
  {
    hide ParseProfileLine, TrimSpace;
    TrimSpaceExposes("", "mode: set", "");
    assert "" + "mode: set" + "" == "mode: set";
    assert TrimPrefix("mode: set", "mode:") == " set";
    TrimSpaceExposes(" ", "set", "");
    assert " " + "set" + "" == " set";
  }

  /** A mode line without a mode, read last, spoils a profile that was good before it. */
  lemma EmptyModeLineSpoils()
    ensures Accepted(Kinds(["mode: set"])) && !Accepted(Kinds(["mode: set", "mode:"]))
  {
    ModeLineIsRead();
    EmptyModeLineIsRead();
    hide KindOf;
    assert Kinds(["mode: set"]) == [Mode("set")];
    assert Kinds(["mode: set", "mode:"]) == [Mode("set"), Mode("")];
  }

  lemma EmptyModeLineIsRead()
    ensures KindOf("mode:") == Mode("")
  {
    hide ParseProfileLine, TrimSpace;
    TrimSpaceExposes("", "mode:", "");
    assert "" + "mode:" + "" == "mode:";
    assert TrimPrefix("mode:", "mode:") == "";
    TrimSpaceOfSpace("");
  }

  lemma PositionsMeanNoRepeats(blocks: seq<Block>)
    requires PositionsDistinct(blocks)
    ensures NoRepeats(blocks)
  {
  }

  /**
   Order and repetition of the block lines do not matter: two files with the same lines and the same
   last mode are both accepted or both not, and give the same blocks for every name.
   */
  lemma OrderDoesNotMatter(k: seq<Kind>, l: seq<Kind>, p: Profile, q: Profile)
    requires (forall kind :: kind in k <==> kind in l) && FinalMode(k) == FinalMode(l)
    ensures Accepted(k) <==> Accepted(l)
    ensures Describes(k, p) && Describes(l, q) ==>
              && p.mode == q.mode && p.blocks.Keys == q.blocks.Keys
              && forall name :: name in p.blocks ==> multiset(p.blocks[name]) == multiset(q.blocks[name])
  {
    if Describes(k, p) && Describes(l, q) {
      forall name ensures name in p.blocks <==> name in q.blocks {}
      forall name | name in p.blocks
        ensures multiset(p.blocks[name]) == multiset(q.blocks[name])
      {
        forall b ensures b in p.blocks[name] <==> b in q.blocks[name] {
          assert IsMerged(k, name, b) <==> IsMerged(l, name, b);
        }
        PositionsMeanNoRepeats(p.blocks[name]);
        PositionsMeanNoRepeats(q.blocks[name]);
        SameMembersSameMultiset(p.blocks[name], q.blocks[name]);
      }
    }
  }

  // ---------------------------------------------------------------- the reader

  /** What the merge loop knows of the lines read so far. */
  ghost predicate MergedSoFar(kinds: seq<Kind>, merged: map<Position, Block>) {
    && AllReadable(kinds) && Consistent(kinds)
    && (forall pos :: pos in merged ==> PositionOf(pos.name, merged[pos]) == pos && IsMerged(kinds, pos.name, merged[pos]))
    && (forall name, b :: Record(name, b) in kinds ==> PositionOf(name, b) in merged)
  }

  lemma SkipsLine(kinds: seq<Kind>, k: Kind, merged: map<Position, Block>)
    requires MergedSoFar(kinds, merged) && (k.Blank? || k.Mode?)
    ensures MergedSoFar(kinds + [k], merged)
  {
    var more := kinds + [k];
    forall r: Kind | r.Record? ensures r in more <==> r in kinds {}
  }

  /** Meeting the block of a known position: the higher count stays. */
  lemma MergesLine(kinds: seq<Kind>, name: string, b: Block, merged: map<Position, Block>)
    requires MergedSoFar(kinds, merged)
    requires PositionOf(name, b) in merged ==> merged[PositionOf(name, b)].numStmts == b.numStmts
    ensures var pos := PositionOf(name, b);
            var kept := if pos in merged && merged[pos].count >= b.count then merged[pos] else b;
            MergedSoFar(kinds + [Record(name, b)], merged[pos := kept])
  {
    var more, r := kinds + [Record(name, b)], Record(name, b);
    var pos := PositionOf(name, b);
    var after := merged[pos := if pos in merged && merged[pos].count >= b.count then merged[pos] else b];
    forall n, c ensures Record(n, c) in more <==> Record(n, c) in kinds || (n == name && c == b) {}
    forall n, c | Record(n, c) in kinds && PositionOf(n, c) == pos
      ensures c.numStmts == b.numStmts && c.count <= merged[pos].count
    {
      assert pos in merged && n == name;
      assert IsMerged(kinds, pos.name, merged[pos]);
    }
    forall q | q in after
      ensures PositionOf(q.name, after[q]) == q && IsMerged(more, q.name, after[q])
    {
      if q != pos {
        assert IsMerged(kinds, q.name, merged[q]);
      } else if pos in merged {
        assert IsMerged(kinds, pos.name, merged[pos]);
      }
    }
  }

  lemma ClashIsInconsistent(kinds: seq<Kind>, read: nat, name: string, b: Block, merged: map<Position, Block>)
    requires read < |kinds| && kinds[read] == Record(name, b) && MergedSoFar(kinds[..read], merged)
    requires PositionOf(name, b) in merged && merged[PositionOf(name, b)].numStmts != b.numStmts
    ensures !Accepted(kinds)
  {
    hide FinalMode, AllReadable;
    var other := merged[PositionOf(name, b)];
    assert IsMerged(kinds[..read], name, other);
    assert Record(name, other) in kinds && Record(name, b) in kinds;
  }

  /** The merged blocks of one file, in the order their positions were first seen. */
  function GroupOf(order: seq<Position>, merged: map<Position, Block>, name: string): seq<Block>
    requires forall pos :: pos in order ==> pos in merged
  {
    if order == [] then []
    else
      var last := order[|order| - 1];
      GroupOf(order[..|order| - 1], merged, name) + if last.name == name then [merged[last]] else []
  }

  lemma {:induction false} GroupMembers(order: seq<Position>, merged: map<Position, Block>, name: string)
    requires forall pos :: pos in order ==> pos in merged
    requires forall pos :: pos in merged ==> PositionOf(pos.name, merged[pos]) == pos
    ensures forall b :: b in GroupOf(order, merged, name) <==>
              PositionOf(name, b) in order && merged[PositionOf(name, b)] == b
    ensures NoRepeats(order) ==> PositionsDistinct(GroupOf(order, merged, name))
  {
    if order != [] {
      var init, last := order[..|order| - 1], order[|order| - 1];
      assert order == init + [last];
      GroupMembers(init, merged, name);
      var g := GroupOf(init, merged, name);
      if NoRepeats(order) && last.name == name {
        assert last !in init;
        forall i | 0 <= i < |g| ensures !SamePlace(g[i], merged[last]) {
          assert g[i] in g && PositionOf(name, g[i]) in init;
        }
      }
    }
  }

  method ParseProfile(lines: seq<string>) returns (r: Option<Profile>)
    ensures r.Some? <==> Accepted(Kinds(lines))
    ensures r.Some? ==> Describes(Kinds(lines), r.value)
  {
    hide KindOf, Consistent, IsMerged, AllReadable, MergedSoFar, Describes, Accepted, PositionsDistinct, IsSortedCopy;
    assert FinalMode([]) == "";
    hide FinalMode;
    ghost var kinds := Kinds(lines);
    var mode := "";
    var merged: map<Position, Block> := map[];
    var order: seq<Position> := [];
    var i := 0;
    NothingMerged();
    while i < |lines|
      invariant 0 <= i <= |lines|
      invariant MergedSoFar(kinds[..i], merged)
      invariant mode == FinalMode(kinds[..i])
      invariant NoRepeats(order) && forall pos :: pos in order <==> pos in merged
    {
      var k := KindOf(lines[i]);
      assert k == kinds[i];
      assert kinds[..i + 1] == kinds[..i] + [k];
      ModeOfOneMore(kinds[..i], k);
      match k {
        case Blank =>
          SkipsLine(kinds[..i], k, merged);
        case Mode(m) =>
          SkipsLine(kinds[..i], k, merged);
          mode := m;
        case Unreadable =>
          UnreadableIsRejected(kinds, i);
          return None;
        case Record(name, b) =>
          var pos := PositionOf(name, b);
          if pos !in merged {
            MergesLine(kinds[..i], name, b, merged);
            merged := merged[pos := b];
            order := order + [pos];
          } else {
            if merged[pos].numStmts != b.numStmts {
              ClashIsInconsistent(kinds, i, name, b, merged);
              return None;
            }
            MergesLine(kinds[..i], name, b, merged);
            if b.count > merged[pos].count {
              merged := merged[pos := b];
            } else {
              assert merged[pos := merged[pos]] == merged;
            }
          }
      }
      i := i + 1;
    }
    assert kinds[..i] == kinds;
    assert mode == FinalMode(kinds);
    if mode == "" {
      NoModeIsRejected(kinds);
      return None;
    }
    var blocks := Grouped(order, merged);
    blocks := SortedByStart(blocks);
    GroupsDescribe(kinds, mode, merged, order, blocks);
    return Some(Profile(mode, blocks));
  }

  lemma ModeOfOneMore(kinds: seq<Kind>, k: Kind)
    ensures FinalMode(kinds + [k]) == if k.Mode? then k.mode else FinalMode(kinds)
  {
    assert (kinds + [k])[..|kinds|] == kinds;
  }

  lemma NothingMerged()
    ensures MergedSoFar([], map[])
  {
  }

  lemma NoModeIsRejected(kinds: seq<Kind>)
    requires FinalMode(kinds) == ""
    ensures !Accepted(kinds)
  {
    hide FinalMode;
  }

  lemma UnreadableIsRejected(kinds: seq<Kind>, i: nat)
    requires i < |kinds| && kinds[i] == Unreadable
    ensures !Accepted(kinds)
  {
    hide FinalMode, Consistent;
  }

  method Grouped(order: seq<Position>, merged: map<Position, Block>) returns (blocks: map<string, seq<Block>>)
    requires forall pos :: pos in order ==> pos in merged
    ensures forall name :: name in blocks <==> GroupOf(order, merged, name) != []
    ensures forall name :: name in blocks ==> blocks[name] == GroupOf(order, merged, name)
  {
    blocks := map[];
    var i := 0;
    assert forall name :: GroupOf(order[..0], merged, name) == [];
    hide GroupOf;
    while i < |order|
      invariant 0 <= i <= |order|
      invariant forall name :: name in blocks <==> GroupOf(order[..i], merged, name) != []
      invariant forall name :: name in blocks ==> blocks[name] == GroupOf(order[..i], merged, name)
    {
      var pos := order[i];
      forall name ensures GroupOf(order[..i + 1], merged, name) ==
                          GroupOf(order[..i], merged, name) + if pos.name == name then [merged[pos]] else []
      {
        GroupGrows(order, merged, i, name);
      }
      blocks := blocks[pos.name := (if pos.name in blocks then blocks[pos.name] else []) + [merged[pos]]];
      i := i + 1;
    }
    assert order[..i] == order;
  }

  lemma GroupGrows(order: seq<Position>, merged: map<Position, Block>, i: nat, name: string)
    requires i < |order| && forall pos :: pos in order ==> pos in merged
    ensures GroupOf(order[..i + 1], merged, name) ==
            GroupOf(order[..i], merged, name) + if order[i].name == name then [merged[order[i]]] else []
  {
    assert order[..i + 1][..i] == order[..i];
  }

  /** The same blocks, none before one that starts earlier; blocks with the same start in any order. */
  ghost predicate IsSortedCopy(g: seq<Block>, s: seq<Block>) {
    Sorted(StartsBefore, s) && multiset(s) == multiset(g)
  }

  lemma SortMakesSortedCopy(g: seq<Block>)
    ensures IsSortedCopy(g, StableSort(StartsBefore, g))
  {
    hide StableSort, StartsBefore;
    StartsBeforeIsWeakOrder();
    SortSorts(StartsBefore, g, AnyBlock);
    SortPermutes(StartsBefore, g);
  }

  method SortedByStart(blocks: map<string, seq<Block>>) returns (r: map<string, seq<Block>>)
    ensures r.Keys == blocks.Keys
    ensures forall name :: name in r ==> IsSortedCopy(blocks[name], r[name])
  {
    hide StableSort, StartsBefore, TotalOrderOn, WeakOrderOn, Sorted, IsSortedCopy;
    r := blocks;
    var names := blocks.Keys;
    while names != {}
      invariant names <= blocks.Keys && r.Keys == blocks.Keys
      invariant forall name :: name in r ==> if name in names then r[name] == blocks[name] else IsSortedCopy(blocks[name], r[name])
      decreases |names|
    {
      ghost var some := Member(names);
      var name :| name in names;
      var of := r[name];
      var a := new Block[|of|](k requires 0 <= k < |of| => of[k]);
      assert a[..] == of;
      SortInPlace(a, StartsBefore);
      SortMakesSortedCopy(of);
      r := r[name := a[..]];
      names := names - {name};
    }
  }

  predicate AnyBlock(b: Block) { true }

  lemma StartsBeforeIsWeakOrder()
    ensures WeakOrderOn(StartsBefore, AnyBlock)
  {
    forall x: Block, y: Block, z: Block
      ensures Chains(StartsBefore, x, y, z)
    {
    }
  }

  /** Sorting a list of blocks keeps its members and their positions apart. */
  lemma SortedGroup(g: seq<Block>, s: seq<Block>)
    requires PositionsDistinct(g) && IsSortedCopy(g, s)
    ensures InOrderOfStart(s) && PositionsDistinct(s) && forall b :: b in s <==> b in g
  {
    SameElements(s, g);
    PositionsMeanNoRepeats(g);
    NoRepeatsByCount(g);
    NoRepeatsByCount(s);
    forall i, j | 0 <= i < j < |s| ensures !SamePlace(s[i], s[j]) {
      assert s[i] in g && s[j] in g && s[i] != s[j];
    }
  }

  lemma GroupsDescribe(kinds: seq<Kind>, mode: string, merged: map<Position, Block>, order: seq<Position>,
                       blocks: map<string, seq<Block>>)
    requires MergedSoFar(kinds, merged) && mode == FinalMode(kinds)
    requires NoRepeats(order) && forall pos :: pos in order <==> pos in merged
    requires forall name :: name in blocks <==> GroupOf(order, merged, name) != []
    requires forall name :: name in blocks ==> IsSortedCopy(GroupOf(order, merged, name), blocks[name])
    ensures Describes(kinds, Profile(mode, blocks))
    ensures Accepted(kinds) <==> mode != ""
  {
    hide InOrderOfStart, IsSortedCopy, FinalMode, GroupOf, PositionsDistinct, Consistent, AllReadable;
    forall name
      ensures name in blocks <==> exists b :: Record(name, b) in kinds
    {
      var g := GroupOf(order, merged, name);
      GroupMembers(order, merged, name);
      if name in blocks {
        assert g[0] in g;
        assert IsMerged(kinds, name, g[0]);
      }
      if b :| Record(name, b) in kinds {
        var pos := PositionOf(name, b);
        assert pos in merged;
        assert merged[pos] in g;
      }
    }
    forall name | name in blocks
      ensures PositionsDistinct(blocks[name]) && InOrderOfStart(blocks[name])
      ensures forall b :: b in blocks[name] <==> IsMerged(kinds, name, b)
    {
      GroupMembers(order, merged, name);
      SortedGroup(GroupOf(order, merged, name), blocks[name]);
      forall b
        ensures b in blocks[name] <==> IsMerged(kinds, name, b)
      {
        MergedIsUnique(kinds, merged, name, b);
      }
    }
  }

  /** Of one position exactly the merged block has the highest count. */
  lemma MergedIsUnique(kinds: seq<Kind>, merged: map<Position, Block>, name: string, b: Block)
    requires MergedSoFar(kinds, merged)
    ensures IsMerged(kinds, name, b) <==> PositionOf(name, b) in merged && merged[PositionOf(name, b)] == b
  {
    var pos := PositionOf(name, b);
    if IsMerged(kinds, name, b) {
      assert pos in merged && IsMerged(kinds, name, merged[pos]);
      assert merged[pos].count == b.count && merged[pos].numStmts == b.numStmts;
    }
  }
}
