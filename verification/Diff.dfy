/** The reader of unified diffs with zero context: `tools/coveragegate/diff.go`. */
module Diff {
  import opened Text

  // ---------------------------------------------------------------- sets of lines per path

  type LineSets = map<string, set<int>>

  function LinesOf(m: LineSets, path: string): set<int> { if path in m then m[path] else {} }

  /** The lines that `count` additions of 64-bit integers reach from `start`. */
  function RangeSet(start: int, count: int): set<int>
    decreases count
  {
    if count <= 0 then {} else RangeSet(start, count - 1) + {Wrap64(start + (count - 1))}
  }

  /** More lines for one path; a path without lines gets no entry. */
  function WithLines(m: LineSets, path: string, more: set<int>): LineSets {
    if more == {} then m else m[path := LinesOf(m, path) + more]
  }

  function AddRange(m: LineSets, path: string, start: int, count: int): LineSets {
    WithLines(m, path, RangeSet(start, count))
  }

  lemma NoMoreLines(m: LineSets, path: string)
    ensures WithLines(m, path, {}) == m
  {
  }

  lemma AddedLines(m: LineSets, path: string, more: set<int>)
    ensures LinesOf(WithLines(m, path, more), path) == LinesOf(m, path) + more
    ensures forall p :: p != path ==> LinesOf(WithLines(m, path, more), p) == LinesOf(m, p)
    ensures WithLines(m, path, more).Keys == if more == {} then m.Keys else m.Keys + {path}
  {
    if more == {} {
      assert LinesOf(m, path) + more == LinesOf(m, path);
    }
  }

  lemma OneMoreLine(m: LineSets, path: string, more: set<int>, line: int)
    ensures WithLines(WithLines(m, path, more), path, {line}) == WithLines(m, path, more + {line})
  {
    assert line in more + {line};
    if more == {} {
      assert more + {line} == {line};
    } else {
      assert LinesOf(m, path) + more + {line} == LinesOf(m, path) + (more + {line});
    }
  }

  lemma {:induction false} RangeWithoutOverflow(start: int, count: nat)
    requires IsInt64(start) && start + count - 1 <= MAX_INT64
    ensures forall line :: line in RangeSet(start, count) <==> start <= line < start + count
  {
    if count > 0 {
      RangeWithoutOverflow(start, count - 1);
    }
  }

  lemma {:induction false} RangeInt64(start: int, count: int)
    ensures forall line :: line in RangeSet(start, count) ==> IsInt64(line)
    decreases count
  {
    if count > 0 {
      RangeInt64(start, count - 1);
    }
  }

  /** The lines added for a range are the lines of the range exactly when its last one is a 64-bit integer. */
  lemma RangeIsExactExactlyWhen(start: int, count: nat)
    requires IsInt64(start)
    ensures (forall line :: line in RangeSet(start, count) <==> start <= line < start + count)
            <==> count == 0 || start + count - 1 <= MAX_INT64
  {
    if count == 0 || start + count - 1 <= MAX_INT64 {
      RangeWithoutOverflow(start, count);
    } else {
      RangeInt64(start, count);
      assert start + count - 1 !in RangeSet(start, count);
    }
  }

  /** What the code keeps: no entry without lines, and lines that are 64-bit integers. */
  ghost predicate ProperSets(m: LineSets) {
    forall path :: path in m ==> m[path] != {} && forall line :: line in m[path] ==> IsInt64(line)
  }

  lemma RangesKeepSetsProper(m: LineSets, path: string, start: int, count: int)
    requires ProperSets(m)
    ensures ProperSets(AddRange(m, path, start, count))
  {
    hide RangeSet;
    RangeInt64(start, count);
  }

  // ---------------------------------------------------------------- touched blocks

  /** A block is touched when one of its lines changed. */
  ghost predicate Touched(m: LineSets, path: string, start: int, end: int) {
    exists line :: line in LinesOf(m, path) && start <= line <= end
  }

  /** Walking up from `line` in 64 bits; None while the walk goes on. */
  function Walked(changed: set<int>, line: int, end: int, steps: nat): Option<bool>
    decreases steps
  {
    if line > end then Some(false)
    else if line in changed then Some(true)
    else if steps == 0 then None
    else Walked(changed, Wrap64(line + 1), end, steps - 1)
  }

  /** What the code answers within so many steps: it walks the changed lines or the block, whichever is shorter. */
  ghost function Answer(m: LineSets, path: string, start: int, end: int, steps: nat): Option<bool> {
    if path !in m then Some(false)
    else if Wrap64(end - start) > |m[path]| then Some(Touched(m, path, start, end))
    else Walked(m[path], start, end, steps)
  }

  /**
   The block ends at the greatest 64-bit integer and is walked: the walk passes its end unnoticed and
   goes on to the next changed line there is, wherever that lies.
   */
  predicate WalksPastItsEnd(m: LineSets, path: string, start: int, end: int) {
    path in m && end == MAX_INT64 && Wrap64(end - start) <= |m[path]|
  }

  ghost predicate FoundTouched(m: LineSets, path: string, start: int, end: int) {
    Touched(m, path, start, end) || WalksPastItsEnd(m, path, start, end)
  }

  lemma {:induction false} WalkFindsHit(changed: set<int>, line: int, end: int, hit: int)
    requires line <= hit <= end <= MAX_INT64 && hit in changed && IsInt64(line)
    ensures Walked(changed, line, end, hit - line) == Some(true)
    decreases hit - line
  {
    if line !in changed {
      WalkFindsHit(changed, line + 1, end, hit);
    }
  }

  lemma {:induction false} WalkReachesEnd(changed: set<int>, line: int, end: int)
    requires IsInt64(line) && line <= end + 1 && end < MAX_INT64
    requires forall l :: l in changed ==> !(line <= l <= end)
    ensures Walked(changed, line, end, end + 1 - line) == Some(false)
    decreases end - line
  {
    if line <= end {
      WalkReachesEnd(changed, line + 1, end);
    }
  }

  lemma {:induction false} WalkNeverEnds(changed: set<int>, line: int, steps: nat)
    requires IsInt64(line)
    ensures Walked(changed, line, MAX_INT64, steps) != Some(false)
    decreases steps
  {
    if steps > 0 {
      WalkNeverEnds(changed, Wrap64(line + 1), steps - 1);
    }
  }

  /**
   The code answers whether the block is touched exactly when the path has no changed lines, the block
   is longer than them, it ends before the greatest 64-bit integer, or it is touched.
   */
  lemma AnswersTouchedExactlyWhen(m: LineSets, path: string, start: int, end: int)
    requires IsInt64(start) && IsInt64(end)
    ensures (exists steps :: Answer(m, path, start, end, steps) == Some(Touched(m, path, start, end)))
            <==> !WalksPastItsEnd(m, path, start, end) || Touched(m, path, start, end)
  {
    if path !in m || Wrap64(end - start) > |m[path]| {
      assert Answer(m, path, start, end, 0) == Some(Touched(m, path, start, end));
    } else {
      WalkAnswersTouched(m, path, start, end);
    }
  }

  lemma WalkAnswersTouched(m: LineSets, path: string, start: int, end: int)
    requires IsInt64(start) && IsInt64(end) && path in m && Wrap64(end - start) <= |m[path]|
    ensures (exists steps :: Answer(m, path, start, end, steps) == Some(Touched(m, path, start, end)))
            <==> end < MAX_INT64 || Touched(m, path, start, end)
  {
    hide Walked;
    if Touched(m, path, start, end) {
      var hit :| hit in LinesOf(m, path) && start <= hit <= end;
      WalkFindsHit(m[path], start, end, hit);
      assert Answer(m, path, start, end, hit - start) == Some(true);
    } else if end == MAX_INT64 {
      forall steps ensures Answer(m, path, start, end, steps) != Some(false) { WalkNeverEnds(m[path], start, steps); }
    } else {
      NotInside(m, path, start, end);
      if start <= end + 1 {
        WalkReachesEnd(m[path], start, end);
        assert Answer(m, path, start, end, end + 1 - start) == Some(false);
      } else {
        PastTheEnd(m[path], start, end);
        assert Answer(m, path, start, end, 0) == Some(false);
      }
    }
  }

  lemma NotInside(m: LineSets, path: string, start: int, end: int)
    requires path in m && !Touched(m, path, start, end)
    ensures forall l :: l in m[path] ==> !(start <= l <= end)
  {
    forall l | l in m[path] ensures !(start <= l <= end) {
      assert l in LinesOf(m, path);
    }
  }

  lemma PastTheEnd(changed: set<int>, line: int, end: int)
    requires line > end
    ensures Walked(changed, line, end, 0) == Some(false)
  {
  }

  /** How many steps up, wrapping, lead from one 64-bit integer to another. */
  function Distance(line: int, hit: int): int { (hit - line) % TWO_TO_THE_64 }

  lemma OneStepCloser(line: int, hit: int)
    requires IsInt64(line) && IsInt64(hit) && line != hit
    ensures 0 <= Distance(Wrap64(line + 1), hit) == Distance(line, hit) - 1
  {
    if line < hit {
      assert Distance(line, hit) == hit - line && Wrap64(line + 1) == line + 1;
    } else {
      BelowModulus(hit - line + TWO_TO_THE_64, hit - line);
      if line < MAX_INT64 {
        assert Wrap64(line + 1) == line + 1;
        if line + 1 == hit + TWO_TO_THE_64 {
        } else {
          BelowModulus(hit - line - 1 + TWO_TO_THE_64, hit - line - 1);
        }
      } else {
        assert Wrap64(line + 1) == MIN_INT64;
      }
    }
  }

  lemma BelowModulus(r: int, x: int)
    requires 0 <= r < TWO_TO_THE_64 && x == r - TWO_TO_THE_64
    ensures x % TWO_TO_THE_64 == r
  {
  }

  /** On proper sets the code always comes to an answer, and this is it. */
  lemma AnswerIsFoundTouched(m: LineSets, path: string, start: int, end: int)
    requires ProperSets(m) && IsInt64(start) && IsInt64(end)
    ensures exists steps :: Answer(m, path, start, end, steps) == Some(FoundTouched(m, path, start, end))
  {
    AnswersTouchedExactlyWhen(m, path, start, end);
    if WalksPastItsEnd(m, path, start, end) && !Touched(m, path, start, end) {
      var hit := Member(m[path]);
      var steps := WalkComesRound(m[path], start, hit);
      assert Answer(m, path, start, end, steps) == Some(true);
    }
  }

  lemma {:induction false} WalkComesRound(changed: set<int>, line: int, hit: int) returns (steps: nat)
    requires IsInt64(line) && IsInt64(hit) && hit in changed
    ensures Walked(changed, line, MAX_INT64, steps) == Some(true)
    decreases Distance(line, hit)
  {
    steps := 0;
    if line !in changed {
      OneStepCloser(line, hit);
      steps := WalkComesRound(changed, Wrap64(line + 1), hit);
      steps := steps + 1;
    }
  }

  // ---------------------------------------------------------------- changed lines

  /** `m` is `before` and `other` together, save for the paths still to come. */
  ghost predicate MergedBut(before: LineSets, other: LineSets, paths: set<string>, m: LineSets) {
    && (forall path :: path in paths ==> LinesOf(m, path) == LinesOf(before, path))
    && (forall path :: path !in paths ==> LinesOf(m, path) == LinesOf(before, path) + LinesOf(other, path))
    && (forall path :: path in m <==> path in before || (path !in paths && LinesOf(other, path) != {}))
  }

  lemma MergedHere(before: LineSets, other: LineSets, paths: set<string>, m: LineSets, path: string)
    requires MergedBut(before, other, paths, m)
    ensures LinesOf(m, path) == if path in paths then LinesOf(before, path) else LinesOf(before, path) + LinesOf(other, path)
    ensures path in m <==> path in before || (path !in paths && LinesOf(other, path) != {})
  {
    hide LinesOf;
  }

  lemma MergedOneMore(before: LineSets, other: LineSets, paths: set<string>, m: LineSets, path: string)
    requires MergedBut(before, other, paths, m) && path in paths && path in other
    ensures MergedBut(before, other, paths - {path}, WithLines(m, path, other[path]))
  {
    var rest, after := paths - {path}, WithLines(m, path, other[path]);
    AddedLines(m, path, other[path]);
    assert LinesOf(other, path) == other[path];
    hide LinesOf, WithLines;
    forall p
      ensures p in rest ==> LinesOf(after, p) == LinesOf(before, p)
      ensures p !in rest ==> LinesOf(after, p) == LinesOf(before, p) + LinesOf(other, p)
      ensures p in after <==> p in before || (p !in rest && LinesOf(other, p) != {})
    {
      MergedHere(before, other, paths, m, p);
      assert p in after <==> p in after.Keys;
    }
  }

  lemma MergedSetsAreProper(before: LineSets, other: LineSets, m: LineSets)
    requires MergedBut(before, other, {}, m)
    ensures ProperSets(before) && ProperSets(other) ==> ProperSets(m)
  {
    if ProperSets(before) && ProperSets(other) {
      forall path | path in m ensures m[path] != {} && forall line :: line in m[path] ==> IsInt64(line) {
        MergedHere(before, other, {}, m, path);
        assert m[path] == LinesOf(before, path) + LinesOf(other, path);
        if path in before {
          var line := Member(before[path]);
          assert line in m[path];
        } else {
          var line := Member(other[path]);
          assert line in m[path];
        }
      }
    }
  }

  class ChangedLines {
    var lines: LineSets

    constructor ()
      ensures lines == map[]
    {
      lines := map[];
    }

    method Add(path: string, line: int)
      modifies this
      ensures lines == WithLines(old(lines), path, {line})
    {
      var known := if path in lines then lines[path] else {};
      lines := lines[path := known + {line}];
    }

    method AddLines(path: string, start: int, count: int)
      modifies this
      ensures lines == AddRange(old(lines), path, start, count)
    {
      hide WithLines;
      var i := 0;
      NoMoreLines(lines, path);
      while i < count
        invariant 0 <= i && (i <= count || i == 0)
        invariant lines == WithLines(old(lines), path, RangeSet(start, i))
      {
        OneMoreLine(old(lines), path, RangeSet(start, i), Wrap64(start + i));
        Add(path, Wrap64(start + i));
        i := i + 1;
      }
    }

    method AddAll(path: string, more: set<int>)
      modifies this
      ensures lines == WithLines(old(lines), path, more)
    {
      hide WithLines;
      var rest := more;
      NoMoreLines(lines, path);
      assert more - rest == {};
      while rest != {}
        invariant rest <= more
        invariant lines == WithLines(old(lines), path, more - rest)
        decreases |rest|
      {
        ghost var some := Member(rest);
        var line :| line in rest;
        OneMoreLine(old(lines), path, more - rest, line);
        assert more - (rest - {line}) == (more - rest) + {line};
        Add(path, line);
        rest := rest - {line};
      }
      assert more - rest == more;
    }

    /** Folds another set in, in whatever order its maps are walked. */
    method Merge(other: LineSets)
      modifies this
      ensures forall path :: LinesOf(lines, path) == LinesOf(old(lines), path) + LinesOf(other, path)
      ensures forall path :: path in lines <==> path in old(lines) || LinesOf(other, path) != {}
      ensures ProperSets(old(lines)) && ProperSets(other) ==> ProperSets(lines)
    {
      var paths := other.Keys;
      while paths != {}
        invariant paths <= other.Keys
        invariant MergedBut(old(lines), other, paths, lines)
        decreases |paths|
      {
        ghost var some := Member(paths);
        var path :| path in paths;
        ghost var before := lines;
        AddAll(path, other[path]);
        MergedOneMore(old(lines), other, paths, before, path);
        paths := paths - {path};
      }
      MergedSetsAreProper(old(lines), other, lines);
    }

    /** Walks the block or the changed lines, whichever is shorter. */
    method Touches(path: string, start: int, end: int) returns (r: bool)
      requires ProperSets(lines) && IsInt64(start) && IsInt64(end)
      ensures r <==> FoundTouched(lines, path, start, end)
      ensures end < MAX_INT64 ==> (r <==> path in lines && exists line :: line in lines[path] && start <= line <= end)
    {
      if path !in lines {
        return false;
      }
      var changed := lines[path];
      if Wrap64(end - start) > |changed| {
        var rest := changed;
        while rest != {}
          invariant rest <= changed
          invariant forall l :: l in changed && l !in rest ==> !(start <= l <= end)
          decreases |rest|
        {
          ghost var some := Member(rest);
          var line :| line in rest;
          if start <= line <= end {
            assert line in LinesOf(lines, path);
            return true;
          }
          rest := rest - {line};
        }
        return false;
      }
      var line := start;
      ghost var hit := Member(changed);
      while line <= end
        invariant IsInt64(line) && Distance(line, hit) >= 0
        invariant end < MAX_INT64 ==> start <= line && forall l :: l in changed && start <= l <= end ==> line <= l
        decreases if end < MAX_INT64 then end - line else Distance(line, hit)
      {
        if line in changed {
          assert line in LinesOf(lines, path);
          return true;
        }
        OneStepCloser(line, hit);
        line := Wrap64(line + 1);
      }
      return false;
    }
  }

  // ---------------------------------------------------------------- hunk headers

  datatype Hunk = Hunk(oldStart: int, oldCount: int, newStart: int, newCount: int)

  /** `start[,count]`, an absent count meaning one. */
  function ParseHunkRange(text: string): (r: Option<(int, int)>)
    ensures r.Some? ==> 0 <= r.value.0 <= MAX_INT64 && 0 <= r.value.1 <= MAX_INT64
  {
    var (startText, countText) :=
      match Index(text, ",")
      case None => (text, "1")
      case Some(comma) => (text[..comma], if comma < |text| then text[comma + 1..] else "");
    match (Atoi(startText), Atoi(countText))
    case (Some(start), Some(count)) => if start < 0 || count < 0 then None else Some((start, count))
    case _ => None
  }

  datatype Ranges = Ranges(hunk: Hunk, haveOld: bool, haveNew: bool)

  const NO_RANGES := Ranges(Hunk(0, 0, 0, 0), false, false)

  function ReadField(r: Ranges, field: string): Option<Ranges> {
    if HasPrefix(field, "-") && !r.haveOld then
      match ParseHunkRange(field[1..])
      case None => None
      case Some(p) => Some(Ranges(r.hunk.(oldStart := p.0, oldCount := p.1), true, r.haveNew))
    else if HasPrefix(field, "+") && !r.haveNew then
      match ParseHunkRange(field[1..])
      case None => None
      case Some(p) => Some(Ranges(r.hunk.(newStart := p.0, newCount := p.1), r.haveOld, true))
    else Some(r)
  }

  function ReadFields(r: Ranges, fields: seq<string>): Option<Ranges>
    decreases |fields|
  {
    if fields == [] then Some(r)
    else
      match ReadField(r, fields[0])
      case None => None
      case Some(next) => ReadFields(next, fields[1..])
  }

  function HunkOf(header: string): Option<Hunk> {
    var rest := TrimPrefix(header, "@@ ");
    match Index(rest, " @@")
    case None => None
    case Some(end) =>
      match ReadFields(NO_RANGES, Fields(rest[..end]))
      case None => None
      case Some(r) =>
        if !r.haveNew || !r.haveOld || (r.hunk.newStart == 0 && r.hunk.newCount > 0) then None
        else Some(r.hunk)
  }

  method ParseHunkHeader(header: string) returns (r: Option<Hunk>)
    ensures r == HunkOf(header)
  {
    var rest := TrimPrefix(header, "@@ ");
    var end := Index(rest, " @@");
    if end == None {
      return None;
    }
    var result := Hunk(0, 0, 0, 0);
    var haveOld, haveNew := false, false;
    var fields := Fields(rest[..end.value]);
    var i := 0;
    while i < |fields|
      invariant 0 <= i <= |fields|
      invariant ReadFields(NO_RANGES, fields) == ReadFields(Ranges(result, haveOld, haveNew), fields[i..])
    {
      var field := fields[i];
      assert fields[i..][0] == field && fields[i..][1..] == fields[i + 1..];
      if HasPrefix(field, "-") && !haveOld {
        var p := ParseHunkRange(field[1..]);
        if p == None {
          return None;
        }
        result := result.(oldStart := p.value.0, oldCount := p.value.1);
        haveOld := true;
      } else if HasPrefix(field, "+") && !haveNew {
        var p := ParseHunkRange(field[1..]);
        if p == None {
          return None;
        }
        result := result.(newStart := p.value.0, newCount := p.value.1);
        haveNew := true;
      }
      i := i + 1;
    }
    if !haveNew || !haveOld {
      return None;
    }
    if result.newStart == 0 && result.newCount > 0 {
      return None;
    }
    return Some(result);
  }

  /** A range is one number, or two with a comma in between; none is negative. */
  lemma RangeIsReadExactlyWhen(text: string, start: int, count: int)
    ensures ',' !in text ==>
              (ParseHunkRange(text) == Some((start, count)) <==> Atoi(text) == Some(start) && 0 <= start && count == 1)
    ensures forall i: nat :: i < |text| && text[i] == ',' && ',' !in text[..i] ==>
              (ParseHunkRange(text) == Some((start, count)) <==>
                 Atoi(text[..i]) == Some(start) && Atoi(text[i + 1..]) == Some(count) && 0 <= start && 0 <= count)
  {
    hide Atoi, Index, ParseHunkRange;
    if ',' !in text {
      OneNumberRange(text);
    }
    forall i: nat | i < |text| && text[i] == ',' && ',' !in text[..i]
      ensures ParseHunkRange(text) == Some((start, count)) <==>
                Atoi(text[..i]) == Some(start) && Atoi(text[i + 1..]) == Some(count) && 0 <= start && 0 <= count
    {
      TwoNumberRange(text, i);
    }
  }

  lemma OneNumberRange(text: string)
    requires ',' !in text
    ensures ParseHunkRange(text) == if Atoi(text).Some? && Atoi(text).value >= 0 then Some((Atoi(text).value, 1)) else None
  {
    hide Atoi, Index;
    IndexNone(text, ',');
    OneNumber();
  }

  lemma TwoNumberRange(text: string, i: nat)
    requires i < |text| && text[i] == ',' && ',' !in text[..i]
    ensures ParseHunkRange(text) ==
            match (Atoi(text[..i]), Atoi(text[i + 1..]))
            case (Some(start), Some(count)) => if start < 0 || count < 0 then None else Some((start, count))
            case _ => None
  {
    hide Atoi, Index;
    assert text == text[..i] + [','] + text[i + 1..];
    IndexOfSeparator(text[..i], ',', text[i + 1..]);
  }

  lemma OneNumber()
    ensures Atoi("1") == Some(1)
  {
    assert "1"[..0] == "";
  }

  /** What the first field with this sign says behind it. */
  function FirstWith(fields: seq<string>, sign: char): Option<string>
    decreases |fields|
  {
    if fields == [] then None
    else if fields[0] != "" && fields[0][0] == sign then Some(fields[0][1..])
    else FirstWith(fields[1..], sign)
  }

  /** The ranges of a header's fields, as far as they have not been read: None when one is unreadable. */
  function Completed(r: Ranges, minus: Option<string>, plus: Option<string>): Option<Ranges> {
    var a := if r.haveOld || minus == None then Some((r.hunk.oldStart, r.hunk.oldCount)) else ParseHunkRange(minus.value);
    var b := if r.haveNew || plus == None then Some((r.hunk.newStart, r.hunk.newCount)) else ParseHunkRange(plus.value);
    if a == None || b == None then None
    else Some(Ranges(Hunk(a.value.0, a.value.1, b.value.0, b.value.1), r.haveOld || minus.Some?, r.haveNew || plus.Some?))
  }

  lemma {:induction false} FieldsComplete(r: Ranges, fields: seq<string>)
    ensures ReadFields(r, fields) == Completed(r, FirstWith(fields, '-'), FirstWith(fields, '+'))
    decreases |fields|
  {
    hide ParseHunkRange;
    if fields != [] && ReadField(r, fields[0]).Some? {
      FieldsComplete(ReadField(r, fields[0]).value, fields[1..]);
    }
  }

  /**
   A header is read exactly when it has a closing marker, its first field with a minus and its first with
   a plus are ranges, and no line is added at line zero; these are then its ranges.
   */
  lemma HeaderIsReadExactlyWhen(header: string, h: Hunk)
    ensures HunkOf(header) == Some(h) <==>
              var rest := TrimPrefix(header, "@@ ");
              && Index(rest, " @@").Some?
              && var fields := Fields(rest[..Index(rest, " @@").value]);
                 && FirstWith(fields, '-').Some? && ParseHunkRange(FirstWith(fields, '-').value) == Some((h.oldStart, h.oldCount))
                 && FirstWith(fields, '+').Some? && ParseHunkRange(FirstWith(fields, '+').value) == Some((h.newStart, h.newCount))
                 && (h.newStart == 0 ==> h.newCount <= 0)
  {
    hide ParseHunkRange, Index, Fields, ReadFields, FirstWith;
    var rest := TrimPrefix(header, "@@ ");
    if Index(rest, " @@").Some? {
      FieldsComplete(NO_RANGES, Fields(rest[..Index(rest, " @@").value]));
    }
  }

  /** One malformed header makes the whole diff unreadable. */
  lemma MalformedHeaderRefuses(lines: seq<string>, header: string, rest: seq<string>)
    requires ScanAll(START, lines).Some? && ScanAll(START, lines).value.remaining <= 0
    requires HasPrefix(header, "@@ ") && HunkOf(header) == None
    ensures ChangedOf(lines + [header] + rest) == None
  {
    hide HunkOf;
    ScanConcat(START, lines, [header] + rest);
    assert lines + [header] + rest == lines + ([header] + rest);
    assert ([header] + rest)[0] == header && header[0] == '@';
  }

  // ---------------------------------------------------------------- the scan

  predicate IsRelevantGoFile(path: string) { HasSuffix(path, ".go") && !HasSuffix(path, "_test.go") }

  /** The path a `+++` header names, "" when it names none that is measured. */
  function DestinationPath(target: string): string {
    if target == "/dev/null" then ""
    else
      var path := TrimPrefix(target, "b/");
      if IsRelevantGoFile(path) then path else ""
  }

  /** `remaining` counts the body lines still expected of the current hunk. */
  datatype Scan = Scan(path: string, remaining: int, changed: LineSets)

  const START := Scan("", 0, map[])

  function ReadStructure(s: Scan, line: string): Option<Scan> {
    if HasPrefix(line, "diff --git ") then Some(s.(path := ""))
    else if HasPrefix(line, "+++ ") then Some(s.(path := DestinationPath(TrimPrefix(line, "+++ "))))
    else if HasPrefix(line, "@@ ") then
      match HunkOf(line)
      case None => None
      case Some(h) =>
        Some(Scan(s.path, Wrap64(h.oldCount + h.newCount),
                  if s.path != "" then AddRange(s.changed, s.path, h.newStart, h.newCount) else s.changed))
    else Some(s)
  }

  function ScanLine(s: Scan, line: string): Option<Scan> {
    if s.remaining > 0 && HasPrefix(line, "\\") then Some(s)
    else if s.remaining > 0 && (HasPrefix(line, "+") || HasPrefix(line, "-")) then
      Some(s.(remaining := s.remaining - 1))
    else ReadStructure(if s.remaining > 0 then s.(remaining := 0) else s, line)
  }

  function ScanAll(s: Scan, lines: seq<string>): Option<Scan>
    decreases |lines|
  {
    if lines == [] then Some(s)
    else
      match ScanLine(s, lines[0])
      case None => None
      case Some(next) => ScanAll(next, lines[1..])
  }

  /** The changed lines of a diff, None when a hunk header is malformed. */
  function ChangedOf(lines: seq<string>): Option<LineSets> {
    match ScanAll(START, lines)
    case None => None
    case Some(s) => Some(s.changed)
  }

  lemma {:induction false} ScanKeepsSetsProper(s: Scan, lines: seq<string>)
    requires ProperSets(s.changed)
    ensures ScanAll(s, lines).Some? ==> ProperSets(ScanAll(s, lines).value.changed)
    decreases |lines|
  {
    if lines != [] {
      LineKeepsSetsProper(s, lines[0]);
      hide ScanLine, ProperSets;
      if ScanLine(s, lines[0]).Some? {
        ScanKeepsSetsProper(ScanLine(s, lines[0]).value, lines[1..]);
      }
    }
  }

  lemma LineKeepsSetsProper(s: Scan, line: string)
    requires ProperSets(s.changed)
    ensures ScanLine(s, line).Some? ==> ProperSets(ScanLine(s, line).value.changed)
  {
    hide AddRange, HunkOf, DestinationPath, ProperSets;
    if HunkOf(line).Some? {
      RangesKeepSetsProper(s.changed, s.path, HunkOf(line).value.newStart, HunkOf(line).value.newCount);
    }
  }

  /** What a diff is read as has no entry without lines and only 64-bit line numbers. */
  lemma ReadSetsAreProper(lines: seq<string>)
    ensures ChangedOf(lines).Some? ==> ProperSets(ChangedOf(lines).value)
  {
    ScanKeepsSetsProper(START, lines);
  }

  method ParseDiff(lines: seq<string>) returns (ok: bool, result: ChangedLines)
    ensures fresh(result)
    ensures ok == ChangedOf(lines).Some?
    ensures ok ==> result.lines == ChangedOf(lines).value && ProperSets(result.lines)
  {
    hide HunkOf, DestinationPath, AddRange, ProperSets;
    ReadSetsAreProper(lines);
    result := new ChangedLines();
    var path := "";
    var remaining := 0;
    var i := 0;
    while i < |lines|
      invariant 0 <= i <= |lines|
      invariant fresh(result)
      invariant ScanAll(START, lines) == ScanAll(Scan(path, remaining, result.lines), lines[i..])
    {
      var line := lines[i];
      assert lines[i..][0] == line && lines[i..][1..] == lines[i + 1..];
      i := i + 1;
      if remaining > 0 {
        if HasPrefix(line, "\\") {
          continue;
        } else if HasPrefix(line, "+") || HasPrefix(line, "-") {
          remaining := remaining - 1;
          continue;
        } else {
          remaining := 0;
        }
      }
      if HasPrefix(line, "diff --git ") {
        path := "";
      } else if HasPrefix(line, "+++ ") {
        path := DestinationPath(TrimPrefix(line, "+++ "));
      } else if HasPrefix(line, "@@ ") {
        var h := ParseHunkHeader(line);
        if h == None {
          ok := false;
          return;
        }
        remaining := Wrap64(h.value.oldCount + h.value.newCount);
        if path != "" {
          result.AddLines(path, h.value.newStart, h.value.newCount);
        }
      }
    }
    ok := true;
  }

  // ---------------------------------------------------------------- rendering

  /** A hunk as git prints it; `oldShort` and `newShort` leave a count of one out. */
  datatype HunkText = HunkText(
    oldStart: nat, oldCount: nat, oldShort: bool,
    newStart: nat, newCount: nat, newShort: bool,
    heading: string,
    body: seq<string>)

  predicate IsCountedLine(line: string) { HasPrefix(line, "+") || HasPrefix(line, "-") }

  function CountedLines(body: seq<string>): nat {
    if body == [] then 0 else (if IsCountedLine(body[0]) then 1 else 0) + CountedLines(body[1..])
  }

  /**
   Any heading, any text behind the first character of a body line, the removed and added lines and
   the no-newline markers in any order: only their number has to agree with the header, and every
   number with 64 bits.
   */
  predicate IsHunk(h: HunkText) {
    && (h.oldShort ==> h.oldCount == 1)
    && (h.newShort ==> h.newCount == 1)
    && h.oldStart <= MAX_INT64
    && h.newStart <= MAX_INT64
    && h.oldCount + h.newCount <= MAX_INT64
    && (h.newStart == 0 ==> h.newCount == 0)
    && (forall i :: 0 <= i < |h.body| ==> IsCountedLine(h.body[i]) || HasPrefix(h.body[i], "\\"))
    && CountedLines(h.body) == h.oldCount + h.newCount
  }

  function RenderRange(start: nat, count: nat, short: bool): string {
    if short then Decimal(start) else Decimal(start) + "," + Decimal(count)
  }

  function RenderHeader(h: HunkText): string {
    "@@ -" + RenderRange(h.oldStart, h.oldCount, h.oldShort)
    + " +" + RenderRange(h.newStart, h.newCount, h.newShort) + " @@" + h.heading
  }

  function RenderHunks(hunks: seq<HunkText>): seq<string> {
    if hunks == [] then [] else [RenderHeader(hunks[0])] + hunks[0].body + RenderHunks(hunks[1..])
  }

  datatype Target = Nowhere | Deleted | File(path: string)

  /** One file: its `diff --git` line, further header lines, the `+++` line if there is one, its hunks. */
  datatype Section = Section(names: string, extended: seq<string>, target: Target, hunks: seq<HunkText>)

  predicate IsStructural(line: string) {
    HasPrefix(line, "diff --git ") || HasPrefix(line, "+++ ") || HasPrefix(line, "@@ ")
  }

  predicate IsSection(s: Section) {
    && (forall i :: 0 <= i < |s.extended| ==> !IsStructural(s.extended[i]))
    && (forall i :: 0 <= i < |s.hunks| ==> IsHunk(s.hunks[i]))
  }

  function RenderTarget(t: Target): seq<string> {
    match t
    case Nowhere => []
    case Deleted => ["+++ /dev/null"]
    case File(path) => ["+++ b/" + path]
  }

  function RenderSection(s: Section): seq<string> {
    ["diff --git " + s.names] + s.extended + RenderTarget(s.target) + RenderHunks(s.hunks)
  }

  function RenderDiff(sections: seq<Section>): seq<string> {
    if sections == [] then [] else RenderSection(sections[0]) + RenderDiff(sections[1..])
  }

  // ---------------------------------------------------------------- the round trip

  lemma {:induction false} ScanConcat(s: Scan, a: seq<string>, b: seq<string>)
    ensures ScanAll(s, a + b) ==
            match ScanAll(s, a)
            case None => None
            case Some(next) => ScanAll(next, b)
    decreases |a|
  {
    if a == [] {
      assert a + b == b;
    } else {
      assert (a + b)[1..] == a[1..] + b;
      match ScanLine(s, a[0]) {
        case None =>
        case Some(next) => ScanConcat(next, a[1..], b);
      }
    }
  }

  lemma NumeralIsRead(n: nat)
    requires n <= MAX_INT64
    ensures Atoi(Decimal(n)) == Some(n) && ',' !in Decimal(n)
  {
    hide Decimal, DigitsValue, Atoi;
    DecimalValue(n);
    AtoiDigits("", Decimal(n));
    assert "" + Decimal(n) == Decimal(n);
    forall i | 0 <= i < |Decimal(n)| ensures Decimal(n)[i] != ',' { assert IsDigit(Decimal(n)[i]); }
  }

  lemma OneIsRead()
    ensures Decimal(1) == "1"
  {
  }

  lemma RangeRoundTrip(start: nat, count: nat, short: bool)
    requires start <= MAX_INT64 && count <= MAX_INT64 && (short ==> count == 1)
    ensures ParseHunkRange(RenderRange(start, count, short)) == Some((start, count))
  {
    hide Decimal, Atoi, Index;
    var a, b := Decimal(start), Decimal(count);
    NumeralIsRead(start);
    NumeralIsRead(count);
    if short {
      IndexNone(a, ',');
      OneIsRead();
    } else {
      IndexOfSeparator(a, ',', b);
      var s := a + "," + b;
      assert s[..|a|] == a && s[|a| + 1..] == b;
    }
  }

  /** A rendered range holds digits and commas only. */
  lemma RangeText(start: nat, count: nat, short: bool)
    ensures RenderRange(start, count, short) != []
    ensures forall i :: 0 <= i < |RenderRange(start, count, short)| ==>
              IsDigit(RenderRange(start, count, short)[i]) || RenderRange(start, count, short)[i] == ','
  {
    DecimalValue(start);
    DecimalValue(count);
  }

  lemma SignedIsWord(sign: char, a: string)
    requires sign == '-' || sign == '+'
    requires forall i :: 0 <= i < |a| ==> IsDigit(a[i]) || a[i] == ','
    ensures IsWord([sign] + a)
  {
    forall i | 0 <= i < |a| + 1 ensures !IsSpace(([sign] + a)[i]) {
      assert i > 0 ==> ([sign] + a)[i] == a[i - 1];
    }
  }

  lemma HeaderFields(a: string, b: string)
    requires a != [] && b != []
    requires forall i :: 0 <= i < |a| ==> IsDigit(a[i]) || a[i] == ','
    requires forall i :: 0 <= i < |b| ==> IsDigit(b[i]) || b[i] == ','
    ensures Fields("-" + a + " +" + b) == ["-" + a, "+" + b]
  {
    hide Fields, IsDigit;
    SignedIsWord('-', a);
    SignedIsWord('+', b);
    FieldsOfTwo("-" + a, "+" + b);
    assert "-" + a + " +" + b == ("-" + a) + " " + ("+" + b);
  }

  /** The closing marker is found in front of the heading, whatever the heading says. */
  lemma MarkerFound(a: string, b: string, heading: string)
    requires forall i :: 0 <= i < |a| ==> IsDigit(a[i]) || a[i] == ','
    requires forall i :: 0 <= i < |b| ==> IsDigit(b[i]) || b[i] == ','
    ensures Index("-" + a + " +" + b + " @@" + heading, " @@") == Some(|a| + |b| + 3)
  {
    var ranges := "-" + a + " +" + b;
    var s := ranges + " @@" + heading;
    var n := |ranges|;
    assert s[n..] == " @@" + heading;
    forall i | 0 <= i < n
      ensures !(" @@" <= s[i..])
    {
      assert s[i] == ranges[i];
      assert i + 1 < n ==> s[i + 1] == ranges[i + 1];
      NoMarkerInside(a, b, i);
      assert s[i..][0] == s[i] && s[i..][1] == s[i + 1];
    }
    FirstMatch(s, " @@", n);
  }

  lemma NoMarkerInside(a: string, b: string, i: nat)
    requires forall i :: 0 <= i < |a| ==> IsDigit(a[i]) || a[i] == ','
    requires forall i :: 0 <= i < |b| ==> IsDigit(b[i]) || b[i] == ','
    requires i < |"-" + a + " +" + b|
    ensures ("-" + a + " +" + b)[i] == ' ' ==> i + 1 < |"-" + a + " +" + b| && ("-" + a + " +" + b)[i + 1] == '+'
  {
    var s := "-" + a + " +" + b;
    assert s[0] == '-';
    assert forall k :: 1 <= k < |a| + 1 ==> s[k] == a[k - 1];
    assert s[|a| + 1] == ' ' && s[|a| + 2] == '+';
    assert forall k :: |a| + 3 <= k < |s| ==> s[k] == b[k - |a| - 3];
  }

  lemma FirstMatch(s: string, sub: string, at: nat)
    requires at <= |s| && sub <= s[at..]
    requires forall i :: 0 <= i < at ==> !(sub <= s[i..])
    ensures Index(s, sub) == Some(at)
  {
  }

  /** A rendered header is read back as the ranges it was made from. */
  lemma HeaderRoundTrip(h: HunkText)
    requires IsHunk(h)
    ensures HunkOf(RenderHeader(h)) == Some(Hunk(h.oldStart, h.oldCount, h.newStart, h.newCount))
  {
    hide RenderRange, Index, Fields, ParseHunkRange, ReadFields;
    var a := RenderRange(h.oldStart, h.oldCount, h.oldShort);
    var b := RenderRange(h.newStart, h.newCount, h.newShort);
    RangeText(h.oldStart, h.oldCount, h.oldShort);
    RangeText(h.newStart, h.newCount, h.newShort);
    HeaderText(a, b, h.heading);
    MarkerFound(a, b, h.heading);
    HeaderFields(a, b);
    RangesRead(h);
  }

  lemma HeaderText(a: string, b: string, heading: string)
    ensures TrimPrefix("@@ -" + a + " +" + b + " @@" + heading, "@@ ") == "-" + a + " +" + b + " @@" + heading
    ensures ("-" + a + " +" + b + " @@" + heading)[..|a| + |b| + 3] == "-" + a + " +" + b
  {
    assert "@@ -" + a + " +" + b + " @@" + heading == "@@ " + ("-" + a + " +" + b + " @@" + heading);
  }

  lemma RangesRead(h: HunkText)
    requires IsHunk(h)
    ensures ReadFields(NO_RANGES, ["-" + RenderRange(h.oldStart, h.oldCount, h.oldShort),
                                   "+" + RenderRange(h.newStart, h.newCount, h.newShort)]) ==
            Some(Ranges(Hunk(h.oldStart, h.oldCount, h.newStart, h.newCount), true, true))
  {
    hide RenderRange, ParseHunkRange, ReadFields;
    var a := RenderRange(h.oldStart, h.oldCount, h.oldShort);
    var b := RenderRange(h.newStart, h.newCount, h.newShort);
    RangeRoundTrip(h.oldStart, h.oldCount, h.oldShort);
    RangeRoundTrip(h.newStart, h.newCount, h.newShort);
    assert ("-" + a)[1..] == a && ("+" + b)[1..] == b;
    TwoFields("-" + a, "+" + b);
  }

  lemma TwoFields(f: string, g: string)
    ensures ReadFields(NO_RANGES, [f, g]) ==
            match ReadField(NO_RANGES, f)
            case None => None
            case Some(r) => ReadField(r, g)
  {
    hide ReadField;
    assert [f, g][1..] == [g];
    assert forall r :: ReadFields(r, [g]) == match ReadField(r, g) case None => None case Some(q) => Some(q);
  }

  /** The body is passed over, whatever its lines look like. */
  lemma {:induction false} BodyIsSkipped(s: Scan, body: seq<string>)
    requires s.remaining >= CountedLines(body)
    requires forall i :: 0 <= i < |body| ==> IsCountedLine(body[i]) || HasPrefix(body[i], "\\")
    ensures ScanAll(s, body) == Some(s.(remaining := s.remaining - CountedLines(body)))
    decreases |body|
  {
    hide HunkOf, DestinationPath, AddRange;
    if body != [] {
      var line := body[0];
      assert IsCountedLine(line) || HasPrefix(line, "\\");
      var next := if IsCountedLine(line) then s.(remaining := s.remaining - 1) else s;
      assert ScanLine(s, line) == Some(next) by {
        assert line[0] == '+' || line[0] == '-' || line[0] == '\\';
        assert !HasPrefix(line, "diff --git ") || line[0] == 'd';
        assert !HasPrefix(line, "@@ ") || line[0] == '@';
      }
      BodyIsSkipped(next, body[1..]);
    }
  }

  /** A line that is no body line ends a body early and is read as structure. */
  lemma LineEndsBody(s: Scan, line: string)
    requires s.remaining >= 0 && !IsCountedLine(line) && !HasPrefix(line, "\\")
    ensures ScanLine(s, line) == ScanLine(s.(remaining := 0), line)
  {
    hide HunkOf, DestinationPath, AddRange;
  }

  /** A body with fewer lines than its header promises loses nothing of what follows. */
  lemma ShortBodyLosesNothing(before: seq<string>, h: HunkText, body: seq<string>, after: seq<string>)
    requires ScanAll(START, before).Some? && ScanAll(START, before).value.remaining == 0
    requires IsHunk(h) && CountedLines(body) <= h.oldCount + h.newCount
    requires forall i :: 0 <= i < |body| ==> IsCountedLine(body[i]) || HasPrefix(body[i], "\\")
    requires after != [] ==> !IsCountedLine(after[0]) && !HasPrefix(after[0], "\\")
    ensures ChangedOf(before + [RenderHeader(h)] + body + after) == ChangedOf(before + [RenderHeader(h)] + h.body + after)
  {
    hide RenderHeader, AddRange, CountedLines, ScanAll, ScanLine;
    var s := ScanAll(START, before).value;
    BodyThenRest(s, h, body, after);
    BodyThenRest(s, h, h.body, after);
    ScanConcat(START, before, [RenderHeader(h)] + body + after);
    ScanConcat(START, before, [RenderHeader(h)] + h.body + after);
    assert before + [RenderHeader(h)] + body + after == before + ([RenderHeader(h)] + body + after);
    assert before + [RenderHeader(h)] + h.body + after == before + ([RenderHeader(h)] + h.body + after);
  }

  lemma BodyThenRest(s: Scan, h: HunkText, body: seq<string>, after: seq<string>)
    requires s.remaining == 0 && IsHunk(h) && CountedLines(body) <= h.oldCount + h.newCount
    requires forall i :: 0 <= i < |body| ==> IsCountedLine(body[i]) || HasPrefix(body[i], "\\")
    requires after != [] ==> !IsCountedLine(after[0]) && !HasPrefix(after[0], "\\")
    ensures var next := if s.path == "" then s else s.(changed := AddRange(s.changed, s.path, h.newStart, h.newCount));
            var r := ScanAll(s, [RenderHeader(h)] + body + after);
            if after == [] then r.Some? && r.value.changed == next.changed else r == ScanAll(next, after)
  {
    hide RenderHeader, AddRange, ScanLine;
    HeaderIsScanned(s, h);
    var inside := Scan(s.path, h.oldCount + h.newCount,
                       if s.path == "" then s.changed else AddRange(s.changed, s.path, h.newStart, h.newCount));
    assert ([RenderHeader(h)] + (body + after))[1..] == body + after;
    assert [RenderHeader(h)] + body + after == [RenderHeader(h)] + (body + after);
    BodyIsSkipped(inside, body);
    ScanConcat(inside, body, after);
    if after != [] {
      LineEndsBody(inside.(remaining := inside.remaining - CountedLines(body)), after[0]);
    }
  }

  /** What one hunk leaves of the scan. */
  function AfterHunks(s: Scan, hunks: seq<HunkText>): Scan
    decreases |hunks|
  {
    if hunks == [] then s
    else
      var h := hunks[0];
      AfterHunks(if s.path == "" then s else s.(changed := AddRange(s.changed, s.path, h.newStart, h.newCount)), hunks[1..])
  }

  lemma HeaderIsScanned(s: Scan, h: HunkText)
    requires IsHunk(h) && s.remaining == 0
    ensures ScanLine(s, RenderHeader(h)) ==
            Some(Scan(s.path, h.oldCount + h.newCount,
                      if s.path == "" then s.changed else AddRange(s.changed, s.path, h.newStart, h.newCount)))
  {
    hide HunkOf, DestinationPath, AddRange;
    HeaderRoundTrip(h);
    var header := RenderHeader(h);
    assert HasPrefix(header, "@@ ") && header[0] == '@';
    assert !HasPrefix(header, "diff --git ") && !HasPrefix(header, "+++ ");
  }

  lemma HunkIsRead(s: Scan, h: HunkText)
    requires IsHunk(h) && s.remaining == 0
    ensures ScanAll(s, [RenderHeader(h)] + h.body) ==
            Some(if s.path == "" then s else s.(changed := AddRange(s.changed, s.path, h.newStart, h.newCount)))
  {
    hide ScanLine, AddRange, RenderHeader;
    HeaderIsScanned(s, h);
    var next := Scan(s.path, h.oldCount + h.newCount,
                     if s.path == "" then s.changed else AddRange(s.changed, s.path, h.newStart, h.newCount));
    assert ([RenderHeader(h)] + h.body)[1..] == h.body;
    BodyIsSkipped(next, h.body);
  }

  lemma {:induction false} HunksAreRead(s: Scan, hunks: seq<HunkText>)
    requires s.remaining == 0 && forall i :: 0 <= i < |hunks| ==> IsHunk(hunks[i])
    ensures ScanAll(s, RenderHunks(hunks)) == Some(AfterHunks(s, hunks))
    decreases |hunks|
  {
    hide IsHunk, AddRange, RenderHeader, ScanLine;
    if hunks != [] {
      var h := hunks[0];
      HunkIsRead(s, h);
      var next := if s.path == "" then s else s.(changed := AddRange(s.changed, s.path, h.newStart, h.newCount));
      HunksAreRead(next, hunks[1..]);
      ScanConcat(s, [RenderHeader(h)] + h.body, RenderHunks(hunks[1..]));
    }
  }

  lemma {:induction false} ExtendedIsSkipped(s: Scan, extended: seq<string>)
    requires s.remaining == 0 && forall i :: 0 <= i < |extended| ==> !IsStructural(extended[i])
    ensures ScanAll(s, extended) == Some(s)
    decreases |extended|
  {
    hide HunkOf, DestinationPath, AddRange;
    if extended != [] {
      assert !IsStructural(extended[0]);
      ExtendedIsSkipped(s, extended[1..]);
    }
  }

  /** The path under which the hunks of a section are recorded. */
  function MeasuredPath(t: Target): string {
    if t.File? && IsRelevantGoFile(t.path) then t.path else ""
  }

  lemma TargetIsRead(s: Scan, t: Target)
    requires s.remaining == 0 && s.path == ""
    ensures ScanAll(s, RenderTarget(t)) == Some(s.(path := MeasuredPath(t)))
  {
    hide ScanLine, IsRelevantGoFile, DestinationPath;
    match t {
      case Nowhere =>
      case Deleted =>
        DestinationIsRead("/dev/null", s);
        PathOfTarget("");
        assert "+++ /dev/null" == "+++ " + "/dev/null";
      case File(path) =>
        DestinationIsRead("b/" + path, s);
        PathOfTarget(path);
        assert "+++ b/" + path == "+++ " + ("b/" + path);
    }
  }

  lemma PathOfTarget(path: string)
    ensures DestinationPath("/dev/null") == ""
    ensures DestinationPath("b/" + path) == if IsRelevantGoFile(path) then path else ""
    ensures !HasPrefix(path, "b/") && path != "/dev/null" ==>
              DestinationPath(path) == if IsRelevantGoFile(path) then path else ""
  {
    hide IsRelevantGoFile;
    assert ("b/" + path)[0] == 'b';
    TrimPrefixOfConcat("b/", path);
  }

  lemma DestinationIsRead(target: string, s: Scan)
    requires s.remaining == 0
    ensures ScanAll(s, ["+++ " + target]) == Some(s.(path := DestinationPath(target)))
  {
    hide HunkOf, AddRange, DestinationPath;
    var line := "+++ " + target;
    assert line[0] == '+' && HasPrefix(line, "+++ ") && !HasPrefix(line, "diff --git ");
    TrimPrefixOfConcat("+++ ", target);
    assert [line][1..] == [];
  }

  function AfterSection(changed: LineSets, s: Section): Scan {
    AfterHunks(Scan(MeasuredPath(s.target), 0, changed), s.hunks)
  }

  lemma SectionIsRead(before: Scan, s: Section)
    requires before.remaining == 0 && IsSection(s)
    ensures ScanAll(before, RenderSection(s)) == Some(AfterSection(before.changed, s))
  {
    hide IsHunk, HunkOf, AddRange, AfterHunks, RenderHunks, RenderTarget, MeasuredPath;
    var opening := "diff --git " + s.names;
    var inside := before.(path := "");
    var aimed := inside.(path := MeasuredPath(s.target));
    assert HasPrefix(opening, "diff --git ");
    assert ScanAll(before, [opening]) == Some(inside) by {
      assert [opening][1..] == [];
    }
    ExtendedIsSkipped(inside, s.extended);
    TargetIsRead(inside, s.target);
    HunksAreRead(aimed, s.hunks);
    hide ScanAll;
    ScanConcat(before, [opening], s.extended);
    ScanConcat(before, [opening] + s.extended, RenderTarget(s.target));
    ScanConcat(before, [opening] + s.extended + RenderTarget(s.target), RenderHunks(s.hunks));
  }

  /** The lines the hunks add. */
  function HunkLines(hunks: seq<HunkText>): set<int> {
    if hunks == [] then {} else RangeSet(hunks[0].newStart, hunks[0].newCount) + HunkLines(hunks[1..])
  }

  predicate InSomeHunk(hunks: seq<HunkText>, line: int) {
    exists i :: 0 <= i < |hunks| && hunks[i].newStart <= line < hunks[i].newStart + hunks[i].newCount
  }

  /** The last line the hunk adds has a 64-bit number. */
  predicate EndsInRange(h: HunkText) { h.newCount == 0 || h.newStart + h.newCount - 1 <= MAX_INT64 }

  lemma {:induction false} HunkLinesAreTheRanges(hunks: seq<HunkText>, line: int)
    requires forall i :: 0 <= i < |hunks| ==> IsHunk(hunks[i]) && EndsInRange(hunks[i])
    ensures line in HunkLines(hunks) <==> InSomeHunk(hunks, line)
  {
    hide RangeSet;
    if hunks != [] {
      var h := hunks[0];
      assert IsHunk(h);
      RangeWithoutOverflow(h.newStart, h.newCount);
      HunkLinesAreTheRanges(hunks[1..], line);
      FirstOrLater(hunks, line);
    }
  }

  lemma FirstOrLater(hunks: seq<HunkText>, line: int)
    requires hunks != []
    ensures InSomeHunk(hunks, line) <==>
            hunks[0].newStart <= line < hunks[0].newStart + hunks[0].newCount || InSomeHunk(hunks[1..], line)
  {
    if InSomeHunk(hunks[1..], line) {
      var i :| 0 <= i < |hunks[1..]| && hunks[1..][i].newStart <= line < hunks[1..][i].newStart + hunks[1..][i].newCount;
      assert hunks[i + 1] == hunks[1..][i];
    }
    if InSomeHunk(hunks, line) && !(hunks[0].newStart <= line < hunks[0].newStart + hunks[0].newCount) {
      var i :| 0 <= i < |hunks| && hunks[i].newStart <= line < hunks[i].newStart + hunks[i].newCount;
      assert hunks[1..][i - 1] == hunks[i];
    }
  }

  lemma WithLinesTwice(m: LineSets, path: string, a: set<int>, b: set<int>)
    ensures WithLines(WithLines(m, path, a), path, b) == WithLines(m, path, a + b)
  {
    if a == {} {
      assert a + b == b;
    } else if b == {} {
      assert a + b == a;
    } else {
      var x := Member(a);
      assert x in a + b;
      assert LinesOf(m, path) + a + b == LinesOf(m, path) + (a + b);
    }
  }

  lemma {:induction false} HunksCollect(s: Scan, hunks: seq<HunkText>)
    requires s.path != ""
    ensures AfterHunks(s, hunks) == s.(changed := WithLines(s.changed, s.path, HunkLines(hunks)))
    decreases |hunks|
  {
    hide WithLines, RangeSet;
    if hunks == [] {
      NoMoreLines(s.changed, s.path);
    } else {
      var r := RangeSet(hunks[0].newStart, hunks[0].newCount);
      HunksCollect(s.(changed := WithLines(s.changed, s.path, r)), hunks[1..]);
      WithLinesTwice(s.changed, s.path, r, HunkLines(hunks[1..]));
    }
  }

  lemma {:induction false} UnmeasuredHunks(s: Scan, hunks: seq<HunkText>)
    requires s.path == ""
    ensures AfterHunks(s, hunks) == s
    decreases |hunks|
  {
    if hunks != [] {
      UnmeasuredHunks(s, hunks[1..]);
    }
  }

  predicate IsMeasured(s: Section, path: string) { s.target == File(path) && IsRelevantGoFile(path) }

  /** The section is measured and the line lies in the range of one of its hunks. */
  predicate Adds(s: Section, path: string, line: int) { IsMeasured(s, path) && InSomeHunk(s.hunks, line) }

  /** The section is measured and counting up from the start of one of its hunks in 64 bits reaches the line. */
  predicate Reaches(s: Section, path: string, line: int) { IsMeasured(s, path) && line in HunkLines(s.hunks) }

  lemma SectionReaches(changed: LineSets, s: Section, path: string, line: int)
    requires IsSection(s)
    ensures AfterSection(changed, s).remaining == 0
    ensures line in LinesOf(AfterSection(changed, s).changed, path) <==> line in LinesOf(changed, path) || Reaches(s, path, line)
  {
    hide AfterHunks, WithLines, HunkLines, IsHunk;
    var start := Scan(MeasuredPath(s.target), 0, changed);
    if start.path == "" {
      UnmeasuredHunks(start, s.hunks);
      assert !IsRelevantGoFile("");
    } else {
      HunksCollect(start, s.hunks);
      AddedLines(changed, start.path, HunkLines(s.hunks));
    }
  }

  lemma SectionKeepsEntriesFull(changed: LineSets, s: Section)
    requires forall path :: path in changed ==> changed[path] != {}
    ensures forall path :: path in AfterSection(changed, s).changed ==> AfterSection(changed, s).changed[path] != {}
  {
    hide AfterHunks, IsRelevantGoFile;
    var start := Scan(MeasuredPath(s.target), 0, changed);
    if start.path == "" {
      UnmeasuredHunks(start, s.hunks);
    } else {
      HunksCollect(start, s.hunks);
    }
  }

  /**
   Reading a rendered diff succeeds, whatever bodies, headings and extended headers say; it yields the
   lines that the hunks of the measured sections reach, and no entry without lines.
   */
  lemma DiffIsRead(sections: seq<Section>)
    requires forall i :: 0 <= i < |sections| ==> IsSection(sections[i])
    ensures ChangedOf(RenderDiff(sections)).Some?
    ensures forall path, line {:trigger line in LinesOf(ChangedOf(RenderDiff(sections)).value, path)} ::
              line in LinesOf(ChangedOf(RenderDiff(sections)).value, path) <==>
              exists i :: 0 <= i < |sections| && Reaches(sections[i], path, line)
    ensures forall path :: path in ChangedOf(RenderDiff(sections)).value ==> ChangedOf(RenderDiff(sections)).value[path] != {}
  {
    hide LinesOf, RenderDiff, IsSection, Reaches;
    SectionsAreRead(START, sections);
    var r := ScanAll(START, RenderDiff(sections)).value;
    forall path, line: int
      ensures line in LinesOf(r.changed, path) <==> exists i :: 0 <= i < |sections| && Reaches(sections[i], path, line)
    {
      SectionsReach(START, sections, path, line);
      NoLinesYet(path);
    }
  }

  lemma NamesBySuffix(stem: string)
    ensures !IsRelevantGoFile(stem + "_test.go")
    ensures IsRelevantGoFile(stem + ".go") <==> |stem| < 5 || stem[|stem| - 5..] != "_test"
  {
    var test, path := stem + "_test.go", stem + ".go";
    assert test[|test| - 8..] == "_test.go" && path[|path| - 3..] == ".go";
    if |stem| >= 5 {
      var end := stem[|stem| - 5..];
      assert path[|path| - 8..] == end + ".go";
      assert "_test" + ".go" == "_test.go" && (end + ".go")[..5] == end && "_test.go"[..5] == "_test";
    }
  }

  lemma EntriesAreMeasured(sections: seq<Section>, path: string)
    requires forall i :: 0 <= i < |sections| ==> IsSection(sections[i])
    requires ChangedOf(RenderDiff(sections)).Some? && path in ChangedOf(RenderDiff(sections)).value
    ensures IsRelevantGoFile(path)
  {
    hide RenderDiff, ChangedOf, IsSection, HunkLines, IsRelevantGoFile;
    DiffIsRead(sections);
    var m := ChangedOf(RenderDiff(sections)).value;
    var line := Member(m[path]);
    assert line in LinesOf(m, path);
  }

  /**
   A file is measured by the end of its name: nothing is read for a test file or for one that is no Go
   file, whatever its sections say.
   */
  lemma OtherFilesAreNotMeasured(sections: seq<Section>, path: string)
    requires forall i :: 0 <= i < |sections| ==> IsSection(sections[i])
    requires (exists stem :: path == stem + "_test.go") || !(exists stem :: path == stem + ".go")
    ensures ChangedOf(RenderDiff(sections)).Some? && path !in ChangedOf(RenderDiff(sections)).value
  {
    hide RenderDiff, ChangedOf, IsSection, IsRelevantGoFile;
    OtherNames(path);
    DiffIsRead(sections);
    if path in ChangedOf(RenderDiff(sections)).value {
      EntriesAreMeasured(sections, path);
    }
  }

  lemma OtherNames(path: string)
    requires (exists stem :: path == stem + "_test.go") || !(exists stem :: path == stem + ".go")
    ensures !IsRelevantGoFile(path)
  {
    StemOfGoFile(path);
    if stem :| path == stem + "_test.go" {
      NamesBySuffix(stem);
    }
  }

  lemma StemOfGoFile(path: string)
    ensures HasSuffix(path, ".go") ==> exists stem :: path == stem + ".go"
  {
    if HasSuffix(path, ".go") {
      assert path == path[..|path| - 3] + ".go";
    }
  }

  /** For any other Go file exactly the lines are read that the hunks of its sections reach. */
  lemma GoFilesAreMeasured(sections: seq<Section>, stem: string, line: int)
    requires forall i :: 0 <= i < |sections| ==> IsSection(sections[i])
    requires |stem| < 5 || stem[|stem| - 5..] != "_test"
    ensures ChangedOf(RenderDiff(sections)).Some?
    ensures line in LinesOf(ChangedOf(RenderDiff(sections)).value, stem + ".go") <==>
            exists i :: 0 <= i < |sections| && sections[i].target == File(stem + ".go") && line in HunkLines(sections[i].hunks)
  {
    var path := stem + ".go";
    NamesBySuffix(stem);
    hide RenderDiff, ChangedOf, IsSection, HunkLines, LinesOf, IsRelevantGoFile;
    DiffIsRead(sections);
    if i :| 0 <= i < |sections| && sections[i].target == File(path) && line in HunkLines(sections[i].hunks) {
      assert Reaches(sections[i], path, line);
    }
  }

  /** The lines read are exactly those in the ranges of the measured hunks. */
  ghost predicate ReadAsWritten(sections: seq<Section>) {
    && ChangedOf(RenderDiff(sections)).Some?
    && forall path, line {:trigger line in LinesOf(ChangedOf(RenderDiff(sections)).value, path)} ::
         line in LinesOf(ChangedOf(RenderDiff(sections)).value, path) <==>
         exists i :: 0 <= i < |sections| && Adds(sections[i], path, line)
  }

  /** Every hunk of a measured section ends at a 64-bit line number. */
  ghost predicate AllEndInRange(sections: seq<Section>) {
    forall i, j, path {:trigger IsMeasured(sections[i], path), sections[i].hunks[j]} ::
      0 <= i < |sections| && 0 <= j < |sections[i].hunks| && IsMeasured(sections[i], path) ==> EndsInRange(sections[i].hunks[j])
  }

  /**
   Reading a rendered diff yields exactly the lines of the ranges of the measured hunks, exactly when
   those end at 64-bit line numbers.
   */
  lemma DiffRoundTrip(sections: seq<Section>)
    requires forall i :: 0 <= i < |sections| ==> IsSection(sections[i])
    ensures ReadAsWritten(sections) <==> AllEndInRange(sections)
  {
    DiffIsRead(sections);
    if AllEndInRange(sections) {
      forall path, line, i | 0 <= i < |sections|
        ensures Adds(sections[i], path, line) <==> Reaches(sections[i], path, line)
      {
        hide InSomeHunk, HunkLines, EndsInRange;
        if IsMeasured(sections[i], path) {
          HunkLinesAreTheRanges(sections[i].hunks, line);
        }
      }
      hide Adds, Reaches, LinesOf, RenderDiff, ChangedOf;
    } else {
      OverlongHunkLosesItsLastLine(sections);
    }
  }

  lemma {:induction false} HunkLinesInt64(hunks: seq<HunkText>)
    ensures forall line :: line in HunkLines(hunks) ==> IsInt64(line)
  {
    if hunks != [] {
      RangeInt64(hunks[0].newStart, hunks[0].newCount);
      HunkLinesInt64(hunks[1..]);
    }
  }

  lemma OverlongHunkLosesItsLastLine(sections: seq<Section>)
    requires forall i :: 0 <= i < |sections| ==> IsSection(sections[i])
    requires !AllEndInRange(sections)
    ensures !ReadAsWritten(sections)
  {
    hide LinesOf, RenderDiff, ChangedOf, IsSection, HunkLines, IsHunk;
    DiffIsRead(sections);
    var i, j, path :| 0 <= i < |sections| && 0 <= j < |sections[i].hunks| && IsMeasured(sections[i], path) &&
                      !EndsInRange(sections[i].hunks[j]);
    var h := sections[i].hunks[j];
    var line := h.newStart + h.newCount - 1;
    assert h.newStart <= line < h.newStart + h.newCount;
    assert Adds(sections[i], path, line);
    forall k | 0 <= k < |sections| ensures !Reaches(sections[k], path, line) {
      HunkLinesInt64(sections[k].hunks);
    }
    assert line !in LinesOf(ChangedOf(RenderDiff(sections)).value, path);
  }

  lemma NoLinesYet(path: string)
    ensures LinesOf(START.changed, path) == {}
  {
  }

  lemma {:induction false} SectionsAreRead(s: Scan, sections: seq<Section>)
    requires s.remaining == 0 && forall i :: 0 <= i < |sections| ==> IsSection(sections[i])
    requires forall path :: path in s.changed ==> s.changed[path] != {}
    ensures ScanAll(s, RenderDiff(sections)).Some?
    ensures forall path :: path in ScanAll(s, RenderDiff(sections)).value.changed ==>
              ScanAll(s, RenderDiff(sections)).value.changed[path] != {}
    decreases |sections|
  {
    hide IsSection, RenderSection, ScanLine, AfterSection;
    if sections != [] {
      var next := AfterSection(s.changed, sections[0]);
      SectionIsRead(s, sections[0]);
      SectionReaches(s.changed, sections[0], "", 0);
      SectionKeepsEntriesFull(s.changed, sections[0]);
      SectionsAreRead(next, sections[1..]);
      hide ScanAll;
      ScanConcat(s, RenderSection(sections[0]), RenderDiff(sections[1..]));
    }
  }

  lemma {:induction false} SectionsReach(s: Scan, sections: seq<Section>, path: string, line: int)
    requires s.remaining == 0 && forall i :: 0 <= i < |sections| ==> IsSection(sections[i])
    requires ScanAll(s, RenderDiff(sections)).Some?
    ensures line in LinesOf(ScanAll(s, RenderDiff(sections)).value.changed, path) <==>
            line in LinesOf(s.changed, path) || exists i :: 0 <= i < |sections| && Reaches(sections[i], path, line)
    decreases |sections|
  {
    hide IsSection, RenderSection, ScanLine, AfterSection, LinesOf, Reaches;
    if sections != [] {
      var next := AfterSection(s.changed, sections[0]);
      SectionIsRead(s, sections[0]);
      SectionReaches(s.changed, sections[0], path, line);
      ScanConcat(s, RenderSection(sections[0]), RenderDiff(sections[1..]));
      SectionsReach(next, sections[1..], path, line);
      assert (exists i :: 0 <= i < |sections| && Reaches(sections[i], path, line)) <==>
             Reaches(sections[0], path, line) || (exists i :: 0 <= i < |sections[1..]| && Reaches(sections[1..][i], path, line)) by {
        if i :| 0 <= i < |sections[1..]| && Reaches(sections[1..][i], path, line) {
          assert sections[i + 1] == sections[1..][i];
        }
        if i :| 0 <= i < |sections| && Reaches(sections[i], path, line) {
          assert i > 0 ==> sections[1..][i - 1] == sections[i];
        }
      }
    }
  }
}
