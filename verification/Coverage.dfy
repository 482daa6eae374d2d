/** Measuring the changed lines and ordering the report: `measure` of `tools/coveragegate/profile.go`. */
module Coverage {
  import opened Text
  import opened Sorting
  import opened Diff
  import opened Profile

  datatype FileStats = FileStats(path: string, total: int, covered: int)

  datatype Coverage = Coverage(
    repoTotal: int, repoCovered: int,
    changedTotal: int, changedCovered: int,
    files: seq<FileStats>,
    noData: seq<string>)

  /** The path of a profile name relative to the repository, None outside the module under test. */
  function RepoPath(mainModule: string, name: string): Option<string> {
    var prefix := mainModule + "/";
    if HasPrefix(name, prefix) then Some(TrimPrefix(name, prefix)) else None
  }

  lemma RepoPathInverse(mainModule: string, name: string, path: string)
    ensures RepoPath(mainModule, name) == Some(path) <==> name == mainModule + "/" + path
  {
    var prefix := mainModule + "/";
    if HasPrefix(name, prefix) {
      assert name == prefix + name[|prefix|..];
    }
  }

  // ---------------------------------------------------------------- sums over blocks and names

  /** Statements of the blocks; of the covered ones only, or of the touched ones only, where asked. */
  ghost function Stmts(blocks: seq<Block>, coveredOnly: bool): int {
    if blocks == [] then 0
    else
      var b := blocks[|blocks| - 1];
      Stmts(blocks[..|blocks| - 1], coveredOnly) + if coveredOnly && b.count <= 0 then 0 else b.numStmts
  }

  ghost function TouchedBlocks(blocks: seq<Block>, changed: LineSets, path: string): seq<Block> {
    if blocks == [] then []
    else
      var b := blocks[|blocks| - 1];
      TouchedBlocks(blocks[..|blocks| - 1], changed, path) + if FoundTouched(changed, path, b.startLine, b.endLine) then [b] else []
  }

  /** The blocks of one profile name that the change touches, none outside the module. */
  ghost function ChangedBlocks(p: Profile, changed: LineSets, mainModule: string, name: string): seq<Block> {
    if name !in p.blocks then []
    else
      match RepoPath(mainModule, name)
      case None => []
      case Some(path) => TouchedBlocks(p.blocks[name], changed, path)
  }

  ghost function AllBlocks(p: Profile, name: string): seq<Block> {
    if name in p.blocks then p.blocks[name] else []
  }

  /** A sum over names; `pick` gives the blocks that count for a name. */
  ghost function SumOver(names: set<string>, pick: string -> seq<Block>, coveredOnly: bool): int {
    if names == {} then 0
    else
      var name :| name in names;
      Stmts(pick(name), coveredOnly) + SumOver(names - {name}, pick, coveredOnly)
  }

  /** It does not matter in which order the names are walked. */
  lemma {:induction false} SumTakesAnyName(names: set<string>, pick: string -> seq<Block>, coveredOnly: bool, name: string)
    requires name in names
    ensures SumOver(names, pick, coveredOnly) == Stmts(pick(name), coveredOnly) + SumOver(names - {name}, pick, coveredOnly)
    decreases names
  {
    var first :| first in names &&
      SumOver(names, pick, coveredOnly) == Stmts(pick(first), coveredOnly) + SumOver(names - {first}, pick, coveredOnly);
    if first != name {
      SumTakesAnyName(names - {first}, pick, coveredOnly, name);
      SumTakesAnyName(names - {name}, pick, coveredOnly, first);
      assert names - {first} - {name} == names - {name} - {first};
    }
  }

  ghost function AllPick(p: Profile): string -> seq<Block> { name => AllBlocks(p, name) }

  ghost function ChangedPick(p: Profile, changed: LineSets, mainModule: string): string -> seq<Block> {
    name => ChangedBlocks(p, changed, mainModule, name)
  }

  ghost function RepoSum(p: Profile, coveredOnly: bool): int {
    SumOver(p.blocks.Keys, AllPick(p), coveredOnly)
  }

  ghost function ChangedSum(p: Profile, changed: LineSets, mainModule: string, coveredOnly: bool): int {
    SumOver(p.blocks.Keys, ChangedPick(p, changed, mainModule), coveredOnly)
  }

  /** The entry of one changed file: the touched blocks of the one profile name with that path. */
  ghost predicate IsFileOf(p: Profile, changed: LineSets, mainModule: string, f: FileStats) {
    var blocks := ChangedBlocks(p, changed, mainModule, mainModule + "/" + f.path);
    blocks != [] && f.total == Wrap64(Stmts(blocks, false)) && f.covered == Wrap64(Stmts(blocks, true))
  }

  // ---------------------------------------------------------------- sums over files

  ghost function SumFiles(files: seq<FileStats>, coveredOnly: bool): int {
    if files == [] then 0
    else
      var f := files[|files| - 1];
      SumFiles(files[..|files| - 1], coveredOnly) + if coveredOnly then f.covered else f.total
  }

  ghost function SumStats(m: map<string, FileStats>, coveredOnly: bool): int
    decreases m.Keys
  {
    if m == map[] then 0
    else
      var path :| path in m;
      (if coveredOnly then m[path].covered else m[path].total) + SumStats(m - {path}, coveredOnly)
  }

  lemma {:induction false} StatsTakeAnyPath(m: map<string, FileStats>, coveredOnly: bool, path: string)
    requires path in m
    ensures SumStats(m, coveredOnly) == (if coveredOnly then m[path].covered else m[path].total) + SumStats(m - {path}, coveredOnly)
    decreases m.Keys
  {
    var first :| first in m &&
      SumStats(m, coveredOnly) == (if coveredOnly then m[first].covered else m[first].total) + SumStats(m - {first}, coveredOnly);
    if first != path {
      StatsTakeAnyPath(m - {first}, coveredOnly, path);
      StatsTakeAnyPath(m - {path}, coveredOnly, first);
      assert m - {first} - {path} == m - {path} - {first};
    }
  }

  lemma StatsOfUpdate(m: map<string, FileStats>, coveredOnly: bool, path: string, f: FileStats)
    ensures SumStats(m[path := f], coveredOnly) ==
            SumStats(m, coveredOnly) + (if coveredOnly then f.covered else f.total)
            - if path in m then (if coveredOnly then m[path].covered else m[path].total) else 0
  {
    StatsTakeAnyPath(m[path := f], coveredOnly, path);
    if path in m {
      StatsTakeAnyPath(m, coveredOnly, path);
      assert m[path := f] - {path} == m - {path};
    } else {
      assert m[path := f] - {path} == m;
    }
  }

  // ---------------------------------------------------------------- the measurement

  /** Lower ratio first, by cross multiplication in 64 bits; ties by path. */
  predicate WorseFirst(a: FileStats, b: FileStats) {
    var left, right := Wrap64(a.covered * b.total), Wrap64(b.covered * a.total);
    if left != right then left < right else StringLess(a.path, b.path)
  }

  ghost predicate PathsDistinct(files: seq<FileStats>) {
    forall i, j :: 0 <= i < j < |files| ==> files[i].path != files[j].path
  }

  /** Running totals while the profile is walked, as 64-bit integers. */
  datatype Tally = Tally(repoTotal: int, repoCovered: int, changedTotal: int, changedCovered: int) {
    predicate Fits() { IsInt64(repoTotal) && IsInt64(repoCovered) && IsInt64(changedTotal) && IsInt64(changedCovered) }
  }

  /** Wrapping at every addition or once at the end is the same. */
  lemma WrapsOnce(x: int, y: int)
    ensures Wrap64(Wrap64(x) + y) == Wrap64(x + y)
  {
    var a, b := x - MIN_INT64, Wrap64(x) - MIN_INT64;
    assert b == a % TWO_TO_THE_64;
    var k := a / TWO_TO_THE_64;
    assert a == k * TWO_TO_THE_64 + b;
    SameRemainder(b + y, k);
  }

  lemma SameRemainder(x: int, k: int)
    ensures (x + k * TWO_TO_THE_64) % TWO_TO_THE_64 == x % TWO_TO_THE_64
  {
    var m := TWO_TO_THE_64;
    var q, r := x / m, x % m;
    assert x + k * m == (q + k) * m + r;
    RemainderIsUnique(x + k * m, q + k, r);
  }

  lemma RemainderIsUnique(x: int, q: int, r: int)
    requires x == q * TWO_TO_THE_64 + r && 0 <= r < TWO_TO_THE_64
    ensures x % TWO_TO_THE_64 == r
  {
  }

  ghost function MoreTally(t: Tally, blocks: seq<Block>, touched: seq<Block>): (r: Tally)
    ensures r.Fits()
  {
    Tally(Wrap64(t.repoTotal + Stmts(blocks, false)), Wrap64(t.repoCovered + Stmts(blocks, true)),
          Wrap64(t.changedTotal + Stmts(touched, false)), Wrap64(t.changedCovered + Stmts(touched, true)))
  }

  ghost function MoreFiles(known: map<string, FileStats>, path: Option<string>, touched: seq<Block>): map<string, FileStats>
  {
    if touched == [] || path.None? then known
    else known[path.value := FileStats(path.value, Wrap64(Stmts(touched, false)), Wrap64(Stmts(touched, true)))]
  }

  ghost predicate AddsBlock(s: seq<Block>, b: Block, more: seq<Block>) {
    && Stmts(more, false) == Stmts(s, false) + b.numStmts
    && Stmts(more, true) == Stmts(s, true) + if b.count <= 0 then 0 else b.numStmts
  }

  ghost function TouchedOf(blocks: seq<Block>, changed: LineSets, path: Option<string>): seq<Block> {
    if path.Some? then TouchedBlocks(blocks, changed, path.value) else []
  }

  lemma NothingCounted(before: Tally, known: map<string, FileStats>, changed: LineSets, path: Option<string>)
    requires before.Fits()
    ensures TouchedOf([], changed, path) == []
    ensures MoreTally(before, [], []) == before && MoreFiles(known, path, []) == known
  {
  }

  lemma OneMoreBlock(blocks: seq<Block>, i: nat, changed: LineSets, path: Option<string>)
    requires i < |blocks|
    ensures AddsBlock(blocks[..i], blocks[i], blocks[..i + 1])
    ensures var t := TouchedOf(blocks[..i], changed, path);
            && TouchedOf(blocks[..i + 1], changed, path) ==
               (if path.Some? && FoundTouched(changed, path.value, blocks[i].startLine, blocks[i].endLine) then t + [blocks[i]] else t)
            && AddsBlock(t, blocks[i], t + [blocks[i]])
  {
    hide FoundTouched;
    assert blocks[..i + 1][..i] == blocks[..i];
    var t := TouchedOf(blocks[..i], changed, path);
    assert (t + [blocks[i]])[..|t|] == t;
    if path.Some? {
      TouchedStep(blocks[..i + 1], changed, path.value);
    }
  }

  /** What one block adds to the totals and to its file. */
  function CountBlock(t: Tally, b: Block, inChange: bool): Tally {
    var hit := if b.count > 0 then b.numStmts else 0;
    var all := t.(repoTotal := Wrap64(t.repoTotal + b.numStmts), repoCovered := Wrap64(t.repoCovered + hit));
    if inChange
    then all.(changedTotal := Wrap64(t.changedTotal + b.numStmts), changedCovered := Wrap64(t.changedCovered + hit))
    else all
  }

  function CountInFile(known: map<string, FileStats>, path: string, b: Block): FileStats {
    var f := if path in known then known[path] else FileStats(path, 0, 0);
    FileStats(path, Wrap64(f.total + b.numStmts), Wrap64(f.covered + if b.count > 0 then b.numStmts else 0))
  }

  lemma CountsBlock(before: Tally, known: map<string, FileStats>, blocks: seq<Block>, i: nat, changed: LineSets, path: Option<string>)
    requires i < |blocks| && (path.Some? ==> path.value !in known)
    ensures var t, u := TouchedOf(blocks[..i], changed, path), TouchedOf(blocks[..i + 1], changed, path);
            var inChange := path.Some? && FoundTouched(changed, path.value, blocks[i].startLine, blocks[i].endLine);
            && MoreTally(before, blocks[..i + 1], u) == CountBlock(MoreTally(before, blocks[..i], t), blocks[i], inChange)
            && (!inChange ==> u == t)
            && (inChange ==> var files := MoreFiles(known, path, t);
                             MoreFiles(known, path, u) == files[path.value := CountInFile(files, path.value, blocks[i])])
  {
    hide Stmts, TouchedOf, FoundTouched, Wrap64;
    OneMoreBlock(blocks, i, changed, path);
    var b, t := blocks[i], TouchedOf(blocks[..i], changed, path);
    var hit := if b.count > 0 then b.numStmts else 0;
    WrapsOnce(before.repoTotal + Stmts(blocks[..i], false), b.numStmts);
    WrapsOnce(before.repoCovered + Stmts(blocks[..i], true), hit);
    WrapsOnce(before.changedTotal + Stmts(t, false), b.numStmts);
    WrapsOnce(before.changedCovered + Stmts(t, true), hit);
    WrapsOnce(Stmts(t, false), b.numStmts);
    WrapsOnce(Stmts(t, true), hit);
    NoStmts(t);
  }

  /** Line numbers are 64-bit integers, as the reader guarantees. */
  predicate LinesFit(blocks: seq<Block>) { forall b :: b in blocks ==> IsInt64(b.startLine) && IsInt64(b.endLine) }

  predicate ProfileFits(p: Profile) { forall name :: name in p.blocks ==> LinesFit(p.blocks[name]) }

  /** What one file's blocks add, recorded under its path when it has one. */
  method AddFile(blocks: seq<Block>, path: Option<string>, changed: ChangedLines, before: Tally, known: map<string, FileStats>)
    returns (after: Tally, perFile: map<string, FileStats>)
    requires before.Fits() && (path.Some? ==> path.value !in known)
    requires ProperSets(changed.lines) && LinesFit(blocks)
    ensures after == MoreTally(before, blocks, TouchedOf(blocks, changed.lines, path))
    ensures perFile == MoreFiles(known, path, TouchedOf(blocks, changed.lines, path))
  {
    hide MoreTally, MoreFiles, TouchedOf, FoundTouched;
    after, perFile := before, known;
    var i := 0;
    assert blocks[..0] == [];
    NothingCounted(before, known, changed.lines, path);
    while i < |blocks|
      invariant 0 <= i <= |blocks|
      invariant after == MoreTally(before, blocks[..i], TouchedOf(blocks[..i], changed.lines, path))
      invariant perFile == MoreFiles(known, path, TouchedOf(blocks[..i], changed.lines, path))
    {
      var b := blocks[i];
      CountsBlock(before, known, blocks, i, changed.lines, path);
      i := i + 1;
      var hit := if b.count > 0 then b.numStmts else 0;
      after := after.(repoTotal := Wrap64(after.repoTotal + b.numStmts), repoCovered := Wrap64(after.repoCovered + hit));
      if path == None {
        continue;
      }
      var inChange := changed.Touches(path.value, b.startLine, b.endLine);
      if !inChange {
        continue;
      }
      var stats := if path.value in perFile then perFile[path.value] else FileStats(path.value, 0, 0);
      stats := FileStats(path.value, Wrap64(stats.total + b.numStmts), Wrap64(stats.covered + hit));
      perFile := perFile[path.value := stats];
      after := after.(changedTotal := Wrap64(after.changedTotal + b.numStmts), changedCovered := Wrap64(after.changedCovered + hit));
    }
    assert blocks[..i] == blocks;
  }

  /** The entries recorded for the names walked so far. */
  ghost predicate PerFileOk(p: Profile, changed: LineSets, mainModule: string, walked: set<string>, perFile: map<string, FileStats>) {
    && (forall path :: path in perFile <==>
          mainModule + "/" + path in walked && ChangedBlocks(p, changed, mainModule, mainModule + "/" + path) != [])
    && (forall path :: path in perFile ==> perFile[path].path == path && IsFileOf(p, changed, mainModule, perFile[path]))
  }

  lemma PerFileGrows(p: Profile, changed: LineSets, mainModule: string, walked: set<string>, perFile: map<string, FileStats>, name: string)
    requires PerFileOk(p, changed, mainModule, walked, perFile) && name in p.blocks && name !in walked
    ensures var path := RepoPath(mainModule, name);
            var touched := ChangedBlocks(p, changed, mainModule, name);
            && (path.Some? ==> path.value !in perFile)
            && PerFileOk(p, changed, mainModule, walked + {name}, MoreFiles(perFile, path, touched))
  {
    hide Stmts, Wrap64, RepoPath, TouchedBlocks;
    var path := RepoPath(mainModule, name);
    forall q ensures mainModule + "/" + q == name <==> path == Some(q) {
      RepoPathInverse(mainModule, name, q);
    }
  }

  lemma TallyGrows(p: Profile, walked: set<string>, pick: string -> seq<Block>, name: string)
    requires name !in walked
    ensures SumOver(walked + {name}, pick, false) == SumOver(walked, pick, false) + Stmts(pick(name), false)
    ensures SumOver(walked + {name}, pick, true) == SumOver(walked, pick, true) + Stmts(pick(name), true)
  {
    hide SumOver, Stmts;
    SumTakesAnyName(walked + {name}, pick, false, name);
    SumTakesAnyName(walked + {name}, pick, true, name);
    assert walked + {name} - {name} == walked;
  }

  ghost predicate TallyOk(p: Profile, changed: LineSets, mainModule: string, walked: set<string>, t: Tally) {
    && t.repoTotal == Wrap64(SumOver(walked, AllPick(p), false))
    && t.repoCovered == Wrap64(SumOver(walked, AllPick(p), true))
    && t.changedTotal == Wrap64(SumOver(walked, ChangedPick(p, changed, mainModule), false))
    && t.changedCovered == Wrap64(SumOver(walked, ChangedPick(p, changed, mainModule), true))
  }

  ghost predicate WalkOk(p: Profile, changed: LineSets, mainModule: string, walked: set<string>, tally: Tally, perFile: map<string, FileStats>) {
    && TallyOk(p, changed, mainModule, walked, tally)
    && PerFileOk(p, changed, mainModule, walked, perFile)
    && Wrap64(SumStats(perFile, false)) == tally.changedTotal && Wrap64(SumStats(perFile, true)) == tally.changedCovered
    && (StaysInRange(p) ==> StatsAddUp(p, changed, mainModule, walked, perFile))
  }

  ghost predicate StatsAddUp(p: Profile, changed: LineSets, mainModule: string, walked: set<string>, perFile: map<string, FileStats>) {
    && SumStats(perFile, false) == SumOver(walked, ChangedPick(p, changed, mainModule), false)
    && SumStats(perFile, true) == SumOver(walked, ChangedPick(p, changed, mainModule), true)
  }

  /** The statements of the whole repository are a 64-bit integer, and none are negative. */
  ghost predicate StaysInRange(p: Profile) { CountsStatements(p) && RepoSum(p, false) <= MAX_INT64 }

  /** Then so are those of any touched blocks. */
  lemma NameStaysInRange(p: Profile, changed: LineSets, mainModule: string, name: string)
    requires StaysInRange(p)
    ensures var blocks := ChangedBlocks(p, changed, mainModule, name);
            0 <= Stmts(blocks, true) <= Stmts(blocks, false) <= MAX_INT64
  {
    hide ChangedBlocks, AllBlocks, Stmts, CountsStatements;
    var all := AllPick(p);
    NameBounds(p, changed, mainModule, name);
    forall n ensures 0 <= Stmts(all(n), true) <= Stmts(all(n), false) { NameBounds(p, changed, mainModule, n); }
    SumIsNotNegative(p.blocks.Keys, all);
    if name in p.blocks {
      SumTakesAnyName(p.blocks.Keys, all, false, name);
      SumIsNotNegative(p.blocks.Keys - {name}, all);
      SumsCompare(p.blocks.Keys - {name}, all, true, all, false);
    } else {
      NotAName(p, changed, mainModule, name);
    }
  }

  lemma NotAName(p: Profile, changed: LineSets, mainModule: string, name: string)
    requires name !in p.blocks
    ensures Stmts(ChangedBlocks(p, changed, mainModule, name), false) == 0
  {
  }

  lemma WalkStep(p: Profile, changed: LineSets, mainModule: string, walked: set<string>, tally: Tally, perFile: map<string, FileStats>, name: string)
    requires WalkOk(p, changed, mainModule, walked, tally, perFile) && name in p.blocks && name !in walked
    ensures var path := RepoPath(mainModule, name);
            var touched := TouchedOf(p.blocks[name], changed, path);
            && (path.Some? ==> path.value !in perFile)
            && WalkOk(p, changed, mainModule, walked + {name},
                      MoreTally(tally, p.blocks[name], touched), MoreFiles(perFile, path, touched))
  {
    var path := RepoPath(mainModule, name);
    var blocks, touched := p.blocks[name], TouchedOf(p.blocks[name], changed, path);
    hide Stmts, RepoPath, TouchedBlocks, SumStats, IsFileOf, PerFileOk, ChangedBlocks, AllBlocks, TouchedOf, MoreFiles, MoreTally, Wrap64,
      SumOver, StaysInRange, TallyOk, StatsAddUp;
    SameTouched(p, changed, mainModule, name);
    PerFileGrows(p, changed, mainModule, walked, perFile, name);
    TallyStep(p, changed, mainModule, walked, tally, name);
    StatsMatchTally(perFile, path, tally, blocks, touched);
    if StaysInRange(p) {
      StatsStillAddUp(p, changed, mainModule, walked, perFile, name);
    }
  }

  lemma StatsStillAddUp(p: Profile, changed: LineSets, mainModule: string, walked: set<string>, perFile: map<string, FileStats>, name: string)
    requires StaysInRange(p) && StatsAddUp(p, changed, mainModule, walked, perFile) && name in p.blocks && name !in walked
    requires RepoPath(mainModule, name).Some? ==> RepoPath(mainModule, name).value !in perFile
    ensures StatsAddUp(p, changed, mainModule, walked + {name},
                       MoreFiles(perFile, RepoPath(mainModule, name), TouchedOf(p.blocks[name], changed, RepoPath(mainModule, name))))
  {
    hide Stmts, RepoPath, SumStats, ChangedBlocks, TouchedOf, MoreFiles, Wrap64, SumOver, StaysInRange;
    var path := RepoPath(mainModule, name);
    var touched := TouchedOf(p.blocks[name], changed, path);
    SameTouched(p, changed, mainModule, name);
    TallyGrows(p, walked, ChangedPick(p, changed, mainModule), name);
    StatsGrow(perFile, path, touched, false);
    StatsGrow(perFile, path, touched, true);
    NameStaysInRange(p, changed, mainModule, name);
  }

  lemma SameTouched(p: Profile, changed: LineSets, mainModule: string, name: string)
    requires name in p.blocks
    ensures TouchedOf(p.blocks[name], changed, RepoPath(mainModule, name)) == ChangedBlocks(p, changed, mainModule, name)
    ensures p.blocks[name] == AllBlocks(p, name)
    ensures RepoPath(mainModule, name).None? ==> TouchedOf(p.blocks[name], changed, RepoPath(mainModule, name)) == []
  {
  }

  lemma TallyStep(p: Profile, changed: LineSets, mainModule: string, walked: set<string>, t: Tally, name: string)
    requires TallyOk(p, changed, mainModule, walked, t) && name !in walked
    ensures TallyOk(p, changed, mainModule, walked + {name}, MoreTally(t, AllBlocks(p, name), ChangedBlocks(p, changed, mainModule, name)))
  {
    hide Stmts, SumOver, AllBlocks, ChangedBlocks, MoreTally, Wrap64;
    TallyGrows(p, walked, AllPick(p), name);
    TallyGrows(p, walked, ChangedPick(p, changed, mainModule), name);
    TallyWraps(p, changed, mainModule, walked, t, AllBlocks(p, name), ChangedBlocks(p, changed, mainModule, name));
  }

  lemma StatsMatchTally(perFile: map<string, FileStats>, path: Option<string>, t: Tally, blocks: seq<Block>, touched: seq<Block>)
    requires (path.Some? ==> path.value !in perFile) && (path.None? ==> touched == [])
    requires Wrap64(SumStats(perFile, false)) == t.changedTotal && Wrap64(SumStats(perFile, true)) == t.changedCovered
    ensures var after, more := MoreFiles(perFile, path, touched), MoreTally(t, blocks, touched);
            Wrap64(SumStats(after, false)) == more.changedTotal && Wrap64(SumStats(after, true)) == more.changedCovered
  {
    hide Stmts, SumStats, MoreFiles, Wrap64;
    StatsGrow(perFile, path, touched, false);
    StatsGrow(perFile, path, touched, true);
  }

  /** The entry of one more file, as the sums over the entries see it. */
  lemma StatsGrow(perFile: map<string, FileStats>, path: Option<string>, touched: seq<Block>, only: bool)
    requires (path.Some? ==> path.value !in perFile) && (path.None? ==> touched == [])
    ensures var after := SumStats(MoreFiles(perFile, path, touched), only);
            && after == SumStats(perFile, only) + Wrap64(Stmts(touched, only))
            && Wrap64(after) == Wrap64(Wrap64(SumStats(perFile, only)) + Stmts(touched, only))
            && (0 <= Stmts(touched, only) <= MAX_INT64 ==> after == SumStats(perFile, only) + Stmts(touched, only))
  {
    hide Stmts, SumStats;
    NoStmts(touched);
    if touched != [] {
      StatsOfUpdate(perFile, only, path.value, FileStats(path.value, Wrap64(Stmts(touched, false)), Wrap64(Stmts(touched, true))));
    }
    WrapsTwice(SumStats(perFile, only), Stmts(touched, only));
  }

  lemma WrapsTwice(x: int, y: int)
    ensures Wrap64(x + Wrap64(y)) == Wrap64(Wrap64(x) + y)
  {
    hide Wrap64;
    WrapsOnce(y, x);
    WrapsOnce(x, y);
    assert x + Wrap64(y) == Wrap64(y) + x;
  }

  lemma TallyWraps(p: Profile, changed: LineSets, mainModule: string, walked: set<string>, t: Tally, blocks: seq<Block>, touched: seq<Block>)
    requires TallyOk(p, changed, mainModule, walked, t)
    ensures var all, some := AllPick(p), ChangedPick(p, changed, mainModule);
            MoreTally(t, blocks, touched) ==
            Tally(Wrap64(SumOver(walked, all, false) + Stmts(blocks, false)), Wrap64(SumOver(walked, all, true) + Stmts(blocks, true)),
                  Wrap64(SumOver(walked, some, false) + Stmts(touched, false)), Wrap64(SumOver(walked, some, true) + Stmts(touched, true)))
  {
    hide Wrap64, SumOver, Stmts;
    var all, some := AllPick(p), ChangedPick(p, changed, mainModule);
    WrapsOnce(SumOver(walked, all, false), Stmts(blocks, false));
    WrapsOnce(SumOver(walked, all, true), Stmts(blocks, true));
    WrapsOnce(SumOver(walked, some, false), Stmts(touched, false));
    WrapsOnce(SumOver(walked, some, true), Stmts(touched, true));
  }

  /** Walks the profile in any order of its names. */
  method Walk(p: Profile, changed: ChangedLines, mainModule: string) returns (tally: Tally, perFile: map<string, FileStats>)
    requires ProperSets(changed.lines) && ProfileFits(p)
    ensures WalkOk(p, changed.lines, mainModule, p.blocks.Keys, tally, perFile)
  {
    tally, perFile := Tally(0, 0, 0, 0), map[];
    assert tally.Fits();
    hide *;
    var names := p.blocks.Keys;
    ghost var lines := changed.lines;
    NothingWalked(p, lines, mainModule);
    assert p.blocks.Keys - names == {};
    while names != {}
      invariant names <= p.blocks.Keys && tally.Fits()
      invariant WalkOk(p, lines, mainModule, p.blocks.Keys - names, tally, perFile)
      decreases |names|
    {
      ghost var some := Member(names);
      var name :| name in names;
      assert p.blocks.Keys - (names - {name}) == p.blocks.Keys - names + {name};
      WalkStep(p, lines, mainModule, p.blocks.Keys - names, tally, perFile, name);
      tally, perFile := AddFile(p.blocks[name], RepoPath(mainModule, name), changed, tally, perFile);
      names := names - {name};
    }
    assert p.blocks.Keys - names == p.blocks.Keys;
  }

  lemma NothingWalked(p: Profile, changed: LineSets, mainModule: string)
    ensures WalkOk(p, changed, mainModule, {}, Tally(0, 0, 0, 0), map[])
  {
    EmptySums(AllPick(p));
    EmptySums(ChangedPick(p, changed, mainModule));
  }

  lemma NoStmts(blocks: seq<Block>)
    ensures blocks == [] ==> Stmts(blocks, false) == 0 && Stmts(blocks, true) == 0
  {
  }

  lemma EmptySums(pick: string -> seq<Block>)
    ensures SumOver({}, pick, false) == 0 && SumOver({}, pick, true) == 0
    ensures SumStats(map[], false) == 0 && SumStats(map[], true) == 0
  {
  }

  /** `files` lists the entries of `perFile` that are no longer in `rest`. */
  ghost predicate ListedBut(perFile: map<string, FileStats>, rest: map<string, FileStats>, files: seq<FileStats>) {
    && (forall path :: path in rest ==> path in perFile && rest[path] == perFile[path])
    && (forall f :: f in files <==> f.path in perFile && f.path !in rest && perFile[f.path] == f)
    && PathsDistinct(files)
    && SumFiles(files, false) + SumStats(rest, false) == SumStats(perFile, false)
    && SumFiles(files, true) + SumStats(rest, true) == SumStats(perFile, true)
  }

  lemma ListOneMore(perFile: map<string, FileStats>, rest: map<string, FileStats>, files: seq<FileStats>, path: string)
    requires forall path :: path in perFile ==> perFile[path].path == path
    requires ListedBut(perFile, rest, files) && path in rest
    ensures ListedBut(perFile, rest - {path}, files + [rest[path]])
  {
    hide SumStats;
    var f := rest[path];
    StatsTakeAnyPath(rest, false, path);
    StatsTakeAnyPath(rest, true, path);
    assert (files + [f])[..|files|] == files;
    forall i | 0 <= i < |files| ensures files[i].path != f.path { assert files[i] in files; }
    forall g ensures g in files + [f] <==> g in files || g == f {}
  }

  /** The entries of a map as a list, in any order. */
  method Listed(perFile: map<string, FileStats>) returns (files: seq<FileStats>)
    requires forall path :: path in perFile ==> perFile[path].path == path
    ensures ListedBut(perFile, map[], files)
  {
    files := [];
    var rest := perFile;
    hide ListedBut;
    NothingListed(perFile);
    while rest.Keys != {}
      invariant ListedBut(perFile, rest, files)
      decreases |rest.Keys|
    {
      ghost var some := Member(rest.Keys);
      var path :| path in rest.Keys;
      ListOneMore(perFile, rest, files, path);
      files := files + [rest[path]];
      assert (rest - {path}).Keys == rest.Keys - {path};
      rest := rest - {path};
    }
    assert rest == map[];
  }

  lemma NothingListed(perFile: map<string, FileStats>)
    ensures ListedBut(perFile, perFile, [])
  {
  }

  method NoDataPaths(p: Profile, changed: LineSets, mainModule: string) returns (noData: seq<string>)
    ensures forall path :: path in noData <==> path in changed && mainModule + "/" + path !in p.blocks
    ensures StrictlySorted(StringLess, noData)
  {
    var found: seq<string> := [];
    var paths := changed.Keys;
    while paths != {}
      invariant paths <= changed.Keys
      invariant forall path :: path in found <==> path in changed && path !in paths && mainModule + "/" + path !in p.blocks
      invariant NoRepeats(found)
      decreases |paths|
    {
      ghost var some := Member(paths);
      var path :| path in paths;
      if mainModule + "/" + path !in p.blocks {
        forall i | 0 <= i < |found| ensures found[i] != path { assert found[i] in found; }
        found := found + [path];
      }
      paths := paths - {path};
    }
    var a := new string[|found|](k requires 0 <= k < |found| => found[k]);
    assert a[..] == found;
    SortInPlace(a, StringLess);
    noData := a[..];
    SortedStrings(found);
  }

  predicate AnyString(s: string) { true }

  lemma StringsAreOrdered()
    ensures TotalOrderOn(StringLess, AnyString)
  {
    forall x: string ensures !StringLess(x, x) { StringLessTotal(x, x); }
    forall x: string, y: string | x != y ensures StringLess(x, y) || StringLess(y, x) { StringLessTotal(x, y); }
    forall x: string, y: string, z: string ensures Chains(StringLess, x, y, z) {
      StringLessTotal(x, y);
      StringLessTotal(y, z);
      StringLessTotal(x, z);
      if StringLess(x, y) && StringLess(y, z) { StringLessTransitive(x, y, z); }
      if x != y && y != z && !StringLess(x, y) && !StringLess(y, z) { StringLessTransitive(z, y, x); }
    }
  }

  lemma SortedStrings(found: seq<string>)
    requires NoRepeats(found)
    ensures StrictlySorted(StringLess, StableSort(StringLess, found))
    ensures forall s :: s in StableSort(StringLess, found) <==> s in found
  {
    hide StringLess, StableSort;
    StringsAreOrdered();
    SortSorts(StringLess, found, AnyString);
    SortPermutes(StringLess, found);
    SortKeepsDistinct(StringLess, found);
  }

  // ---------------------------------------------------------------- the order of the report

  /** Paths differ, totals are not negative and nothing is covered beyond its total. */
  ghost predicate Plausible(files: seq<FileStats>) {
    PathsDistinct(files) && forall f :: f in files ==> 0 <= f.covered <= f.total
  }

  /** A file without statements whose path lies between a worse-covered and a better-covered file, the wrong way round. */
  ghost predicate Upset(files: seq<FileStats>, low: FileStats, empty: FileStats, high: FileStats) {
    && low in files && empty in files && high in files
    && empty.total == 0 && low.total > 0 && high.total > 0
    && StringLess(low.path, empty.path) && StringLess(empty.path, high.path)
    && high.covered * low.total < low.covered * high.total
  }

  ghost predicate Orderly(files: seq<FileStats>) {
    forall low, empty, high :: !Upset(files, low, empty, high)
  }

  /** The greatest total whose square is a 64-bit integer. */
  const SAFE_TOTAL := 3037000499

  predicate TotalsUpTo(files: seq<FileStats>, n: int) { forall f :: f in files ==> f.total <= n }

  ghost function MemberOf(files: seq<FileStats>): FileStats -> bool { f => f in files }

  /** Comparing ratios is transitive as long as the middle total is positive. */
  lemma RatiosChain(a: FileStats, b: FileStats, c: FileStats)
    requires 0 <= a.covered && 0 <= b.covered && 0 <= c.covered && 0 <= a.total && 0 < b.total && 0 <= c.total
    requires a.covered * b.total <= b.covered * a.total && b.covered * c.total <= c.covered * b.total
    ensures a.covered * c.total <= c.covered * a.total
  {
    Scale(a.covered * b.total, b.covered * a.total, c.total);
    Scale(b.covered * c.total, c.covered * b.total, a.total);
    assert b.total * (a.covered * c.total) == (a.covered * b.total) * c.total;
    assert (b.covered * a.total) * c.total == (b.covered * c.total) * a.total;
    assert (c.covered * b.total) * a.total == b.total * (c.covered * a.total);
    Cancel(a.covered * c.total, c.covered * a.total, b.total);
  }

  lemma Scale(x: int, y: int, k: int)
    requires x <= y && 0 <= k
    ensures x * k <= y * k
  {
  }

  lemma Cancel(x: int, y: int, k: int)
    requires 0 < k && k * x <= k * y
    ensures x <= y
  {
    assert x > y ==> k * (x - y) >= k;
  }

  lemma StrictRatiosChain(a: FileStats, b: FileStats, c: FileStats)
    requires 0 <= a.covered && 0 <= b.covered && 0 <= c.covered && 0 < a.total && 0 < b.total && 0 < c.total
    requires a.covered * b.total <= b.covered * a.total && b.covered * c.total <= c.covered * b.total
    requires a.covered * b.total < b.covered * a.total || b.covered * c.total < c.covered * b.total
    ensures a.covered * c.total < c.covered * a.total
  {
    RatiosChain(a, b, c);
    if a.covered * c.total == c.covered * a.total {
      if a.covered * b.total < b.covered * a.total {
        RatiosChain(b, c, a);
      } else {
        RatiosChain(c, a, b);
      }
    }
  }

  lemma PathsAre(files: seq<FileStats>, a: FileStats, b: FileStats)
    requires PathsDistinct(files) && a in files && b in files && a != b
    ensures a.path != b.path
  {
  }

  /** The same order with products as they are. */
  predicate RatioFirst(a: FileStats, b: FileStats) {
    if a.covered * b.total != b.covered * a.total then a.covered * b.total < b.covered * a.total
    else StringLess(a.path, b.path)
  }

  /** Of two different files exactly one comes first. */
  lemma OneComesFirst(files: seq<FileStats>, a: FileStats, b: FileStats)
    requires Plausible(files) && a in files && b in files
    ensures a != b ==> (RatioFirst(a, b) <==> !RatioFirst(b, a))
    ensures !RatioFirst(a, a)
  {
    StringLessTotal(a.path, b.path);
    StringLessTotal(b.path, a.path);
    StringLessTotal(a.path, a.path);
    if a != b {
      PathsAre(files, a, b);
    }
  }

  lemma FirstIsTransitive(files: seq<FileStats>, a: FileStats, b: FileStats, c: FileStats)
    requires Plausible(files) && Orderly(files) && a in files && b in files && c in files
    requires RatioFirst(a, b) && RatioFirst(b, c)
    ensures RatioFirst(a, c)
  {
    OneComesFirst(files, a, c);
    OneComesFirst(files, a, b);
    OneComesFirst(files, b, c);
    if a == c || RatioFirst(c, a) {
      NoCycle(files, a, b, c);
    }
  }

  /** With no upset there is no cycle of three. */
  lemma NoCycle(files: seq<FileStats>, a: FileStats, b: FileStats, c: FileStats)
    requires Plausible(files) && Orderly(files) && a in files && b in files && c in files
    requires RatioFirst(a, b) && RatioFirst(b, c)
    ensures a != c && !RatioFirst(c, a)
  {
    OneComesFirst(files, a, b);
    OneComesFirst(files, b, c);
    OneComesFirst(files, c, a);
    if a.total > 0 && b.total > 0 && c.total > 0 {
      NoCycleOfFull(files, a, b, c);
    } else if a.total == 0 {
      NoCycleThroughEmpty(files, a, b, c);
    } else if b.total == 0 {
      if RatioFirst(c, a) { NoCycleThroughEmpty(files, b, c, a); }
    } else {
      if RatioFirst(c, a) { NoCycleThroughEmpty(files, c, a, b); }
    }
  }

  lemma NoCycleOfFull(files: seq<FileStats>, a: FileStats, b: FileStats, c: FileStats)
    requires Plausible(files) && a in files && b in files && c in files
    requires a.total > 0 && b.total > 0 && c.total > 0
    requires RatioFirst(a, b) && RatioFirst(b, c)
    ensures !RatioFirst(c, a)
  {
    if a.covered * b.total < b.covered * a.total || b.covered * c.total < c.covered * b.total {
      StrictRatiosChain(a, b, c);
    } else {
      RatiosChain(a, b, c);
      RatiosChain(c, b, a);
      StringLessTransitive(a.path, b.path, c.path);
      StringLessTotal(a.path, c.path);
    }
  }

  lemma NoCycleThroughEmpty(files: seq<FileStats>, empty: FileStats, b: FileStats, c: FileStats)
    requires Plausible(files) && Orderly(files) && empty in files && b in files && c in files
    requires empty.total == 0 && RatioFirst(empty, b) && RatioFirst(b, c)
    ensures !RatioFirst(c, empty)
  {
    assert empty.covered == 0;
    assert !Upset(files, c, empty, b);
    if StringLess(c.path, empty.path) {
      StringLessTransitive(c.path, empty.path, b.path);
      StringLessTotal(c.path, b.path);
    }
  }

  lemma UpsetIsCycle(files: seq<FileStats>, low: FileStats, empty: FileStats, high: FileStats)
    requires Plausible(files)
    ensures Upset(files, low, empty, high) ==>
              RatioFirst(low, empty) && RatioFirst(empty, high) && !RatioFirst(low, high)
  {
    if Upset(files, low, empty, high) {
      assert empty.covered == 0;
    }
  }

  lemma RatiosAreOrderedExactlyWhen(files: seq<FileStats>)
    requires Plausible(files)
    ensures TotalOrderOn(RatioFirst, MemberOf(files)) <==> Orderly(files)
  {
    var dom := MemberOf(files);
    if Orderly(files) {
      forall a, b, c | a in files && b in files && c in files
        ensures Chains(RatioFirst, a, b, c)
      {
        if RatioFirst(a, b) && RatioFirst(b, c) { FirstIsTransitive(files, a, b, c); }
        OneComesFirst(files, a, b);
        OneComesFirst(files, b, c);
        OneComesFirst(files, a, c);
        if a != b && b != c && !RatioFirst(a, b) && !RatioFirst(b, c) { FirstIsTransitive(files, c, b, a); }
      }
      forall a | a in files ensures !RatioFirst(a, a) { OneComesFirst(files, a, a); }
      forall a, b | a in files && b in files && a != b ensures RatioFirst(a, b) || RatioFirst(b, a) { OneComesFirst(files, a, b); }
    }
    if TotalOrderOn(RatioFirst, dom) {
      forall low, empty, high
        ensures !Upset(files, low, empty, high)
      {
        UpsetIsCycle(files, low, empty, high);
        assert dom(low) && dom(empty) && dom(high) ==> Chains(RatioFirst, low, empty, high);
      }
    }
  }

  /** Up to the bound no product wraps. */
  lemma SmallProductsAgree(a: FileStats, b: FileStats)
    requires 0 <= a.covered <= a.total <= SAFE_TOTAL && 0 <= b.covered <= b.total <= SAFE_TOTAL
    ensures WorseFirst(a, b) <==> RatioFirst(a, b)
  {
    hide StringLess;
    SmallProduct(a.covered, b.total);
    SmallProduct(b.covered, a.total);
  }

  lemma SmallProduct(x: int, y: int)
    requires 0 <= x <= SAFE_TOTAL && 0 <= y <= SAFE_TOTAL
    ensures 0 <= x * y <= MAX_INT64
  {
    Scale(x, SAFE_TOTAL, y);
    Scale(y, SAFE_TOTAL, SAFE_TOTAL);
  }

  /** The report order is a strict total order of small files exactly when no empty file upsets it. */
  lemma WorseFirstIsOrderExactlyWhen(files: seq<FileStats>)
    requires Plausible(files) && TotalsUpTo(files, SAFE_TOTAL)
    ensures TotalOrderOn(WorseFirst, MemberOf(files)) <==> Orderly(files)
  {
    var dom := MemberOf(files);
    forall a, b | dom(a) && dom(b) ensures WorseFirst(a, b) <==> RatioFirst(a, b) { SmallProductsAgree(a, b); }
    hide WorseFirst, RatioFirst, Orderly;
    RatiosAreOrderedExactlyWhen(files);
    SameOrder(WorseFirst, RatioFirst, dom);
    SameOrder(RatioFirst, WorseFirst, dom);
  }

  lemma SameOrder(f: (FileStats, FileStats) -> bool, g: (FileStats, FileStats) -> bool, dom: FileStats -> bool)
    requires forall a, b :: dom(a) && dom(b) ==> (f(a, b) <==> g(a, b))
    ensures TotalOrderOn(f, dom) ==> TotalOrderOn(g, dom)
  {
    if TotalOrderOn(f, dom) {
      forall a, b, c | dom(a) && dom(b) && dom(c) ensures Chains(g, a, b, c) { assert Chains(f, a, b, c); }
    }
  }

  /** In particular positive totals suffice, up to that bound. */
  lemma PositiveTotalsAreOrdered(files: seq<FileStats>)
    requires Plausible(files) && TotalsUpTo(files, SAFE_TOTAL) && forall f :: f in files ==> f.total > 0
    ensures TotalOrderOn(WorseFirst, MemberOf(files))
  {
    hide WorseFirst;
    assert Orderly(files);
    WorseFirstIsOrderExactlyWhen(files);
  }

  /** Three files one past the bound: each comes before the next, all the way round. */
  const NONE_OF_BIG := FileStats("a", SAFE_TOTAL + 1, 0)
  const MOST_OF_HALF := FileStats("b", 0x8000_0000, 0x5555_5555)
  const ALL_OF_BIG := FileStats("c", SAFE_TOTAL + 1, SAFE_TOTAL + 1)

  lemma WorseFirstCyclesBeyondTheBound()
    ensures var files := [NONE_OF_BIG, MOST_OF_HALF, ALL_OF_BIG];
            && Plausible(files) && Orderly(files) && TotalsUpTo(files, SAFE_TOTAL + 1)
            && (forall f :: f in files ==> f.total > 0)
            && !TotalOrderOn(WorseFirst, MemberOf(files))
    ensures WorseFirst(NONE_OF_BIG, MOST_OF_HALF) && WorseFirst(MOST_OF_HALF, ALL_OF_BIG) && WorseFirst(ALL_OF_BIG, NONE_OF_BIG)
  {
    var files := [NONE_OF_BIG, MOST_OF_HALF, ALL_OF_BIG];
    assert Wrap64((SAFE_TOTAL + 1) * (SAFE_TOTAL + 1)) < 0;
    hide WorseFirst, StringLess;
    CycleOfThree();
    var dom := MemberOf(files);
    assert dom(NONE_OF_BIG) && dom(MOST_OF_HALF) && dom(ALL_OF_BIG);
    assert !(WorseFirst(NONE_OF_BIG, ALL_OF_BIG) && WorseFirst(ALL_OF_BIG, NONE_OF_BIG));
    assert Chains(WorseFirst, NONE_OF_BIG, MOST_OF_HALF, ALL_OF_BIG) ==> WorseFirst(NONE_OF_BIG, ALL_OF_BIG);
  }

  lemma CycleOfThree()
    ensures WorseFirst(NONE_OF_BIG, MOST_OF_HALF) && WorseFirst(MOST_OF_HALF, ALL_OF_BIG) && WorseFirst(ALL_OF_BIG, NONE_OF_BIG)
    ensures !WorseFirst(NONE_OF_BIG, ALL_OF_BIG)
  {
    hide StringLess;
    assert Wrap64((SAFE_TOTAL + 1) * (SAFE_TOTAL + 1)) < 0;
    assert Wrap64(0) == 0;
    assert Wrap64(0x5555_5555 * (SAFE_TOTAL + 1)) == 0x5555_5555 * (SAFE_TOTAL + 1);
    assert Wrap64((SAFE_TOTAL + 1) * 0x8000_0000) == (SAFE_TOTAL + 1) * 0x8000_0000;
  }

  /** The bound is sharp: up to it, and not one further, every orderly list of files is ordered. */
  lemma OrderBoundIsSharp(n: int)
    requires n > 0
    ensures (forall files {:trigger Orderly(files)} ::
               Plausible(files) && Orderly(files) && TotalsUpTo(files, n) ==> TotalOrderOn(WorseFirst, MemberOf(files)))
            <==> n <= SAFE_TOTAL
  {
    hide Plausible, Orderly, WorseFirst, TotalOrderOn;
    if n <= SAFE_TOTAL {
      forall files | Plausible(files) && Orderly(files) && TotalsUpTo(files, n)
        ensures TotalOrderOn(WorseFirst, MemberOf(files))
      {
        WorseFirstIsOrderExactlyWhen(files);
      }
    } else {
      WorseFirstCyclesBeyondTheBound();
      var files := [NONE_OF_BIG, MOST_OF_HALF, ALL_OF_BIG];
      assert Orderly(files) && TotalsUpTo(files, n);
    }
  }

  /** With an empty file between a covered one and an uncovered one there is a cycle at any size. */
  lemma EmptyFileUpsets()
    ensures var low, empty, high := FileStats("a", 1, 1), FileStats("b", 0, 0), FileStats("c", 1, 0);
            && Plausible([low, empty, high]) && Upset([low, empty, high], low, empty, high)
            && WorseFirst(low, empty) && WorseFirst(empty, high) && WorseFirst(high, low)
  {
    assert StringLess("a", "b") && StringLess("b", "c");
  }

  // ---------------------------------------------------------------- the whole measurement

  /** What a measurement says of a profile and a set of changed lines. */
  ghost predicate Measures(p: Profile, changed: LineSets, mainModule: string, c: Coverage) {
    && c.repoTotal == Wrap64(RepoSum(p, false)) && c.repoCovered == Wrap64(RepoSum(p, true))
    && c.changedTotal == Wrap64(ChangedSum(p, changed, mainModule, false))
    && c.changedCovered == Wrap64(ChangedSum(p, changed, mainModule, true))
    && (forall f :: f in c.files <==> IsFileOf(p, changed, mainModule, f))
    && PathsDistinct(c.files)
    && (forall path :: path in c.noData <==> path in changed && mainModule + "/" + path !in p.blocks)
    && StrictlySorted(StringLess, c.noData)
    && (Plausible(c.files) && Orderly(c.files) && TotalsUpTo(c.files, SAFE_TOTAL) ==> StrictlySorted(WorseFirst, c.files))
    && Wrap64(SumFiles(c.files, false)) == c.changedTotal && Wrap64(SumFiles(c.files, true)) == c.changedCovered
    && (StaysInRange(p) ==>
          SumFiles(c.files, false) == c.changedTotal && SumFiles(c.files, true) == c.changedCovered)
  }

  lemma {:induction false} SumOfInsert(files: seq<FileStats>, f: FileStats, coveredOnly: bool)
    ensures SumFiles(Insert(WorseFirst, files, f), coveredOnly) ==
            SumFiles(files, coveredOnly) + if coveredOnly then f.covered else f.total
  {
    hide WorseFirst;
    if files == [] || !WorseFirst(f, files[|files| - 1]) {
      assert (files + [f])[..|files|] == files;
    } else {
      SumOfInsert(files[..|files| - 1], f, coveredOnly);
      var r := Insert(WorseFirst, files[..|files| - 1], f);
      assert (r + [files[|files| - 1]])[..|r|] == r;
    }
  }

  lemma {:induction false} SumOfSorted(files: seq<FileStats>, coveredOnly: bool)
    ensures SumFiles(StableSort(WorseFirst, files), coveredOnly) == SumFiles(files, coveredOnly)
  {
    hide WorseFirst, Insert;
    if files != [] {
      SumOfSorted(files[..|files| - 1], coveredOnly);
      SumOfInsert(StableSort(WorseFirst, files[..|files| - 1]), files[|files| - 1], coveredOnly);
    }
  }

  lemma DistinctPathsSurvive(files: seq<FileStats>)
    requires PathsDistinct(files)
    ensures NoRepeats(files) && NoRepeats(StableSort(WorseFirst, files)) && PathsDistinct(StableSort(WorseFirst, files))
    ensures forall f :: f in StableSort(WorseFirst, files) <==> f in files
  {
    hide WorseFirst, StableSort;
    SortPermutes(WorseFirst, files);
    SortKeepsDistinct(WorseFirst, files);
    var s := StableSort(WorseFirst, files);
    forall i, j | 0 <= i < j < |s| ensures s[i].path != s[j].path {
      assert s[i] in files && s[j] in files && s[i] != s[j];
    }
  }

  lemma ReportIsSorted(files: seq<FileStats>)
    requires Plausible(files) && Orderly(files) && TotalsUpTo(files, SAFE_TOTAL)
    ensures StrictlySorted(WorseFirst, StableSort(WorseFirst, files))
  {
    hide WorseFirst, StableSort, Orderly;
    WorseFirstIsOrderExactlyWhen(files);
    var dom, s := MemberOf(files), StableSort(WorseFirst, files);
    forall i | 0 <= i < |files| ensures dom(files[i]) {}
    SortSorts(WorseFirst, files, dom);
    DistinctPathsSurvive(files);
    forall i, j | 0 <= i < j < |s| ensures WorseFirst(s[i], s[j]) {
      assert s[i] in files && s[j] in files;
      assert dom(s[i]) && dom(s[j]);
    }
  }

  lemma SameFilesSameShape(files: seq<FileStats>, s: seq<FileStats>)
    requires PathsDistinct(files) && PathsDistinct(s) && forall f :: f in s <==> f in files
    ensures Plausible(s) <==> Plausible(files)
    ensures Orderly(s) <==> Orderly(files)
    ensures TotalsUpTo(s, SAFE_TOTAL) <==> TotalsUpTo(files, SAFE_TOTAL)
  {
    hide PathsDistinct, WorseFirst;
    forall low, empty, high ensures Upset(s, low, empty, high) <==> Upset(files, low, empty, high) {}
  }

  method Measure(p: Profile, changed: ChangedLines, mainModule: string) returns (c: Coverage)
    requires ProperSets(changed.lines) && ProfileFits(p)
    ensures Measures(p, changed.lines, mainModule, c)
  {
    hide Wrap64, WorseFirst, StableSort, Plausible, Orderly, SumFiles, RepoSum, ChangedSum, IsFileOf, StaysInRange, RepoPath;
    var tally, perFile := Walk(p, changed, mainModule);
    assert forall path :: path in perFile ==> perFile[path].path == path;
    WalkedTally(p, changed.lines, mainModule, tally, perFile);
    hide WalkOk, TallyOk, PerFileOk, StringLess;
    var noData := NoDataPaths(p, changed.lines, mainModule);
    var listed := Listed(perFile);
    var a := new FileStats[|listed|](k requires 0 <= k < |listed| => listed[k]);
    assert a[..] == listed;
    SortInPlace(a, WorseFirst);
    c := Coverage(tally.repoTotal, tally.repoCovered, tally.changedTotal, tally.changedCovered, a[..], noData);
    FilesAreListed(p, changed.lines, mainModule, tally, perFile, listed);
    SortedFiles(listed);
  }

  lemma WalkedTally(p: Profile, changed: LineSets, mainModule: string, t: Tally, perFile: map<string, FileStats>)
    requires WalkOk(p, changed, mainModule, p.blocks.Keys, t, perFile)
    ensures t.repoTotal == Wrap64(RepoSum(p, false)) && t.repoCovered == Wrap64(RepoSum(p, true))
    ensures t.changedTotal == Wrap64(ChangedSum(p, changed, mainModule, false))
    ensures t.changedCovered == Wrap64(ChangedSum(p, changed, mainModule, true))
    ensures StaysInRange(p) ==>
              t.changedTotal == ChangedSum(p, changed, mainModule, false) && t.changedCovered == ChangedSum(p, changed, mainModule, true)
  {
    hide Wrap64, SumOver, PerFileOk, SumStats;
    if StaysInRange(p) {
      ChangedStaysInRange(p, changed, mainModule);
    }
  }

  lemma FilesAreListed(p: Profile, changed: LineSets, mainModule: string, tally: Tally, perFile: map<string, FileStats>, listed: seq<FileStats>)
    requires WalkOk(p, changed, mainModule, p.blocks.Keys, tally, perFile) && ListedBut(perFile, map[], listed)
    ensures forall f :: f in listed <==> IsFileOf(p, changed, mainModule, f)
    ensures Wrap64(SumFiles(listed, false)) == tally.changedTotal && Wrap64(SumFiles(listed, true)) == tally.changedCovered
    ensures StaysInRange(p) ==> SumFiles(listed, false) == ChangedSum(p, changed, mainModule, false)
                                && SumFiles(listed, true) == ChangedSum(p, changed, mainModule, true)
  {
    hide Stmts, SumOver, SumStats, SumFiles;
    EmptySums(AllPick(p));
    forall f
      ensures f in listed <==> IsFileOf(p, changed, mainModule, f)
    {
      if IsFileOf(p, changed, mainModule, f) {
        assert f.path in perFile && IsFileOf(p, changed, mainModule, perFile[f.path]);
      }
    }
  }

  lemma SortedFiles(listed: seq<FileStats>)
    requires PathsDistinct(listed)
    ensures var s := StableSort(WorseFirst, listed);
            && PathsDistinct(s) && (forall f :: f in s <==> f in listed)
            && SumFiles(s, false) == SumFiles(listed, false) && SumFiles(s, true) == SumFiles(listed, true)
            && (Plausible(s) && Orderly(s) && TotalsUpTo(s, SAFE_TOTAL) ==> StrictlySorted(WorseFirst, s))
  {
    hide WorseFirst, StableSort, Orderly, SumFiles, PathsDistinct, Plausible, TotalsUpTo;
    DistinctPathsSurvive(listed);
    SumOfSorted(listed, false);
    SumOfSorted(listed, true);
    SameFilesSameShape(listed, StableSort(WorseFirst, listed));
    if Plausible(listed) && Orderly(listed) && TotalsUpTo(listed, SAFE_TOTAL) {
      ReportIsSorted(listed);
    }
  }

  /**
   Whatever the order in which the maps are walked, there is one measurement of a profile and a
   change, as long as totals are small and no empty file upsets the report order; the numbers and lists
   agree anyway.
   */
  lemma MeasurementIsUnique(p: Profile, changed: LineSets, mainModule: string, c: Coverage, d: Coverage)
    requires Measures(p, changed, mainModule, c) && Measures(p, changed, mainModule, d)
    ensures c.(files := d.files) == d
    ensures multiset(c.files) == multiset(d.files)
    ensures Plausible(c.files) && Orderly(c.files) && TotalsUpTo(c.files, SAFE_TOTAL) ==> c == d
  {
    hide RepoSum, ChangedSum, IsFileOf, SumFiles, StringLess, WorseFirst;
    StringsAreOrdered();
    StrictlySortedSame(StringLess, c.noData, d.noData, AnyString);
    assert NoRepeats(c.files) && NoRepeats(d.files);
    SameMembersSameMultiset(c.files, d.files);
    if Plausible(c.files) && Orderly(c.files) && TotalsUpTo(c.files, SAFE_TOTAL) {
      SameFilesSameShape(c.files, d.files);
      WorseFirstIsOrderExactlyWhen(c.files);
      StrictlySortedSame(WorseFirst, c.files, d.files, MemberOf(c.files));
    }
  }

  /** A changed path without data never has an entry. */
  lemma NoDataIsDisjoint(p: Profile, changed: LineSets, mainModule: string, c: Coverage, path: string)
    requires Measures(p, changed, mainModule, c) && path in c.noData
    ensures forall f :: f in c.files ==> f.path != path
  {
    hide SumFiles, RepoSum, ChangedSum, WorseFirst, StringLess, Stmts, RepoPath;
  }

  // ---------------------------------------------------------------- bounds

  predicate AllCounted(blocks: seq<Block>) { forall i :: 0 <= i < |blocks| ==> blocks[i].numStmts >= 0 }

  /** No block has a negative statement count, as the reader guarantees. */
  predicate CountsStatements(p: Profile) { forall name :: name in p.blocks ==> AllCounted(p.blocks[name]) }

  lemma ReadProfilesCount(lines: seq<string>, p: Profile)
    requires Describes(Kinds(lines), p)
    ensures CountsStatements(p)
  {
    hide ParseBlock, TrimSpace, Sorted, PositionsDistinct, FinalMode;
    forall name, i | name in p.blocks && 0 <= i < |p.blocks[name]|
      ensures p.blocks[name][i].numStmts >= 0
    {
      var b := p.blocks[name][i];
      assert b in p.blocks[name];
      assert IsMerged(Kinds(lines), name, b);
      var k :| 0 <= k < |lines| && KindOf(lines[k]) == Record(name, b);
      RecordsCount(lines[k]);
    }
  }

  lemma RecordsCount(text: string)
    ensures KindOf(text).Record? ==> KindOf(text).block.numStmts >= 0
  {
    hide TrimSpace, ParseRange, Fields, Atoi, LastIndexOf;
  }

  lemma {:induction false} StmtsBounds(blocks: seq<Block>, changed: LineSets, path: string)
    requires AllCounted(blocks)
    ensures 0 <= Stmts(blocks, true) <= Stmts(blocks, false)
    ensures var touched := TouchedBlocks(blocks, changed, path);
            && AllCounted(touched)
            && 0 <= Stmts(touched, true) <= Stmts(touched, false)
            && Stmts(touched, false) <= Stmts(blocks, false) && Stmts(touched, true) <= Stmts(blocks, true)
            && Stmts(blocks, true) - Stmts(touched, true) <= Stmts(blocks, false) - Stmts(touched, false)
  {
    hide FoundTouched;
    if blocks != [] {
      var init, b := blocks[..|blocks| - 1], blocks[|blocks| - 1];
      StmtsBounds(init, changed, path);
      TouchedStep(blocks, changed, path);
    }
  }

  lemma TouchedStep(blocks: seq<Block>, changed: LineSets, path: string)
    requires blocks != []
    ensures var init, b := blocks[..|blocks| - 1], blocks[|blocks| - 1];
            var t, all := TouchedBlocks(init, changed, path), TouchedBlocks(blocks, changed, path);
            && (all == t || all == t + [b])
            && (all == t <==> !FoundTouched(changed, path, b.startLine, b.endLine))
            && AddsBlock(t, b, t + [b])
  {
    hide FoundTouched;
    var init, b := blocks[..|blocks| - 1], blocks[|blocks| - 1];
    var t := TouchedBlocks(init, changed, path);
    assert (t + [b])[..|t|] == t && t + [] == t;
    if FoundTouched(changed, path, b.startLine, b.endLine) {
      assert TouchedBlocks(blocks, changed, path) == t + [b];
    } else {
      assert TouchedBlocks(blocks, changed, path) == t;
    }
  }

  lemma {:induction false} SumsCompare(names: set<string>, f: string -> seq<Block>, fCovered: bool, g: string -> seq<Block>, gCovered: bool)
    requires forall name :: name in names ==> Stmts(f(name), fCovered) <= Stmts(g(name), gCovered)
    ensures SumOver(names, f, fCovered) <= SumOver(names, g, gCovered)
    decreases names
  {
    hide Stmts;
    if names != {} {
      var name :| name in names;
      SumTakesAnyName(names, f, fCovered, name);
      SumTakesAnyName(names, g, gCovered, name);
      SumsCompare(names - {name}, f, fCovered, g, gCovered);
    }
  }

  lemma NameBounds(p: Profile, changed: LineSets, mainModule: string, name: string)
    requires CountsStatements(p)
    ensures var all, some := AllBlocks(p, name), ChangedBlocks(p, changed, mainModule, name);
            && 0 <= Stmts(some, true) <= Stmts(some, false) <= Stmts(all, false)
            && Stmts(some, true) <= Stmts(all, true) <= Stmts(all, false)
            && Stmts(all, true) - Stmts(some, true) <= Stmts(all, false) - Stmts(some, false)
  {
    hide TouchedBlocks, RepoPath;
    StmtsBounds(AllBlocks(p, name), changed, "");
    if name in p.blocks && RepoPath(mainModule, name).Some? {
      StmtsBounds(p.blocks[name], changed, RepoPath(mainModule, name).value);
    }
  }

  /** What one pick covers beyond another is no more than what it has beyond it. */
  lemma {:induction false} SumsBalance(names: set<string>, all: string -> seq<Block>, some: string -> seq<Block>)
    requires forall name :: name in names ==>
               Stmts(all(name), true) - Stmts(some(name), true) <= Stmts(all(name), false) - Stmts(some(name), false)
    ensures SumOver(names, all, true) - SumOver(names, some, true) <= SumOver(names, all, false) - SumOver(names, some, false)
    decreases names
  {
    hide Stmts, SumOver;
    if names == {} {
      EmptySums(all);
      EmptySums(some);
    } else {
      ghost var name := Member(names);
      SumTakesAnyName(names, all, false, name);
      SumTakesAnyName(names, all, true, name);
      SumTakesAnyName(names, some, false, name);
      SumTakesAnyName(names, some, true, name);
      SumsBalance(names - {name}, all, some);
    }
  }

  /** Covered within total and changed within the repository, as sums. */
  lemma SumsAreSound(p: Profile, changed: LineSets, mainModule: string)
    requires CountsStatements(p)
    ensures var rt, rc := RepoSum(p, false), RepoSum(p, true);
            var ct, cc := ChangedSum(p, changed, mainModule, false), ChangedSum(p, changed, mainModule, true);
            0 <= cc <= ct <= rt && cc <= rc <= rt && rc - cc <= rt - ct
  {
    hide CountsStatements, Stmts, ChangedBlocks, AllBlocks, SumOver;
    var names, all, some := p.blocks.Keys, AllPick(p), ChangedPick(p, changed, mainModule);
    forall name
      ensures 0 <= Stmts(some(name), true) <= Stmts(some(name), false) <= Stmts(all(name), false)
      ensures Stmts(some(name), true) <= Stmts(all(name), true) <= Stmts(all(name), false)
      ensures Stmts(all(name), true) - Stmts(some(name), true) <= Stmts(all(name), false) - Stmts(some(name), false)
    {
      NameBounds(p, changed, mainModule, name);
    }
    SumsCompare(names, some, true, some, false);
    SumsCompare(names, some, false, all, false);
    SumsCompare(names, some, true, all, true);
    SumsCompare(names, all, true, all, false);
    SumsBalance(names, all, some);
    SumIsNotNegative(names, some);
  }

  lemma ChangedStaysInRange(p: Profile, changed: LineSets, mainModule: string)
    requires StaysInRange(p)
    ensures var ct, cc := ChangedSum(p, changed, mainModule, false), ChangedSum(p, changed, mainModule, true);
            && IsInt64(ct) && IsInt64(cc) && IsInt64(RepoSum(p, false)) && IsInt64(RepoSum(p, true))
            && Wrap64(ct) == ct && Wrap64(cc) == cc
  {
    hide CountsStatements, RepoSum, ChangedSum;
    SumsAreSound(p, changed, mainModule);
  }

  /** Covered within total, changed within the repository, and the rest covered within the rest. */
  predicate Sound(c: Coverage) {
    && 0 <= c.changedCovered <= c.changedTotal <= c.repoTotal
    && c.changedCovered <= c.repoCovered <= c.repoTotal
    && c.repoCovered - c.changedCovered <= c.repoTotal - c.changedTotal
  }

  /**
   As long as the statements of the repository are a 64-bit integer nothing wraps: covered stays
   within total, changed within the repository and the rest covered within the rest, and each file's
   figures are those of its blocks.
   */
  lemma MeasurementBounds(p: Profile, changed: LineSets, mainModule: string, c: Coverage)
    requires StaysInRange(p) && Measures(p, changed, mainModule, c)
    ensures c.repoTotal == RepoSum(p, false) && c.repoCovered == RepoSum(p, true)
    ensures c.changedTotal == ChangedSum(p, changed, mainModule, false) && c.changedCovered == ChangedSum(p, changed, mainModule, true)
    ensures Sound(c)
    ensures Plausible(c.files) && TotalsUpTo(c.files, c.changedTotal)
  {
    ghost var ok := CountsStatements(p);
    SumsAreSound(p, changed, mainModule);
    ChangedStaysInRange(p, changed, mainModule);
    forall f | f in c.files ensures 0 <= f.covered <= f.total <= c.changedTotal {
      FileBounds(p, changed, mainModule, f);
    }
  }

  lemma FileBounds(p: Profile, changed: LineSets, mainModule: string, f: FileStats)
    requires StaysInRange(p) && IsFileOf(p, changed, mainModule, f)
    ensures 0 <= f.covered <= f.total <= ChangedSum(p, changed, mainModule, false)
  {
    var name, some := mainModule + "/" + f.path, ChangedPick(p, changed, mainModule);
    NameStaysInRange(p, changed, mainModule, name);
    assert name in p.blocks;
    hide ChangedBlocks, Stmts, SumOver, RepoSum;
    assert CountsStatements(p);
    hide CountsStatements;
    forall n ensures 0 <= Stmts(some(n), true) <= Stmts(some(n), false) { NameBounds(p, changed, mainModule, n); }
    SumTakesAnyName(p.blocks.Keys, some, false, name);
    SumIsNotNegative(p.blocks.Keys - {name}, some);
    SumsCompare(p.blocks.Keys - {name}, some, true, some, false);
  }

  lemma {:induction false} SumIsNotNegative(names: set<string>, pick: string -> seq<Block>)
    requires forall name :: name in names ==> 0 <= Stmts(pick(name), true)
    ensures 0 <= SumOver(names, pick, true)
    decreases names
  {
    hide Stmts;
    if names != {} {
      var name :| name in names;
      SumTakesAnyName(names, pick, true, name);
      SumIsNotNegative(names - {name}, pick);
    }
  }

  // ---------------------------------------------------------------- blocks found touched and touched blocks

  /** Found touched because the walk passed the block's end, although none of its lines changed. */
  ghost predicate Misread(changed: LineSets, path: string, b: Block) {
    WalksPastItsEnd(changed, path, b.startLine, b.endLine) && !Touched(changed, path, b.startLine, b.endLine)
  }

  lemma {:induction false} FoundBlocks(blocks: seq<Block>, changed: LineSets, path: string, b: Block)
    ensures b in TouchedBlocks(blocks, changed, path) <==>
            b in blocks && FoundTouched(changed, path, b.startLine, b.endLine)
  {
    if blocks != [] {
      hide FoundTouched;
      var init, last := blocks[..|blocks| - 1], blocks[|blocks| - 1];
      assert blocks == init + [last];
      FoundBlocks(init, changed, path, b);
      TouchedStep(blocks, changed, path);
    }
  }

  /** The blocks that count as changed are those with a changed line, exactly when none is misread. */
  lemma CountsTheTouchedExactlyWhen(blocks: seq<Block>, changed: LineSets, path: string)
    ensures (forall b :: b in TouchedBlocks(blocks, changed, path) <==>
                         b in blocks && Touched(changed, path, b.startLine, b.endLine))
            <==> forall b :: b in blocks ==> !Misread(changed, path, b)
  {
    forall b
      ensures b in TouchedBlocks(blocks, changed, path) <==>
              b in blocks && (Touched(changed, path, b.startLine, b.endLine) || Misread(changed, path, b))
    {
      FoundBlocks(blocks, changed, path, b);
    }
    hide TouchedBlocks, Touched, WalksPastItsEnd;
  }

  lemma ReadProfilesFit(lines: seq<string>, p: Profile)
    requires Describes(Kinds(lines), p)
    ensures ProfileFits(p)
  {
    hide ParseBlock, TrimSpace, Sorted, PositionsDistinct, FinalMode;
    forall name, b | name in p.blocks && b in p.blocks[name]
      ensures IsInt64(b.startLine) && IsInt64(b.endLine)
    {
      assert IsMerged(Kinds(lines), name, b);
      var k :| 0 <= k < |lines| && KindOf(lines[k]) == Record(name, b);
      RecordsFit(lines[k]);
    }
  }

  lemma RecordsFit(text: string)
    ensures KindOf(text).Record? ==> IsInt64(KindOf(text).block.startLine) && IsInt64(KindOf(text).block.endLine)
  {
    hide TrimSpace, Fields, Atoi, LastIndexOf;
  }
}
