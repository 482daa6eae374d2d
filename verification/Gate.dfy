/** The verdict on a measurement: `belowRepoAverage` of `tools/coveragegate/profile.go`. */
module Gate {
  import opened Text
  import opened Sorting
  import opened Diff
  import opened Profile
  import opened Coverage

  // ---------------------------------------------------------------- the comparison

  /** Products are 64-bit; nothing is compared when one side has no statements. */
  predicate BelowRepoAverage(c: Coverage) {
    c.changedTotal != 0 && c.repoTotal != 0 &&
    Wrap64(c.changedCovered * c.repoTotal) < Wrap64(c.repoCovered * c.changedTotal)
  }

  /**
   One statement beyond the last total whose square fits, a product wraps only when everything is
   changed and covered, and then both sides wrap alike.
   */
  lemma GateComparesProducts(c: Coverage)
    requires Sound(c) && c.repoTotal <= SAFE_TOTAL + 1
    ensures BelowRepoAverage(c) <==> c.changedCovered * c.repoTotal < c.repoCovered * c.changedTotal
  {
    if c.changedCovered <= SAFE_TOTAL {
      ProductFits(c.changedCovered, c.repoTotal);
      if c.changedTotal <= SAFE_TOTAL {
        ProductFits(c.changedTotal, c.repoCovered);
      } else {
        ProductFits(c.repoCovered, c.changedTotal);
      }
    }
  }

  lemma ProductFits(x: int, y: int)
    requires 0 <= x <= SAFE_TOTAL && 0 <= y <= SAFE_TOTAL + 1
    ensures 0 <= x * y <= MAX_INT64 && 0 <= y * x <= MAX_INT64
  {
    Scale(x, SAFE_TOTAL, y);
    Scale(y, SAFE_TOTAL + 1, SAFE_TOTAL);
  }

  lemma RatiosByProducts(a: int, b: int, c: int, d: int)
    requires b > 0 && d > 0
    ensures a as real / b as real < c as real / d as real <==> a * d < c * b
  {
    var x, y := a as real / b as real, c as real / d as real;
    assert x * b as real == a as real && y * d as real == c as real;
    assert a as real * d as real == x * b as real * d as real;
    assert c as real * b as real == y * b as real * d as real;
    assert b as real * d as real > 0.0;
    assert (a * d) as real == a as real * d as real && (c * b) as real == c as real * b as real;
    assert (y - x) * (b as real * d as real) == (c * b) as real - (a * d) as real;
    SignOfProduct(y - x, b as real * d as real);
  }

  lemma SignOfProduct(x: real, k: real)
    requires k > 0.0
    ensures x > 0.0 <==> x * k > 0.0
  {
  }

  /** The 64-bit comparison says what the two ratios say; a change or a repository without statements passes. */
  predicate ComparedExactly(c: Coverage) {
    BelowRepoAverage(c) <==>
      && c.changedTotal > 0 && c.repoTotal > 0
      && c.changedCovered as real / c.changedTotal as real < c.repoCovered as real / c.repoTotal as real
  }

  lemma GateIsExact(c: Coverage)
    requires Sound(c) && c.repoTotal <= SAFE_TOTAL + 1
    ensures ComparedExactly(c)
  {
    GateComparesProducts(c);
    if c.changedTotal > 0 {
      RatiosByProducts(c.changedCovered, c.changedTotal, c.repoCovered, c.repoTotal);
    }
  }

  /** The least number whose product with `n` wraps. */
  function WrappingPart(n: int): int
    requires n > 0
  {
    MAX_INT64 / n + 1
  }

  lemma WrappingPartBounds(n: int)
    requires SAFE_TOTAL + 2 <= n <= MAX_INT64
    ensures var t := WrappingPart(n); 0 < t <= SAFE_TOTAL && (t - 1) * n <= MAX_INT64 < t * n
  {
    var t := WrappingPart(n);
    QuotientBounds(MAX_INT64, n);
    if t > SAFE_TOTAL {
      Scale(SAFE_TOTAL, t - 1, n);
      Scale(SAFE_TOTAL + 2, n, SAFE_TOTAL);
      assert false;
    }
  }

  /** A change of this size, fully covered in a repository covered nowhere else, fails though it is the better half. */
  function WrappingFigures(n: int): Coverage
    requires n > 0
  {
    var t := WrappingPart(n);
    Coverage(n, t, t, t, [FileStats("a.go", t, t)], [])
  }

  lemma GateWrapsBeyondTheBound(n: int)
    requires SAFE_TOTAL + 2 <= n <= MAX_INT64
    ensures var c := WrappingFigures(n);
            && Sound(c) && c.repoTotal == n && 0 < c.changedTotal == c.changedCovered
            && BelowRepoAverage(c) && !ComparedExactly(c)
  {
    var c, t := WrappingFigures(n), WrappingPart(n);
    WrappingPartBounds(n);
    hide WrappingPart;
    SmallProduct(t, t);
    assert t * n == (t - 1) * n + n;
    assert Wrap64(t * n) == t * n - TWO_TO_THE_64 by { RemainderIsUnique(t * n - MIN_INT64, 1, t * n - MIN_INT64 - TWO_TO_THE_64); }
    RatiosByProducts(t, t, t, n);
    Scale(t, n, t);
  }

  lemma QuotientBounds(x: int, n: int)
    requires n > 0
    ensures x / n * n <= x < (x / n + 1) * n
  {
  }

  /** Exactly up to one statement beyond that total is every possible measurement compared exactly. */
  lemma GateBoundIsSharp(n: int)
    requires 0 < n <= MAX_INT64
    ensures (forall c {:trigger Sound(c)} :: Sound(c) && c.repoTotal == n ==> ComparedExactly(c))
            <==> n <= SAFE_TOTAL + 1
  {
    hide Sound, ComparedExactly, BelowRepoAverage, WrappingFigures;
    if n <= SAFE_TOTAL + 1 {
      forall c | Sound(c) && c.repoTotal == n
        ensures ComparedExactly(c)
      {
        GateIsExact(c);
      }
    } else {
      GateWrapsBeyondTheBound(n);
    }
  }

  /** Being below the average of the whole is being below the rest. */
  lemma GateComparesWithRest(c: Coverage)
    requires Sound(c) && 0 < c.changedTotal < c.repoTotal <= SAFE_TOTAL + 1
    ensures 0 <= c.repoCovered - c.changedCovered <= c.repoTotal - c.changedTotal
    ensures BelowRepoAverage(c) <==>
            c.changedCovered as real / c.changedTotal as real <
            (c.repoCovered - c.changedCovered) as real / (c.repoTotal - c.changedTotal) as real
  {
    GateComparesProducts(c);
    RatiosByProducts(c.changedCovered, c.changedTotal, c.repoCovered - c.changedCovered, c.repoTotal - c.changedTotal);
    assert c.changedCovered * (c.repoTotal - c.changedTotal) == c.changedCovered * c.repoTotal - c.changedCovered * c.changedTotal;
    assert (c.repoCovered - c.changedCovered) * c.changedTotal == c.repoCovered * c.changedTotal - c.changedCovered * c.changedTotal;
  }

  /** The profile in which one block has been hit. */
  function Hit(p: Profile, name: string, i: nat, count: int): Profile
    requires name in p.blocks && i < |p.blocks[name]|
  {
    p.(blocks := p.blocks[name := p.blocks[name][i := p.blocks[name][i].(count := count)]])
  }

  lemma {:induction false} StmtsOfHit(blocks: seq<Block>, i: nat, count: int)
    requires i < |blocks| && blocks[i].count <= 0 < count
    ensures var after := blocks[i := blocks[i].(count := count)];
            Stmts(after, false) == Stmts(blocks, false) && Stmts(after, true) == Stmts(blocks, true) + blocks[i].numStmts
  {
    var n, after := |blocks| - 1, blocks[i := blocks[i].(count := count)];
    if i == n {
      assert after[..n] == blocks[..n];
    } else {
      StmtsOfHit(blocks[..n], i, count);
      assert after[..n] == blocks[..n][i := blocks[i].(count := count)];
    }
  }

  lemma {:induction false} TouchedOfHit(blocks: seq<Block>, i: nat, count: int, changed: LineSets, path: string)
    requires i < |blocks| && blocks[i].count <= 0 < count
    requires FoundTouched(changed, path, blocks[i].startLine, blocks[i].endLine)
    ensures var touched := TouchedBlocks(blocks, changed, path);
            var after := TouchedBlocks(blocks[i := blocks[i].(count := count)], changed, path);
            Stmts(after, false) == Stmts(touched, false) && Stmts(after, true) == Stmts(touched, true) + blocks[i].numStmts
  {
    hide FoundTouched, Stmts, TouchedBlocks;
    var n, more := |blocks| - 1, blocks[i := blocks[i].(count := count)];
    TouchedStep(blocks, changed, path);
    TouchedStep(more, changed, path);
    if i == n {
      assert more[..n] == blocks[..n];
    } else {
      TouchedOfHit(blocks[..n], i, count, changed, path);
      assert more[..n] == blocks[..n][i := blocks[i].(count := count)];
    }
  }

  lemma SumsOfEqualStmts(names: set<string>, f: string -> seq<Block>, g: string -> seq<Block>, only: bool)
    requires forall name :: name in names ==> Stmts(f(name), only) == Stmts(g(name), only)
    ensures SumOver(names, f, only) == SumOver(names, g, only)
  {
    SumsCompare(names, f, only, g, only);
    SumsCompare(names, g, only, f, only);
  }

  /** Two sums that differ at one name only. */
  lemma SumsDiffer(names: set<string>, f: string -> seq<Block>, g: string -> seq<Block>, coveredOnly: bool, name: string)
    requires name in names && forall n :: n in names && n != name ==> f(n) == g(n)
    ensures SumOver(names, g, coveredOnly) ==
            SumOver(names, f, coveredOnly) + Stmts(g(name), coveredOnly) - Stmts(f(name), coveredOnly)
  {
    hide Stmts;
    SumTakesAnyName(names, f, coveredOnly, name);
    SumTakesAnyName(names, g, coveredOnly, name);
    SumsOfEqualStmts(names - {name}, f, g, coveredOnly);
  }

  /** Hitting a touched block that had no hits moves both covered figures by its statements. */
  lemma HitMovesFigures(p: Profile, changed: LineSets, mainModule: string, name: string, i: nat, count: int)
    requires name in p.blocks && i < |p.blocks[name]| && p.blocks[name][i].count <= 0 < count
    requires RepoPath(mainModule, name).Some?
    requires FoundTouched(changed, RepoPath(mainModule, name).value, p.blocks[name][i].startLine, p.blocks[name][i].endLine)
    ensures var q, k := Hit(p, name, i, count), p.blocks[name][i].numStmts;
            && RepoSum(q, false) == RepoSum(p, false) && RepoSum(q, true) == RepoSum(p, true) + k
            && ChangedSum(q, changed, mainModule, false) == ChangedSum(p, changed, mainModule, false)
            && ChangedSum(q, changed, mainModule, true) == ChangedSum(p, changed, mainModule, true) + k
  {
    hide Stmts, FoundTouched, RepoPath, TouchedBlocks, SumOver;
    var q, names := Hit(p, name, i, count), p.blocks.Keys;
    assert q.blocks.Keys == names;
    StmtsOfHit(p.blocks[name], i, count);
    TouchedOfHit(p.blocks[name], i, count, changed, RepoPath(mainModule, name).value);
    SumsDiffer(names, AllPick(p), AllPick(q), false, name);
    SumsDiffer(names, AllPick(p), AllPick(q), true, name);
    SumsDiffer(names, ChangedPick(p, changed, mainModule), ChangedPick(q, changed, mainModule), false, name);
    SumsDiffer(names, ChangedPick(p, changed, mainModule), ChangedPick(q, changed, mainModule), true, name);
  }

  lemma HitStaysInRange(p: Profile, name: string, i: nat, count: int)
    requires StaysInRange(p) && name in p.blocks && i < |p.blocks[name]|
    requires RepoSum(Hit(p, name, i, count), false) == RepoSum(p, false)
    ensures StaysInRange(Hit(p, name, i, count))
  {
    hide RepoSum;
  }

  /** Covering one more of the touched blocks never turns a pass into a failure. */
  lemma CoveringMoreKeepsPass(p: Profile, changed: LineSets, mainModule: string, name: string, i: nat, count: int, c: Coverage, d: Coverage)
    requires CountsStatements(p) && RepoSum(p, false) <= SAFE_TOTAL + 1 && Measures(p, changed, mainModule, c)
    requires name in p.blocks && i < |p.blocks[name]| && p.blocks[name][i].count <= 0 < count
    requires RepoPath(mainModule, name).Some?
    requires FoundTouched(changed, RepoPath(mainModule, name).value, p.blocks[name][i].startLine, p.blocks[name][i].endLine)
    requires Measures(Hit(p, name, i, count), changed, mainModule, d)
    requires !BelowRepoAverage(c)
    ensures !BelowRepoAverage(d)
  {
    assert p.blocks[name][i].numStmts >= 0;
    hide RepoSum, ChangedSum, FoundTouched, RepoPath, Measures, BelowRepoAverage, CountsStatements;
    HitMovesFigures(p, changed, mainModule, name, i, count);
    HitStaysInRange(p, name, i, count);
    var q, k := Hit(p, name, i, count), p.blocks[name][i].numStmts;
    hide Hit, Sound, Plausible;
    MeasurementBounds(p, changed, mainModule, c);
    MeasurementBounds(q, changed, mainModule, d);
    PassStays(c, d, k);
  }

  lemma PassStays(c: Coverage, d: Coverage, k: int)
    requires Sound(c) && Sound(d) && c.repoTotal <= SAFE_TOTAL + 1 && 0 <= k
    requires d.repoTotal == c.repoTotal && d.repoCovered == c.repoCovered + k
    requires d.changedTotal == c.changedTotal && d.changedCovered == c.changedCovered + k
    ensures BelowRepoAverage(d) ==> BelowRepoAverage(c)
  {
    hide BelowRepoAverage;
    GateComparesProducts(c);
    GateComparesProducts(d);
    if c.changedCovered * c.repoTotal >= c.repoCovered * c.changedTotal {
      MoreOnBothSides(c.changedCovered, c.changedTotal, c.repoCovered, c.repoTotal, k);
    }
  }

  /** The same size, the same change, and `more` further statements of the change covered. */
  predicate CoversMore(c: Coverage, d: Coverage, more: nat) {
    && Sound(c) && Sound(d) && d.repoTotal == c.repoTotal && d.changedTotal == c.changedTotal
    && d.repoCovered == c.repoCovered + more && d.changedCovered == c.changedCovered + more
  }

  /** Up to one statement beyond that total, and not further, covering more of a change never turns a pass into a failure. */
  lemma PassBoundIsSharp(n: int)
    requires 0 < n <= MAX_INT64
    ensures (forall c, d, more {:trigger CoversMore(c, d, more)} ::
               CoversMore(c, d, more) && c.repoTotal == n && !BelowRepoAverage(c) ==> !BelowRepoAverage(d))
            <==> n <= SAFE_TOTAL + 1
  {
    hide CoversMore, BelowRepoAverage, WrappingPart;
    if n <= SAFE_TOTAL + 1 {
      forall c, d, more | CoversMore(c, d, more) && c.repoTotal == n && !BelowRepoAverage(c)
        ensures !BelowRepoAverage(d)
      {
        MoreKeepsPass(c, d, more);
      }
    } else {
      var t := WrappingPart(n);
      OneMoreFails(n, t);
      assert CoversMore(Coverage(n, t - 1, t, t - 1, [], []), Coverage(n, t, t, t, [], []), 1);
    }
  }

  lemma MoreKeepsPass(c: Coverage, d: Coverage, more: nat)
    requires CoversMore(c, d, more) && c.repoTotal <= SAFE_TOTAL + 1
    ensures BelowRepoAverage(d) ==> BelowRepoAverage(c)
  {
    hide BelowRepoAverage;
    PassStays(c, d, more);
  }

  lemma OneMoreFails(n: int, t: int)
    requires SAFE_TOTAL + 2 <= n <= MAX_INT64 && t == WrappingPart(n)
    ensures var c, d := Coverage(n, t - 1, t, t - 1, [], []), Coverage(n, t, t, t, [], []);
            CoversMore(c, d, 1) && !BelowRepoAverage(c) && BelowRepoAverage(d)
  {
    OneLessPasses(n, t, Coverage(n, t - 1, t, t - 1, [], []));
    GateWrapsBeyondTheBound(n);
    SameFigures(WrappingFigures(n), Coverage(n, t, t, t, [], []));
    hide BelowRepoAverage, WrappingPart;
  }

  lemma SameFigures(c: Coverage, d: Coverage)
    requires c.(files := d.files, noData := d.noData) == d
    ensures BelowRepoAverage(c) <==> BelowRepoAverage(d)
  {
  }

  lemma OneLessPasses(n: int, t: int, c: Coverage)
    requires SAFE_TOTAL + 2 <= n <= MAX_INT64 && t == WrappingPart(n)
    requires c == Coverage(n, t - 1, t, t - 1, [], [])
    ensures Sound(c) && !BelowRepoAverage(c)
  {
    WrappingPartBounds(n);
    hide WrappingPart, BelowRepoAverage;
    OneLessProducts(n, t);
    PassesUnwrapped(c);
  }

  lemma OneLessProducts(n: int, t: int)
    requires 0 < t <= n && (t - 1) * n <= MAX_INT64
    ensures 0 <= (t - 1) * t <= (t - 1) * n
  {
    Scale(t, n, t - 1);
    Scale(0, t, t - 1);
  }

  lemma PassesUnwrapped(c: Coverage)
    requires 0 <= c.repoCovered * c.changedTotal <= c.changedCovered * c.repoTotal <= MAX_INT64
    ensures !BelowRepoAverage(c)
  {
  }

  lemma MoreOnBothSides(a: int, b: int, c: int, d: int, k: int)
    requires 0 <= b <= d && 0 <= k && a * d >= c * b
    ensures (a + k) * d >= (c + k) * b
  {
    Scale(b, d, k);
    assert (a + k) * d == a * d + d * k && (c + k) * b == c * b + b * k;
  }

  // ---------------------------------------------------------------- the order of the profile lines

  lemma StmtsWithout(blocks: seq<Block>, j: nat, only: bool)
    requires j < |blocks|
    ensures Stmts(blocks, only) == Stmts(blocks[..j] + blocks[j + 1..], only) + Stmts([blocks[j]], only)
  {
    assert [blocks[j]][..0] == [];
    if j == |blocks| - 1 {
      assert blocks[..j] + blocks[j + 1..] == blocks[..j];
    } else {
      var n := |blocks| - 1;
      var rest := blocks[..j] + blocks[j + 1..];
      StmtsWithout(blocks[..n], j, only);
      assert rest[..|rest| - 1] == blocks[..n][..j] + blocks[..n][j + 1..];
    }
  }

  /** The sums of a list of blocks do not depend on its order. */
  lemma {:induction false} StmtsIgnoreOrder(s: seq<Block>, t: seq<Block>, only: bool)
    requires multiset(s) == multiset(t)
    ensures Stmts(s, only) == Stmts(t, only)
  {
    if s == [] {
      assert t == [];
    } else {
      hide Stmts;
      var n := |s| - 1;
      var j := PlaceOfLast(s, t);
      StmtsIgnoreOrder(s[..n], t[..j] + t[j + 1..], only);
      StmtsWithout(s, n, only);
      assert s[..n] + s[n + 1..] == s[..n];
      StmtsWithout(t, j, only);
    }
  }

  lemma PlaceOfLast(s: seq<Block>, t: seq<Block>) returns (j: nat)
    requires multiset(s) == multiset(t) && s != []
    ensures j < |t| && t[j] == s[|s| - 1] && multiset(s[..|s| - 1]) == multiset(t[..j] + t[j + 1..])
  {
    var n, last := |s| - 1, s[|s| - 1];
    SameElements(s, t);
    assert s == s[..n] + [last] && last in s;
    j :| 0 <= j < |t| && t[j] == last;
    assert t == t[..j] + [last] + t[j + 1..];
    assert multiset(t[..j] + t[j + 1..]) == multiset(t) - multiset{last};
  }

  lemma {:induction false} TouchedCounts(blocks: seq<Block>, changed: LineSets, path: string, b: Block)
    ensures multiset(TouchedBlocks(blocks, changed, path))[b] ==
            if FoundTouched(changed, path, b.startLine, b.endLine) then multiset(blocks)[b] else 0
  {
    if blocks == [] {
      assert TouchedBlocks(blocks, changed, path) == [];
    } else {
      hide FoundTouched, TouchedBlocks, Stmts;
      var n, last := |blocks| - 1, blocks[|blocks| - 1];
      var t := TouchedBlocks(blocks[..n], changed, path);
      TouchedCounts(blocks[..n], changed, path, b);
      TouchedStep(blocks, changed, path);
      assert blocks == blocks[..n] + [last];
      assert multiset(blocks)[b] == multiset(blocks[..n])[b] + if b == last then 1 else 0;
      assert multiset(t + [last])[b] == multiset(t)[b] + if b == last then 1 else 0;
    }
  }

  /** The same blocks for every name, in whatever order. */
  ghost predicate SameBlocks(p: Profile, q: Profile) {
    p.blocks.Keys == q.blocks.Keys && forall name :: name in p.blocks ==> multiset(p.blocks[name]) == multiset(q.blocks[name])
  }

  lemma NamesAgree(p: Profile, q: Profile, changed: LineSets, mainModule: string, name: string, only: bool)
    requires SameBlocks(p, q)
    ensures Stmts(AllBlocks(p, name), only) == Stmts(AllBlocks(q, name), only)
    ensures Stmts(ChangedBlocks(p, changed, mainModule, name), only) == Stmts(ChangedBlocks(q, changed, mainModule, name), only)
    ensures ChangedBlocks(p, changed, mainModule, name) == [] <==> ChangedBlocks(q, changed, mainModule, name) == []
  {
    hide Stmts, TouchedBlocks, RepoPath;
    if name in p.blocks {
      StmtsIgnoreOrder(p.blocks[name], q.blocks[name], only);
      if RepoPath(mainModule, name).Some? {
        var path := RepoPath(mainModule, name).value;
        var s, t := TouchedBlocks(p.blocks[name], changed, path), TouchedBlocks(q.blocks[name], changed, path);
        forall b ensures multiset(s)[b] == multiset(t)[b] {
          TouchedCounts(p.blocks[name], changed, path, b);
          TouchedCounts(q.blocks[name], changed, path, b);
        }
        assert multiset(s) == multiset(t);
        SameElements(s, t);
        StmtsIgnoreOrder(s, t, only);
      }
    }
  }

  /** A measurement of one profile is a measurement of any other with the same blocks. */
  lemma MeasuresSameBlocks(p: Profile, q: Profile, changed: LineSets, mainModule: string, c: Coverage)
    requires SameBlocks(p, q) && Measures(p, changed, mainModule, c)
    ensures Measures(q, changed, mainModule, c)
  {
    var names := p.blocks.Keys;
    forall name, only
      ensures Stmts(AllBlocks(p, name), only) == Stmts(AllBlocks(q, name), only)
      ensures Stmts(ChangedBlocks(p, changed, mainModule, name), only) == Stmts(ChangedBlocks(q, changed, mainModule, name), only)
      ensures ChangedBlocks(p, changed, mainModule, name) == [] <==> ChangedBlocks(q, changed, mainModule, name) == []
    {
      NamesAgree(p, q, changed, mainModule, name, only);
    }
    CountedAlike(p, q);
    forall f ensures IsFileOf(p, changed, mainModule, f) <==> IsFileOf(q, changed, mainModule, f) {
      hide Stmts, ChangedBlocks;
    }
    hide Stmts, AllBlocks, ChangedBlocks, SumOver, IsFileOf, CountsStatements;
    SumsOfEqualStmts(names, AllPick(p), AllPick(q), false);
    SumsOfEqualStmts(names, AllPick(p), AllPick(q), true);
    SumsOfEqualStmts(names, ChangedPick(p, changed, mainModule), ChangedPick(q, changed, mainModule), false);
    SumsOfEqualStmts(names, ChangedPick(p, changed, mainModule), ChangedPick(q, changed, mainModule), true);
    hide AllPick, ChangedPick;
    SameSumsSameMeasurement(p, q, changed, mainModule, c);
  }

  lemma SameSumsSameMeasurement(p: Profile, q: Profile, changed: LineSets, mainModule: string, c: Coverage)
    requires Measures(p, changed, mainModule, c) && p.blocks.Keys == q.blocks.Keys
    requires forall only :: RepoSum(p, only) == RepoSum(q, only)
    requires forall only :: ChangedSum(p, changed, mainModule, only) == ChangedSum(q, changed, mainModule, only)
    requires CountsStatements(p) <==> CountsStatements(q)
    requires forall f :: IsFileOf(p, changed, mainModule, f) <==> IsFileOf(q, changed, mainModule, f)
    ensures Measures(q, changed, mainModule, c)
  {
    hide Plausible, Orderly, WorseFirst, StringLess, SumFiles, Wrap64, CountsStatements, IsFileOf, RepoSum, ChangedSum,
      StrictlySorted, TotalsUpTo, PathsDistinct;
  }

  lemma CountedAlike(p: Profile, q: Profile)
    requires SameBlocks(p, q)
    ensures CountsStatements(p) <==> CountsStatements(q)
  {
    forall name | name in p.blocks ensures AllCounted(p.blocks[name]) <==> AllCounted(q.blocks[name]) {
      SameElements(p.blocks[name], q.blocks[name]);
      CountedByMembers(p.blocks[name]);
      CountedByMembers(q.blocks[name]);
    }
  }

  lemma CountedByMembers(blocks: seq<Block>)
    ensures AllCounted(blocks) <==> forall b :: b in blocks ==> b.numStmts >= 0
  {
    if forall b :: b in blocks ==> b.numStmts >= 0 {
      forall i | 0 <= i < |blocks| ensures blocks[i].numStmts >= 0 { assert blocks[i] in blocks; }
    }
  }

  /**
   Reordering or repeating block lines changes no figure, no entry and not the verdict: whatever the
   reader makes of the two files and in whatever order the maps are then walked.
   */
  lemma VerdictIgnoresLineOrder(k: seq<Kind>, l: seq<Kind>, p: Profile, q: Profile, changed: LineSets, mainModule: string,
                                c: Coverage, d: Coverage)
    requires (forall kind :: kind in k <==> kind in l) && FinalMode(k) == FinalMode(l)
    requires Describes(k, p) && Describes(l, q)
    requires Measures(p, changed, mainModule, c) && Measures(q, changed, mainModule, d)
    ensures c.(files := d.files) == d && multiset(c.files) == multiset(d.files)
    ensures BelowRepoAverage(c) <==> BelowRepoAverage(d)
  {
    hide Measures, Describes;
    OrderDoesNotMatter(k, l, p, q);
    MeasuresSameBlocks(p, q, changed, mainModule, c);
    MeasurementIsUnique(q, changed, mainModule, c, d);
  }
}
