/** The version list of an operator: `lib/versions.go`. */
module Versions {
  import opened Text
  import opened Operators
  import opened Sorting

  // ---------------------------------------------------------------- labels

  datatype Semver = Semver(major: int, minor: int, patch: int)

  const ZERO := Semver(0, 0, 0)

  predicate InRange(v: Semver) {
    0 <= v.major <= MAX_INT64 && 0 <= v.minor <= MAX_INT64 && 0 <= v.patch <= MAX_INT64
  }

  function RenderLabel(v: Semver): string
    requires InRange(v)
  {
    "v" + Decimal(v.major) + "." + Decimal(v.minor) + "." + Decimal(v.patch)
  }

  /** Length of the digits `s` starts with. */
  function DigitRun(s: string): (n: nat)
    ensures n <= |s| && AllDigits(s[..n])
    ensures n < |s| ==> !IsDigit(s[n])
  {
    if s == [] || !IsDigit(s[0]) then 0
    else
      var n := 1 + DigitRun(s[1..]);
      assert s[..n] == [s[0]] + s[1..][..n - 1];
      n
  }

  /** `count + 1` canonical numerals separated by single dots, with nothing behind them. */
  function Numerals(s: string, count: nat): (r: Option<seq<string>>)
    ensures r.Some? ==> |r.value| == count + 1
  {
    var n := DigitRun(s);
    if !IsCanonical(s[..n]) then None
    else if count == 0 then if n == |s| then Some([s]) else None
    else if !HasPrefix(s[n..], ".") then None
    else
      match Numerals(s[n + 1..], count - 1)
      case None => None
      case Some(g) => Some([s[..n]] + g)
  }

  /** The three numerals of a label: a `v`, then three numerals without leading zeros, dots in between. */
  function MatchGroups(tag: string): (r: Option<seq<string>>)
    ensures r.Some? ==> |r.value| == 3
  {
    if HasPrefix(tag, "v") then Numerals(tag[1..], 2) else None
  }

  predicate AllCanonical(g: seq<string>) { forall i :: 0 <= i < |g| ==> IsCanonical(g[i]) }

  function Dotted(g: seq<string>): string
    requires g != []
  {
    if |g| == 1 then g[0] else g[0] + "." + Dotted(g[1..])
  }

  /** What the regular expression says, without an algorithm. */
  predicate MatchesAs(tag: string, g: seq<string>) {
    |g| == 3 && AllCanonical(g) && tag == "v" + g[0] + "." + g[1] + "." + g[2]
  }

  lemma {:induction false} DigitRunStops(digits: string, rest: string)
    requires AllDigits(digits) && (rest != [] ==> !IsDigit(rest[0]))
    ensures DigitRun(digits + rest) == |digits|
  {
    if digits == [] {
      assert digits + rest == rest;
    } else {
      assert (digits + rest)[1..] == digits[1..] + rest;
      DigitRunStops(digits[1..], rest);
    }
  }

  lemma NumeralsStep(head: string, rest: string, count: nat)
    requires IsCanonical(head) && Numerals(rest, count).Some?
    ensures Numerals(head + "." + rest, count + 1) == Some([head] + Numerals(rest, count).value)
  {
    var s := head + "." + rest;
    DigitRunStops(head, "." + rest);
    assert s == head + ("." + rest);
    assert s[..|head|] == head && s[|head|..] == "." + rest && s[|head| + 1..] == rest;
  }

  lemma {:induction false} NumeralsOfDotted(g: seq<string>)
    requires g != [] && AllCanonical(g)
    ensures Numerals(Dotted(g), |g| - 1) == Some(g)
  {
    hide Numerals;
    if |g| == 1 {
      NumeralsOfOne(g[0]);
      assert g == [g[0]];
    } else {
      NumeralsOfDotted(g[1..]);
      NumeralsStep(g[0], Dotted(g[1..]), |g| - 2);
      assert g == [g[0]] + g[1..];
    }
  }

  lemma NumeralsOfOne(s: string)
    requires IsCanonical(s)
    ensures Numerals(s, 0) == Some([s])
  {
    DigitRunStops(s, "");
    assert s + "" == s && s[..|s|] == s;
  }

  lemma DottedStep(head: string, rest: seq<string>)
    requires IsCanonical(head) && rest != [] && AllCanonical(rest)
    ensures AllCanonical([head] + rest) && Dotted([head] + rest) == head + "." + Dotted(rest)
  {
    assert ([head] + rest)[1..] == rest;
  }

  lemma {:induction false} NumeralsAreDotted(s: string, count: nat)
    requires Numerals(s, count).Some?
    ensures AllCanonical(Numerals(s, count).value) && Dotted(Numerals(s, count).value) == s
  {
    hide Dotted, AllCanonical, IsCanonical;
    var n := DigitRun(s);
    if count == 0 {
      NumeralAlone(s);
    } else {
      NumeralsAreDotted(s[n + 1..], count - 1);
      DottedStep(s[..n], Numerals(s[n + 1..], count - 1).value);
      assert s == s[..n] + "." + s[n + 1..];
    }
  }

  lemma NumeralAlone(s: string)
    requires Numerals(s, 0).Some?
    ensures AllCanonical(Numerals(s, 0).value) && Dotted(Numerals(s, 0).value) == s
  {
    assert s[..|s|] == s;
  }

  lemma DottedThree(g: seq<string>)
    requires |g| == 3
    ensures "v" + Dotted(g) == "v" + g[0] + "." + g[1] + "." + g[2]
  {
    assert Dotted(g[1..]) == g[1] + "." + g[2] by { assert g[1..][1..] == [g[2]]; }
    Reassociate("v" + g[0], ".", g[1], "." + g[2]);
    assert "v" + Dotted(g) == "v" + g[0] + ("." + (g[1] + ("." + g[2])));
  }

  lemma Reassociate(a: string, b: string, c: string, d: string)
    ensures a + (b + (c + d)) == a + b + c + d
  {
  }

  lemma GroupsAreTheMatch(tag: string, g: seq<string>)
    ensures MatchGroups(tag) == Some(g) <==> MatchesAs(tag, g)
  {
    hide Numerals, Dotted;
    if MatchesAs(tag, g) {
      DottedThree(g);
      NumeralsOfDotted(g);
      assert tag[1..] == Dotted(g);
    }
    if MatchGroups(tag) == Some(g) {
      NumeralsAreDotted(tag[1..], 2);
      DottedThree(g);
      assert tag == "v" + tag[1..];
    }
  }

  function ParseLabel(tag: string): Result<Semver> {
    match MatchGroups(tag)
    case None => Err(InvalidInput)
    case Some(g) =>
      match (Atoi(g[0]), Atoi(g[1]), Atoi(g[2]))
      case (Some(major), Some(minor), Some(patch)) => Ok(Semver(major, minor, patch))
      case _ => Err(InvalidInput)
  }

  method ParseVersionLabel(tag: string) returns (r: Result<Semver>)
    ensures r == ParseLabel(tag)
  {
    var m := MatchGroups(tag);
    if m == None {
      return Err(InvalidInput);
    }
    var v := new int[3];
    var i := 0;
    while i < 3
      invariant 0 <= i <= 3
      invariant forall k :: 0 <= k < i ==> Atoi(m.value[k]) == Some(v[k])
    {
      var n := Atoi(m.value[i]);
      if n == None {
        return Err(InvalidInput);
      }
      v[i] := n.value;
      i := i + 1;
    }
    assert Atoi(m.value[0]) == Some(v[0]) && Atoi(m.value[1]) == Some(v[1]) && Atoi(m.value[2]) == Some(v[2]);
    return Ok(Semver(v[0], v[1], v[2]));
  }

  lemma AtoiOfNumeral(s: string)
    requires IsCanonical(s)
    ensures Atoi(s) == if DigitsValue(s) <= MAX_INT64 then Some(DigitsValue(s)) else None
  {
    assert IsDigit(s[0]);
  }

  /** Printing and parsing undo each other; exactly the printed labels are accepted. */
  lemma RenderThenParse(v: Semver)
    requires InRange(v)
    ensures ParseLabel(RenderLabel(v)) == Ok(v)
  {
    DecimalValue(v.major);
    DecimalValue(v.minor);
    DecimalValue(v.patch);
    var g := [Decimal(v.major), Decimal(v.minor), Decimal(v.patch)];
    GroupsAreTheMatch(RenderLabel(v), g);
    AtoiOfNumeral(g[0]);
    AtoiOfNumeral(g[1]);
    AtoiOfNumeral(g[2]);
  }

  lemma ParseThenRender(tag: string)
    requires ParseLabel(tag).Ok?
    ensures InRange(ParseLabel(tag).value) && RenderLabel(ParseLabel(tag).value) == tag
  {
    var g := MatchGroups(tag).value;
    GroupsAreTheMatch(tag, g);
    AtoiOfNumeral(g[0]);
    AtoiOfNumeral(g[1]);
    AtoiOfNumeral(g[2]);
    ValueDecimal(g[0]);
    ValueDecimal(g[1]);
    ValueDecimal(g[2]);
  }

  lemma AcceptsExactlyTheRenderings(tag: string)
    ensures ParseLabel(tag).Ok? <==> exists v :: InRange(v) && RenderLabel(v) == tag
  {
    if ParseLabel(tag).Ok? {
      ParseThenRender(tag);
    }
    if v :| InRange(v) && RenderLabel(v) == tag {
      RenderThenParse(v);
    }
  }

  // ---------------------------------------------------------------- order

  function CompareInts(a: int, b: int): int { if a < b then -1 else if a > b then 1 else 0 }

  /** `slices.Compare` on the three numbers. */
  function CompareSemver(a: Semver, b: Semver): int {
    if a.major != b.major then CompareInts(a.major, b.major)
    else if a.minor != b.minor then CompareInts(a.minor, b.minor)
    else CompareInts(a.patch, b.patch)
  }

  /** A label that does not parse counts as v0.0.0. */
  function Number(tag: string): Semver {
    match ParseLabel(tag)
    case Ok(v) => v
    case Err(_) => ZERO
  }

  function CompareVersions(a: OperatorVersion, b: OperatorVersion): int {
    CompareSemver(Number(a.version), Number(b.version))
  }

  predicate Below(a: OperatorVersion, b: OperatorVersion) { CompareVersions(a, b) < 0 }

  predicate ValidLabel(tag: string) { ParseLabel(tag).Ok? }

  predicate AnyVersion(v: OperatorVersion) { true }

  lemma BelowIsWeakOrder()
    ensures WeakOrderOn(Below, AnyVersion)
  {
    hide Number;
    forall x: OperatorVersion, y: OperatorVersion, z: OperatorVersion
      ensures Chains(Below, x, y, z)
    {
    }
  }

  /** On all labels the comparison is a total preorder. */
  lemma ComparisonIsPreorder(a: OperatorVersion, b: OperatorVersion, c: OperatorVersion)
    ensures CompareVersions(a, b) == -CompareVersions(b, a)
    ensures CompareVersions(a, b) <= 0 && CompareVersions(b, c) <= 0 ==> CompareVersions(a, c) <= 0
    ensures !ValidLabel(a.version) ==> CompareVersions(a, b.(version := "v0.0.0")) == 0
    ensures !ValidLabel(a.version) ==> CompareVersions(a, b) <= 0
  {
    hide ParseLabel;
    assert RenderLabel(ZERO) == "v0.0.0";
    RenderThenParse(ZERO);
    if ValidLabel(b.version) {
      ParseThenRender(b.version);
    }
  }

  /** Two accepted labels compare equal only if they are the same label. */
  lemma ComparisonSeparatesLabels(a: OperatorVersion, b: OperatorVersion)
    requires ValidLabel(a.version) && ValidLabel(b.version)
    ensures CompareVersions(a, b) == 0 <==> a.version == b.version
  {
    hide ParseLabel;
    ParseThenRender(a.version);
    ParseThenRender(b.version);
  }

  /** Of two labels the one with the smaller major number comes first, then minor, then patch number. */
  lemma ComparesNumbers(x: OperatorVersion, y: OperatorVersion, a: seq<nat>, b: seq<nat>)
    requires |a| == 3 && |b| == 3 && forall i :: 0 <= i < 3 ==> a[i] <= MAX_INT64 && b[i] <= MAX_INT64
    requires x.version == "v" + Decimal(a[0]) + "." + Decimal(a[1]) + "." + Decimal(a[2])
    requires y.version == "v" + Decimal(b[0]) + "." + Decimal(b[1]) + "." + Decimal(b[2])
    ensures CompareVersions(x, y) < 0 <==>
              a[0] < b[0] || (a[0] == b[0] && (a[1] < b[1] || (a[1] == b[1] && a[2] < b[2])))
    ensures CompareVersions(x, y) > 0 <==>
              b[0] < a[0] || (a[0] == b[0] && (b[1] < a[1] || (a[1] == b[1] && b[2] < a[2])))
  {
    hide ParseLabel;
    RenderThenParse(Semver(a[0], a[1], a[2]));
    RenderThenParse(Semver(b[0], b[1], b[2]));
  }

  /** Numbers are compared, not digits, and the earlier number decides. */
  lemma LabelsInOrder(v: OperatorVersion)
    ensures Below(v.(version := "v1.0.5"), v.(version := "v1.1.0"))
    ensures Below(v.(version := "v1.9.7"), v.(version := "v1.10.0"))
    ensures Below(v.(version := "v1.20.30"), v.(version := "v2.0.0"))
    ensures CompareVersions(v.(version := "v1.02.0"), v.(version := "v0.0.0")) == 0
  {
    hide ParseLabel, Number, CompareSemver;
    SmallDecimals();
    ComparesNumbers(v.(version := "v1.0.5"), v.(version := "v1.1.0"), [1, 0, 5], [1, 1, 0]);
    ComparesNumbers(v.(version := "v1.9.7"), v.(version := "v1.10.0"), [1, 9, 7], [1, 10, 0]);
    ComparesNumbers(v.(version := "v1.20.30"), v.(version := "v2.0.0"), [1, 20, 30], [2, 0, 0]);
    LeadingZeroIsRefused();
    ComparisonIsPreorder(v.(version := "v1.02.0"), v, v);
  }

  lemma LeadingZeroIsRefused()
    ensures ParseLabel("v1.02.0") == Err(InvalidInput)
  {
    var rest := "02.0";
    assert rest[..2] == "02" && DigitRun(rest) == 2;
    assert Numerals(rest, 1) == None;
    var s := "1.02.0";
    assert DigitRun(s) == 1 && s[2..] == rest;
    assert "v1.02.0"[1..] == s;
  }

  lemma SmallDecimals()
    ensures Decimal(0) == "0" && Decimal(1) == "1" && Decimal(2) == "2" && Decimal(5) == "5" && Decimal(7) == "7"
    ensures Decimal(9) == "9" && Decimal(10) == "10" && Decimal(20) == "20" && Decimal(30) == "30"
  {
  }

  // ---------------------------------------------------------------- putting and removing

  /** An absent list becomes an empty one. */
  function NonNil(p: Ports): Ports { Present(p.Values()) }

  function Normalised(v: OperatorVersion): OperatorVersion {
    v.(inputs := NonNil(v.inputs), outputs := NonNil(v.outputs), config := NonNil(v.config))
  }

  /** The entries that do not carry the label. */
  function Others(versions: seq<OperatorVersion>, tag: string): (r: seq<OperatorVersion>)
    ensures forall x :: x in r <==> x in versions && x.version != tag
  {
    if versions == [] then []
    else
      var last := versions[|versions| - 1];
      var rest := Others(versions[..|versions| - 1], tag);
      assert versions == versions[..|versions| - 1] + [last];
      if last.version == tag then rest else rest + [last]
  }

  predicate ImageTaken(versions: seq<OperatorVersion>, v: OperatorVersion) {
    exists other :: other in versions && other.version != v.version && other.image == v.image
  }

  predicate HasLabel(versions: seq<OperatorVersion>, tag: string) {
    exists other :: other in versions && other.version == tag
  }

  datatype PutAnswer = PutAnswer(versions: seq<OperatorVersion>, created: bool)

  function Put(versions: seq<OperatorVersion>, v: OperatorVersion): Result<PutAnswer> {
    if !ValidLabel(v.version) || v.image == "" || ImageTaken(versions, v) then Err(InvalidInput)
    else
      Ok(PutAnswer(StableSort(Below, Others(versions, v.version) + [Normalised(v)]), !HasLabel(versions, v.version)))
  }

  lemma OneMoreEntry(prefix: seq<OperatorVersion>, other: OperatorVersion, v: OperatorVersion)
    ensures Others(prefix + [other], v.version) ==
            Others(prefix, v.version) + if other.version == v.version then [] else [other]
    ensures HasLabel(prefix + [other], v.version) <==> HasLabel(prefix, v.version) || other.version == v.version
    ensures ImageTaken(prefix + [other], v) <==>
            ImageTaken(prefix, v) || (other.version != v.version && other.image == v.image)
  {
    var s := prefix + [other];
    assert s[..|prefix|] == prefix;
    assert other in s;
    forall x | x in prefix ensures x in s {}
    forall x | x in s ensures x in prefix || x == other {}
  }

  lemma {:induction false} TakenInLonger(versions: seq<OperatorVersion>, i: nat, v: OperatorVersion)
    requires i <= |versions| && ImageTaken(versions[..i], v)
    ensures ImageTaken(versions, v)
  {
    var other :| other in versions[..i] && other.version != v.version && other.image == v.image;
    assert other in versions;
  }

  method PutVersion(versions: seq<OperatorVersion>, v: OperatorVersion) returns (r: Result<PutAnswer>)
    ensures r == Put(versions, v)
  {
    hide ParseLabel, Others, HasLabel, ImageTaken, StableSort;
    var parsed := ParseVersionLabel(v.version);
    if parsed.Err? {
      assert parsed == Err(InvalidInput) by { LabelErrors(v.version); }
      return Err(parsed.error);
    }
    if v.image == "" {
      return Err(InvalidInput);
    }
    var result: seq<OperatorVersion> := [];
    var created := true;
    var i := 0;
    NothingYet(v);
    while i < |versions|
      invariant 0 <= i <= |versions|
      invariant result == Others(versions[..i], v.version)
      invariant created == !HasLabel(versions[..i], v.version)
      invariant !ImageTaken(versions[..i], v)
    {
      var other := versions[i];
      OneMoreEntry(versions[..i], other, v);
      assert versions[..i + 1] == versions[..i] + [other];
      i := i + 1;
      if other.version == v.version {
        created := false;
        continue;
      }
      if other.image == v.image {
        TakenInLonger(versions, i, v);
        return Err(InvalidInput);
      }
      result := result + [other];
    }
    assert versions[..i] == versions;
    result := result + [Normalised(v)];
    var sorted := new OperatorVersion[|result|](k requires 0 <= k < |result| => result[k]);
    assert sorted[..] == result;
    SortInPlace(sorted, Below);
    return Ok(PutAnswer(sorted[..], created));
  }

  lemma LabelErrors(tag: string)
    ensures ParseLabel(tag).Err? ==> ParseLabel(tag) == Err(InvalidInput)
  {
  }

  lemma NothingYet(v: OperatorVersion)
    ensures Others([], v.version) == [] && !HasLabel([], v.version) && !ImageTaken([], v)
  {
  }

  datatype RemoveAnswer = RemoveAnswer(versions: seq<OperatorVersion>, removed: OperatorVersion)

  /** Position of the first entry with the label, as `slices.IndexFunc`. */
  function LabelIndex(versions: seq<OperatorVersion>, tag: string): (r: Option<nat>)
    ensures r.Some? ==> r.value < |versions| && versions[r.value].version == tag
    ensures r.None? ==> !HasLabel(versions, tag)
  {
    if versions == [] then None
    else if versions[0].version == tag then Some(0)
    else
      assert versions == [versions[0]] + versions[1..];
      match LabelIndex(versions[1..], tag)
      case None => None
      case Some(i) => Some(i + 1)
  }

  function RemoveVersion(versions: seq<OperatorVersion>, tag: string): Result<RemoveAnswer> {
    match LabelIndex(versions, tag)
    case None => Err(VersionNotFound)
    case Some(i) =>
      if |versions| == 1 then Err(InvalidInput)
      else Ok(RemoveAnswer(versions[..i] + versions[i + 1..], versions[i]))
  }

  lemma RemovedHasLabel(versions: seq<OperatorVersion>, tag: string)
    ensures RemoveVersion(versions, tag).Ok? ==> RemoveVersion(versions, tag).value.removed.version == tag
  {
  }

  lemma PutListHasEntries(versions: seq<OperatorVersion>, v: OperatorVersion)
    requires Put(versions, v).Ok?
    ensures Put(versions, v).value.versions != []
  {
    hide ParseLabel, StableSort;
    SortPermutes(Below, Others(versions, v.version) + [Normalised(v)]);
    assert Normalised(v) in Put(versions, v).value.versions;
  }

  lemma PutCreates(versions: seq<OperatorVersion>, v: OperatorVersion)
    requires Put(versions, v).Ok?
    ensures Put(versions, v).value.created <==> forall x :: x in versions ==> x.version != v.version
  {
    hide ParseLabel, StableSort;
  }

  lemma RemoveLeavesEntries(versions: seq<OperatorVersion>, tag: string)
    requires RemoveVersion(versions, tag).Ok?
    ensures RemoveVersion(versions, tag).value.versions != []
  {
    hide LabelIndex;
  }

  // ---------------------------------------------------------------- the list as a finite map

  /** What every stored list satisfies. */
  predicate WellFormed(versions: seq<OperatorVersion>) {
    && (forall i :: 0 <= i < |versions| ==> ValidLabel(versions[i].version) && versions[i].image != "")
    && (forall i, j :: 0 <= i < j < |versions| ==> Below(versions[i], versions[j]))
    && (forall i, j :: 0 <= i < j < |versions| ==> versions[i].image != versions[j].image)
  }

  /** The list read as a map from label to entry. */
  function Entries(versions: seq<OperatorVersion>): map<string, OperatorVersion> {
    if versions == [] then map[]
    else
      var last := versions[|versions| - 1];
      Entries(versions[..|versions| - 1])[last.version := last]
  }

  ghost predicate LabelsDistinct(versions: seq<OperatorVersion>) {
    forall x, y :: x in versions && y in versions && x.version == y.version ==> x == y
  }

  lemma {:induction false} EntriesByMembership(versions: seq<OperatorVersion>)
    requires LabelsDistinct(versions)
    ensures forall x :: x in versions <==> x.version in Entries(versions) && Entries(versions)[x.version] == x
    ensures forall k :: k in Entries(versions) ==> Entries(versions)[k] in versions && Entries(versions)[k].version == k
  {
    if versions != [] {
      var init, last := versions[..|versions| - 1], versions[|versions| - 1];
      assert versions == init + [last];
      EntriesByMembership(init);
    }
  }

  lemma WellFormedLabels(versions: seq<OperatorVersion>)
    requires WellFormed(versions)
    ensures LabelsDistinct(versions)
    ensures forall x, y :: x in versions && y in versions && x.image == y.image ==> x == y
  {
    hide ParseLabel;
  }

  /** Two lists with distinct labels and the same entries have the same elements. */
  lemma SameEntries(s: seq<OperatorVersion>, t: seq<OperatorVersion>)
    requires LabelsDistinct(s) && LabelsDistinct(t) && Entries(s) == Entries(t)
    ensures forall x :: x in s <==> x in t
  {
    EntriesByMembership(s);
    EntriesByMembership(t);
  }

  lemma LastIsHighest(versions: seq<OperatorVersion>, x: OperatorVersion)
    requires WellFormed(versions) && x in versions
    ensures x == versions[|versions| - 1] || Below(x, versions[|versions| - 1])
  {
    hide ParseLabel, Number;
    var i :| 0 <= i < |versions| && versions[i] == x;
  }

  lemma SameLast(s: seq<OperatorVersion>, t: seq<OperatorVersion>)
    requires WellFormed(s) && WellFormed(t) && s != [] && t != []
    requires s[|s| - 1] in t && t[|t| - 1] in s
    ensures s[|s| - 1] == t[|t| - 1]
  {
    hide ParseLabel, Number, WellFormed;
    LastIsHighest(s, t[|t| - 1]);
    LastIsHighest(t, s[|s| - 1]);
  }

  lemma LastLabelIsNew(versions: seq<OperatorVersion>)
    requires WellFormed(versions) && versions != []
    ensures WellFormed(versions[..|versions| - 1])
    ensures versions[|versions| - 1].version !in Entries(versions[..|versions| - 1])
  {
    hide ParseLabel, Number, Entries;
    var n := |versions| - 1;
    var init, last := versions[..n], versions[n];
    assert WellFormed(init);
    WellFormedLabels(init);
    EntriesByMembership(init);
    forall x | x in init ensures x.version != last.version {
      assert Below(x, last);
    }
  }

  lemma EntriesOfInit(versions: seq<OperatorVersion>)
    requires WellFormed(versions) && versions != []
    ensures WellFormed(versions[..|versions| - 1])
    ensures Entries(versions[..|versions| - 1]) == Entries(versions) - {versions[|versions| - 1].version}
  {
    hide WellFormed;
    LastLabelIsNew(versions);
  }

  /** A well-formed list is determined by its entries. */
  lemma {:induction false} ListIsCanonical(s: seq<OperatorVersion>, t: seq<OperatorVersion>)
    requires WellFormed(s) && WellFormed(t) && Entries(s) == Entries(t)
    ensures s == t
  {
    hide WellFormed, LabelsDistinct, Entries;
    EmptyList(s);
    EmptyList(t);
    if s != [] {
      WellFormedLabels(s);
      WellFormedLabels(t);
      SameEntries(s, t);
      SameLast(s, t);
      EntriesOfInit(s);
      EntriesOfInit(t);
      ListIsCanonical(s[..|s| - 1], t[..|t| - 1]);
      assert s == s[..|s| - 1] + [s[|s| - 1]] && t == t[..|t| - 1] + [t[|t| - 1]];
    }
  }

  /** A list with distinct valid labels sorts into strictly ascending order. */
  lemma SortStrictly(s: seq<OperatorVersion>)
    requires forall x :: x in s ==> ValidLabel(x.version)
    requires LabelsDistinct(s) && NoRepeats(s)
    ensures StrictlySorted(Below, StableSort(Below, s))
  {
    hide ParseLabel, Number, StableSort;
    var r := StableSort(Below, s);
    BelowIsWeakOrder();
    SortSorts(Below, s, AnyVersion);
    SortPermutes(Below, s);
    SortKeepsDistinct(Below, s);
    forall i, j | 0 <= i < j < |r|
      ensures Below(r[i], r[j])
    {
      StepUp(s, r[i], r[j]);
    }
  }

  lemma StepUp(s: seq<OperatorVersion>, x: OperatorVersion, y: OperatorVersion)
    requires x in s && y in s && LabelsDistinct(s) && x != y
    requires ValidLabel(x.version) && ValidLabel(y.version) && !Below(y, x)
    ensures Below(x, y)
  {
    hide ParseLabel, Number;
    ComparisonSeparatesLabels(x, y);
  }

  lemma {:induction false} OthersKeepDistinct(versions: seq<OperatorVersion>, tag: string)
    requires NoRepeats(versions)
    ensures NoRepeats(Others(versions, tag))
  {
    if versions != [] {
      var init, last := versions[..|versions| - 1], versions[|versions| - 1];
      OthersKeepDistinct(init, tag);
      var r := Others(init, tag);
      forall i | 0 <= i < |r| ensures r[i] != last {
        assert r[i] in init;
      }
    }
  }

  lemma PutSucceeds(versions: seq<OperatorVersion>, v: OperatorVersion)
    requires WellFormed(versions)
    ensures Put(versions, v).Ok? <==>
              && ValidLabel(v.version)
              && v.image != ""
              && (forall k :: k in Entries(versions) && k != v.version ==> Entries(versions)[k].image != v.image)
  {
    hide ParseLabel, StableSort, Entries, ValidLabel, LabelsDistinct, WellFormed;
    WellFormedLabels(versions);
    EntriesByMembership(versions);
    if ImageTaken(versions, v) {
      var other :| other in versions && other.version != v.version && other.image == v.image;
      assert Entries(versions)[other.version].image == v.image;
    } else {
      forall k | k in Entries(versions) && k != v.version
        ensures Entries(versions)[k].image != v.image
      {
        assert Entries(versions)[k] in versions && Entries(versions)[k].version == k;
      }
    }
  }

  /**
   On well-formed lists a put is a map update that keeps the list well formed, and it succeeds
   exactly when the label is valid, the image is not empty and no other label has that image.
   */
  lemma PutIsMapUpdate(versions: seq<OperatorVersion>, v: OperatorVersion)
    requires WellFormed(versions)
    ensures Put(versions, v).Ok? <==>
              && ValidLabel(v.version)
              && v.image != ""
              && (forall k :: k in Entries(versions) && k != v.version ==> Entries(versions)[k].image != v.image)
    ensures Put(versions, v).Ok? ==>
              var PutAnswer(r, created) := Put(versions, v).value;
              && WellFormed(r)
              && Entries(r) == Entries(versions)[v.version := Normalised(v)]
              && (created <==> v.version !in Entries(versions))
  {
    hide Put, ValidLabel;
    PutSucceeds(versions, v);
    if Put(versions, v).Ok? {
      PutEntries(versions, v);
    }
  }

  /**
   The same on the elements: a put keeps the entries with another label and adds the given one, whose
   absent lists have become empty ones.  Every refusal of a put is the same error.
   */
  lemma PutReplacesOneEntry(versions: seq<OperatorVersion>, v: OperatorVersion)
    requires WellFormed(versions)
    ensures Put(versions, v).Err? ==> Put(versions, v) == Err(InvalidInput)
    ensures Put(versions, v).Ok? ==>
              var stored := OperatorVersion(
                v.version, v.image,
                Present(if v.inputs.Present? then v.inputs.values else []),
                Present(if v.outputs.Present? then v.outputs.values else []),
                Present(if v.config.Present? then v.config.values else []),
                v.deprecated);
              var r := Put(versions, v).value.versions;
              && (forall x :: x in r <==> (x in versions && x.version != v.version) || x == stored)
              && (forall i, j :: 0 <= i < j < |r| ==> CompareVersions(r[i], r[j]) < 0)
              && (Put(versions, v).value.created <==> forall x :: x in versions ==> x.version != v.version)
  {
    hide ParseLabel, Number, StableSort, ValidLabel, LabelsDistinct;
    if Put(versions, v).Ok? {
      PutEntries(versions, v);
      SortPermutes(Below, Others(versions, v.version) + [Normalised(v)]);
    }
  }

  lemma PutEntries(versions: seq<OperatorVersion>, v: OperatorVersion)
    requires WellFormed(versions) && Put(versions, v).Ok?
    ensures WellFormed(Put(versions, v).value.versions)
    ensures Entries(Put(versions, v).value.versions) == Entries(versions)[v.version := Normalised(v)]
    ensures Put(versions, v).value.created <==> v.version !in Entries(versions)
  {
    hide ParseLabel, Number, StableSort, WellFormed, Entries, LabelsDistinct;
    var r := Put(versions, v).value.versions;
    var nv := Normalised(v);
    var s := Others(versions, v.version) + [nv];
    WellFormedLabels(versions);
    EntriesByMembership(versions);
    PutElements(versions, v);
    SortStrictly(s);
    SortPermutes(Below, s);
    StrictIsWellFormed(r);
    WellFormedLabels(r);
    MapOfElements(versions, r, nv);
    assert HasLabel(versions, v.version) <==> v.version in Entries(versions) by {
      if v.version in Entries(versions) {
        assert Entries(versions)[v.version] in versions;
      }
    }
  }

  /** Same elements but for one label: the maps differ in that label only. */
  lemma MapOfElements(versions: seq<OperatorVersion>, r: seq<OperatorVersion>, nv: OperatorVersion)
    requires LabelsDistinct(versions) && LabelsDistinct(r)
    requires forall x :: x in r <==> (x in versions && x.version != nv.version) || x == nv
    ensures Entries(r) == Entries(versions)[nv.version := nv]
  {
    hide LabelsDistinct, Entries;
    EntriesByMembership(versions);
    EntriesByMembership(r);
    var want := Entries(versions)[nv.version := nv];
    forall k | k in Entries(r) ensures k in want && Entries(r)[k] == want[k] { assert Entries(r)[k] in r; }
    forall k | k in want ensures k in Entries(r) { assert want[k] in r && want[k].version == k; }
  }

  /** What the list looks like before it is sorted. */
  lemma PutElements(versions: seq<OperatorVersion>, v: OperatorVersion)
    requires WellFormed(versions) && ValidLabel(v.version) && v.image != "" && !ImageTaken(versions, v)
    ensures var s := Others(versions, v.version) + [Normalised(v)];
            && NoRepeats(s) && LabelsDistinct(s)
            && (forall x :: x in s ==> ValidLabel(x.version) && x.image != "")
            && (forall x, y :: x in s && y in s && x.image == y.image ==> x == y)
  {
    hide ParseLabel, Number;
    var others, nv := Others(versions, v.version), Normalised(v);
    WellFormedLabels(versions);
    assert NoRepeats(versions) by {
      forall i, j | 0 <= i < j < |versions| ensures versions[i] != versions[j] {}
    }
    OthersKeepDistinct(versions, v.version);
    forall x | x in others ensures x in versions && x.version != v.version && x.image != v.image {
      assert !(x.version != v.version && x.image == v.image);
    }
    forall i | 0 <= i < |others| ensures others[i] != nv { assert others[i] in others; }
  }

  lemma StrictIsWellFormed(r: seq<OperatorVersion>)
    requires StrictlySorted(Below, r)
    requires forall x :: x in r ==> ValidLabel(x.version) && x.image != ""
    requires forall x, y :: x in r && y in r && x.image == y.image ==> x == y
    ensures WellFormed(r)
  {
    hide ParseLabel, Number;
    forall i, j | 0 <= i < j < |r| ensures r[i].image != r[j].image {
      assert r[i] in r && r[j] in r && Below(r[i], r[j]);
    }
  }

  lemma BelowSeparates(a: OperatorVersion, b: OperatorVersion)
    ensures Below(a, b) ==> a.version != b.version
  {
    hide Number;
  }

  /** The list without the entry at `i`. */
  lemma WithoutOne(versions: seq<OperatorVersion>, i: nat)
    requires WellFormed(versions) && i < |versions|
    ensures var r := versions[..i] + versions[i + 1..];
            && WellFormed(r)
            && (forall x :: x in r <==> x in versions && x.version != versions[i].version)
  {
    hide Below, ValidLabel;
    var r, e := versions[..i] + versions[i + 1..], versions[i];
    assert forall k :: 0 <= k < |r| ==> r[k] == versions[if k < i then k else k + 1];
    forall k | 0 <= k < |versions| && k != i
      ensures versions[k].version != e.version
    {
      assert if k < i then Below(versions[k], e) else Below(e, versions[k]);
      BelowSeparates(versions[k], e);
      BelowSeparates(e, versions[k]);
    }
    forall x | x in versions && x.version != e.version
      ensures x in r
    {
      var k :| 0 <= k < |versions| && versions[k] == x;
      assert x == r[if k < i then k else k - 1];
    }
  }

  lemma MapWithoutLabel(versions: seq<OperatorVersion>, r: seq<OperatorVersion>, tag: string)
    requires LabelsDistinct(versions) && LabelsDistinct(r)
    requires forall x :: x in r <==> x in versions && x.version != tag
    ensures Entries(r) == Entries(versions) - {tag}
  {
    hide LabelsDistinct, Entries;
    EntriesByMembership(versions);
    EntriesByMembership(r);
    var want := Entries(versions) - {tag};
    forall k | k in Entries(r) ensures k in want && Entries(r)[k] == want[k] { assert Entries(r)[k] in r; }
    forall k | k in want ensures k in Entries(r) { assert want[k] in r && want[k].version == k; }
  }

  /** On well-formed lists a removal is a map removal; it refuses unknown labels and the only entry. */
  lemma RemoveIsMapRemoval(versions: seq<OperatorVersion>, tag: string)
    requires WellFormed(versions)
    ensures RemoveVersion(versions, tag) == Err(VersionNotFound) <==> tag !in Entries(versions)
    ensures RemoveVersion(versions, tag) == Err(InvalidInput) <==> Entries(versions).Keys == {tag}
    ensures RemoveVersion(versions, tag).Ok? ==>
              var RemoveAnswer(r, removed) := RemoveVersion(versions, tag).value;
              && WellFormed(r) && r != []
              && tag in Entries(versions) && removed == Entries(versions)[tag]
              && Entries(r) == Entries(versions) - {tag}
  {
    hide ParseLabel, Number, WellFormed, LabelsDistinct, Entries;
    WellFormedLabels(versions);
    EntriesByMembership(versions);
    match LabelIndex(versions, tag) {
      case None =>
        assert forall k :: k in Entries(versions) ==> Entries(versions)[k] in versions && k != tag;
      case Some(i) =>
        var r := versions[..i] + versions[i + 1..];
        assert versions[i] in versions;
        WithoutOne(versions, i);
        WellFormedLabels(r);
        MapWithoutLabel(versions, r, tag);
        if |versions| == 1 {
          forall k ensures k in Entries(versions) <==> k == tag {
            assert k in Entries(versions) ==> Entries(versions)[k] in versions;
          }
          assert Entries(versions).Keys == {tag};
        } else {
          assert r[0] in r && r[0].version in Entries(versions) && r[0].version != tag;
          assert r[0].version in Entries(versions).Keys;
        }
    }
  }

  /** The same on the elements: a removal takes the entry with the label and nothing else. */
  lemma RemoveTakesOneEntry(versions: seq<OperatorVersion>, tag: string)
    requires WellFormed(versions) && RemoveVersion(versions, tag).Ok?
    ensures var RemoveAnswer(r, removed) := RemoveVersion(versions, tag).value;
            && removed in versions && removed.version == tag
            && (forall x :: x in r <==> x in versions && x.version != tag)
            && (forall i, j :: 0 <= i < j < |r| ==> CompareVersions(r[i], r[j]) < 0)
  {
    hide ParseLabel, Number, CompareVersions, HasLabel;
    WithoutOne(versions, LabelIndex(versions, tag).value);
  }

  /** Repeating a put changes nothing. */
  lemma PutTwice(versions: seq<OperatorVersion>, v: OperatorVersion)
    requires WellFormed(versions) && Put(versions, v).Ok?
    ensures Put(Put(versions, v).value.versions, v) == Ok(PutAnswer(Put(versions, v).value.versions, false))
  {
    hide Put, WellFormed, Entries, ValidLabel;
    var once := Put(versions, v).value.versions;
    PutIsMapUpdate(versions, v);
    PutIsMapUpdate(once, v);
    var twice := Put(once, v).value.versions;
    assert Entries(twice) == Entries(once);
    ListIsCanonical(twice, once);
  }

  /** Puts of different labels commute when both orders go through. */
  lemma PutsCommute(versions: seq<OperatorVersion>, v: OperatorVersion, w: OperatorVersion)
    requires WellFormed(versions) && v.version != w.version
    requires Put(versions, v).Ok? && Put(Put(versions, v).value.versions, w).Ok?
    requires Put(versions, w).Ok? && Put(Put(versions, w).value.versions, v).Ok?
    ensures Put(Put(versions, v).value.versions, w).value.versions == Put(Put(versions, w).value.versions, v).value.versions
  {
    hide Put, WellFormed, Entries, ValidLabel;
    PutIsMapUpdate(versions, v);
    PutIsMapUpdate(versions, w);
    var vFirst, wFirst := Put(versions, v).value.versions, Put(versions, w).value.versions;
    PutIsMapUpdate(vFirst, w);
    PutIsMapUpdate(wFirst, v);
    var vw, wv := Put(vFirst, w).value.versions, Put(wFirst, v).value.versions;
    assert Entries(vw) == Entries(wv);
    ListIsCanonical(vw, wv);
  }

  /** Of two puts that each go through alone, the second still does exactly when the images differ. */
  lemma SecondPutSucceeds(versions: seq<OperatorVersion>, v: OperatorVersion, w: OperatorVersion)
    requires WellFormed(versions) && v.version != w.version
    requires Put(versions, v).Ok? && Put(versions, w).Ok?
    ensures Put(Put(versions, v).value.versions, w).Ok? <==> v.image != w.image
  {
    hide Put, WellFormed, Entries, ValidLabel;
    PutIsMapUpdate(versions, v);
    PutIsMapUpdate(versions, w);
    var vFirst := Put(versions, v).value.versions;
    PutIsMapUpdate(vFirst, w);
    assert Entries(vFirst)[v.version].image == v.image;
  }

  /** Removing a label that a put created gives back the list, unless that was empty. */
  lemma RemoveUndoesPut(versions: seq<OperatorVersion>, v: OperatorVersion)
    requires WellFormed(versions) && Put(versions, v).Ok? && Put(versions, v).value.created
    ensures RemoveVersion(Put(versions, v).value.versions, v.version) ==
            if versions == [] then Err(InvalidInput) else Ok(RemoveAnswer(versions, Normalised(v)))
  {
    hide Put, RemoveVersion, WellFormed, Entries, ValidLabel;
    PutIsMapUpdate(versions, v);
    var more := Put(versions, v).value.versions;
    RemoveIsMapRemoval(more, v.version);
    EmptyList(versions);
    if versions == [] {
      assert Entries(more).Keys == {v.version};
    } else {
      assert Entries(more).Keys == Entries(versions).Keys + {v.version};
      assert Entries(more).Keys != {v.version} by {
        var k :| k in Entries(versions);
        assert k in Entries(more).Keys && k != v.version;
      }
      RemoveErrors(more, v.version);
      var less := RemoveVersion(more, v.version).value.versions;
      assert Entries(less) == Entries(versions);
      ListIsCanonical(less, versions);
    }
  }

  lemma EmptyList(versions: seq<OperatorVersion>)
    ensures versions == [] <==> Entries(versions) == map[]
  {
    if versions != [] {
      assert versions[|versions| - 1].version in Entries(versions);
    }
  }

  lemma RemoveErrors(versions: seq<OperatorVersion>, tag: string)
    ensures RemoveVersion(versions, tag).Err? ==>
              RemoveVersion(versions, tag) == Err(VersionNotFound) || RemoveVersion(versions, tag) == Err(InvalidInput)
  {
  }

  /**
   Putting a removed entry back restores the list exactly when the entry was stored without
   absent port lists, as every put stores it.
   */
  lemma PutUndoesRemove(versions: seq<OperatorVersion>, tag: string)
    requires WellFormed(versions) && RemoveVersion(versions, tag).Ok?
    ensures var RemoveAnswer(less, removed) := RemoveVersion(versions, tag).value;
            && Put(less, removed).Ok? && Put(less, removed).value.created
            && (Put(less, removed).value.versions == versions <==> Normalised(removed) == removed)
  {
    hide Put, RemoveVersion, WellFormed, Entries, ValidLabel;
    RemoveIsMapRemoval(versions, tag);
    var RemoveAnswer(less, removed) := RemoveVersion(versions, tag).value;
    EntryFacts(versions, tag);
    assert forall k :: k in Entries(less) && k != removed.version ==> Entries(less)[k].image != removed.image;
    PutIsMapUpdate(less, removed);
    var back := Put(less, removed).value.versions;
    assert Entries(back) == Entries(versions)[tag := Normalised(removed)];
    if Normalised(removed) == removed {
      assert Entries(back) == Entries(versions);
      ListIsCanonical(back, versions);
    } else {
      assert Entries(back)[tag] != Entries(versions)[tag];
    }
  }

  lemma EntryFacts(versions: seq<OperatorVersion>, tag: string)
    requires WellFormed(versions) && tag in Entries(versions)
    ensures Entries(versions)[tag].version == tag && ValidLabel(tag) && Entries(versions)[tag].image != ""
    ensures forall k :: k in Entries(versions) && k != tag ==> Entries(versions)[k].image != Entries(versions)[tag].image
  {
    hide ParseLabel, Number, Entries;
    WellFormedLabels(versions);
    EntriesByMembership(versions);
    var e := Entries(versions)[tag];
    assert e in versions;
    forall k | k in Entries(versions) && k != tag
      ensures Entries(versions)[k].image != e.image
    {
      assert Entries(versions)[k] in versions && Entries(versions)[k].version == k;
    }
  }

  /** Putting back a version stored with absent port lists stores it with empty ones. */
  lemma PutBackNormalises()
    ensures var first := OperatorVersion("v1.0.0", "img:1", Absent, Absent, Absent, false);
            var second := OperatorVersion("v2.0.0", "img:2", Absent, Absent, Absent, false);
            && WellFormed([first, second]) && RemoveVersion([first, second], "v1.0.0") == Ok(RemoveAnswer([second], first))
            && Put([second], first).Ok? && Put([second], first).value.versions != [first, second]
  {
    var first := OperatorVersion("v1.0.0", "img:1", Absent, Absent, Absent, false);
    var second := OperatorVersion("v2.0.0", "img:2", Absent, Absent, Absent, false);
    var versions := [first, second];
    hide ParseLabel, Put, Entries, LabelIndex;
    TwoLabels();
    assert Below(first, second) && WellFormed(versions);
    hide Number, WellFormed;
    assert versions[..0] + versions[1..] == [second];
    FirstIsRemoved(first, second);
    PutUndoesRemove(versions, "v1.0.0");
    assert Normalised(first) != first;
  }

  lemma FirstIsRemoved(first: OperatorVersion, second: OperatorVersion)
    ensures RemoveVersion([first, second], first.version) == Ok(RemoveAnswer([second], first))
  {
    hide HasLabel;
    assert [first, second][..0] + [first, second][1..] == [second];
  }

  lemma TwoLabels()
    ensures ParseLabel("v1.0.0") == Ok(Semver(1, 0, 0)) && ParseLabel("v2.0.0") == Ok(Semver(2, 0, 0))
  {
    hide ParseLabel;
    assert Decimal(0) == "0" && Decimal(1) == "1" && Decimal(2) == "2";
    RenderThenParse(Semver(1, 0, 0));
    RenderThenParse(Semver(2, 0, 0));
    assert RenderLabel(Semver(1, 0, 0)) == "v1.0.0" && RenderLabel(Semver(2, 0, 0)) == "v2.0.0";
  }

  // ---------------------------------------------------------------- the newest version

  /** One round of the scan: which of the two stays. */
  function Newer(newest: OperatorVersion, v: OperatorVersion): OperatorVersion {
    if newest.deprecated && !v.deprecated then v
    else if !newest.deprecated && v.deprecated then newest
    else if CompareVersions(v, newest) > 0 then v
    else newest
  }

  function Newest(versions: seq<OperatorVersion>): (r: Option<OperatorVersion>)
    ensures r.Some? <==> versions != []
  {
    if versions == [] then None
    else
      var last := versions[|versions| - 1];
      match Newest(versions[..|versions| - 1])
      case None => Some(last)
      case Some(newest) => Some(Newer(newest, last))
  }

  method NewestVersion(versions: seq<OperatorVersion>) returns (newest: Option<OperatorVersion>)
    ensures newest == Newest(versions)
  {
    hide ParseLabel;
    newest := None;
    var i := 0;
    while i < |versions|
      invariant 0 <= i <= |versions|
      invariant newest == Newest(versions[..i])
    {
      var v := versions[i];
      assert versions[..i + 1][..i] == versions[..i];
      if newest == None {
        newest := Some(v);
      } else if newest.value.deprecated && !v.deprecated {
        newest := Some(v);
      } else if !newest.value.deprecated && v.deprecated {
        // `newest` stays: numbers only decide between two of the same standing.
      } else if CompareVersions(v, newest.value) > 0 {
        newest := Some(v);
      }
      i := i + 1;
    }
    assert versions[..i] == versions;
  }

  /** Live before deprecated, then by number. */
  predicate Outranks(a: OperatorVersion, b: OperatorVersion) {
    if a.deprecated != b.deprecated then b.deprecated else CompareVersions(a, b) > 0
  }

  /** Nothing in the list outranks `m`. */
  predicate IsTop(versions: seq<OperatorVersion>, m: OperatorVersion) {
    m in versions && forall v :: v in versions ==> !Outranks(v, m)
  }

  /** The scan finds a top entry of any list. */
  lemma {:induction false} NewestIsTop(versions: seq<OperatorVersion>)
    requires versions != []
    ensures IsTop(versions, Newest(versions).value)
  {
    hide CompareVersions;
    var init, last := versions[..|versions| - 1], versions[|versions| - 1];
    assert versions == init + [last];
    if init == [] {
      assert versions == [last];
      NoneOutranksItself(last);
    } else {
      NewestIsTop(init);
      hide Newest, IsTop;
      TopOfOneMore(init, Newest(init).value, last);
      assert Newest(versions) == Some(Newer(Newest(init).value, last)) by { NewestStep(versions); }
    }
  }

  lemma NewestStep(versions: seq<OperatorVersion>)
    requires |versions| > 1
    ensures Newest(versions) == Some(Newer(Newest(versions[..|versions| - 1]).value, versions[|versions| - 1]))
  {
    hide Newer;
  }

  lemma NoneOutranksItself(v: OperatorVersion)
    ensures !Outranks(v, v)
  {
    hide Number;
  }

  lemma TopOfOneMore(init: seq<OperatorVersion>, m: OperatorVersion, last: OperatorVersion)
    requires IsTop(init, m)
    ensures IsTop(init + [last], Newer(m, last))
  {
    hide Outranks;
    forall v | v in init + [last] ensures !Outranks(v, Newer(m, last)) {
      if v in init { assert !Outranks(v, m); }
      NewerIsAbove(v, m, last);
    }
  }

  /** The entry that stays is outranked by neither of the two nor by anything the first was not outranked by. */
  lemma NewerIsAbove(v: OperatorVersion, m: OperatorVersion, last: OperatorVersion)
    ensures !Outranks(m, Newer(m, last)) && !Outranks(last, Newer(m, last))
    ensures !Outranks(v, m) ==> !Outranks(v, Newer(m, last))
  {
    hide Number;
  }

  /** In other words: it is live if any entry is, and no entry of its standing has a higher number. */
  lemma NewestIsLiveAndHighest(versions: seq<OperatorVersion>)
    requires versions != []
    ensures var m := Newest(versions).value;
            && m in versions
            && (forall v :: v in versions && m.deprecated ==> v.deprecated)
            && (forall v :: v in versions && m.deprecated == v.deprecated ==> CompareVersions(v, m) <= 0)
  {
    hide Newest, CompareVersions;
    NewestIsTop(versions);
    forall v | v in versions ensures !Outranks(v, Newest(versions).value) {}
  }

  /** Of several entries that none outranks it is the first. */
  lemma {:induction false} NewestIsFirst(versions: seq<OperatorVersion>) returns (i: nat)
    requires versions != []
    ensures i < |versions| && Newest(versions) == Some(versions[i])
    ensures forall j :: 0 <= j < i ==> Outranks(versions[i], versions[j])
  {
    hide CompareVersions;
    var n := |versions| - 1;
    if n == 0 {
      assert versions[..0] == [];
      i := 0;
    } else {
      i := NewestIsFirst(versions[..n]);
      NewestStep(versions);
      var m, last := versions[i], versions[n];
      if Newer(m, last) != m {
        assert Newer(m, last) == last && Outranks(last, m);
        forall j | 0 <= j < n ensures Outranks(last, versions[j]) {
          NewestIsTop(versions[..n]);
          assert versions[..n][j] in versions[..n];
          OutranksFollows(last, m, versions[j]);
        }
        i := n;
      }
    }
  }

  lemma OutranksFollows(a: OperatorVersion, b: OperatorVersion, c: OperatorVersion)
    requires Outranks(a, b) && !Outranks(c, b)
    ensures Outranks(a, c)
  {
    hide Number;
  }

  /** With distinct valid labels there is one top entry. */
  lemma TopIsUnique(versions: seq<OperatorVersion>, m: OperatorVersion, n: OperatorVersion)
    requires LabelsDistinct(versions) && forall v :: v in versions ==> ValidLabel(v.version)
    requires IsTop(versions, m) && IsTop(versions, n)
    ensures m == n
  {
    hide ParseLabel;
    ComparisonSeparatesLabels(m, n);
    assert !Outranks(m, n) && !Outranks(n, m);
  }

  /** So the stored order does not matter. */
  lemma NewestIgnoresOrder(s: seq<OperatorVersion>, t: seq<OperatorVersion>)
    requires LabelsDistinct(s) && forall v :: v in s ==> ValidLabel(v.version)
    requires multiset(s) == multiset(t)
    ensures Newest(s) == Newest(t)
  {
    hide ParseLabel, Newest, LabelsDistinct;
    SameElements(s, t);
    if s != [] {
      NewestIsTop(s);
      NewestIsTop(t);
      TopIsUnique(s, Newest(s).value, Newest(t).value);
    }
  }

  lemma LastLiveIsTop(versions: seq<OperatorVersion>, i: nat)
    requires WellFormed(versions) && i < |versions|
    requires forall j :: i < j < |versions| ==> versions[j].deprecated
    requires versions[i].deprecated ==> i == |versions| - 1 && forall j :: 0 <= j < i ==> versions[j].deprecated
    ensures IsTop(versions, versions[i])
  {
    hide ParseLabel, Number;
    forall v | v in versions ensures !Outranks(v, versions[i]) {
      var j :| 0 <= j < |versions| && versions[j] == v;
      assert j < i ==> Below(versions[j], versions[i]);
    }
  }

  /** On a stored list the newest version is its last live entry, or else its last entry. */
  lemma NewestOfSorted(versions: seq<OperatorVersion>, i: nat)
    requires WellFormed(versions) && i < |versions|
    requires forall j :: i < j < |versions| ==> versions[j].deprecated
    requires versions[i].deprecated ==> i == |versions| - 1 && forall j :: 0 <= j < i ==> versions[j].deprecated
    ensures Newest(versions) == Some(versions[i])
  {
    hide ParseLabel, Newest, LabelsDistinct;
    NewestIsTop(versions);
    LastLiveIsTop(versions, i);
    WellFormedLabels(versions);
    TopIsUnique(versions, Newest(versions).value, versions[i]);
  }

  /** Removing any version but the newest leaves the newest. */
  lemma RemoveKeepsNewest(versions: seq<OperatorVersion>, tag: string)
    requires WellFormed(versions) && RemoveVersion(versions, tag).Ok?
    requires Newest(versions).value.version != tag
    ensures Newest(RemoveVersion(versions, tag).value.versions) == Newest(versions)
  {
    hide ParseLabel, Newest, WellFormed, LabelsDistinct, RemoveVersion, Entries;
    RemoveIsMapRemoval(versions, tag);
    var r := RemoveVersion(versions, tag).value.versions;
    WellFormedLabels(versions);
    WellFormedLabels(r);
    EntriesByMembership(versions);
    EntriesByMembership(r);
    NewestIsTop(versions);
    NewestIsTop(r);
    assert forall x :: x in r ==> x in versions;
    assert Newest(versions).value in r;
    LabelsAreValid(r);
    TopIsUnique(r, Newest(r).value, Newest(versions).value);
  }

  lemma LabelsAreValid(versions: seq<OperatorVersion>)
    requires WellFormed(versions)
    ensures forall v :: v in versions ==> ValidLabel(v.version) && v.image != ""
  {
    hide ParseLabel, Number;
  }

  // ---------------------------------------------------------------- the top level

  /** An absent list passes; otherwise nil and the empty list are the same, and order matters. */
  predicate SameOrAbsent(got: Ports, want: Ports) { got.Absent? || got.Values() == want.Values() }

  predicate CheckTopLevel(body: Operator, newest: OperatorVersion) {
    && (body.image == "" || body.image == newest.image)
    && SameOrAbsent(body.inputs, newest.inputs)
    && SameOrAbsent(body.outputs, newest.outputs)
    && SameOrAbsent(body.config, newest.config)
  }
}
