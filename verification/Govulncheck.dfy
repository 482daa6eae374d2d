/** De-duplication of the scanner's findings (`tools/vulngate/govulncheck.go`). */
module Govulncheck {
  import opened Text
  import opened Sorting
  import opened GoMod

  datatype Frame = Frame(modulePath: string, version: string, symbol: string)

  datatype Finding = Finding(osv: string, fixedVersion: string, trace: seq<Frame>)

  datatype Vulnerability = Vulnerability(id: string, modulePath: string, version: string, fixed: string, kind: Class)

  /** What makes two findings the same: the same advisory in the same module. */
  datatype Key = Key(id: string, modulePath: string)

  function KeyOf(v: Vulnerability): Key { Key(v.id, v.modulePath) }

  predicate Blocking(v: Vulnerability) { v.fixed != "" && v.kind.Actionable() }

  /** Some frame of the trace names a function. */
  predicate Called(f: Finding) { exists i :: 0 <= i < |f.trace| && f.trace[i].symbol != "" }

  method IsCalled(f: Finding) returns (r: bool)
    ensures r <==> Called(f)
  {
    var i := 0;
    while i < |f.trace|
      invariant 0 <= i <= |f.trace|
      invariant forall j :: 0 <= j < i ==> f.trace[j].symbol == ""
    {
      if f.trace[i].symbol != "" {
        return true;
      }
      i := i + 1;
    }
    return false;
  }

  /** The frame of the vulnerable module is the first one. */
  function VulnerableFrame(f: Finding): (r: Option<Frame>)
    ensures Called(f) ==> r.Some?
  {
    if f.trace == [] then None else Some(f.trace[0])
  }

  // ---------------------------------------------------------------- what is collected

  /** A called finding of this key. */
  predicate Has(f: Finding, k: Key) {
    Called(f) && f.osv == k.id && f.trace[0].modulePath == k.modulePath
  }

  predicate NamesNoModule(f: Finding) { Called(f) && f.trace[0].modulePath == "" }

  ghost predicate Occurs(findings: seq<Finding>, k: Key) { exists f :: f in findings && Has(f, k) }

  ghost predicate OccursFixed(findings: seq<Finding>, k: Key) {
    exists f :: f in findings && Has(f, k) && f.fixedVersion != ""
  }

  ghost predicate Refused(findings: seq<Finding>) { exists f :: f in findings && NamesNoModule(f) }

  /** The module of this repository and what it requires directly. */
  datatype Owner = Owner(mainModule: string, direct: set<string>) {
    function ClassOf(modulePath: string): Class { Classify(mainModule, direct, modulePath) }
  }

  /** The first finding of the key gives the version, the first with a fix gives the fix. */
  ghost predicate Summarises(findings: seq<Finding>, o: Owner, v: Vulnerability) {
    && v.kind == o.ClassOf(v.modulePath)
    && (exists i :: FirstOf(findings, KeyOf(v), i) && findings[i].trace[0].version == v.version)
    && if v.fixed == "" then !OccursFixed(findings, KeyOf(v))
       else exists i :: FirstFixOf(findings, KeyOf(v), i) && findings[i].fixedVersion == v.fixed
  }

  ghost predicate FirstOf(findings: seq<Finding>, k: Key, i: int) {
    0 <= i < |findings| && Has(findings[i], k) && forall j :: 0 <= j < i ==> !Has(findings[j], k)
  }

  ghost predicate FirstFixOf(findings: seq<Finding>, k: Key, i: int) {
    && 0 <= i < |findings| && Has(findings[i], k) && findings[i].fixedVersion != ""
    && forall j :: 0 <= j < i ==> !(Has(findings[j], k) && findings[j].fixedVersion != "")
  }

  predicate KeyLess(k: Key, l: Key) {
    if k.id != l.id then StringLess(k.id, l.id) else StringLess(k.modulePath, l.modulePath)
  }

  predicate ReportsFirst(v: Vulnerability, w: Vulnerability) { KeyLess(KeyOf(v), KeyOf(w)) }

  /** One entry for each key that occurs, in strict order. */
  ghost predicate IsReport(findings: seq<Finding>, o: Owner, report: seq<Vulnerability>) {
    && StrictlySorted(ReportsFirst, report)
    && (forall v :: v in report ==> Summarises(findings, o, v))
    && (forall k :: Occurs(findings, k) ==> exists v :: v in report && KeyOf(v) == k)
  }

  // ---------------------------------------------------------------- the loop

  ghost predicate SeenSoFar(findings: seq<Finding>, o: Owner, seen: map<Key, Vulnerability>) {
    && (forall k :: k in seen ==> KeyOf(seen[k]) == k && Summarises(findings, o, seen[k]))
    && (forall k :: Occurs(findings, k) ==> k in seen)
    && !Refused(findings)
  }

  lemma Prefixes(findings: seq<Finding>, f: Finding, k: Key)
    ensures Occurs(findings + [f], k) <==> Occurs(findings, k) || Has(f, k)
    ensures OccursFixed(findings + [f], k) <==> OccursFixed(findings, k) || (Has(f, k) && f.fixedVersion != "")
    ensures Refused(findings + [f]) <==> Refused(findings) || NamesNoModule(f)
    ensures forall i :: FirstOf(findings, k, i) ==> FirstOf(findings + [f], k, i) && (findings + [f])[i] == findings[i]
    ensures forall i :: FirstFixOf(findings, k, i) ==> FirstFixOf(findings + [f], k, i) && (findings + [f])[i] == findings[i]
  {
    hide Has, NamesNoModule;
    forall g ensures g in findings + [f] <==> g in findings || g == f {}
  }

  /** A finding that is not of this key leaves its entry as it is; so does one of a key already fixed. */
  lemma EntryStays(findings: seq<Finding>, f: Finding, o: Owner, v: Vulnerability)
    requires Summarises(findings, o, v)
    requires !Has(f, KeyOf(v)) || f.fixedVersion == "" || v.fixed != ""
    ensures Summarises(findings + [f], o, v)
  {
    hide Has, FirstOf, FirstFixOf, OccursFixed, Occurs, Refused;
    Prefixes(findings, f, KeyOf(v));
  }

  lemma EntryGetsFix(findings: seq<Finding>, f: Finding, o: Owner, v: Vulnerability)
    requires Summarises(findings, o, v) && Has(f, KeyOf(v)) && f.fixedVersion != "" && v.fixed == ""
    ensures Summarises(findings + [f], o, v.(fixed := f.fixedVersion))
  {
    hide Has;
    Prefixes(findings, f, KeyOf(v));
    var more, n := findings + [f], |findings|;
    forall j | 0 <= j < n ensures !(Has(more[j], KeyOf(v)) && more[j].fixedVersion != "") {
      assert more[j] == findings[j] && findings[j] in findings;
    }
    assert FirstFixOf(more, KeyOf(v), n);
  }

  lemma EntryStarts(findings: seq<Finding>, f: Finding, o: Owner)
    requires Called(f) && !Occurs(findings, Key(f.osv, f.trace[0].modulePath))
    ensures var vf := f.trace[0];
            Summarises(findings + [f], o, Vulnerability(f.osv, vf.modulePath, vf.version, f.fixedVersion, o.ClassOf(vf.modulePath)))
  {
    var vf, more, n := f.trace[0], findings + [f], |findings|;
    var k := Key(f.osv, vf.modulePath);
    assert Has(f, k);
    hide Has, Called;
    Prefixes(findings, f, k);
    forall j | 0 <= j < n ensures !Has(more[j], k) { assert more[j] == findings[j] && findings[j] in findings; }
    assert FirstOf(more, k, n);
    if f.fixedVersion != "" {
      assert FirstFixOf(more, k, n);
    }
  }

  lemma NothingSeen(o: Owner)
    ensures SeenSoFar([], o, map[])
  {
  }

  lemma SeenSkips(findings: seq<Finding>, f: Finding, o: Owner, seen: map<Key, Vulnerability>)
    requires SeenSoFar(findings, o, seen) && !Called(f)
    ensures SeenSoFar(findings + [f], o, seen)
  {
    forall k ensures !Has(f, k) {}
    assert !NamesNoModule(f);
    hide Called, Summarises, Occurs, Refused, Has, NamesNoModule;
    forall k | k in seen ensures Summarises(findings + [f], o, seen[k]) { EntryStays(findings, f, o, seen[k]); }
    forall k | Occurs(findings + [f], k) ensures k in seen { Prefixes(findings, f, k); }
    Prefixes(findings, f, Key("", ""));
  }

  /** What one called finding does to the entries. */
  function Noted(seen: map<Key, Vulnerability>, f: Finding, o: Owner): map<Key, Vulnerability>
    requires Called(f)
  {
    var vf := f.trace[0];
    var k := Key(f.osv, vf.modulePath);
    if k !in seen then seen[k := Vulnerability(f.osv, vf.modulePath, vf.version, f.fixedVersion, o.ClassOf(vf.modulePath))]
    else if seen[k].fixed == "" && f.fixedVersion != "" then seen[k := seen[k].(fixed := f.fixedVersion)]
    else seen
  }

  lemma EntryNoted(findings: seq<Finding>, f: Finding, o: Owner, seen: map<Key, Vulnerability>, k: Key)
    requires SeenSoFar(findings, o, seen) && Called(f) && k in Noted(seen, f, o)
    ensures KeyOf(Noted(seen, f, o)[k]) == k && Summarises(findings + [f], o, Noted(seen, f, o)[k])
  {
    var here := Key(f.osv, f.trace[0].modulePath);
    assert Has(f, k) <==> k == here;
    hide Summarises, Occurs, Refused, Called, Has;
    if here !in seen && k == here {
      EntryStarts(findings, f, o);
    } else if k == here && seen[here].fixed == "" && f.fixedVersion != "" {
      EntryGetsFix(findings, f, o, seen[here]);
    } else {
      EntryStays(findings, f, o, seen[k]);
    }
  }

  lemma OccurringIsNoted(findings: seq<Finding>, f: Finding, o: Owner, seen: map<Key, Vulnerability>, k: Key)
    requires SeenSoFar(findings, o, seen) && Called(f) && Occurs(findings + [f], k)
    ensures k in Noted(seen, f, o)
  {
    assert Has(f, k) ==> k == Key(f.osv, f.trace[0].modulePath);
    hide Summarises, Occurs, Refused, Has, Called;
    Prefixes(findings, f, k);
  }

  lemma SeenNotes(findings: seq<Finding>, f: Finding, o: Owner, seen: map<Key, Vulnerability>)
    requires SeenSoFar(findings, o, seen) && Called(f) && !NamesNoModule(f)
    ensures SeenSoFar(findings + [f], o, Noted(seen, f, o))
  {
    hide Summarises, Occurs, Refused, Noted, Has, NamesNoModule, Called;
    var after := Noted(seen, f, o);
    forall k | k in after
      ensures KeyOf(after[k]) == k && Summarises(findings + [f], o, after[k])
    {
      EntryNoted(findings, f, o, seen, k);
    }
    forall k | Occurs(findings + [f], k) ensures k in after { OccurringIsNoted(findings, f, o, seen, k); }
    Prefixes(findings, f, Key("", ""));
  }

  method CollectCalled(findings: seq<Finding>, o: Owner) returns (r: Option<seq<Vulnerability>>)
    ensures r.None? <==> Refused(findings)
    ensures r.Some? ==> IsReport(findings, o, r.value)
  {
    hide SeenSoFar, IsReport, Summarises, Classify;
    var seen: map<Key, Vulnerability> := map[];
    var i := 0;
    NothingSeen(o);
    while i < |findings|
      invariant 0 <= i <= |findings|
      invariant SeenSoFar(findings[..i], o, seen)
    {
      var f := findings[i];
      ghost var before := findings[..i];
      assert findings[..i + 1] == before + [f];
      i := i + 1;
      var isCalled := IsCalled(f);
      if !isCalled {
        SeenSkips(before, f, o, seen);
        continue;
      }
      var vf := VulnerableFrame(f).value;
      if vf.modulePath == "" {
        assert f in findings && NamesNoModule(f);
        return None;
      }
      SeenNotes(before, f, o, seen);
      var k := Key(f.osv, vf.modulePath);
      if k in seen {
        if seen[k].fixed == "" && f.fixedVersion != "" {
          seen := seen[k := seen[k].(fixed := f.fixedVersion)];
        }
        continue;
      }
      seen := seen[k := Vulnerability(f.osv, vf.modulePath, vf.version, f.fixedVersion, o.ClassOf(vf.modulePath))];
    }
    assert findings[..i] == findings;
    AcceptedWhenSeen(findings, o, seen);
    var listed := Values(seen);
    SeenEntries(findings, o, seen, listed);
    var result := new Vulnerability[|listed|](j requires 0 <= j < |listed| => listed[j]);
    assert result[..] == listed;
    SortInPlace(result, ReportsFirst);
    SortedReport(findings, o, listed);
    return Some(result[..]);
  }

  lemma AcceptedWhenSeen(findings: seq<Finding>, o: Owner, seen: map<Key, Vulnerability>)
    requires SeenSoFar(findings, o, seen)
    ensures !Refused(findings)
  {
  }

  /** The entries of a map, in whatever order the map is walked. */
  method Values(seen: map<Key, Vulnerability>) returns (listed: seq<Vulnerability>)
    ensures (forall k :: k in seen ==> seen[k] in listed) && (forall v :: v in listed ==> v in seen.Values)
    ensures (forall k :: k in seen ==> KeyOf(seen[k]) == k) ==> KeysDistinct(listed)
  {
    listed := [];
    var rest := seen.Keys;
    while rest != {}
      invariant rest <= seen.Keys
      invariant forall k :: k in seen && k !in rest ==> seen[k] in listed
      invariant forall v :: v in listed ==> exists k :: k in seen && k !in rest && v == seen[k]
      invariant (forall k :: k in seen ==> KeyOf(seen[k]) == k) ==> KeysDistinct(listed)
      decreases |rest|
    {
      ghost var some := Member(rest);
      var k :| k in rest;
      ghost var before := listed;
      listed := listed + [seen[k]];
      rest := rest - {k};
      OneMoreKey(before, seen[k]);
    }
  }

  ghost predicate KeysDistinct(s: seq<Vulnerability>) {
    forall i, j :: 0 <= i < j < |s| ==> KeyOf(s[i]) != KeyOf(s[j])
  }

  lemma OneMoreKey(s: seq<Vulnerability>, v: Vulnerability)
    ensures KeysDistinct(s) && (forall w :: w in s ==> KeyOf(w) != KeyOf(v)) ==> KeysDistinct(s + [v])
  {
    forall i | 0 <= i < |s| ensures s[i] in s {}
  }

  /** The list of the entries is a report but for its order. */
  ghost predicate IsListing(findings: seq<Finding>, o: Owner, listed: seq<Vulnerability>) {
    && KeysDistinct(listed)
    && (forall v :: v in listed ==> Summarises(findings, o, v))
    && (forall k :: Occurs(findings, k) ==> exists v :: v in listed && KeyOf(v) == k)
  }

  lemma SeenEntries(findings: seq<Finding>, o: Owner, seen: map<Key, Vulnerability>, listed: seq<Vulnerability>)
    requires SeenSoFar(findings, o, seen)
    requires (forall k :: k in seen ==> seen[k] in listed) && (forall v :: v in listed ==> v in seen.Values)
    requires (forall k :: k in seen ==> KeyOf(seen[k]) == k) ==> KeysDistinct(listed)
    ensures IsListing(findings, o, listed)
  {
    hide Summarises, Occurs, Refused, KeysDistinct;
    forall k | Occurs(findings, k)
      ensures exists v :: v in listed && KeyOf(v) == k
    {
      assert seen[k] in listed && KeyOf(seen[k]) == k;
    }
  }

  predicate AnyVulnerability(v: Vulnerability) { true }

  predicate AnyKey(k: Key) { true }

  lemma KeysCompare(k: Key, l: Key)
    ensures !KeyLess(k, k) && !(KeyLess(k, l) && KeyLess(l, k)) && (k != l ==> KeyLess(k, l) || KeyLess(l, k))
  {
    hide StringLess;
    StringLessTotal(k.id, l.id);
    StringLessTotal(l.id, k.id);
    StringLessTotal(k.modulePath, l.modulePath);
    StringLessTotal(l.modulePath, k.modulePath);
    StringLessTotal(k.modulePath, k.modulePath);
  }

  lemma KeysChain(k: Key, l: Key, m: Key)
    ensures KeyLess(k, l) && KeyLess(l, m) ==> KeyLess(k, m)
  {
    hide StringLess;
    if KeyLess(k, l) && KeyLess(l, m) {
      if k.id != l.id && l.id != m.id {
        StringLessTransitive(k.id, l.id, m.id);
        StringLessTotal(k.id, l.id);
      } else if k.id == l.id && l.id == m.id {
        StringLessTransitive(k.modulePath, l.modulePath, m.modulePath);
      }
    }
  }

  /** Advisory first, then module: a total order of the keys. */
  lemma KeysAreOrdered()
    ensures TotalOrderOn(KeyLess, AnyKey)
    ensures WeakOrderOn(ReportsFirst, AnyVulnerability)
  {
    hide KeyLess;
    forall k, l ensures !KeyLess(k, k) && (k != l ==> KeyLess(k, l) || KeyLess(l, k)) { KeysCompare(k, l); }
    forall k, l, m ensures Chains(KeyLess, k, l, m) {
      KeysChain(k, l, m);
      KeysChain(m, l, k);
      KeysCompare(k, l);
      KeysCompare(l, m);
      KeysCompare(k, m);
    }
    forall u, v, w ensures Chains(ReportsFirst, u, v, w) {
      assert Chains(KeyLess, KeyOf(u), KeyOf(v), KeyOf(w));
    }
  }

  lemma SortedReport(findings: seq<Finding>, o: Owner, listed: seq<Vulnerability>)
    requires IsListing(findings, o, listed)
    ensures IsReport(findings, o, StableSort(ReportsFirst, listed))
  {
    hide Summarises, Occurs, KeyLess, StableSort;
    var s := StableSort(ReportsFirst, listed);
    KeysAreOrdered();
    SortSorts(ReportsFirst, listed, AnyVulnerability);
    SortPermutes(ReportsFirst, listed);
    SameElements(s, listed);
    DistinctMeansNoRepeats(listed);
    SortKeepsDistinct(ReportsFirst, listed);
    forall i, j | 0 <= i < j < |s|
      ensures ReportsFirst(s[i], s[j])
    {
      DifferentKeys(listed, s[i], s[j]);
      KeysCompare(KeyOf(s[i]), KeyOf(s[j]));
    }
  }

  lemma DistinctMeansNoRepeats(s: seq<Vulnerability>)
    requires KeysDistinct(s)
    ensures NoRepeats(s)
  {
  }

  lemma DifferentKeys(s: seq<Vulnerability>, v: Vulnerability, w: Vulnerability)
    requires KeysDistinct(s) && v in s && w in s && v != w
    ensures KeyOf(v) != KeyOf(w)
  {
  }

  // ---------------------------------------------------------------- what the report says

  /** An entry stands for called findings, and has a fix exactly when one of them has. */
  lemma EntryMeans(findings: seq<Finding>, o: Owner, v: Vulnerability)
    requires Summarises(findings, o, v)
    ensures Occurs(findings, KeyOf(v)) && (v.fixed != "" <==> OccursFixed(findings, KeyOf(v)))
    ensures v.kind == o.ClassOf(v.modulePath)
    ensures v.kind == Stdlib <==> v.modulePath in {"stdlib", "toolchain"}
    ensures v.kind == Direct <==> v.modulePath !in {"stdlib", "toolchain"} && (v.modulePath == o.mainModule || v.modulePath in o.direct)
  {
    hide Has;
    var i :| FirstOf(findings, KeyOf(v), i);
    assert findings[i] in findings;
    if v.fixed != "" {
      var j :| FirstFixOf(findings, KeyOf(v), j);
      assert findings[j] in findings;
    }
  }

  /** The keys of a report are those of the called findings. */
  lemma ReportHasExactlyTheKeys(findings: seq<Finding>, o: Owner, report: seq<Vulnerability>, k: Key)
    requires IsReport(findings, o, report)
    ensures Occurs(findings, k) <==> k in KeysOf(report)
  {
    hide Summarises, Occurs, Has;
    if Occurs(findings, k) {
      var v :| v in report && KeyOf(v) == k;
      var i :| 0 <= i < |report| && report[i] == v;
      assert KeysOf(report)[i] == k;
    }
    if k in KeysOf(report) {
      var i :| 0 <= i < |report| && KeysOf(report)[i] == k;
      assert report[i] in report;
      EntryMeans(findings, o, report[i]);
    }
  }

  function KeysOf(report: seq<Vulnerability>): seq<Key> {
    seq(|report|, i requires 0 <= i < |report| => KeyOf(report[i]))
  }

  lemma SummaryIsUnique(findings: seq<Finding>, o: Owner, v: Vulnerability, w: Vulnerability)
    requires Summarises(findings, o, v) && Summarises(findings, o, w) && KeyOf(v) == KeyOf(w)
    ensures v == w
  {
    var k := KeyOf(v);
    EntryMeans(findings, o, v);
    EntryMeans(findings, o, w);
    hide Has;
    var i :| FirstOf(findings, k, i) && findings[i].trace[0].version == v.version;
    var j :| FirstOf(findings, k, j) && findings[j].trace[0].version == w.version;
    assert i == j;
    if v.fixed != "" {
      var x :| FirstFixOf(findings, k, x) && findings[x].fixedVersion == v.fixed;
      var y :| FirstFixOf(findings, k, y) && findings[y].fixedVersion == w.fixed;
      assert x == y;
    }
  }

  /** Maps are walked in random order, yet there is one report. */
  lemma ReportIsUnique(findings: seq<Finding>, o: Owner, r: seq<Vulnerability>, s: seq<Vulnerability>)
    requires IsReport(findings, o, r) && IsReport(findings, o, s)
    ensures r == s
  {
    hide Summarises, Occurs;
    SameKeysSameOrder(findings, findings, o, r, s);
    forall i | 0 <= i < |r| ensures r[i] == s[i] {
      assert KeysOf(r)[i] == KeysOf(s)[i];
      assert r[i] in r && s[i] in s;
      SummaryIsUnique(findings, o, r[i], s[i]);
    }
  }

  lemma SameKeysSameOrder(a: seq<Finding>, b: seq<Finding>, o: Owner, r: seq<Vulnerability>, s: seq<Vulnerability>)
    requires IsReport(a, o, r) && IsReport(b, o, s) && forall k :: Occurs(a, k) <==> Occurs(b, k)
    ensures KeysOf(r) == KeysOf(s)
  {
    hide Summarises, Occurs, KeyLess;
    KeysAreOrdered();
    forall k ensures k in KeysOf(r) <==> k in KeysOf(s) {
      ReportHasExactlyTheKeys(a, o, r, k);
      ReportHasExactlyTheKeys(b, o, s, k);
    }
    StrictlySortedSame(KeyLess, KeysOf(r), KeysOf(s), AnyKey);
  }

  /**
   The order and the repetition of the findings decide neither whether they are accepted, nor which
   entries are reported and where, nor which of them have a fix and which block.
   */
  lemma OrderDoesNotMatter(a: seq<Finding>, b: seq<Finding>, o: Owner, r: seq<Vulnerability>, s: seq<Vulnerability>)
    requires forall f :: f in a <==> f in b
    ensures Refused(a) <==> Refused(b)
    ensures IsReport(a, o, r) && IsReport(b, o, s) ==>
              |r| == |s| && forall i :: 0 <= i < |r| ==>
                KeyOf(r[i]) == KeyOf(s[i]) && (r[i].fixed == "" <==> s[i].fixed == "") && (Blocking(r[i]) <==> Blocking(s[i]))
  {
    hide Has;
    if IsReport(a, o, r) && IsReport(b, o, s) {
      SameKeysSameOrder(a, b, o, r, s);
      assert |KeysOf(r)| == |r| && |KeysOf(s)| == |s|;
      forall i | 0 <= i < |r|
        ensures KeyOf(r[i]) == KeyOf(s[i]) && (r[i].fixed == "" <==> s[i].fixed == "") && (Blocking(r[i]) <==> Blocking(s[i]))
      {
        assert KeysOf(r)[i] == KeysOf(s)[i] && r[i] in r && s[i] in s;
        EntryMeans(a, o, r[i]);
        EntryMeans(b, o, s[i]);
        assert r[i].kind == s[i].kind;
      }
    }
  }

  /**
   The gate fails exactly when some called finding with a fix lies in the standard library, in the
   toolchain, in this module or in one required directly; the module is that of the first frame.
   */
  lemma BlocksExactlyWhen(findings: seq<Finding>, o: Owner, report: seq<Vulnerability>)
    requires IsReport(findings, o, report)
    ensures (exists v :: v in report && Blocking(v)) <==>
            exists f :: f in findings && (exists i :: 0 <= i < |f.trace| && f.trace[i].symbol != "") && f.fixedVersion != "" &&
              (f.trace[0].modulePath in {"stdlib", "toolchain", o.mainModule} || f.trace[0].modulePath in o.direct)
  {
    hide Summarises;
    if v :| v in report && Blocking(v) {
      EntryMeans(findings, o, v);
      var f :| f in findings && Has(f, KeyOf(v)) && f.fixedVersion != "";
      assert Called(f);
    }
    if f :| f in findings && Called(f) && f.fixedVersion != "" &&
            (f.trace[0].modulePath in {"stdlib", "toolchain", o.mainModule} || f.trace[0].modulePath in o.direct) {
      var k := Key(f.osv, f.trace[0].modulePath);
      assert Has(f, k);
      assert Occurs(findings, k) && OccursFixed(findings, k);
      var v :| v in report && KeyOf(v) == k;
      EntryMeans(findings, o, v);
      assert Blocking(v);
    }
  }

  /** Which advisories and modules are reported, in terms of the traces. */
  lemma ReportsTheFirstFrames(findings: seq<Finding>, o: Owner, report: seq<Vulnerability>, id: string, modulePath: string)
    requires IsReport(findings, o, report)
    ensures (exists v :: v in report && v.id == id && v.modulePath == modulePath) <==>
            exists f :: f in findings && (exists i :: 0 <= i < |f.trace| && f.trace[i].symbol != "") &&
              f.osv == id && f.trace[0].modulePath == modulePath
  {
    hide Summarises;
    var k := Key(id, modulePath);
    ReportHasExactlyTheKeys(findings, o, report, k);
    if v :| v in report && v.id == id && v.modulePath == modulePath {
      EntryMeans(findings, o, v);
      var f :| f in findings && Has(f, k);
      assert Called(f);
    }
    if f :| f in findings && Called(f) && f.osv == id && f.trace[0].modulePath == modulePath {
      assert Has(f, k) && Occurs(findings, k);
    }
  }

  /** Findings are refused exactly when the first frame of a called one names no module. */
  lemma RefusedExactlyWhen(findings: seq<Finding>)
    ensures Refused(findings) <==>
            exists f :: f in findings && (exists i :: 0 <= i < |f.trace| && f.trace[i].symbol != "") && f.trace[0].modulePath == ""
  {
    if f :| f in findings && NamesNoModule(f) {
      assert Called(f);
    }
    if f :| f in findings && Called(f) && f.trace[0].modulePath == "" {
      assert NamesNoModule(f);
    }
  }

  /** Of two entries the one with the smaller advisory comes first, and with the same advisory the smaller module. */
  lemma ReportIsInOrder(findings: seq<Finding>, o: Owner, report: seq<Vulnerability>, i: nat, j: nat)
    requires IsReport(findings, o, report) && i < |report| && j < |report|
    ensures i < j <==> StringLess(report[i].id, report[j].id) ||
                       (report[i].id == report[j].id && StringLess(report[i].modulePath, report[j].modulePath))
  {
    hide Summarises, StringLess, Occurs;
    var k, l := KeyOf(report[i]), KeyOf(report[j]);
    KeysCompare(k, l);
    StringLessTotal(k.id, l.id);
    StringLessTotal(k.id, k.id);
    assert i < j ==> ReportsFirst(report[i], report[j]);
    assert j < i ==> ReportsFirst(report[j], report[i]);
  }
}
