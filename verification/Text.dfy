/**
 The few pieces of Go's `strings`, `strconv` and `unicode` packages that the repository's parsers
 rely on, with the laws the round trips need.  A string is a sequence of characters, a line carries
 no line terminator.
 */
module Text {

  datatype Option<+T> = None | Some(value: T)

  /** A witness for choosing from a set that is not empty. */
  lemma Member<T>(s: set<T>) returns (x: T)
    requires s != {}
    ensures x in s
  {
    x :| x in s;
  }

  // ---------------------------------------------------------------- machine integers

  const MAX_INT64: int := 0x7fff_ffff_ffff_ffff
  const MIN_INT64: int := -0x8000_0000_0000_0000
  const TWO_TO_THE_64: int := 0x1_0000_0000_0000_0000

  predicate IsInt64(n: int) { MIN_INT64 <= n <= MAX_INT64 }

  /** The value a 64-bit signed addition or multiplication leaves behind. */
  function Wrap64(n: int): (r: int)
    ensures IsInt64(r)
    ensures IsInt64(n) ==> r == n
  {
    (n - MIN_INT64) % TWO_TO_THE_64 + MIN_INT64
  }

  // ---------------------------------------------------------------- prefixes and suffixes

  predicate HasPrefix(s: string, p: string) { p <= s }

  function TrimPrefix(s: string, p: string): string { if p <= s then s[|p|..] else s }

  predicate HasSuffix(s: string, p: string) { |p| <= |s| && s[|s| - |p|..] == p }

  lemma TrimPrefixOfConcat(p: string, s: string)
    ensures HasPrefix(p + s, p) && TrimPrefix(p + s, p) == s
  {
  }

  // ---------------------------------------------------------------- searching

  /** Position of the first occurrence of `sub`, as `strings.Index`. */
  function Index(s: string, sub: string): (r: Option<nat>)
    ensures r.Some? ==> r.value <= |s| && sub <= s[r.value..]
    ensures r.Some? ==> forall i :: 0 <= i < r.value ==> !(sub <= s[i..])
    ensures r.None? ==> forall i :: 0 <= i <= |s| ==> !(sub <= s[i..])
  {
    IndexFrom(s, sub, 0)
  }

  function IndexFrom(s: string, sub: string, from: nat): (r: Option<nat>)
    requires from <= |s|
    ensures r.Some? ==> from <= r.value <= |s| && sub <= s[r.value..]
    ensures r.Some? ==> forall i :: from <= i < r.value ==> !(sub <= s[i..])
    ensures r.None? ==> forall i :: from <= i <= |s| ==> !(sub <= s[i..])
    decreases |s| - from
  {
    if sub <= s[from..] then Some(from)
    else if from == |s| then None
    else IndexFrom(s, sub, from + 1)
  }

  /** Position of the last occurrence of a character, as `strings.LastIndex`. */
  function LastIndexOf(s: string, c: char): (r: Option<nat>)
    ensures r.Some? ==> r.value < |s| && s[r.value] == c && c !in s[r.value + 1..]
    ensures r.None? ==> c !in s
  {
    if s == [] then None
    else if s[|s| - 1] == c then Some(|s| - 1)
    else
      var r := LastIndexOf(s[..|s| - 1], c);
      assert s == s[..|s| - 1] + [s[|s| - 1]];
      assert r.Some? ==> s[r.value + 1..] == s[..|s| - 1][r.value + 1..] + [s[|s| - 1]];
      r
  }

  /** `strings.Split(s, string(c))`: the pieces between the occurrences of `c`. */
  function SplitOn(s: string, c: char): (r: seq<string>)
    ensures |r| >= 1
  {
    match Index(s, [c])
    case None => [s]
    case Some(i) =>
      assert s[i..][0] == c;
      [s[..i]] + SplitOn(s[i + 1..], c)
  }

  lemma IndexOfSeparator(a: string, c: char, b: string)
    requires c !in a
    ensures Index(a + [c] + b, [c]) == Some(|a|)
  {
    var s := a + [c] + b;
    assert [c] <= s[|a|..];
    forall i | 0 <= i < |a|
      ensures !([c] <= s[i..])
    {
      assert s[i..][0] == a[i];
    }
  }

  lemma IndexNone(a: string, c: char)
    requires c !in a
    ensures Index(a, [c]) == None
  {
    forall i | 0 <= i <= |a|
      ensures !([c] <= a[i..])
    {
      assert i < |a| ==> a[i..][0] == a[i];
    }
  }

  /** Searching for a single character. */
  lemma IndexOfCharacter(text: string, c: char)
    ensures Index(text, [c]).None? <==> c !in text
    ensures Index(text, [c]).Some? ==>
              var i := Index(text, [c]).value; i < |text| && text[i] == c && c !in text[..i]
    ensures forall i: nat :: i < |text| && text[i] == c && c !in text[..i] ==> Index(text, [c]) == Some(i)
  {
    hide Index;
    if c !in text {
      IndexNone(text, c);
    }
    forall i: nat | i < |text| && text[i] == c && c !in text[..i] ensures Index(text, [c]) == Some(i) {
      assert text == text[..i] + [c] + text[i + 1..];
      IndexOfSeparator(text[..i], c, text[i + 1..]);
    }
    if c in text {
      var i := FirstPlace(text, c);
      assert Index(text, [c]) == Some(i);
    }
  }

  lemma FirstPlace(text: string, c: char) returns (i: nat)
    requires c in text
    ensures i < |text| && text[i] == c && c !in text[..i]
  {
    i := 0;
    while text[i] != c
      invariant i < |text| && c !in text[..i] && c in text[i..]
      decreases |text| - i
    {
      assert text[i..] == [text[i]] + text[i + 1..];
      i := i + 1;
    }
  }

  lemma SplitTwo(a: string, c: char, b: string)
    requires c !in a && c !in b
    ensures SplitOn(a + [c] + b, c) == [a, b]
  {
    IndexOfSeparator(a, c, b);
    IndexNone(b, c);
    var s := a + [c] + b;
    assert s[..|a|] == a && s[|a| + 1..] == b;
    assert SplitOn(b, c) == [b];
  }

  lemma {:induction false} LastIndexOfConcat(a: string, c: char, b: string)
    requires c !in b
    ensures LastIndexOf(a + [c] + b, c) == Some(|a|)
  {
    var s := a + [c] + b;
    if b == [] {
      assert s == a + [c];
    } else {
      assert s[|s| - 1] == b[|b| - 1];
      assert s[..|s| - 1] == a + [c] + b[..|b| - 1];
      LastIndexOfConcat(a, c, b[..|b| - 1]);
    }
  }

  // ---------------------------------------------------------------- white space

  /** The White_Space property, which `unicode.IsSpace` tests. */
  predicate IsSpace(c: char) {
    || '\t' <= c <= '\r'
    || c == ' '
    || c == '\U{0085}' || c == '\U{00A0}' || c == '\U{1680}'
    || '\U{2000}' <= c <= '\U{200A}'
    || c == '\U{2028}' || c == '\U{2029}' || c == '\U{202F}' || c == '\U{205F}' || c == '\U{3000}'
  }

  /** The characters by number. */
  lemma SpaceCharacters(c: char)
    ensures IsSpace(c) <==>
              || c as int in {9, 10, 11, 12, 13, 32, 0x85, 0xA0, 0x1680, 0x2028, 0x2029, 0x202F, 0x205F, 0x3000}
              || 0x2000 <= c as int <= 0x200A
  {
  }

  predicate AllSpace(s: string) { forall i :: 0 <= i < |s| ==> IsSpace(s[i]) }

  predicate NoSpace(s: string) { forall i :: 0 <= i < |s| ==> !IsSpace(s[i]) }

  /** A token: something `strings.Fields` returns in one piece. */
  predicate IsWord(s: string) { s != [] && NoSpace(s) }

  /** Length of the longest prefix without white space. */
  function WordLength(s: string): (n: nat)
    ensures n <= |s| && NoSpace(s[..n])
    ensures n < |s| ==> IsSpace(s[n])
  {
    if s == [] || IsSpace(s[0]) then 0
    else
      var n := 1 + WordLength(s[1..]);
      assert s[..n] == [s[0]] + s[1..][..n - 1];
      n
  }

  /** `strings.Fields`. */
  function Fields(s: string): (r: seq<string>)
    ensures forall i :: 0 <= i < |r| ==> IsWord(r[i])
    ensures r == [] <==> AllSpace(s)
  {
    if s == [] then []
    else if IsSpace(s[0]) then
      assert AllSpace(s) <==> AllSpace(s[1..]) by {
        if AllSpace(s[1..]) {
          forall i | 0 <= i < |s| ensures IsSpace(s[i]) { assert i > 0 ==> s[i] == s[1..][i - 1]; }
        }
      }
      Fields(s[1..])
    else
      var n := WordLength(s);
      [s[..n]] + Fields(s[n..])
  }

  lemma {:induction false} WordLengthOfWord(w: string, rest: string)
    requires NoSpace(w)
    requires rest != [] ==> IsSpace(rest[0])
    ensures WordLength(w + rest) == |w|
  {
    if w == [] {
      assert w + rest == rest;
    } else {
      assert (w + rest)[1..] == w[1..] + rest;
      WordLengthOfWord(w[1..], rest);
    }
  }

  lemma FieldsOfWord(w: string, rest: string)
    requires IsWord(w)
    requires rest != [] ==> IsSpace(rest[0])
    ensures Fields(w + rest) == [w] + Fields(rest)
  {
    WordLengthOfWord(w, rest);
    assert (w + rest)[0] == w[0];
    assert (w + rest)[..|w|] == w;
    assert (w + rest)[|w|..] == rest;
  }

  lemma {:induction false} FieldsSkipSpace(sp: string, rest: string)
    requires AllSpace(sp)
    ensures Fields(sp + rest) == Fields(rest)
  {
    if sp == [] {
      assert sp + rest == rest;
    } else {
      assert (sp + rest)[1..] == sp[1..] + rest;
      FieldsSkipSpace(sp[1..], rest);
    }
  }

  lemma FieldsOfWordThen(w: string, rest: string)
    requires IsWord(w)
    ensures Fields(w + " " + rest) == [w] + Fields(rest)
  {
    assert w + " " + rest == w + (" " + rest);
    FieldsOfWord(w, " " + rest);
    FieldsSkipSpace(" ", rest);
  }

  lemma FieldsOfTwo(a: string, b: string)
    requires IsWord(a) && IsWord(b)
    ensures Fields(a + " " + b) == [a, b]
  {
    FieldsOfWordThen(a, b);
    FieldsOfWord(b, "");
    assert b + "" == b;
  }

  lemma FieldsOfThree(a: string, b: string, c: string)
    requires IsWord(a) && IsWord(b) && IsWord(c)
    ensures Fields(a + " " + b + " " + c) == [a, b, c]
  {
    var rest := b + " " + c;
    assert a + " " + b + " " + c == a + " " + rest;
    FieldsOfWordThen(a, rest);
    FieldsOfTwo(b, c);
  }

  function TrimLeft(s: string): (r: string)
    ensures r != [] ==> !IsSpace(r[0])
  {
    if s != [] && IsSpace(s[0]) then TrimLeft(s[1..]) else s
  }

  function TrimRight(s: string): (r: string)
    ensures r <= s && (r != [] ==> !IsSpace(r[|r| - 1]))
  {
    if s != [] && IsSpace(s[|s| - 1]) then TrimRight(s[..|s| - 1]) else s
  }

  predicate IsTrimmed(s: string) { s != [] ==> !IsSpace(s[0]) && !IsSpace(s[|s| - 1]) }

  /** `strings.TrimSpace`. */
  function TrimSpace(s: string): (r: string)
    ensures IsTrimmed(r)
  {
    TrimRight(TrimLeft(s))
  }

  lemma {:induction false} TrimLeftSkips(before: string, rest: string)
    requires AllSpace(before) && (rest != [] ==> !IsSpace(rest[0]))
    ensures TrimLeft(before + rest) == rest
  {
    if before == [] {
      assert before + rest == rest;
    } else {
      assert (before + rest)[1..] == before[1..] + rest;
      TrimLeftSkips(before[1..], rest);
    }
  }

  lemma {:induction false} TrimRightSkips(core: string, after: string)
    requires AllSpace(after) && (core != [] ==> !IsSpace(core[|core| - 1]))
    ensures TrimRight(core + after) == core
  {
    if after == [] {
      assert core + after == core;
    } else {
      var s := core + after;
      assert s[..|s| - 1] == core + after[..|after| - 1];
      TrimRightSkips(core, after[..|after| - 1]);
    }
  }

  lemma TrimSpaceExposes(before: string, core: string, after: string)
    requires AllSpace(before) && AllSpace(after) && core != [] && IsTrimmed(core)
    ensures TrimSpace(before + core + after) == core
  {
    assert before + core + after == before + (core + after);
    TrimLeftSkips(before, core + after);
    TrimRightSkips(core, after);
  }

  lemma TrimSpaceOfSpace(s: string)
    requires AllSpace(s)
    ensures TrimSpace(s) == []
  {
    TrimLeftSkips(s, []);
    assert s + [] == s;
  }

  // ---------------------------------------------------------------- decimal numbers

  predicate IsDigit(c: char) { '0' <= c <= '9' }

  predicate AllDigits(s: string) { forall i :: 0 <= i < |s| ==> IsDigit(s[i]) }

  function DigitsValue(s: string): nat
    requires AllDigits(s)
  {
    if s == [] then 0 else 10 * DigitsValue(s[..|s| - 1]) + (s[|s| - 1] as int - '0' as int)
  }

  function DigitChar(d: nat): char
    requires d < 10
  {
    ('0' as int + d) as char
  }

  /** The decimal rendering `strconv.Itoa` gives a natural number. */
  function Decimal(n: nat): string {
    if n < 10 then [DigitChar(n)] else Decimal(n / 10) + [DigitChar(n % 10)]
  }

  /** A numeral without a superfluous leading zero. */
  predicate IsCanonical(s: string) { s != [] && AllDigits(s) && (s[0] == '0' ==> |s| == 1) }

  lemma {:induction false} DecimalValue(n: nat)
    ensures IsCanonical(Decimal(n)) && (Decimal(n)[0] == '0' ==> n == 0)
    ensures DigitsValue(Decimal(n)) == n
  {
    if n < 10 {
      assert Decimal(n)[..0] == [];
    } else {
      DecimalValue(n / 10);
      assert Decimal(n)[..|Decimal(n)| - 1] == Decimal(n / 10);
      assert Decimal(n)[0] == Decimal(n / 10)[0];
    }
  }

  lemma {:induction false} ValueDecimal(s: string)
    requires IsCanonical(s)
    ensures Decimal(DigitsValue(s)) == s
    ensures s[0] != '0' ==> DigitsValue(s) > 0
  {
    var init, last := s[..|s| - 1], s[|s| - 1];
    if |s| == 1 {
      assert init == [];
    } else {
      assert init[0] == s[0];
      ValueDecimal(init);
      assert DigitsValue(s) / 10 == DigitsValue(init);
      assert DigitsValue(s) % 10 == last as int - '0' as int;
      assert s == init + [last];
    }
  }

  /** `strconv.Atoi` on a 64-bit platform: None stands for either of its errors. */
  function Atoi(s: string): (r: Option<int>)
    ensures r.Some? ==> IsInt64(r.value)
  {
    var negative := s != [] && s[0] == '-';
    var digits := if s != [] && (s[0] == '-' || s[0] == '+') then s[1..] else s;
    if digits == [] || !AllDigits(digits) then None
    else
      var n: int := if negative then -(DigitsValue(digits) as int) else DigitsValue(digits);
      if IsInt64(n) then Some(n) else None
  }

  /** `strconv.Itoa`. */
  function Itoa(n: int): string { if n < 0 then "-" + Decimal(-n) else Decimal(n) }

  lemma AtoiDigits(sign: string, digits: string)
    requires sign == "" || sign == "-"
    requires digits != [] && AllDigits(digits)
    requires DigitsValue(digits) <= if sign == "" then MAX_INT64 else MAX_INT64 + 1
    ensures Atoi(sign + digits) == Some(if sign == "" then DigitsValue(digits) as int else -(DigitsValue(digits) as int))
  {
    var s := sign + digits;
    if sign == "" {
      assert s == digits && IsDigit(s[0]);
    } else {
      assert s[0] == '-' && s[1..] == digits;
    }
  }

  lemma SmallNumerals()
    ensures DigitsValue("120") == 120 && DigitsValue("12") == 12 && DigitsValue("7") == 7 && DigitsValue("007") == 7
    ensures Decimal(12) == "12" && Decimal(120) == "120"
  {
    assert "120"[..2] == "12" && "12"[..1] == "1" && "1"[..0] == "" && DigitsValue("1") == 1;
    assert "7"[..0] == "" && "007"[..2] == "00" && "00"[..1] == "0" && "0"[..0] == "" && DigitsValue("0") == 0;
  }

  lemma SmallNumbersAreRead()
    ensures Atoi("120") == Some(120) && Atoi("-12") == Some(-12) && Atoi("+7") == Some(7) && Atoi("007") == Some(7)
    ensures Itoa(-12) == "-12" && Itoa(120) == "120"
  {
    SmallNumerals();
    hide DigitsValue, Decimal;
    assert "-12"[1..] == "12" && "+7"[1..] == "7";
  }

  lemma WhatIsNoNumber()
    ensures Atoi("") == None && Atoi("-") == None && Atoi("1.5") == None && Atoi("--1") == None
  {
    hide DigitsValue;
    assert "-"[1..] == "" && "--1"[1..] == "-1";
    assert "1.5"[1] == '.' && "-1"[0] == '-';
  }

  lemma AtoiRange(n: int)
    requires n >= 0
    ensures Atoi(Decimal(n)) == if n <= MAX_INT64 then Some(n) else None
    ensures Atoi("-" + Decimal(n)) == if n <= MAX_INT64 + 1 then Some(-n) else None
  {
    hide Decimal, DigitsValue;
    DecimalValue(n);
    var s := "-" + Decimal(n);
    assert s[0] == '-' && s[1..] == Decimal(n);
    assert IsDigit(Decimal(n)[0]);
  }

  predicate DigitsOrSign(s: string) { forall i :: 0 <= i < |s| ==> IsDigit(s[i]) || s[i] == '-' }

  lemma AtoiItoa(n: int)
    requires IsInt64(n)
    ensures Atoi(Itoa(n)) == Some(n)
    ensures IsWord(Itoa(n)) && DigitsOrSign(Itoa(n))
  {
    hide Atoi, Decimal, DigitsValue;
    var magnitude: nat := if n < 0 then -n else n;
    DecimalValue(magnitude);
    AtoiDigits(if n < 0 then "-" else "", Decimal(magnitude));
    assert "" + Decimal(magnitude) == Decimal(magnitude);
  }

  // ---------------------------------------------------------------- the order of strings

  /** Go's `<` on strings. */
  predicate StringLess(a: string, b: string) {
    b != [] && (a == [] || a[0] < b[0] || (a[0] == b[0] && StringLess(a[1..], b[1..])))
  }

  /** Where they first differ the first string has ended or has the smaller character. */
  predicate DiffersBelow(a: string, b: string, i: nat) {
    i < |b| && i <= |a| && a[..i] == b[..i] && (i == |a| || a[i] < b[i])
  }

  lemma {:induction false} LessMeansDiffersBelow(a: string, b: string) returns (i: nat)
    requires StringLess(a, b)
    ensures DiffersBelow(a, b, i)
  {
    if a != [] && a[0] == b[0] {
      i := LessMeansDiffersBelow(a[1..], b[1..]);
      assert a == [a[0]] + a[1..] && b == [b[0]] + b[1..];
      assert a[..i + 1] == [a[0]] + a[1..][..i] && b[..i + 1] == [b[0]] + b[1..][..i];
      i := i + 1;
    } else {
      i := 0;
    }
  }

  lemma {:induction false} DiffersBelowMeansLess(a: string, b: string, i: nat)
    requires DiffersBelow(a, b, i)
    ensures StringLess(a, b)
  {
    if i > 0 {
      assert a[0] == a[..i][0] && b[0] == b[..i][0];
      assert a[1..][..i - 1] == a[..i][1..] && b[1..][..i - 1] == b[..i][1..];
      DiffersBelowMeansLess(a[1..], b[1..], i - 1);
    }
  }

  /** A string comes before another when it is a proper prefix of it or smaller where they first differ. */
  lemma StringLessExactlyWhen(a: string, b: string)
    ensures StringLess(a, b) <==> exists i :: DiffersBelow(a, b, i)
  {
    hide StringLess, DiffersBelow;
    if StringLess(a, b) {
      var i := LessMeansDiffersBelow(a, b);
    }
    if i :| DiffersBelow(a, b, i) {
      DiffersBelowMeansLess(a, b, i);
    }
  }

  lemma {:induction false} StringLessTotal(a: string, b: string)
    ensures !StringLess(a, a)
    ensures a != b ==> StringLess(a, b) || StringLess(b, a)
    ensures StringLess(a, b) ==> !StringLess(b, a)
  {
    if a != [] {
      StringLessTotal(a[1..], if b == [] then [] else b[1..]);
      if b != [] && a[0] == b[0] {
        assert a == [a[0]] + a[1..] && b == [b[0]] + b[1..];
      }
    }
  }

  lemma {:induction false} StringLessTransitive(a: string, b: string, c: string)
    requires StringLess(a, b) && StringLess(b, c)
    ensures StringLess(a, c)
  {
    if a != [] && a[0] == b[0] && b[0] == c[0] {
      StringLessTransitive(a[1..], b[1..], c[1..]);
    }
  }
}
