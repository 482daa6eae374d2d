/** The go.mod reader of the vulnerability gate (`tools/vulngate/gomod.go`). */
module GoMod {
  import opened Text

  // ---------------------------------------------------------------- code and comment of a line

  /** Where the scan of a line stands with respect to quoted tokens. */
  datatype Quote = Outside | Interpreted | Escaped | Raw

  function AfterChar(q: Quote, c: char): Quote {
    match q
    case Outside => if c == '"' then Interpreted else if c == '`' then Raw else Outside
    case Interpreted => if c == '\\' then Escaped else if c == '"' then Outside else Interpreted
    case Escaped => Interpreted
    case Raw => if c == '`' then Outside else Raw
  }

  function QuoteAt(s: string, i: nat): Quote
    requires i <= |s|
  {
    if i == 0 then Outside else AfterChar(QuoteAt(s, i - 1), s[i - 1])
  }

  /** Two slashes outside quotes. */
  predicate StartsComment(s: string, i: nat) {
    i + 1 < |s| && QuoteAt(s, i) == Outside && s[i] == '/' && s[i + 1] == '/'
  }

  /** The first of them, or the end of the line. */
  function CommentStart(s: string, from: nat := 0): (r: nat)
    requires from <= |s|
    ensures from <= r <= |s| && (r < |s| ==> StartsComment(s, r))
    ensures forall i :: from <= i < r ==> !StartsComment(s, i)
    decreases |s| - from
  {
    if from == |s| || StartsComment(s, from) then from else CommentStart(s, from + 1)
  }

  function SplitComment(line: string): (string, string) {
    var k := CommentStart(line);
    (line[..k], line[k..])
  }

  /** Nothing is lost, and the cut is at the first comment start, wherever that is. */
  lemma SplitIsAtFirstComment(line: string, k: nat)
    requires k <= |line| && (k == |line| || StartsComment(line, k))
    requires forall i :: 0 <= i < k ==> !StartsComment(line, i)
    ensures var (code, comment) := SplitComment(line);
            code + comment == line && code == line[..k] && comment == line[k..]
            && (comment == "" || HasPrefix(comment, "//"))
  {
    var r := CommentStart(line);
    assert !(r < k) && !(k < r);
    if k < |line| {
      assert line[k..][..2] == "//";
    }
  }

  method SplitCommentOf(line: string) returns (code: string, comment: string)
    ensures (code, comment) == SplitComment(line)
  {
    var inQuote: Option<char> := None;
    var i := 0;
    while i < |line|
      invariant 0 <= i <= |line| + 1
      invariant inQuote == None || inQuote == Some('"') || inQuote == Some('`')
      invariant i <= |line| ==>
                  QuoteAt(line, i) == if inQuote == None then Outside else if inQuote == Some('"') then Interpreted else Raw
      invariant forall j :: 0 <= j < i ==> !StartsComment(line, j)
      decreases |line| - i
    {
      var c := line[i];
      if inQuote == Some('"') {
        if c == '\\' {
          SkipsEscaped(line, i);
          i := i + 1;
        } else if c == '"' {
          inQuote := None;
        }
      } else if inQuote == Some('`') {
        if c == '`' {
          inQuote := None;
        }
      } else if c == '"' || c == '`' {
        inQuote := Some(c);
      } else if c == '/' && i + 1 < |line| && line[i + 1] == '/' {
        SplitIsAtFirstComment(line, i);
        return line[..i], line[i..];
      }
      i := i + 1;
    }
    SplitIsAtFirstComment(line, |line|);
    assert line[..|line|] == line && line[|line|..] == "";
    return line, "";
  }

  /** The extra step over an escaped character lands inside the same quoted token. */
  lemma SkipsEscaped(line: string, i: nat)
    requires i < |line| && QuoteAt(line, i) == Interpreted && line[i] == '\\'
    ensures !StartsComment(line, i) && !StartsComment(line, i + 1)
    ensures i + 2 <= |line| ==> QuoteAt(line, i + 2) == Interpreted
  {
    assert QuoteAt(line, i + 1) == Escaped;
  }

  // ---------------------------------------------------------------- requirements

  function ReplaceEscapedQuotes(s: string): string
    decreases |s|
  {
    if s == [] then []
    else if |s| >= 2 && s[0] == '\\' && s[1] == '"' then ['"'] + ReplaceEscapedQuotes(s[2..])
    else [s[0]] + ReplaceEscapedQuotes(s[1..])
  }

  function UnquoteToken(token: string): string {
    if |token| >= 2 && token[0] == '"' && token[|token| - 1] == '"' then ReplaceEscapedQuotes(token[1..|token| - 1])
    else if |token| >= 2 && token[0] == '`' && token[|token| - 1] == '`' then token[1..|token| - 1]
    else token
  }

  predicate IsIndirect(comment: string) {
    var text := TrimSpace(TrimPrefix(comment, "//"));
    text == "indirect" || HasPrefix(text, "indirect;")
  }

  /** Keywords that can open a block; what stands in a block other than `require` is ignored. */
  predicate IsBlockKeyword(word: string) {
    word in {"require", "replace", "exclude", "retract", "tool", "godebug", "ignore"}
  }

  /** What has been read; `block` is the keyword of the block the reader is inside. */
  datatype Reading = Reading(block: string, mainModule: string, direct: set<string>)

  function WithRequirement(s: Reading, code: string, comment: string): Option<Reading> {
    var fields := Fields(code);
    if |fields| < 2 then None
    else if IsIndirect(comment) then Some(s)
    else Some(s.(direct := s.direct + {UnquoteToken(fields[0])}))
  }

  function ReadCode(s: Reading, code: string, comment: string): Option<Reading>
    requires IsTrimmed(code)
  {
    if code == "" then Some(s)
    else if s.block != "" then
      if code == ")" then Some(s.(block := ""))
      else if s.block == "require" then WithRequirement(s, code, comment)
      else Some(s)
    else
      var fields := Fields(code);
      if IsBlockKeyword(fields[0]) && fields[|fields| - 1] == "(" then Some(s.(block := fields[0]))
      else if fields[0] == "module" then
        if |fields| < 2 then None else Some(s.(mainModule := UnquoteToken(fields[1])))
      else if fields[0] == "require" then WithRequirement(s, TrimSpace(TrimPrefix(code, "require")), comment)
      else Some(s)
  }

  function ReadLine(s: Reading, line: string): Option<Reading> {
    var (code, comment) := SplitComment(line);
    ReadCode(s, TrimSpace(code), comment)
  }

  function ReadLines(s: Reading, lines: seq<string>): Option<Reading>
    decreases |lines|
  {
    if lines == [] then Some(s)
    else
      match ReadLines(s, lines[..|lines| - 1])
      case None => None
      case Some(t) => ReadLine(t, lines[|lines| - 1])
  }

  const START := Reading("", "", {})

  /** The module path and the directly required paths, or nothing when the file is refused. */
  function ReadGoMod(lines: seq<string>): Option<(string, set<string>)> {
    match ReadLines(START, lines)
    case None => None
    case Some(s) => if s.mainModule == "" then None else Some((s.mainModule, s.direct))
  }

  lemma {:induction false} RefusedLineRefuses(s: Reading, lines: seq<string>, i: nat)
    requires i <= |lines| && ReadLines(s, lines[..i]) == None
    ensures ReadLines(s, lines) == None
    decreases |lines|
  {
    hide ReadLine;
    if i == |lines| {
      assert lines[..i] == lines;
    } else {
      assert lines[..|lines| - 1][..i] == lines[..i];
      RefusedLineRefuses(s, lines[..|lines| - 1], i);
    }
  }

  class Requirements {
    var mainModule: string
    var direct: set<string>

    constructor ()
      ensures mainModule == "" && direct == {}
    {
      mainModule, direct := "", {};
    }

    function State(block: string): Reading
      reads this
    {
      Reading(block, mainModule, direct)
    }

    method AddRequirement(ghost block: string, code: string, comment: string) returns (ok: bool)
      modifies this`direct
      ensures ok ==> WithRequirement(old(State(block)), code, comment) == Some(State(block))
      ensures !ok ==> WithRequirement(old(State(block)), code, comment) == None
    {
      var fields := Fields(code);
      if |fields| < 2 {
        return false;
      }
      if IsIndirect(comment) {
        return true;
      }
      direct := direct + {UnquoteToken(fields[0])};
      return true;
    }
  }

  method ParseGoMod(lines: seq<string>) returns (r: Option<Requirements>)
    ensures r.None? <==> ReadGoMod(lines) == None
    ensures r.Some? ==> fresh(r.value) && ReadGoMod(lines) == Some((r.value.mainModule, r.value.direct))
  {
    hide Fields, TrimSpace, IsIndirect, UnquoteToken, IsSpace;
    var result := new Requirements();
    var block := "";
    var i := 0;
    while i < |lines|
      invariant 0 <= i <= |lines| && fresh(result)
      invariant ReadLines(START, lines[..i]) == Some(result.State(block))
    {
      assert lines[..i + 1][..i] == lines[..i];
      var code, comment := SplitCommentOf(lines[i]);
      code := TrimSpace(code);
      ghost var before := result.State(block);
      i := i + 1;
      assert ReadLines(START, lines[..i]) == ReadCode(before, code, comment);
      if code == "" {
        continue;
      }
      if block != "" {
        if code == ")" {
          block := "";
          continue;
        }
        if block == "require" {
          var ok := result.AddRequirement(block, code, comment);
          if !ok {
            RefusedLineRefuses(START, lines, i);
            return None;
          }
        }
        continue;
      }
      var fields := Fields(code);
      var keyword := fields[0];
      if IsBlockKeyword(keyword) && fields[|fields| - 1] == "(" {
        block := keyword;
        continue;
      }
      if keyword == "module" {
        if |fields| < 2 {
          RefusedLineRefuses(START, lines, i);
          return None;
        }
        result.mainModule := UnquoteToken(fields[1]);
      } else if keyword == "require" {
        var ok := result.AddRequirement(block, TrimSpace(TrimPrefix(code, "require")), comment);
        if !ok {
          RefusedLineRefuses(START, lines, i);
          return None;
        }
      }
    }
    assert lines[..i] == lines;
    if result.mainModule == "" {
      return None;
    }
    return Some(result);
  }

  // ---------------------------------------------------------------- classes of modules

  datatype Class = Direct | Transitive | Stdlib {
    /** Only these are held against the repository. */
    predicate Actionable() { this == Direct || this == Stdlib }
  }

  function Classify(mainModule: string, direct: set<string>, modulePath: string): Class {
    if modulePath == "stdlib" || modulePath == "toolchain" then Stdlib
    else if modulePath == mainModule then Direct
    else if modulePath in direct then Direct
    else Transitive
  }

  // ---------------------------------------------------------------- the indirect marker

  /** The text after the slashes: the word "indirect" on its own, or followed by a semicolon. */
  ghost predicate Marks(text: string) {
    exists before, after :: IsMarker(text, before, after)
  }

  predicate IsMarker(text: string, before: string, after: string) {
    && text == before + "indirect" + after && AllSpace(before)
    && (AllSpace(after) || after[0] == ';')
  }

  lemma {:induction false} TrimLeftParts(s: string) returns (before: string)
    ensures AllSpace(before) && s == before + TrimLeft(s)
  {
    if s != [] && IsSpace(s[0]) {
      before := TrimLeftParts(s[1..]);
      before := [s[0]] + before;
    } else {
      before := [];
    }
  }

  lemma {:induction false} TrimRightParts(s: string)
    ensures AllSpace(s[|TrimRight(s)|..])
  {
    if s != [] && IsSpace(s[|s| - 1]) {
      var init, n := s[..|s| - 1], |TrimRight(s)|;
      TrimRightParts(init);
      assert s[n..] == init[n..] + [s[|s| - 1]];
    }
  }

  lemma {:induction false} TrimRightKeeps(p: string, rest: string)
    requires p != [] && !IsSpace(p[|p| - 1])
    ensures p <= TrimRight(p + rest)
  {
    var s := p + rest;
    if rest != [] && IsSpace(s[|s| - 1]) {
      assert s[..|s| - 1] == p + rest[..|rest| - 1];
      TrimRightKeeps(p, rest[..|rest| - 1]);
    }
  }

  /** A comment is read as the marker exactly when it is one. */
  lemma IsIndirectExactlyWhen(text: string)
    ensures IsIndirect("//" + text) <==> Marks(text)
  {
    if Marks(text) {
      var before, after :| IsMarker(text, before, after);
      MarkerIsRead(text, before, after);
    }
    if IsIndirect("//" + text) {
      ReadIsMarker(text);
    }
  }

  lemma ReadIsMarker(text: string)
    requires IsIndirect("//" + text)
    ensures Marks(text)
  {
    hide IsSpace, TrimLeft, TrimRight;
    TrimPrefixOfConcat("//", text);
    var left := TrimLeft(text);
    var core := TrimRight(left);
    assert TrimSpace(text) == core;
    var before := TrimLeftParts(text);
    TrimRightParts(left);
    assert left == core + left[|core|..] && |core| >= 8;
    var after := left[8..];
    assert "indirect" == core[..8] == left[..8] by {
      if core != "indirect" { assert "indirect;"[..8] == "indirect"; }
    }
    assert text == before + "indirect" + after;
    if core != "indirect" {
      assert after[0] == left[8] == core[8] == "indirect;"[8];
    }
    assert IsMarker(text, before, after);
  }

  lemma MarkerIsRead(text: string, before: string, after: string)
    requires IsMarker(text, before, after)
    ensures IsIndirect("//" + text)
  {
    TrimPrefixOfConcat("//", text);
    if AllSpace(after) {
      TrimSpaceExposes(before, "indirect", after);
    } else {
      var core := "indirect" + after;
      assert text == before + core;
      TrimLeftSkips(before, core);
      assert core == "indirect;" + after[1..];
      TrimRightKeeps("indirect;", after[1..]);
    }
  }

  // ---------------------------------------------------------------- lines that scan as meant

  /** Scanned on its own the text ends outside quotes and starts no comment. */
  predicate Closed(s: string) {
    QuoteAt(s, |s|) == Outside && forall i :: 0 <= i < |s| ==> !StartsComment(s, i)
  }

  lemma {:induction false} QuotesOfPrefix(a: string, b: string, i: nat)
    requires i <= |a|
    ensures QuoteAt(a + b, i) == QuoteAt(a, i)
  {
    if i > 0 {
      QuotesOfPrefix(a, b, i - 1);
      assert (a + b)[i - 1] == a[i - 1];
    }
  }

  lemma {:induction false} QuotesOfSuffix(a: string, b: string, i: nat)
    requires QuoteAt(a, |a|) == Outside && i <= |b|
    ensures QuoteAt(a + b, |a| + i) == QuoteAt(b, i)
  {
    if i == 0 {
      QuotesOfPrefix(a, b, |a|);
    } else {
      QuotesOfSuffix(a, b, i - 1);
      assert (a + b)[|a| + i - 1] == b[i - 1];
    }
  }

  lemma ClosedTogether(a: string, b: string)
    requires Closed(a) && Closed(b)
    requires a == "" || b == "" || a[|a| - 1] != '/' || b[0] != '/'
    ensures Closed(a + b)
  {
    var s := a + b;
    QuotesOfSuffix(a, b, |b|);
    forall i: nat | i < |s|
      ensures !StartsComment(s, i)
    {
      if i < |a| {
        QuotesOfPrefix(a, b, i);
        assert !StartsComment(a, i);
      } else {
        QuotesOfSuffix(a, b, i - |a|);
        assert !StartsComment(b, i - |a|);
      }
    }
  }

  lemma {:induction false} PlainIsClosed(s: string)
    requires '"' !in s && '`' !in s && forall i :: 0 <= i < |s| - 1 ==> !(s[i] == '/' && s[i + 1] == '/')
    ensures Closed(s)
  {
    StaysOutside(s, |s|);
  }

  lemma {:induction false} StaysOutside(s: string, i: nat)
    requires '"' !in s && '`' !in s && i <= |s|
    ensures QuoteAt(s, i) == Outside
  {
    if i > 0 {
      StaysOutside(s, i - 1);
      assert s[i - 1] in s;
    }
  }

  lemma SpaceIsClosed(s: string)
    requires AllSpace(s)
    ensures Closed(s)
  {
    PlainIsClosed(s);
  }

  /** Closed code in front of a comment is what the reader sees, without the space around it. */
  lemma LineReads(indent: string, core: string, space: string, comment: string)
    requires AllSpace(indent) && AllSpace(space) && Closed(core) && IsTrimmed(core)
    requires comment == "" || HasPrefix(comment, "//")
    requires comment == "" || core == "" || space != "" || core[|core| - 1] != '/'
    ensures var (code, rest) := SplitComment(indent + core + space + comment);
            TrimSpace(code) == core && rest == comment
  {
    var pre := indent + core + space;
    SpaceIsClosed(indent);
    SpaceIsClosed(space);
    ClosedTogether(indent, core);
    ClosedTogether(indent + core, space);
    var line := pre + comment;
    QuotesOfPrefix(pre, comment, |pre|);
    assert comment != "" ==> StartsComment(line, |pre|);
    forall i: nat | i < |pre|
      ensures !StartsComment(line, i)
    {
      QuotesOfPrefix(pre, comment, i);
      assert !StartsComment(pre, i);
    }
    SplitIsAtFirstComment(line, |pre|);
    assert line[..|pre|] == pre && line[|pre|..] == comment;
    if core == "" {
      TrimSpaceOfSpace(pre);
    } else {
      TrimSpaceExposes(indent, core, space);
    }
  }

  // ---------------------------------------------------------------- tokens

  /** A module path as it can be written: bare, in double quotes, or in back quotes. */
  datatype Token = Bare(path: string) | InQuotes(path: string) | InBackQuotes(path: string)

  predicate IsPlainWord(s: string) {
    && IsWord(s) && '"' !in s && '`' !in s
    && forall i :: 0 <= i < |s| - 1 ==> !(s[i] == '/' && s[i + 1] == '/')
  }

  predicate Writable(t: Token) {
    match t
    case Bare(path) => IsPlainWord(path)
    case InQuotes(path) => NoSpace(path) && '\\' !in path
    case InBackQuotes(path) => NoSpace(path) && '`' !in path
  }

  function EscapeQuotes(s: string): string {
    if s == [] then [] else (if s[0] == '"' then "\\\"" else [s[0]]) + EscapeQuotes(s[1..])
  }

  function TokenText(t: Token): string {
    match t
    case Bare(path) => path
    case InQuotes(path) => "\"" + EscapeQuotes(path) + "\""
    case InBackQuotes(path) => "`" + path + "`"
  }

  lemma {:induction false} EscapeThenReplace(s: string)
    requires '\\' !in s
    ensures ReplaceEscapedQuotes(EscapeQuotes(s)) == s
  {
    if s != [] {
      EscapeThenReplace(s[1..]);
      var rest := EscapeQuotes(s[1..]);
      if s[0] == '"' {
        assert ("\\\"" + rest)[2..] == rest;
      } else {
        assert ([s[0]] + rest)[1..] == rest;
      }
    }
  }

  /** Inside the quotes the escaped text neither closes them nor contains space. */
  lemma {:induction false} EscapedStaysInside(before: string, s: string)
    requires '\\' !in s && NoSpace(s) && QuoteAt(before, |before|) == Interpreted
    ensures NoSpace(EscapeQuotes(s))
    ensures var all := before + EscapeQuotes(s);
            QuoteAt(all, |all|) == Interpreted && forall i :: |before| <= i < |all| ==> QuoteAt(all, i) != Outside
    decreases |s|
  {
    if s == [] {
      assert before + [] == before;
    } else {
      var head := if s[0] == '"' then "\\\"" else [s[0]];
      var rest, more := EscapeQuotes(s[1..]), before + head;
      assert before + EscapeQuotes(s) == more + rest;
      OneEscapedCharacter(before, s[0]);
      EscapedStaysInside(more, s[1..]);
      hide EscapeQuotes;
      forall i | |before| <= i < |more| ensures QuoteAt(more + rest, i) != Outside {
        QuotesOfPrefix(more, rest, i);
      }
    }
  }

  lemma OneEscapedCharacter(before: string, c: char)
    requires c != '\\' && QuoteAt(before, |before|) == Interpreted
    ensures var more := before + if c == '"' then "\\\"" else [c];
            QuoteAt(more, |more|) == Interpreted && forall i :: |before| <= i < |more| ==> QuoteAt(more, i) != Outside
  {
    var head := if c == '"' then "\\\"" else [c];
    QuotesOfPrefix(before, head, |before|);
    assert QuoteAt(before + head, |before| + 1) == if c == '"' then Escaped else Interpreted;
  }

  lemma QuotedTokenIsClosed(path: string)
    requires NoSpace(path) && '\\' !in path
    ensures Closed("\"" + EscapeQuotes(path) + "\"") && NoSpace("\"" + EscapeQuotes(path) + "\"")
  {
    var q := "\"";
    assert QuoteAt(q, 1) == AfterChar(QuoteAt(q, 0), q[0]);
    EscapedStaysInside(q, path);
    var open := q + EscapeQuotes(path);
    var s := open + q;
    forall i: nat | i <= |open| ensures QuoteAt(s, i) == QuoteAt(open, i) { QuotesOfPrefix(open, q, i); }
    assert s[0] == '"';
  }

  lemma {:induction false} RawStaysInside(path: string, i: nat)
    requires '`' !in path && i <= |path|
    ensures QuoteAt("`" + path, i + 1) == Raw
  {
    var s := "`" + path;
    if i == 0 {
      assert QuoteAt(s, 1) == AfterChar(QuoteAt(s, 0), s[0]);
    } else {
      RawStaysInside(path, i - 1);
      assert s[i] == path[i - 1] && path[i - 1] in path;
    }
  }

  lemma RawTokenIsClosed(path: string)
    requires NoSpace(path) && '`' !in path
    ensures Closed("`" + path + "`") && NoSpace("`" + path + "`")
  {
    var open, s := "`" + path, "`" + path + "`";
    forall i | 1 <= i <= |open| ensures QuoteAt(open, i) == Raw { RawStaysInside(path, i - 1); }
    forall i: nat | i <= |open| ensures QuoteAt(s, i) == QuoteAt(open, i) { QuotesOfPrefix(open, "`", i); }
    assert s[0] == '`';
  }

  /** However a path is written, the line scans as meant and the path comes back. */
  lemma TokenRoundTrip(t: Token)
    requires Writable(t)
    ensures Closed(TokenText(t)) && IsWord(TokenText(t)) && UnquoteToken(TokenText(t)) == t.path
  {
    hide Closed, EscapeQuotes, ReplaceEscapedQuotes;
    match t
    case Bare(path) =>
      PlainIsClosed(path);
      assert path[0] in path;
    case InQuotes(path) =>
      QuotedTokenIsClosed(path);
      EscapeThenReplace(path);
      var s := TokenText(t);
      assert s[1..|s| - 1] == EscapeQuotes(path);
    case InBackQuotes(path) =>
      RawTokenIsClosed(path);
      var s := TokenText(t);
      assert s[1..|s| - 1] == path;
  }

  // ---------------------------------------------------------------- written files

  /** What surrounds the code of a line. */
  datatype Layout = Layout(indent: string, space: string, comment: Option<string>)

  predicate Laid(l: Layout, core: string) {
    && AllSpace(l.indent) && AllSpace(l.space)
    && (l.comment.Some? && core != "" && l.space == "" ==> core[|core| - 1] != '/')
  }

  function CommentText(l: Layout): string { if l.comment.Some? then "//" + l.comment.value else "" }

  function LineText(l: Layout, core: string): string { l.indent + core + l.space + CommentText(l) }

  lemma LineIsRead(s: Reading, l: Layout, core: string)
    requires Laid(l, core) && Closed(core) && IsTrimmed(core)
    ensures ReadLine(s, LineText(l, core)) == ReadCode(s, core, CommentText(l))
  {
    hide Closed, Fields, TrimSpace;
    LineReads(l.indent, core, l.space, CommentText(l));
  }

  datatype Requirement = Requirement(token: Token, gap: string, version: string)

  predicate IsGap(s: string) { s != "" && AllSpace(s) }

  predicate RequirementOk(r: Requirement) {
    Writable(r.token) && IsGap(r.gap) && IsPlainWord(r.version) && r.version != "("
  }

  function RequirementText(r: Requirement): string { TokenText(r.token) + r.gap + r.version }

  /** The path counts unless its line carries the marker. */
  ghost function Names(r: Requirement, l: Layout): set<string> {
    if l.comment.Some? && Marks(l.comment.value) then {} else {r.token.path}
  }

  lemma ClosedWithGap(a: string, gap: string, b: string)
    requires Closed(a) && IsGap(gap) && Closed(b)
    ensures Closed(a + gap + b)
  {
    hide Closed;
    SpaceIsClosed(gap);
    assert IsSpace(gap[0]) && IsSpace(gap[|gap| - 1]);
    ClosedTogether(a, gap);
    ClosedTogether(a + gap, b);
  }

  lemma FieldsAfter(a: string, gap: string, rest: string)
    requires IsWord(a) && IsGap(gap)
    ensures Fields(a + gap + rest) == [a] + Fields(rest)
  {
    hide Fields;
    assert a + gap + rest == a + (gap + rest);
    FieldsOfWord(a, gap + rest);
    FieldsSkipSpace(gap, rest);
  }

  lemma FieldsOfSingle(a: string)
    requires IsWord(a)
    ensures Fields(a) == [a]
  {
    FieldsOfWord(a, "");
    assert a + "" == a;
  }

  lemma RequirementShape(r: Requirement)
    requires RequirementOk(r)
    ensures var text := RequirementText(r);
            && Closed(text) && text != "" && IsTrimmed(text) && text != ")" && Fields(text) == [TokenText(r.token), r.version]
  {
    hide Closed, Fields, Writable, TokenText, UnquoteToken;
    TokenRoundTrip(r.token);
    PlainIsClosed(r.version);
    ClosedWithGap(TokenText(r.token), r.gap, r.version);
    FieldsAfter(TokenText(r.token), r.gap, r.version);
    FieldsOfSingle(r.version);
  }

  lemma RequirementIsRead(s: Reading, r: Requirement, l: Layout)
    requires RequirementOk(r)
    ensures WithRequirement(s, RequirementText(r), CommentText(l)) == Some(s.(direct := s.direct + Names(r, l)))
  {
    hide Fields, UnquoteToken, IsIndirect, Writable, IsPlainWord, Marks, Closed;
    RequirementShape(r);
    TokenRoundTrip(r.token);
    if l.comment.Some? {
      IsIndirectExactlyWhen(l.comment.value);
    } else {
      NoCommentNoMarker();
    }
    assert s.direct + {} == s.direct;
  }

  lemma NoCommentNoMarker()
    ensures !IsIndirect("")
  {
    assert TrimSpace("") == "";
  }

  datatype Entry = Listed(layout: Layout, r: Requirement) | Remark(layout: Layout)

  predicate EntryOk(e: Entry) {
    match e
    case Listed(l, r) => RequirementOk(r) && Laid(l, RequirementText(r))
    case Remark(l) => Laid(l, "")
  }

  function EntryText(e: Entry): string {
    match e
    case Listed(l, r) => LineText(l, RequirementText(r))
    case Remark(l) => LineText(l, "")
  }

  ghost function EntryNames(e: Entry): set<string> { if e.Listed? then Names(e.r, e.layout) else {} }

  datatype Item =
    | Single(layout: Layout, gap: string, r: Requirement)
    | Block(open: Layout, gap: string, entries: seq<Entry>, close: Layout)
    /** A block of another keyword, whatever is in it. */
    | Skipped(keyword: string, open: Layout, gap: string, body: seq<string>, close: Layout)
    | Comment(layout: Layout)
    /** Any other line, such as the Go version. */
    | Other(line: string)

  function CodeOf(line: string): (r: string)
    ensures IsTrimmed(r)
  {
    TrimSpace(SplitComment(line).0)
  }

  predicate IsInert(code: string) {
    code == "" ||
    var fields := Fields(code);
    fields == [] ||
    (fields[0] !in {"module", "require"} &&
     !(fields[0] in {"replace", "exclude", "retract", "tool", "godebug", "ignore"} && fields[|fields| - 1] == "("))
  }

  predicate ItemOk(item: Item) {
    match item
    case Single(l, gap, r) => IsGap(gap) && RequirementOk(r) && Laid(l, "require" + gap + RequirementText(r))
    case Block(open, gap, entries, close) =>
      && IsGap(gap) && Laid(open, "require" + gap + "(") && Laid(close, ")")
      && forall i :: 0 <= i < |entries| ==> EntryOk(entries[i])
    case Skipped(keyword, open, gap, body, close) =>
      && keyword in {"replace", "exclude", "retract", "tool", "godebug", "ignore"} && IsGap(gap) && Laid(open, keyword + gap + "(") && Laid(close, ")")
      && forall i :: 0 <= i < |body| ==> CodeOf(body[i]) != ")"
    case Comment(l) => Laid(l, "")
    case Other(line) => IsInert(CodeOf(line))
  }

  function EntryLines(entries: seq<Entry>): seq<string> {
    if entries == [] then [] else EntryLines(entries[..|entries| - 1]) + [EntryText(entries[|entries| - 1])]
  }

  function ItemLines(item: Item): seq<string> {
    match item
    case Single(l, gap, r) => [LineText(l, "require" + gap + RequirementText(r))]
    case Block(open, gap, entries, close) =>
      [LineText(open, "require" + gap + "(")] + EntryLines(entries) + [LineText(close, ")")]
    case Skipped(keyword, open, gap, body, close) =>
      [LineText(open, keyword + gap + "(")] + body + [LineText(close, ")")]
    case Comment(l) => [LineText(l, "")]
    case Other(line) => [line]
  }

  ghost function EntriesNames(entries: seq<Entry>): set<string> {
    if entries == [] then {} else EntriesNames(entries[..|entries| - 1]) + EntryNames(entries[|entries| - 1])
  }

  ghost function ItemNames(item: Item): set<string> {
    match item
    case Single(l, _, r) => Names(r, l)
    case Block(_, _, entries, _) => EntriesNames(entries)
    case _ => {}
  }

  function FileLines(items: seq<Item>): seq<string> {
    if items == [] then [] else FileLines(items[..|items| - 1]) + ItemLines(items[|items| - 1])
  }

  /** The directly required paths of a file: those whose line does not carry the marker. */
  ghost function FileNames(items: seq<Item>): set<string> {
    if items == [] then {} else FileNames(items[..|items| - 1]) + ItemNames(items[|items| - 1])
  }

  // ---------------------------------------------------------------- reading them back

  lemma {:induction false} ReadConcat(s: Reading, a: seq<string>, b: seq<string>)
    ensures ReadLines(s, a + b) == match ReadLines(s, a) case None => None case Some(t) => ReadLines(t, b)
    decreases |b|
  {
    hide ReadLine;
    if b == [] {
      assert a + b == a;
    } else {
      var n := |b| - 1;
      assert (a + b)[..|a + b| - 1] == a + b[..n];
      ReadConcat(s, a, b[..n]);
    }
  }

  lemma ReadOne(s: Reading, line: string)
    ensures ReadLines(s, [line]) == ReadLine(s, line)
  {
    hide ReadLine;
    assert [line][..0] == [];
    assert ReadLines(s, []) == Some(s);
  }

  lemma EntryIsRead(s: Reading, e: Entry)
    requires s.block == "require" && EntryOk(e)
    ensures ReadLine(s, EntryText(e)) == Some(s.(direct := s.direct + EntryNames(e)))
  {
    hide Closed, Fields, ReadLine, WithRequirement, RequirementText, RequirementOk, LineText, Names, Laid;
    match e
    case Listed(l, r) =>
      RequirementShape(r);
      LineIsRead(s, l, RequirementText(r));
      RequirementIsRead(s, r, l);
    case Remark(l) =>
      PlainIsClosed("");
      LineIsRead(s, l, "");
      assert s.direct + {} == s.direct;
  }

  lemma {:induction false} EntriesAreRead(s: Reading, entries: seq<Entry>)
    requires s.block == "require" && forall i :: 0 <= i < |entries| ==> EntryOk(entries[i])
    ensures ReadLines(s, EntryLines(entries)) == Some(s.(direct := s.direct + EntriesNames(entries)))
    decreases |entries|
  {
    hide ReadLine, EntryOk, EntryText, EntryNames;
    if entries == [] {
      assert s.direct + {} == s.direct;
    } else {
      var n := |entries| - 1;
      var before := s.(direct := s.direct + EntriesNames(entries[..n]));
      EntriesAreRead(s, entries[..n]);
      EntryIsRead(before, entries[n]);
      assert EntryLines(entries)[..|EntryLines(entries)| - 1] == EntryLines(entries[..n]);
      assert before.direct + EntryNames(entries[n]) == s.direct + EntriesNames(entries);
    }
  }

  lemma {:induction false} BodyIsSkipped(s: Reading, body: seq<string>)
    requires s.block != "" && s.block != "require" && forall i :: 0 <= i < |body| ==> CodeOf(body[i]) != ")"
    ensures ReadLines(s, body) == Some(s)
    decreases |body|
  {
    hide TrimSpace, SplitComment;
    if body != [] {
      var n := |body| - 1;
      BodyIsSkipped(s, body[..n]);
      assert CodeOf(body[n]) != ")";
    }
  }

  predicate IsLower(s: string) { s != "" && forall i :: 0 <= i < |s| ==> 'a' <= s[i] <= 'z' }

  lemma LowerIsPlain(s: string)
    requires IsLower(s)
    ensures IsPlainWord(s) && IsTrimmed(s)
  {
  }

  lemma WordIsClosed(s: string)
    requires IsPlainWord(s)
    ensures Closed(s)
  {
    PlainIsClosed(s);
  }

  lemma KeywordIsPlain(keyword: string)
    requires IsBlockKeyword(keyword)
    ensures IsPlainWord(keyword)
  {
    hide IsPlainWord;
    assert IsLower(keyword) by {
      hide IsWord;
    }
    LowerIsPlain(keyword);
  }

  lemma SingleCode(s: Reading, code: string, comment: string, token: string, version: string)
    requires s.block == "" && IsTrimmed(code) && code != ""
    requires Fields(code) == ["require", token, version] && version != "("
    ensures ReadCode(s, code, comment) == WithRequirement(s, TrimSpace(TrimPrefix(code, "require")), comment)
  {
    hide Fields, WithRequirement, IsBlockKeyword, TrimSpace, TrimPrefix, IsSpace;
  }

  lemma OpensBlock(s: Reading, keyword: string, gap: string, l: Layout)
    requires s.block == "" && IsBlockKeyword(keyword) && IsGap(gap) && Laid(l, keyword + gap + "(")
    ensures ReadLine(s, LineText(l, keyword + gap + "(")) == Some(s.(block := keyword))
  {
    KeywordIsPlain(keyword);
    hide Fields, ReadLine, LineText, WithRequirement, IsBlockKeyword;
    PlainIsClosed(keyword);
    PlainIsClosed("(");
    ClosedWithGap(keyword, gap, "(");
    hide Closed;
    FieldsAfter(keyword, gap, "(");
    FieldsOfSingle("(");
    LineIsRead(s, l, keyword + gap + "(");
  }

  lemma ClosesBlock(s: Reading, l: Layout)
    requires s.block != "" && Laid(l, ")")
    ensures ReadLine(s, LineText(l, ")")) == Some(s.(block := ""))
  {
    hide Fields, ReadLine, LineText, WithRequirement;
    PlainIsClosed(")");
    hide Closed;
    LineIsRead(s, l, ")");
  }

  lemma SingleIsRead(s: Reading, l: Layout, gap: string, r: Requirement)
    requires s.block == "" && IsGap(gap) && RequirementOk(r) && Laid(l, "require" + gap + RequirementText(r))
    ensures ReadLine(s, LineText(l, "require" + gap + RequirementText(r))) == Some(s.(direct := s.direct + Names(r, l)))
  {
    var text := RequirementText(r);
    var core := "require" + gap + text;
    SingleShape(gap, r);
    hide Closed, Fields, ReadLine, ReadCode, LineText, WithRequirement, RequirementText, RequirementOk, Names, TrimSpace, TrimPrefix, IsSpace;
    LineIsRead(s, l, core);
    SingleCode(s, core, CommentText(l), TokenText(r.token), r.version);
    RequirementShape(r);
    AfterKeyword(gap, text);
    RequirementIsRead(s, r, l);
  }

  lemma SingleShape(gap: string, r: Requirement)
    requires IsGap(gap) && RequirementOk(r)
    ensures var core := "require" + gap + RequirementText(r);
            && Closed(core) && IsTrimmed(core) && core != "" && r.version != "("
            && Fields(core) == ["require", TokenText(r.token), r.version]
  {
    var text := RequirementText(r);
    assert r.version != "(";
    RequirementShape(r);
    hide Fields, RequirementText, RequirementOk, IsPlainWord;
    assert IsLower("require");
    LowerIsPlain("require");
    WordIsClosed("require");
    ClosedWithGap("require", gap, text);
    hide Closed, IsLower;
    FieldsAfter("require", gap, text);
    var core := "require" + gap + text;
    assert core[|core| - 1] == text[|text| - 1];
  }

  lemma AfterKeyword(gap: string, text: string)
    requires IsGap(gap) && text != "" && IsTrimmed(text)
    ensures TrimSpace(TrimPrefix("require" + gap + text, "require")) == text
  {
    hide TrimSpace;
    assert "require" + gap + text == "require" + (gap + text);
    TrimPrefixOfConcat("require", gap + text);
    TrimSpaceExposes(gap, text, "");
    assert gap + text + "" == gap + text;
  }

  lemma BlockIsRead(s: Reading, open: Layout, gap: string, entries: seq<Entry>, close: Layout)
    requires s.block == "" && ItemOk(Block(open, gap, entries, close))
    ensures ReadLines(s, ItemLines(Block(open, gap, entries, close))) == Some(s.(direct := s.direct + EntriesNames(entries)))
  {
    hide ReadLine, EntryOk, EntryLines, LineText, Laid, IsGap, EntriesNames, ReadLines;
    var first, last := LineText(open, "require" + gap + "("), LineText(close, ")");
    var inside := s.(block := "require");
    OpensBlock(s, "require", gap, open);
    ReadOne(s, first);
    EntriesAreRead(inside, entries);
    ReadConcat(s, [first], EntryLines(entries));
    var listed := inside.(direct := s.direct + EntriesNames(entries));
    ClosesBlock(listed, close);
    ReadOne(listed, last);
    ReadConcat(s, [first] + EntryLines(entries), [last]);
  }

  lemma SkippedIsRead(s: Reading, keyword: string, open: Layout, gap: string, body: seq<string>, close: Layout)
    requires s.block == "" && ItemOk(Skipped(keyword, open, gap, body, close))
    ensures ReadLines(s, ItemLines(Skipped(keyword, open, gap, body, close))) == Some(s)
  {
    hide ReadLine, LineText, Laid, IsGap, ReadLines, CodeOf;
    var first, last := LineText(open, keyword + gap + "("), LineText(close, ")");
    var inside := s.(block := keyword);
    OpensBlock(s, keyword, gap, open);
    ReadOne(s, first);
    BodyIsSkipped(inside, body);
    ReadConcat(s, [first], body);
    ClosesBlock(inside, close);
    ReadOne(inside, last);
    ReadConcat(s, [first] + body, [last]);
  }

  lemma ItemIsRead(s: Reading, item: Item)
    requires s.block == "" && ItemOk(item)
    ensures ReadLines(s, ItemLines(item)) == Some(s.(direct := s.direct + ItemNames(item)))
  {
    hide ReadLines, ReadLine, LineText, Laid, Names, RequirementOk, EntryLines, EntriesNames, Closed, Fields;
    assert s.direct + {} == s.direct;
    match item
    case Single(l, gap, r) =>
      SingleIsRead(s, l, gap, r);
      ReadOne(s, LineText(l, "require" + gap + RequirementText(r)));
    case Block(open, gap, entries, close) => BlockIsRead(s, open, gap, entries, close);
    case Skipped(keyword, open, gap, body, close) => SkippedIsRead(s, keyword, open, gap, body, close);
    case Comment(l) =>
      PlainIsClosed("");
      LineIsRead(s, l, "");
      ReadOne(s, LineText(l, ""));
    case Other(line) =>
      InertIsIgnored(s, line);
      ReadOne(s, line);
  }

  lemma InertIsIgnored(s: Reading, line: string)
    requires s.block == "" && IsInert(CodeOf(line))
    ensures ReadLine(s, line) == Some(s)
  {
    hide SplitComment, TrimSpace, WithRequirement;
  }

  lemma {:induction false} ItemsAreRead(s: Reading, items: seq<Item>)
    requires s.block == "" && forall i :: 0 <= i < |items| ==> ItemOk(items[i])
    ensures ReadLines(s, FileLines(items)) == Some(s.(direct := s.direct + FileNames(items)))
    decreases |items|
  {
    hide ItemOk, ItemLines, ItemNames, ReadLine;
    if items == [] {
      assert s.direct + {} == s.direct;
    } else {
      var n := |items| - 1;
      var before := s.(direct := s.direct + FileNames(items[..n]));
      ItemsAreRead(s, items[..n]);
      ItemIsRead(before, items[n]);
      ReadConcat(s, FileLines(items[..n]), ItemLines(items[n]));
      assert before.direct + ItemNames(items[n]) == s.direct + FileNames(items);
    }
  }

  lemma ModuleLineIsRead(s: Reading, l: Layout, gap: string, token: Token)
    requires s.block == "" && IsGap(gap) && Writable(token) && Laid(l, "module" + gap + TokenText(token))
    ensures ReadLine(s, LineText(l, "module" + gap + TokenText(token))) == Some(s.(mainModule := token.path))
  {
    hide Fields, ReadLine, LineText, WithRequirement, TokenText, Writable, UnquoteToken, IsPlainWord;
    TokenRoundTrip(token);
    PlainIsClosed("module");
    ClosedWithGap("module", gap, TokenText(token));
    hide Closed;
    FieldsAfter("module", gap, TokenText(token));
    FieldsOfSingle(TokenText(token));
    LineIsRead(s, l, "module" + gap + TokenText(token));
  }

  /**
   Whatever the layout, the comments, the quoting and the skipped blocks, reading a written file gives
   back the module path and exactly the paths required without the marker.
   */
  lemma FileRoundTrip(before: seq<Item>, l: Layout, gap: string, token: Token, after: seq<Item>)
    requires forall i :: 0 <= i < |before| ==> ItemOk(before[i])
    requires forall i :: 0 <= i < |after| ==> ItemOk(after[i])
    requires IsGap(gap) && Writable(token) && token.path != "" && Laid(l, "module" + gap + TokenText(token))
    ensures ReadGoMod(FileLines(before) + [LineText(l, "module" + gap + TokenText(token))] + FileLines(after)) ==
            Some((token.path, FileNames(before) + FileNames(after)))
  {
    hide ReadLines, ReadLine, FileLines, FileNames, ItemOk, LineText, TokenText, Writable, Laid, IsGap;
    var line := LineText(l, "module" + gap + TokenText(token));
    var s := Reading("", "", FileNames(before));
    var t := s.(mainModule := token.path);
    ItemsAreRead(START, before);
    assert START.(direct := START.direct + FileNames(before)) == s;
    ModuleLineIsRead(s, l, gap, token);
    ReadOne(s, line);
    ReadConcat(START, FileLines(before), [line]);
    ItemsAreRead(t, after);
    ReadConcat(START, FileLines(before) + [line], FileLines(after));
  }

  // ---------------------------------------------------------------- files that are refused

  /** Only its own lines are refused in a file that is otherwise as written. */
  lemma RefusedAfter(items: seq<Item>, line: string, rest: seq<string>)
    requires forall i :: 0 <= i < |items| ==> ItemOk(items[i])
    requires forall s: Reading :: s.block == "" ==> ReadLine(s, line) == None
    ensures ReadGoMod(FileLines(items) + [line] + rest) == None
  {
    hide ReadLines, ReadLine, FileLines, FileNames, ItemOk;
    ItemsAreRead(START, items);
    var s := START.(direct := START.direct + FileNames(items));
    ReadOne(s, line);
    ReadConcat(START, FileLines(items), [line]);
    ReadConcat(START, FileLines(items) + [line], rest);
  }

  /** A required path needs a version, and the module line a path. */
  lemma VersionlessRequirementRefuses(items: seq<Item>, l: Layout, gap: string, token: Token, rest: seq<string>)
    requires forall i :: 0 <= i < |items| ==> ItemOk(items[i])
    requires IsGap(gap) && Writable(token) && Laid(l, "require" + gap + TokenText(token)) && TokenText(token) != "("
    ensures ReadGoMod(FileLines(items) + [LineText(l, "require" + gap + TokenText(token))] + rest) == None
  {
    var line := LineText(l, "require" + gap + TokenText(token));
    hide ItemOk, FileLines, LineText, ReadLine;
    forall s: Reading | s.block == "" ensures ReadLine(s, line) == None { VersionlessLine(s, l, gap, token); }
    RefusedAfter(items, line, rest);
  }

  lemma VersionlessShape(gap: string, token: Token)
    requires IsGap(gap) && Writable(token)
    ensures var text := TokenText(token);
            var core := "require" + gap + text;
            && Closed(core) && IsTrimmed(core) && core != "" && text != "" && IsTrimmed(text)
            && Fields(core) == ["require", text] && Fields(text) == [text]
  {
    TokenRoundTrip(token);
    assert IsLower("require");
    LowerIsPlain("require");
    WordIsClosed("require");
    var text := TokenText(token);
    assert IsWord("require") && !IsSpace("require"[0]) && !IsSpace(text[|text| - 1]);
    hide Fields, TokenText, Writable, UnquoteToken, IsPlainWord, IsLower, IsSpace, IsWord, Closed;
    ClosedWithGap("require", gap, text);
    FieldsAfter("require", gap, text);
    FieldsOfSingle(text);
    var core := "require" + gap + text;
    assert core[0] == "require"[0] && core[|core| - 1] == text[|text| - 1];
  }

  lemma VersionlessLine(s: Reading, l: Layout, gap: string, token: Token)
    requires s.block == "" && IsGap(gap) && Writable(token) && Laid(l, "require" + gap + TokenText(token)) && TokenText(token) != "("
    ensures ReadLine(s, LineText(l, "require" + gap + TokenText(token))) == None
  {
    var text := TokenText(token);
    VersionlessShape(gap, token);
    hide Fields, LineText, ReadLine, TokenText, Writable, UnquoteToken, TrimSpace, TrimPrefix, Closed, Laid, IsSpace;
    AfterKeyword(gap, text);
    LineIsRead(s, l, "require" + gap + text);
  }

  lemma PathlessModuleRefuses(items: seq<Item>, l: Layout, rest: seq<string>)
    requires (forall i :: 0 <= i < |items| ==> ItemOk(items[i])) && Laid(l, "module")
    ensures ReadGoMod(FileLines(items) + [LineText(l, "module")] + rest) == None
  {
    var line := LineText(l, "module");
    hide ItemOk, FileLines, LineText, ReadLine;
    forall s: Reading | s.block == "" ensures ReadLine(s, line) == None { PathlessLine(s, l); }
    RefusedAfter(items, line, rest);
  }

  lemma PathlessLine(s: Reading, l: Layout)
    requires s.block == "" && Laid(l, "module")
    ensures ReadLine(s, LineText(l, "module")) == None
  {
    assert IsLower("module");
    LowerIsPlain("module");
    WordIsClosed("module");
    hide Fields, LineText, ReadLine, TrimSpace, Closed, IsLower;
    FieldsOfSingle("module");
    LineIsRead(s, l, "module");
  }

  /** So is a file without a module line. */
  lemma MissingModuleRefuses(items: seq<Item>)
    requires forall i :: 0 <= i < |items| ==> ItemOk(items[i])
    ensures ReadGoMod(FileLines(items)) == None
  {
    hide ReadLines, FileLines, FileNames, ItemOk;
    ItemsAreRead(START, items);
  }

  // ---------------------------------------------------------------- a file as the Go tool writes it

  const SMALL_FILE := [
    "module example.com/m",
    "require (",
    "\tgithub.com/a/b v1.2.3",
    "\tgithub.com/c/d v0.1.0 // indirect",
    ")"
  ]

  const ON_ITS_OWN := Layout("", "", None)
  const INDENTED := Layout("\t", "", None)
  const MARKED := Layout("\t", " ", Some(" indirect"))

  const LISTED := Requirement(Bare("github.com/a/b"), " ", "v1.2.3")
  const INDIRECT := Requirement(Bare("github.com/c/d"), " ", "v0.1.0")

  lemma PathIsPlain(s: string)
    requires s != "" && forall i :: 0 <= i < |s| ==> '.' <= s[i] <= '9' || 'a' <= s[i] <= 'z'
    requires forall i :: 0 <= i < |s| - 1 ==> !(s[i] == '/' && s[i + 1] == '/')
    ensures IsPlainWord(s) && s != "("
  {
    forall c | c in s ensures c != '"' && c != '`' {}
    assert forall i :: 0 <= i < |s| ==> !IsSpace(s[i]);
    assert s[0] != "("[0];
  }

  lemma SmallWords()
    ensures IsPlainWord("example.com/m")
    ensures RequirementOk(LISTED) && RequirementOk(INDIRECT)
  {
    hide IsPlainWord;
    PathIsPlain("example.com/m");
    PathIsPlain("github.com/a/b");
    PathIsPlain("github.com/c/d");
    PathIsPlain("v1.2.3");
    PathIsPlain("v0.1.0");
  }

  lemma BareEntry(l: Layout, path: string, version: string)
    requires l.indent == "\t" && l.space == (if l.comment.Some? then " " else "")
    ensures EntryText(Listed(l, Requirement(Bare(path), " ", version))) ==
            "\t" + path + " " + version + if l.comment.Some? then " //" + l.comment.value else ""
    ensures Laid(l, RequirementText(Requirement(Bare(path), " ", version)))
  {
    assert AllSpace("\t") && AllSpace(" ") && AllSpace("");
    hide IsSpace;
    assert l.comment.Some? ==> " " + ("//" + l.comment.value) == " //" + l.comment.value;
  }

  lemma ListedText()
    ensures EntryText(Listed(INDENTED, LISTED)) == "\tgithub.com/a/b v1.2.3" && Laid(INDENTED, RequirementText(LISTED))
  {
    hide EntryText, Laid, RequirementText;
    BareEntry(INDENTED, "github.com/a/b", "v1.2.3");
    assert "\t" + "github.com/a/b" == "\tgithub.com/a/b";
  }

  lemma IndirectText()
    ensures EntryText(Listed(MARKED, INDIRECT)) == "\tgithub.com/c/d v0.1.0 // indirect" && Laid(MARKED, RequirementText(INDIRECT))
  {
    hide EntryText, Laid, RequirementText;
    BareEntry(MARKED, "github.com/c/d", "v0.1.0");
    assert "\t" + "github.com/c/d" == "\tgithub.com/c/d";
    assert "\tgithub.com/c/d" + " " + "v0.1.0" == "\tgithub.com/c/d v0.1.0";
    assert " //" + " indirect" == " // indirect";
  }

  lemma SmallNames()
    ensures EntryNames(Listed(INDENTED, LISTED)) == {"github.com/a/b"} && EntryNames(Listed(MARKED, INDIRECT)) == {}
  {
    assert " " + "indirect" + "" == " indirect";
    assert IsMarker(" indirect", " ", "");
  }

  lemma TwoEntries(a: Entry, b: Entry)
    ensures EntryLines([a, b]) == [EntryText(a), EntryText(b)] && EntriesNames([a, b]) == EntryNames(a) + EntryNames(b)
  {
    hide EntryText, EntryNames;
    assert [a, b][..1] == [a] && [a][..0] == [];
    assert EntryLines([a]) == EntryLines([]) + [EntryText(a)] && EntriesNames([a]) == EntriesNames([]) + EntryNames(a);
  }

  /** One path is required in a block, indented with a tab; the other carries the marker. */
  lemma SmallFileIsRead()
    ensures ReadGoMod(SMALL_FILE) == Some(("example.com/m", {"github.com/a/b"}))
  {
    var token := Bare("example.com/m");
    var entries := [Listed(INDENTED, LISTED), Listed(MARKED, INDIRECT)];
    var items := [Block(ON_ITS_OWN, " ", entries, ON_ITS_OWN)];
    SmallWords();
    ListedText();
    IndirectText();
    SmallNames();
    TwoEntries(entries[0], entries[1]);
    hide RequirementOk, RequirementText, IsPlainWord, EntryLines, EntriesNames, EntryText, EntryNames, Laid, ReadGoMod, LineText;
    assert forall i :: 0 <= i < |entries| ==> EntryOk(entries[i]);
    SmallLayouts();
    FileRoundTrip([], ON_ITS_OWN, " ", token, items);
    assert items[..0] == [];
    assert FileLines([]) == [] && FileNames([]) == {};
    assert FileLines(items) == ItemLines(items[0]) && FileNames(items) == EntriesNames(entries);
    assert FileLines([]) + ["module example.com/m"] + FileLines(items) == SMALL_FILE;
  }

  lemma SmallLayouts()
    ensures Laid(ON_ITS_OWN, "module" + " " + "example.com/m") && Laid(ON_ITS_OWN, "require" + " " + "(") && Laid(ON_ITS_OWN, ")")
    ensures LineText(ON_ITS_OWN, "module" + " " + "example.com/m") == "module example.com/m"
    ensures LineText(ON_ITS_OWN, "require" + " " + "(") == "require (" && LineText(ON_ITS_OWN, ")") == ")"
    ensures IsGap(" ")
  {
  }
}
