/** The small Rust lexer that finds test-only module bodies
    (`scan_test_modules` in `affected.rs`).

    Sources are UTF-8; every `char` here stands for one byte. */
module Lexer {
  import opened Outcome

  // ----- Searching -----

  predicate StartsWith(s: string, i: nat, text: string) {
    i + |text| <= |s| && s[i..i + |text|] == text
  }

  /** The first place at or after `i` where `text` stands. */
  function Find(s: string, i: nat, text: string): (at: Option<nat>)
    ensures at.Some? ==> i <= at.value && StartsWith(s, at.value, text)
    decreases |s| - i
  {
    if StartsWith(s, i, text) then Some(i)
    else if i >= |s| then None
    else Find(s, i + 1, text)
  }

  /** Not a UTF-8 continuation byte. */
  predicate Boundary(s: string, i: nat)
    requires i < |s|
  {
    !(0x80 <= s[i] as int < 0xC0)
  }

  function EncodedLength(lead: char): nat {
    if (lead as int) < 0x80 then 1
    else if (lead as int) < 0xE0 then 2
    else if (lead as int) < 0xF0 then 3
    else 4
  }

  /** The length of the white space character at `i`, or 0. */
  function SpaceAt(s: string, i: nat): nat {
    if i >= |s| then 0
    else if s[i] == ' ' || '\t' <= s[i] <= '\r' then 1
    else if StartsWith(s, i, "\U{C2}\U{85}") || StartsWith(s, i, "\U{C2}\U{A0}") then 2
    else if StartsWith(s, i, "\U{E1}\U{9A}\U{80}") || StartsWith(s, i, "\U{E3}\U{80}\U{80}") then 3
    else if StartsWith(s, i, "\U{E2}\U{80}") && i + 2 < |s| && WideSpace(s[i + 2]) then 3
    else if StartsWith(s, i, "\U{E2}\U{81}\U{9F}") then 3
    else 0
  }

  predicate WideSpace(c: char) {
    '\U{80}' <= c <= '\U{8A}' || c == '\U{A8}' || c == '\U{A9}' || c == '\U{AF}'
  }

  /** `trim_start`. */
  function SkipSpace(s: string, i: nat): (j: nat)
    ensures i <= j && (i <= |s| ==> j <= |s|)
    decreases |s| - i
  {
    if SpaceAt(s, i) > 0 then SkipSpace(s, i + SpaceAt(s, i)) else i
  }

  // ----- Literals and comments -----

  function LineEnd(s: string, i: nat): nat {
    if Find(s, i, "\n").Some? then Find(s, i, "\n").value else |s|
  }

  /** The end of the nested block comment at `j`, `depth` levels deep. */
  function BlockEnd(s: string, j: nat, depth: nat): (end: nat)
    requires j <= |s|
    ensures j <= end <= |s|
    decreases |s| - j
  {
    if j >= |s| then j
    else if StartsWith(s, j, "/*") then BlockEnd(s, j + 2, depth + 1)
    else if StartsWith(s, j, "*/") then
      if depth <= 1 then j + 2 else BlockEnd(s, j + 2, depth - 1)
    else BlockEnd(s, j + 1, depth)
  }

  method SkipBlock(s: string, i: nat) returns (end: nat)
    requires i <= |s|
    ensures end == BlockEnd(s, i, 0)
  {
    var depth: nat := 0;
    var j := i;
    while j < |s|
      invariant i <= j <= |s|
      invariant BlockEnd(s, i, 0) == BlockEnd(s, j, depth)
    {
      if StartsWith(s, j, "/*") {
        depth := depth + 1;
        j := j + 2;
      } else if StartsWith(s, j, "*/") {
        depth := if depth == 0 then 0 else depth - 1;
        j := j + 2;
        if depth == 0 {
          break;
        }
      } else {
        j := j + 1;
      }
    }
    end := j;
  }

  /** The end of the literal whose next byte is `j`, honouring escapes. */
  function QuotedEnd(s: string, j: nat, quote: char): (end: nat)
    ensures j <= |s| ==> j <= end
    ensures end <= |s|
    decreases |s| - j
  {
    if j >= |s| then |s|
    else if s[j] == '\\' then QuotedEnd(s, j + 2, quote)
    else if s[j] == quote then j + 1
    else QuotedEnd(s, j + 1, quote)
  }

  method SkipQuoted(s: string, open: nat, quote: char) returns (end: nat)
    ensures end == QuotedEnd(s, open + 1, quote)
  {
    var j := open + 1;
    while j < |s|
      invariant QuotedEnd(s, open + 1, quote) == QuotedEnd(s, j, quote)
      decreases |s| - j
    {
      if s[j] == '\\' {
        j := j + 2;
      } else if s[j] == quote {
        return j + 1;
      } else {
        j := j + 1;
      }
    }
    return |s|;
  }

  function Hashes(s: string, i: nat): (n: nat)
    ensures i <= |s| ==> i + n <= |s|
    decreases |s| - i
  {
    if i < |s| && s[i] == '#' then 1 + Hashes(s, i + 1) else 0
  }

  /** `raw_string_open`: the hash count and the place of the quote. */
  function RawStringOpen(s: string, i: nat): Option<(nat, nat)>
    requires i <= |s|
  {
    var after := if StartsWith(s, i, "br") then 2 else if StartsWith(s, i, "r") then 1 else 0;
    if after == 0 then None
    else
      var hashes := Hashes(s, i + after);
      var quote := i + after + hashes;
      if quote < |s| && s[quote] == '"' then Some((hashes, quote)) else None
  }

  function Closing(hashes: nat): string {
    "\"" + seq(hashes, _ => '#')
  }

  function RawStringEnd(s: string, hashes: nat, quote: nat): nat {
    var close := Find(s, quote + 1, Closing(hashes));
    if close.Some? then close.value + |Closing(hashes)| else |s|
  }

  // ----- Attributes -----

  const TEST := "#[cfg(test)]"

  predicate TestAttribute(s: string, i: nat) {
    StartsWith(s, i, TEST)
  }

  /** An `#[ignore]` attribute, with the place of its closing bracket. */
  function IgnoreEnd(s: string, i: nat): Option<nat> {
    if StartsWith(s, i, "#[ignore]") || StartsWith(s, i, "#[ignore ") || StartsWith(s, i, "#[ignore=") then
      Find(s, i, "]")
    else None
  }

  /** Skip white space and outer attributes; None for an unclosed attribute or,
      when `pathless`, for a `#[path]`. */
  function SkipAttributes(s: string, i: nat, pathless: bool): (at: Option<nat>)
    requires i <= |s|
    ensures at.Some? ==> i <= at.value <= |s|
    decreases |s| - i
  {
    var j := SkipSpace(s, i);
    if !StartsWith(s, j, "#[") then Some(j)
    else if pathless && StartsWith(s, j, "#[path") then None
    else
      var close := Find(s, j, "]");
      if close == None then None else SkipAttributes(s, close.value + 1, pathless)
  }

  method AfterAttributes(s: string, from: nat, pathless: bool) returns (at: Option<nat>)
    requires from <= |s|
    ensures at == SkipAttributes(s, from, pathless)
  {
    var i := from;
    while true
      invariant from <= i <= |s|
      invariant SkipAttributes(s, from, pathless) == SkipAttributes(s, i, pathless)
      decreases |s| - i
    {
      var j := SkipSpace(s, i);
      if !StartsWith(s, j, "#[") {
        return Some(j);
      }
      if pathless && StartsWith(s, j, "#[path") {
        return None;
      }
      var close := Find(s, j, "]");
      if close.None? {
        return None;
      }
      i := close.value + 1;
    }
  }

  datatype TestMod = Inline(brace: nat) | OutOfLine(name: string) | Other

  predicate IdentByte(c: char) {
    '0' <= c <= '9' || 'a' <= c <= 'z' || 'A' <= c <= 'Z' || c == '_'
  }

  function IdentEnd(s: string, i: nat): (j: nat)
    ensures i <= j && (i <= |s| ==> j <= |s|)
    decreases |s| - i
  {
    if i < |s| && IdentByte(s[i]) then IdentEnd(s, i + 1) else i
  }

  /** Skip `pub` or `pub(..)`. */
  function SkipVisibility(s: string, i: nat): (at: Option<nat>)
    requires i <= |s|
    ensures at.Some? ==> i <= at.value <= |s|
  {
    if !StartsWith(s, i, "pub") then Some(i)
    else if StartsWith(s, i + 3, "(") then
      var close := Find(s, i + 3, ")");
      if close == None then None else Some(SkipSpace(s, close.value + 1))
    else Some(SkipSpace(s, i + 3))
  }

  /** `mod name {` or `mod name;` at `i`. */
  function ModItem(s: string, i: nat): TestMod
    requires i <= |s|
  {
    if !StartsWith(s, i, "mod") || SpaceAt(s, i + 3) == 0 then Other
    else
      var name := SkipSpace(s, i + 3);
      var end := IdentEnd(s, name);
      var next := SkipSpace(s, end);
      if end == name then Other
      else if StartsWith(s, next, "{") then Inline(next)
      else if StartsWith(s, next, ";") then OutOfLine(s[name..end])
      else Other
  }

  /** `test_mod_item`: what the `#[cfg(test)]` ending at `from` is attached to. */
  function TestModItem(s: string, from: nat): TestMod
    requires from <= |s|
  {
    var at := SkipAttributes(s, from, true);
    if at == None then Other
    else
      var item := SkipVisibility(s, at.value);
      if item == None then Other else ModItem(s, item.value)
  }

  /** `ignored_fn_brace`: the body brace of the function after an `#[ignore]`. */
  function IgnoredBrace(s: string, from: nat): Option<nat>
    requires from <= |s|
  {
    var at := SkipAttributes(s, from, false);
    if at == None then None
    else
      var brace := Find(s, at.value, "{");
      if brace == None then None
      else
        var header := s[at.value..brace.value];
        if StartsWith(header, 0, "fn ") || Find(header, 0, " fn ").Some? then brace else None
  }

  // ----- One step of the scan -----

  /** What the scan takes byte `i` for. */
  datatype Token =
    | Continuation
    | LineComment
    | BlockComment
    | RawString(hashes: nat, quote: nat)
    | Quoted
    | Apostrophe
    | TestAttr
    | IgnoreAttr(end: nat)
    | OpenBrace
    | CloseBrace
    | Plain

  function TokenAt(s: string, i: nat): Token
    requires i < |s|
  {
    if !Boundary(s, i) then Continuation
    else if StartsWith(s, i, "//") then LineComment
    else if StartsWith(s, i, "/*") then BlockComment
    else if (s[i] == 'r' || s[i] == 'b') && RawStringOpen(s, i).Some? then
      RawString(RawStringOpen(s, i).value.0, RawStringOpen(s, i).value.1)
    else if s[i] == '"' then Quoted
    else if s[i] == '\'' then Apostrophe
    else if TestAttribute(s, i) then TestAttr
    else if IgnoreEnd(s, i).Some? then IgnoreAttr(IgnoreEnd(s, i).value)
    else if s[i] == '{' then OpenBrace
    else if s[i] == '}' then CloseBrace
    else Plain
  }

  /** A char literal ('x', '\n', '{') is skipped; a lifetime is not. */
  function AfterApostrophe(s: string, i: nat): nat
    requires i < |s|
  {
    if i + 1 < |s| && s[i + 1] == '\\' then QuotedEnd(s, i + 1, '\'')
    else if i + 1 < |s| then
      var after := i + 1 + EncodedLength(s[i + 1]);
      if after < |s| && s[after] == '\'' then after + 1 else i + 1
    else i + 1
  }

  /** Where the scan goes after byte `i`: always forward. */
  function Next(s: string, i: nat): (next: nat)
    requires i < |s|
    ensures i < next <= |s|
  {
    match TokenAt(s, i)
    case LineComment => LineEnd(s, i)
    case BlockComment => BlockEnd(s, i, 0)
    case RawString(hashes, quote) => RawStringEnd(s, hashes, quote)
    case Quoted => QuotedEnd(s, i + 1, '"')
    case Apostrophe => AfterApostrophe(s, i)
    case TestAttr => i + |TEST|
    case IgnoreAttr(end) => end + 1
    case _ => i + 1
  }

  // ----- The scan -----

  /** An open brace: the place of a tracked body, and whether it is ignored. */
  datatype Open = Tracked(start: nat, ignored: bool) | Untracked

  datatype Scan = Scan(
    ranges: seq<(nat, nat)>,
    decls: seq<string>,
    ignored: seq<(nat, nat)>,
    stack: seq<Open>,
    testBrace: Option<nat>,
    ignoreBrace: Option<nat>)

  const START := Scan([], [], [], [], None, None)

  /** What looking at byte `i` does to the scan. */
  function Look(s: string, i: nat, t: Scan): Scan
    requires i < |s|
  {
    match TokenAt(s, i)
    case TestAttr => Announce(t, TestModItem(s, i + |TEST|))
    case IgnoreAttr(end) => t.(ignoreBrace := IgnoredBrace(s, end + 1))
    case OpenBrace => Push(t, i)
    case CloseBrace => Pop(t, i)
    case _ => t
  }

  function Announce(t: Scan, item: TestMod): Scan {
    match item
    case Inline(brace) => t.(testBrace := Some(brace))
    case OutOfLine(name) => t.(testBrace := None, decls := t.decls + [name])
    case Other => t.(testBrace := None)
  }

  function Push(t: Scan, i: nat): Scan {
    if t.testBrace == Some(i) then t.(testBrace := None, stack := t.stack + [Tracked(i, false)])
    else if t.ignoreBrace == Some(i) then t.(ignoreBrace := None, stack := t.stack + [Tracked(i, true)])
    else t.(stack := t.stack + [Untracked])
  }

  function Pop(t: Scan, i: nat): Scan {
    if t.stack == [] then t
    else
      var top := t.stack[|t.stack| - 1];
      var popped := t.(stack := t.stack[..|t.stack| - 1]);
      if top.Untracked? then popped
      else if top.ignored then popped.(ignored := t.ignored + [(top.start, i + 1)])
      else popped.(ranges := t.ranges + [(top.start, i + 1)])
  }

  function Run(s: string, i: nat, t: Scan): Scan
    requires i <= |s|
    decreases |s| - i
  {
    if i == |s| then t else Run(s, Next(s, i), Look(s, i, t))
  }

  lemma RunStep(s: string, i: nat, t: Scan)
    requires i < |s|
    ensures Run(s, i, t) == Run(s, Next(s, i), Look(s, i, t))
  {
  }

  lemma RunEnds(s: string, t: Scan)
    ensures Run(s, |s|, t) == t
  {
  }

  lemma TokenBounds(s: string, i: nat)
    requires i < |s|
    ensures TokenAt(s, i).TestAttr? ==> i + |TEST| <= |s|
    ensures TokenAt(s, i).IgnoreAttr? ==> TokenAt(s, i).end < |s|
  {
  }

  /** Move past the literal, comment, attribute or byte at `i`. */
  method Advance(s: string, i: nat) returns (next: nat)
    requires i < |s|
    ensures next == Next(s, i)
  {
    hide TokenAt, RawStringEnd, LineEnd, BlockEnd, QuotedEnd, AfterApostrophe;
    match TokenAt(s, i)
    case LineComment => next := LineEnd(s, i);
    case BlockComment => next := SkipBlock(s, i);
    case RawString(hashes, quote) => next := RawStringEnd(s, hashes, quote);
    case Quoted => next := SkipQuoted(s, i, '"');
    case Apostrophe => next := AfterApostrophe(s, i);
    case TestAttr => next := i + |TEST|;
    case IgnoreAttr(end) => next := end + 1;
    case _ => next := i + 1;
  }

  /** `scan_test_modules`. */
  method ScanTestModules(s: string) returns (ranges: seq<(nat, nat)>, decls: seq<string>, ignored: seq<(nat, nat)>)
    ensures
      var t := Run(s, 0, START);
      ranges == t.ranges && decls == t.decls && ignored == t.ignored
  {
    hide Run, Next, TestModItem, IgnoredBrace, TokenAt;
    ranges, decls, ignored := [], [], [];
    var stack: seq<Open> := [];
    var testBrace: Option<nat> := None;
    var ignoreBrace: Option<nat> := None;
    var i := 0;
    while i < |s|
      invariant 0 <= i <= |s|
      invariant Run(s, 0, START) == Run(s, i, Scan(ranges, decls, ignored, stack, testBrace, ignoreBrace))
      decreases |s| - i
    {
      TokenBounds(s, i);
      RunStep(s, i, Scan(ranges, decls, ignored, stack, testBrace, ignoreBrace));
      ghost var t := Look(s, i, Scan(ranges, decls, ignored, stack, testBrace, ignoreBrace));
      var token := TokenAt(s, i);
      if token.TestAttr? {
        var item := TestModItem(s, i + |TEST|);
        testBrace := if item.Inline? then Some(item.brace) else None;
        if item.OutOfLine? {
          decls := decls + [item.name];
        }
      } else if token.IgnoreAttr? {
        ignoreBrace := IgnoredBrace(s, token.end + 1);
      } else if token.OpenBrace? {
        if testBrace == Some(i) {
          testBrace := None;
          stack := stack + [Tracked(i, false)];
        } else if ignoreBrace == Some(i) {
          ignoreBrace := None;
          stack := stack + [Tracked(i, true)];
        } else {
          stack := stack + [Untracked];
        }
      } else if token.CloseBrace? && stack != [] {
        var top := stack[|stack| - 1];
        stack := stack[..|stack| - 1];
        if top.Tracked? && top.ignored {
          ignored := ignored + [(top.start, i + 1)];
        } else if top.Tracked? {
          ranges := ranges + [(top.start, i + 1)];
        }
      }
      assert t == Scan(ranges, decls, ignored, stack, testBrace, ignoreBrace);
      i := Advance(s, i);
    }
    RunEnds(s, Scan(ranges, decls, ignored, stack, testBrace, ignoreBrace));
  }
}
