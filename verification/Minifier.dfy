/** The JSON minifier of the vendor-model build script: every line trimmed, and the
    lines joined. */
module Minifier {
  import opened Json
  import opened Slices
  import opened Utf8

  type Text = seq<Scalar>

  /** A byte text as characters. */
  function AsText(b: Bytes): Text {
    b
  }

  /** `char::is_whitespace`: Unicode's White_Space property. */
  predicate White(c: Scalar) {
    || 0x09 <= c <= 0x0D || c == 0x20 || c == 0x85 || c == 0xA0 || c == 0x1680
    || 0x2000 <= c <= 0x200A || c == 0x2028 || c == 0x2029 || c == 0x202F || c == 0x205F || c == 0x3000
  }

  function TrimStart(s: Text): Text {
    if s != [] && White(s[0]) then TrimStart(s[1..]) else s
  }

  function TrimEnd(s: Text): Text {
    if s != [] && White(s[|s| - 1]) then TrimEnd(s[..|s| - 1]) else s
  }

  function Trim(s: Text): Text {
    TrimEnd(TrimStart(s))
  }

  /** Where the first line of `s` ends. */
  function LineEnd(s: Text): (n: nat)
    ensures n <= |s| && NEWLINE !in s[..n] && (n < |s| ==> s[n] == NEWLINE)
  {
    First(s, NEWLINE as Scalar)
  }

  /** A line that a newline ended, without its carriage return. */
  function WithoutReturn(line: Text): Text {
    if line != [] && line[|line| - 1] == 0x0D then line[..|line| - 1] else line
  }

  /** `str::lines`. */
  function Lines(s: Text): seq<Text>
    decreases |s|
  {
    var n := LineEnd(s);
    if s == [] then []
    else if n == |s| then [s]
    else [WithoutReturn(s[..n])] + Lines(s[n + 1..])
  }

  function Joined(lines: seq<Text>): Text {
    if lines == [] then [] else Trim(lines[0]) + Joined(lines[1..])
  }

  function Minify(s: Text): Text {
    Joined(Lines(s))
  }

  // ----- Trimming -----

  lemma {:induction false} TrimEndDropsWhite(s: Text, w: Text)
    requires forall c :: c in w ==> White(c)
    ensures TrimEnd(s + w) == TrimEnd(s)
    decreases |w|
  {
    if w == [] {
      assert s + w == s;
    } else {
      assert (s + w)[..|s + w| - 1] == s + w[..|w| - 1];
      TrimEndDropsWhite(s, w[..|w| - 1]);
    }
  }

  lemma {:induction false} TrimStartDropsWhite(w: Text, s: Text)
    requires forall c :: c in w ==> White(c)
    ensures TrimStart(w + s) == TrimStart(s)
    decreases |w|
  {
    if w == [] {
      assert w + s == s;
    } else {
      assert (w + s)[1..] == w[1..] + s;
      TrimStartDropsWhite(w[1..], s);
    }
  }

  lemma {:induction false} TrimStartKeeps(s: Text, w: Text)
    requires exists i :: 0 <= i < |s| && !White(s[i])
    ensures TrimStart(s + w) == TrimStart(s) + w
    decreases |s|
  {
    assert (s + w)[0] == s[0];
    if White(s[0]) {
      var i :| 0 <= i < |s| && !White(s[i]);
      assert s[1..][i - 1] == s[i];
      assert (s + w)[1..] == s[1..] + w;
      TrimStartKeeps(s[1..], w);
    }
  }

  lemma {:induction false} AllWhite(s: Text)
    requires forall c :: c in s ==> White(c)
    ensures TrimStart(s) == []
  {
    if s != [] {
      AllWhite(s[1..]);
    }
  }

  lemma TrimDropsTail(s: Text, w: Text)
    requires forall c :: c in w ==> White(c)
    ensures Trim(s + w) == Trim(s)
  {
    if exists i :: 0 <= i < |s| && !White(s[i]) {
      TrimStartKeeps(s, w);
      TrimEndDropsWhite(TrimStart(s), w);
    } else {
      AllWhite(s);
      AllWhite(s + w);
    }
  }

  lemma TrimDropsHead(w: Text, s: Text)
    requires forall c :: c in w ==> White(c)
    ensures Trim(w + s) == Trim(s)
  {
    TrimStartDropsWhite(w, s);
  }

  /** Nothing to trim. */
  predicate Solid(s: Text) {
    s != [] && !White(s[0]) && !White(s[|s| - 1])
  }

  // ----- Lines -----

  lemma {:induction false} LineEndAt(line: Text, rest: Text)
    requires NEWLINE !in line
    ensures LineEnd(line + [NEWLINE] + rest) == |line| && LineEnd(line) == |line|
  {
    var s := line + [NEWLINE] + rest;
    if line != [] {
      assert s[1..] == line[1..] + [NEWLINE] + rest;
      LineEndAt(line[1..], rest);
    }
  }

  /** The first line ends at the first newline. */
  lemma LineByLine(line: Text, rest: Text)
    requires NEWLINE !in line
    ensures Minify(line + [NEWLINE] + rest) == Trim(line) + Minify(rest)
  {
    var s := line + [NEWLINE] + rest;
    LineEndAt(line, rest);
    assert s[..|line|] == line && s[|line| + 1..] == rest;
    var first := WithoutReturn(line);
    assert Lines(s) == [first] + Lines(rest);
    assert ([first] + Lines(rest))[1..] == Lines(rest);
    if first != line {
      assert first + [0x0D] == line;
      TrimDropsTail(first, [0x0D]);
    }
  }

  lemma OneLine(line: Text)
    requires NEWLINE !in line
    ensures Minify(line) == Trim(line)
  {
    LineEndAt(line, []);
    if line != [] {
      assert Lines(line) == [line];
      assert Joined([line]) == Trim(line) + Joined([line][1..]);
    }
  }

  /** White space at the start of a line does not matter. */
  lemma {:induction false} LeadingGap(w: Text, s: Text)
    requires forall c :: c in w ==> White(c)
    ensures Minify(w + s) == Minify(s)
    decreases |w|
  {
    hide Minify, Trim;
    if w == [] {
      assert w + s == s;
    } else {
      assert w + s == [w[0]] + (w[1..] + s);
      LeadingWhite(w[0], w[1..] + s);
      LeadingGap(w[1..], s);
    }
  }

  lemma LeadingWhite(c: Scalar, s: Text)
    requires White(c)
    ensures Minify([c] + s) == Minify(s)
  {
    hide Minify, TrimStart, TrimEnd;
    var n := LineEnd(s);
    if c == NEWLINE {
      assert [] + [NEWLINE] + s == [c] + s;
      LineByLine([], s);
      assert Trim([]) == [] by {
        TrimEmpty();
      }
    } else if n == |s| {
      assert s[..n] == s;
      OneLine([c] + s);
      OneLine(s);
      TrimDropsHead([c], s);
    } else {
      var line, rest := s[..n], s[n + 1..];
      assert s == line + [NEWLINE] + rest;
      assert [c] + s == [c] + line + [NEWLINE] + rest;
      LineByLine(line, rest);
      LineByLine([c] + line, rest);
      TrimDropsHead([c], line);
    }
  }

  lemma TrimEmpty()
    ensures Trim([]) == []
  {
  }

  /** A gap with a newline in it disappears, whatever stands before it on the line. */
  lemma BrokenGap(line: Text, w: Text, s: Text)
    requires NEWLINE !in line && NEWLINE in w
    requires forall c :: c in w ==> White(c)
    ensures Minify(line + w + s) == Trim(line) + Minify(s)
  {
    hide Minify, Trim;
    var n := LineEnd(w);
    assert w[..|w|] == w;
    assert n < |w|;
    var head, tail := w[..n], w[n + 1..];
    assert w == head + [NEWLINE] + tail;
    assert line + w + s == line + head + [NEWLINE] + (tail + s);
    LineByLine(line + head, tail + s);
    TrimDropsTail(line, head);
    LeadingGap(tail, s);
  }

  // ----- Minifying twice -----

  lemma {:induction false} LinesAreSingle(s: Text)
    ensures forall l :: l in Lines(s) ==> NEWLINE !in l
    decreases |s|
  {
    var n := LineEnd(s);
    if s != [] {
      if n < |s| {
        LinesAreSingle(s[n + 1..]);
      } else {
        assert s[..n] == s;
      }
    }
  }

  lemma {:induction false} TrimStartIsTail(s: Text)
    ensures |TrimStart(s)| <= |s| && TrimStart(s) == s[|s| - |TrimStart(s)|..]
    ensures TrimStart(s) != [] ==> !White(TrimStart(s)[0])
    decreases |s|
  {
    if s != [] && White(s[0]) {
      TrimStartIsTail(s[1..]);
    }
  }

  lemma {:induction false} TrimEndIsHead(s: Text)
    ensures TrimEnd(s) <= s && (TrimEnd(s) != [] ==> !White(TrimEnd(s)[|TrimEnd(s)| - 1]))
    decreases |s|
  {
    if s != [] && White(s[|s| - 1]) {
      TrimEndIsHead(s[..|s| - 1]);
    }
  }

  lemma TrimIsSolid(s: Text)
    ensures Trim(s) == [] || Solid(Trim(s))
    ensures NEWLINE !in s ==> NEWLINE !in Trim(s)
  {
    TrimStartIsTail(s);
    TrimEndIsHead(TrimStart(s));
  }

  lemma SolidTrims(line: Text)
    requires Solid(line)
    ensures Trim(line) == line
  {
  }

  lemma {:induction false} JoinedIsSolid(lines: seq<Text>)
    requires forall l :: l in lines ==> NEWLINE !in l
    ensures NEWLINE !in Joined(lines) && (Joined(lines) == [] || Solid(Joined(lines)))
    decreases |lines|
  {
    hide Trim, White;
    if lines != [] {
      TrimIsSolid(lines[0]);
      JoinedIsSolid(lines[1..]);
    }
  }

  /** Every minified text is one line, and minifying it again changes nothing. */
  lemma MinifyIsIdempotent(s: Text)
    ensures NEWLINE !in Minify(s) && Minify(Minify(s)) == Minify(s)
  {
    hide Trim, Lines, Joined;
    LinesAreSingle(s);
    JoinedIsSolid(Lines(s));
    var small := Minify(s);
    OneLine(small);
    if small == [] {
      TrimEmpty();
    } else {
      SolidTrims(small);
    }
  }
}
