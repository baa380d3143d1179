/** What `tree_digest` in `gmcp_evidence.rs` digests: the source tree, and the package
    manifest without the version of its package. */
module TreeDigest {
  import opened Slices
  import opened Utf8
  import opened Minifier

  /** An ideal digest: one for every text. */
  datatype Digest = Sha256(of: Bytes)

  const LF := 0x0A
  const OPEN := 0x5B
  const EQUALS := 0x3D

  // ----- Lines that keep their newline -----

  /** `split_inclusive`. */
  function Inclusive<T(==)>(s: seq<T>, mark: T): seq<seq<T>>
    decreases |s|
  {
    var n := First(s, mark);
    if s == [] then []
    else if n == |s| then [s]
    else [s[..n + 1]] + Inclusive(s[n + 1..], mark)
  }

  // ----- The tree -----

  predicate EndsWith(row: Bytes, end: Bytes) {
    |end| <= |row| && row[|row| - |end|..] == end
  }

  /** The row of the manifest in a listing of the tree. */
  function ManifestRow(): Bytes {
    [0x09] + Ascii("crates/susi-gmcp/Cargo.toml") + [0x0A]
  }

  function TreePart(rows: seq<Bytes>): Bytes {
    if rows == [] then []
    else
      var last := rows[|rows| - 1];
      TreePart(rows[..|rows| - 1]) + if EndsWith(last, ManifestRow()) then [] else last
  }

  function Heading(): Bytes {
    Ascii("susi-gmcp manifest without package.version") + [0x0A]
  }

  // ----- The manifest -----

  predicate IsHeading(line: Text) {
    Trim(line) != [] && Trim(line)[0] == OPEN
  }

  function PackageHeading(): Text {
    AsText(Ascii("[package]"))
  }

  /** The line sets the key `version`. */
  predicate SetsVersion(line: Text) {
    var n := First(line, EQUALS as Scalar);
    n < |line| && Trim(line[..n]) == AsText(Ascii("version"))
  }

  /** The lines are in the package section after `line`. */
  function Section(package: bool, line: Text): bool {
    if IsHeading(line) then Trim(line) == PackageHeading() else package
  }

  function SectionAfter(lines: seq<Text>): bool {
    if lines == [] then false else Section(SectionAfter(lines[..|lines| - 1]), lines[|lines| - 1])
  }

  /** The line is left out, in the section that `before` leaves off in. */
  predicate Omitted(package: bool, line: Text) {
    Section(package, line) && SetsVersion(line)
  }

  function ManifestPart(lines: seq<Text>): Bytes {
    if lines == [] then []
    else
      var init, last := lines[..|lines| - 1], lines[|lines| - 1];
      ManifestPart(init) + if Omitted(SectionAfter(init), last) then [] else Encode(last)
  }

  function Rows(tree: Bytes): seq<Bytes> {
    Inclusive(tree, LF as Byte)
  }

  function Lined(manifest: Text): seq<Text> {
    Inclusive(manifest, LF as Scalar)
  }

  function DigestOf(tree: Bytes, manifest: Text): Digest {
    Sha256(TreePart(Rows(tree)) + Heading() + ManifestPart(Lined(manifest)))
  }

  /** `tree_digest`, feeding the digest row by row and line by line. */
  method ReadDigest(tree: Bytes, manifest: Text) returns (digest: Digest)
    ensures digest == DigestOf(tree, manifest)
  {
    hide Inclusive, EndsWith, ManifestRow, Heading, Section, Omitted, SetsVersion, IsHeading, PackageHeading, Encode;
    var fed: Bytes := [];
    var rows := Rows(tree);
    var i := 0;
    while i < |rows|
      invariant 0 <= i <= |rows|
      invariant fed == TreePart(rows[..i])
    {
      assert rows[..i + 1][..i] == rows[..i];
      if !EndsWith(rows[i], ManifestRow()) {
        fed := fed + rows[i];
      }
      i := i + 1;
    }
    assert rows[..i] == rows;
    fed := fed + Heading();
    ghost var start := fed;
    var lines := Lined(manifest);
    var package := false;
    i := 0;
    while i < |lines|
      invariant 0 <= i <= |lines|
      invariant package == SectionAfter(lines[..i])
      invariant fed == start + ManifestPart(lines[..i])
    {
      assert lines[..i + 1][..i] == lines[..i];
      LineStep(package, lines[i]);
      if IsHeading(lines[i]) {
        package := Trim(lines[i]) == PackageHeading();
      }
      if !(package && SetsVersion(lines[i])) {
        fed := fed + Encode(lines[i]);
      }
      i := i + 1;
    }
    assert lines[..i] == lines;
    return Sha256(fed);
  }

  lemma LineStep(package: bool, line: Text)
    ensures Section(package, line) == if IsHeading(line) then Trim(line) == PackageHeading() else package
    ensures Omitted(package, line) <==> Section(package, line) && SetsVersion(line)
  {
  }

  // ----- Only the version is left out -----

  /** A whole line, with the newline that ends it. */
  predicate IsLine(line: Text) {
    line != [] && First(line, LF as Scalar) == |line| - 1
  }

  /** The text stops at the end of a line. */
  predicate Whole(text: Text) {
    text == [] || text[|text| - 1] == LF
  }

  lemma {:induction false} FirstOf(s: Text, t: Text)
    requires First(s, LF as Scalar) < |s|
    ensures First(s + t, LF as Scalar) == First(s, LF as Scalar)
    decreases |s|
  {
    assert (s + t)[0] == s[0];
    if s[0] != LF {
      assert (s + t)[1..] == s[1..] + t;
      FirstOf(s[1..], t);
    }
  }

  lemma {:induction false} LinedConcat(a: Text, b: Text)
    requires Whole(a)
    ensures Lined(a + b) == Lined(a) + Lined(b)
    decreases |a|
  {
    if a == [] {
      assert a + b == b;
    } else {
      var n := First(a, LF as Scalar);
      LastNewline(a);
      FirstOf(a, b);
      assert (a + b)[..n + 1] == a[..n + 1];
      assert (a + b)[n + 1..] == a[n + 1..] + b;
      LinedConcat(a[n + 1..], b);
    }
  }

  lemma LastNewline(a: Text)
    requires a != [] && Whole(a)
    ensures First(a, LF as Scalar) < |a|
  {
  }

  lemma LinedOne(line: Text)
    requires IsLine(line)
    ensures Lined(line) == [line] && Whole(line)
  {
    var n := First(line, LF as Scalar);
    assert line[..n + 1] == line && line[n + 1..] == [];
    assert Inclusive(line[n + 1..], LF as Scalar) == [];
  }

  /** The rest of a manifest, in a section. */
  function Rest(package: bool, lines: seq<Text>): Bytes
    decreases |lines|
  {
    if lines == [] then []
    else (if Omitted(package, lines[0]) then [] else Encode(lines[0])) + Rest(Section(package, lines[0]), lines[1..])
  }

  lemma {:induction false} PartConcat(a: seq<Text>, b: seq<Text>)
    ensures ManifestPart(a + b) == ManifestPart(a) + Rest(SectionAfter(a), b)
    decreases |b|
  {
    hide Omitted, Section, Encode;
    if b == [] {
      assert a + b == a;
    } else {
      var a1 := a + [b[0]];
      assert a1[..|a|] == a;
      assert a1 + b[1..] == a + b;
      PartConcat(a1, b[1..]);
    }
  }

  lemma {:induction false} Cancel(a: Bytes, x: Bytes, y: Bytes, b: Bytes)
    ensures a + (x + b) == a + (y + b) <==> x == y
  {
    if a + (x + b) == a + (y + b) {
      assert (a + (x + b))[|a|..] == x + b;
      assert (a + (y + b))[|a|..] == y + b;
      assert |x| == |y|;
      assert (x + b)[..|x|] == x && (y + b)[..|y|] == y;
    }
  }

  lemma PartOf(before: Text, line: Text, after: Text)
    requires Whole(before) && IsLine(line) && !IsHeading(line)
    ensures
      var package := SectionAfter(Lined(before));
      ManifestPart(Lined(before + line + after))
      == ManifestPart(Lined(before))
         + ((if package && SetsVersion(line) then [] else Encode(line)) + Rest(package, Lined(after)))
  {
    hide Lined, ManifestPart, IsHeading, SetsVersion, Encode, First;
    LinedOne(line);
    assert before + line + after == before + (line + after);
    LinedConcat(before, line + after);
    LinedConcat(line, after);
    PartConcat(Lined(before), Lined(line + after));
    assert ([line] + Lined(after))[1..] == Lined(after);
  }

  /** Over one tree, changing one line of the manifest that is not a section heading
      keeps the digest exactly when it changes the version of the package to another
      version. */
  lemma OnlyTheVersionIsLeftOut(tree: Bytes, before: Text, line: Text, line': Text, after: Text)
    requires Whole(before) && IsLine(line) && IsLine(line') && !IsHeading(line) && !IsHeading(line')
    ensures DigestOf(tree, before + line + after) == DigestOf(tree, before + line' + after) <==>
              line == line' || (SectionAfter(Lined(before)) && SetsVersion(line) && SetsVersion(line'))
  {
    hide Lined, ManifestPart, IsHeading, SetsVersion, Encode, Rest, TreePart, Heading, Inclusive, SectionAfter, First;
    PartOf(before, line, after);
    PartOf(before, line', after);
    var package := SectionAfter(Lined(before));
    var fed := TreePart(Rows(tree)) + Heading();
    var x: Bytes := if package && SetsVersion(line) then [] else Encode(line);
    var y: Bytes := if package && SetsVersion(line') then [] else Encode(line');
    var start, rest := ManifestPart(Lined(before)), Rest(package, Lined(after));
    Cancel(start, x, y, rest);
    SamePrefix(fed, start + (x + rest), start + (y + rest));
    EncodedIsSome(line);
    EncodedIsSome(line');
    if Encode(line) == Encode(line') {
      EncodeInjective(line, line');
    }
  }

  lemma SamePrefix(a: Bytes, b: Bytes, c: Bytes)
    ensures a + b == a + c <==> b == c
  {
    if a + b == a + c {
      assert (a + b)[|a|..] == b && (a + c)[|a|..] == c;
    }
  }

  lemma EncodedIsSome(line: Text)
    requires IsLine(line)
    ensures Encode(line) != []
  {
  }

  // ----- Exactly what is digested -----

  /** The rows that are digested. */
  function KeptRows(rows: seq<Bytes>): seq<Bytes> {
    if rows == [] then []
    else
      var last := rows[|rows| - 1];
      KeptRows(rows[..|rows| - 1]) + if EndsWith(last, ManifestRow()) then [] else [last]
  }

  /** The lines that are digested. */
  function KeptLines(lines: seq<Text>): seq<Text> {
    if lines == [] then []
    else
      var init, last := lines[..|lines| - 1], lines[|lines| - 1];
      KeptLines(init) + if Omitted(SectionAfter(init), last) then [] else [last]
  }

  function Flatten(parts: seq<Bytes>): Bytes {
    if parts == [] then [] else parts[0] + Flatten(parts[1..])
  }

  function EncodeAll(lines: seq<Text>): (parts: seq<Bytes>)
    ensures |parts| == |lines| && forall i :: 0 <= i < |parts| ==> parts[i] == Encode(lines[i])
  {
    seq(|lines|, i requires 0 <= i < |lines| => Encode(lines[i]))
  }

  lemma {:induction false} FlattenConcat(a: seq<Bytes>, b: seq<Bytes>)
    ensures Flatten(a + b) == Flatten(a) + Flatten(b)
    decreases |a|
  {
    if a == [] {
      assert a + b == b;
    } else {
      assert (a + b)[1..] == a[1..] + b;
      FlattenConcat(a[1..], b);
    }
  }

  lemma FlattenMore(parts: seq<Bytes>, part: Bytes)
    ensures Flatten(parts + [part]) == Flatten(parts) + part && Flatten(parts + []) == Flatten(parts)
  {
    FlattenConcat(parts, [part]);
    assert Flatten([part]) == part + Flatten([part][1..]);
    assert parts + [] == parts;
  }

  lemma {:induction false} TreePartKeeps(rows: seq<Bytes>)
    ensures TreePart(rows) == Flatten(KeptRows(rows))
    ensures forall r :: r in KeptRows(rows) ==> r in rows
    decreases |rows|
  {
    hide EndsWith, ManifestRow, Flatten;
    if rows == [] {
      NothingFlat();
    } else {
      var init, last := rows[..|rows| - 1], rows[|rows| - 1];
      TreePartKeeps(init);
      FlattenMore(KeptRows(init), last);
      assert rows == init + [last];
    }
  }

  lemma NothingFlat()
    ensures Flatten([]) == []
  {
  }

  lemma {:induction false} ManifestPartKeeps(lines: seq<Text>)
    ensures ManifestPart(lines) == Flatten(EncodeAll(KeptLines(lines)))
    decreases |lines|
  {
    hide Omitted, Encode, Flatten;
    if lines == [] {
      assert EncodeAll(KeptLines(lines)) == [];
      NothingFlat();
    } else {
      var init, last := lines[..|lines| - 1], lines[|lines| - 1];
      ManifestPartKeeps(init);
      var kept := KeptLines(init);
      FlattenMore(EncodeAll(kept), Encode(last));
      assert EncodeAll(kept + [last]) == EncodeAll(kept) + [Encode(last)];
      assert kept + [] == kept;
    }
  }

  // ----- Lines are cut in one way only -----

  /** A line: a newline at its end or nowhere. */
  predicate IsCut<T(==)>(line: seq<T>, mark: T) {
    line != [] && forall i :: 0 <= i < |line| - 1 ==> line[i] != mark
  }

  predicate Ended<T(==)>(line: seq<T>, mark: T) {
    line != [] && line[|line| - 1] == mark
  }

  /** Lines of which only the last may lack its newline. */
  predicate AreLines<T(==)>(lines: seq<seq<T>>, mark: T) {
    && (forall i :: 0 <= i < |lines| ==> IsCut(lines[i], mark))
    && (forall i :: 0 <= i < |lines| - 1 ==> Ended(lines[i], mark))
  }

  lemma FirstCut<T>(s: seq<T>, mark: T)
    requires s != []
    ensures
      var n := First(s, mark);
      if n == |s| then IsCut(s, mark) else IsCut(s[..n + 1], mark) && Ended(s[..n + 1], mark)
  {
  }

  lemma {:induction false} InclusiveAreLines<T>(s: seq<T>, mark: T)
    ensures AreLines(Inclusive(s, mark), mark)
    ensures s != [] && s[|s| - 1] == mark ==> forall l :: l in Inclusive(s, mark) ==> Ended(l, mark)
    decreases |s|
  {
    hide IsCut, Ended;
    if s != [] {
      FirstCut(s, mark);
      if First(s, mark) < |s| {
        InclusiveAreLines(s[First(s, mark) + 1..], mark);
      }
    }
  }

  lemma {:induction false} FlattenLines(a: seq<Bytes>, b: seq<Bytes>)
    requires AreLines(a, LF as Byte) && AreLines(b, LF as Byte) && Flatten(a) == Flatten(b)
    ensures a == b
    decreases |a|
  {
    hide Ended, IsCut;
    if a == [] {
      FlattenSome(b);
    } else if b == [] {
      FlattenSome(a);
    } else {
      SameFirst(a, b);
      assert Flatten(a)[|a[0]|..] == Flatten(a[1..]) && Flatten(b)[|b[0]|..] == Flatten(b[1..]);
      TailLines(a);
      TailLines(b);
      FlattenLines(a[1..], b[1..]);
      assert a == [a[0]] + a[1..] && b == [b[0]] + b[1..];
    }
  }

  lemma FlattenSome(a: seq<Bytes>)
    requires AreLines(a, LF as Byte)
    ensures a != [] ==> Flatten(a) != []
  {
  }

  lemma TailLines(a: seq<Bytes>)
    requires AreLines(a, LF as Byte) && a != []
    ensures AreLines(a[1..], LF as Byte)
  {
    hide Ended, IsCut;
    forall i | 0 <= i < |a[1..]|
      ensures IsCut(a[1..][i], LF as Byte) && (i < |a[1..]| - 1 ==> Ended(a[1..][i], LF as Byte))
    {
      assert a[1..][i] == a[i + 1];
    }
  }

  /** A text of lines starts with the first, and holds no more unless that has its newline. */
  lemma FirstLine(a: seq<Bytes>)
    requires AreLines(a, LF as Byte) && a != []
    ensures a[0] != [] && |a[0]| <= |Flatten(a)| && Flatten(a)[..|a[0]|] == a[0]
    ensures forall i :: 0 <= i < |a[0]| - 1 ==> Flatten(a)[i] != LF
    ensures Flatten(a) == a[0] || Flatten(a)[|a[0]| - 1] == LF
  {
    assert IsCut(a[0], LF as Byte);
    if |a| == 1 {
      assert Flatten(a[1..]) == [];
    } else {
      assert Ended(a[0], LF as Byte);
    }
  }

  lemma NotLonger(a: seq<Bytes>, b: seq<Bytes>)
    requires AreLines(a, LF as Byte) && AreLines(b, LF as Byte) && a != [] && b != [] && Flatten(a) == Flatten(b)
    ensures |a[0]| >= |b[0]|
  {
    hide AreLines;
    FirstLine(a);
    FirstLine(b);
  }

  lemma SameFirst(a: seq<Bytes>, b: seq<Bytes>)
    requires AreLines(a, LF as Byte) && AreLines(b, LF as Byte) && a != [] && b != [] && Flatten(a) == Flatten(b)
    ensures a[0] == b[0]
  {
    hide AreLines;
    NotLonger(a, b);
    NotLonger(b, a);
    assert Flatten(a)[..|a[0]|] == a[0] && Flatten(b)[..|b[0]|] == b[0];
  }

  lemma {:induction false} EncodeKeepsNewlines(t: Text)
    requires LF !in t
    ensures LF !in Encode(t)
    decreases |t|
  {
    if t != [] {
      EncodeKeepsNewlines(t[1..]);
      assert LF !in EncodeOne(t[0]);
    }
  }

  lemma EncodeIsCut(line: Text)
    requires IsCut(line, LF as Scalar)
    ensures IsCut(Encode(line), LF as Byte)
    ensures Ended(line, LF as Scalar) ==> Ended(Encode(line), LF as Byte)
  {
    var n := |line| - 1;
    var head := line[..n];
    assert LF !in head;
    EncodeKeepsNewlines(head);
    assert line == head + [line[n]];
    EncodeConcat(head, [line[n]]);
    assert Encode([line[n]]) == EncodeOne(line[n]) + [];
    OneIsCut(line[n]);
    var e := Encode(line);
    forall i | 0 <= i < |e| - 1
      ensures e[i] != LF
    {
      if i < |Encode(head)| {
        assert e[i] == Encode(head)[i];
        assert Encode(head)[i] in Encode(head);
      } else {
        assert e[i] == EncodeOne(line[n])[i - |Encode(head)|];
      }
    }
  }

  lemma OneIsCut(c: Scalar)
    ensures IsCut(EncodeOne(c), LF as Byte)
    ensures c == LF ==> EncodeOne(c) == [LF as Byte]
  {
  }

  lemma {:induction false} KeptAreLines(lines: seq<Text>)
    requires AreLines(lines, LF as Scalar)
    ensures AreLines(KeptLines(lines), LF as Scalar)
    ensures |KeptLines(lines)| > 0 && KeptLines(lines)[|KeptLines(lines)| - 1] != lines[|lines| - 1] ==>
              Ended(KeptLines(lines)[|KeptLines(lines)| - 1], LF as Scalar)
    decreases |lines|
  {
    hide Omitted, IsCut, Ended;
    if lines != [] {
      var init, last := lines[..|lines| - 1], lines[|lines| - 1];
      InitLines(lines);
      KeptAreLines(init);
      var kept := KeptLines(init);
      if kept != [] {
        LastEnded(init, kept[|kept| - 1]);
      }
    }
  }

  lemma InitLines(lines: seq<Text>)
    requires AreLines(lines, LF as Scalar) && lines != []
    ensures AreLines(lines[..|lines| - 1], LF as Scalar)
    ensures forall i {:trigger lines[i]} :: 0 <= i < |lines| - 1 ==> Ended(lines[i], LF as Scalar)
    ensures IsCut(lines[|lines| - 1], LF as Scalar)
  {
    hide IsCut, Ended;
  }

  lemma LastEnded(init: seq<Text>, line: Text)
    requires init != [] && forall i :: 0 <= i < |init| ==> Ended(init[i], LF as Scalar)
    requires line != init[|init| - 1] ==> Ended(line, LF as Scalar)
    ensures Ended(line, LF as Scalar)
  {
  }

  // ----- The two parts are told apart -----

  /** The lists agree up to their first heading, and past it. */
  lemma {:induction false} SplitAt(a: seq<Bytes>, b: seq<Bytes>, a': seq<Bytes>, b': seq<Bytes>, heading: Bytes)
    requires heading !in a && heading !in a'
    requires a + ([heading] + b) == a' + ([heading] + b')
    ensures a == a' && b == b'
  {
    var whole := a + ([heading] + b);
    var whole' := a' + ([heading] + b');
    assert whole[|a|] == heading && whole'[|a'|] == heading;
    assert forall i :: 0 <= i < |a| ==> whole[i] == a[i];
    assert forall i :: 0 <= i < |a'| ==> whole'[i] == a'[i];
    assert |a| == |a'|;
    assert whole[..|a|] == a && whole'[..|a'|] == a';
    assert whole[|a| + 1..] == b && whole'[|a'| + 1..] == b';
  }

  lemma {:induction false} SameEncodings(a: seq<Text>, b: seq<Text>)
    requires EncodeAll(a) == EncodeAll(b)
    ensures a == b
  {
    hide Encode;
    assert |a| == |EncodeAll(a)| == |EncodeAll(b)| == |b|;
    forall i | 0 <= i < |a|
      ensures a[i] == b[i]
    {
      assert Encode(a[i]) == EncodeAll(a)[i] == EncodeAll(b)[i] == Encode(b[i]);
      EncodeInjective(a[i], b[i]);
    }
  }

  /** The lines that are digested, in their order. */
  function Fed(tree: Bytes, manifest: Text): seq<Bytes> {
    KeptRows(Rows(tree)) + ([Heading()] + EncodeAll(KeptLines(Lined(manifest))))
  }

  /** The listing stops at the end of a row, and no row of it is the heading. */
  predicate IsListing(tree: Bytes) {
    (tree == [] || tree[|tree| - 1] == LF) && Heading() !in Rows(tree)
  }

  lemma FedIsDigested(tree: Bytes, manifest: Text)
    ensures DigestOf(tree, manifest) == Sha256(Flatten(Fed(tree, manifest)))
  {
    hide Inclusive, Heading, KeptRows, KeptLines, EncodeAll, TreePart, ManifestPart, Lined, Flatten;
    TreePartKeeps(Rows(tree));
    ManifestPartKeeps(Lined(manifest));
    var kept := EncodeAll(KeptLines(Lined(manifest)));
    FlattenConcat(KeptRows(Rows(tree)), [Heading()] + kept);
    FlattenMore([], Heading());
    assert [] + [Heading()] == [Heading()];
    NothingFlat();
    assert [] + Heading() == Heading();
    FlattenConcat([Heading()], kept);
  }

  lemma HeadingIsLine()
    ensures IsCut(Heading(), LF as Byte) && Ended(Heading(), LF as Byte)
  {
    var text := "susi-gmcp manifest without package.version";
    assert forall i :: 0 <= i < |text| ==> text[i] != '\n';
  }

  /** A row with its newline that is not the heading. */
  predicate IsRow(row: Bytes) {
    IsCut(row, LF as Byte) && Ended(row, LF as Byte) && row != Heading()
  }

  lemma KeptRowsEnd(tree: Bytes)
    requires IsListing(tree)
    ensures forall r :: r in KeptRows(Rows(tree)) ==> IsRow(r)
  {
    hide IsCut, Ended, KeptRows, Heading, TreePart, Flatten;
    InclusiveAreLines(tree, LF as Byte);
    var rows := Rows(tree);
    TreePartKeeps(rows);
    forall r | r in KeptRows(rows)
      ensures IsRow(r)
    {
      assert r in rows;
    }
  }

  lemma EncodedAreLines(lines: seq<Text>)
    requires AreLines(lines, LF as Scalar)
    ensures AreLines(EncodeAll(lines), LF as Byte)
  {
    hide IsCut, Ended, Encode;
    forall i | 0 <= i < |lines|
      ensures IsCut(EncodeAll(lines)[i], LF as Byte)
      ensures i < |lines| - 1 ==> Ended(EncodeAll(lines)[i], LF as Byte)
    {
      EncodeIsCut(lines[i]);
    }
  }

  lemma FedAreLines(tree: Bytes, manifest: Text)
    requires IsListing(tree)
    ensures AreLines(Fed(tree, manifest), LF as Byte)
  {
    hide IsCut, Ended, Encode, KeptRows, Inclusive, Heading, KeptLines, EncodeAll, IsListing, Lined;
    KeptRowsEnd(tree);
    HeadingIsLine();
    LinedAreLines(manifest);
    KeptAreLines(Lined(manifest));
    EncodedAreLines(KeptLines(Lined(manifest)));
    var rows := KeptRows(Rows(tree));
    var kept := EncodeAll(KeptLines(Lined(manifest)));
    var fed := Fed(tree, manifest);
    forall i | 0 <= i < |fed|
      ensures IsCut(fed[i], LF as Byte) && (i < |fed| - 1 ==> Ended(fed[i], LF as Byte))
    {
      if i < |rows| {
        assert fed[i] == rows[i] && rows[i] in rows;
      } else if i > |rows| {
        assert fed[i] == kept[i - |rows| - 1];
      }
    }
  }

  lemma LinedAreLines(manifest: Text)
    ensures AreLines(Lined(manifest), LF as Scalar)
  {
    hide AreLines, Inclusive;
    InclusiveAreLines(manifest, LF as Scalar);
  }

  /** Two listings and two manifests have one digest exactly when they have the same rows,
      apart from the row of the manifest, and the same manifest lines, apart from the
      version lines of the package section. */
  lemma DigestsAgreeExactly(tree: Bytes, manifest: Text, tree': Bytes, manifest': Text)
    requires IsListing(tree) && IsListing(tree')
    ensures DigestOf(tree, manifest) == DigestOf(tree', manifest') <==>
              KeptRows(Rows(tree)) == KeptRows(Rows(tree'))
              && KeptLines(Lined(manifest)) == KeptLines(Lined(manifest'))
  {
    hide DigestOf, AreLines, KeptRows, KeptLines, Inclusive, Lined, Heading, EncodeAll, Flatten, IsListing;
    FedIsDigested(tree, manifest);
    FedIsDigested(tree', manifest');
    if DigestOf(tree, manifest) == DigestOf(tree', manifest') {
      FedAreLines(tree, manifest);
      FedAreLines(tree', manifest');
      FlattenLines(Fed(tree, manifest), Fed(tree', manifest'));
      KeptRowsEnd(tree);
      KeptRowsEnd(tree');
      SplitAt(KeptRows(Rows(tree)), EncodeAll(KeptLines(Lined(manifest))),
              KeptRows(Rows(tree')), EncodeAll(KeptLines(Lined(manifest'))), Heading());
      SameEncodings(KeptLines(Lined(manifest)), KeptLines(Lined(manifest')));
    }
  }
}
