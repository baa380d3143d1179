/** The text of a release manifest (`Package::open` in `package.rs`): a header line and
    one `name=value` line for every field, in any order. */
module Manifest {
  import opened Limits
  import opened Minifier
  import opened Outcome
  import opened Slices
  import opened Utf8

  datatype Problem =
    | UnsupportedManifest
    | InvalidField
    | DuplicateField
    | MissingField
    | OtherPlatform
    | InvalidIdentity
    | InvalidDigest
    | InvalidSize

  /** What the installer keeps of a manifest. */
  datatype Package = Package(artifact: Text, gates: Text, size: nat, sidecars: seq<(Text, Text)>)

  const EQUALS: Scalar := 0x3D
  const LF: Scalar := 0x0A
  const CR: Scalar := 0x0D

  function Ascii(s: string): Text {
    AsText(Utf8.Ascii(s))
  }

  // ----- Fields -----

  /** `split_once('=')`. */
  function Field(line: Text): Option<(Text, Text)> {
    var n := First(line, EQUALS);
    if n == |line| then None else Some((line[..n], line[n + 1..]))
  }

  function Fields(lines: seq<Text>): Result<map<Text, Text>, Problem> {
    if lines == [] then Ok(map[])
    else
      var init := Fields(lines[..|lines| - 1]);
      var field := Field(lines[|lines| - 1]);
      if init.Err? then init
      else if field.None? then Err(InvalidField)
      else if field.value.0 in init.value then Err(DuplicateField)
      else Ok(init.value[field.value.0 := field.value.1])
  }

  /** Every line is a field, and no name occurs twice. */
  predicate Distinct(lines: seq<Text>) {
    && (forall i :: 0 <= i < |lines| ==> Field(lines[i]).Some?)
    && (forall i, j :: 0 <= i < j < |lines| ==> Field(lines[i]).value.0 != Field(lines[j]).value.0)
  }

  predicate Sets(line: Text, name: Text, value: Text) {
    Field(line) == Some((name, value))
  }

  predicate Says(lines: seq<Text>, name: Text, value: Text) {
    exists i :: 0 <= i < |lines| && Sets(lines[i], name, value)
  }

  /** The map holds what the lines say, and nothing else. */
  ghost predicate Agrees(m: map<Text, Text>, lines: seq<Text>) {
    && (forall name :: name in m ==> Says(lines, name, m[name]))
    && (forall name, value :: Says(lines, name, value) ==> name in m && m[name] == value)
  }

  /** The lines are accepted exactly when they are distinct fields, and then the map
      holds what they say. */
  lemma {:induction false} FieldsExactly(lines: seq<Text>)
    ensures Fields(lines).Ok? <==> Distinct(lines)
    ensures Fields(lines).Ok? ==> Agrees(Fields(lines).value, lines)
    decreases |lines|
  {
    hide Field, Says, Agrees, Distinct;
    if lines == [] {
      NoFields();
    } else {
      var init, last := lines[..|lines| - 1], lines[|lines| - 1];
      FieldsExactly(init);
      assert lines == init + [last];
      if Fields(init).Ok? && Field(last).Some? {
        if Field(last).value.0 in Fields(init).value {
          Repeated(init, last, Fields(init).value);
        } else {
          DistinctMore(init, last, Fields(init).value);
          AgreesMore(init, last, Fields(init).value);
        }
      } else {
        NotDistinct(init, last);
      }
    }
  }

  lemma NoFields()
    ensures Distinct([]) && Agrees(map[], [])
  {
  }

  lemma NotDistinct(init: seq<Text>, last: Text)
    requires !Distinct(init) || Field(last).None?
    ensures !Distinct(init + [last])
  {
    hide Field;
    var lines := init + [last];
    assert lines[|init|] == last;
    assert forall i :: 0 <= i < |init| ==> lines[i] == init[i];
  }

  lemma Repeated(init: seq<Text>, last: Text, m: map<Text, Text>)
    requires Agrees(m, init) && Field(last).Some? && Field(last).value.0 in m
    ensures !Distinct(init + [last])
  {
    hide Field;
    var lines, name := init + [last], Field(last).value.0;
    assert Says(init, name, m[name]);
    var i :| 0 <= i < |init| && Sets(init[i], name, m[name]);
    assert lines[i] == init[i] && lines[|init|] == last;
  }

  lemma DistinctMore(init: seq<Text>, last: Text, m: map<Text, Text>)
    requires Distinct(init) && Agrees(m, init) && Field(last).Some? && Field(last).value.0 !in m
    ensures Distinct(init + [last])
  {
    hide Field;
    var lines := init + [last];
    forall i | 0 <= i < |init|
      ensures Field(lines[i]).Some? && Field(lines[i]).value.0 != Field(last).value.0
    {
      assert lines[i] == init[i];
      assert Sets(init[i], Field(init[i]).value.0, Field(init[i]).value.1);
      assert Says(init, Field(init[i]).value.0, Field(init[i]).value.1);
    }
    forall i, j | 0 <= i < j < |init|
      ensures Field(lines[i]).value.0 != Field(lines[j]).value.0
    {
      assert lines[i] == init[i] && lines[j] == init[j];
    }
  }

  lemma SaysMore(init: seq<Text>, last: Text, name: Text, value: Text)
    ensures Says(init + [last], name, value) <==> Says(init, name, value) || Sets(last, name, value)
  {
    hide Sets;
    var lines := init + [last];
    if Says(init, name, value) {
      var i :| 0 <= i < |init| && Sets(init[i], name, value);
      assert lines[i] == init[i];
    }
    assert lines[|init|] == last;
  }

  lemma AgreesMore(init: seq<Text>, last: Text, m: map<Text, Text>)
    requires Agrees(m, init) && Field(last).Some? && Field(last).value.0 !in m
    ensures Agrees(m[Field(last).value.0 := Field(last).value.1], init + [last])
  {
    hide Field, Says;
    var (key, content) := Field(last).value;
    var lines, more := init + [last], m[key := content];
    forall name | name in more
      ensures Says(lines, name, more[name])
    {
      SaysMore(init, last, name, more[name]);
    }
    forall name, value | Says(lines, name, value)
      ensures name in more && more[name] == value
    {
      SaysMore(init, last, name, value);
    }
  }

  /** The order of the fields does not matter. */
  lemma OrderDoesNotMatter(a: seq<Text>, b: seq<Text>)
    requires Distinct(a) && Distinct(b) && forall line :: line in a <==> line in b
    ensures Fields(a) == Fields(b) && Fields(a).Ok?
  {
    hide Field, Distinct, Fields, Says;
    FieldsExactly(a);
    FieldsExactly(b);
    var m, n := Fields(a).value, Fields(b).value;
    forall name | name in m
      ensures name in n && n[name] == m[name]
    {
      SaysSame(a, b, name, m[name]);
    }
    forall name | name in n
      ensures name in m
    {
      SaysSame(b, a, name, n[name]);
    }
    assert m == n;
  }

  lemma SaysSame(a: seq<Text>, b: seq<Text>, name: Text, value: Text)
    requires forall line :: line in a ==> line in b
    ensures Says(a, name, value) ==> Says(b, name, value)
  {
    hide Sets;
    if Says(a, name, value) {
      var i :| 0 <= i < |a| && Sets(a[i], name, value);
      assert a[i] in b;
      var j :| 0 <= j < |b| && b[j] == a[i];
      assert Sets(b[j], name, value);
    }
  }

  // ----- Values -----

  predicate LowerHex(c: Scalar) {
    0x30 <= c <= 0x39 || 0x61 <= c <= 0x66
  }

  /** A SHA-256 as the installer writes it. */
  predicate IsDigest(text: Text) {
    |text| == 64 && forall i :: 0 <= i < 64 ==> LowerHex(text[i])
  }

  /** A Git object name, of either length and any case. */
  predicate IsObject(text: Text) {
    (|text| == 40 || |text| == 64)
    && forall i :: 0 <= i < |text| ==> LowerHex(text[i]) || 0x41 <= text[i] <= 0x46
  }

  predicate Digits(text: Text) {
    text != [] && forall i :: 0 <= i < |text| ==> 0x30 <= text[i] <= 0x39
  }

  function Decimal(text: Text): nat
    requires forall i :: 0 <= i < |text| ==> 0x30 <= text[i] <= 0x39
  {
    if text == [] then 0 else Decimal(text[..|text| - 1]) * 10 + (text[|text| - 1] - 0x30) as nat
  }

  /** `parse::<u64>`, which takes a plus sign. */
  function Size(text: Text): Option<nat> {
    var digits := if text != [] && text[0] == 0x2B then text[1..] else text;
    if !Digits(digits) || Decimal(digits) >= 0x1_0000_0000_0000_0000 then None else Some(Decimal(digits))
  }

  function Objects(): seq<Text> {
    [Ascii("source"), Ascii("tree"), Ascii("integration-receipt")]
  }

  function Digests(): seq<Text> {
    [Ascii("artifact-sha256"), Ascii("lock-sha256"), Ascii("compiler-sha256"), Ascii("gates-sha256"),
     Ascii("sbom-sha256"), Ascii("notices-sha256"), Ascii("native-audit-sha256")]
  }

  predicate AllOf(fields: map<Text, Text>, names: seq<Text>, p: Text -> bool) {
    forall i :: 0 <= i < |names| ==> names[i] in fields && p(fields[names[i]])
  }

  /** A manifest the installer takes, on a host of the given platform. */
  predicate Admitted(fields: map<Text, Text>, host: Text) {
    && Ascii("host") in fields && fields[Ascii("host")] == host
    && AllOf(fields, Objects(), IsObject)
    && AllOf(fields, Digests(), IsDigest)
    && Ascii("artifact-bytes") in fields
    && Size(fields[Ascii("artifact-bytes")]).Some?
    && 1 <= Size(fields[Ascii("artifact-bytes")]).value <= MAX_SIZE
  }

  function Sidecars(): seq<(Text, Text)> {
    [(Ascii("sbom.json"), Ascii("sbom-sha256")), (Ascii("THIRD-PARTY-NOTICES.txt"), Ascii("notices-sha256")),
     (Ascii("native-source-audit.txt"), Ascii("native-audit-sha256"))]
  }

  function Kept(fields: map<Text, Text>, host: Text): Package
    requires Admitted(fields, host)
  {
    assert Digests()[0] in fields && Digests()[3] in fields;
    assert Digests()[4] in fields && Digests()[5] in fields && Digests()[6] in fields;
    Package(
      fields[Ascii("artifact-sha256")],
      fields[Ascii("gates-sha256")],
      Size(fields[Ascii("artifact-bytes")]).value,
      [(Sidecars()[0].0, fields[Ascii("sbom-sha256")]),
       (Sidecars()[1].0, fields[Ascii("notices-sha256")]),
       (Sidecars()[2].0, fields[Ascii("native-audit-sha256")])])
  }

  function HeaderLine(): Text {
    Ascii("susi-local-release-v1")
  }

  /** What a manifest text says; none when it is refused. */
  function Open(text: Text, host: Text): Option<Package> {
    var lines := Lines(text);
    if lines == [] || lines[0] != HeaderLine() then None
    else
      var fields := Fields(lines[1..]);
      if fields.Err? || !Admitted(fields.value, host) then None else Some(Kept(fields.value, host))
  }

  // ----- The code -----

  method Check(fields: map<Text, Text>, names: seq<Text>, p: Text -> bool, problem: Problem)
    returns (r: Option<Problem>)
    ensures r.None? <==> AllOf(fields, names, p)
  {
    for i := 0 to |names|
      invariant forall j :: 0 <= j < i ==> names[j] in fields && p(fields[names[j]])
    {
      if names[i] !in fields {
        return Some(MissingField);
      }
      if !p(fields[names[i]]) {
        return Some(problem);
      }
    }
    return None;
  }

  /** `Package::open`, once the digest of the text is the release's. */
  method Read(text: Text, host: Text) returns (r: Result<Package, Problem>)
    ensures Open(text, host) == if r.Ok? then Some(r.value) else None
  {
    hide Lines, Field, AllOf, Objects, Digests, Size, HeaderLine, Ascii, Kept;
    var lines := Lines(text);
    if lines == [] || lines[0] != HeaderLine() {
      return Err(UnsupportedManifest);
    }
    ghost var all := lines[1..];
    var fields: map<Text, Text> := map[];
    assert all[..0] == [];
    for i := 1 to |lines|
      invariant Fields(all[..i - 1]) == Ok(fields)
    {
      assert all[..i][..i - 1] == all[..i - 1] && all[..i][i - 1] == lines[i];
      FieldsPrefix(all, i);
      var field := Field(lines[i]);
      if field.None? {
        return Err(InvalidField);
      }
      if field.value.0 in fields {
        return Err(DuplicateField);
      }
      fields := fields[field.value.0 := field.value.1];
    }
    assert all[..|all|] == all;
    if Ascii("host") !in fields {
      return Err(MissingField);
    }
    if fields[Ascii("host")] != host {
      return Err(OtherPlatform);
    }
    var objects := Check(fields, Objects(), IsObject, InvalidIdentity);
    if objects.Some? {
      return Err(objects.value);
    }
    var digests := Check(fields, Digests(), IsDigest, InvalidDigest);
    if digests.Some? {
      return Err(digests.value);
    }
    if Ascii("artifact-bytes") !in fields {
      return Err(MissingField);
    }
    var size := Size(fields[Ascii("artifact-bytes")]);
    if size.None? || !(1 <= size.value <= MAX_SIZE) {
      return Err(InvalidSize);
    }
    return Ok(Kept(fields, host));
  }

  lemma {:induction false} FieldsPrefix(lines: seq<Text>, i: nat)
    requires i <= |lines|
    ensures Fields(lines[..i]).Err? ==> Fields(lines).Err?
    decreases |lines| - i
  {
    hide Field;
    if i == |lines| {
      assert lines[..i] == lines;
    } else {
      assert lines[..i + 1][..i] == lines[..i];
      FieldsPrefix(lines, i + 1);
    }
  }

  // ----- Writing -----

  predicate NameOk(name: Text) {
    EQUALS !in name && LF !in name
  }

  /** A line that reading gives back: no line break in it or at its end. */
  predicate LineOk(line: Text) {
    LF !in line && (line != [] ==> line[|line| - 1] != CR)
  }

  function LineOf(name: Text, value: Text): Text {
    name + [EQUALS] + value
  }

  function LinesOf(fields: seq<(Text, Text)>): (lines: seq<Text>)
    ensures |lines| == |fields|
    ensures forall i :: 0 <= i < |fields| ==> lines[i] == LineOf(fields[i].0, fields[i].1)
  {
    seq(|fields|, i requires 0 <= i < |fields| => LineOf(fields[i].0, fields[i].1))
  }

  /** Lines as a text, with the line ends of Unix or of Windows. */
  function Written(lines: seq<Text>, windows: bool): Text {
    if lines == [] then []
    else (lines[0] + if windows then [CR] else []) + [LF] + Written(lines[1..], windows)
  }

  lemma LinesStep(line: Text, rest: Text)
    requires LF !in line
    ensures Lines(line + [LF] + rest) == [WithoutReturn(line)] + Lines(rest)
  {
    hide Lines, LineEnd;
    LineEndAt(line, rest);
    LinesUnfold(line + [LF] + rest);
    var text := line + [LF] + rest;
    assert text[..|line|] == line && text[|line| + 1..] == rest;
  }

  lemma LinesUnfold(text: Text)
    requires text != [] && LineEnd(text) < |text|
    ensures Lines(text) == [WithoutReturn(text[..LineEnd(text)])] + Lines(text[LineEnd(text) + 1..])
  {
    hide LineEnd, WithoutReturn;
  }

  lemma LineEnded(line: Text, windows: bool)
    requires LineOk(line)
    ensures
      var ended := line + if windows then [CR] else [];
      LF !in ended && WithoutReturn(ended) == line
  {
    assert (line + [CR])[..|line|] == line;
    assert line + [] == line;
  }

  lemma {:induction false} WrittenLines(lines: seq<Text>, windows: bool)
    requires forall i :: 0 <= i < |lines| ==> LineOk(lines[i])
    ensures Lines(Written(lines, windows)) == lines
    decreases |lines|
  {
    hide Lines, LineOk, WithoutReturn;
    if lines == [] {
      NoLines();
    } else {
      LineEnded(lines[0], windows);
      LinesStep(lines[0] + if windows then [CR] else [], Written(lines[1..], windows));
      WrittenLines(lines[1..], windows);
    }
  }

  lemma NoLines()
    ensures Lines([]) == []
  {
  }

  lemma {:induction false} FirstSkips(a: Text, b: Text)
    requires EQUALS !in a
    ensures First(a + [EQUALS] + b, EQUALS) == |a|
    decreases |a|
  {
    var s := a + [EQUALS] + b;
    if a != [] {
      assert s[0] == a[0] && s[1..] == a[1..] + [EQUALS] + b;
      FirstSkips(a[1..], b);
    }
  }

  lemma FieldOfLine(name: Text, value: Text)
    requires EQUALS !in name
    ensures Field(LineOf(name, value)) == Some((name, value))
  {
    FirstSkips(name, value);
    var line := LineOf(name, value);
    assert line[..|name|] == name && line[|name| + 1..] == value;
  }

  /** Fields that can be written: sound names, each once, and values without a line
      break. */
  predicate Writable(fields: seq<(Text, Text)>) {
    && (forall i :: 0 <= i < |fields| ==>
          NameOk(fields[i].0) && LineOk(LineOf(fields[i].0, fields[i].1)))
    && (forall i, j :: 0 <= i < j < |fields| ==> fields[i].0 != fields[j].0)
  }

  lemma HeaderIsLine()
    ensures LineOk(HeaderLine())
  {
    var h := HeaderLine();
    assert h[|h| - 1] == 0x31;
  }

  lemma WritableLines(fields: seq<(Text, Text)>)
    requires Writable(fields)
    ensures Distinct(LinesOf(fields))
    ensures forall i :: 0 <= i < |fields| ==> Sets(LinesOf(fields)[i], fields[i].0, fields[i].1)
  {
    hide Field, LineOf;
    forall i | 0 <= i < |fields|
      ensures Field(LineOf(fields[i].0, fields[i].1)) == Some((fields[i].0, fields[i].1))
    {
      FieldOfLine(fields[i].0, fields[i].1);
    }
  }

  /** The map a list of fields stands for. */
  predicate Maps(m: map<Text, Text>, fields: seq<(Text, Text)>) {
    && (forall i :: 0 <= i < |fields| ==> fields[i].0 in m && m[fields[i].0] == fields[i].1)
    && (forall name :: name in m ==> exists i :: 0 <= i < |fields| && fields[i].0 == name)
  }

  /** A written manifest reads back as its fields, whatever their order and whichever
      line ends: it is admitted exactly when they are. */
  lemma ManifestRoundTrip(fields: seq<(Text, Text)>, windows: bool, host: Text)
    requires Writable(fields)
    ensures
      var read := Fields(LinesOf(fields));
      && read.Ok? && Maps(read.value, fields)
      && Open(Written([HeaderLine()] + LinesOf(fields), windows), host)
         == if Admitted(read.value, host) then Some(Kept(read.value, host)) else None
  {
    hide Field, LineOf, Admitted, Kept, Lines, Written, HeaderLine, Fields, NameOk, LineOk, Distinct, Agrees, Maps;
    var lines := LinesOf(fields);
    var all := [HeaderLine()] + lines;
    HeaderIsLine();
    WritableLines(fields);
    forall i | 0 <= i < |all|
      ensures LineOk(all[i])
    {
      if i > 0 {
        assert all[i] == LineOf(fields[i - 1].0, fields[i - 1].1);
      }
    }
    WrittenLines(all, windows);
    assert all[1..] == lines;
    FieldsExactly(lines);
    MapsFields(fields, lines, Fields(lines).value);
  }

  lemma MapsFields(fields: seq<(Text, Text)>, lines: seq<Text>, m: map<Text, Text>)
    requires |lines| == |fields| && forall i :: 0 <= i < |fields| ==> Sets(lines[i], fields[i].0, fields[i].1)
    requires Agrees(m, lines)
    ensures Maps(m, fields)
  {
    hide Field;
    forall i | 0 <= i < |fields|
      ensures fields[i].0 in m && m[fields[i].0] == fields[i].1
    {
      assert Says(lines, fields[i].0, fields[i].1);
    }
    forall name | name in m
      ensures exists i :: 0 <= i < |fields| && fields[i].0 == name
    {
      assert Says(lines, name, m[name]);
      var i :| 0 <= i < |lines| && Sets(lines[i], name, m[name]);
      assert Sets(lines[i], fields[i].0, fields[i].1);
      assert fields[i].0 == name;
    }
  }
}
