/** Staged releases (`package.rs`): what a release directory must hold to be
    trusted, and how a producer package is copied into it.

    SHA-256 is idealised as the free constructor `Sha256`: two contents have the
    same digest exactly when they are the same content. */
module Package {
  import opened Limits
  import opened Outcome

  datatype Id = Sha256(of: Content) | Text(text: string)

  datatype Name = Executable | ManifestFile | Sbom | Notices | NativeAudit | Gates

  /** What one file holds. Documents stand for their serialised form. */
  datatype Content =
    | Blob(bytes: seq<char>)
    | Manifest(host: string, artifact: Id, size: nat, gates: Id, sbom: Id, notices: Id, audit: Id)
    | SelectionDoc(selection: Selection)
    | TransitionDoc(transition: Transition)
    | StampDoc(release: Id, file: Content)
    | Torn(whole: Content, written: nat)

  datatype Selection = Selection(current: Id, previous: Option<Id>, dispatcher: Id)

  datatype Transition = Transition(
    requested: Option<Id>,
    fromDispatcher: Option<Id>,
    before: Option<Selection>,
    after: Selection)

  /** The files of one installation. `Build(a)` is the executable that an older layout
      kept under its own digest. `Temp(p)` is the sibling that is written
      before it is renamed onto `p`. */
  datatype Path =
    | Active
    | Pending
    | Entry
    | Receipt
    | Slot(id: Id, name: Name)
    | Build(artifact: Id)
    | Temp(of: Path)

  type Volume = map<Path, Content>

  /** One durable change of a published file. */
  datatype Write = Put(path: Path, content: Content) | Drop(path: Path)

  datatype Fault =
    | IntegrityMismatch
    | InvalidSelection
    | DiffersFromTarget
    | ChangedOutside
    | UnknownSelector
    | Unverified
    | Unhealthy
    | UnrecognizedDispatcher
    | Unregistered
    | NothingInstalled
    | NoPredecessor
    | MissingEntry
    | DifferentVersion

  /** What a run of the installer intends: its durable writes in order, and its
      result. Losing power leaves a prefix of the writes. */
  datatype Plan<+T> = Plan(writes: seq<Write>, result: Result<T, Fault>)

  const HOST := "x86_64-unknown-linux-gnu"

  function Perform(v: Volume, w: Write): Volume {
    match w
    case Put(p, c) => v[p := c]
    case Drop(p) => v - {p}
  }

  function Replay(v: Volume, ws: seq<Write>): Volume
    decreases |ws|
  {
    if ws == [] then v else Replay(Perform(v, ws[0]), ws[1..])
  }

  lemma {:induction false} ReplayConcat(v: Volume, a: seq<Write>, b: seq<Write>)
    ensures Replay(v, a + b) == Replay(Replay(v, a), b)
    decreases |a|
  {
    if a == [] {
      assert a + b == b;
    } else {
      assert (a + b)[1..] == a[1..] + b;
      ReplayConcat(Perform(v, a[0]), a[1..], b);
    }
  }

  // ----- Admission of one release -----

  predicate AdmissibleManifest(c: Content) {
    && c.Manifest?
    && c.host == HOST
    && c.artifact.Sha256?
    && c.gates.Sha256?
    && c.sbom.Sha256?
    && c.notices.Sha256?
    && c.audit.Sha256?
    && 1 <= c.size <= MAX_SIZE
  }

  /** `id` names a manifest this host may install, whatever the disk holds. */
  predicate Admissible(id: Id) {
    id.Sha256? && AdmissibleManifest(id.of)
  }

  function Length(c: Content): nat {
    if c.Blob? then |c.bytes| else 0
  }

  predicate Holds(files: map<Name, Content>, name: Name, digest: Id) {
    name in files && Sha256(files[name]) == digest
  }

  /** `Package::open`: the manifest in the directory is the one `id` names. */
  predicate Opens(files: map<Name, Content>, id: Id) {
    && id.Sha256?
    && Holds(files, ManifestFile, id)
    && AdmissibleManifest(files[ManifestFile])
  }

  predicate Pinned(files: map<Name, Content>, id: Id)
    requires Opens(files, id)
  {
    && Holds(files, Executable, id.of.artifact)
    && Length(files[Executable]) == id.of.size
  }

  predicate SidecarsVerify(files: map<Name, Content>, id: Id)
    requires Opens(files, id)
  {
    && Holds(files, Sbom, id.of.sbom)
    && Holds(files, Notices, id.of.notices)
    && Holds(files, NativeAudit, id.of.audit)
  }

  predicate Complete(files: map<Name, Content>, id: Id) {
    Opens(files, id) && SidecarsVerify(files, id) && Pinned(files, id)
  }

  /** The directory `releases/<id>` as the volume holds it. */
  function Directory(v: Volume, id: Id): map<Name, Content> {
    map n: Name | Slot(id, n) in v :: v[Slot(id, n)]
  }

  predicate Verified(v: Volume, id: Id) {
    Complete(Directory(v, id), id)
  }

  /** `file` is the executable image release `id` was admitted with. */
  predicate ImageOf(id: Id, file: Content) {
    id.Sha256? && id.of.Manifest? && Sha256(file) == id.of.artifact
  }

  // ----- Staging -----

  /** A producer package: the identity it was opened with and its files. */
  datatype Source = Source(release: Id, files: map<Name, Content>)

  const STAGED := [Executable, ManifestFile, Sbom, Notices, NativeAudit]

  const POLICY := "susi-local-qualification-policy-v6\n"

  predicate Qualified(source: Source) {
    && Complete(source.files, source.release)
    && Holds(source.files, Gates, source.release.of.gates)
    && source.files[Gates].Blob?
    && POLICY <= source.files[Gates].bytes
  }

  /** An older layout holds something else where it should hold the executable that is
      to be staged. */
  predicate Misbuilt(v: Volume, source: Source) {
    && source.release.Sha256? && source.release.of.Manifest?
    && Slot(source.release, Executable) !in v
    && var build := Build(source.release.of.artifact);
      build in v && !ImageOf(source.release, v[build])
  }

  /** The copies still missing from the release directory, in staging order. */
  function Missing(v: Volume, source: Source, names: seq<Name>): seq<Write>
    requires forall n :: n in names ==> n in source.files
  {
    if names == [] then []
    else
      var rest := Missing(v, source, names[1..]);
      var to := Slot(source.release, names[0]);
      if to in v then rest else [Put(to, source.files[names[0]])] + rest
  }

  lemma QualifiedHasFiles(source: Source)
    requires Qualified(source)
    ensures forall n :: n in STAGED ==> n in source.files
  {
  }

  function StagePlan(v: Volume, source: Source): Plan<Id> {
    if !Qualified(source) || Misbuilt(v, source) then Plan([], Err(Unverified))
    else
      QualifiedHasFiles(source);
      var copies := Missing(v, source, STAGED);
      Plan(copies,
           if Verified(Replay(v, copies), source.release) then Ok(source.release) else Err(Unverified))
  }
}
