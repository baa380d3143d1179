# Verified models of susi

A Dafny 4.11 project that models the parts of susi whose correctness is hardest to
see from the code, and proves what the code promises. `dafny verify dfyconfig.toml`
checks everything.

## What is modelled

**The installed-release channel** (`Package`, `Transaction*`, `Machine`, `Manifest`).
A volume maps paths to file contents: the selector, the pending transition, the public
entry, the proof receipt and the files of every staged release. What one run of the
installer intends is a *plan*: its durable writes in order, and its result. A crash
leaves a prefix of the writes. The lemmas about plans give the crash invariant, recovery
through any number of crashes, the algebra of rollbacks, and exactly when installations
and rollbacks succeed. `TransactionLaunch` takes a launch read by read: the program that
runs is loaded before the selector is read. A launch begins once `current_exe` has named
the entry: on Linux a program whose file was swapped away earlier finds a deleted path
there, is no dispatcher, and is not part of this model. `TransactionMoments` interleaves
everything: requests, their single durable writes, power losses, the single reads of any
number of launches, and changes to staged releases and older builds. The state numbers the
files, because a linked entry, its release and an older build can be one file under
several names: a new file under one name leaves the others alone, bytes written in place
change them all. `TransactionLaunches` says what launches run in all these interleavings,
`TransactionLanding` that undisturbed requests perform exactly their plans in them, and
`TransactionReached` that the exceptions happen, each in a run from an empty disk.
`Machine.Installation` is the installer one file operation at a time, with temporaries,
torn writes, links and renames; each of its methods is proved to carry out its plan,
completely or up to some durable write. Documents stand for their serialised form, and
SHA-256 is a free constructor, so that it is injective. `Manifest` reads the manifest text
itself.

**The affected-package selector** (`Affected`, `Paths`, `Lexer`, `LexerRanges`). The
closure over the dependency graph is a method with a worklist, proved against
reachability by chains of dependencies. The hand-written Rust lexer is a method over
bytes with its brace stack, proved to return exactly the bodies of test modules and
ignored functions. Path resolution is a method over a stack of directories.

**The JSON reader and the minifier** (`Utf8`, `Json`, `JsonParser`, `JsonText`,
`JsonRoundTrip`, `JsonExact`, `JsonUtf8`, `Minifier`, `MinifierMeaning`, `MinifierExact`,
`Published`). `JsonParser.Parser` is the reader with its mutable position; `Json` is the
same as functions of a position. `JsonText` describes texts: any white space around any
token, any escape or raw byte for any character, any run of number bytes with a digit.
The reader takes exactly these texts and gives back the value of each. Minifying any of
them gives a text that it takes too, and the value stays the same exactly when no raw
newline stands inside a string.

**The ELF inventory** (`Elf`, `ElfReader`, `ElfImage`). `ElfReader.Inspect` works in
64-bit numbers; every unchecked sum and product of the code carries the proof that it
fits. It is proved against `Elf.Describe`, which reads the same fields over unbounded
numbers, and `ElfImage` writes abstract images in both classes and both byte orders. A
segment of an image covers some of its contents, or starts with the file, over the header
and the tables, or is the program header table.

**Smaller protocols** (`DevInstance`, `Evidence`, `TreeDigest`, `Handshake`). The private
instance allocator with crashes that tear owner files; the chains of evidence records;
the manifest digest that ignores the package version; and the reply handshake of the
installation worker and its client as a state machine over all interleavings.

## Properties that hold only under a condition

- The crash invariant survives a change of staged releases exactly when the entry still
  holds an image that the record or the selector allows
  (`TransactionMoments.TamperKeepsSafeExactly`); only bytes written in place into a file
  that is also the entry can break it (`TransactionMoments.OverwritesExactly`), and they do
  (`TransactionReached.RewriteBreaksSafe`). The selector and the record stay in order in
  every run (`TransactionMoments.EveryMomentIsOrdered`).
- A launch that stays in place relies on one proof, its own or that of the launch whose
  receipt it matched, and runs the selected image exactly when the program that was loaded
  is the entry that was proved (`TransactionLaunches.EveryLaunchExactly`). A swap that
  comes after `current_exe` and before the selector is read lets the old image run, though
  nobody tampers with anything (`TransactionReached.OldImageRuns`).
- A receipt is true exactly when the launch that left it proved the entry it had stamped
  (`TransactionLaunches.EveryReceiptExactly`). A launch that outlasts two installations can
  leave a false one (`TransactionReached.FalseReceiptIsLeft`), which can mislead a launch
  between the swap of the entry and the commit of the selector
  (`TransactionReached.FalseReceiptMisleads`). While staged releases are left alone it does
  so only under a recorded transition (`TransactionLaunches.EveryLaunchSucceeds`).
- A rollback without `--expect` may be repeated after a crash exactly as long as its last
  durable step has not happened (`TransactionConvergence.UnpinnedRollbackRetry`).
- Minifying keeps the value exactly when no raw newline stands inside a string
  (`MinifierExact.MinifyExactly`); `MinifierMeaning.LooseTextChangesMeaning` is a text
  that the reader takes and that loses one. Other raw control characters do no harm.
- Two digests of source trees agree exactly when the rows and lines that are digested do,
  for listings whose rows end in newlines and none of which is the heading between the two
  parts (`TreeDigest.DigestsAgreeExactly`); `git ls-tree` prints no other.
- A crash while the allocator writes an owner file can refuse the identity for good;
  `DevInstance.RetryAfterCrash` says exactly when a retry works, and
  `DevInstance.RefusedForGood` that waiting does not help.
- An evidence record appended in the same second as the one it supersedes, by the same
  agent over the same ledger, supersedes itself (`Evidence.SameStampIsLost`);
  `Evidence.AppendedIsNewestExactly` gives the exact condition.
- Two extensions can share a roadmap key; `Published.KeysCollideExactly` says which.

## Model

| member | source | states |
|---|---|---|
| TransactionSafety.ApplyKeepsSafe | src/installed_channel/transaction.rs:329-463 | After every durable write of every request: stored selections are valid; with a pending transition the selector is its `before` or `after` and the entry the image of its old or new dispatcher; without one the entry is the image of the selected dispatcher. A request that succeeds leaves its selection committed and nothing pending. |
| TransactionSafety.FinishKeepsSafe | src/installed_channel/transaction.rs:234-266 | Every durable write of `finish` keeps that invariant, and a `finish` that succeeds has committed the recorded selection and removed the record. |
| TransactionSafety.BootstrapKeepsSafe | src/installed_channel/transaction.rs:209-232 | Swapping the entry for a recorded transition keeps the invariant at both crash points and, when it succeeds, leaves the image of the new dispatcher. |
| TransactionRecovery.StageFills | src/installed_channel/package.rs:237-296 | Every crash point of staging only adds files of the package, and the last one has all of them. |
| TransactionRecovery.StageResumes | src/installed_channel/package.rs:237-296 | Staging resumed from any partly staged release ends on the same volume with the same result. |
| TransactionRecovery.FinishSettles | src/installed_channel/transaction.rs:234-266 | A `finish` that succeeds ends exactly on the volume whose selector and entry are those of the new selection and that holds no pending record. |
| TransactionRecovery.FinishResumes | src/installed_channel/transaction.rs:234-266 | From every crash point of a `finish` that would succeed, `finish` again succeeds and ends on the same volume. |
| TransactionRecovery.ImportResumes | src/installed_channel/transaction.rs:383-390 | Importing a package and its predecessor, interrupted anywhere, resumes to the same volume and the same predecessor. |
| TransactionRecovery.ApplyResumes | src/installed_channel/transaction.rs:329-463 | A request interrupted before its last durable write can simply be repeated: same selection, same volume. |
| TransactionConvergence.ApplyConcludes | src/installed_channel/transaction.rs:329-463 | A request that succeeds has committed a valid selection that meets the expectation, with all its releases verified and the entry in place. |
| TransactionConvergence.ApplyThenStatus | src/installed_channel/transaction.rs:566-582 | Right after a request succeeds, over any receipt, `--status` reports the same selection, and finds that the entry prints the version of the selected release, whatever versions the images print. |
| TransactionConvergence.RepeatIsIdle | src/installed_channel/transaction.rs:379-463 | Repeating a concluded installation, or a rollback with its target pinned, gives the same selection and changes nothing. |
| TransactionConvergence.ApplyInWorseWorld | src/installed_channel/transaction.rs:239-258 | A failed version probe or registration only stops a run early: what it wrote is a prefix of what the successful run writes. |
| TransactionConvergence.RecoveryConverges | src/installed_channel/transaction.rs:329-463 | However many attempts are cut short, at whatever durable write and by whatever failing probe, repeating the request ends with the selection and on the volume of one undisturbed run. |
| TransactionConvergence.UnpinnedRollbackRetry | src/installed_channel/transaction.rs:424-463 | A rollback without an expected release, interrupted after `k` writes and repeated, selects the same release if and only if `k` is short of all writes. |
| TransactionConvergence.RollbackUndoesInstall | src/installed_channel/transaction.rs:414-463 | Rolling back after installing a different release selects the release that was current before and remembers the other as its predecessor. |
| TransactionConvergence.RollbackTwice | src/installed_channel/transaction.rs:424-463 | Two rollbacks return the identical selection when both releases verify. |
| TransactionConvergence.RollbackRestoresInterrupted | src/installed_channel/transaction.rs:353-370 | A rollback that meets an interrupted activation and succeeds restores the whole recorded selection, never the release that failed to activate. |
| TransactionRuns.ApplyKeepsStocked | src/installed_channel/transaction.rs:329-463 | No durable write of any request names a release that is not completely staged. |
| TransactionRuns.PendingAlwaysCompletes | src/installed_channel/transaction.rs:234-266 | With intact releases and a healthy target an interrupted transition always completes. |
| TransactionRuns.RollbackSucceeds | src/installed_channel/transaction.rs:424-463 | With intact releases a rollback succeeds if and only if the expected release is already current, or there is a predecessor and it is the one expected. |
| TransactionRuns.RestoreSucceeds | src/installed_channel/transaction.rs:353-370 | With intact releases such a rollback succeeds if and only if the recorded selection is the one expected. |
| TransactionInstall.StageSucceedsExactly | src/installed_channel/package.rs:237-296 | Staging succeeds if and only if the package is qualified, its directory holds nothing else under the staged names, and an older build that would be linked is its executable. |
| TransactionInstall.InstallSucceeds | src/installed_channel/transaction.rs:379-463 | With intact releases and nothing pending, an installation succeeds if and only if the package is qualified and its slot unspoiled, it is the release expected and, the first time, its predecessor is another sound release. |
| TransactionInstall.RequestSucceeds | src/installed_channel/transaction.rs:329-463 | With intact releases, every request succeeds if and only if it is acceptable, whatever record it meets: a restoring rollback if the caller expects the recorded selection, a repeated request if it expects the recorded target, any other as if the record had been completed first. |
| TransactionReceipt.LaunchIsHonest | src/installed_channel/transaction.rs:144-207 | A launch that nothing interrupts and that succeeds runs an image of the selected release, and the receipt it leaves is true. |
| TransactionReceipt.LaunchExactly | src/installed_channel/transaction.rs:144-207 | Over any receipt, a launch that nothing interrupts and that succeeds runs an image of the selected release if and only if no false receipt vouches for the entry. |
| TransactionRuns.LaunchIsAvailable | src/installed_channel/transaction.rs:144-207 | With intact releases an installed product always launches. |
| TransactionSelector.ApplyKeepsOrdered | src/installed_channel/transaction.rs:329-463 | Whatever bytes the entry holds, every durable write of every request keeps the selector and the record in order: valid selections, the selector one of the two the record names, and an entry wherever something is selected. |
| TransactionLaunch.UndisturbedLaunch | src/installed_channel/transaction.rs:144-207 | A launch taken read by read with nothing in between ends within eight steps with the result of the launch plan and leaves what the plan leaves. |
| TransactionLaunch.ProductExactly | src/installed_channel/transaction.rs:144-207 | A launch that ends well runs the admitted image of the selection it read if and only if it started a child or the program loaded is the entry that was proved, by itself or by the launch whose receipt it matched. |
| TransactionLaunch.ReceiptTrueExactly | src/installed_channel/transaction.rs:164-178 | The receipt a launch leaves is true if and only if the entry it stamped is the entry it proved. |
| TransactionMoments.EveryMomentIsOrdered | src/installed_channel/transaction.rs:209-463 | At every moment of every run the selector and the record are in order, even when bytes are overwritten through the link to the entry. |
| TransactionMoments.EveryFileHasOneContent | src/installed_channel/package.rs:101-123 | In every run all names of one file have one content, through links, copies, swaps and bytes written in place. |
| TransactionMoments.EveryMomentIsSafe | src/installed_channel/transaction.rs:209-463 | The crash invariant, with the bytes of the entry, holds at every moment of every run in which nobody overwrites the entry through another name of its file, whatever else happens to staged releases. |
| TransactionMoments.TamperKeepsSafeExactly | src/installed_channel/transaction.rs:209-232 | A change of staged releases keeps the crash invariant if and only if the entry still holds an image that the record, or without one the selector, allows. |
| TransactionMoments.OverwritesExactly | src/installed_channel/package.rs:101-123 | The entry changes behind the installer if and only if other bytes are written in place into a staged file that is one file with it. |
| TransactionLaunches.EveryReceiptExactly | src/installed_channel/transaction.rs:164-178 | At every moment of every run the receipt was left by a launch, and is true if and only if that launch stamped the entry it proved. |
| TransactionLaunches.EveryLaunchExactly | src/installed_channel/transaction.rs:144-207 | In every run a launch that starts a child runs the admitted image of the selection it read; one that stays in place relies on the proof of some launch and runs that image if and only if the program loaded is the entry proved then. |
| TransactionLaunches.EveryLaunchIsHonest | src/installed_channel/transaction.rs:144-207 | In every run in which the entry keeps its bytes while a launch is under way, every launch, read by read, fails or runs exactly the admitted image of the selection it read. |
| TransactionLanding.ApplyLands | src/installed_channel/transaction.rs:209-463 | On any volume, an installer that nobody disturbs finds every file it links or copies as it planned it. |
| TransactionLanding.ServePerforms | src/installed_channel/transaction.rs:329-463 | In a run, a request that nobody disturbs performs exactly the writes of its plan, as far as it gets. |
| TransactionReached.SwapRunsTheOldImage | src/installed_channel/transaction.rs:144-232 | A launch that starts before the swap of the entry and reads the selector only after it stays in place with the old image, whatever the receipt says. |
| TransactionReached.SwapIsReached | src/installed_channel/transaction.rs:209-463 | Installing any package and then any other with another executable, from an empty disk, gets to the moment before that swap. |
| TransactionReached.SamplesDiffer | src/installed_channel/package.rs:155-245 | There are sound packages with different executables, so that these runs exist. |
| TransactionReached.OldImageRuns | src/installed_channel/transaction.rs:144-463 | So the exception happens in a run from an empty disk in which nobody tampers with anything. |
| TransactionReached.RewriteBreaksSafe | src/installed_channel/transaction.rs:209-232 | After any first installation with links, other bytes written into the staged executable break the crash invariant. |
| TransactionReached.FalseReceiptIsLeft | src/installed_channel/transaction.rs:144-178 | Without any tampering, a launch that outlasts two installations leaves a false receipt over an installation at rest. |
| TransactionReached.FalseReceiptMisleads | src/installed_channel/transaction.rs:144-178 | And during the next installation that receipt vouches for an entry that is not the selected release. |
| TransactionLaunches.EveryLaunchSucceeds | src/installed_channel/transaction.rs:144-207 | While staged releases are left alone, a launch from any moment of any run succeeds, also between the swap of the entry and the commit of the selector, and runs the selected image if and only if no false receipt vouches for the entry; one does so only under a recorded transition. |
| TransactionLaunches.EveryMomentRecovers | src/installed_channel/transaction.rs:329-463 | From every moment of every run in which nobody overwrites the entry, a request that would succeed still does after any number of cut attempts, and `--status` agrees. |
| Machine.RenamePublishes | src/installed_channel/package.rs:125-143 | Renaming a temporary changes its own file and no other that readers see. |
| Machine.EveryRunIsACrashPoint | src/installed_channel/transaction.rs:329-463 | Whatever a run of the installer leaves on disk is one of the crash points of its plan. |
| Machine.Installation.AtomicFile | src/installed_channel/package.rs:125-143 | At whatever operation the power fails, the file holds its old bytes or all the new ones, nothing else but its temporary is touched, and a stale temporary never stops a retry. |
| Machine.Installation.Fetch | src/installed_channel/package.rs:251-289 | Fetches one missing file whole or not at all: the executable from an older build if there is one, refusing one with other bytes, and anything else from the package. |
| Machine.Installation.CopyMissing | src/installed_channel/package.rs:249-291 | Fetches exactly the files that are missing, in order, or a prefix of them, and nothing when an older build does not match. |
| Machine.Installation.Stage | src/installed_channel/package.rs:237-296 | Carries out the staging plan, with its policy header and its older build, completely or up to a durable write. |
| Machine.Installation.Bootstrap | src/installed_channel/transaction.rs:209-232 | Carries out the plan of the entry swap, and says which release the entry is then linked to. |
| Machine.Installation.Finish | src/installed_channel/transaction.rs:234-266 | Carries out the plan of `finish`, with its order of entry, registration, selector and removal of the record. |
| Machine.Installation.Change | src/installed_channel/transaction.rs:446-463 | Carries out the checks, the record and the `finish` of a chosen selection. |
| Machine.Installation.Fresh | src/installed_channel/transaction.rs:379-463 | Carries out a request that meets no pending transition. |
| Machine.Installation.Apply | src/installed_channel/transaction.rs:329-463 | Carries out the plan of the request on the volume it starts from: all its writes and its result, or a prefix when the power fails. |
| Machine.Installation.Launch | src/installed_channel/transaction.rs:144-207 | Runs what the launch plan says and changes at most the proof receipt. |
| Manifest.FieldsExactly | src/installed_channel/package.rs:166-172 | The field lines are accepted if and only if each has an equals sign and no name occurs twice, and the map then holds exactly what they say. |
| Manifest.OrderDoesNotMatter | src/installed_channel/package.rs:166-172 | The same lines in any order give the same fields. |
| Manifest.Read | src/installed_channel/package.rs:156-214 | The loops over lines, identities and digests compute what the manifest says, and refuse the others. |
| Manifest.ManifestRoundTrip | src/installed_channel/package.rs:156-214 | A manifest written with any fields in any order and with either line ending reads back as those fields, and is admitted exactly when they are. |
| Affected.OwnerIsUnique | xtask/src/affected.rs:96-106 | With distinct directories the owner is the only member with a longest directory that contains the path. |
| Affected.SelectExplained | xtask/src/affected.rs:761-873 | The selected packages are exactly the root, the observers and every package with a chain of dependencies to one that changes, or the workspace when the code widens; every reason is true, and following "depends on" reasons ends, cycles included. |
| Affected.Close | xtask/src/affected.rs:844-864 | The worklist ends on any graph and selects exactly the packages that depend, transitively, on a changed one. |
| Affected.Gather | xtask/src/affected.rs:779-843 | The packages gathered as changed are exactly the owners and the compiled readers of changed paths, those gathered as observers exactly the root and the readers in tests; the first global or unowned path widens. |
| Affected.SelectionJoins | xtask/src/affected.rs:761-873 | Selecting for two lists of changes together is the union of both selections, with the whole workspace on top. |
| Affected.SelectionIgnoresOrder | xtask/src/affected.rs:761-873 | Order and repetition of changed paths do not matter. |
| Affected.WidensExactly | xtask/src/affected.rs:866-873 | Comparing counts is comparing sets: the selection becomes the workspace if and only if every member is affected. |
| Paths.ResolveInPlace | xtask/src/affected.rs:110-122 | The loop over a stack of directories computes the resolution. |
| Paths.ResolveComposes | xtask/src/affected.rs:110-122 | Resolving in two steps is resolving the joined path, whenever the first step stays inside. |
| Paths.ResolveNormalises | xtask/src/affected.rs:110-122 | From a normalised directory no result holds an empty part, a dot or a double dot. |
| Paths.WalkFailsExactly | xtask/src/affected.rs:110-122 | Resolution fails if and only if some prefix of the path climbs above the root. |
| Lexer.SkipQuoted | xtask/src/affected.rs:543-553 | The loop finds the end of a literal, honouring escapes. |
| Lexer.AfterAttributes | xtask/src/affected.rs:566-578 | The loop skips exactly the white space and attributes before an item, and gives up on an unclosed one or a path attribute. |
| Lexer.Advance | xtask/src/affected.rs:378-493 | Every byte moves the scan forward, past the whole literal, comment or attribute that starts there. |
| Lexer.ScanTestModules | xtask/src/affected.rs:378-493 | The loop with its brace stack returns what a run over the visited places returns; it ends on every source. |
| LexerRanges.MatchedIsLaminar | xtask/src/affected.rs:430-493 | Two matched pairs of code braces are disjoint or nested. |
| LexerRanges.RangesAreTestBodies | xtask/src/affected.rs:378-493 | A range is returned if and only if it runs from a code brace announced by the last test attribute before it to just after the brace that matches it; likewise for ignored functions. |
| LexerRanges.RangesAreLaminar | xtask/src/affected.rs:378-493 | Every range is in bounds, starts at an opening brace, ends just after a closing one, and is disjoint from or nested in every other. |
| JsonParser.Parser.StringText | xtask/src/extension_watch.rs:267-304 | The loop over bytes and escapes reads the string at the position, or fails at the same place for the same reason. |
| JsonParser.Parser.UnicodeEscape | xtask/src/extension_watch.rs:306-321 | Reads one unit or a surrogate pair; refuses lone surrogates. |
| JsonParser.Parser.Hex4 | xtask/src/extension_watch.rs:323-338 | Four digits never leave 16 bits. |
| JsonParser.Parser.NumberValue | xtask/src/extension_watch.rs:340-362 | Takes the longest run of number bytes and needs a digit in it. |
| JsonParser.Parser.ArrayValue | xtask/src/extension_watch.rs:221-239 | The loop reads the items up to the closing bracket. |
| JsonParser.Parser.ObjectValue | xtask/src/extension_watch.rs:241-266 | The loop reads keys and values up to the closing brace, keeping repeated keys. |
| JsonParser.Parser.Value | xtask/src/extension_watch.rs:196-209 | Reads the value at the position and ends, whatever the nesting. |
| JsonParser.Decode | xtask/src/extension_watch.rs:70-79 | A document is one value and nothing after it but white space. |
| JsonText.RfcNumberIsLoose | xtask/src/extension_watch.rs:340-362 | Every number of RFC 8259 section 6 is one the reader takes. |
| JsonRoundTrip.ReadPiece | xtask/src/extension_watch.rs:274-303 | However a character is written, reading it adds its UTF-8 to the string. |
| JsonRoundTrip.RoundTrip | xtask/src/extension_watch.rs:196-362 | For every document, all white space and every choice of escapes and raw bytes, reading the text returns the value and consumes it to its end. |
| JsonExact.ReadsExactly | xtask/src/extension_watch.rs:70-362 | The reader takes a UTF-8 text if and only if it is some document with white space around it, and returns the value of that document. |
| JsonUtf8.CharsAreUtf8 | xtask/src/extension_watch.rs:267-304 | From UTF-8 source the gathered bytes are always UTF-8. |
| JsonUtf8.NeverNotUtf8 | xtask/src/extension_watch.rs:276-279 | No UTF-8 source makes the reader say that a string is not UTF-8. |
| Published.LayoutChangesNothing | xtask/src/extension_watch.rs:70-103 | Two texts of one value are decoded to the same extensions or refused alike. |
| Published.DifferenceIsExact | xtask/src/extension_watch.rs:41-60 | There is exactly one item for every official extension that is not known, in the order of the ids, and no other. |
| Published.DifferenceIgnoresOrder | xtask/src/extension_watch.rs:41-60 | Order and duplicates of the published list do not matter. |
| Published.ReportedOnce | xtask/src/extension_watch.rs:41-60 | Once the reported ids are known, nothing is reported. |
| Published.KeysCollideExactly | xtask/src/extension_watch.rs:54-58 | Two items share a key if and only if their ids differ at most in slash against dash. |
| Minifier.MinifyIsIdempotent | crates/susi-vendor-models/build.rs:21-23 | Every text minifies to one line, and minifying it again changes nothing. |
| MinifierMeaning.MinifyRelays | crates/susi-vendor-models/build.rs:21-23 | Trimming and joining the lines of a document removes the gaps that hold a newline and the white space around it, between tokens and inside strings, and nothing else. |
| MinifierMeaning.MinifyKeepsMeaning | crates/susi-vendor-models/build.rs:21-23 | For every document the reader takes, the minified bytes are the document without those gaps, parse to their end, and keep the value if and only if no string or key holds a raw newline. |
| MinifierMeaning.LooseTextChangesMeaning | crates/susi-vendor-models/build.rs:21-23 | A raw newline in a string, which the reader takes and the standard forbids, is lost with the blanks around it. |
| MinifierExact.MinifyExactly | crates/susi-vendor-models/build.rs:21-23 | Every text the reader takes, it takes minified too, with the same value if and only if a scan of the text finds no newline between the quotes of a string. |
| Elf.NamesAreTheSet | xtask/src/elf_imports.rs:176-184 | The list of needed names is sorted, without duplicates, and exactly the names of the entries. |
| ElfReader.Reader.Range | xtask/src/elf_imports.rs:21-29 | A range is returned if and only if it lies inside the file, whatever its offset and size. |
| ElfReader.Reader.Number | xtask/src/elf_imports.rs:30-43 | The accumulating loops read the number in either byte order and never overflow. |
| ElfReader.String | xtask/src/elf_imports.rs:45-58 | Accepts exactly terminated names of 1 to 4096 visible ASCII characters. |
| ElfReader.Scan | xtask/src/elf_imports.rs:90-123 | The loop over program headers keeps exactly the loads, the dynamic table and the interpreter, or has met a header that refuses the file. |
| ElfReader.Walk | xtask/src/elf_imports.rs:137-161 | The loop over the dynamic table keeps exactly the entries before its end, or has met one that refuses the file. |
| ElfReader.Locate | xtask/src/elf_imports.rs:167-174 | Finds the string table if and only if exactly one segment holds all of it. |
| ElfReader.Inspect | xtask/src/elf_imports.rs:60-192 | On every byte string, returns the description exactly when the file has one; all reads are in range and no arithmetic leaves 64 bits. |
| ElfImage.NumPut | xtask/src/elf_imports.rs:30-43 | A number written in either byte order reads back. |
| ElfImage.RowsRead | xtask/src/elf_imports.rs:90-97 | Program headers written in either class and order read back. |
| ElfImage.EntriesRead | xtask/src/elf_imports.rs:137-140 | A dynamic table written in either class and order reads back. |
| ElfImage.FourEncodings | xtask/src/elf_imports.rs:60-192 | Every image a class can represent, with segments that start with the file or cover the program headers as well, is admitted exactly when its meaning exists, with the interpreter and the names of that meaning, in both byte orders. |
| ElfImage.EncodingsAgree | xtask/src/elf_imports.rs:60-192 | Any two encodings of one image are admitted alike, with the same machine, interpreter and names. |
| DevInstance.PortsAreDisjoint | src/dev_instance.rs:175-185 | Ports shifted by two different offsets differ and stay below 65535. |
| DevInstance.Allocator.Scan | src/dev_instance.rs:37-57 | The loop over the 400 slots finds the slot of the identity, or the lowest free one. |
| DevInstance.Allocator.Allocate | src/dev_instance.rs:25-88 | The disk and the answer after a call that may lose its power at any byte are those of its specification. |
| DevInstance.SearchFinds | src/dev_instance.rs:37-60 | What the scan finds: the lowest slot of the identity with nothing unreadable below it, or that there is none and the lowest free slot. |
| DevInstance.InstancesArePrivate | src/dev_instance.rs:25-88 | Over any calls and crashes one identity always gets one instance, and two identities never share a slot or a root, even when their hashes collide. |
| DevInstance.PortsArePrivate | src/dev_instance.rs:175-185 | Two identities never listen on one port. |
| DevInstance.SucceedsExactly | src/dev_instance.rs:25-88 | A call succeeds if and only if the root is free or its own and the scan reaches its slot or a free one. |
| DevInstance.RefusedForGood | src/dev_instance.rs:64-72 | A root with another owner file refuses the identity after any later calls. |
| DevInstance.RetryAfterCrash | src/dev_instance.rs:73-86 | A retry after a crash works if and only if the crash did not tear the root's owner file and tore the slot's, if at all, between characters with another slot free. |
| Evidence.ReadNewest | xtask/src/gmcp_evidence.rs:20-50 | The loop over lines accepts exactly the linked files and returns the newest record of each requirement in order. |
| Evidence.AppendedIsNewestExactly | xtask/src/gmcp_evidence.rs:39-49 | An appended record is the newest if and only if nothing names it, itself included, and no current record is later. |
| Evidence.SameStampIsLost | xtask/src/gmcp_evidence.rs:304-309 | A record with the stamp of the one it supersedes is never the newest. |
| Evidence.AppendIsExact | xtask/src/gmcp_evidence.rs:293-312 | With the clock past every time in the file, appending keeps every chain linked, makes the appended records the newest of their requirements, and leaves the others. |
| Evidence.ReportedMayBeChosen | xtask/src/gmcp_evidence.rs:218-224 | Any of the reported records, in their order, can be recorded again in one run. |
| Evidence.RunIsExact | xtask/src/gmcp_evidence.rs:218-312 | A whole run: whichever reported records it records again, with the clock past every time in the file, the chains stay linked and exactly those records are renewed in the report. |
| Evidence.LaterIsFresh | xtask/src/gmcp_evidence.rs:293-309 | After an append, any later clock is past every time in the file. |
| TreeDigest.ReadDigest | xtask/src/gmcp_evidence.rs:87-115 | The two loops digest the rows of the tree without the manifest's, and the manifest without its package version. |
| TreeDigest.OnlyTheVersionIsLeftOut | xtask/src/gmcp_evidence.rs:87-115 | Changing one line of the manifest keeps the digest if and only if it changes the version in the package section to another version. |
| TreeDigest.DigestsAgreeExactly | xtask/src/gmcp_evidence.rs:87-115 | Two trees and manifests have one digest if and only if they have the same rows, apart from the row of the manifest, and the same manifest lines, apart from the version lines of the package section. |
| Handshake.StepFits | src/installed_channel/host_task.rs:71-101 | What every step of worker and client keeps, in any interleaving and with the worker stopping anywhere. |
| Handshake.PendingIsGoneForGood | src/installed_channel/host_task.rs:87-92 | Once a client is past its check, the pending file is gone and never comes back. |
| Handshake.AcceptedIsComplete | src/installed_channel/host_task.rs:85-101 | A client that accepts a response has the worker's complete outcome, and refuses one only for its size. |
| Handshake.CleanupSucceeds | src/installed_channel/host_task.rs:174-178 | When the clean-up starts the directory holds exactly the task definition and the reply, and no step of it fails. |
| Handshake.StoppedIsNeverAccepted | src/installed_channel/host_task.rs:71-81 | A worker that stops before it is done is never believed. |
| Handshake.ClientReturns | src/installed_channel/host_task.rs:85-189 | Once the worker is done, a bounded number of client steps ends with the outcome and an empty directory. |

## Left out

- Machine.Installation.Fresh: does not model the import of a legacy `channel.json` (transaction.rs:391-413), which selects a release before there is an entry.
- The file-type, symlink, reparse-point and permission checks of `regular`, `directory` and `small`, and their 64 KiB limit.
- SHA-256 itself, taken as injective, and the serialisation of the receipts: a stored document that does not parse or does not match its digest is one unreadable content.
- Version probes and registration (PATH, shortcuts, workspace directory): each is a yes or no of the outside world, fixed during one run.
- Within a launch, opening a package and hashing one file is one read, and the verified executable is the one that is started; an entry stamp stands for the bytes it was taken of.
- An installer that meets a staged release changed under its feet is one that dies there: it does not go on with other bytes.
- Two temporaries of the installer never share a name: true of the file names it uses. Launches that write the receipt at one time do share one; what they can leave, a whole receipt of one of them, a cut one or none, is modelled as an outcome of the write.
- The source scans that fill the selector's tables (`parent_literals`, `workspace_root_reads`, `test_only_files`, `load`); the selector is modelled on any tables.
- Error texts and byte positions in them; errors are named cases, and the ELF reader and the manifest reader are proved to refuse the same files, not with the same message.
- The depth of recursion of the JSON reader.
- Reading, writing and restoring the evidence files, the Git and Cargo commands around them, and the text of a record; a file is a sequence of parsed lines.
- `artifact_paths`, `confined` and `test_name`: each is settled by reading one branch.
- Input and output errors of the instance allocator other than a missing file, which end a call like a lost power.
- The timeouts and error clean-up of the handshake, the scheduler commands, and a second worker in one directory.
- Images with a segment that starts inside the headers but not with the file, or with the interpreter or the string table in the headers.
- `validate_link_map` and `validate_os_imports` of the ELF checks: allow-lists.
- The CLI handlers, the detached-release files, the release gates and the standard-library shims.
