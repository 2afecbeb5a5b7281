# Nerdctl image processor — a verified model

This project models `NerdctlImageProcessor` from rancher-desktop
(`src/k8s-engine/images/nerdctlImageProcessor.ts`). This is the backend that manages
container images through `nerdctl`. The model covers the parts with logic of their own:

- **Listing parser.** `parse` and `imageComparator` turn the line-delimited JSON that
  `nerdctl images --format '{{json .}}'` prints into the sorted image list the application
  shows. The parser splits the output on LF or CRLF and drops blank lines. It decodes each
  line on its own and drops lines that do not decode. It drops untagged images, copies four
  fields and sorts by name, then tag, then image ID.
- **Command construction.** The argument lists that `buildImage`, `deleteImage`,
  `pullImage`, `pushImage`, `getImages` and `scanImage` pass on. `runImagesCommand` puts
  `--namespace <current namespace>` in front of them.
- **Readiness handler.** The `k8s-check-state` handler updates `isK8sReady` and the watch
  status, but only while the processor is active.
- **Namespace listing.** `getNamespaces` post-processes the output of
  `nerdctl namespace list --quiet`: trim, split into lines, trim each line, sort.
- **Legacy cleanup.** `removeKimBuilder` deletes the services and daemon sets the retired
  kim builder left in the `kube-image` namespace, as a best-effort loop.

Modules:

- `Wrappers` (`Option`).
- `Text`: the JavaScript string operations used, namely `trim`, `split(/\r?\n/)` and
  code-unit string order.
- `Sorting`: `Array.prototype.sort` as a stable insertion sort. A function specifies it, a
  method sorts in place on an array, and lemmas prove it sorts and permutes.
- `ImageParse`, `ImageCommands`, `Namespaces`, `KimCleanup`.
- `ImageProcessor`: the class holding `active`, `isK8sReady`, `currentNamespace`, a count of
  watch-status updates, and the log of nerdctl processes started.

Modelling decisions:

- `JSON.parse` is a parameter `decode: string -> Option<ListedImage>`. `None` stands for a
  line that throws or decodes to a falsy value.
- `path.join` is a parameter `join`.
- Deletion outcomes and listing results of the cluster API are parameters too.
- `Array.prototype.sort` must be stable, and `imageComparator` is proved to meet the
  comparator laws. Insertion sort is proved sorted, a permutation and stable
  (`Sorting.InsertionSortStable`), and any ordered permutation that keeps the order of ties
  is proved equal to it (`Sorting.InsertionSortIsTheStableSort`), so it returns what any
  stable sort returns.
- `localeCompare` and the default sort are both modelled by code-unit lexicographic order
  (`Text.Compare`).

Notes on what the code does:

- Only the deletions in `removeKimBuilder` are guarded. A failed listing call
  (`listNamespacedService`, `listNamespacedDaemonSet`) rejects the returned promise, and
  `KimCleanup.RemoveKimBuilder` returns `Rejected` in that case.
- Both loops of `removeKimBuilder` log a failed deletion as a daemon-set failure; the model
  keeps that text (see "## Findings").
- `getNamespaces` on output that is empty or all whitespace returns `[""]`, not `[]`
  (`Namespaces.NamespaceListOfBlank`).

## Model

| member | source | states |
|---|---|---|
| ImageParse.Parse | src/k8s-engine/images/nerdctlImageProcessor.ts:137-165 | the result is sorted by `imageComparator`, is a permutation of the images collected from the decoded non-blank lines, and equals the specification `ParsedImages` |
| ImageParse.CollectImages | src/k8s-engine/images/nerdctlImageProcessor.ts:152-162 | the `for` loop with `continue` pushes exactly `Collected(records)`: one record per tagged entry, in line order |
| ImageParse.SortImages | src/k8s-engine/images/nerdctlImageProcessor.ts:164 | sorting the pushed array in place yields the stable sort of its contents under `imageComparator` |
| ImageParse.ParsedImagesSorted | src/k8s-engine/images/nerdctlImageProcessor.ts:164-172 | every pair of returned images is in `imageComparator` order |
| ImageParse.ParsedImagesMembers | src/k8s-engine/images/nerdctlImageProcessor.ts:139-161 | an image is returned iff some non-blank line decodes to a record whose Repository is neither '' nor 'sha256' and whose Repository, Tag, ID and Size are the image's imageName, tag, imageID and size |
| ImageParse.ParsedImagesTagged | src/k8s-engine/images/nerdctlImageProcessor.ts:152-155 | no returned image has imageName '' or 'sha256' |
| ImageParse.CollectedMembers | src/k8s-engine/images/nerdctlImageProcessor.ts:152-161 | the loop's output holds an image iff some record that is not untagged maps to it field for field |
| ImageParse.LineRecordsMembers | src/k8s-engine/images/nerdctlImageProcessor.ts:139-150 | a record survives the split, blank filter, decode and falsy filter iff some non-blank line decodes to it |
| ImageParse.SkippedLine | src/k8s-engine/images/nerdctlImageProcessor.ts:140-150 | inserting a blank or undecodable line anywhere changes no record: such a line never fails the parse |
| ImageParse.DecodedLine | src/k8s-engine/images/nerdctlImageProcessor.ts:141-150 | a non-blank line that decodes contributes exactly its record, at its position |
| ImageParse.OneLineRecords | src/k8s-engine/images/nerdctlImageProcessor.ts:139-150 | a single line yields its record iff it is non-blank and decodes, and nothing otherwise |
| ImageParse.LineRecordsConcat | src/k8s-engine/images/nerdctlImageProcessor.ts:139-150 | lines are handled independently: the records of a concatenation are the concatenated records |
| ImageParse.ParsedImagesBound | src/k8s-engine/images/nerdctlImageProcessor.ts:139-164 | at most one image per non-blank line |
| ImageParse.ListedImagesPermutation | src/k8s-engine/images/nerdctlImageProcessor.ts:139-162 | reordering the output lines reorders the collected images and changes nothing else |
| ImageParse.ParsedImagesIgnoreLineOrder | src/k8s-engine/images/nerdctlImageProcessor.ts:139-172 | when no two different images share name, tag and ID, the result does not depend on the order of the lines |
| ImageParse.SampleOutput | src/k8s-engine/images/nerdctlImageProcessor.ts:129-165 | the documented two-line sample, an untagged image then rancher/k3d:v0.1.0-beta.7, yields only the rancher/k3d record |
| ImageParse.BlankIffTrimEmpty | src/k8s-engine/images/nerdctlImageProcessor.ts:140 | the blank-line test used is exactly `line.trim().length == 0` |
| ImageParse.ImageComparatorZeroIffSameKey | src/k8s-engine/images/nerdctlImageProcessor.ts:168-172 | two images compare equal iff name, tag and ID all agree; size is ignored |
| ImageParse.ImageComparatorOrder | src/k8s-engine/images/nerdctlImageProcessor.ts:168-172 | a sorts before b iff its name is smaller, or names tie and its tag is smaller, or both tie and its ID is smaller (`||` on the three comparisons) |
| ImageParse.ImageComparatorTransitive | src/k8s-engine/images/nerdctlImageProcessor.ts:168-172 | "not after" is transitive for the three-key order |
| ImageParse.ImageComparatorConsistent | src/k8s-engine/images/nerdctlImageProcessor.ts:164-172 | the comparator has an antisymmetric sign and is transitive, as a sort comparator must be |
| ImageParse.NonBlankLines | src/k8s-engine/images/nerdctlImageProcessor.ts:140 | keeps the lines that are not all whitespace, in order, and never more lines than it was given (partners: `SkippedLine`, `LineRecordsMembers`) |
| ImageParse.DecodeLines | src/k8s-engine/images/nerdctlImageProcessor.ts:141-150 | keeps the record of every line that decodes, in order, dropping the rest (partners: `DecodedLine`, `LineRecordsMembers`) |
| ImageParse.Records | src/k8s-engine/images/nerdctlImageProcessor.ts:139-150 | the records the loop of `parse` walks: split, blank filter, decode, falsy filter (characterised by `LineRecordsMembers` and `LineRecordsConcat`) |
| ImageParse.IsUntagged | src/k8s-engine/images/nerdctlImageProcessor.ts:153 | `Repository` is `''` or `'sha256'` (used by `ParsedImagesTagged` and `ParsedImagesMembers`) |
| ImageParse.ToImage | src/k8s-engine/images/nerdctlImageProcessor.ts:156-161 | copies Repository, Tag, ID and Size into imageName, tag, imageID and size (used by `CollectedMembers`) |
| ImageParse.Collected | src/k8s-engine/images/nerdctlImageProcessor.ts:152-162 | at most one image per record; the loop `CollectImages` is proved to compute it, and `CollectedMembers` says which images |
| ImageParse.ParsedImages | src/k8s-engine/images/nerdctlImageProcessor.ts:137-165 | the value `parse` returns; `Parse` is proved to return it, and `ParsedImagesSorted`, `ParsedImagesMembers`, `ParsedImagesKeepTiedOrder` say what it is |
| ImageParse.ImageComparator | src/k8s-engine/images/nerdctlImageProcessor.ts:168-172 | `imageComparator`: name, then tag, then ID (characterised by `ImageComparatorOrder` and `ImageComparatorZeroIffSameKey`) |
| ImageParse.ParsedImagesKeepTiedOrder | src/k8s-engine/images/nerdctlImageProcessor.ts:164 | images that share name, tag and ID with any `x` (differing only in size) come back in the order of their lines |
| Sorting.SortInPlace | src/k8s-engine/images/nerdctlImageProcessor.ts:164 | the array afterwards holds the stable insertion sort of its old contents |
| Sorting.InsertInPlace | src/k8s-engine/images/nerdctlImageProcessor.ts:164 | one insertion step shifts larger elements right and leaves the rest of the array alone |
| Sorting.InsertionSortSorted | src/k8s-engine/images/nerdctlImageProcessor.ts:164 | for a consistent comparator the result is sorted |
| Sorting.InsertionSortPermutes | src/k8s-engine/images/nerdctlImageProcessor.ts:164 | the result is a permutation of the input |
| Sorting.InsertionSortOfSorted | src/k8s-engine/images/nerdctlImageProcessor.ts:126 | a sorted input comes back unchanged |
| Sorting.SortedPermutationsEqual | src/k8s-engine/images/nerdctlImageProcessor.ts:164 | two sorted permutations of the same elements are equal when distinct elements never tie |
| Sorting.InsertionSortUnique | src/k8s-engine/images/nerdctlImageProcessor.ts:164 | with no ties between distinct elements, the sort depends only on the multiset of its input |
| Sorting.InsertionSort | src/k8s-engine/images/nerdctlImageProcessor.ts:164 | the stable sort; same length as its input (partners: `InsertionSortSorted`, `InsertionSortPermutes`, `InsertionSortStable`) |
| Sorting.InsertionSortStable | src/k8s-engine/images/nerdctlImageProcessor.ts:164 | for every `x`, the elements tying with `x` come out in the order they went in |
| Sorting.StableArrangementsEqual | src/k8s-engine/images/nerdctlImageProcessor.ts:164 | two ordered permutations of one multiset that agree on the order of every tie are equal |
| Sorting.InsertionSortIsTheStableSort | src/k8s-engine/images/nerdctlImageProcessor.ts:164 | any ordered, stable permutation of the input is the insertion sort, so the runtime's stable sort returns the same list |
| Text.Trim | src/k8s-engine/images/nerdctlImageProcessor.ts:140 | `trim()` leaves no whitespace at either end and is empty iff the string is all whitespace |
| Text.TrimSlice | src/k8s-engine/images/nerdctlImageProcessor.ts:126 | `trim()` is a slice of its input with whitespace everywhere outside it |
| Text.TrimUnique | src/k8s-engine/images/nerdctlImageProcessor.ts:126 | any slice with whitespace outside and none at its ends is the trim |
| Text.TrimIdempotent | src/k8s-engine/images/nerdctlImageProcessor.ts:126 | trimming twice is trimming once |
| Text.SplitLinesJoinCRLF | src/k8s-engine/images/nerdctlImageProcessor.ts:139 | `split(/\r?\n/)` undoes joining with CRLF for lines without a line feed |
| Text.SplitLinesJoinLF | src/k8s-engine/images/nerdctlImageProcessor.ts:139 | `split(/\r?\n/)` undoes joining with LF for lines without a line feed when no line but the last ends in CR |
| Text.SplitLinesShape | src/k8s-engine/images/nerdctlImageProcessor.ts:139 | no piece holds a line feed, and there is one piece per LF-separated piece |
| Text.SplitLFJoin | src/k8s-engine/images/nerdctlImageProcessor.ts:139 | splitting on LF undoes joining with LF |
| Text.JoinSplitLF | src/k8s-engine/images/nerdctlImageProcessor.ts:139 | joining the LF pieces with LF gives back the text |
| Text.SplitLines | src/k8s-engine/images/nerdctlImageProcessor.ts:139 | `split(/\r?\n/)`: at least one piece (partners: `SplitLinesJoinCRLF`, `SplitLinesJoinLF`, `SplitLinesShape`) |
| Text.Compare | src/k8s-engine/images/nerdctlImageProcessor.ts:169-171 | three-way code-unit comparison with result in -1..1 (partners: `CompareIsLexicographic`, `CompareZeroIffEqual`, `CompareAntisymmetric`, `CompareTransitive`) |
| Text.CompareZeroIffEqual | src/k8s-engine/images/nerdctlImageProcessor.ts:169-171 | the string comparison is zero iff the strings are equal |
| Text.CompareAntisymmetric | src/k8s-engine/images/nerdctlImageProcessor.ts:169-171 | swapping the arguments negates the comparison |
| Text.CompareTransitive | src/k8s-engine/images/nerdctlImageProcessor.ts:169-171 | "not after" is transitive |
| Text.CompareStrictTransitive | src/k8s-engine/images/nerdctlImageProcessor.ts:169-171 | strictly before followed by not after is strictly before |
| Text.CompareIsLexicographic | src/k8s-engine/images/nerdctlImageProcessor.ts:169-171 | the comparison is negative iff the first string is a proper prefix of the second or is smaller at the first difference |
| ImageCommands.CommandArgs | src/k8s-engine/images/nerdctlImageProcessor.ts:78-104 | the argument list of each image operation (inverted by `ParseCommand`: `ParseCommandArgs`, `CommandArgsOfParsed`) |
| ImageCommands.BuildCommand | src/k8s-engine/images/nerdctlImageProcessor.ts:78-86 | `buildImage`'s operation, with the Dockerfile path `join(dirPart, filePart)` (stated by `BuildCommandArgs`) |
| ImageCommands.SendsNotifications | src/k8s-engine/images/nerdctlImageProcessor.ts:79-103 | only `getImages` passes `false` (stated by `ImageOperationDecodes`) |
| ImageCommands.NamespacedArgs | src/k8s-engine/images/nerdctlImageProcessor.ts:73 | `['--namespace', currentNamespace].concat(args)` (inverted by `SplitNamespace`: `SplitNamespacedArgs`, `NamespacedArgsOfSplit`) |
| ImageCommands.ScanImageArgs | src/k8s-engine/images/nerdctlImageProcessor.ts:106-115 | the trivy arguments of `scanImage` (inverted by `ScannedImage`: `ScannedImageOfScan`, `ScanArgsOfScanned`) |
| ImageCommands.ParseCommandArgs | src/k8s-engine/images/nerdctlImageProcessor.ts:78-104 | every argument list `buildImage`, `deleteImage`, `pullImage`, `pushImage` and `getImages` build reads back as the operation and values it came from |
| ImageCommands.CommandArgsOfParsed | src/k8s-engine/images/nerdctlImageProcessor.ts:78-104 | every list that reads as an image operation is exactly the list that operation builds |
| ImageCommands.CommandArgsInjective | src/k8s-engine/images/nerdctlImageProcessor.ts:78-104 | different operations or values never produce the same list |
| ImageCommands.BuildCommandArgs | src/k8s-engine/images/nerdctlImageProcessor.ts:78-86 | `build --buildkit-host unix:///run/buildkit/buildkitd.sock --file join(dir, file) --tag name dir` |
| ImageCommands.SubcommandOfCommand | src/k8s-engine/images/nerdctlImageProcessor.ts:72-102 | the subcommand reported for each operation is build, rmi, pull, push or images |
| ImageCommands.SubcommandName | src/k8s-engine/images/nerdctlImageProcessor.ts:72 | `args[0]` is defined iff the list is non-empty |
| ImageCommands.SplitNamespacedArgs | src/k8s-engine/images/nerdctlImageProcessor.ts:73 | the namespace flag takes the first two tokens and the original arguments follow unchanged |
| ImageCommands.NamespacedArgsOfSplit | src/k8s-engine/images/nerdctlImageProcessor.ts:73 | every list beginning with `--namespace ns` is the namespaced form of its remainder |
| ImageCommands.ScannedImageOfScan | src/k8s-engine/images/nerdctlImageProcessor.ts:106-115 | the trivy arguments `--quiet image --format json <ref>` read back as the scanned reference |
| ImageCommands.ScanArgsOfScanned | src/k8s-engine/images/nerdctlImageProcessor.ts:106-115 | every list that reads as a scan is the scan list of its reference |
| ImageCommands.CommandsDistinct | src/k8s-engine/images/nerdctlImageProcessor.ts:100-119 | no image operation's list is the namespace listing, and neither the trivy list nor the namespace listing reads as an image operation |
| ImageProcessor.OnCheckState | src/k8s-engine/images/nerdctlImageProcessor.ts:20-26 | one `k8s-check-state` event on the readiness value (partners: `ReplayInactive`, `ReplayActive`; the method `OnK8sCheckState` is proved to perform it) |
| ImageProcessor.ImagesCommand | src/k8s-engine/images/nerdctlImageProcessor.ts:71-76 | the started process carries `--namespace ns` then the arguments, reports `args[0]` as its subcommand and keeps the notification flag |
| ImageProcessor.ImageOperationDecodes | src/k8s-engine/images/nerdctlImageProcessor.ts:73-104 | each image operation's invocation decodes back to the current namespace and that operation, with notifications off only for `getImages` |
| ImageProcessor.NerdctlImageProcessor.RunImagesCommand | src/k8s-engine/images/nerdctlImageProcessor.ts:71-76 | one nerdctl process is started with the namespaced arguments, and no other field changes |
| ImageProcessor.NerdctlImageProcessor.BuildImage | src/k8s-engine/images/nerdctlImageProcessor.ts:78-86 | starts the build invocation with notifications on |
| ImageProcessor.NerdctlImageProcessor.DeleteImage | src/k8s-engine/images/nerdctlImageProcessor.ts:88-90 | starts `--namespace ns rmi <id>` with notifications on |
| ImageProcessor.NerdctlImageProcessor.PullImage | src/k8s-engine/images/nerdctlImageProcessor.ts:92-94 | starts `--namespace ns pull <ref> --debug` with notifications on |
| ImageProcessor.NerdctlImageProcessor.PushImage | src/k8s-engine/images/nerdctlImageProcessor.ts:96-98 | starts `--namespace ns push <ref>` with notifications on |
| ImageProcessor.NerdctlImageProcessor.GetImages | src/k8s-engine/images/nerdctlImageProcessor.ts:100-104 | starts `--namespace ns images --format {{json .}}` with notifications off |
| ImageProcessor.NerdctlImageProcessor.RunImageCommand | src/k8s-engine/images/nerdctlImageProcessor.ts:78-104 | an image operation runs its argument list with its notification setting |
| ImageProcessor.NerdctlImageProcessor.OnK8sCheckState | src/k8s-engine/images/nerdctlImageProcessor.ts:20-26 | inactive: nothing changes; active: `isK8sReady` becomes `state == STARTED` and the watch status is updated exactly once |
| ImageProcessor.NerdctlImageProcessor.UpdateWatchStatus | src/k8s-engine/images/nerdctlImageProcessor.ts:25 | one more watch-status update, nothing else changes |
| ImageProcessor.NerdctlImageProcessor.constructor | src/k8s-engine/images/nerdctlImageProcessor.ts:17-18 | the starting flags and namespace come from the base class; no process started, no update yet |
| ImageProcessor.HandleEvents | src/k8s-engine/images/nerdctlImageProcessor.ts:20-26 | handling a run of events on the object agrees with replaying them on its readiness state |
| ImageProcessor.ReplayInactive | src/k8s-engine/images/nerdctlImageProcessor.ts:20-23 | an inactive processor is left exactly as it was by any run of events: no flag change, no watch update |
| ImageProcessor.ReplayActive | src/k8s-engine/images/nerdctlImageProcessor.ts:20-26 | an active processor gets one watch update per event and is ready iff the last event reported STARTED |
| Namespaces.NamespaceList | src/k8s-engine/images/nerdctlImageProcessor.ts:126 | `stdout.trim().split(/\r?\n/).map(line => line.trim()).sort()` (partners: `NamespaceListSorted`, `NamespaceListPermutes`, `NamespaceListOfListing`) |
| Namespaces.NamespaceListSorted | src/k8s-engine/images/nerdctlImageProcessor.ts:126 | the names are in ascending code-unit order |
| Namespaces.NamespaceListPermutes | src/k8s-engine/images/nerdctlImageProcessor.ts:126 | the names are a permutation of the trimmed lines of the trimmed output, one per line |
| Namespaces.NamespaceListTrimmed | src/k8s-engine/images/nerdctlImageProcessor.ts:126 | every name is trimmed and holds no line feed |
| Namespaces.NamespaceListOfBlank | src/k8s-engine/images/nerdctlImageProcessor.ts:126 | empty or all-whitespace output yields `[""]` |
| Namespaces.NamespaceListOfListing | src/k8s-engine/images/nerdctlImageProcessor.ts:117-126 | non-empty trimmed names printed one per line with LF or CRLF come back as the sorted names |
| Namespaces.NamespaceListOfSortedListing | src/k8s-engine/images/nerdctlImageProcessor.ts:117-126 | names already printed in order come back unchanged |
| Namespaces.CompareConsistent | src/k8s-engine/images/nerdctlImageProcessor.ts:126 | the default string order meets the comparator laws |
| KimCleanup.RemoveKimBuilder | src/k8s-engine/images/nerdctlImageProcessor.ts:32-65 | lists services, tries to delete each named one, then lists daemon sets and tries to delete each named one; the log holds one "Failed to delete daemon-set kube-image/<name>:" line per failed deletion of either kind, as written; rejects iff a listing fails |
| KimCleanup.DeleteAll | src/k8s-engine/images/nerdctlImageProcessor.ts:38-64 | one loop attempts a deletion for every named item in order, whatever earlier deletions did, and logs the given message for exactly the failures |
| KimCleanup.CleanupCalls | src/k8s-engine/images/nerdctlImageProcessor.ts:32-65 | the calls in order: service listing, service deletions, daemon-set listing, daemon-set deletions, cut short at a rejected listing (partners: `CleanupAttemptsEveryNamedItem`, `ServiceListingRejected`) |
| KimCleanup.DeleteCalls | src/k8s-engine/images/nerdctlImageProcessor.ts:38-64 | only deletions of the loop's kind in `kube-image`, at most one per item (partners: `DeleteCallsMembers`, `DeleteCallsCount`) |
| KimCleanup.FailureLog | src/k8s-engine/images/nerdctlImageProcessor.ts:44-63 | at most one line per call (partners: `FailureLogMembersAsWritten`, `FailureLogMembers`) |
| KimCleanup.FailureMessageAsWritten | src/k8s-engine/images/nerdctlImageProcessor.ts:47 | the service loop logs a failed deletion as "Failed to delete daemon-set kube-image/<name>:" | a service named `kim` whose deletion throws: the log says "Failed to delete daemon-set kube-image/kim:" (`KimCleanup.TwoServicesOneFails`) | "Failed to delete service kube-image/kim:", as the daemon-set loop at line 62 does for daemon sets | high (copy of line 62; not executed) | KimCleanup.FailureMessageAsWrittenConfusesKinds | KimCleanup.FailureLogMembers |
| KimCleanup.FailureMessage | src/k8s-engine/images/nerdctlImageProcessor.ts:62 | the intended template, naming the kind: service or daemon-set (partner: `FailureMessageIdentifies`) |
| KimCleanup.DeletableName | src/k8s-engine/images/nerdctlImageProcessor.ts:39-43 | an item is deleted by name iff it has metadata with a non-empty name |
| KimCleanup.DeleteCallsMembers | src/k8s-engine/images/nerdctlImageProcessor.ts:38-64 | a deletion is attempted for a name iff a listed item carries it; nameless items are skipped |
| KimCleanup.DeleteCallsCount | src/k8s-engine/images/nerdctlImageProcessor.ts:38-64 | exactly one deletion attempt per named item |
| KimCleanup.FailureLogMembersAsWritten | src/k8s-engine/images/nerdctlImageProcessor.ts:44-63 | as written, the daemon-set line for a name is logged iff a deletion of a service or of a daemon set of that name was attempted and failed |
| KimCleanup.FailureLogMembers | src/k8s-engine/images/nerdctlImageProcessor.ts:44-63 | with the intended message, the line for a kind and name is logged iff that deletion was attempted and failed |
| KimCleanup.CleanupAttemptsEveryNamedItem | src/k8s-engine/images/nerdctlImageProcessor.ts:36-64 | once both listings succeed, every named service and every named daemon set gets a deletion attempt, whatever the deletions do |
| KimCleanup.ServiceListingRejected | src/k8s-engine/images/nerdctlImageProcessor.ts:36 | a failed service listing stops the cleanup before any deletion |
| KimCleanup.TwoServicesOneFails | src/k8s-engine/images/nerdctlImageProcessor.ts:32-65 | with two named services, the first failing to delete: both deletions are tried, the daemon sets are still listed, and the one line logged is "Failed to delete daemon-set kube-image/kim:" |
| KimCleanup.FailureMessageAsWrittenNames | src/k8s-engine/images/nerdctlImageProcessor.ts:47-62 | as written, two log lines are equal iff they name the same object, whatever its kind |
| KimCleanup.FailureMessageIdentifies | src/k8s-engine/images/nerdctlImageProcessor.ts:47-62 | the intended log line determines the kind and name of the object that failed |
| KimCleanup.FailureMessageAsWrittenConfusesKinds | src/k8s-engine/images/nerdctlImageProcessor.ts:47 | as written, a failed service deletion is logged exactly like a failed daemon-set deletion, and differs from the intended line |

## Findings

| source | as written | input that shows it | evidently intended | confidence | as-written member | corrected member |
|---|---|---|---|---|---|---|
| src/k8s-engine/images/nerdctlImageProcessor.ts:47 | the service loop logs a failed deletion as "Failed to delete daemon-set kube-image/<name>" | a service named `kim` whose deletion throws: the log says daemon-set kube-image/kim | "Failed to delete service kube-image/kim", as the daemon-set loop at line 62 does for daemon sets | high (copy of line 62; not executed) | KimCleanup.FailureMessageAsWrittenConfusesKinds | KimCleanup.FailureMessageIdentifies |

## Left out

- Process spawning: `spawn`, `processChildOutput`, `resources.executable`, `childProcess.spawnFile`. A started process is recorded as its argument list, its subcommand name and the notification flag. Its output, exit status and the `childResultType` value are not modelled.
- `runTrivyCommand`: only the argument list `scanImage` passes is modelled.
- `getNamespaces` runs the listing itself. In the model, its standard output is the parameter `stdout`. Logging of standard error is not modelled.
- The Kubernetes client: `makeApiClient`, and the list and delete calls. These are foreign network calls. A listing result is an `Option` parameter, with `None` for a rejected call. Each deletion's success is the parameter `deleteSucceeds`.
- `JSON.parse`: modelled as the abstract decoder parameter. A line that decodes to a truthy non-object value has `undefined` fields in the source. The model gives every decoded record four string fields.
- `imageComparator`, `Namespaces.NamespaceList`: `localeCompare` follows locale collation rules, and the default sort compares UTF-16 code units. Both are modelled by `Text.Compare`, lexicographic order on Dafny `char`s (Unicode scalar values). This agrees with UTF-16 code-unit order inside the Basic Multilingual Plane. It differs from locale collation for cased and accented text.
- `Array.prototype.sort`: modelled by a stable insertion sort. For a comparator that meets the laws, the stable sorted result is unique, so the engine's own algorithm returns the same list. Swaps, comparison counts and timing are not modelled.
- `path.join`: an abstract function parameter. Path normalisation is not modelled.
- `mainEvents`: the subscription is not modelled. The handler is the method `OnK8sCheckState`, and `HandleEvents` feeds it a sequence of events.
- `K8s.State`: only STARTED is told apart from the other states. The enumeration lives in `src/k8s-engine/k8s.ts`, which is not part of this model.
- `updateWatchStatus` and the base class `ImageProcessor`: they live in `src/k8s-engine/images/imageProcessor.ts`, which is not part of this model. A watch update is counted, not performed. The constructor takes the base class's starting values as parameters.
- `console.log`: lines other than the deletion failures in `removeKimBuilder` are not modelled. For those failures, the logged text is the template up to and including its ":"; the error object `console.log` prints after it is not modelled.
- `processorName`: the constant 'nerdctl'; there is nothing to prove about it.
- Concurrency: `async`/`await` is not modelled. Every operation runs to completion in order.
- `e2e/main.e2e.spec.ts` (UI automation) and `src/go/wsl-helper/cmd/dockerproxy_start.go` (CLI wiring) are not part of this model.
