# Minecraft resource pack merger — a Dafny model of the merge engine

The ResourcePackMerger component takes two zipped Minecraft resource packs
("RP1", called A here, and "RP2", called B) and builds one merged pack:

- Every entry of A is copied, with two exceptions:
  - a `.json` file that B also has is merged with B's (below), and is left
    out when that merge does not complete;
  - a directory that B also has is written again by the B pass as an empty
    plain entry.
- Every entry of B whose name A has no file for is added.
- When both packs have a file of the same name ending in `.json`, A's
  document is merged with B's:
  - for `assets/minecraft/sounds.json`, every top-level member of B that A
    lacks is added to A's object;
  - for any other JSON file, when both documents own an `overrides` member,
    A's `overrides` becomes A's list followed by B's.
- Parse errors, the start of a merge, and its completion or failure are reported in a message log; copies, folders, completed merges and a throw inside `mergeFiles` log nothing.

The model has five parts:

| file | module | contents |
|---|---|---|
| `json_value.dfy` | `JsonValue` | JSON documents, and the JavaScript operations the merge applies to them: `hasOwnProperty`, `for ... in`, member assignment, array spread |
| `merge_policy.dfy` | `MergePolicy` | `mergeFiles` on parsed documents, and the sound-registry and `overrides` properties |
| `archives.dfy` | `Archives` | zip archives as ordered entry lists, and the zip reader's lookup by name |
| `merge_engine.dfy` | `MergeEngine` | the two `forEach` passes as folds over a stage (output archive, `outputFolders`, log), for any document merge `merge` (the component passes `MergeDocuments`); an independent path-by-path description of the merged archive, proved equal to what the passes build |
| `resource_pack_merger.dfy` | `PackMerger` | the component as a class with the source's state; `addLog`, `mergeFiles`, both passes and `handleMerge` as methods with loops, each proved against the functions above |

The zip reader, `JSON.parse` and the zip writer are calls into other
libraries. They are constructor parameters of the class:
- `load` gives an archive or an error message;
- `parse` gives a document, or None for a syntax error;
- `generate` gives the zip bytes or an error message.

The JavaScript behaviour modelled:

- **`hasOwnProperty`.** It throws on `null`, and on an object that owns a
  member named `hasOwnProperty`, which hides the method. Arrays and strings
  own their indices and `length`.
- **`for ... in`.** It visits an object's members, an array's or string's
  indices, and nothing for other values.
- **Assignment.** A strict-mode assignment throws on primitives and `null`.
- **Spread.** Spreading anything but an array or a string throws.

A throw inside `mergeFiles` rejects a promise nobody awaits. The call then
writes nothing and logs nothing (outcome `Thrown`).

Two consequences of the code that are easy to miss:

- **Shared directories.** A directory present in both packs is not skipped
  by the B pass. It fails the first test (`outputFolders` has it), reaches
  the `else if`, and is written again as a plain, empty file entry, because
  `zip1.file(name)` is null for a directory. `SharedDirectoryRewritten`
  states this.
- **A file and a directory under one name.** The zip reader names a
  directory with a trailing `/` and a file without one, so one pack never
  has a file where the other has a directory (`FileAndDirNeverShare`). The
  matching row of `ExpectedAt` cannot arise.

## Model

| member | source | states |
|---|---|---|
| PackMerger.ResourcePackMerger.AddLog | src/components/ResourcePackMerger.tsx:19-21 | the log grows by exactly the new message at its end; earlier messages are kept in order |
| PackMerger.ResourcePackMerger.MergeFiles | src/components/ResourcePackMerger.tsx:32-66 | the loop over B's members and the `overrides` branch leave the output and log exactly as `MergeFilesStep` (parse, `MergeDocuments`, write) prescribes, a throw at any point included |
| PackMerger.ResourcePackMerger.FillSoundGaps | src/components/ResourcePackMerger.tsx:53-57 | the loop over B's `for ... in` members yields exactly `GapFill` of them, whose effect on two parsed objects `SoundsRegistryMerge` states; an early throw yields None |
| PackMerger.ResourcePackMerger.MergePassA | src/components/ResourcePackMerger.tsx:86-98 | the loop over A's entries leaves output, folders and log equal to the fold `APass` |
| PackMerger.ResourcePackMerger.MergePassB | src/components/ResourcePackMerger.tsx:100-106 | the loop over B's entries leaves the output equal to the fold `BPass`, with folders and log unchanged |
| PackMerger.ResourcePackMerger.RunPasses | src/components/ResourcePackMerger.tsx:83-106 | a fresh output and folder record, then the two loops, leave exactly the stage `Merge` describes |
| PackMerger.ResourcePackMerger.MergeLoaded | src/components/ResourcePackMerger.tsx:83-124 | a fresh output and two passes; the output is what `Merge` builds, and with unique names it is `Expected(A, B)`; the folders are A's directory paths, and the log gains exactly the parse errors, in A's order, and then one final line: the writer's error message, or "Merge complete!" with the blob stored |
| PackMerger.ResourcePackMerger.HandleMerge | src/components/ResourcePackMerger.tsx:68-125 | without both packs, only "Please select both resource packs" is logged and nothing else changes; otherwise "Starting merge process..." is logged; a loader error is logged as "Error during merge: ..." (A's first); the merge runs as in `MergeLoaded`, with the same output, folders and log; `merging` ends false and the picked files are untouched |
| MergePolicy.MergeDocuments | src/components/ResourcePackMerger.tsx:38-62 | A's parse error and only it gives the RP1 error; B's parse error (A parsed) and only it gives the RP2 error; a non-sound document without an `overrides` member is written back unchanged |
| MergePolicy.ParseMessagesMatchOutcome | src/components/ResourcePackMerger.tsx:38-50 | a call logs "Error reading file from RP1: name" exactly when A's text fails to parse, "... RP2: name" exactly when only B's fails, and nothing when it completes or throws |
| MergePolicy.GapStep | src/components/ResourcePackMerger.tsx:54-55 | one turn of the sound-registry loop: nothing changes when B does not own the key, or both own it; it throws exactly when a `hasOwnProperty` call throws, or when only B owns the key and A's value cannot take members; on an object it adds B's value under the key |
| MergePolicy.GapStepAddsMember | src/components/ResourcePackMerger.tsx:54-55 | when only B owns the key, A's object gains that one name, at the end, with B's value, and every other name keeps its value |
| MergePolicy.GapFillKeepsA | src/components/ResourcePackMerger.tsx:53-57 | a completed loop over A's object, whatever B is, keeps every member of A with A's value, and adds only visited names |
| MergePolicy.OverridesMerge | src/components/ResourcePackMerger.tsx:58-61 | the `else if` branch: A is written unchanged unless both own `overrides`; it throws exactly when a `hasOwnProperty` call or a spread throws; on an object the written document keeps A's names |
| MergePolicy.GapFillThrownStays | src/components/ResourcePackMerger.tsx:53-57 | once the sound-registry loop throws on some member, the whole loop has thrown |
| MergePolicy.GapFillObjects | src/components/ResourcePackMerger.tsx:53-57 | over B's members, the loop appends to A's object, in order, exactly those members whose names A lacks |
| MergePolicy.SoundsRegistryMerge | src/components/ResourcePackMerger.tsx:52-57 | for two parsed objects, sounds.json becomes A's members then B's new members; names are unique; the name set is the union; A's names keep A's values; the rest get B's |
| MergePolicy.NewMembersKeys | src/components/ResourcePackMerger.tsx:54 | a member is added exactly when B has its name and A does not |
| MergePolicy.NewMembersLookup | src/components/ResourcePackMerger.tsx:55 | an added member carries B's value |
| MergePolicy.UniqueNewMembers | src/components/ResourcePackMerger.tsx:53-57 | the added members have distinct names |
| MergePolicy.UniqueDisjointAppend | src/components/ResourcePackMerger.tsx:55 | appending members under fresh names keeps names unique |
| MergePolicy.OverridesJoined | src/components/ResourcePackMerger.tsx:58-61 | with both `overrides` arrays, the result has A's member names, `overrides` is A's list followed by B's, and every other member is A's |
| MergePolicy.OverridesOrder | src/components/ResourcePackMerger.tsx:61 | the joined list is as long as both lists together, starts with A's list and ends with B's |
| MergePolicy.OtherDocumentKeepsA | src/components/ResourcePackMerger.tsx:58-64 | when one side lacks `overrides`, A's document is written unchanged |
| MergePolicy.OverridesNotIterable | src/components/ResourcePackMerger.tsx:61 | if either `overrides` is neither array nor string, the spread throws and nothing is written |
| JsonValue.HasOwn | src/components/ResourcePackMerger.tsx:54-58 | `hasOwnProperty` throws exactly on `null` and on an object owning a member named "hasOwnProperty"; on other objects it answers whether the name is a member; arrays and strings own `length`; numbers and booleans own nothing |
| JsonValue.Lookup | src/components/ResourcePackMerger.tsx:54-55 | a member is found exactly when its name is among the object's names |
| JsonValue.SetMember | src/components/ResourcePackMerger.tsx:61 | replacing a member's value keeps the names and their order |
| JsonValue.LookupAppend | src/components/ResourcePackMerger.tsx:55 | after a member is appended, lookups see the old members first, then the new one |
| JsonValue.SetMemberLookup | src/components/ResourcePackMerger.tsx:61 | after replacement, the name holds the new value and every other name is unchanged |
| JsonValue.Assign | src/components/ResourcePackMerger.tsx:55 | assignment succeeds exactly on objects and arrays; on an object the name then holds the value and all other names are unchanged |
| JsonValue.Spread | src/components/ResourcePackMerger.tsx:61 | spreading succeeds exactly on arrays (their elements) and strings (one element per character) |
| JsonValue.ForInPairs | src/components/ResourcePackMerger.tsx:53 | `for ... in` visits an object's members in order, one name per array element or string character, and nothing for other values |
| JsonValue.NatToStringDigits | src/components/ResourcePackMerger.tsx:53 | the decimal name of an index consists of digits, reads back as the index, and has no leading zero |
| JsonValue.IndexNameRoundTrip | src/components/ResourcePackMerger.tsx:53-54 | the name `for ... in` gives element n reads back as index n |
| JsonValue.ForInIndexOwned | src/components/ResourcePackMerger.tsx:53-54 | every index name `for ... in` visits on an array or a string is owned by it according to `hasOwnProperty` |
| Archives.Find | src/components/ResourcePackMerger.tsx:91 | a found entry is in the archive under that name; no entry means no entry has that name |
| Archives.FileAt | src/components/ResourcePackMerger.tsx:91 | `zip.file(name)` yields data exactly when the entry under the name is a file, and the data is that file's |
| Archives.FindUnique | src/components/ResourcePackMerger.tsx:91 | with unique names, every entry is the one found under its name |
| Archives.DirPathsSnoc | src/components/ResourcePackMerger.tsx:87-88 | the directories of a pack are those before its last entry, plus that entry's path when it is a directory |
| Archives.FileAndDirNeverShare | src/components/ResourcePackMerger.tsx:91-103 | under the reader's naming rule, a path that names a file in one pack never names a directory in the other |
| Archives.DirPathsFind | src/components/ResourcePackMerger.tsx:87-88 | a path is one of A's directory paths exactly when A's entry under it is a directory |
| MergeEngine.AStep | src/components/ResourcePackMerger.tsx:87-97 | one `zip1.forEach` callback: the log gains exactly its entry's parse-error lines, a directory is added to the folders, and no other path changes |
| MergeEngine.APass | src/components/ResourcePackMerger.tsx:86-98 | the A pass only adds folders and writes only A's paths |
| MergeEngine.BStep | src/components/ResourcePackMerger.tsx:101-105 | one `zip2.forEach` callback: the entry's path becomes what `BWrite` gives, or stays when it gives nothing; folders, log and all other paths are unchanged |
| MergeEngine.BPass | src/components/ResourcePackMerger.tsx:100-106 | the B pass touches neither `outputFolders` nor the log, and writes only B's paths |
| MergeEngine.Merge | src/components/ResourcePackMerger.tsx:83-106 | a fresh output and folder record, then both passes: the folders are A's directories, the log gains exactly the parse errors, and no path outside both packs is written |
| MergeEngine.ExpectedAt | src/components/ResourcePackMerger.tsx:83-106 | nothing is expected exactly where neither pack has an entry or a `.json` merge did not complete; an A directory gives a folder, or B's bytes when B has the path too; an A file without a conflicting B `.json` file gives A's bytes |
| MergeEngine.ExpectedAtOffPaths | src/components/ResourcePackMerger.tsx:83-106 | nothing is expected at a path neither pack has |
| MergeEngine.APassAt | src/components/ResourcePackMerger.tsx:86-98 | after the A pass, a path holds what A's entry under it wrote, or what it held before |
| MergeEngine.APassFolders | src/components/ResourcePackMerger.tsx:87-88 | the A pass records exactly A's directory paths |
| MergeEngine.APassLog | src/components/ResourcePackMerger.tsx:38-93 | the A pass appends exactly the parse-error lines, in A's order |
| MergeEngine.BPassAt | src/components/ResourcePackMerger.tsx:100-106 | after the B pass, a path holds what B's entry under it wrote, or what it held before |
| MergeEngine.MergeIsExpected | src/components/ResourcePackMerger.tsx:83-106 | with unique names, the merged archive equals the path-by-path table `Expected`, the folders are A's directories, and the log is the parse errors |
| MergeEngine.MergeAt | src/components/ResourcePackMerger.tsx:83-106 | at every path, the merged archive holds what `ExpectedAt` decides from the two entries there |
| MergeEngine.JsonConflictMerged | src/components/ResourcePackMerger.tsx:91-93 | two files under a `.json` name: the path is written exactly when `mergeFiles` completes, and holds the merged document |
| MergeEngine.ParseFailureDropsPath | src/components/ResourcePackMerger.tsx:38-50 | a `.json` conflict whose text fails to parse is left out of the output, and the RP1 or RP2 error for it is logged |
| MergeEngine.ParseErrorsAt | src/components/ResourcePackMerger.tsx:38-50 | each entry's parse-error lines appear among the pass's parse errors |
| MergeEngine.ConflictKeepsA | src/components/ResourcePackMerger.tsx:91-103 | two files under a non-`.json` name: A's bytes are written, and B's copy is skipped |
| MergeEngine.OnlyInACopied | src/components/ResourcePackMerger.tsx:87-95 | an entry only A has is copied, as a folder or as its bytes |
| MergeEngine.OnlyInBCopied | src/components/ResourcePackMerger.tsx:101-104 | an entry only B has is copied, as a folder or as its bytes |
| MergeEngine.SharedDirectoryRewritten | src/components/ResourcePackMerger.tsx:101-104 | a directory in both packs ends up as an empty plain entry |
| MergeEngine.BPassSparesAFiles | src/components/ResourcePackMerger.tsx:103 | the B pass never overwrites a path under which A has a file |
| MergeEngine.OutputPaths | src/components/ResourcePackMerger.tsx:83-106 | every output path comes from A or B; a name from A or B is missing only for a `.json` conflict whose merge did not complete |
| Archives.FoundEntry | src/components/ResourcePackMerger.tsx:91-103 | with unique names, an entry is found under its own name |
| Archives.NotFound | src/components/ResourcePackMerger.tsx:91-103 | a name no entry has finds nothing |

## Left out

- The user interface:
  - the React rendering, the progress bar and its `setProgress` callback;
  - `handleFileChange` and its "Selected ..." messages: the selected packs are constructor parameters;
  - `handleDownload`, which hands the blob to the browser.
- Concurrency:
  - `Promise.all` may report either loader's error; the model reports A's when both fail;
  - `mergeFiles` is not awaited. It reaches `result.file` (line 65) only after its own `await` (line 33). `generateAsync` (line 108) is called synchronously after both `forEach` loops, and JSZip takes its list of entries at that call. So in the code no merged document reaches the blob, and every path routed to `mergeFiles` (lines 92-93) is missing from the downloaded pack; its parse-error lines may also follow "Merge complete!". The model runs each call to completion at its place in the A pass. `MergeFiles`, `JsonConflictMerged`, `MergeLoaded` and `HandleMerge` describe that awaited variant.
- `error.message` is taken to be a string: the loader and the writer return it.
- The zip library:
  - compression and output entry order;
  - the parent folders that `folder()` and `file()` create implicitly;
  - the output is the map from path to content.
- JSON text:
  - the syntax and `JSON.stringify`'s formatting: a merged file is its document, `JsonText(doc)`;
  - numbers are exact reals rather than IEEE doubles.
- JavaScript objects:
  - members are kept in insertion order, without the rule that integer-like names enumerate first;
  - `__proto__` and inherited members of `Object.prototype` are not modelled.
- Strings are sequences of Unicode scalar values. JavaScript indexes strings by UTF-16 code unit for `for ... in`, `hasOwnProperty` and `length`. So for a string holding a character outside the Basic Multilingual Plane, the model's index names and owned indices do not match JavaScript's (`ForInPairs`, `HasOwn`). Spreading goes by code point in JavaScript too, so `Spread` agrees. JSON text with a lone surrogate escape (`"\ud800"`) parses in JavaScript to a string that no Dafny `string` can hold, so `parse` never returns such a document.
- Array holes: an assignment past an array's end leaves holes, which `JSON.stringify` writes as `null`; the model writes `null` into them directly. A `null` slot is an own index for `HasOwn`, while a JavaScript hole is not an own property, so a later index name that falls on a hole is skipped by the sound-registry loop. Together with the insertion order above this changes results: for `sounds.json` with A = `[]` and B = `{"1":1,"0":0}`, the model writes `[null,1]` where JavaScript writes `[0,1]`.
- JsonValue.Assign: requires that the name is not `length` on an array. The merge never assigns there, because arrays own `length`.
