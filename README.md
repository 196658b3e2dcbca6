# Function reference generator — Dafny model

This project models the documentation generator in `docs/hack/functions/main.go`. The generator walks a fixed catalog of pipeline functions once. For every function it does three things:

- It writes one fragment per flag of the function's options structure. The flags are found by walking the structure's fields: embedded structures are expanded in place, and fields without a `long` tag are skipped.
- It writes the function's own page, which imports those flag fragments.
- It adds the function to one of two places:
  - to its group, keyed by the lower-cased group label;
  - or, directly, to the reference fragment, and also to the global reference fragment when the function is global.

The first member of a group adds the group itself to the reference fragment, and to the global reference fragment only when that first member is global. Later members only grow the group's content.

The model has six modules:

- `Strings` (`strings.dfy`): ASCII `ToLower`, `Join`, and concatenation of strings.
- `Util` (`util.dfy`):
  - the `util` package helpers, which are not interpreted. The `Helpers` value carries them, and every result holds for any templates and import helpers, except `HasFlagsExactly`, which assumes that no use directive is empty;
  - `Group`;
  - the file system, as an append-only `FileLog` of writes.
- `Naming` (`naming.dfy`): the fragment paths, anchors, flag display names and the enumerated-values hint.
- `FlagReference` (`flags.dfy`):
  - the options structure as a `Field` tree;
  - the flag extraction specified as functions;
  - `getFlagReference` as a recursive method with a loop. It appends to a `PathList`, which stands for the caller's `*[]string`, and writes into the `FileLog`.
- `FunctionIndex` (`index.dfy`): what the reference fragment, the global reference fragment and every group contain after the first `n` catalog entries, stated as functions of the catalog. The module proves properties of these functions.
- `Generator` (`generator.dfy`):
  - the `main` loop as `GenerateReference`;
  - its two halves as the methods `WriteFunctionPage` and `IndexFunction`. The early `continue` of a later group member becomes an early `return` from `IndexFunction`.

  The loop is proved to produce exactly the `FunctionIndex` contents and to write exactly `PageWrites`, the catalog's pages in order.

A grouped global function does not put its own import/use pair in the global reference fragment. The code (lines 93-105) instead works as follows:

- the global fragment gets the pair that was just added to the reference fragment on the same iteration;
- for the first member of a group, that is the group's pair;
- a later member of a group never reaches the global fragment, global or not.

`GlobalGroupEntry`, `GlobalOwnEntry` and `LaterGlobalMemberNotIndexed` state this behaviour.

## Model

| member | source | states |
|---|---|---|
| Strings.ToLowerIdempotent | docs/hack/functions/main.go:79 | lower-casing a string that is already lower-cased changes nothing |
| Strings.JoinSeparatorCount | docs/hack/functions/main.go:64 | joining enumerated values that contain no space with a single space gives a text that contains exactly `|parts| - 1` spaces |
| Strings.ConcatEmpty | docs/hack/functions/main.go:68 | a flag content is empty exactly when every use directive in it is empty |
| Naming.FlagDisplayName | docs/hack/functions/main.go:139-144 | a flag's heading is `--long`, followed by ` / -short` exactly when `short` is non-empty |
| Naming.ArgEnumHint | docs/hack/functions/main.go:62-65 | the enumerated-values hint is non-empty exactly when the entry has an `ArgEnum`; it is then the values joined by single spaces inside a span |
| Naming.ArgEnumHintSpaces | docs/hack/functions/main.go:62-65 | the hint of enumerated values that contain no space holds exactly one space fewer than there are values |
| Naming.FunctionFileInjective | docs/hack/functions/main.go:41 | distinct function names give distinct page files |
| Naming.FlagFileInjective | docs/hack/functions/main.go:146 | distinct long names of one function give distinct flag files |
| Naming.GroupFileInjective | docs/hack/functions/main.go:84 | distinct group ids give distinct group files |
| Util.FileLog.WriteFile | docs/hack/functions/main.go:70 | a write appends exactly one (path, content) record to the log and changes nothing else |
| FlagReference.FlagsAppend | docs/hack/functions/main.go:124-129 | the flags of two consecutive field lists are the flags of the first followed by those of the second |
| FlagReference.EmbeddedInPlace | docs/hack/functions/main.go:126-129 | an embedded structure's flags appear at the embedding point, between the flags declared before and after it |
| FlagReference.UntaggedSkipped | docs/hack/functions/main.go:131-134 | a field without a `long` tag contributes no flag and does not stop the walk |
| FlagReference.FlagsHaveLongNames | docs/hack/functions/main.go:131-134 | every extracted flag has a non-empty long name, at any nesting depth |
| FlagReference.EmbeddedThenDirect | docs/hack/functions/main.go:124-134 | an embedded structure with two flags, followed by one direct flag, yields those three flags in declaration order |
| FlagReference.FlagRefArgs | docs/hack/functions/main.go:143-144 | a flag fragment has the anchor `functionName-long`, the flag's display name, its type and description, and no flags or child content |
| FlagReference.UsesMatchImports | docs/hack/functions/main.go:157-158 | use directives, import paths and flags are equally many, and the k-th use directive names the k-th import path |
| FlagReference.FlagOutputsAppend | docs/hack/functions/main.go:124-159 | import paths, use directives and written fragments each distribute over a concatenation of flag lists |
| FlagReference.GetFlagReference | docs/hack/functions/main.go:121-162 | returns the concatenated use directives of the extracted flags, appends their files to the caller's import list and writes one fragment per flag, all in extraction order |
| FunctionIndex.PairOf | docs/hack/functions/main.go:75-98 | both imports are relative to `reference.mdx`; a function is imported from its page and used under the name derived from its name, a group is imported from and used under the name derived from its file |
| FunctionIndex.AccumulateStep | docs/hack/functions/main.go:31-32 | starting from the blank separator, prepending an import and appending a use gives the imports in reverse contribution order, the separator, then the uses in contribution order |
| FunctionIndex.AccumulateEntries | docs/hack/functions/main.go:101 | accumulating at most one more entry adds its pair around the text, or leaves the text unchanged when there is none |
| FunctionIndex.GroupIdsMembership | docs/hack/functions/main.go:78-89 | a group exists after `n` entries exactly when one of them carries a label with that lower-cased id |
| FunctionIndex.FirstMember | docs/hack/functions/main.go:80-89 | the first member of an existing group is an earlier entry with that group id, and no entry before it has that id |
| FunctionIndex.FirstMemberStable | docs/hack/functions/main.go:80-89 | once a group exists, it stays and keeps its first member |
| FunctionIndex.MembersNonEmpty | docs/hack/functions/main.go:81-91 | a group has members exactly when it has been met |
| FunctionIndex.MembersExactly | docs/hack/functions/main.go:75-76 | every grouped entry, the first and every later one, is a member of its group, and a group has no other members |
| FunctionIndex.GroupIdentityStable | docs/hack/functions/main.go:78-89 | a group is created once, named by the label of its first member, and stored in `group_<id>.mdx`; later members never replace the name or the file |
| FunctionIndex.GroupKeysLowerCase | docs/hack/functions/main.go:79-88 | every key of the group map is its own lower-case form, so lower-casing a key finds the same group and the same `group_<id>.mdx` file |
| FunctionIndex.OtherGroupUnchanged | docs/hack/functions/main.go:78-91 | an entry leaves every group but its own unchanged |
| FunctionIndex.OwnGroupGrows | docs/hack/functions/main.go:91 | a later member puts its own import before, and its own use after, its group's content |
| FunctionIndex.OwnGroupCreated | docs/hack/functions/main.go:81-91 | a first member creates its group with its own label and file, holding its own pair around the blank separator |
| FunctionIndex.UngroupedKeepsGroups | docs/hack/functions/main.go:78 | an ungrouped entry leaves the whole group map as the catalog prescribes |
| FunctionIndex.GroupedUpdatesOwnGroup | docs/hack/functions/main.go:79-91 | replacing a grouped entry's own group keeps the whole group map as the catalog prescribes |
| FunctionIndex.IndexStep | docs/hack/functions/main.go:78-101 | an entry adds nothing to the reference fragment exactly when it is a later member of a group |
| FunctionIndex.IndexesStep | docs/hack/functions/main.go:93-105 | an entry that reaches the index adds its pair to the reference fragment, and the same pair to the global one exactly when the entry is global; a later member changes neither |
| FunctionIndex.IndexEntryCount | docs/hack/functions/main.go:93-101 | the reference fragment has one entry per ungrouped function plus one per distinct group |
| FunctionIndex.GroupIndexedOnce | docs/hack/functions/main.go:93-101 | every group met is in the reference fragment exactly once, and no other group is |
| FunctionIndex.OwnIndexed | docs/hack/functions/main.go:78-101 | a function's own page is in the reference fragment exactly when an ungrouped entry has that name |
| FunctionIndex.GlobalGroupEntry | docs/hack/functions/main.go:97-105 | a group is in the global reference fragment exactly when its first member is global |
| FunctionIndex.GlobalOwnEntry | docs/hack/functions/main.go:101-105 | a function's own page is in the global reference fragment exactly when an ungrouped global entry has that name |
| FunctionIndex.GlobalIsSubsequence | docs/hack/functions/main.go:93-105 | the global reference fragment's entries are a subsequence of the reference fragment's, in the same order |
| FunctionIndex.LaterGlobalMemberNotIndexed | docs/hack/functions/main.go:93-105 | in any catalog, a global grouped function whose group's first member is not global is in neither index on its own (when no ungrouped entry has the same name), and its group is not in the global reference fragment |
| FunctionIndex.LaterGlobalMemberExample | docs/hack/functions/main.go:93-105 | for two entries of group "G", the first not global and the second global, the global reference fragment is empty and the reference fragment holds only group "g" |
| FunctionIndex.GroupedExample | docs/hack/functions/main.go:78-101 | for the catalog a, b (group "G") and c (ungrouped), the reference fragment holds the group "g" and then c, and the group holds a and then b |
| Generator.FunctionRefArgs | docs/hack/functions/main.go:67-68 | a page's child content is its flags' use directives in extraction order; the page is marked as having flags exactly when that content is non-empty; its anchor and name are the function's name, the enumerated-values hint is present exactly when `ArgEnum` is, and the "not global" hint is shown exactly for non-global functions |
| Generator.HasFlagsExactly | docs/hack/functions/main.go:68 | when no use directive is empty, a page is marked as having flags exactly when its entry has at least one flag |
| Generator.ImportTextAppend | docs/hack/functions/main.go:52-55 | the import prefix of two consecutive path lists is the first's prefix followed by the second's |
| Generator.ImportContent | docs/hack/functions/main.go:52-55 | the loop builds one import directive per collected flag file, in extraction order |
| Generator.WriteFunctionPage | docs/hack/functions/main.go:41-73 | one entry writes its flag fragments, then its page at `<name>.mdx`, which holds the flags' imports, a newline and the formatted reference |
| Generator.FlagWalkDone | docs/hack/functions/main.go:44-50 | an entry without an options structure collects no paths, no content and no writes, which are the outputs of an empty flag list |
| Generator.PageWritesSnoc | docs/hack/functions/main.go:38-73 | the pages of one more entry are the earlier pages followed by that entry's flag fragments and page |
| Generator.FunctionPageWritten | docs/hack/functions/main.go:38-73 | every entry, grouped or not and global or not, has its flag fragments and page written as one block in catalog order, after the blocks of all earlier entries |
| Generator.EntryContribution | docs/hack/functions/main.go:78-95 | in terms of the current group map: an ungrouped entry contributes itself, the first member of a group contributes the group, and a later member contributes nothing |
| Generator.IndexFunction | docs/hack/functions/main.go:75-105 | one iteration takes both fragments and the group map from their contents after `i` entries to their contents after `i + 1` |
| Generator.GenerateReference | docs/hack/functions/main.go:30-119 | the final reference fragment, global reference fragment and group map are exactly the catalog's accumulated contents; the files written are every page in catalog order, then the two reference fragments |

## Left out

- `os.MkdirAll`, and the `panic` when a directory or file cannot be created. Writes are appended to a log and always succeed.
- `reflect`: an options structure is given as a tree of `Field`s. A field's type name is an opaque string.
- The `util` package. `GetPartialImport`, `GetPartialImportName`, `TemplatePartialUse` and `TemplateFunctionRef` are not interpreted: the `Helpers` value passes them in, and no output format is assumed.
- `util.ProcessGroups` (line 108) is not part of this model. `GenerateReference` returns the group map it would receive instead. The group pages that `ProcessGroups` writes between the loop and the two reference writes are not in the log.
- `util.Group.Imports` is created empty and never read by the loop, so `Group` leaves it out.
- `fmt.Sprintf` with `TemplateFunctionRef`: a rendered fragment is an opaque function of its arguments (`RefArgs`). The constant empty second argument (lines 68 and 144) is not among those arguments.
- The unused `pageContent` buffer and `getFlagReference`'s `functionFile` and `pageContent` parameters (lines 42, 49, 121).
- The `Handler` field and the concrete catalog values (lines 164 onwards). The model holds for any catalog.
- Strings.ToLower: lower-cases ASCII letters only, while Go's `strings.ToLower` also lower-cases non-ASCII letters.
- Generator.GenerateReference: the groups are values in a map that the loop reassigns, not `*util.Group` pointers mutated in place. No other reference to a group exists, so no aliasing can be observed.
