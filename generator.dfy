/** The generator's main loop (`main` in docs/hack/functions/main.go): for
    every catalog entry it writes the function's page, adds the function to
    its group or to the reference fragments, and finally writes the two
    reference fragments. */
module Generator {
  import opened Util
  import opened Strings
  import opened Naming
  import opened FlagReference
  import opened FunctionIndex

  /** The flags of a catalog entry: none when it has no options structure. */
  function FlagsOf(f: Function): seq<Flag>
  {
    if f.flags.Some? then Flags(f.flags.value) else []
  }

  /** The flag content of a function's page: one use directive per flag. */
  function FlagContent(h: Helpers, f: Function): string
  {
    Concat(FlagUses(h, f.name, FlagsOf(f)))
  }

  /** The arguments a function's page is formatted with. The child content
      is the flags' use directives in extraction order, the page is marked
      as having flags only when some flag produced content, the enumerated
      values are shown only for entries that list them, and the "not global"
      hint is shown exactly for entries that are not global. */
  function FunctionRefArgs(h: Helpers, f: Function): (r: RefArgs)
    ensures r.anchor == r.name == f.name && r.heading == "### "
    ensures r.hasFlags <==> r.content != ""
    ensures r.hasFlags ==> FlagsOf(f) != []
    ensures r.argEnum != "" <==> f.argEnum.Some?
    ensures r.showHint <==> !f.isGlobal
    ensures r.args == f.args && r.returnType == f.returnType && r.description == f.description
    ensures r.content == FlagContent(h, f) && r.argEnum == ArgEnumHint(f.argEnum)
  {
    var content := FlagContent(h, f);
    ConcatEmpty(FlagUses(h, f.name, FlagsOf(f)));
    RefArgs(content != "", "### ", f.name, f.args, ArgEnumHint(f.argEnum), f.returnType, !f.isGlobal,
            f.name, f.description, content)
  }

  /** When no use directive is empty, a page is marked as having flags
      exactly when its entry has at least one flag. */
  lemma HasFlagsExactly(h: Helpers, f: Function)
    requires forall key :: h.Use(key) != ""
    ensures FunctionRefArgs(h, f).hasFlags <==> FlagsOf(f) != []
  {
    var flags := FlagsOf(f);
    var uses := FlagUses(h, f.name, flags);
    ConcatEmpty(uses);
    UsesMatchImports(h, f.name, flags);
    if flags != [] {
      assert uses[0] == h.Use(FlagFiles(f.name, flags)[0]);
    }
  }

  /** The import directives of a page, one per imported path, in order. */
  function ImportText(h: Helpers, paths: seq<string>, importer: string): string
  {
    if paths == [] then ""
    else ImportText(h, paths[..|paths| - 1], importer) + h.Import(paths[|paths| - 1], importer)
  }

  lemma {:induction false} ImportTextAppend(h: Helpers, a: seq<string>, b: seq<string>, importer: string)
    ensures ImportText(h, a + b, importer) == ImportText(h, a, importer) + ImportText(h, b, importer)
    decreases |b|
  {
    if b == [] {
      assert a + b == a;
    } else {
      var b' := b[..|b| - 1];
      assert (a + b)[..|a + b| - 1] == a + b';
      ImportTextAppend(h, a, b', importer);
    }
  }

  /** Lines 52-55: the import directives of the collected flag files. */
  method ImportContent(h: Helpers, paths: seq<string>, importer: string) returns (s: string)
    ensures s == ImportText(h, paths, importer)
  {
    s := "";
    for i := 0 to |paths|
      invariant s == ImportText(h, paths[..i], importer)
    {
      assert paths[..i + 1][..i] == paths[..i];
      s := s + h.Import(paths[i], importer);
    }
    assert paths[..|paths|] == paths;
  }

  /** A function's page: the imports of its flag fragments, a newline, and
      the formatted reference. */
  function FunctionPage(h: Helpers, f: Function): string
  {
    ImportText(h, FlagFiles(f.name, FlagsOf(f)), FunctionFile(f.name)) + "\n" + h.Ref(FunctionRefArgs(h, f))
  }

  /** The files written for one entry: its flag fragments, then its page. */
  function EntryWrites(h: Helpers, f: Function): seq<Write>
  {
    FlagWrites(h, f.name, FlagsOf(f)) + [Write(FunctionFile(f.name), FunctionPage(h, f))]
  }

  /** The blocks of `bs` one after the other. */
  function Flatten<T>(bs: seq<seq<T>>): seq<T>
  {
    if bs == [] then [] else Flatten(bs[..|bs| - 1]) + bs[|bs| - 1]
  }

  lemma FlattenSnoc<T>(bs: seq<seq<T>>, n: nat)
    requires n < |bs|
    ensures Flatten(bs[..n + 1]) == Flatten(bs[..n]) + bs[n]
  {
    assert bs[..n + 1][..n] == bs[..n];
  }

  /** Block `k` follows the blocks before it in every longer flattening. */
  lemma {:induction false} FlattenBlock<T>(bs: seq<seq<T>>, k: nat, n: nat)
    requires k < n <= |bs|
    ensures Flatten(bs[..k]) + bs[k] <= Flatten(bs[..n])
    decreases n
  {
    FlattenSnoc(bs, n - 1);
    if k < n - 1 {
      FlattenBlock(bs, k, n - 1);
    }
  }

  /** The blocks of writes of the catalog entries, in catalog order. */
  function Blocks(h: Helpers, c: seq<Function>): (r: seq<seq<Write>>)
    ensures |r| == |c|
  {
    if c == [] then [] else Blocks(h, c[..|c| - 1]) + [EntryWrites(h, c[|c| - 1])]
  }

  lemma {:induction false} BlocksAt(h: Helpers, c: seq<Function>, k: nat)
    requires k < |c|
    ensures Blocks(h, c)[k] == EntryWrites(h, c[k])
  {
    if k < |c| - 1 {
      BlocksAt(h, c[..|c| - 1], k);
    }
  }

  /** The files written for the first `n` entries, in order. */
  function PageWrites(h: Helpers, c: seq<Function>, n: nat): seq<Write>
    requires n <= |c|
  {
    Flatten(Blocks(h, c)[..n])
  }

  lemma PageWritesSnoc(h: Helpers, c: seq<Function>, m: nat)
    requires m < |c|
    ensures PageWrites(h, c, m + 1) == PageWrites(h, c, m) + EntryWrites(h, c[m])
  {
    FlattenSnoc(Blocks(h, c), m);
    BlocksAt(h, c, m);
  }

  /** Every catalog entry, grouped or not, global or not, gets its flag
      fragments and then its page, as one block in catalog order, and
      nothing written for a later entry comes before it. */
  lemma FunctionPageWritten(h: Helpers, c: seq<Function>, n: nat, k: nat)
    requires k < n <= |c|
    ensures PageWrites(h, c, k) + EntryWrites(h, c[k]) <= PageWrites(h, c, n)
  {
    FlattenBlock(Blocks(h, c), k, n);
    BlocksAt(h, c, k);
  }

  /** `main`: writes every page, accumulates the reference fragments and the
      groups, then writes the two reference fragments. The groups are
      returned instead of being passed to the group writer. */
  method GenerateReference(h: Helpers, catalog: seq<Function>, log: FileLog)
    returns (functionRefContent: string, globalFunctionRefContent: string, groups: map<string, Group>)
    modifies log
    ensures functionRefContent == Accumulated(PairsOf(h, IndexEntries(catalog, |catalog|)))
    ensures globalFunctionRefContent == Accumulated(PairsOf(h, GlobalEntries(catalog, |catalog|)))
    ensures GroupsAfter(h, catalog, |catalog|, groups)
    ensures log.writes == old(log.writes) + PageWrites(h, catalog, |catalog|)
                          + [Write(ReferenceFile, functionRefContent), Write(GlobalReferenceFile, globalFunctionRefContent)]
  {
    functionRefContent := "\n\n";
    globalFunctionRefContent := "\n\n";
    groups := map[];
    ghost var writes0 := log.writes;
    assert Accumulated([]) == "\n\n";
    for i := 0 to |catalog|
      invariant functionRefContent == Accumulated(PairsOf(h, IndexEntries(catalog, i)))
      invariant globalFunctionRefContent == Accumulated(PairsOf(h, GlobalEntries(catalog, i)))
      invariant GroupsAfter(h, catalog, i, groups)
      invariant log.writes == writes0 + PageWrites(h, catalog, i)
    {
      var f := catalog[i];
      var functionFile := WriteFunctionPage(h, f, log);
      PageWritesSnoc(h, catalog, i);
      AppendAssociative(writes0, PageWrites(h, catalog, i), EntryWrites(h, f));

      functionRefContent, globalFunctionRefContent, groups :=
        IndexFunction(h, catalog, i, functionFile, functionRefContent, globalFunctionRefContent, groups);
    }

    log.WriteFile(ReferenceFile, functionRefContent);
    log.WriteFile(GlobalReferenceFile, globalFunctionRefContent);
  }

  /** Lines 75-105: adds entry `i` to its group, or to the reference
      fragments (and to the global one when it is global); an entry whose
      group already exists only grows that group. */
  method IndexFunction(h: Helpers, catalog: seq<Function>, i: nat, functionFile: string,
                       refContent: string, globalRefContent: string, groups0: map<string, Group>)
    returns (functionRefContent: string, globalFunctionRefContent: string, groups: map<string, Group>)
    requires i < |catalog| && functionFile == FunctionFile(catalog[i].name)
    requires refContent == Accumulated(PairsOf(h, IndexEntries(catalog, i)))
    requires globalRefContent == Accumulated(PairsOf(h, GlobalEntries(catalog, i)))
    requires GroupsAfter(h, catalog, i, groups0)
    ensures functionRefContent == Accumulated(PairsOf(h, IndexEntries(catalog, i + 1)))
    ensures globalFunctionRefContent == Accumulated(PairsOf(h, GlobalEntries(catalog, i + 1)))
    ensures GroupsAfter(h, catalog, i + 1, groups)
  {
    var f := catalog[i];
    functionRefContent, globalFunctionRefContent, groups := refContent, globalRefContent, groups0;
    var partialImport := h.Import(functionFile, ReferenceFile);
    var partialUse := h.Use(f.name);

    IndexesStep(h, catalog, i);
    EntryContribution(h, catalog, i, groups);
    if f.group != "" {
      var groupId := ToLower(f.group);
      var groupExists := groupId in groups;
      var group := if groupExists then groups[groupId] else Group(f.group, Base + "group_" + groupId + ".mdx", "\n\n");
      if groupExists {
        OwnGroupGrows(h, catalog, i);
      } else {
        OwnGroupCreated(h, catalog, i);
      }
      group := group.(content := partialImport + group.content + partialUse);
      GroupedUpdatesOwnGroup(h, catalog, i, groups, group);
      groups := groups[groupId := group];

      if groupExists {
        return;
      }

      partialImport := h.Import(group.file, ReferenceFile);
      partialUse := h.Use(group.file);
    } else {
      UngroupedKeepsGroups(h, catalog, i, groups);
    }
    assert IndexStep(catalog, i) != [] && PairOf(h, IndexStep(catalog, i)[0]) == Pair(partialImport, partialUse);

    functionRefContent := partialImport + functionRefContent + partialUse;

    if f.isGlobal {
      globalFunctionRefContent := partialImport + globalFunctionRefContent + partialUse;
    }
  }

  /** What entry `i` contributes to the reference fragment, in the terms of
      the groups met so far. */
  lemma EntryContribution(h: Helpers, c: seq<Function>, i: nat, groups: map<string, Group>)
    requires i < |c| && GroupsAfter(h, c, i, groups)
    ensures c[i].group == "" ==> IndexStep(c, i) == [Own(c[i].name)]
    ensures c[i].group != "" && ToLower(c[i].group) in groups ==> IndexStep(c, i) == []
    ensures c[i].group != "" && ToLower(c[i].group) !in groups ==> IndexStep(c, i) == [OfGroup(ToLower(c[i].group))]
  {
  }

  /** Lines 41-68: collects the entry's flag fragments, writes them, then
      writes the function's page importing them. */
  method WriteFunctionPage(h: Helpers, f: Function, log: FileLog) returns (functionFile: string)
    modifies log
    ensures functionFile == FunctionFile(f.name)
    ensures log.writes == old(log.writes) + EntryWrites(h, f)
  {
    functionFile := Base + f.name + ".mdx";
    var partialImports := new PathList();
    var flagContent := "";
    ghost var before := log.writes;
    if f.flags.Some? {
      flagContent := GetFlagReference(h, f.name, f.flags.value, partialImports, log);
    }
    FlagWalkDone(h, f, before, log.writes, partialImports.paths, flagContent);

    var importContent := ImportContent(h, partialImports.paths, functionFile);

    var argEnum := "";
    if f.argEnum.Some? {
      argEnum := "<span>" + Join(f.argEnum.value, " ") + "</span>";
    }

    var anchorName := f.name;
    var functionContent := importContent + "\n" + h.Ref(RefArgs(flagContent != "", "### ", f.name, f.args, argEnum,
                                                                        f.returnType, !f.isGlobal, anchorName,
                                                                        f.description, flagContent));
    assert functionContent == FunctionPage(h, f);
    log.WriteFile(functionFile, functionContent);
    AppendAssociative(before, FlagWrites(h, f.name, FlagsOf(f)), [Write(functionFile, functionContent)]);
  }

  /** What the flag walk of an entry leaves behind, whether or not the entry
      has an options structure. */
  lemma FlagWalkDone(h: Helpers, f: Function, before: seq<Write>, after: seq<Write>,
                     paths: seq<string>, flagContent: string)
    requires f.flags.None? ==> after == before && paths == [] && flagContent == ""
    requires f.flags.Some? ==>
      && after == before + FlagWrites(h, f.name, FlagsOf(f))
      && paths == [] + FlagFiles(f.name, FlagsOf(f))
      && flagContent == FlagContent(h, f)
    ensures paths == FlagFiles(f.name, FlagsOf(f)) && flagContent == FlagContent(h, f)
    ensures after == before + FlagWrites(h, f.name, FlagsOf(f))
  {
    if f.flags.None? {
      assert FlagsOf(f) == [];
    }
  }
}
