/** Flag extraction (`getFlagReference` in docs/hack/functions/main.go): the
    fields of an options structure are walked in declaration order, embedded
    structures are expanded in place, fields without a `long` tag are skipped,
    and every flag gets its own fragment file, a "use" directive in the
    function's flag content and an entry in the function's import list. */
module FlagReference {
  import opened Util
  import opened Strings
  import opened Naming

  /** A field of an options structure: an embedded (anonymous) structure,
      given by its own fields, or a named field with its `long`, `short` and
      `description` tags (empty when absent) and the name of its type. */
  datatype Field =
    | Embedded(fields: seq<Field>)
    | Tagged(long: string, short: string, description: string, typeName: string)

  /** A flag descriptor. */
  datatype Flag = Flag(long: string, short: string, description: string, typeName: string)

  /** The flags of a structure, in declaration order, embedded structures
      spliced in at the point of embedding. */
  function Flags(fields: seq<Field>): seq<Flag>
    decreases fields
  {
    if fields == [] then [] else FieldFlags(fields[0]) + Flags(fields[1..])
  }

  /** The flags one field contributes. */
  function FieldFlags(f: Field): seq<Flag>
    decreases f
  {
    match f
    case Embedded(inner) => Flags(inner)
    case Tagged(long, short, description, typeName) =>
      if long == "" then [] else [Flag(long, short, description, typeName)]
  }

  lemma {:induction false} FlagsAppend(a: seq<Field>, b: seq<Field>)
    ensures Flags(a + b) == Flags(a) + Flags(b)
  {
    if a == [] {
      assert a + b == b;
    } else {
      assert (a + b)[0] == a[0];
      assert (a + b)[1..] == a[1..] + b;
      FlagsAppend(a[1..], b);
    }
  }

  /** An embedded structure's flags appear at the embedding point, not after
      the flags declared around it. */
  lemma EmbeddedInPlace(before: seq<Field>, inner: seq<Field>, after: seq<Field>)
    ensures Flags(before + [Embedded(inner)] + after) == Flags(before) + Flags(inner) + Flags(after)
  {
    FlagsAppend(before + [Embedded(inner)], after);
    FlagsAppend(before, [Embedded(inner)]);
  }

  /** A field without a `long` tag contributes nothing. */
  lemma UntaggedSkipped(before: seq<Field>, short: string, description: string, typeName: string, after: seq<Field>)
    ensures Flags(before + [Tagged("", short, description, typeName)] + after) == Flags(before) + Flags(after)
  {
    FlagsAppend(before + [Tagged("", short, description, typeName)], after);
    FlagsAppend(before, [Tagged("", short, description, typeName)]);
  }

  /** Every extracted flag has a non-empty long name. */
  lemma {:induction false} FlagsHaveLongNames(fields: seq<Field>)
    ensures forall k :: 0 <= k < |Flags(fields)| ==> Flags(fields)[k].long != ""
    decreases fields
  {
    if fields != [] {
      FlagsHaveLongNames(fields[1..]);
      match fields[0]
      case Embedded(inner) =>
        FlagsHaveLongNames(inner);
        assert FieldFlags(fields[0]) == Flags(inner);
      case Tagged(_, _, _, _) =>
    }
  }

  /** One embedded structure with two flags followed by one direct flag
      yields three flags, in declaration order. */
  lemma EmbeddedThenDirect(e1: Field, e2: Field, direct: Field)
    requires e1.Tagged? && e2.Tagged? && direct.Tagged?
    requires e1.long != "" && e2.long != "" && direct.long != ""
    ensures Flags([Embedded([e1, e2]), direct]) ==
      [ Flag(e1.long, e1.short, e1.description, e1.typeName),
        Flag(e2.long, e2.short, e2.description, e2.typeName),
        Flag(direct.long, direct.short, direct.description, direct.typeName) ]
  {
    var f1 := Flag(e1.long, e1.short, e1.description, e1.typeName);
    var f2 := Flag(e2.long, e2.short, e2.description, e2.typeName);
    var f3 := Flag(direct.long, direct.short, direct.description, direct.typeName);
    assert Flags([e2]) == [f2] by { assert [e2][1..] == []; }
    assert Flags([e1, e2]) == [f1, f2] by { assert [e1, e2][1..] == [e2]; }
    assert Flags([direct]) == [f3] by { assert [direct][1..] == []; }
    assert [Embedded([e1, e2]), direct][1..] == [direct];
  }

  /** The import paths a function's flags add, one per flag, in order. */
  function FlagFiles(functionName: string, flags: seq<Flag>): seq<string>
  {
    if flags == [] then [] else [FlagFile(functionName, flags[0].long)] + FlagFiles(functionName, flags[1..])
  }

  /** The "use" directives of a function's flags, one per flag, in order. */
  function FlagUses(h: Helpers, functionName: string, flags: seq<Flag>): seq<string>
  {
    if flags == [] then [] else [h.Use(FlagFile(functionName, flags[0].long))] + FlagUses(h, functionName, flags[1..])
  }

  /** The arguments a flag's own fragment is rendered with. */
  function FlagRefArgs(functionName: string, flag: Flag): (r: RefArgs)
    ensures r.anchor == functionName + "-" + flag.long
    ensures r.name == FlagDisplayName(flag.long, flag.short)
    ensures r.args == flag.typeName && r.description == flag.description
    ensures !r.hasFlags && r.content == ""
  {
    RefArgs(false, "#### ", FlagDisplayName(flag.long, flag.short), flag.typeName, "", "", false,
            FlagAnchor(functionName, flag.long), flag.description, "")
  }

  /** The fragment files written for a function's flags, in order. */
  function FlagWrites(h: Helpers, functionName: string, flags: seq<Flag>): seq<Write>
  {
    if flags == [] then []
    else [Write(FlagFile(functionName, flags[0].long), h.Ref(FlagRefArgs(functionName, flags[0])))]
         + FlagWrites(h, functionName, flags[1..])
  }

  /** The use directives and the import paths match one to one: same length,
      and the k-th use directive names the k-th import path. */
  lemma {:induction false} UsesMatchImports(h: Helpers, functionName: string, flags: seq<Flag>)
    ensures |FlagUses(h, functionName, flags)| == |FlagFiles(functionName, flags)| == |flags|
    ensures forall k :: 0 <= k < |flags| ==>
      FlagUses(h, functionName, flags)[k] == h.Use(FlagFiles(functionName, flags)[k])
  {
    if flags != [] {
      UsesMatchImports(h, functionName, flags[1..]);
    }
  }

  lemma {:induction false} FlagOutputsAppend(h: Helpers, functionName: string, a: seq<Flag>, b: seq<Flag>)
    ensures FlagFiles(functionName, a + b) == FlagFiles(functionName, a) + FlagFiles(functionName, b)
    ensures FlagUses(h, functionName, a + b) == FlagUses(h, functionName, a) + FlagUses(h, functionName, b)
    ensures FlagWrites(h, functionName, a + b) == FlagWrites(h, functionName, a) + FlagWrites(h, functionName, b)
  {
    if a == [] {
      assert a + b == b;
    } else {
      assert (a + b)[0] == a[0];
      assert (a + b)[1..] == a[1..] + b;
      FlagOutputsAppend(h, functionName, a[1..], b);
    }
  }

  /** The flags of the first `i + 1` fields extend those of the first `i`. */
  lemma FlagsPrefixStep(fields: seq<Field>, i: nat)
    requires i < |fields|
    ensures Flags(fields[..i + 1]) == Flags(fields[..i]) + FieldFlags(fields[i])
  {
    assert fields[..i + 1] == fields[..i] + [fields[i]];
    FlagsAppend(fields[..i], [fields[i]]);
  }

  /** The prefix step for an embedded field and for a tagged one. */
  lemma EmbeddedStep(fields: seq<Field>, i: nat)
    requires i < |fields| && fields[i].Embedded?
    ensures Flags(fields[..i + 1]) == Flags(fields[..i]) + Flags(fields[i].fields)
  {
    FlagsPrefixStep(fields, i);
  }

  lemma TaggedStep(fields: seq<Field>, i: nat)
    requires i < |fields| && fields[i].Tagged?
    ensures fields[i].long == "" ==> Flags(fields[..i + 1]) == Flags(fields[..i])
    ensures fields[i].long != "" ==>
      Flags(fields[..i + 1]) == Flags(fields[..i]) + [Flag(fields[i].long, fields[i].short, fields[i].description, fields[i].typeName)]
  {
    FlagsPrefixStep(fields, i);
  }

  /** Outputs of a concatenation of flag lists are the concatenation of their
      outputs. */
  lemma OutputsStep(h: Helpers, functionName: string, done: seq<Flag>, more: seq<Flag>)
    ensures FlagFiles(functionName, done + more) == FlagFiles(functionName, done) + FlagFiles(functionName, more)
    ensures FlagWrites(h, functionName, done + more) == FlagWrites(h, functionName, done) + FlagWrites(h, functionName, more)
    ensures Concat(FlagUses(h, functionName, done + more)) ==
      Concat(FlagUses(h, functionName, done)) + Concat(FlagUses(h, functionName, more))
  {
    FlagOutputsAppend(h, functionName, done, more);
    ConcatAppend(FlagUses(h, functionName, done), FlagUses(h, functionName, more));
  }

  /** The outputs of a single flag. */
  lemma OneFlagOutputs(h: Helpers, functionName: string, flag: Flag)
    ensures FlagFiles(functionName, [flag]) == [FlagFile(functionName, flag.long)]
    ensures FlagWrites(h, functionName, [flag]) ==
      [Write(FlagFile(functionName, flag.long), h.Ref(FlagRefArgs(functionName, flag)))]
    ensures Concat(FlagUses(h, functionName, [flag])) == h.Use(FlagFile(functionName, flag.long))
  {
    assert [flag][1..] == [];
    assert Concat(FlagUses(h, functionName, [flag])) == h.Use(FlagFile(functionName, flag.long)) + Concat([]);
  }

  /** The fragment of a flag is rendered with its display name, its type,
      its anchor and its description. */
  lemma FlagRefArgsSpelledOut(functionName: string, flag: Flag)
    ensures FlagRefArgs(functionName, flag) ==
      RefArgs(false, "#### ", "--" + flag.long + (if flag.short != "" then " / -" + flag.short else ""),
              flag.typeName, "", "", false, functionName + "-" + flag.long, flag.description, "")
  {
  }

  lemma AppendAssociative<T>(a: seq<T>, b: seq<T>, c: seq<T>)
    ensures (a + b) + c == a + (b + c)
  {
  }

  /** `*[]string`: the caller's list of import paths, appended to through a
      reference. */
  class PathList {
    var paths: seq<string>

    constructor ()
      ensures paths == []
    {
      paths := [];
    }
  }

  /** `getFlagReference`: writes one fragment per flag, appends the flags'
      files to `imports` and returns their use directives, all in extraction
      order. */
  method GetFlagReference(h: Helpers, functionName: string, fields: seq<Field>, imports: PathList, log: FileLog)
    returns (content: string)
    modifies imports, log
    decreases fields
    ensures content == Concat(FlagUses(h, functionName, Flags(fields)))
    ensures imports.paths == old(imports.paths) + FlagFiles(functionName, Flags(fields))
    ensures log.writes == old(log.writes) + FlagWrites(h, functionName, Flags(fields))
  {
    content := "";
    ghost var done: seq<Flag> := [];
    ghost var paths0, writes0 := imports.paths, log.writes;
    for i := 0 to |fields|
      invariant done == Flags(fields[..i])
      invariant content == Concat(FlagUses(h, functionName, done))
      invariant imports.paths == paths0 + FlagFiles(functionName, done)
      invariant log.writes == writes0 + FlagWrites(h, functionName, done)
    {
      match fields[i]
      case Embedded(inner) =>
        EmbeddedStep(fields, i);
        OutputsStep(h, functionName, done, Flags(inner));
        AppendAssociative(paths0, FlagFiles(functionName, done), FlagFiles(functionName, Flags(inner)));
        AppendAssociative(writes0, FlagWrites(h, functionName, done), FlagWrites(h, functionName, Flags(inner)));
        var nested := GetFlagReference(h, functionName, inner, imports, log);
        content := content + nested;
        done := done + Flags(inner);
      case Tagged(long, short, description, typeName) =>
        TaggedStep(fields, i);
        if long == "" {
          continue;
        }
        ghost var flag := Flag(long, short, description, typeName);
        OutputsStep(h, functionName, done, [flag]);
        OneFlagOutputs(h, functionName, flag);
        AppendAssociative(paths0, FlagFiles(functionName, done), FlagFiles(functionName, [flag]));
        AppendAssociative(writes0, FlagWrites(h, functionName, done), FlagWrites(h, functionName, [flag]));
        FlagRefArgsSpelledOut(functionName, flag);
        var shortSuffix := short;
        if shortSuffix != "" {
          shortSuffix := " / -" + shortSuffix;
        }
        var anchorName := functionName + "-" + long;
        var flagContent := h.Ref(RefArgs(false, "#### ", "--" + long + shortSuffix, typeName, "", "", false,
                                                 anchorName, description, ""));
        var flagFile := Base + functionName + "/" + long + ".mdx";
        log.WriteFile(flagFile, flagContent);
        content := content + h.Use(flagFile);
        imports.paths := imports.paths + [flagFile];
        done := done + [flag];
    }
    assert fields[..|fields|] == fields;
  }
}
