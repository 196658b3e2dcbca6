/** What the two index fragments and the group fragments of
    docs/hack/functions/main.go contain, stated over the catalog: which
    entries each index transcludes, in which order, and what each group
    accumulates. The loop that builds them is `Generator.GenerateReference`. */
module FunctionIndex {
  import opened Util
  import Strings
  import opened Naming
  import opened FlagReference

  /** One catalog row (`Function`); the `Handler` is not modelled and the
      options structure, when present, is given by its fields. */
  datatype Function = Function(
    name: string,
    flags: Option<seq<Field>>,
    description: string,
    args: string,
    argEnum: Option<seq<string>>,
    returnType: string,
    group: string,
    isGlobal: bool)

  /** What an index or a group transcludes: a function's own fragment or a
      group's fragment. */
  datatype Entry = Own(name: string) | OfGroup(id: string)

  /** An import directive and the matching use directive. */
  datatype Pair = Pair(imp: string, use: string)

  /** The directives that transclude an entry into the reference fragment:
      a function is used under the name derived from its name, a group under
      the name derived from its file. */
  function PairOf(h: Helpers, e: Entry): (r: Pair)
    ensures e.Own? ==> r.imp == h.Import(FunctionFile(e.name), ReferenceFile) && r.use == h.Use(e.name)
    ensures e.OfGroup? ==> r.imp == h.Import(GroupFile(e.id), ReferenceFile) && r.use == h.Use(GroupFile(e.id))
  {
    match e
    case Own(name) => Pair(h.Import(FunctionFile(name), ReferenceFile), h.Use(name))
    case OfGroup(id) => Pair(h.Import(GroupFile(id), ReferenceFile), h.Use(GroupFile(id)))
  }

  function PairsOf(h: Helpers, es: seq<Entry>): seq<Pair>
  {
    if es == [] then [] else PairsOf(h, es[..|es| - 1]) + [PairOf(h, es[|es| - 1])]
  }

  lemma PairsOfSnoc(h: Helpers, es: seq<Entry>, e: Entry)
    ensures PairsOf(h, es + [e]) == PairsOf(h, es) + [PairOf(h, e)]
  {
    assert (es + [e])[..|es|] == es;
  }

  // ----- Accumulated text -----

  /** The imports of a list of pairs, the last pair's first. */
  function Imports(ps: seq<Pair>): string
  {
    if ps == [] then "" else Imports(ps[1..]) + ps[0].imp
  }

  /** The uses of a list of pairs, in order. */
  function Uses(ps: seq<Pair>): string
  {
    if ps == [] then "" else ps[0].use + Uses(ps[1..])
  }

  /** The text accumulated from pairs contributed in the order of `ps`: the
      imports in reverse order, the blank separator, the uses in order. */
  function Accumulated(ps: seq<Pair>): string
  {
    Imports(ps) + "\n\n" + Uses(ps)
  }

  lemma {:induction false} ImportsSnoc(ps: seq<Pair>, p: Pair)
    ensures Imports(ps + [p]) == p.imp + Imports(ps)
  {
    if ps == [] {
      assert ([] + [p])[1..] == [];
    } else {
      assert (ps + [p])[1..] == ps[1..] + [p];
      ImportsSnoc(ps[1..], p);
    }
  }

  lemma {:induction false} UsesSnoc(ps: seq<Pair>, p: Pair)
    ensures Uses(ps + [p]) == Uses(ps) + p.use
  {
    if ps == [] {
      assert ([] + [p])[1..] == [];
    } else {
      assert (ps + [p])[1..] == ps[1..] + [p];
      UsesSnoc(ps[1..], p);
    }
  }

  /** Contributing a pair by prepending its import and appending its use,
      starting from the blank separator, yields exactly the accumulated text
      of the pairs in contribution order. */
  lemma AccumulateStep(ps: seq<Pair>, p: Pair)
    ensures p.imp + Accumulated(ps) + p.use == Accumulated(ps + [p])
    ensures Accumulated([]) == "\n\n"
  {
    ImportsSnoc(ps, p);
    UsesSnoc(ps, p);
  }

  /** Accumulating the entries `es`, then the at most one entry of `step`. */
  lemma AccumulateEntries(h: Helpers, es: seq<Entry>, step: seq<Entry>)
    requires |step| <= 1
    ensures step == [] ==> Accumulated(PairsOf(h, es + step)) == Accumulated(PairsOf(h, es))
    ensures step != [] ==>
      Accumulated(PairsOf(h, es + step)) == PairOf(h, step[0]).imp + Accumulated(PairsOf(h, es)) + PairOf(h, step[0]).use
  {
    if step == [] {
      assert es + step == es;
    } else {
      assert step == [step[0]];
      PairsOfSnoc(h, es, step[0]);
      AccumulateStep(PairsOf(h, es), PairOf(h, step[0]));
    }
  }

  // ----- Groups -----

  /** The ids of the groups met among the first `n` entries. */
  function GroupIds(c: seq<Function>, n: nat): set<string>
    requires n <= |c|
  {
    if n == 0 then {}
    else GroupIds(c, n - 1) + (if c[n - 1].group != "" then {GroupId(c[n - 1].group)} else {})
  }

  lemma {:induction false} GroupIdsMembership(c: seq<Function>, n: nat, id: string)
    requires n <= |c|
    ensures id in GroupIds(c, n) <==> exists k :: 0 <= k < n && c[k].group != "" && GroupId(c[k].group) == id
  {
    if n > 0 {
      GroupIdsMembership(c, n - 1, id);
    }
  }

  /** Whether entry `k` is the first of its group. */
  predicate IsFirstOfGroup(c: seq<Function>, k: nat)
    requires k < |c|
  {
    c[k].group != "" && GroupId(c[k].group) !in GroupIds(c, k)
  }

  /** The first member of a group, among the first `n` entries. */
  function FirstMember(c: seq<Function>, n: nat, id: string): (k: nat)
    requires n <= |c| && id in GroupIds(c, n)
    ensures k < n && IsFirstOfGroup(c, k) && GroupId(c[k].group) == id
  {
    if id in GroupIds(c, n - 1) then FirstMember(c, n - 1, id) else n - 1
  }

  /** Once met, a group keeps its first member. */
  lemma {:induction false} FirstMemberStable(c: seq<Function>, m: nat, n: nat, id: string)
    requires m <= n <= |c| && id in GroupIds(c, m)
    ensures id in GroupIds(c, n) && FirstMember(c, n, id) == FirstMember(c, m, id)
    decreases n
  {
    if n > m {
      FirstMemberStable(c, m, n - 1, id);
    }
  }

  /** The entries a group transcludes: its members' own fragments, in
      catalog order. */
  function Members(c: seq<Function>, n: nat, id: string): seq<Entry>
    requires n <= |c|
  {
    if n == 0 then []
    else
      var f := c[n - 1];
      Members(c, n - 1, id) + (if f.group != "" && GroupId(f.group) == id then [Own(f.name)] else [])
  }

  /** A group has members exactly when it has been met. */
  lemma {:induction false} MembersNonEmpty(c: seq<Function>, n: nat, id: string)
    requires n <= |c|
    ensures Members(c, n, id) != [] <==> id in GroupIds(c, n)
  {
    if n > 0 {
      MembersNonEmpty(c, n - 1, id);
    }
  }

  /** Every grouped entry, the first and all later ones, is transcluded by
      its group; and a group transcludes nothing else. */
  lemma {:induction false} MembersExactly(c: seq<Function>, n: nat, id: string, e: Entry)
    requires n <= |c|
    ensures e in Members(c, n, id) <==>
      exists k :: 0 <= k < n && c[k].group != "" && GroupId(c[k].group) == id && e == Own(c[k].name)
  {
    if n > 0 {
      MembersExactly(c, n - 1, id, e);
    }
  }

  /** Group `id` after the first `n` entries: named by the label of its
      first member, stored in the file derived from its id, holding the
      accumulated directives of all its members. */
  function GroupAfter(h: Helpers, c: seq<Function>, n: nat, id: string): Group
    requires n <= |c| && id in GroupIds(c, n)
  {
    Group(c[FirstMember(c, n, id)].group, GroupFile(id), Accumulated(PairsOf(h, Members(c, n, id))))
  }

  /** `groups` holds exactly the groups met among the first `n` entries,
      each as `GroupAfter` describes it. */
  ghost predicate GroupsAfter(h: Helpers, c: seq<Function>, n: nat, groups: map<string, Group>)
    requires n <= |c|
  {
    && groups.Keys == GroupIds(c, n)
    && forall id :: id in groups ==> groups[id] == GroupAfter(h, c, n, id)
  }

  /** Each group is created once, keyed by its lower-cased label: its name is
      the label of the entry that first named it and its file is derived from
      its id; later members never replace them. */
  lemma GroupIdentityStable(h: Helpers, c: seq<Function>, m: nat, n: nat, id: string)
    requires m <= n <= |c| && id in GroupIds(c, m)
    ensures id in GroupIds(c, n)
    ensures GroupAfter(h, c, n, id).name == GroupAfter(h, c, m, id).name
    ensures GroupAfter(h, c, n, id).file == Base + "group_" + id + ".mdx"
    ensures exists k ::
              && 0 <= k < m && IsFirstOfGroup(c, k) && GroupId(c[k].group) == id
              && GroupAfter(h, c, n, id).name == c[k].group
  {
    FirstMemberStable(c, m, n, id);
    var k := FirstMember(c, m, id);
    assert GroupAfter(h, c, n, id).name == c[k].group;
  }

  /** Every group key is already lower-cased: looking a key up again by
      its own lower-case form finds the same group and the same file. */
  lemma GroupKeysLowerCase(c: seq<Function>, n: nat, id: string)
    requires n <= |c| && id in GroupIds(c, n)
    ensures GroupId(id) == id && GroupFile(GroupId(id)) == GroupFile(id)
  {
    GroupIdsMembership(c, n, id);
    var k :| 0 <= k < n && c[k].group != "" && GroupId(c[k].group) == id;
    Strings.ToLowerIdempotent(c[k].group);
  }

  /** An entry leaves every group other than its own as it was. */
  lemma OtherGroupUnchanged(h: Helpers, c: seq<Function>, i: nat, k: string)
    requires i < |c| && k in GroupIds(c, i)
    requires c[i].group == "" || GroupId(c[i].group) != k
    ensures k in GroupIds(c, i + 1) && GroupAfter(h, c, i + 1, k) == GroupAfter(h, c, i, k)
  {
    FirstMemberStable(c, i, i + 1, k);
    assert Members(c, i + 1, k) == Members(c, i, k);
  }

  /** A later member adds its own directives around its group's content. */
  lemma OwnGroupGrows(h: Helpers, c: seq<Function>, i: nat)
    requires i < |c| && c[i].group != "" && GroupId(c[i].group) in GroupIds(c, i)
    ensures
      var id, own := GroupId(c[i].group), PairOf(h, Own(c[i].name));
      var g := GroupAfter(h, c, i, id);
      GroupAfter(h, c, i + 1, id) == g.(content := own.imp + g.content + own.use)
  {
    var j, id, e := i + 1, GroupId(c[i].group), Own(c[i].name);
    var members := Members(c, i, id);
    FirstMemberStable(c, i, j, id);
    assert Members(c, j, id) == members + [e];
    PairsOfSnoc(h, members, e);
    AccumulateStep(PairsOf(h, members), PairOf(h, e));
  }

  /** The first member creates its group, named by its own label, holding its
      own directives around the blank separator. */
  lemma OwnGroupCreated(h: Helpers, c: seq<Function>, i: nat)
    requires i < |c| && c[i].group != "" && GroupId(c[i].group) !in GroupIds(c, i)
    ensures
      var id, own := GroupId(c[i].group), PairOf(h, Own(c[i].name));
      GroupAfter(h, c, i + 1, id) == Group(c[i].group, GroupFile(id), own.imp + "\n\n" + own.use)
  {
    var id, own := GroupId(c[i].group), PairOf(h, Own(c[i].name));
    MembersNonEmpty(c, i, id);
    assert Members(c, i + 1, id) == [Own(c[i].name)];
    PairsOfSnoc(h, [], Own(c[i].name));
    AccumulateStep([], own);
  }

  /** An ungrouped entry leaves the groups alone. */
  lemma UngroupedKeepsGroups(h: Helpers, c: seq<Function>, i: nat, groups: map<string, Group>)
    requires i < |c| && c[i].group == "" && GroupsAfter(h, c, i, groups)
    ensures GroupsAfter(h, c, i + 1, groups)
  {
    var j := i + 1;
    assert GroupIds(c, j) == GroupIds(c, i);
    forall k | k in groups ensures groups[k] == GroupAfter(h, c, j, k) {
      OtherGroupUnchanged(h, c, i, k);
    }
  }

  /** A grouped entry replaces its own group and no other. */
  lemma GroupedUpdatesOwnGroup(h: Helpers, c: seq<Function>, i: nat, groups: map<string, Group>, g: Group)
    requires i < |c| && c[i].group != "" && GroupsAfter(h, c, i, groups)
    requires g == GroupAfter(h, c, i + 1, GroupId(c[i].group))
    ensures GroupsAfter(h, c, i + 1, groups[GroupId(c[i].group) := g])
  {
    var id := GroupId(c[i].group);
    var after := groups[id := g];
    assert GroupIds(c, i + 1) == GroupIds(c, i) + {id};
    forall k | k in after ensures after[k] == GroupAfter(h, c, i + 1, k) {
      if k != id {
        OtherGroupUnchanged(h, c, i, k);
      }
    }
  }

  // ----- The two indexes -----

  /** What entry `k` contributes to the reference fragment: an ungrouped
      function itself, the first member of a group the group, a later member
      nothing. */
  function IndexStep(c: seq<Function>, k: nat): (r: seq<Entry>)
    requires k < |c|
    ensures |r| <= 1
    ensures r == [] <==> c[k].group != "" && !IsFirstOfGroup(c, k)
  {
    if c[k].group == "" then [Own(c[k].name)]
    else if IsFirstOfGroup(c, k) then [OfGroup(GroupId(c[k].group))]
    else []
  }

  /** The entries of the reference fragment after the first `n` entries, in
      contribution order. */
  function IndexEntries(c: seq<Function>, n: nat): seq<Entry>
    requires n <= |c|
  {
    if n == 0 then [] else IndexEntries(c, n - 1) + IndexStep(c, n - 1)
  }

  /** The entries of the global reference fragment: whatever a global entry
      contributed to the reference fragment on the same iteration. */
  function GlobalEntries(c: seq<Function>, n: nat): seq<Entry>
    requires n <= |c|
  {
    if n == 0 then [] else GlobalEntries(c, n - 1) + (if c[n - 1].isGlobal then IndexStep(c, n - 1) else [])
  }

  function UngroupedCount(c: seq<Function>, n: nat): nat
    requires n <= |c|
  {
    if n == 0 then 0 else UngroupedCount(c, n - 1) + (if c[n - 1].group == "" then 1 else 0)
  }

  lemma StepGroupIds(c: seq<Function>, k: nat)
    requires k < |c|
    ensures IndexStep(c, k) == [] || c[k].group == "" ==> GroupIds(c, k + 1) == GroupIds(c, k)
    ensures IndexStep(c, k) != [] && c[k].group != "" ==>
      && GroupIds(c, k + 1) == GroupIds(c, k) + {GroupId(c[k].group)}
      && GroupId(c[k].group) !in GroupIds(c, k)
      && IndexStep(c, k) == [OfGroup(GroupId(c[k].group))]
  {
  }

  /** One iteration of the loop on the two index fragments: an entry that
      reaches the index contributes its pair to the reference fragment, and
      the same pair to the global one exactly when the entry is global; a
      later group member contributes to neither. */
  lemma IndexesStep(h: Helpers, c: seq<Function>, i: nat)
    requires i < |c|
    ensures
      var step, ref, global := IndexStep(c, i), IndexEntries(c, i), GlobalEntries(c, i);
      var ref', global' := IndexEntries(c, i + 1), GlobalEntries(c, i + 1);
      && (step == [] ==>
            && Accumulated(PairsOf(h, ref')) == Accumulated(PairsOf(h, ref))
            && Accumulated(PairsOf(h, global')) == Accumulated(PairsOf(h, global)))
      && (step != [] ==>
            var p := PairOf(h, step[0]);
            && Accumulated(PairsOf(h, ref')) == p.imp + Accumulated(PairsOf(h, ref)) + p.use
            && Accumulated(PairsOf(h, global')) ==
                 if c[i].isGlobal then p.imp + Accumulated(PairsOf(h, global)) + p.use
                 else Accumulated(PairsOf(h, global)))
  {
    var step := IndexStep(c, i);
    AccumulateEntries(h, IndexEntries(c, i), step);
    AccumulateEntries(h, GlobalEntries(c, i), if c[i].isGlobal then step else []);
  }

  /** What one entry adds to the counts: an entry of its own, or one new
      group, or nothing. */
  lemma StepCount(c: seq<Function>, k: nat)
    requires k < |c|
    requires |IndexEntries(c, k)| == UngroupedCount(c, k) + |GroupIds(c, k)|
    ensures |IndexEntries(c, k + 1)| == UngroupedCount(c, k + 1) + |GroupIds(c, k + 1)|
  {
    StepGroupIds(c, k);
    if IndexStep(c, k) != [] && c[k].group != "" {
      var before, id := GroupIds(c, k), GroupId(c[k].group);
      assert |before + {id}| == |before| + 1;
    }
  }

  /** The reference fragment has one entry per ungrouped function plus one
      per distinct group. */
  lemma {:induction false} IndexEntryCount(c: seq<Function>, n: nat)
    requires n <= |c|
    ensures |IndexEntries(c, n)| == UngroupedCount(c, n) + |GroupIds(c, n)|
  {
    if n > 0 {
      var m := n - 1;
      IndexEntryCount(c, m);
      StepCount(c, m);
    }
  }

  lemma StepGroupCount(c: seq<Function>, k: nat, id: string)
    requires k < |c|
    requires multiset(IndexEntries(c, k))[OfGroup(id)] == if id in GroupIds(c, k) then 1 else 0
    ensures multiset(IndexEntries(c, k + 1))[OfGroup(id)] == if id in GroupIds(c, k + 1) then 1 else 0
  {
    var j, step := k + 1, IndexStep(c, k);
    StepGroupIds(c, k);
    assert IndexEntries(c, j) == IndexEntries(c, k) + step;
    assert multiset(IndexEntries(c, j)) == multiset(IndexEntries(c, k)) + multiset(step);
    if step == [] || c[k].group == "" {
      assert multiset(step)[OfGroup(id)] == 0;
    } else {
      assert step == [OfGroup(GroupId(c[k].group))];
    }
  }

  /** Every group met is transcluded exactly once by the reference fragment,
      and no other group is. */
  lemma {:induction false} GroupIndexedOnce(c: seq<Function>, n: nat, id: string)
    requires n <= |c|
    ensures multiset(IndexEntries(c, n))[OfGroup(id)] == if id in GroupIds(c, n) then 1 else 0
  {
    if n > 0 {
      var m := n - 1;
      GroupIndexedOnce(c, m, id);
      StepGroupCount(c, m, id);
    }
  }

  /** A function's own fragment is in the reference fragment exactly when an
      ungrouped entry has that name: grouped functions never appear
      individually. */
  lemma {:induction false} OwnIndexed(c: seq<Function>, n: nat, name: string)
    requires n <= |c|
    ensures Own(name) in IndexEntries(c, n) <==> exists k :: 0 <= k < n && c[k].group == "" && c[k].name == name
  {
    if n > 0 {
      OwnIndexed(c, n - 1, name);
    }
  }

  /** A group is in the global reference fragment exactly when its first
      member is global, whatever its later members are. */
  lemma {:induction false} GlobalGroupEntry(c: seq<Function>, n: nat, id: string)
    requires n <= |c|
    ensures OfGroup(id) in GlobalEntries(c, n) <==> id in GroupIds(c, n) && c[FirstMember(c, n, id)].isGlobal
  {
    if n > 0 {
      GlobalGroupEntry(c, n - 1, id);
      if id in GroupIds(c, n - 1) {
        FirstMemberStable(c, n - 1, n, id);
      }
    }
  }

  /** A function's own fragment is in the global reference fragment exactly
      when an ungrouped global entry has that name. */
  lemma {:induction false} GlobalOwnEntry(c: seq<Function>, n: nat, name: string)
    requires n <= |c|
    ensures Own(name) in GlobalEntries(c, n) <==>
      exists k :: 0 <= k < n && c[k].group == "" && c[k].isGlobal && c[k].name == name
  {
    if n > 0 {
      GlobalOwnEntry(c, n - 1, name);
    }
  }

  /** `a` is `b` with some entries left out: `pos` gives, in increasing
      order, the place in `b` of each entry of `a`. */
  ghost predicate EmbedsInOrder(a: seq<Entry>, b: seq<Entry>, pos: seq<nat>)
  {
    && |pos| == |a|
    && (forall j :: 0 <= j < |a| ==> pos[j] < |b| && a[j] == b[pos[j]])
    && (forall j, j' :: 0 <= j < j' < |a| ==> pos[j] < pos[j'])
  }

  lemma EmbedsStep(a: seq<Entry>, b: seq<Entry>, pos: seq<nat>, step: seq<Entry>, keep: bool)
    requires |step| <= 1 && EmbedsInOrder(a, b, pos)
    ensures
      var extra: seq<nat> := if keep && step != [] then [|b|] else [];
      EmbedsInOrder(a + (if keep then step else []), b + step, pos + extra)
  {
  }

  /** The global reference fragment's entries are a subsequence of the
      reference fragment's: it receives some of the same contributions, in
      the same order. */
  lemma {:induction false} GlobalIsSubsequence(c: seq<Function>, n: nat)
    requires n <= |c|
    ensures exists pos :: EmbedsInOrder(GlobalEntries(c, n), IndexEntries(c, n), pos)
  {
    if n == 0 {
      assert EmbedsInOrder(GlobalEntries(c, n), IndexEntries(c, n), []);
    } else {
      GlobalIsSubsequence(c, n - 1);
      var g, x, step := GlobalEntries(c, n - 1), IndexEntries(c, n - 1), IndexStep(c, n - 1);
      var pos :| EmbedsInOrder(g, x, pos);
      var keep := c[n - 1].isGlobal;
      var extra: seq<nat> := if keep && step != [] then [|x|] else [];
      EmbedsStep(g, x, pos, step, keep);
      assert EmbedsInOrder(GlobalEntries(c, n), IndexEntries(c, n), pos + extra);
    }
  }

  /** A global function whose group's first member is not global reaches
      neither index on its own, and its group is not in the global one
      either (when no ungrouped entry has the same name). */
  lemma LaterGlobalMemberNotIndexed(c: seq<Function>, n: nat, k: nat)
    requires k < n <= |c| && c[k].group != "" && c[k].isGlobal
    requires GroupId(c[k].group) in GroupIds(c, n) && !c[FirstMember(c, n, GroupId(c[k].group))].isGlobal
    requires forall j :: 0 <= j < n && c[j].group == "" ==> c[j].name != c[k].name
    ensures OfGroup(GroupId(c[k].group)) !in GlobalEntries(c, n)
    ensures Own(c[k].name) !in GlobalEntries(c, n) && Own(c[k].name) !in IndexEntries(c, n)
  {
    GlobalGroupEntry(c, n, GroupId(c[k].group));
    GlobalOwnEntry(c, n, c[k].name);
    OwnIndexed(c, n, c[k].name);
  }

  /** Two functions of one group, the first not global and the second
      global: the global reference fragment stays empty. */
  lemma LaterGlobalMemberExample(a: Function, b: Function)
    requires a.group == "G" && b.group == "G"
    requires !a.isGlobal && b.isGlobal
    ensures GlobalEntries([a, b], 2) == []
    ensures IndexEntries([a, b], 2) == [OfGroup("g")]
  {
    var c := [a, b];
    assert GroupId("G") == "g";
    assert GroupIds(c, 1) == {"g"};
    assert IndexStep(c, 0) == [OfGroup("g")];
    assert IndexStep(c, 1) == [];
    assert IndexEntries(c, 1) == [OfGroup("g")];
    assert GlobalEntries(c, 1) == [];
  }

  /** Catalog a, b in group "G" and c ungrouped: the reference fragment
      transcludes the group and c, not a or b; one group exists. */
  lemma GroupedExample(a: Function, b: Function, d: Function)
    requires a.group == "G" && b.group == "G" && d.group == ""
    ensures IndexEntries([a, b, d], 3) == [OfGroup("g"), Own(d.name)]
    ensures GroupIds([a, b, d], 3) == {"g"}
    ensures Members([a, b, d], 3, "g") == [Own(a.name), Own(b.name)]
  {
    var c := [a, b, d];
    assert GroupId("G") == "g";
    assert GroupIds(c, 1) == {"g"};
    assert GroupIds(c, 2) == {"g"};
    assert IndexStep(c, 0) == [OfGroup("g")];
    assert IndexStep(c, 1) == [];
    assert IndexStep(c, 2) == [Own(d.name)];
    assert IndexEntries(c, 1) == [OfGroup("g")];
    assert IndexEntries(c, 2) == [OfGroup("g")];
    assert Members(c, 1, "g") == [Own(a.name)];
    assert Members(c, 2, "g") == [Own(a.name), Own(b.name)];
  }
}
