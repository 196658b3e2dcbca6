/** Fragment paths, anchors and display strings, all derived from catalog
    data (docs/hack/functions/main.go). */
module Naming {
  import opened Util
  import Strings

  /** `functionPartialBasePath`. */
  const Base: string := "docs/pages/configuration/_partials/functions/"
  const ReferenceFile: string := Base + "reference.mdx"
  const GlobalReferenceFile: string := Base + "reference_global.mdx"

  /** The fragment of one function. */
  function FunctionFile(name: string): string
  {
    Base + name + ".mdx"
  }

  /** The fragment of one flag, nested under its function's directory. */
  function FlagFile(functionName: string, long: string): string
  {
    Base + functionName + "/" + long + ".mdx"
  }

  /** Groups are identified by their lower-cased label. */
  function GroupId(groupName: string): string
  {
    Strings.ToLower(groupName)
  }

  function GroupFile(id: string): string
  {
    Base + "group_" + id + ".mdx"
  }

  /** The in-page anchor of a flag. */
  function FlagAnchor(functionName: string, long: string): string
  {
    functionName + "-" + long
  }

  /** The heading of a flag: its long name always, its short alias only
      when it has one. */
  function FlagDisplayName(long: string, short: string): (r: string)
    ensures |r| >= 2 + |long| && r[..2 + |long|] == "--" + long
    ensures short == "" <==> r == "--" + long
    ensures short != "" ==> r[2 + |long|..] == " / -" + short
  {
    "--" + long + (if short != "" then " / -" + short else "")
  }

  /** The enumerated-values hint: produced exactly when the catalog entry
      has an `ArgEnum` (even an empty one), as the values joined with single
      spaces inside a span. */
  function ArgEnumHint(argEnum: Option<seq<string>>): (r: string)
    ensures r != "" <==> argEnum.Some?
    ensures argEnum.Some? ==> r == "<span>" + Strings.Join(argEnum.value, " ") + "</span>"
  {
    if argEnum.Some? then "<span>" + Strings.Join(argEnum.value, " ") + "</span>" else ""
  }

  /** The hint of enumerated values without spaces holds exactly one space
      fewer than there are values. */
  lemma ArgEnumHintSpaces(values: seq<string>)
    requires values != []
    requires forall k :: 0 <= k < |values| ==> Strings.Occurrences(' ', values[k]) == 0
    ensures Strings.Occurrences(' ', ArgEnumHint(Some(values))) == |values| - 1
  {
    var joined := Strings.Join(values, " ");
    Strings.JoinSeparatorCount(values, ' ');
    Strings.OccurrencesAppend(' ', "<span>", joined);
    Strings.OccurrencesAppend(' ', "<span>" + joined, "</span>");
    assert Strings.Occurrences(' ', "<span>") == 0;
    assert Strings.Occurrences(' ', "</span>") == 0;
  }

  /** Strips a known prefix and suffix off a string. */
  lemma Unwrap(pre: string, a: string, b: string, post: string)
    requires pre + a + post == pre + b + post
    ensures a == b
  {
    var s := pre + a + post;
    assert |a| == |b|;
    assert a == s[|pre|..|pre| + |a|];
    assert b == s[|pre|..|pre| + |b|];
  }

  /** Distinct functions have distinct fragment files. */
  lemma FunctionFileInjective(a: string, b: string)
    requires FunctionFile(a) == FunctionFile(b)
    ensures a == b
  {
    Unwrap(Base, a, b, ".mdx");
  }

  /** Distinct flags of one function have distinct fragment files. */
  lemma FlagFileInjective(functionName: string, a: string, b: string)
    requires FlagFile(functionName, a) == FlagFile(functionName, b)
    ensures a == b
  {
    assert Base + functionName + "/" + a + ".mdx" == (Base + functionName + "/") + a + ".mdx";
    assert Base + functionName + "/" + b + ".mdx" == (Base + functionName + "/") + b + ".mdx";
    Unwrap(Base + functionName + "/", a, b, ".mdx");
  }

  /** Distinct group ids have distinct fragment files. */
  lemma GroupFileInjective(a: string, b: string)
    requires GroupFile(a) == GroupFile(b)
    ensures a == b
  {
    assert Base + "group_" + a + ".mdx" == (Base + "group_") + a + ".mdx";
    assert Base + "group_" + b + ".mdx" == (Base + "group_") + b + ".mdx";
    Unwrap(Base + "group_", a, b, ".mdx");
  }
}
