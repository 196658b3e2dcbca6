/** The few operations of Go's `strings` package that the generator uses,
    on strings modelled as sequences of characters. */
module Strings {

  /** ASCII lower-casing of one character. */
  function LowerChar(c: char): char
  {
    if 'A' <= c <= 'Z' then (c as int + 32) as char else c
  }

  /** `strings.ToLower`, restricted to ASCII letters: every character is
      lowered in place and the length is kept. */
  function ToLower(s: string): (r: string)
    ensures |r| == |s|
  {
    if s == [] then [] else [LowerChar(s[0])] + ToLower(s[1..])
  }

  lemma {:induction false} ToLowerAt(s: string)
    ensures forall k :: 0 <= k < |s| ==> ToLower(s)[k] == LowerChar(s[k])
  {
    if s != [] {
      ToLowerAt(s[1..]);
    }
  }

  /** Lower-casing twice is lower-casing once, so a group id is its own
      lower-case form. */
  lemma ToLowerIdempotent(s: string)
    ensures ToLower(ToLower(s)) == ToLower(s)
  {
    var once := ToLower(s);
    ToLowerAt(s);
    ToLowerAt(once);
    assert forall k :: 0 <= k < |s| ==> ToLower(once)[k] == LowerChar(LowerChar(s[k])) == once[k];
  }

  /** Concatenation of a sequence of strings, in order. */
  function Concat(ss: seq<string>): string
  {
    if ss == [] then "" else ss[0] + Concat(ss[1..])
  }

  lemma {:induction false} ConcatAppend(a: seq<string>, b: seq<string>)
    ensures Concat(a + b) == Concat(a) + Concat(b)
  {
    if a == [] {
      assert a + b == b;
    } else {
      assert (a + b)[1..] == a[1..] + b;
      ConcatAppend(a[1..], b);
    }
  }

  /** A concatenation is empty exactly when every part is empty. */
  lemma {:induction false} ConcatEmpty(ss: seq<string>)
    ensures Concat(ss) == "" <==> forall k :: 0 <= k < |ss| ==> ss[k] == ""
  {
    if ss != [] {
      ConcatEmpty(ss[1..]);
      assert forall k :: 1 <= k < |ss| ==> ss[k] == ss[1..][k - 1];
    }
  }

  /** `strings.Join`: the parts in order, with `sep` between neighbours. */
  function Join(parts: seq<string>, sep: string): string
  {
    if parts == [] then ""
    else if |parts| == 1 then parts[0]
    else parts[0] + sep + Join(parts[1..], sep)
  }

  /** Number of occurrences of `c` in `s`. */
  function Occurrences(c: char, s: string): nat
  {
    if s == [] then 0 else (if s[0] == c then 1 else 0) + Occurrences(c, s[1..])
  }

  lemma {:induction false} OccurrencesAppend(c: char, a: string, b: string)
    ensures Occurrences(c, a + b) == Occurrences(c, a) + Occurrences(c, b)
  {
    if a == [] {
      assert a + b == b;
    } else {
      assert (a + b)[1..] == a[1..] + b;
      OccurrencesAppend(c, a[1..], b);
    }
  }

  /** Joining words that contain no separator character with a one-character
      separator gives a text with exactly `|parts| - 1` separators. */
  lemma {:induction false} JoinSeparatorCount(parts: seq<string>, c: char)
    requires parts != []
    requires forall k :: 0 <= k < |parts| ==> Occurrences(c, parts[k]) == 0
    ensures Occurrences(c, Join(parts, [c])) == |parts| - 1
  {
    if |parts| > 1 {
      JoinSeparatorCount(parts[1..], c);
      OccurrencesAppend(c, parts[0] + [c], Join(parts[1..], [c]));
      OccurrencesAppend(c, parts[0], [c]);
    }
  }
}
