/** The parts of Go's `strings` package the router relies on: finding a
    separator, splitting on it, joining back, and substring search. Strings
    are sequences of characters; no encoding is involved. */
module Text {
  import opened Wrappers

  /** Position of the first `c` in `s` (Go's `strings.IndexByte`), or `None`
      when `s` has no `c`. */
  function IndexOf(s: string, c: char): (r: Option<nat>)
    ensures r.None? <==> c !in s
    ensures r.Some? ==> r.value < |s| && s[r.value] == c && c !in s[..r.value]
  {
    if |s| == 0 then None
    else if s[0] == c then Some(0)
    else
      match IndexOf(s[1..], c)
      case None => None
      case Some(i) =>
        assert s[..i + 1] == [s[0]] + s[1..][..i];
        Some(i + 1)
  }

  /** `parts` with `sep` between consecutive parts (Go's `strings.Join` with a
      one-character separator). */
  function Join(parts: seq<string>, sep: char): string
    requires |parts| >= 1
  {
    if |parts| == 1 then parts[0] else parts[0] + [sep] + Join(parts[1..], sep)
  }

  /** Go's `strings.Split(s, sep)` for a one-character separator: the maximal
      separator-free pieces of `s`, in order. It never returns an empty list;
      splitting a string without `sep` gives that string alone. */
  function Split(s: string, sep: char): (r: seq<string>)
    ensures |r| >= 1
    ensures forall i :: 0 <= i < |r| ==> sep !in r[i]
    ensures Join(r, sep) == s
    ensures r[0] <= s && (|r[0]| == |s| || s[|r[0]|] == sep)
    ensures sep !in s <==> r == [s]
    decreases |s|
  {
    match IndexOf(s, sep)
    case None => [s]
    case Some(i) =>
      var rest := Split(s[i + 1..], sep);
      assert s == s[..i] + [sep] + s[i + 1..];
      assert ([s[..i]] + rest)[1..] == rest;
      [s[..i]] + rest
  }

  /** Splitting undoes joining, as long as no part holds the separator. */
  lemma {:induction false} SplitJoin(parts: seq<string>, sep: char)
    requires |parts| >= 1
    requires forall i :: 0 <= i < |parts| ==> sep !in parts[i]
    ensures Split(Join(parts, sep), sep) == parts
  {
    if |parts| > 1 {
      var p := parts[0];
      var rest := Join(parts[1..], sep);
      var s := p + [sep] + rest;
      assert s[|p|] == sep;
      assert s[..|p|] == p;
      assert IndexOf(s, sep) == Some(|p|);
      assert s[|p| + 1..] == rest;
      SplitJoin(parts[1..], sep);
      assert parts == [p] + parts[1..];
    }
  }

  /** `sub` occurs in `s` at position `i`. */
  predicate OccursAt(s: string, sub: string, i: int)
  {
    0 <= i && i + |sub| <= |s| && s[i..i + |sub|] == sub
  }

  /** Occurrences in `s[1..]` are the occurrences in `s` shifted by one. */
  lemma OccursShift(s: string, sub: string)
    requires |s| >= 1
    ensures forall i :: OccursAt(s[1..], sub, i) ==> OccursAt(s, sub, i + 1)
    ensures forall j :: 1 <= j && OccursAt(s, sub, j) ==> OccursAt(s[1..], sub, j - 1)
  {
  }

  /** Go's `strings.Contains`: `sub` occurs somewhere in `s`, not
      necessarily at the start. */
  function Contains(s: string, sub: string): (r: bool)
    ensures r <==> exists i :: OccursAt(s, sub, i)
    decreases |s|
  {
    if |sub| > |s| then false
    else if s[..|sub|] == sub then assert OccursAt(s, sub, 0); true
    else
      OccursShift(s, sub);
      Contains(s[1..], sub)
  }

  /** A string that lacks the first character of `sub` cannot contain `sub`. */
  lemma MissingFirstCharacter(s: string, sub: string)
    requires |sub| >= 1 && sub[0] !in s
    ensures !Contains(s, sub)
  {
  }

  /** Whatever surrounds it, `sub` is found. */
  lemma ContainsInfix(pre: string, sub: string, post: string)
    ensures Contains(pre + sub + post, sub)
  {
    var s := pre + sub + post;
    assert s[|pre|..|pre| + |sub|] == sub;
    assert OccursAt(s, sub, |pre|);
  }
}
