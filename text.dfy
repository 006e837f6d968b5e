/**
 * The two string operations the engine uses on a move command:
 * `s.split(sep)` destructured into its first two fields, and `startsWith`
 * (which is Dafny's prefix relation `p <= s` on sequences).
 */
module Text {
  import opened Wrappers

  /** Position of the first `sep` in `s`, or None when `s` has none. */
  function IndexOf(s: string, sep: char): (r: Option<nat>)
    ensures r.None? <==> sep !in s
    ensures r.Some? ==> r.value < |s| && s[r.value] == sep && sep !in s[..r.value]
  {
    if |s| == 0 then None
    else if s[0] == sep then Some(0)
    else
      match IndexOf(s[1..], sep)
      case None =>
        assert s == [s[0]] + s[1..];
        None
      case Some(i) =>
        assert s[..i + 1] == [s[0]] + s[1..][..i];
        Some(i + 1)
  }

  /**
   * `const [head, second] = s.split(sep)`: `head` is the text before the
   * first `sep` (all of `s` when there is none) and `second` the text between
   * the first and the second `sep` (up to the end when there is no second),
   * or None (`undefined`) when `s` holds no `sep` at all.
   */
  function SplitTwo(s: string, sep: char): (r: (string, Option<string>))
    ensures sep !in r.0 && r.0 <= s
    ensures r.1.None? <==> sep !in s
    ensures r.1.None? ==> r.0 == s
    ensures r.1.Some? ==> sep !in r.1.value && r.0 + [sep] + r.1.value <= s
    ensures r.1.Some? ==> |r.0| + 1 + |r.1.value| == |s| || s[|r.0| + 1 + |r.1.value|] == sep
  {
    match IndexOf(s, sep)
    case None => (s, None)
    case Some(i) =>
      var rest := s[i + 1..];
      assert s == s[..i] + [sep] + rest;
      match IndexOf(rest, sep)
      case None => (s[..i], Some(rest))
      case Some(j) =>
        assert s[..i] + [sep] + rest[..j] <= s;
        (s[..i], Some(rest[..j]))
  }

  /** Splitting a joined string gives back its parts: the head and the field after the first separator. */
  lemma {:induction false} SplitTwoOfJoin(a: string, b: string, sep: char, rest: string)
    requires sep !in a && sep !in b
    requires rest == [] || rest[0] == sep
    ensures SplitTwo(a + [sep] + b + rest, sep) == (a, Some(b))
  {
    var s := a + [sep] + b + rest;
    assert s[|a|] == sep;
    var r := SplitTwo(s, sep);
    // The head ends at the first separator, which is the one after `a`.
    assert |r.0| == |a|;
    assert r.0 == s[..|a|] == a;
    // The second field ends at the next separator, which is where `rest` starts.
    var n := |a| + 1;
    assert s[n..n + |b|] == b;
    assert |r.1.value| == |b|;
    assert r.1.value == (r.0 + [sep] + r.1.value)[n..] == s[n..n + |b|];
  }
}
