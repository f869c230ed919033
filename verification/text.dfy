/** The few System.String operations the modelled code relies on. */
module Text {
  import opened Wrappers

  /** Char.IsWhiteSpace: U+0009..U+000D, U+0085 and the Unicode space, line and paragraph separators. */
  predicate IsWhiteSpace(c: char) {
    || ('\U{9}' <= c <= '\U{D}')
    || c == ' ' || c == '\U{85}' || c == '\U{A0}' || c == '\U{1680}'
    || ('\U{2000}' <= c <= '\U{200A}')
    || c == '\U{2028}' || c == '\U{2029}' || c == '\U{202F}' || c == '\U{205F}' || c == '\U{3000}'
  }

  predicate AllWhiteSpace(s: string) {
    forall i :: 0 <= i < |s| ==> IsWhiteSpace(s[i])
  }

  /** string.IsNullOrEmpty */
  predicate IsNullOrEmpty(s: Option<string>) {
    s.None? || |s.value| == 0
  }

  /** string.IsNullOrWhiteSpace */
  predicate IsNullOrWhiteSpace(s: Option<string>) {
    s.None? || AllWhiteSpace(s.value)
  }

  /** string.IndexOf(char): the first position of `c`, or -1. */
  function IndexOf(s: string, c: char): (r: int)
    ensures -1 <= r < |s|
    ensures r == -1 <==> c !in s
    ensures 0 <= r ==> s[r] == c && forall j :: 0 <= j < r ==> s[j] != c
  {
    FirstFrom(s, c, 0)
  }

  function FirstFrom(s: string, c: char, from: nat): (r: int)
    requires from <= |s|
    ensures r == -1 || from <= r < |s|
    ensures r == -1 <==> c !in s[from..]
    ensures 0 <= r ==> s[r] == c && forall j :: from <= j < r ==> s[j] != c
    decreases |s| - from
  {
    if from == |s| then -1
    else if s[from] == c then from
    else
      assert s[from..] == [s[from]] + s[from + 1..];
      FirstFrom(s, c, from + 1)
  }

  /** string.LastIndexOf(char): the last position of `c`, or -1. */
  function LastIndexOf(s: string, c: char): (r: int)
    ensures -1 <= r < |s|
    ensures r == -1 <==> c !in s
    ensures 0 <= r ==> s[r] == c && forall j :: r < j < |s| ==> s[j] != c
  {
    assert s[..|s|] == s;
    LastBefore(s, c, |s|)
  }

  function LastBefore(s: string, c: char, n: nat): (r: int)
    requires n <= |s|
    ensures -1 <= r < n
    ensures r == -1 <==> c !in s[..n]
    ensures 0 <= r ==> s[r] == c && forall j :: r < j < n ==> s[j] != c
  {
    if n == 0 then -1
    else if s[n - 1] == c then n - 1
    else
      assert s[..n] == s[..n - 1] + [s[n - 1]];
      LastBefore(s, c, n - 1)
  }

  /** Ordinal case-insensitive equality of two characters (folding ASCII letters only). */
  predicate SameLetter(a: char, b: char) {
    FoldCase(a) == FoldCase(b)
  }

  function FoldCase(c: char): char {
    if 'A' <= c <= 'Z' then (c as int - 'A' as int + 'a' as int) as char else c
  }

  /** `needle` occurs in `hay` at position `i`, ignoring case. */
  predicate MatchesAt(hay: string, needle: string, i: nat)
    requires i + |needle| <= |hay|
  {
    forall j :: 0 <= j < |needle| ==> SameLetter(hay[i + j], needle[j])
  }

  /** string.Contains(needle, StringComparison.InvariantCultureIgnoreCase), restricted to ASCII case folding. */
  function ContainsIgnoreCase(hay: string, needle: string): (r: bool)
    ensures r <==> exists i: nat :: i + |needle| <= |hay| && MatchesAt(hay, needle, i)
  {
    SearchFrom(hay, needle, 0)
  }

  function SearchFrom(hay: string, needle: string, from: nat): (r: bool)
    ensures r <==> exists i: nat :: from <= i && i + |needle| <= |hay| && MatchesAt(hay, needle, i)
    decreases |hay| - from
  {
    if from + |needle| > |hay| then false
    else if MatchesAt(hay, needle, from) then true
    else
      var r := SearchFrom(hay, needle, from + 1);
      assert r <== exists i: nat :: from <= i && i + |needle| <= |hay| && MatchesAt(hay, needle, i) by {
        if exists i: nat :: from <= i && i + |needle| <= |hay| && MatchesAt(hay, needle, i) {
          var i: nat :| from <= i && i + |needle| <= |hay| && MatchesAt(hay, needle, i);
          assert i != from;
        }
      }
      r
  }

  /** string.Split(c): the pieces between the occurrences of `c`, in order (empty pieces kept). */
  function Split(s: string, c: char): (r: seq<string>)
    ensures |r| >= 1
    ensures c in s <==> |r| >= 2
    ensures c !in s ==> r == [s]
    decreases |s|
  {
    var i := IndexOf(s, c);
    if i < 0 then [s] else [s[..i]] + Split(s[i + 1..], c)
  }

  /** string.Join(c, pieces) */
  function Join(pieces: seq<string>, c: char): string {
    if |pieces| == 0 then ""
    else if |pieces| == 1 then pieces[0]
    else pieces[0] + [c] + Join(pieces[1..], c)
  }

  /** Joining the pieces of a split gives back the string. */
  lemma {:induction false} JoinSplit(s: string, c: char)
    ensures Join(Split(s, c), c) == s
    decreases |s|
  {
    if c in s {
      var head, rest := SplitHead(s, c);
      JoinSplit(rest, c);
      JoinCons(head, Split(rest, c), c);
    }
  }

  /** A string holding the separator splits into the text before its first occurrence and the split of the rest. */
  lemma SplitHead(s: string, c: char) returns (head: string, rest: string)
    requires c in s
    ensures s == head + [c] + rest && |rest| < |s| && c !in head
    ensures Split(s, c) == [head] + Split(rest, c)
  {
    var i := IndexOf(s, c);
    head, rest := s[..i], s[i + 1..];
    assert s == head + [c] + rest;
  }

  lemma JoinCons(p: string, ps: seq<string>, c: char)
    requires |ps| >= 1
    ensures Join([p] + ps, c) == p + [c] + Join(ps, c)
  {
    assert ([p] + ps)[1..] == ps;
  }

  /** No piece of a split contains the separator. */
  lemma {:induction false} SplitPieces(s: string, c: char)
    ensures forall k :: 0 <= k < |Split(s, c)| ==> c !in Split(s, c)[k]
    decreases |s|
  {
    var i := IndexOf(s, c);
    if i >= 0 {
      var rest := s[i + 1..];
      SplitPieces(rest, c);
      assert c !in s[..i];
      forall k | 1 <= k < |Split(s, c)|
        ensures c !in Split(s, c)[k]
      {
        assert Split(s, c)[k] == Split(rest, c)[k - 1];
      }
    }
  }
}
