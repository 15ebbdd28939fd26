/** The few pieces of Rust's `str` API the line parser relies on, over
    `string` = `seq<char>` (a `char` is a Unicode scalar value, as in Rust):
    `split(';').next()`, `trim()` and `split_whitespace()`. Whitespace is
    Rust's `char::is_whitespace`, the Unicode `White_Space` property. */
module Text {

  /** The comment delimiter of the table format. */
  const Comment: char := ';'

  /** Unicode `White_Space`: U+0009..U+000D, U+0020, U+0085, U+00A0,
      U+1680, U+2000..U+200A, U+2028, U+2029, U+202F, U+205F, U+3000. */
  predicate IsWhitespace(c: char) {
    || ('\t' <= c <= '\r')
    || c == ' '
    || c == '\U{0085}'
    || c == '\U{00A0}'
    || c == '\U{1680}'
    || ('\U{2000}' <= c <= '\U{200A}')
    || c == '\U{2028}'
    || c == '\U{2029}'
    || c == '\U{202F}'
    || c == '\U{205F}'
    || c == '\U{3000}'
  }

  predicate AllWhitespace(s: string) {
    forall i :: 0 <= i < |s| ==> IsWhitespace(s[i])
  }

  predicate NoWhitespace(s: string) {
    forall i :: 0 <= i < |s| ==> !IsWhitespace(s[i])
  }

  predicate StartsWith(s: string, prefix: string) {
    |prefix| <= |s| && s[..|prefix|] == prefix
  }

  /** `s.split(';').next()`: everything before the first comment delimiter. */
  function BeforeComment(s: string): (r: string)
    ensures |r| <= |s| && r == s[..|r|]
    ensures Comment !in r
    ensures |r| < |s| ==> s[|r|] == Comment
  {
    if |s| == 0 || s[0] == Comment then []
    else [s[0]] + BeforeComment(s[1..])
  }

  /** `trim_start()`: drops the leading whitespace. */
  function TrimStart(s: string): (r: string)
    ensures |r| <= |s| && r == s[|s| - |r|..]
    ensures AllWhitespace(s[..|s| - |r|])
    ensures |r| > 0 ==> !IsWhitespace(r[0])
  {
    if |s| > 0 && IsWhitespace(s[0]) then TrimStart(s[1..]) else s
  }

  /** `trim_end()`: drops the trailing whitespace. */
  function TrimEnd(s: string): (r: string)
    ensures |r| <= |s| && r == s[..|r|]
    ensures AllWhitespace(s[|r|..])
    ensures |r| > 0 ==> !IsWhitespace(r[|r| - 1])
  {
    if |s| > 0 && IsWhitespace(s[|s| - 1]) then TrimEnd(s[..|s| - 1]) else s
  }

  /** `trim()`: the slice of `s` between its leading and trailing whitespace. */
  function Trim(s: string): (r: string)
    ensures |r| > 0 ==> !IsWhitespace(r[0]) && !IsWhitespace(r[|r| - 1])
    ensures r == [] <==> AllWhitespace(s)
    ensures |s| > 0 && !IsWhitespace(s[0]) && !IsWhitespace(s[|s| - 1]) ==> r == s
    ensures exists i, j :: 0 <= i <= j <= |s| && r == s[i..j] && AllWhitespace(s[..i]) && AllWhitespace(s[j..])
  {
    var t := TrimStart(s);
    TrimKeepsText(s);
    CutSlice(s, |s| - |t|, t, TrimEnd(t));
    TrimEnd(t)
  }

  /** Cutting the prefix `u` out of the suffix `t` of `s` that starts at `i`,
      with only whitespace in front of `t` and behind `u`. */
  lemma CutSlice(s: string, i: nat, t: string, u: string)
    requires i <= |s| && t == s[i..] && |u| <= |t| && u == t[..|u|]
    requires AllWhitespace(s[..i]) && AllWhitespace(t[|u|..])
    ensures exists i, j :: 0 <= i <= j <= |s| && u == s[i..j] && AllWhitespace(s[..i]) && AllWhitespace(s[j..])
  {
    var j := i + |u|;
    assert t[|u|..] == s[j..];
    assert u == s[i..j];
  }

  lemma TrimKeepsText(s: string)
    ensures TrimEnd(TrimStart(s)) == [] ==> AllWhitespace(s)
  {
    var t := TrimStart(s);
    if TrimEnd(t) == [] {
      assert t[0..] == t;
      assert s[..|s|] == s;
    }
  }

  /** Length of the maximal whitespace-free prefix of `s`. */
  function WordLength(s: string): (n: nat)
    ensures n <= |s|
    ensures NoWhitespace(s[..n])
    ensures n < |s| ==> IsWhitespace(s[n])
  {
    if |s| == 0 || IsWhitespace(s[0]) then 0 else 1 + WordLength(s[1..])
  }

  /** `split_whitespace()`: the maximal whitespace-free runs of `s`, in order. */
  function Tokens(s: string): (r: seq<string>)
    ensures forall i :: 0 <= i < |r| ==> |r[i]| > 0 && NoWhitespace(r[i])
    ensures forall i, j :: 0 <= i < |r| && 0 <= j < |r[i]| ==> r[i][j] in s
    ensures r == [] <==> AllWhitespace(s)
    decreases |s|
  {
    if |s| == 0 then []
    else if IsWhitespace(s[0]) then Tokens(s[1..])
    else
      var n := WordLength(s);
      [s[..n]] + Tokens(s[n..])
  }

  /** The words separated by single spaces, as `format!("{} {}", ..)` writes them. */
  function JoinSpaces(words: seq<string>): string {
    if |words| == 0 then []
    else if |words| == 1 then words[0]
    else words[0] + " " + JoinSpaces(words[1..])
  }

  lemma {:induction false} WordLengthOfWord(w: string, rest: string)
    requires NoWhitespace(w)
    requires |rest| == 0 || IsWhitespace(rest[0])
    ensures WordLength(w + rest) == |w|
    decreases |w|
  {
    if |w| > 0 {
      assert (w + rest)[1..] == w[1..] + rest;
      WordLengthOfWord(w[1..], rest);
    }
  }

  /** Splitting on whitespace undoes joining with spaces, as long as every
      word is non-empty and free of whitespace. */
  lemma {:induction false} TokensOfJoin(words: seq<string>)
    requires forall i :: 0 <= i < |words| ==> |words[i]| > 0 && NoWhitespace(words[i])
    ensures Tokens(JoinSpaces(words)) == words
    decreases |words|
  {
    if |words| == 1 {
      var w := words[0];
      WordLengthOfWord(w, []);
      assert w + [] == w;
      assert w[|w|..] == [];
    } else if |words| > 1 {
      var w := words[0];
      var rest := JoinSpaces(words[1..]);
      var s := w + " " + rest;
      assert s == w + (" " + rest);
      WordLengthOfWord(w, " " + rest);
      assert s[..|w|] == w;
      assert s[|w|..] == " " + rest;
      assert (" " + rest)[1..] == rest;
      TokensOfJoin(words[1..]);
      assert [w] + words[1..] == words;
    }
  }

  /** The words with the whitespace runs `gaps` around and between them:
      `gaps[0] + words[0] + gaps[1] + ... + words[n - 1] + gaps[n]`. */
  function Interleave(gaps: seq<string>, words: seq<string>): string
    requires |gaps| == |words| + 1
    decreases |words|
  {
    if |words| == 0 then gaps[0] else gaps[0] + words[0] + Interleave(gaps[1..], words[1..])
  }

  /** `gaps` are whitespace runs, all but the outer two non-empty, and the
      words are non-empty and free of whitespace. */
  predicate Separated(gaps: seq<string>, words: seq<string>) {
    && |gaps| == |words| + 1
    && (forall k :: 0 <= k < |gaps| ==> AllWhitespace(gaps[k]))
    && (forall k :: 0 < k < |words| ==> |gaps[k]| > 0)
    && (forall i :: 0 <= i < |words| ==> |words[i]| > 0 && NoWhitespace(words[i]))
  }

  /** Every string is its tokens with whitespace runs around and between them. */
  lemma {:induction false} TokensSplit(s: string)
    ensures exists gaps :: Separated(gaps, Tokens(s)) && Interleave(gaps, Tokens(s)) == s
    decreases |s|
  {
    if |s| == 0 {
      assert Separated([[]], Tokens(s)) && Interleave([[]], Tokens(s)) == s;
    } else if IsWhitespace(s[0]) {
      TokensSplit(s[1..]);
      var g :| Separated(g, Tokens(s[1..])) && Interleave(g, Tokens(s[1..])) == s[1..];
      SplitAfterSpace(s, g, Tokens(s[1..]));
      var gaps := [[s[0]] + g[0]] + g[1..];
      assert Tokens(s) == Tokens(s[1..]);
      assert Separated(gaps, Tokens(s)) && Interleave(gaps, Tokens(s)) == s;
    } else {
      var n := WordLength(s);
      TokensSplit(s[n..]);
      var g :| Separated(g, Tokens(s[n..])) && Interleave(g, Tokens(s[n..])) == s[n..];
      SplitAfterWord(s, n, g, Tokens(s[n..]));
      assert Tokens(s) == [s[..n]] + Tokens(s[n..]);
      assert Separated([[]] + g, Tokens(s)) && Interleave([[]] + g, Tokens(s)) == s;
    }
  }

  /** A whitespace character in front of a split text joins its first gap. */
  lemma SplitAfterSpace(s: string, g: seq<string>, words: seq<string>)
    requires |s| > 0 && IsWhitespace(s[0])
    requires Separated(g, words) && Interleave(g, words) == s[1..]
    ensures var gaps := [[s[0]] + g[0]] + g[1..];
      Separated(gaps, words) && Interleave(gaps, words) == s
  {
    var gaps := [[s[0]] + g[0]] + g[1..];
    WhitespaceCons(s[0], g[0]);
    InterleaveCons(s[0], g, words);
    assert forall k :: 0 < k < |gaps| ==> gaps[k] == g[k];
  }

  /** A word in front of a split text that starts with whitespace (or is
      empty) becomes its first token, behind an empty gap. */
  lemma SplitAfterWord(s: string, n: nat, g: seq<string>, words: seq<string>)
    requires 0 < n <= |s| && NoWhitespace(s[..n])
    requires n < |s| ==> IsWhitespace(s[n])
    requires Separated(g, words) && Interleave(g, words) == s[n..]
    ensures Separated([[]] + g, [s[..n]] + words)
    ensures Interleave([[]] + g, [s[..n]] + words) == s
  {
    var gaps, r := [[]] + g, [s[..n]] + words;
    if |words| > 0 {
      InterleaveStartsWith(g, words);
    }
    assert gaps[1..] == g && r[1..] == words;
    assert forall k :: 0 < k < |gaps| ==> gaps[k] == g[k - 1];
    assert forall i :: 0 < i < |r| ==> r[i] == words[i - 1];
    assert s == [] + s[..n] + s[n..];
  }

  lemma WhitespaceCons(c: char, g: string)
    requires IsWhitespace(c) && AllWhitespace(g)
    ensures AllWhitespace([c] + g)
  {
  }

  /** Putting one more character in front of the first gap. */
  lemma InterleaveCons(c: char, g: seq<string>, words: seq<string>)
    requires |g| == |words| + 1
    ensures Interleave([[c] + g[0]] + g[1..], words) == [c] + Interleave(g, words)
  {
    var gaps := [[c] + g[0]] + g[1..];
    assert gaps[0] == [c] + g[0] && gaps[1..] == g[1..];
    if |words| > 0 {
      ConsAssociates(c, g[0], words[0], Interleave(g[1..], words[1..]));
    }
  }

  lemma ConsAssociates(c: char, a: string, b: string, d: string)
    ensures [c] + a + b + d == [c] + (a + b + d)
  {
  }

  /** A text with a token in it whose first gap is empty starts with a
      character that is not whitespace. */
  lemma InterleaveStartsWith(gaps: seq<string>, words: seq<string>)
    requires Separated(gaps, words) && |words| > 0
    ensures var s := Interleave(gaps, words);
      |s| > 0 && (|gaps[0]| == 0 ==> !IsWhitespace(s[0]))
  {
    var s := Interleave(gaps, words);
    assert s == gaps[0] + words[0] + Interleave(gaps[1..], words[1..]);
    if |gaps[0]| == 0 {
      assert s[0] == words[0][0];
    }
  }

  /** Leading whitespace contributes no token. */
  lemma {:induction false} TokensSkipSpace(g: string, t: string)
    requires AllWhitespace(g)
    ensures Tokens(g + t) == Tokens(t)
    decreases |g|
  {
    if |g| > 0 {
      assert (g + t)[1..] == g[1..] + t;
      TokensSkipSpace(g[1..], t);
    } else {
      assert g + t == t;
    }
  }

  /** Splitting on whitespace recovers the words of any text built from words
      and whitespace runs, whatever the runs are. */
  lemma {:induction false} TokensOfInterleave(gaps: seq<string>, words: seq<string>)
    requires Separated(gaps, words)
    ensures Tokens(Interleave(gaps, words)) == words
    decreases |words|
  {
    if |words| == 0 {
      assert Tokens(gaps[0]) == [];
    } else {
      var w := words[0];
      var rest := Interleave(gaps[1..], words[1..]);
      assert Separated(gaps[1..], words[1..]);
      if |words| > 1 {
        assert rest == gaps[1] + words[1] + Interleave(gaps[2..], words[2..]);
        assert rest[0] == gaps[1][0];
      } else {
        assert rest == gaps[1];
      }
      assert Interleave(gaps, words) == gaps[0] + (w + rest);
      TokensSkipSpace(gaps[0], w + rest);
      WordLengthOfWord(w, rest);
      var s := w + rest;
      assert s[..|w|] == w && s[|w|..] == rest;
      TokensOfInterleave(gaps[1..], words[1..]);
      assert [w] + words[1..] == words;
    }
  }

  lemma {:induction false} JoinSpacesAvoids(words: seq<string>, c: char)
    requires c != ' '
    requires forall i :: 0 <= i < |words| ==> c !in words[i]
    ensures c !in JoinSpaces(words)
    decreases |words|
  {
    if |words| > 1 {
      JoinSpacesAvoids(words[1..], c);
    }
  }

  /** Joining non-empty words keeps the first word's first character in front
      and the last word's last character at the end. */
  lemma {:induction false} JoinSpacesEnds(words: seq<string>)
    requires |words| > 0
    requires forall i :: 0 <= i < |words| ==> |words[i]| > 0
    ensures var s := JoinSpaces(words);
      |s| > 0 && s[0] == words[0][0] && s[|s| - 1] == words[|words| - 1][|words[|words| - 1]| - 1]
    decreases |words|
  {
    if |words| > 1 {
      JoinSpacesEnds(words[1..]);
    }
  }

  lemma BeforeCommentUnchanged(s: string)
    requires Comment !in s
    ensures BeforeComment(s) == s
  {
  }
  lemma JoinFive(a: string, b: string, c: string, d: string, e: string)
    ensures JoinSpaces([a, b, c, d, e]) == a + " " + b + " " + c + " " + d + " " + e
  {
    assert [a, b, c, d, e][1..] == [b, c, d, e];
    assert [b, c, d, e][1..] == [c, d, e];
    assert [c, d, e][1..] == [d, e];
    assert [d, e][1..] == [e];
    assert JoinSpaces([d, e]) == d + " " + e;
    assert JoinSpaces([c, d, e]) == c + " " + (d + " " + e);
    assert JoinSpaces([b, c, d, e]) == b + " " + (c + " " + (d + " " + e));
  }
}
