/**
 * The parts of java.lang.String and java.util.regex that the decoder relies on,
 * written out over `seq<char>`: prefix and suffix tests, `replace` of one
 * character, `trim`, `split("\\s+")`, `replaceAll("\\s+", " ")` and joining.
 */
module Text {

  /** The characters matched by the regular-expression class `\s`. */
  predicate IsSpace(c: char) {
    c == ' ' || c == '\t' || c == '\n' || c == '\U{000B}' || c == '\U{000C}' || c == '\r'
  }

  /** The characters `String.trim` strips: every code point up to U+0020. */
  predicate IsTrimmable(c: char) {
    c <= ' '
  }

  predicate StartsWith(s: string, prefix: string) {
    |prefix| <= |s| && s[..|prefix|] == prefix
  }

  predicate EndsWith(s: string, suffix: string) {
    |suffix| <= |s| && s[|s| - |suffix|..] == suffix
  }

  /** Ending in one character is a test on the last character. */
  lemma EndsWithChar(s: string, c: char)
    ensures EndsWith(s, [c]) <==> s != [] && s[|s| - 1] == c
  {
    if s != [] {
      assert s[|s| - 1..] == [s[|s| - 1]];
    }
  }

  /** A prefix test is a test on the leading characters, one by one. */
  lemma StartsWithChars(s: string, prefix: string)
    ensures StartsWith(s, prefix) <==> |prefix| <= |s| && forall k :: 0 <= k < |prefix| ==> s[k] == prefix[k]
  {
    if |prefix| <= |s| && forall k :: 0 <= k < |prefix| ==> s[k] == prefix[k] {
      assert s[..|prefix|] == prefix;
    }
  }

  /** Some character of `s` is white space. */
  predicate HasSpace(s: string) {
    exists k :: 0 <= k < |s| && IsSpace(s[k])
  }

  /** `s.replace(from, to)` for one-character strings: every occurrence is replaced. */
  function ReplaceChar(s: string, from: char, to: char): (r: string)
    ensures |r| == |s|
    ensures forall k :: 0 <= k < |s| ==> r[k] == if s[k] == from then to else s[k]
  {
    seq(|s|, k requires 0 <= k < |s| => if s[k] == from then to else s[k])
  }

  /** `s.replace(c, "")`: every occurrence of `c` is deleted. */
  function RemoveChar(s: string, c: char): (r: string)
    ensures c !in r
    ensures |r| <= |s|
    ensures forall x :: x in r <==> x in s && x != c
  {
    if s == [] then []
    else if s[0] == c then RemoveChar(s[1..], c)
    else [s[0]] + RemoveChar(s[1..], c)
  }

  function TrimStart(s: string): string {
    if s != [] && IsTrimmable(s[0]) then TrimStart(s[1..]) else s
  }

  function TrimEnd(s: string): string {
    if s != [] && IsTrimmable(s[|s| - 1]) then TrimEnd(s[..|s| - 1]) else s
  }

  /** `String.trim`. */
  function Trim(s: string): string {
    TrimEnd(TrimStart(s))
  }

  /** Trimming the front leaves a suffix that does not start with a trimmable character. */
  lemma {:induction false} TrimStartIsSuffix(s: string)
    ensures var r := TrimStart(s);
            |r| <= |s| && r == s[|s| - |r|..] && (r != [] ==> !IsTrimmable(r[0]))
    decreases |s|
  {
    if s != [] && IsTrimmable(s[0]) {
      var r := TrimStart(s[1..]);
      TrimStartIsSuffix(s[1..]);
      assert s[1..][|s| - 1 - |r|..] == s[|s| - |r|..];
    }
  }

  /** Trimming the back leaves a prefix that does not end with a trimmable character. */
  lemma {:induction false} TrimEndIsPrefix(s: string)
    ensures var r := TrimEnd(s);
            r <= s && (r != [] ==> !IsTrimmable(r[|r| - 1]))
    decreases |s|
  {
    if s != [] && IsTrimmable(s[|s| - 1]) {
      TrimEndIsPrefix(s[..|s| - 1]);
    }
  }

  /**
   * `trim` keeps a contiguous part of the string, with no trimmable character
   * at either end.
   */
  lemma TrimKeepsMiddle(s: string)
    ensures var r := Trim(s);
            && (exists i, j :: 0 <= i <= j <= |s| && r == s[i..j])
            && (r != [] ==> !IsTrimmable(r[0]) && !IsTrimmable(r[|r| - 1]))
  {
    var t := TrimStart(s);
    TrimStartIsSuffix(s);
    TrimEndIsPrefix(t);
    var r := TrimEnd(t);
    var i := |s| - |t|;
    assert r == t[..|r|];
    assert r == s[i..i + |r|];
    if r != [] {
      assert r[0] == t[0];
    }
  }

  /** The number of leading characters of `s` that are not white space. */
  function TokenLength(s: string): (n: nat)
    ensures n <= |s|
  {
    if s == [] || IsSpace(s[0]) then 0 else 1 + TokenLength(s[1..])
  }

  /** The leading token ends just before the first white-space character, if there is one. */
  lemma {:induction false} TokenLengthStopsAtSpace(s: string)
    ensures forall k :: 0 <= k < TokenLength(s) ==> !IsSpace(s[k])
    ensures TokenLength(s) < |s| ==> IsSpace(s[TokenLength(s)])
    decreases |s|
  {
    if s != [] && !IsSpace(s[0]) {
      TokenLengthStopsAtSpace(s[1..]);
    }
  }

  /** The leading token is the whole string exactly when the string has no white space. */
  lemma WholeTokenIffNoSpace(s: string)
    ensures TokenLength(s) == |s| <==> !HasSpace(s)
  {
    TokenLengthStopsAtSpace(s);
  }

  /** The maximal runs of non-white-space characters of `s`, in order. */
  function Words(s: string): (ws: seq<string>)
    decreases |s|
  {
    if s == [] then []
    else if IsSpace(s[0]) then Words(s[1..])
    else
      var n := TokenLength(s);
      [s[..n]] + Words(s[n..])
  }

  /**
   * `s.split("\\s+")`: when `s` has no white space the result is `[s]` (even for
   * the empty string); otherwise the pieces between white-space runs, where a
   * leading run yields one leading empty piece and trailing empty pieces are
   * dropped (so an all-blank string yields no pieces at all).
   */
  function SplitWs(s: string): seq<string> {
    if TokenLength(s) == |s| then [s]
    else if Words(s) == [] then []
    else (if IsSpace(s[0]) then [""] else []) + Words(s)
  }

  /** A string with no white space splits into itself alone. */
  lemma SplitWsWithoutSpace(s: string)
    requires !HasSpace(s)
    ensures SplitWs(s) == [s]
  {
    WholeTokenIffNoSpace(s);
  }

  /** Every word is non-empty and free of white space. */
  lemma {:induction false} WordsAreTokens(s: string)
    ensures forall w :: w in Words(s) ==> w != [] && !HasSpace(w)
    decreases |s|
  {
    if s != [] {
      if IsSpace(s[0]) {
        WordsAreTokens(s[1..]);
      } else {
        var n := TokenLength(s);
        TokenLengthStopsAtSpace(s);
        WordsAreTokens(s[n..]);
        assert !HasSpace(s[..n]);
      }
    }
  }

  /** `s.replaceAll("\\s+", " ")`: every white-space run becomes one blank. */
  function CollapseWs(s: string): (r: string)
    decreases |s|
  {
    if s == [] then []
    else if IsSpace(s[0]) then " " + CollapseWs(DropSpaces(s))
    else [s[0]] + CollapseWs(s[1..])
  }

  function DropSpaces(s: string): (r: string)
    ensures |r| < |s| || ((s == [] || !IsSpace(s[0])) && r == s)
    ensures r != [] ==> !IsSpace(r[0])
  {
    if s != [] && IsSpace(s[0]) then DropSpaces(s[1..]) else s
  }

  /** `String.join(sep, xs)`. */
  function Join(sep: string, xs: seq<string>): string {
    if xs == [] then ""
    else if |xs| == 1 then xs[0]
    else xs[0] + sep + Join(sep, xs[1..])
  }

  // ---------------------------------------------------------------------------
  // Splitting and collapsing a `NAME VALUE` line

  /** Every character of `s` is white space (a separating run, when non-empty). */
  predicate AllSpace(s: string) {
    forall k :: 0 <= k < |s| ==> IsSpace(s[k])
  }

  /** A token followed by white space or the end has exactly its own length. */
  lemma {:induction false} TokenLengthOfWord(a: string, b: string)
    requires !HasSpace(a) && (b == [] || IsSpace(b[0]))
    ensures TokenLength(a + b) == |a|
    decreases |a|
  {
    if a != [] {
      assert !IsSpace(a[0]);
      assert !HasSpace(a[1..]) by {
        forall k | 0 <= k < |a| - 1 ensures !IsSpace(a[1..][k]) {
          assert a[1..][k] == a[k + 1];
        }
      }
      TokenLengthOfWord(a[1..], b);
      assert (a + b)[1..] == a[1..] + b;
    } else {
      assert a + b == b;
    }
  }

  /** A leading white-space run contributes no word. */
  lemma {:induction false} WordsAfterRun(run: string, s: string)
    requires AllSpace(run)
    ensures Words(run + s) == Words(s)
    decreases |run|
  {
    if run != [] {
      assert (run + s)[1..] == run[1..] + s;
      WordsAfterRun(run[1..], s);
    } else {
      assert run + s == s;
    }
  }

  /** A non-empty string without white space is one word. */
  lemma WordsOfWord(w: string)
    requires w != [] && !HasSpace(w)
    ensures Words(w) == [w]
  {
    WholeTokenIffNoSpace(w);
    assert w[..|w|] == w && w[|w|..] == [];
  }

  /** Two words around a white-space run are the words of the line. */
  lemma WordsOfPair(name: string, sep: string, value: string)
    requires name != [] && !HasSpace(name) && sep != [] && AllSpace(sep)
    requires value != [] && !HasSpace(value)
    ensures Words(name + sep + value) == [name, value]
  {
    var s := name + sep + value;
    assert s == name + (sep + value);
    TokenLengthOfWord(name, sep + value);
    assert s[..|name|] == name && s[|name|..] == sep + value;
    WordsAfterRun(sep, value);
    WordsOfWord(value);
  }

  /** `split("\\s+")` of `NAME VALUE` is the two fields. */
  lemma SplitWsOfPair(name: string, sep: string, value: string)
    requires name != [] && !HasSpace(name) && sep != [] && AllSpace(sep)
    requires value != [] && !HasSpace(value)
    ensures SplitWs(name + sep + value) == [name, value]
  {
    var s := name + sep + value;
    assert s == name + (sep + value);
    TokenLengthOfWord(name, sep + value);
    WordsOfPair(name, sep, value);
  }

  /** With white space in front, `split("\\s+")` yields an empty first field. */
  lemma SplitWsOfLeadingRun(lead: string, name: string, sep: string, value: string)
    requires lead != [] && AllSpace(lead)
    requires name != [] && !HasSpace(name) && sep != [] && AllSpace(sep)
    requires value != [] && !HasSpace(value)
    ensures SplitWs(lead + name + sep + value) == ["", name, value]
  {
    var s := lead + name + sep + value;
    assert s == lead + (name + sep + value);
    assert TokenLength(s) == 0;
    WordsAfterRun(lead, name + sep + value);
    WordsOfPair(name, sep, value);
  }

  /** Dropping a white-space run in front of a non-blank start leaves that start. */
  lemma {:induction false} DropSpacesOfRun(run: string, s: string)
    requires AllSpace(run) && (s == [] || !IsSpace(s[0]))
    ensures DropSpaces(run + s) == s
    decreases |run|
  {
    if run != [] {
      assert (run + s)[1..] == run[1..] + s;
      DropSpacesOfRun(run[1..], s);
    } else {
      assert run + s == s;
    }
  }

  /** Collapsing leaves a white-space-free prefix as it is. */
  lemma {:induction false} CollapseWsOfWord(a: string, b: string)
    requires !HasSpace(a)
    ensures CollapseWs(a + b) == a + CollapseWs(b)
    decreases |a|
  {
    if a != [] {
      assert !IsSpace(a[0]);
      assert !HasSpace(a[1..]) by {
        forall k | 0 <= k < |a| - 1 ensures !IsSpace(a[1..][k]) {
          assert a[1..][k] == a[k + 1];
        }
      }
      assert (a + b)[1..] == a[1..] + b;
      CollapseWsOfWord(a[1..], b);
      assert a == [a[0]] + a[1..];
    } else {
      assert a + b == b;
    }
  }

  /** Collapsing turns a white-space run before a non-blank start into one blank. */
  lemma CollapseWsOfRun(run: string, s: string)
    requires run != [] && AllSpace(run) && (s == [] || !IsSpace(s[0]))
    ensures CollapseWs(run + s) == " " + CollapseWs(s)
  {
    DropSpacesOfRun(run, s);
  }

  /** `NAME VALUE` separated by any white-space run collapses to `NAME + " " + VALUE`. */
  lemma CollapseWsOfPair(name: string, sep: string, value: string)
    requires !HasSpace(name) && sep != [] && AllSpace(sep)
    requires value != [] && !HasSpace(value)
    ensures CollapseWs(name + sep + value) == name + " " + value
  {
    var tail := sep + value;
    assert name + sep + value == name + tail;
    CollapseWsOfWord(name, tail);
    CollapseWsOfRun(sep, value);
    assert CollapseWs(value) == value by {
      CollapseWsOfWord(value, []);
      assert value + [] == value;
    }
  }
}
