/**
 * The JavaScript string operations the chat front end relies on, over
 * `string` (a sequence of characters): `includes`, `indexOf` and
 * `lastIndexOf` of one character, ASCII `toLowerCase`, `trim`, `split('\n')`
 * with its inverse `join('\n')`, and `String(n)` of a natural number.
 */
module Strings {

  /** `t` occurs in `s` starting at index `k`. */
  predicate OccursAt(s: string, t: string, k: int) {
    0 <= k && k + |t| <= |s| && s[k..k + |t|] == t
  }

  /** `a + b` occurs at `k` exactly when `a` does and `b` follows it. */
  lemma OccursAtConcat(s: string, a: string, b: string, k: nat)
    ensures OccursAt(s, a + b, k) <==> OccursAt(s, a, k) && OccursAt(s, b, k + |a|)
  {
    var n := k + |a| + |b|;
    if n <= |s| {
      var x, y := s[k..k + |a|], s[k + |a|..n];
      assert s[k..n] == x + y;
      assert (x + y)[..|a|] == x && (x + y)[|a|..] == y;
      assert (a + b)[..|a|] == a && (a + b)[|a|..] == b;
    }
  }

  /** An occurrence inside the slice `s[lo..hi]` is an occurrence in `s`, shifted by `lo`. */
  lemma OccursInSlice(s: string, lo: nat, hi: nat, t: string, i: nat)
    requires lo <= hi <= |s| && i + |t| <= hi - lo
    ensures OccursAt(s[lo..hi], t, i) <==> OccursAt(s, t, lo + i)
  {
    var x, y := s[lo..hi][i..i + |t|], s[lo + i..lo + i + |t|];
    assert forall j :: 0 <= j < |t| ==> x[j] == y[j];
    assert x == y;
  }

  /** The suffix from `p` is the three pieces cut at `q` and `e`. */
  lemma SliceInThree(s: string, p: nat, q: nat, e: nat)
    requires p <= q <= e <= |s|
    ensures s[p..] == s[p..q] + (s[q..e] + s[e..])
  {
  }

  /** `t` occurs where it is placed. */
  lemma OccursBetween(a: string, t: string, b: string)
    ensures OccursAt(a + t + b, t, |a|)
  {
    assert (a + t + b)[|a|..|a| + |t|] == t;
  }

  /** `s.includes(t)`. */
  predicate Includes(s: string, t: string) {
    exists k | 0 <= k <= |s| :: OccursAt(s, t, k)
  }

  /** Every text includes the empty text and itself, and no text includes a longer one. */
  lemma IncludesBounds(s: string, t: string)
    ensures Includes(s, "") && Includes(s, s)
    ensures Includes(s, t) ==> |t| <= |s|
  {
    assert OccursAt(s, "", 0);
    assert OccursAt(s, s, 0);
  }

  /** An occurrence of `t` in a prefix or a suffix of `s` is an occurrence in `s`. */
  lemma IncludesConcat(a: string, b: string, t: string)
    ensures Includes(a, t) ==> Includes(a + b, t)
    ensures Includes(b, t) ==> Includes(a + b, t)
  {
    if Includes(a, t) {
      var k :| 0 <= k <= |a| && OccursAt(a, t, k);
      assert (a + b)[k..k + |t|] == a[k..k + |t|];
      assert OccursAt(a + b, t, k);
    }
    if Includes(b, t) {
      var k :| 0 <= k <= |b| && OccursAt(b, t, k);
      assert k + |t| <= |b| && b[k..k + |t|] == t;
      assert (a + b)[|a| + k..|a| + k + |t|] == b[k..k + |t|];
      assert OccursAt(a + b, t, |a| + k);
    }
  }

  /** Behind a prefix that lacks the first character of `t`, `t` occurs only where it already occurred. */
  lemma IncludesAfterPrefix(a: string, b: string, t: string)
    requires |t| > 0 && t[0] !in a && !Includes(b, t)
    ensures !Includes(a + b, t)
  {
    var s := a + b;
    forall k | 0 <= k <= |s| ensures !OccursAt(s, t, k) {
      if k + |t| > |s| {
      } else if k < |a| {
        assert s[k..k + |t|][0] == a[k];
      } else {
        assert s[k..k + |t|] == b[k - |a|..k - |a| + |t|];
        assert !OccursAt(b, t, k - |a|);
      }
    }
  }

  /** `s.indexOf(c)`: the first index holding `c`, or -1. */
  function IndexOf(s: string, c: char): (r: int)
    ensures -1 <= r < |s|
    ensures r == -1 <==> c !in s
    ensures 0 <= r ==> s[r] == c && c !in s[..r]
  {
    if |s| == 0 then -1
    else if s[0] == c then 0
    else
      var r := IndexOf(s[1..], c);
      assert s == [s[0]] + s[1..];
      if r == -1 then -1
      else
        assert s[..r + 1] == [s[0]] + s[1..][..r];
        r + 1
  }

  /** `s.lastIndexOf(c)`: the last index holding `c`, or -1. */
  function LastIndexOf(s: string, c: char): (r: int)
    ensures -1 <= r < |s|
    ensures r == -1 <==> c !in s
    ensures 0 <= r ==> s[r] == c && c !in s[r + 1..]
  {
    if |s| == 0 then -1
    else if s[|s| - 1] == c then |s| - 1
    else
      assert s == s[..|s| - 1] + [s[|s| - 1]];
      var r := LastIndexOf(s[..|s| - 1], c);
      if r == -1 then -1
      else
        assert s[r + 1..] == s[..|s| - 1][r + 1..] + [s[|s| - 1]];
        r
  }

  /** `s.substring(0, end)`: JavaScript clamps a negative `end` to 0. */
  function SubstringTo(s: string, end: int): (r: string)
    requires end <= |s|
    ensures end < 0 ==> r == ""
    ensures 0 <= end ==> r == s[..end]
  {
    if end < 0 then "" else s[..end]
  }

  /** `toLowerCase` on one character; only `A`-`Z` are mapped. */
  function LowerChar(c: char): char {
    if 'A' <= c <= 'Z' then (c as int + 32) as char else c
  }

  /** `s.toLowerCase()`, restricted to ASCII letters. */
  function ToLower(s: string): (r: string)
    ensures |r| == |s|
    ensures forall i :: 0 <= i < |s| ==> !('A' <= r[i] <= 'Z')
    ensures forall i :: 0 <= i < |s| ==>
      r[i] == s[i] || ('A' <= s[i] <= 'Z' && r[i] as int == s[i] as int + 32)
  {
    seq(|s|, i requires 0 <= i < |s| => LowerChar(s[i]))
  }

  /** Lower-casing twice is lower-casing once. */
  lemma ToLowerIdempotent(s: string)
    ensures ToLower(ToLower(s)) == ToLower(s)
  {
    assert forall i :: 0 <= i < |s| ==> ToLower(ToLower(s))[i] == ToLower(s)[i];
  }

  /** The characters JavaScript's `trim` removes: WhiteSpace and LineTerminator of ECMA-262. */
  predicate IsJsWhitespace(c: char) {
    || c == '\t' || c == '\n' || c == '\U{000B}' || c == '\U{000C}' || c == '\r' || c == ' '
    || c == '\U{00A0}' || c == '\U{1680}' || '\U{2000}' <= c <= '\U{200A}'
    || c == '\U{2028}' || c == '\U{2029}' || c == '\U{202F}' || c == '\U{205F}'
    || c == '\U{3000}' || c == '\U{FEFF}'
  }

  predicate AllWhitespace(s: string) {
    forall i :: 0 <= i < |s| ==> IsJsWhitespace(s[i])
  }

  /** Nothing left to trim: empty, or no whitespace at either end. */
  predicate IsTrimmed(s: string) {
    s == [] || (!IsJsWhitespace(s[0]) && !IsJsWhitespace(s[|s| - 1]))
  }

  /** `s` is `r` with only whitespace before and after it. */
  predicate Surrounds(s: string, pre: string, r: string, post: string) {
    s == pre + r + post && AllWhitespace(pre) && AllWhitespace(post)
  }

  /** The end of the run of whitespace that starts at index `i`. */
  function WhitespaceRunFrom(s: string, i: nat): (j: nat)
    requires i <= |s|
    ensures i <= j <= |s|
    ensures forall k :: i <= k < j ==> IsJsWhitespace(s[k])
    ensures j < |s| ==> !IsJsWhitespace(s[j])
    decreases |s| - i
  {
    if i < |s| && IsJsWhitespace(s[i]) then WhitespaceRunFrom(s, i + 1) else i
  }

  /** The start of the run of whitespace that ends at index `j`, going back no further than `lo`. */
  function WhitespaceRunBack(s: string, lo: nat, j: nat): (i: nat)
    requires lo <= j <= |s|
    ensures lo <= i <= j
    ensures forall k :: i <= k < j ==> IsJsWhitespace(s[k])
    ensures lo < i ==> !IsJsWhitespace(s[i - 1])
    decreases j
  {
    if lo < j && IsJsWhitespace(s[j - 1]) then WhitespaceRunBack(s, lo, j - 1) else j
  }

  /** `s.trim()`. */
  function Trim(s: string): (r: string)
    ensures IsTrimmed(r)
    ensures exists pre, post :: Surrounds(s, pre, r, post)
  {
    var a := WhitespaceRunFrom(s, 0);
    var b := WhitespaceRunBack(s, a, |s|);
    TrimFrame(s, a, b);
    s[a..b]
  }

  /** Cutting `s` at two indices between which lies a core framed by whitespace runs. */
  lemma TrimFrame(s: string, a: nat, b: nat)
    requires a <= b <= |s|
    requires forall k :: 0 <= k < a ==> IsJsWhitespace(s[k])
    requires forall k :: b <= k < |s| ==> IsJsWhitespace(s[k])
    requires a < b ==> !IsJsWhitespace(s[a]) && !IsJsWhitespace(s[b - 1])
    ensures IsTrimmed(s[a..b]) && Surrounds(s, s[..a], s[a..b], s[b..])
  {
    var pre, r, post := s[..a], s[a..b], s[b..];
    assert r != [] ==> r[0] == s[a] && r[|r| - 1] == s[b - 1];
    assert forall k :: 0 <= k < |pre| ==> pre[k] == s[k];
    assert forall k :: 0 <= k < |post| ==> post[k] == s[b + k];
    assert s == pre + r + post;
  }

  /** Trimming is determined by its result: any whitespace-only frame of a trimmed core trims to that core. */
  lemma TrimUnique(s: string, pre: string, r: string, post: string)
    requires Surrounds(s, pre, r, post) && IsTrimmed(r)
    ensures Trim(s) == r
  {
    var a := WhitespaceRunFrom(s, 0);
    var b := WhitespaceRunBack(s, a, |s|);
    assert forall k :: 0 <= k < |pre| ==> s[k] == pre[k];
    assert forall k :: 0 <= k < |r| ==> s[|pre| + k] == r[k];
    assert forall k :: 0 <= k < |post| ==> s[|pre| + |r| + k] == post[k];
    if r == [] {
      assert a == |s|;
    } else {
      assert s[|pre|] == r[0] && s[|pre| + |r| - 1] == r[|r| - 1];
      assert a == |pre|;
      assert b == |pre| + |r|;
      assert s[a..b] == r;
    }
  }

  /** Whitespace added at the end is trimmed away again. */
  lemma TrimIgnoresTrailingWhitespace(s: string, c: char)
    requires IsJsWhitespace(c)
    ensures Trim(s + [c]) == Trim(s)
  {
    var r := Trim(s);
    var pre, post :| Surrounds(s, pre, r, post);
    assert s + [c] == pre + r + (post + [c]);
    assert forall i :: 0 <= i < |post| ==> (post + [c])[i] == post[i];
    TrimUnique(s + [c], pre, r, post + [c]);
  }

  /** `s.trim()` is empty exactly when `s` is all whitespace. */
  lemma TrimEmptyIffAllWhitespace(s: string)
    ensures Trim(s) == "" <==> AllWhitespace(s)
  {
    var r := Trim(s);
    var pre, post :| Surrounds(s, pre, r, post);
    if r == "" {
      assert s == pre + post;
      assert forall i :: 0 <= i < |s| ==> s[i] == if i < |pre| then pre[i] else post[i - |pre|];
    } else {
      assert s[|pre|] == r[0];
    }
  }

  /** `s.split('\n')`: the pieces between line breaks, in order. */
  function Lines(s: string): (ls: seq<string>)
    ensures |ls| >= 1
    ensures forall i :: 0 <= i < |ls| ==> '\n' !in ls[i]
    decreases |s|
  {
    var k := IndexOf(s, '\n');
    if k == -1 then [s] else [s[..k]] + Lines(s[k + 1..])
  }

  /** `ls.join('\n')`. */
  function JoinLines(ls: seq<string>): string {
    if |ls| == 0 then ""
    else if |ls| == 1 then ls[0]
    else ls[0] + "\n" + JoinLines(ls[1..])
  }

  /** A string is what comes before index `k`, the character at `k`, and what comes after. */
  lemma SplitAround(s: string, k: nat)
    requires k < |s|
    ensures s == s[..k] + [s[k]] + s[k + 1..]
  {
  }

  /** Joining a first line in front of at least one more puts one line break between them. */
  lemma JoinLinesCons(head: string, tail: seq<string>)
    requires |tail| >= 1
    ensures JoinLines([head] + tail) == head + "\n" + JoinLines(tail)
  {
    assert ([head] + tail)[1..] == tail;
  }

  /** Joining the lines of `s` gives `s` back. */
  lemma {:induction false} JoinLinesOfLines(s: string)
    ensures JoinLines(Lines(s)) == s
    decreases |s|
  {
    var k := IndexOf(s, '\n');
    if k != -1 {
      var head, rest := s[..k], s[k + 1..];
      var tail := Lines(rest);
      assert Lines(s) == [head] + tail;
      JoinLinesOfLines(rest);
      JoinLinesCons(head, tail);
      assert [s[k]] == "\n";
      SplitAround(s, k);
      calc {
        JoinLines(Lines(s));
        JoinLines([head] + tail);
        head + "\n" + JoinLines(tail);
        head + "\n" + rest;
      }
    }
  }

  /** Splitting a join of line-break-free pieces gives the pieces back. */
  lemma {:induction false} LinesOfJoinLines(ls: seq<string>)
    requires |ls| >= 1
    requires forall i :: 0 <= i < |ls| ==> '\n' !in ls[i]
    ensures Lines(JoinLines(ls)) == ls
  {
    var s := JoinLines(ls);
    if |ls| == 1 {
      assert IndexOf(s, '\n') == -1;
    } else {
      var rest := JoinLines(ls[1..]);
      assert s == ls[0] + "\n" + rest;
      assert s[|ls[0]|] == '\n';
      assert s[..|ls[0]|] == ls[0];
      var k := IndexOf(s, '\n');
      assert '\n' !in s[..|ls[0]|];
      assert k == |ls[0]|;
      assert s[k + 1..] == rest;
      LinesOfJoinLines(ls[1..]);
    }
  }

  /** The decimal digit character for `d`. */
  function DigitChar(d: nat): char
    requires d < 10
  {
    "0123456789"[d]
  }

  /** `String(n)` for a natural number: its decimal digits, no leading zeros. */
  function DecimalString(n: nat): (r: string)
    ensures |r| >= 1
    decreases n
  {
    if n < 10 then [DigitChar(n)] else DecimalString(n / 10) + [DigitChar(n % 10)]
  }

  /** The value of a string of decimal digits (0 for anything else). */
  function DecimalValue(s: string): nat {
    if |s| == 0 then 0
    else
      var c := s[|s| - 1];
      var d := if '0' <= c <= '9' then c as int - '0' as int else 0;
      10 * DecimalValue(s[..|s| - 1]) + d
  }

  /** Reading the decimal string of `n` gives `n`. */
  lemma {:induction false} DecimalValueOfString(n: nat)
    ensures DecimalValue(DecimalString(n)) == n
    decreases n
  {
    var s := DecimalString(n);
    if n < 10 {
      assert s == [DigitChar(n)];
      assert s[..0] == [];
    } else {
      DecimalValueOfString(n / 10);
      assert s[..|s| - 1] == DecimalString(n / 10);
    }
  }

  /** Different numbers have different decimal strings. */
  lemma DecimalStringInjective(m: nat, n: nat)
    requires m != n
    ensures DecimalString(m) != DecimalString(n)
  {
    DecimalValueOfString(m);
    DecimalValueOfString(n);
  }
}
