/**
 * How a chat message is displayed (src/components/chat/chat-message.tsx).
 *
 * `renderContent` splits the text with the global pattern
 * /```(?:[a-z]+)?\n([\s\S]*?)```/g: JavaScript's `split` with a capture group
 * returns the prose before each match, then the captured body, and finally
 * the prose after the last match. Bodies are shown trimmed, prose is shown
 * line by line. An assistant message whose text is exactly `...` is the
 * typing indicator and is not parsed.
 */
module Render {
  import opened Wrappers
  import opened Strings
  import opened Types

  /** A fenced code block as the pattern sees it: the (discarded) language tag and the captured body. */
  datatype Fence = Fence(lang: string, body: string)

  /** One element of the split: prose between fences, or a fence's body (its tag kept for reassembly). */
  datatype Part = Prose(text: string) | Code(lang: string, body: string)

  const Ticks: string := "```"

  predicate IsLowerLetter(c: char) {
    'a' <= c <= 'z'
  }

  /** Matches `[a-z]*` entirely. */
  predicate IsLowerWord(w: string) {
    forall i :: 0 <= i < |w| ==> IsLowerLetter(w[i])
  }

  /** The first index at or after `from` where three backticks start. */
  function NextTicks(s: string, from: nat): (r: Option<nat>)
    requires from <= |s|
    ensures r.Some? ==> from <= r.value && OccursAt(s, Ticks, r.value)
    ensures r.Some? ==> forall k :: from <= k < r.value ==> !OccursAt(s, Ticks, k)
    ensures r.None? ==> forall k :: from <= k ==> !OccursAt(s, Ticks, k)
    decreases |s| - from
  {
    if from + 3 > |s| then None
    else if s[from..from + 3] == Ticks then Some(from)
    else NextTicks(s, from + 1)
  }

  /** The text a fence occupies in the message. */
  function FenceText(f: Fence): string {
    Ticks + f.lang + "\n" + f.body + Ticks
  }

  /**
   * The rest of a match whose opening backticks end at `start`, with the tag
   * read up to index `j`. Backtracking cannot help the optional tag: it must
   * be the whole run of `a`-`z` and be followed by a line break. The lazy
   * body then ends at the first backticks after that line break.
   */
  function MatchTag(s: string, start: nat, j: nat): (r: Option<Fence>)
    requires start <= j <= |s|
    ensures r.Some? ==> start + |r.value.lang| + |r.value.body| + 4 <= |s|
    decreases |s| - j
  {
    if j < |s| && IsLowerLetter(s[j]) then MatchTag(s, start, j + 1)
    else if j < |s| && s[j] == '\n' then
      match NextTicks(s, j + 1)
      case Some(k) => Some(Fence(s[start..j], s[j + 1..k]))
      case None => None
    else None
  }

  /** The pattern matched at index `q` of `s`: what `split` tries at each position. */
  function FenceAt(s: string, q: nat): (r: Option<Fence>)
    ensures r.Some? ==> q + |FenceText(r.value)| <= |s|
  {
    if q + 3 <= |s| && s[q..q + 3] == Ticks then MatchTag(s, q + 3, q + 3) else None
  }

  /** No three backticks start inside the body: it is the shortest text that the closing backticks can follow. */
  predicate ShortestBody(b: string) {
    forall k :: 0 <= k < |b| ==> !OccursAt(b + Ticks, Ticks, k)
  }

  /** What the pattern demands of a match of `f` at index `q` of `s`, read off the regular expression. */
  predicate MatchesAt(s: string, q: nat, f: Fence) {
    && IsLowerWord(f.lang)
    && ShortestBody(f.body)
    && OccursAt(s, FenceText(f), q)
  }

  /** What a successful `MatchTag` read: the tag up to a line break, then the body up to the first backticks. */
  lemma {:induction false} MatchTagShape(s: string, start: nat, j: nat, f: Fence) returns (e: nat)
    requires start <= j <= |s|
    requires forall i :: start <= i < j ==> IsLowerLetter(s[i])
    requires MatchTag(s, start, j) == Some(f)
    ensures e == start + |f.lang| && e < |s| && s[e] == '\n'
    ensures f.lang == s[start..e] && IsLowerWord(f.lang)
    ensures NextTicks(s, e + 1) == Some(e + 1 + |f.body|) && f.body == s[e + 1..e + 1 + |f.body|]
    decreases |s| - j
  {
    if j < |s| && IsLowerLetter(s[j]) {
      e := MatchTagShape(s, start, j + 1, f);
    } else {
      MatchTagStop(s, start, j, f);
      e := j;
    }
  }

  /** The read stops at the first character that is not a letter: it must be a line break, and the body runs to the next backticks. */
  lemma MatchTagStop(s: string, start: nat, j: nat, f: Fence)
    requires start <= j <= |s|
    requires forall i :: start <= i < j ==> IsLowerLetter(s[i])
    requires !(j < |s| && IsLowerLetter(s[j])) && MatchTag(s, start, j) == Some(f)
    ensures j == start + |f.lang| && j < |s| && s[j] == '\n'
    ensures f.lang == s[start..j] && IsLowerWord(f.lang)
    ensures NextTicks(s, j + 1) == Some(j + 1 + |f.body|) && f.body == s[j + 1..j + 1 + |f.body|]
  {
    var k := NextTicks(s, j + 1).value;
    assert f == Fence(s[start..j], s[j + 1..k]);
    LowerWordSlice(s, start, j);
  }

  /** A stretch of lower-case letters is a lower-case word. */
  lemma LowerWordSlice(s: string, lo: nat, hi: nat)
    requires lo <= hi <= |s|
    requires forall i :: lo <= i < hi ==> IsLowerLetter(s[i])
    ensures IsLowerWord(s[lo..hi])
  {
    assert forall i :: 0 <= i < hi - lo ==> s[lo..hi][i] == s[lo + i];
  }

  /** Reading a tag of letters that a line break closes at `e` leads to the first backticks after `e`. */
  lemma {:induction false} MatchTagFinds(s: string, start: nat, j: nat, e: nat)
    requires start <= j <= e < |s|
    requires forall i :: j <= i < e ==> IsLowerLetter(s[i])
    requires s[e] == '\n'
    ensures MatchTag(s, start, j) ==
      match NextTicks(s, e + 1)
      case Some(k) => Some(Fence(s[start..e], s[e + 1..k]))
      case None => None
    decreases e - j
  {
    if j < e {
      MatchTagFinds(s, start, j + 1, e);
    }
  }

  /** The first backticks at or after `from` are at `k` when they occur there and nowhere before. */
  lemma NextTicksIs(s: string, from: nat, k: nat)
    requires from <= k && OccursAt(s, Ticks, k)
    requires forall j :: from <= j < k ==> !OccursAt(s, Ticks, j)
    ensures NextTicks(s, from) == Some(k)
  {
    var r := NextTicks(s, from);
    assert r.None? ==> !OccursAt(s, Ticks, k);
    assert r.Some? ==> !(r.value < k) && !(k < r.value);
  }

  /** The text of `f` occurs at `q` exactly when its pieces follow each other there: backticks, tag, line break, body, backticks. */
  lemma FenceTextAt(s: string, q: nat, f: Fence)
    ensures OccursAt(s, FenceText(f), q) <==>
      var e := q + 3 + |f.lang|;
      && OccursAt(s, Ticks, q) && OccursAt(s, f.lang, q + 3) && OccursAt(s, "\n", e)
      && OccursAt(s, f.body, e + 1) && OccursAt(s, Ticks, e + 1 + |f.body|)
  {
    var a := Ticks + f.lang;
    var b := a + "\n";
    var c := b + f.body;
    OccursAtConcat(s, c, Ticks, q);
    OccursAtConcat(s, b, f.body, q);
    OccursAtConcat(s, a, "\n", q);
    OccursAtConcat(s, Ticks, f.lang, q);
  }

  /** A body placed at `b0` and followed by backticks is the shortest one exactly when no backticks start inside it. */
  lemma BodyEndsAtFirstTicks(s: string, b0: nat, body: string)
    requires OccursAt(s, body, b0) && OccursAt(s, Ticks, b0 + |body|)
    ensures ShortestBody(body) <==> forall k :: b0 <= k < b0 + |body| ==> !OccursAt(s, Ticks, k)
  {
    var t := body + Ticks;
    var hi := b0 + |t|;
    OccursAtConcat(s, body, Ticks, b0);
    assert s[b0..hi] == t;
    forall i | 0 <= i < |body| ensures OccursAt(t, Ticks, i) <==> OccursAt(s, Ticks, b0 + i) {
      OccursInSlice(s, b0, hi, Ticks, i);
    }
    forall k | b0 <= k < b0 + |body| ensures OccursAt(s, Ticks, k) <==> OccursAt(t, Ticks, k - b0) {
      OccursInSlice(s, b0, hi, Ticks, k - b0);
    }
  }

  /** The pieces a successful read of tag and body leaves in the text: tag, line break, body, closing backticks, and no backticks inside the body. */
  lemma MatchTagPieces(s: string, q: nat, f: Fence) returns (e: nat)
    requires q + 3 <= |s| && MatchTag(s, q + 3, q + 3) == Some(f)
    ensures e == q + 3 + |f.lang| && IsLowerWord(f.lang)
    ensures OccursAt(s, f.lang, q + 3) && OccursAt(s, "\n", e)
    ensures OccursAt(s, f.body, e + 1) && OccursAt(s, Ticks, e + 1 + |f.body|)
    ensures forall k :: e + 1 <= k < e + 1 + |f.body| ==> !OccursAt(s, Ticks, k)
  {
    e := MatchTagShape(s, q + 3, q + 3, f);
    assert s[e..e + 1] == [s[e]];
  }

  /** Backticks at `q` followed by a successful read of tag and body have the shape the pattern describes. */
  lemma MatchTagMatches(s: string, q: nat, f: Fence)
    requires OccursAt(s, Ticks, q) && MatchTag(s, q + 3, q + 3) == Some(f)
    ensures MatchesAt(s, q, f)
  {
    var e := MatchTagPieces(s, q, f);
    BodyEndsAtFirstTicks(s, e + 1, f.body);
    FenceTextAt(s, q, f);
  }

  /** A match found at `q` has the shape the pattern describes. */
  lemma FenceAtMatches(s: string, q: nat, f: Fence)
    requires FenceAt(s, q) == Some(f)
    ensures MatchesAt(s, q, f)
  {
    MatchTagMatches(s, q, f);
  }

  /** Backticks at `q`, letters up to a line break at `e`, and the first backticks after it at `k` make a match. */
  lemma FenceAtFromPieces(s: string, q: nat, e: nat, k: nat)
    requires OccursAt(s, Ticks, q) && q + 3 <= e < |s| && s[e] == '\n'
    requires forall i :: q + 3 <= i < e ==> IsLowerLetter(s[i])
    requires NextTicks(s, e + 1) == Some(k)
    ensures FenceAt(s, q) == Some(Fence(s[q + 3..e], s[e + 1..k]))
  {
    MatchTagFinds(s, q + 3, q + 3, e);
  }

  /** A fence of the shape the pattern describes is what the match at `q` finds. */
  lemma MatchIsFenceAt(s: string, q: nat, f: Fence)
    requires MatchesAt(s, q, f)
    ensures FenceAt(s, q) == Some(f)
  {
    FenceTextAt(s, q, f);
    var e := q + 3 + |f.lang|;
    var k := e + 1 + |f.body|;
    assert s[e] == s[e..e + 1][0] == '\n';
    assert s[q + 3..e] == f.lang && s[e + 1..k] == f.body;
    assert forall i :: q + 3 <= i < e ==> s[i] == f.lang[i - q - 3];
    BodyEndsAtFirstTicks(s, e + 1, f.body);
    NextTicksIs(s, e + 1, k);
    FenceAtFromPieces(s, q, e, k);
  }

  /** The match at `q` is exactly the fence the pattern describes, and there is none when no fence fits. */
  lemma FenceAtIsTheMatch(s: string, q: nat, f: Fence)
    ensures FenceAt(s, q) == Some(f) <==> MatchesAt(s, q, f)
  {
    if FenceAt(s, q) == Some(f) { FenceAtMatches(s, q, f); }
    if MatchesAt(s, q, f) { MatchIsFenceAt(s, q, f); }
  }

  /** No match starts at any index in `[from, to)`. */
  predicate NoFenceBetween(s: string, from: nat, to: nat) {
    forall k :: from <= k < to ==> FenceAt(s, k).None?
  }

  /** The leftmost match at or after `from`: `split` tries each position in turn. */
  function FirstFence(s: string, from: nat): (r: Option<(nat, Fence)>)
    requires from <= |s|
    ensures r.Some? ==> from <= r.value.0 < |s| && FenceAt(s, r.value.0) == Some(r.value.1)
    ensures r.Some? ==> NoFenceBetween(s, from, r.value.0)
    ensures r.None? ==> NoFenceBetween(s, from, |s| + 1)
    decreases |s| - from
  {
    if from == |s| then None
    else
      match FenceAt(s, from)
      case Some(f) => Some((from, f))
      case None => FirstFence(s, from + 1)
  }

  /** The leftmost match is determined by the text: a match at `q` with none before it is the one `split` takes. */
  lemma FirstFenceIsLeftmost(s: string, from: nat, q: nat, f: Fence)
    requires from <= q <= |s|
    requires NoFenceBetween(s, from, q) && FenceAt(s, q) == Some(f)
    ensures FirstFence(s, from) == Some((q, f))
  {
  }

  /** A match `split` found: where it starts and what it captured. */
  datatype Found = Found(at: nat, fence: Fence)

  /** The index just after a match. */
  function End(m: Found): nat {
    m.at + |FenceText(m.fence)|
  }

  /** The matches lie in order from index `from` on, without overlapping, each where its text occurs in `s`. */
  predicate Placed(s: string, from: nat, ms: seq<Found>)
    decreases |ms|
  {
    && from <= |s|
    && (|ms| > 0 ==>
      && from <= ms[0].at
      && OccursAt(s, FenceText(ms[0].fence), ms[0].at)
      && Placed(s, End(ms[0]), ms[1..]))
  }

  /** Where the search for match `i` starts: at `from`, or just after the previous match. */
  function Resume(from: nat, ms: seq<Found>, i: nat): nat
    requires i <= |ms|
  {
    if i == 0 then from else End(ms[i - 1])
  }

  /** The matches of the global pattern from index `from` on: the leftmost one, then again from where it ends. */
  function Matches(s: string, from: nat): (ms: seq<Found>)
    requires from <= |s|
    ensures Placed(s, from, ms)
    decreases |s| - from
  {
    match FirstFence(s, from)
    case None => []
    case Some((q, f)) =>
      FenceAtMatches(s, q, f);
      var ms := [Found(q, f)] + Matches(s, q + |FenceText(f)|);
      assert ms[1..] == Matches(s, q + |FenceText(f)|);
      ms
  }

  /**
   * `split` of `s` from index `p` at the matches `ms`: the prose before each
   * match, then the match's body, and finally the prose after the last match.
   */
  function SplitWith(s: string, p: nat, ms: seq<Found>): (parts: seq<Part>)
    requires Placed(s, p, ms)
    ensures |parts| == 2 * |ms| + 1
    decreases |ms|
  {
    if |ms| == 0 then [Prose(s[p..])]
    else [Prose(s[p..ms[0].at]), Code(ms[0].fence.lang, ms[0].fence.body)] + SplitWith(s, End(ms[0]), ms[1..])
  }

  /** `content.split(/```(?:[a-z]+)?\n([\s\S]*?)```/g)`, with the tag of each fence kept beside its body. */
  function Parse(s: string): (parts: seq<Part>)
    ensures |parts| == 2 * |Matches(s, 0)| + 1
  {
    SplitWith(s, 0, Matches(s, 0))
  }

  /** Puts the parts back together, fences written out with their tags. */
  function Unparse(parts: seq<Part>): string {
    if parts == [] then ""
    else
      var head := match parts[0]
        case Prose(t) => t
        case Code(l, b) => FenceText(Fence(l, b));
      head + Unparse(parts[1..])
  }

  /** Every match found is what the pattern matches at its index. */
  lemma {:induction false} MatchesAreFenceAt(s: string, from: nat)
    requires from <= |s|
    ensures forall i :: 0 <= i < |Matches(s, from)| ==>
      FenceAt(s, Matches(s, from)[i].at) == Some(Matches(s, from)[i].fence)
    decreases |s| - from
  {
    match FirstFence(s, from)
    case None =>
    case Some((q, f)) =>
      var e := q + |FenceText(f)|;
      MatchesAreFenceAt(s, e);
      assert Matches(s, from) == [Found(q, f)] + Matches(s, e);
  }

  /** Resuming after a match that heads the list is resuming after it in the rest of the list. */
  lemma ResumeCons(from: nat, m: Found, rest: seq<Found>)
    ensures forall i :: 1 <= i <= |rest| + 1 ==> Resume(from, [m] + rest, i) == Resume(End(m), rest, i - 1)
  {
    forall i | 1 <= i <= |rest| + 1 ensures Resume(from, [m] + rest, i) == Resume(End(m), rest, i - 1) {
      if i > 1 {
        assert ([m] + rest)[i - 1] == rest[i - 2];
      }
    }
  }

  /** No match starts between one match found and the next. */
  lemma {:induction false} MatchesAreLeftmost(s: string, from: nat)
    requires from <= |s|
    ensures forall i :: 0 <= i < |Matches(s, from)| ==>
      NoFenceBetween(s, Resume(from, Matches(s, from), i), Matches(s, from)[i].at)
    decreases |s| - from
  {
    var ms := Matches(s, from);
    if ms != [] {
      var q, f := ms[0].at, ms[0].fence;
      var e := q + |FenceText(f)|;
      var rest := Matches(s, e);
      assert ms == [Found(q, f)] + rest;
      MatchesAreLeftmost(s, e);
      ResumeCons(from, Found(q, f), rest);
      assert forall i :: 1 <= i < |ms| ==> ms[i] == rest[i - 1];
    }
  }

  /** No match starts after the last match found. */
  lemma {:induction false} NoMatchAfterLast(s: string, from: nat)
    requires from <= |s|
    ensures NoFenceBetween(s, Resume(from, Matches(s, from), |Matches(s, from)|), |s| + 1)
    decreases |s| - from
  {
    var ms := Matches(s, from);
    if ms != [] {
      var q, f := ms[0].at, ms[0].fence;
      var e := q + |FenceText(f)|;
      var rest := Matches(s, e);
      assert ms == [Found(q, f)] + rest;
      NoMatchAfterLast(s, e);
      ResumeCons(from, Found(q, f), rest);
    }
  }

  /** The split alternates prose and code, one code part per match, in the order of the matches. */
  lemma {:induction false} SplitShape(s: string, p: nat, ms: seq<Found>)
    requires Placed(s, p, ms)
    ensures |SplitWith(s, p, ms)| == 2 * |ms| + 1
    ensures forall j :: 0 <= j < |SplitWith(s, p, ms)| ==> (SplitWith(s, p, ms)[j].Prose? <==> j % 2 == 0)
    ensures forall j :: 0 <= j < |SplitWith(s, p, ms)| && j % 2 == 1 ==>
      SplitWith(s, p, ms)[j] == Code(ms[j / 2].fence.lang, ms[j / 2].fence.body)
    decreases |ms|
  {
    if |ms| > 0 {
      var parts := SplitWith(s, p, ms);
      var rest := SplitWith(s, End(ms[0]), ms[1..]);
      SplitShape(s, End(ms[0]), ms[1..]);
      assert parts == [Prose(s[p..ms[0].at]), Code(ms[0].fence.lang, ms[0].fence.body)] + rest;
      assert forall j :: 2 <= j < |parts| ==> parts[j] == rest[j - 2];
      assert forall j :: 2 <= j < |parts| && j % 2 == 1 ==> ms[j / 2] == ms[1..][(j - 2) / 2];
    }
  }

  /** Nothing is lost or reordered: the parts, fences written back, are the text from `p` on. */
  lemma {:induction false} SplitReassembles(s: string, p: nat, ms: seq<Found>)
    requires Placed(s, p, ms)
    ensures Unparse(SplitWith(s, p, ms)) == s[p..]
    decreases |ms|
  {
    if |ms| == 0 {
      UnparseCons(Prose(s[p..]), []);
    } else {
      var q, e, f := ms[0].at, End(ms[0]), ms[0].fence;
      var rest := SplitWith(s, e, ms[1..]);
      SplitReassembles(s, e, ms[1..]);
      assert SplitWith(s, p, ms) == [Prose(s[p..q]), Code(f.lang, f.body)] + rest;
      ReassembleStep(s, p, q, e, f, rest);
    }
  }

  /** Prose up to a fence, the fence, and parts that write out the rest of the text, write out the text from `p`. */
  lemma ReassembleStep(s: string, p: nat, q: nat, e: nat, f: Fence, rest: seq<Part>)
    requires p <= q <= e <= |s| && s[q..e] == FenceText(f) && Unparse(rest) == s[e..]
    ensures Unparse([Prose(s[p..q]), Code(f.lang, f.body)] + rest) == s[p..]
  {
    var code := [Code(f.lang, f.body)] + rest;
    assert [Prose(s[p..q]), Code(f.lang, f.body)] + rest == [Prose(s[p..q])] + code;
    UnparseCons(Prose(s[p..q]), code);
    UnparseCons(Code(f.lang, f.body), rest);
    SliceInThree(s, p, q, e);
  }

  /** Writing out a part followed by others. */
  lemma UnparseCons(part: Part, rest: seq<Part>)
    ensures Unparse([part] + rest) == (match part
      case Prose(t) => t
      case Code(l, b) => FenceText(Fence(l, b))) + Unparse(rest)
  {
    assert ([part] + rest)[1..] == rest;
  }

  /** The split has odd length; even positions hold prose, odd positions hold the matches' bodies in order. */
  lemma ParseAlternates(s: string)
    ensures |Parse(s)| == 2 * |Matches(s, 0)| + 1
    ensures forall j :: 0 <= j < |Parse(s)| ==> (Parse(s)[j].Prose? <==> j % 2 == 0)
    ensures forall j :: 0 <= j < |Parse(s)| && j % 2 == 1 ==>
      Parse(s)[j] == Code(Matches(s, 0)[j / 2].fence.lang, Matches(s, 0)[j / 2].fence.body)
  {
    SplitShape(s, 0, Matches(s, 0));
  }

  /** Nothing is lost or reordered: the parts, fences written back, are the whole message. */
  lemma ParseReassembles(s: string)
    ensures Unparse(Parse(s)) == s
  {
    SplitReassembles(s, 0, Matches(s, 0));
  }

  /** A body that ends at its first backticks contains no three backticks. */
  lemma ShortestBodyHasNoTicks(b: string)
    requires ShortestBody(b)
    ensures !Includes(b, Ticks)
  {
    if Includes(b, Ticks) {
      var k :| 0 <= k <= |b| && OccursAt(b, Ticks, k);
      assert (b + Ticks)[k..k + 3] == b[k..k + 3];
      assert OccursAt(b + Ticks, Ticks, k);
      assert false;
    }
  }

  /** Every captured fence has a lower-case tag, and its body is the shortest possible, so holds no three backticks. */
  lemma ParseCodeIsWellFormed(s: string)
    ensures forall j :: 0 <= j < |Parse(s)| && Parse(s)[j].Code? ==>
      && IsLowerWord(Parse(s)[j].lang)
      && ShortestBody(Parse(s)[j].body)
      && !Includes(Parse(s)[j].body, Ticks)
  {
    var ms := Matches(s, 0);
    ParseAlternates(s);
    MatchesAreFenceAt(s, 0);
    forall j | 0 <= j < |Parse(s)| && Parse(s)[j].Code?
      ensures IsLowerWord(Parse(s)[j].lang) && ShortestBody(Parse(s)[j].body) && !Includes(Parse(s)[j].body, Ticks)
    {
      var m := ms[j / 2];
      FenceAtMatches(s, m.at, m.fence);
      ShortestBodyHasNoTicks(m.fence.body);
    }
  }

  /** The first prose part runs up to the leftmost match, and the first code part is that match. */
  lemma ParseStartsAtLeftmostMatch(s: string)
    ensures Parse(s)[0].Prose?
    ensures NoFenceBetween(s, 0, |Parse(s)[0].text|)
    ensures |Parse(s)| > 1 ==>
      Parse(s)[1].Code? && FenceAt(s, |Parse(s)[0].text|) == Some(Fence(Parse(s)[1].lang, Parse(s)[1].body))
  {
    var ms := Matches(s, 0);
    MatchesAreFenceAt(s, 0);
    MatchesAreLeftmost(s, 0);
    NoMatchAfterLast(s, 0);
    if |ms| > 0 {
      assert Parse(s)[0] == Prose(s[0..ms[0].at]);
    }
  }

  /** A message with no match anywhere is one prose part holding all of it, and only such a message is. */
  lemma ParseWithoutFence(s: string)
    ensures Parse(s) == [Prose(s)] <==> NoFenceBetween(s, 0, |s| + 1)
  {
    var ms := Matches(s, 0);
    MatchesAreFenceAt(s, 0);
    NoMatchAfterLast(s, 0);
    ParseAlternates(s);
    if |ms| > 0 {
      assert FenceAt(s, ms[0].at).Some?;
    } else {
      assert s[0..] == s;
    }
  }

  /** The strings JavaScript's `split` returns: prose texts and captured bodies, without the tags. */
  function SplitStrings(s: string): (strs: seq<string>)
    ensures |strs| == |Parse(s)|
  {
    var parts := Parse(s);
    seq(|parts|, i requires 0 <= i < |parts| =>
      match parts[i]
      case Prose(t) => t
      case Code(_, b) => b)
  }

  /** What is displayed for one part of the split. */
  datatype Block = Paragraphs(lines: seq<string>) | CodeBlock(code: string)

  /** How one string of the split is shown: a code body as a trimmed code block, prose as one paragraph per line. */
  function RenderPart(isCode: bool, text: string): Block {
    if isCode then CodeBlock(Trim(text)) else Paragraphs(Lines(text))
  }

  /** `renderContent`: the strings at odd positions of the split are code bodies, the others prose. */
  function RenderContent(content: string): (blocks: seq<Block>)
    ensures |blocks| == |Parse(content)|
  {
    RenderStrings(SplitStrings(content))
  }

  function RenderStrings(parts: seq<string>): (blocks: seq<Block>)
    ensures |blocks| == |parts|
  {
    seq(|parts|, i requires 0 <= i < |parts| => RenderPart(i % 2 == 1, parts[i]))
  }

  /**
   * Each code part is shown as its body without surrounding whitespace, and
   * each prose part as lines that join back to exactly that prose.
   */
  lemma RenderContentShowsParts(content: string)
    ensures forall i :: 0 <= i < |Parse(content)| && Parse(content)[i].Code? ==>
      && RenderContent(content)[i].CodeBlock?
      && IsTrimmed(RenderContent(content)[i].code)
      && exists pre, post :: Surrounds(Parse(content)[i].body, pre, RenderContent(content)[i].code, post)
    ensures forall i :: 0 <= i < |Parse(content)| && Parse(content)[i].Prose? ==>
      && RenderContent(content)[i].Paragraphs?
      && JoinLines(RenderContent(content)[i].lines) == Parse(content)[i].text
  {
    ParseAlternates(content);
    forall i | 0 <= i < |Parse(content)| && Parse(content)[i].Prose?
      ensures JoinLines(RenderContent(content)[i].lines) == Parse(content)[i].text
    {
      JoinLinesOfLines(Parse(content)[i].text);
    }
  }

  /** A message with prose, a `js` block and prose again. */
  const Example: string := "intro\n```js\nconsole.log(1)\n```\nend"
  const ExampleFence: Fence := Fence("js", "console.log(1)\n")

  lemma ExampleFenceOccurs()
    ensures OccursAt(Example, FenceText(ExampleFence), 6)
  {
    assert Example == "intro\n" + FenceText(ExampleFence) + "\nend";
    OccursBetween("intro\n", FenceText(ExampleFence), "\nend");
  }

  lemma ExampleMatchesOnce()
    ensures OccursAt(Example, FenceText(ExampleFence), 6)
    ensures NoFenceBetween(Example, 0, 6) && NoFenceBetween(Example, 30, |Example| + 1)
  {
    var s := Example;
    ExampleFenceOccurs();
    forall k | 0 <= k < 6 || 30 <= k <= |s| ensures FenceAt(s, k).None? {
      if k + 3 <= |s| {
        assert s[k..k + 3][0] == s[k] != '`';
      }
    }
  }

  lemma ExampleBodyIsShortest()
    ensures ShortestBody(ExampleFence.body)
  {
    var b := ExampleFence.body;
    forall k | 0 <= k < |b| ensures !OccursAt(b + Ticks, Ticks, k) {
      assert (b + Ticks)[k] == b[k] != '`';
      assert (b + Ticks)[k..k + 3][0] == (b + Ticks)[k];
    }
  }

  /** The worked example splits into the prose before the block, the block's body, and the prose after it. */
  lemma ParseExample()
    ensures Parse(Example) == [Prose("intro\n"), Code("js", "console.log(1)\n"), Prose("\nend")]
  {
    var s, f := Example, ExampleFence;
    ExampleMatchesOnce();
    ExampleBodyIsShortest();
    MatchIsFenceAt(s, 6, f);
    FirstFenceIsLeftmost(s, 0, 6, f);
    assert FirstFence(s, 30).None?;
    assert Matches(s, 30) == [];
    var ms := Matches(s, 0);
    assert ms == [Found(6, f)];
    assert s[0..6] == "intro\n" && s[30..] == "\nend";
    assert SplitWith(s, 30, []) == [Prose("\nend")];
  }

  /** How each string of the worked example's split is shown. */
  lemma RenderThree(a: string, b: string, c: string)
    ensures RenderStrings([a, b, c]) == [RenderPart(false, a), RenderPart(true, b), RenderPart(false, c)]
  {
    var r := RenderStrings([a, b, c]);
    assert r == [r[0], r[1], r[2]];
    assert r[0] == RenderPart(false, a);
    assert r[1] == RenderPart(true, b);
    assert r[2] == RenderPart(false, c);
  }

  lemma RenderExampleIntro()
    ensures RenderPart(false, "intro\n") == Paragraphs(["intro", ""])
  {
    assert JoinLines(["intro", ""]) == "intro\n";
    LinesOfJoinLines(["intro", ""]);
  }

  lemma RenderExampleCode()
    ensures RenderPart(true, "console.log(1)\n") == CodeBlock("console.log(1)")
  {
    TrimUnique("console.log(1)\n", "", "console.log(1)", "\n");
  }

  lemma RenderExampleEnd()
    ensures RenderPart(false, "\nend") == Paragraphs(["", "end"])
  {
    assert JoinLines(["", "end"]) == "\nend";
    LinesOfJoinLines(["", "end"]);
  }

  lemma RenderExample()
    ensures RenderContent(Example)
      == [Paragraphs(["intro", ""]), CodeBlock("console.log(1)"), Paragraphs(["", "end"])]
  {
    var parts := SplitStrings(Example);
    assert parts == ["intro\n", "console.log(1)\n", "\nend"] by {
      ParseExample();
    }
    assert RenderContent(Example) == RenderStrings(parts);
    RenderThree(parts[0], parts[1], parts[2]);
    RenderExampleIntro();
    RenderExampleCode();
    RenderExampleEnd();
  }

  /** What the message bubble shows below the badges. */
  datatype Body = TypingIndicator | Rendered(blocks: seq<Block>)

  /** The typing indicator is shown exactly for an assistant message whose text is `...`; anything else is parsed. */
  function MessageBody(m: Message): (b: Body)
    ensures b.TypingIndicator? <==> m.role == Assistant && m.content == "..."
    ensures b.Rendered? ==> b.blocks == RenderContent(m.content)
  {
    if m.role == Assistant && m.content == "..." then TypingIndicator else Rendered(RenderContent(m.content))
  }

  /** One badge of a message: the attachment's name and whether it shows the image icon. */
  datatype Badge = Badge(name: string, isImage: bool)

  /** The badges of a message: one per attachment, in order; none when there are no attachments. */
  function AttachmentBadges(m: Message): (badges: seq<Badge>)
    ensures m.attachments.None? ==> badges == []
    ensures m.attachments.Some? ==> |badges| == |m.attachments.value|
    ensures m.attachments.Some? ==> forall i :: 0 <= i < |badges| ==>
      badges[i].name == m.attachments.value[i].name && (badges[i].isImage <==> m.attachments.value[i].kind == Image)
  {
    match m.attachments
    case None => []
    case Some(atts) =>
      if |atts| == 0 then []
      else seq(|atts|, i requires 0 <= i < |atts| => Badge(atts[i].name, atts[i].kind == Image))
  }
}
