/**
 * Cleaning of the answer text returned by the chat service: the value that
 * `askChatBot` in assets/js/chat.js returns is
 *
 *   answer.replace(/<think\s*>[\s\S]*?<\/think\s*>/gi, '')
 *         .replace(/<think\s*\/>/gi, '')
 *         .trim()
 *
 * Only these patterns are modelled, not regular expressions in general. A
 * tag `word\s*closer` is matched at a position of a string by `MatchEnd`. A
 * global `replace` by the empty string is `RemoveAll`, the whole pass; it
 * runs `Scan`, a left-to-right scan that at each position either drops a
 * whole match and resumes after it or keeps one character and moves on.
 */
module AnswerCleaning {
  import opened Wrappers

  // ---------------------------------------------------------------------
  // Characters
  // ---------------------------------------------------------------------

  /** JavaScript white space: the WhiteSpace and LineTerminator code points,
      the set that `\s` matches and that `String.prototype.trim` removes. */
  predicate IsSpace(c: char)
  {
    c == '\t' || c == '\n' || c == '\U{B}' || c == '\U{C}' || c == '\r' || c == ' ' ||
    c == '\U{A0}' || c == '\U{1680}' || ('\U{2000}' <= c <= '\U{200A}') ||
    c == '\U{2028}' || c == '\U{2029}' || c == '\U{202F}' || c == '\U{205F}' ||
    c == '\U{3000}' || c == '\U{FEFF}'
  }

  predicate AllSpace(s: string)
  {
    forall i :: 0 <= i < |s| ==> IsSpace(s[i])
  }

  /** Case folding of a case-insensitive, non-Unicode JavaScript regular
      expression, as far as it matters here: an ASCII letter matches its other
      case, and no other character folds onto an ASCII letter. */
  function LowerAscii(c: char): (l: char)
    ensures 'A' <= c <= 'Z' ==> 'a' <= l <= 'z' && l as int == c as int + 32
    ensures !('A' <= c <= 'Z') ==> l == c
  {
    if 'A' <= c <= 'Z' then (c as int + 32) as char else c
  }

  // ---------------------------------------------------------------------
  // White space runs and trimming
  // ---------------------------------------------------------------------

  /** The position just past the white space that starts at i: the greedy `\s*`. */
  function SkipSpace(s: string, i: nat): (j: nat)
    requires i <= |s|
    ensures i <= j <= |s|
    ensures j < |s| ==> !IsSpace(s[j])
    decreases |s| - i
  {
    if i < |s| && IsSpace(s[i]) then SkipSpace(s, i + 1) else i
  }

  lemma {:induction false} SkipSpaceIsSpace(s: string, i: nat, k: nat)
    requires i <= k < |s| && k < SkipSpace(s, i)
    ensures IsSpace(s[k])
    decreases |s| - i
  {
    if i < k {
      SkipSpaceIsSpace(s, i + 1, k);
    }
  }

  lemma {:induction false} SkipSpaceOver(s: string, i: nat, j: nat)
    requires i <= j <= |s|
    requires forall k :: i <= k < j ==> IsSpace(s[k])
    requires j < |s| ==> !IsSpace(s[j])
    ensures SkipSpace(s, i) == j
    decreases j - i
  {
    if i < j {
      SkipSpaceOver(s, i + 1, j);
    }
  }

  /** The position just before the white space that ends at j, going no
      further back than lo. */
  function SkipSpaceBack(s: string, lo: nat, j: nat): (b: nat)
    requires lo <= j <= |s|
    ensures lo <= b <= j
    ensures lo < b ==> !IsSpace(s[b - 1])
    decreases j
  {
    if lo < j && IsSpace(s[j - 1]) then SkipSpaceBack(s, lo, j - 1) else j
  }

  lemma {:induction false} SkipSpaceBackIsSpace(s: string, lo: nat, j: nat, k: nat)
    requires lo <= j <= |s|
    requires SkipSpaceBack(s, lo, j) <= k < j
    ensures IsSpace(s[k])
    decreases j
  {
    if k < j - 1 {
      SkipSpaceBackIsSpace(s, lo, j - 1, k);
    }
  }

  lemma {:induction false} SkipSpaceBackOver(s: string, lo: nat, b: nat, j: nat)
    requires lo <= b <= j <= |s|
    requires forall k :: b <= k < j ==> IsSpace(s[k])
    requires lo < b ==> !IsSpace(s[b - 1])
    ensures SkipSpaceBack(s, lo, j) == b
    decreases j - b
  {
    if b < j {
      SkipSpaceBackOver(s, lo, b, j - 1);
    }
  }

  /** `String.prototype.trim`: white space removed from both ends. */
  function Trim(s: string): (r: string)
    ensures |r| <= |s|
    ensures r != [] ==> !IsSpace(r[0]) && !IsSpace(r[|r| - 1])
  {
    var a := SkipSpace(s, 0);
    s[a..SkipSpaceBack(s, a, |s|)]
  }

  /** Trim is determined by what it keeps: white space at both ends around a
      middle that neither starts nor ends with white space trims to that middle. */
  lemma TrimKeepsMiddle(front: string, middle: string, back: string)
    requires AllSpace(front) && AllSpace(back)
    requires middle != [] ==> !IsSpace(middle[0]) && !IsSpace(middle[|middle| - 1])
    ensures Trim(front + middle + back) == middle
  {
    var s := front + middle + back;
    var m := |front| + |middle|;
    forall k | 0 <= k < |front| ensures IsSpace(s[k]) {
      assert s[k] == front[k];
    }
    forall k | m <= k < |s| ensures IsSpace(s[k]) {
      assert s[k] == back[k - m];
    }
    if middle == [] {
      SkipSpaceOver(s, 0, |s|);
    } else {
      assert s[|front|] == middle[0];
      SkipSpaceOver(s, 0, |front|);
      assert s[m - 1] == middle[|middle| - 1];
      SkipSpaceBackOver(s, |front|, m, |s|);
      assert s[|front|..m] == middle;
    }
  }

  /** Trimming gives the empty string exactly when the text is all white space. */
  lemma TrimEmptyIffBlank(s: string)
    ensures Trim(s) == [] <==> AllSpace(s)
  {
    if AllSpace(s) {
      assert s == [] + [] + s;
      TrimKeepsMiddle([], [], s);
    } else {
      var k :| 0 <= k < |s| && !IsSpace(s[k]);
      var a := SkipSpace(s, 0);
      assert a <= k by {
        if k < a { SkipSpaceIsSpace(s, 0, k); }
      }
      var b := SkipSpaceBack(s, a, |s|);
      assert a < b by {
        if b <= a { SkipSpaceBackIsSpace(s, a, |s|, a); }
      }
    }
  }

  lemma TrimIdempotent(s: string)
    ensures Trim(Trim(s)) == Trim(s)
  {
    var r := Trim(s);
    assert [] + r + [] == r;
    TrimKeepsMiddle([], r, []);
  }

  // ---------------------------------------------------------------------
  // Tags
  // ---------------------------------------------------------------------

  /** A tag `word\s*closer`, matched case-insensitively; `word` and `closer`
      are written in lower case. */
  datatype TagPattern = TagPattern(word: string, closer: string)

  /** `<think\s*>` */
  const OpeningTag := TagPattern("<think", ">")
  /** `<\/think\s*>` */
  const ClosingTag := TagPattern("</think", ">")
  /** `<think\s*\/>` */
  const SelfClosingTag := TagPattern("<think", "/>")

  /** The shape the three tags share: `<` occurs only as their first
      character, and the closer does not start with white space, so the
      greedy `\s*` never has to give anything back. */
  predicate Simple(p: TagPattern)
  {
    && |p.word| > 0 && p.word[0] == '<'
    && |p.closer| > 0 && !IsSpace(p.closer[0])
    && (forall i :: 1 <= i < |p.word| ==> p.word[i] != '<')
    && (forall i :: 0 <= i < |p.closer| ==> p.closer[i] != '<')
  }

  /** w occurs at position i of s, up to ASCII case. */
  function WordAt(s: string, i: nat, w: string): (b: bool)
    ensures b ==> i + |w| <= |s|
    decreases |w|, s
  {
    if w == [] then i <= |s|
    else i < |s| && LowerAscii(s[i]) == w[0] && WordAt(s, i + 1, w[1..])
  }

  lemma {:induction false} WordAtChar(s: string, i: nat, w: string, m: nat)
    requires WordAt(s, i, w) && m < |w|
    ensures LowerAscii(s[i + m]) == w[m]
    decreases m
  {
    if m > 0 {
      WordAtChar(s, i + 1, w[1..], m - 1);
      assert w[1..][m - 1] == w[m];
    }
  }

  /** t spells w up to ASCII case. */
  predicate Folds(t: string, w: string)
  {
    |t| == |w| && forall k :: 0 <= k < |t| ==> LowerAscii(t[k]) == w[k]
  }

  /** w occurs at position i of s exactly when the characters there spell w
      up to ASCII case. */
  lemma {:induction false} WordAtFolds(s: string, i: nat, w: string)
    ensures WordAt(s, i, w) <==> i + |w| <= |s| && Folds(s[i..i + |w|], w)
    decreases |w|
  {
    if w != [] {
      WordAtFolds(s, i + 1, w[1..]);
      if i + |w| <= |s| {
        var t := s[i..i + |w|];
        assert s[i + 1..i + |w|] == t[1..];
        if Folds(t, w) {
          forall k | 0 <= k < |t[1..]| ensures LowerAscii(t[1..][k]) == w[1..][k] {
            assert t[1..][k] == t[k + 1];
          }
        }
        if LowerAscii(s[i]) == w[0] && Folds(t[1..], w[1..]) {
          forall k | 0 <= k < |t| ensures LowerAscii(t[k]) == w[k] {
            if k > 0 { assert t[k] == t[1..][k - 1]; }
          }
        }
      }
    }
  }

  lemma {:induction false} WordAtPrefix(x: string, y: string, i: nat, w: string)
    requires i + |w| <= |x|
    ensures WordAt(x + y, i, w) == WordAt(x, i, w)
    decreases |w|
  {
    if w != [] {
      assert (x + y)[i] == x[i];
      WordAtPrefix(x, y, i + 1, w[1..]);
    }
  }

  lemma {:induction false} WordAtShift(x: string, y: string, j: nat, w: string)
    ensures WordAt(x + y, |x| + j, w) == WordAt(y, j, w)
    decreases |w|
  {
    if w != [] {
      if j < |y| { assert (x + y)[|x| + j] == y[j]; }
      WordAtShift(x, y, j + 1, w[1..]);
    }
  }

  lemma {:induction false} SkipSpacePrefix(x: string, y: string, i: nat)
    requires i <= |x|
    ensures SkipSpace(x, i) < |x| ==> SkipSpace(x + y, i) == SkipSpace(x, i)
    ensures SkipSpace(x + y, i) < |x| ==> SkipSpace(x, i) == SkipSpace(x + y, i)
    decreases |x| - i
  {
    if i < |x| {
      assert (x + y)[i] == x[i];
      SkipSpacePrefix(x, y, i + 1);
    }
  }

  lemma {:induction false} SkipSpaceShift(x: string, y: string, j: nat)
    requires j <= |y|
    ensures SkipSpace(x + y, |x| + j) == |x| + SkipSpace(y, j)
    decreases |y| - j
  {
    if j < |y| {
      assert (x + y)[|x| + j] == y[j];
      SkipSpaceShift(x, y, j + 1);
    }
  }

  /** End of the match of p that starts at position i of s, if there is one. */
  function MatchEnd(p: TagPattern, s: string, i: nat): (r: Option<nat>)
    ensures r.Some? ==> i + |p.word| + |p.closer| <= r.value <= |s|
  {
    if WordAt(s, i, p.word) then
      var k := SkipSpace(s, i + |p.word|);
      if WordAt(s, k, p.closer) then Some(k + |p.closer|) else None
    else None
  }

  /** r moved d positions to the right. */
  function Shifted(r: Option<nat>, d: nat): Option<nat>
  {
    match r
    case None => None
    case Some(n) => Some(n + d)
  }

  /** No match of p starts at a position in [from, to) of s. */
  predicate NoMatchIn(p: TagPattern, s: string, from: nat, to: nat)
  {
    forall j :: from <= j < to ==> MatchEnd(p, s, j).None?
  }

  /** Which texts are tags: the word in any case, then any white space, then
      the closer in any case. */
  lemma MatchEndShape(p: TagPattern, w: string, ws: string, c: string, rest: string)
    requires Simple(p)
    requires Folds(w, p.word) && AllSpace(ws) && Folds(c, p.closer)
    ensures MatchEnd(p, w + ws + c + rest, 0) == Some(|w| + |ws| + |c|)
  {
    var s := w + ws + c + rest;
    var j := |w| + |ws|;
    assert s[0..|w|] == w;
    WordAtFolds(s, 0, p.word);
    assert s[j] == c[0];
    assert LowerAscii(c[0]) == p.closer[0];
    forall k | |w| <= k < j ensures IsSpace(s[k]) {
      assert s[k] == ws[k - |w|];
    }
    SkipSpaceOver(s, |w|, j);
    assert s[j..j + |c|] == c;
    WordAtFolds(s, j, p.closer);
  }

  /** Conversely, a match is the word in some case, white space, and the
      closer in some case. */
  lemma MatchEndParts(p: TagPattern, s: string, i: nat)
    requires MatchEnd(p, s, i).Some?
    ensures var e := MatchEnd(p, s, i).value;
      && Folds(s[i..i + |p.word|], p.word)
      && AllSpace(s[i + |p.word|..e - |p.closer|])
      && Folds(s[e - |p.closer|..e], p.closer)
  {
    var e := MatchEnd(p, s, i).value;
    var j := SkipSpace(s, i + |p.word|);
    WordAtFolds(s, i, p.word);
    WordAtFolds(s, j, p.closer);
    var gap := s[i + |p.word|..j];
    forall k | 0 <= k < |gap| ensures IsSpace(gap[k]) {
      SkipSpaceIsSpace(s, i + |p.word|, i + |p.word| + k);
    }
  }

  /** Matching inside y does not depend on what precedes y. */
  lemma MatchEndShift(p: TagPattern, x: string, y: string, j: nat)
    ensures MatchEnd(p, x + y, |x| + j) == Shifted(MatchEnd(p, y, j), |x|)
  {
    WordAtShift(x, y, j, p.word);
    if WordAt(y, j, p.word) {
      SkipSpaceShift(x, y, j + |p.word|);
      WordAtShift(x, y, SkipSpace(y, j + |p.word|), p.closer);
    }
  }

  /** A match inside x is unchanged by anything after x. */
  lemma MatchEndExtends(p: TagPattern, x: string, y: string, i: nat)
    requires Simple(p)
    requires MatchEnd(p, x, i).Some?
    ensures MatchEnd(p, x + y, i) == MatchEnd(p, x, i)
  {
    WordAtPrefix(x, y, i, p.word);
    SkipSpacePrefix(x, y, i + |p.word|);
    WordAtPrefix(x, y, SkipSpace(x, i + |p.word|), p.closer);
  }

  /** A match in x + y that ends within x is a match in x. */
  lemma MatchEndWithin(p: TagPattern, x: string, y: string, i: nat)
    requires Simple(p)
    requires MatchEnd(p, x + y, i).Some? && MatchEnd(p, x + y, i).value <= |x|
    ensures MatchEnd(p, x, i) == MatchEnd(p, x + y, i)
  {
    WordAtPrefix(x, y, i, p.word);
    SkipSpacePrefix(x, y, i + |p.word|);
    WordAtPrefix(x, y, SkipSpace(x + y, i + |p.word|), p.closer);
  }

  /** Only the first character of a match is `<`. */
  lemma MatchEndNoInnerLt(p: TagPattern, s: string, i: nat, j: nat)
    requires Simple(p)
    requires MatchEnd(p, s, i).Some?
    requires i < j < MatchEnd(p, s, i).value
    ensures s[j] != '<'
  {
    var w := |p.word|;
    var k := SkipSpace(s, i + w);
    if j < i + w {
      WordAtChar(s, i, p.word, j - i);
    } else if j < k {
      SkipSpaceIsSpace(s, i + w, j);
    } else {
      WordAtChar(s, k, p.closer, j - k);
    }
  }

  lemma MatchEndStartsWithLt(p: TagPattern, s: string, i: nat)
    requires Simple(p)
    requires MatchEnd(p, s, i).Some?
    ensures i < |s| && s[i] == '<'
  {
    WordAtChar(s, i, p.word, 0);
  }

  /** A match that starts in x cannot run past a `<` that follows x. */
  lemma MatchEndLocal(p: TagPattern, x: string, y: string, i: nat)
    requires Simple(p)
    requires i < |x| && y != [] && y[0] == '<'
    ensures MatchEnd(p, x + y, i) == MatchEnd(p, x, i)
  {
    if MatchEnd(p, x, i).Some? {
      MatchEndExtends(p, x, y, i);
    } else if MatchEnd(p, x + y, i).Some? {
      if |x| < MatchEnd(p, x + y, i).value {
        assert (x + y)[|x|] == y[0];
        MatchEndNoInnerLt(p, x + y, i, |x|);
      } else {
        MatchEndWithin(p, x, y, i);
      }
    }
  }

  // ---------------------------------------------------------------------
  // The two global replacements
  // ---------------------------------------------------------------------

  /** The two patterns that are replaced by the empty string:
      `<think\s*>[\s\S]*?<\/think\s*>` and `<think\s*\/>`. */
  datatype Removal = ThoughtBlock | SelfClosingThought

  /** End of the first closing tag that starts at or after position `from`
      of s: where the lazy `[\s\S]*?` stops. */
  function CloseAfter(s: string, from: nat): (r: Option<nat>)
    ensures r.Some? ==> from < r.value <= |s|
    decreases |s| - from
  {
    if from >= |s| then None
    else match MatchEnd(ClosingTag, s, from)
      case Some(e) => Some(e)
      case None => CloseAfter(s, from + 1)
  }

  /** The tag every match of the pattern starts with. */
  function Lead(pass: Removal): TagPattern
  {
    match pass
    case ThoughtBlock => OpeningTag
    case SelfClosingThought => SelfClosingTag
  }

  /** End of the match of the pattern that starts at position i of s. */
  function MatchOf(pass: Removal, s: string, i: nat): (r: Option<nat>)
    ensures r.Some? ==> i < r.value <= |s| && MatchEnd(Lead(pass), s, i).Some?
  {
    match pass
    case ThoughtBlock =>
      (match MatchEnd(OpeningTag, s, i)
       case None => None
       case Some(o) => CloseAfter(s, o))
    case SelfClosingThought => MatchEnd(SelfClosingTag, s, i)
  }

  /** Match ends, one per position of a text: each lies after its start and
      within the text. */
  predicate Forward(ends: seq<Option<nat>>)
  {
    forall k :: 0 <= k < |ends| && ends[k].Some? ==> k < ends[k].value <= |ends|
  }

  /** The ends of the matches at positions 0 to n - 1 of s. */
  function MatchesUpTo(pass: Removal, s: string, n: nat): (ends: seq<Option<nat>>)
    requires n <= |s|
    ensures |ends| == n
    ensures forall k :: 0 <= k < n && ends[k].Some? ==> k < ends[k].value <= |s|
  {
    if n == 0 then [] else MatchesUpTo(pass, s, n - 1) + [MatchOf(pass, s, n - 1)]
  }

  /** The end of the match at every position of s. */
  function Matches(pass: Removal, s: string): (ends: seq<Option<nat>>)
    ensures |ends| == |s| && Forward(ends)
  {
    MatchesUpTo(pass, s, |s|)
  }

  lemma {:induction false} MatchesUpToAt(pass: Removal, s: string, n: nat, k: nat)
    requires k < n <= |s|
    ensures MatchesUpTo(pass, s, n)[k] == MatchOf(pass, s, k)
    decreases n
  {
    var before := MatchesUpTo(pass, s, n - 1);
    assert MatchesUpTo(pass, s, n) == before + [MatchOf(pass, s, n - 1)];
    if k < n - 1 {
      MatchesUpToAt(pass, s, n - 1, k);
    }
  }

  lemma MatchesAt(pass: Removal, s: string, k: nat)
    requires k < |s|
    ensures Matches(pass, s)[k] == MatchOf(pass, s, k)
  {
    MatchesUpToAt(pass, s, |s|, k);
  }

  /** A global `replace(pattern, '')` from position i of s on, where ends[k]
      is the end of the match that starts at k: a match is dropped and the
      scan resumes after it, anything else is kept one character at a time. */
  function Scan(s: string, ends: seq<Option<nat>>, i: nat): (r: string)
    requires |ends| == |s| && Forward(ends)
    ensures i <= |s| ==> |r| <= |s| - i
    decreases |s| - i
  {
    if i >= |s| then []
    else match ends[i]
      case Some(e) => Scan(s, ends, e)
      case None => [s[i]] + Scan(s, ends, i + 1)
  }

  /** `replace(pattern, '')` with the global flag. */
  function RemoveAll(pass: Removal, s: string): (r: string)
    ensures |r| <= |s|
  {
    Scan(s, Matches(pass, s), 0)
  }

  /** The answer as displayed: thought blocks removed, then self-closing
      thought tags, then white space at both ends. */
  function Clean(answer: string): (r: string)
    ensures |r| <= |answer|
    ensures r != [] ==> !IsSpace(r[0]) && !IsSpace(r[|r| - 1])
  {
    Trim(RemoveAll(SelfClosingThought, RemoveAll(ThoughtBlock, answer)))
  }

  // ---------------------------------------------------------------------
  // Facts about the scan
  // ---------------------------------------------------------------------

  /** The scan from position d + j of s is the scan of t from j when s holds
      t from d on and its matches there are those of t, moved by d. */
  lemma {:induction false} ScanShift(s: string, m: seq<Option<nat>>, t: string, n: seq<Option<nat>>, d: nat, j: nat)
    requires |m| == |s| && Forward(m) && |n| == |t| && Forward(n)
    requires d <= |s| && s[d..] == t
    requires forall k {:trigger n[k]} :: 0 <= k < |t| ==> m[d + k] == Shifted(n[k], d)
    ensures Scan(s, m, d + j) == Scan(t, n, j)
    decreases |t| - j
  {
    if j < |t| {
      var here := n[j];
      assert m[d + j] == Shifted(here, d);
      if here.Some? {
        ScanShift(s, m, t, n, d, here.value);
      } else {
        assert s[d + j] == s[d..][j];
        ScanShift(s, m, t, n, d, j + 1);
      }
    }
  }


  /** The scan of s splits at |x| when s starts with x and every match in
      that stretch is the match in x. */
  lemma {:induction false} ScanSplit(s: string, m: seq<Option<nat>>, x: string, n: seq<Option<nat>>, i: nat)
    requires |m| == |s| && Forward(m) && |n| == |x| && Forward(n)
    requires i <= |x| <= |s|
    requires forall k {:trigger x[k]} :: 0 <= k < |x| ==> s[k] == x[k]
    requires forall k {:trigger n[k]} :: 0 <= k < |x| ==> m[k] == n[k]
    ensures Scan(s, m, i) == Scan(x, n, i) + Scan(s, m, |x|)
    decreases |x| - i
  {
    if i < |x| {
      var here := n[i];
      assert m[i] == here;
      if here.Some? {
        ScanSplit(s, m, x, n, here.value);
      } else {
        assert s[i] == x[i];
        ScanSplit(s, m, x, n, i + 1);
      }
    }
  }

  lemma SliceCons(s: string, i: nat, j: nat)
    requires i < j <= |s|
    ensures forall t: string :: s[i..j] + t == [s[i]] + (s[i + 1..j] + t)
  {
    assert s[i..j] == [s[i]] + s[i + 1..j];
  }

  /** Where nothing matches in [i, j), the scan keeps that stretch as it is. */
  lemma {:induction false} ScanKeeps(s: string, m: seq<Option<nat>>, i: nat, j: nat)
    requires |m| == |s| && Forward(m)
    requires i <= j <= |s|
    requires forall k :: i <= k < j ==> m[k].None?
    ensures Scan(s, m, i) == s[i..j] + Scan(s, m, j)
    decreases j - i
  {
    if i < j {
      ScanKeeps(s, m, i + 1, j);
      SliceCons(s, i, j);
    }
  }

  lemma {:induction false} CloseAfterFirst(s: string, from: nat, j: nat)
    requires from <= j
    requires NoMatchIn(ClosingTag, s, from, j)
    requires MatchEnd(ClosingTag, s, j).Some?
    ensures CloseAfter(s, from) == MatchEnd(ClosingTag, s, j)
    decreases j - from
  {
    if from < j {
      CloseAfterFirst(s, from + 1, j);
    }
  }

  lemma {:induction false} CloseAfterNone(s: string, from: nat)
    requires NoMatchIn(ClosingTag, s, from, |s|)
    ensures CloseAfter(s, from) == None
    decreases |s| - from
  {
    if from < |s| {
      CloseAfterNone(s, from + 1);
    }
  }

  lemma {:induction false} CloseAfterShift(x: string, y: string, j: nat)
    ensures CloseAfter(x + y, |x| + j) == Shifted(CloseAfter(y, j), |x|)
    decreases |y| - j
  {
    if j < |y| {
      MatchEndShift(ClosingTag, x, y, j);
      CloseAfterShift(x, y, j + 1);
    }
  }

  /** Searching for a closing tag from inside x gives the same answer when a
      text starting with `<` and holding no closing tag follows x. */
  lemma {:induction false} CloseAfterLocal(x: string, y: string, from: nat)
    requires from <= |x|
    requires y != [] && y[0] == '<' && NoMatchIn(ClosingTag, y, 0, |y|)
    ensures CloseAfter(x + y, from) == CloseAfter(x, from)
    decreases |x| - from
  {
    if from == |x| {
      CloseAfterShift(x, y, 0);
      CloseAfterNone(y, 0);
    } else {
      MatchEndLocal(ClosingTag, x, y, from);
      CloseAfterLocal(x, y, from + 1);
    }
  }

  lemma MatchOfShift(pass: Removal, x: string, y: string, j: nat)
    ensures MatchOf(pass, x + y, |x| + j) == Shifted(MatchOf(pass, y, j), |x|)
  {
    MatchEndShift(Lead(pass), x, y, j);
    if pass == ThoughtBlock && MatchEnd(OpeningTag, y, j).Some? {
      var o := MatchEnd(OpeningTag, y, j).value;
      CloseAfterShift(x, y, o);
    }
  }

  /** Where nothing follows but text that starts with `<` (and, for thought
      blocks, holds no closing tag), a match inside x is unaffected by it. */
  lemma MatchOfLocal(pass: Removal, x: string, y: string, i: nat)
    requires i < |x| && y != [] && y[0] == '<'
    requires pass == ThoughtBlock ==> NoMatchIn(ClosingTag, y, 0, |y|)
    ensures MatchOf(pass, x + y, i) == MatchOf(pass, x, i)
  {
    MatchEndLocal(Lead(pass), x, y, i);
    if pass == ThoughtBlock && MatchEnd(OpeningTag, x, i).Some? {
      CloseAfterLocal(x, y, MatchEnd(OpeningTag, x, i).value);
    }
  }

  /** Where the leading tag does not occur at position i of x, nothing
      matches there in x + u either, if u starts with `<`. */
  lemma NoLeadNoMatch(pass: Removal, x: string, u: string, i: nat)
    requires i < |x| && MatchEnd(Lead(pass), x, i).None?
    requires u == [] || u[0] == '<'
    ensures MatchOf(pass, x + u, i).None?
  {
    if u == [] {
      assert x + u == x;
    } else {
      MatchEndLocal(Lead(pass), x, u, i);
    }
  }

  lemma MatchesShift(pass: Removal, x: string, y: string, k: nat)
    requires k < |y|
    ensures Matches(pass, x + y)[|x| + k] == Shifted(Matches(pass, y)[k], |x|)
  {
    MatchesAt(pass, x + y, |x| + k);
    MatchesAt(pass, y, k);
    MatchOfShift(pass, x, y, k);
  }

  lemma MatchesLocal(pass: Removal, x: string, y: string, k: nat)
    requires k < |x| && y != [] && y[0] == '<'
    requires pass == ThoughtBlock ==> NoMatchIn(ClosingTag, y, 0, |y|)
    ensures Matches(pass, x + y)[k] == Matches(pass, x)[k]
  {
    MatchesAt(pass, x + y, k);
    MatchesAt(pass, x, k);
    MatchOfLocal(pass, x, y, k);
  }

  lemma MatchesShiftAll(pass: Removal, x: string, y: string, m: seq<Option<nat>>, n: seq<Option<nat>>)
    requires m == Matches(pass, x + y) && n == Matches(pass, y)
    ensures |m| == |x| + |n|
    ensures forall k {:trigger n[k]} :: 0 <= k < |n| ==> m[|x| + k] == Shifted(n[k], |x|)
  {
    forall k | 0 <= k < |n| ensures m[|x| + k] == Shifted(n[k], |x|) {
      MatchesShift(pass, x, y, k);
    }
  }

  lemma ShiftedScan(x: string, y: string, m: seq<Option<nat>>, n: seq<Option<nat>>)
    requires |m| == |x| + |y| && Forward(m) && |n| == |y| && Forward(n)
    requires forall k {:trigger n[k]} :: 0 <= k < |n| ==> m[|x| + k] == Shifted(n[k], |x|)
    ensures Scan(x + y, m, |x|) == Scan(y, n, 0)
  {
    var s := x + y;
    assert s[|x|..] == y;
    ScanShift(s, m, y, n, |x|, 0);
  }

  /** The replacement in y does not depend on what precedes y. */
  lemma SuffixScan(pass: Removal, x: string, y: string)
    ensures Scan(x + y, Matches(pass, x + y), |x|) == RemoveAll(pass, y)
  {
    var m := Matches(pass, x + y);
    var n := Matches(pass, y);
    MatchesShiftAll(pass, x, y, m, n);
    ShiftedScan(x, y, m, n);
  }

  /** The replacement works on x and a following y separately when y starts
      with `<` (and, for thought blocks, holds no closing tag). */
  lemma RemoveAllSplit(pass: Removal, x: string, y: string)
    requires y != [] && y[0] == '<'
    requires pass == ThoughtBlock ==> NoMatchIn(ClosingTag, y, 0, |y|)
    ensures RemoveAll(pass, x + y) == RemoveAll(pass, x) + RemoveAll(pass, y)
  {
    var s := x + y;
    var m := Matches(pass, s);
    var n := Matches(pass, x);
    forall k | 0 <= k < |x| ensures s[k] == x[k] {
    }
    forall k | 0 <= k < |x| ensures m[k] == n[k] {
      MatchesLocal(pass, x, y, k);
    }
    ScanSplit(s, m, x, n, 0);
    SuffixScan(pass, x, y);
  }

  // ---------------------------------------------------------------------
  // What the cleaning removes and what it keeps
  // ---------------------------------------------------------------------

  /** The search for a closing tag passes over a stretch that holds none,
      when the text after it starts with `<`. */
  lemma {:induction false} CloseAfterSkips(body: string, tail: string, from: nat)
    requires from <= |body|
    requires NoMatchIn(ClosingTag, body, 0, |body|)
    requires tail != [] && tail[0] == '<'
    ensures CloseAfter(body + tail, from) == Shifted(CloseAfter(tail, 0), |body|)
    decreases |body| - from
  {
    if from == |body| {
      CloseAfterShift(body, tail, 0);
    } else {
      MatchEndLocal(ClosingTag, body, tail, from);
      CloseAfterSkips(body, tail, from + 1);
    }
  }

  lemma CloseAtStart(close: string, rest: string)
    requires MatchEnd(ClosingTag, close, 0) == Some(|close|)
    ensures CloseAfter(close + rest, 0) == Some(|close|)
  {
    MatchEndExtends(ClosingTag, close, rest, 0);
  }

  /** A block match runs from an opening tag to the first closing tag found
      after it. */
  lemma BlockFrom(s: string, o: nat)
    requires MatchEnd(OpeningTag, s, 0) == Some(o)
    ensures MatchOf(ThoughtBlock, s, 0) == CloseAfter(s, o)
  {
  }

  /** Searching a body with no closing tag in it, followed by a closing
      tag, finds that tag. */
  lemma BodyEndsAtClose(body: string, close: string, rest: string)
    requires MatchEnd(ClosingTag, close, 0) == Some(|close|)
    requires NoMatchIn(ClosingTag, body, 0, |body|)
    ensures CloseAfter(body + (close + rest), 0) == Some(|body| + |close|)
  {
    MatchEndStartsWithLt(ClosingTag, close, 0);
    CloseAtStart(close, rest);
    CloseAfterSkips(body, close + rest, 0);
  }

  /** The lazy body of a block stops at the first closing tag after the
      opening tag. */
  lemma BlockMatch(open: string, body: string, close: string, rest: string)
    requires MatchEnd(OpeningTag, open, 0) == Some(|open|)
    requires MatchEnd(ClosingTag, close, 0) == Some(|close|)
    requires NoMatchIn(ClosingTag, body, 0, |body|)
    ensures MatchOf(ThoughtBlock, open + (body + (close + rest)), 0) == Some(|open| + |body| + |close|)
  {
    var u := body + (close + rest);
    MatchEndExtends(OpeningTag, open, u, 0);
    BlockFrom(open + u, |open|);
    BodyEndsAtClose(body, close, rest);
    CloseAfterShift(open, u, 0);
  }

  /** A whole block — an opening tag, a body with no closing tag in it, and
      the closing tag — is removed, and nothing of it is left behind. */
  lemma RemovesBlock(open: string, body: string, close: string, rest: string)
    requires MatchEnd(OpeningTag, open, 0) == Some(|open|)
    requires MatchEnd(ClosingTag, close, 0) == Some(|close|)
    requires NoMatchIn(ClosingTag, body, 0, |body|)
    ensures RemoveAll(ThoughtBlock, open + body + close + rest) == RemoveAll(ThoughtBlock, rest)
  {
    var block := open + body + close;
    var s := block + rest;
    assert s == open + (body + (close + rest));
    BlockMatch(open, body, close, rest);
    MatchesAt(ThoughtBlock, s, 0);
    assert Matches(ThoughtBlock, s)[0] == Some(|block|);
    SuffixScan(ThoughtBlock, block, rest);
  }

  /** Where the pattern's leading tag never occurs in x, the replacement keeps
      x verbatim in front of a following text that starts with `<`. */
  lemma KeepsTextWithoutLead(pass: Removal, x: string, u: string)
    requires NoMatchIn(Lead(pass), x, 0, |x|)
    requires u == [] || u[0] == '<'
    ensures RemoveAll(pass, x + u) == x + RemoveAll(pass, u)
  {
    var s := x + u;
    var m := Matches(pass, s);
    forall k | 0 <= k < |x| ensures m[k].None? {
      MatchesAt(pass, s, k);
      NoLeadNoMatch(pass, x, u, k);
    }
    ScanKeeps(s, m, 0, |x|);
    assert s[0..|x|] == x;
    SuffixScan(pass, x, u);
  }

  /** Text holding no closing tag is left alone by the first pass. */
  lemma NoCloseUnchanged(s: string)
    requires NoMatchIn(ClosingTag, s, 0, |s|)
    ensures RemoveAll(ThoughtBlock, s) == s
  {
    var m := Matches(ThoughtBlock, s);
    forall i | 0 <= i < |s| ensures m[i].None? {
      MatchesAt(ThoughtBlock, s, i);
      if MatchEnd(OpeningTag, s, i).Some? {
        CloseAfterNone(s, MatchEnd(OpeningTag, s, i).value);
      }
    }
    ScanKeeps(s, m, 0, |s|);
    assert s[0..|s|] == s;
  }

  /** An opening tag with no closing tag after it stays in place: when the
      tail t starts with `<` and holds no closing tag, the first pass works
      on what precedes t and keeps t verbatim. */
  lemma UnclosedTailKept(p: string, t: string)
    requires t != [] && t[0] == '<'
    requires NoMatchIn(ClosingTag, t, 0, |t|)
    ensures RemoveAll(ThoughtBlock, p + t) == RemoveAll(ThoughtBlock, p) + t
  {
    RemoveAllSplit(ThoughtBlock, p, t);
    NoCloseUnchanged(t);
  }

  /** The second pass works on the two sides of a `<` separately. */
  lemma SelfClosingSplit(x: string, u: string)
    requires u == [] || u[0] == '<'
    ensures RemoveAll(SelfClosingThought, x + u) == RemoveAll(SelfClosingThought, x) + RemoveAll(SelfClosingThought, u)
  {
    if u == [] {
      assert x + u == x;
    } else {
      RemoveAllSplit(SelfClosingThought, x, u);
    }
  }

  /** A self-closing thought tag at the front is removed, whatever its case
      and white space. */
  lemma RemovesSelfClosing(tag: string, rest: string)
    requires MatchEnd(SelfClosingTag, tag, 0) == Some(|tag|)
    ensures RemoveAll(SelfClosingThought, tag + rest) == RemoveAll(SelfClosingThought, rest)
  {
    MatchEndExtends(SelfClosingTag, tag, rest, 0);
    MatchesAt(SelfClosingThought, tag + rest, 0);
    assert Matches(SelfClosingThought, tag + rest)[0] == Some(|tag|);
    SuffixScan(SelfClosingThought, tag, rest);
  }

  /** `<think` occurs nowhere in s, in any case. */
  predicate NoThink(s: string)
  {
    forall i :: 0 <= i < |s| ==> !WordAt(s, i, "<think")
  }

  /** Text that never mentions `<think` is changed only by trimming. */
  lemma NoThinkOnlyTrimmed(s: string)
    requires NoThink(s)
    ensures Clean(s) == Trim(s)
  {
    assert s + [] == s;
    forall pass: Removal ensures RemoveAll(pass, s) == s {
      forall k | 0 <= k < |s| ensures MatchEnd(Lead(pass), s, k).None? {
        assert !WordAt(s, k, Lead(pass).word);
      }
      KeepsTextWithoutLead(pass, s, []);
    }
  }

  /** A white-space-only answer cleans to the empty string. */
  lemma BlankCleansToEmpty(s: string)
    requires AllSpace(s)
    ensures Clean(s) == []
  {
    forall i | 0 <= i < |s| ensures !WordAt(s, i, "<think") {
      assert IsSpace(s[i]);
    }
    NoThinkOnlyTrimmed(s);
    TrimEmptyIffBlank(s);
  }

  /** No tag starts at a character other than `<`. */
  lemma NoLtAt(p: TagPattern, s: string, k: nat)
    requires Simple(p)
    requires k < |s| && s[k] != '<'
    ensures MatchEnd(p, s, k).None?
  {
    if MatchEnd(p, s, k).Some? {
      MatchEndStartsWithLt(p, s, k);
    }
  }

  /** s holds no `<`, so no tag can start in it. */
  predicate Plain(s: string)
  {
    forall i :: 0 <= i < |s| ==> s[i] != '<'
  }

  /** Text without `<` holds no tag. */
  lemma NoLtNoMatch(p: TagPattern, s: string)
    requires Simple(p)
    requires Plain(s)
    ensures NoMatchIn(p, s, 0, |s|)
  {
    forall i | 0 <= i < |s| ensures MatchEnd(p, s, i).None? {
      NoLtAt(p, s, i);
    }
  }

  /** Text without `<` passes both replacements unchanged. */
  lemma PlainTextKept(s: string)
    requires Plain(s)
    ensures RemoveAll(ThoughtBlock, s) == s
    ensures RemoveAll(SelfClosingThought, s) == s
  {
    assert s + [] == s;
    NoLtNoMatch(OpeningTag, s);
    KeepsTextWithoutLead(ThoughtBlock, s, []);
    NoLtNoMatch(SelfClosingTag, s);
    KeepsTextWithoutLead(SelfClosingThought, s, []);
  }
}
