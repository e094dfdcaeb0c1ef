/**
 * What answer cleaning does to answers of a few typical shapes: thought
 * blocks in front of and between the parts of a reply, a self-closing
 * thought tag, an opening tag that is never closed, and a self-closing tag
 * whose removal joins the text around it into a new block. Each shape is
 * stated for every answer of that shape; the parts are described by the
 * tags they match and by holding no `<`.
 */
module CleaningExamples {
  import opened Wrappers
  import opened AnswerCleaning

  // ---------------------------------------------------------------------
  // The tags as they are usually written
  // ---------------------------------------------------------------------

  lemma TagsMatch()
    ensures MatchEnd(OpeningTag, "<think>", 0) == Some(7)
    ensures MatchEnd(ClosingTag, "</think>", 0) == Some(8)
  {
  }

  lemma SelfClosingTagsMatch()
    ensures MatchEnd(SelfClosingTag, "<think/>", 0) == Some(8)
    ensures MatchEnd(SelfClosingTag, "<THINK />", 0) == Some(9)
  {
  }

  /** Any case, and white space of any kind before the `>`. */
  lemma OpeningTagAnyCase()
    ensures MatchEnd(OpeningTag, "<ThInK \n>", 0) == Some(9)
  {
    assert "<ThInK \n>" == "<ThInK" + " \n" + ">" + "";
    MatchEndShape(OpeningTag, "<ThInK", " \n", ">", "");
  }

  lemma ClosingTagAnyCase()
    ensures MatchEnd(ClosingTag, "</THINK\t>", 0) == Some(9)
  {
    assert "</THINK\t>" == "</THINK" + "\t" + ">" + "";
    MatchEndShape(ClosingTag, "</THINK", "\t", ">", "");
  }

  /** Nothing but white space may stand between the word and the `>`. */
  lemma LongerWordNoTag()
    ensures MatchEnd(OpeningTag, "<thinker>", 0).None?
  {
  }

  // ---------------------------------------------------------------------
  // Which tag can start where
  // ---------------------------------------------------------------------

  /** A closing tag cannot start where `<think` is written: the character
      after the `<` differs. */
  lemma NoCloseAtThink(s: string, k: nat)
    requires WordAt(s, k, "<think")
    ensures MatchEnd(ClosingTag, s, k).None?
  {
    WordAtChar(s, k, "<think", 1);
    if WordAt(s, k, ClosingTag.word) {
      WordAtChar(s, k, ClosingTag.word, 1);
    }
  }

  /** `<think` cannot start where a closing tag starts. */
  lemma NoThinkAtClose(s: string, k: nat)
    requires MatchEnd(ClosingTag, s, k).Some?
    ensures MatchEnd(OpeningTag, s, k).None? && MatchEnd(SelfClosingTag, s, k).None?
  {
    WordAtChar(s, k, ClosingTag.word, 1);
    if WordAt(s, k, "<think") {
      WordAtChar(s, k, "<think", 1);
    }
  }

  /** Where an opening tag matches, a self-closing one does not: after the
      white space comes `>`, not `/`. */
  lemma NoSelfCloseAtOpen(s: string, k: nat)
    requires MatchEnd(OpeningTag, s, k).Some?
    ensures MatchEnd(SelfClosingTag, s, k).None?
  {
    var j := SkipSpace(s, k + |OpeningTag.word|);
    WordAtChar(s, j, OpeningTag.closer, 0);
  }

  /** A closing tag followed by text without `<` is left alone by both
      replacements. */
  lemma CloseThenPlainKept(close: string, reply: string)
    requires MatchEnd(ClosingTag, close, 0) == Some(|close|)
    requires Plain(reply)
    ensures RemoveAll(ThoughtBlock, close + reply) == close + reply
    ensures RemoveAll(SelfClosingThought, close + reply) == close + reply
  {
    var s := close + reply;
    MatchEndExtends(ClosingTag, close, reply, 0);
    forall pass: Removal, k | 0 <= k < |s| ensures MatchEnd(Lead(pass), s, k).None? {
      if k == 0 {
        NoThinkAtClose(s, 0);
      } else if k < |close| {
        MatchEndNoInnerLt(ClosingTag, s, 0, k);
        NoLtAt(Lead(pass), s, k);
      } else {
        assert s[k] == reply[k - |close|];
        NoLtAt(Lead(pass), s, k);
      }
    }
    assert s + [] == s;
    KeepsTextWithoutLead(ThoughtBlock, s, []);
    KeepsTextWithoutLead(SelfClosingThought, s, []);
  }

  // ---------------------------------------------------------------------
  // Thought blocks
  // ---------------------------------------------------------------------

  /** A thought block in front of a reply without tags is dropped and the
      reply is shown trimmed; "<think>internal</think>Hello" shows "Hello". */
  lemma LeadingThoughtDropped(open: string, body: string, close: string, reply: string)
    requires MatchEnd(OpeningTag, open, 0) == Some(|open|)
    requires MatchEnd(ClosingTag, close, 0) == Some(|close|)
    requires NoMatchIn(ClosingTag, body, 0, |body|)
    requires Plain(reply)
    ensures Clean(open + body + close + reply) == Trim(reply)
  {
    RemovesBlock(open, body, close, reply);
    PlainTextKept(reply);
  }

  /** Every block goes, not only the first, whatever the case and spacing of
      each block's tags; "<think>a</think>b<think>c</think>d" shows "bd". */
  lemma EveryBlockDropped(open: string, a: string, close: string, b: string,
                          open2: string, c: string, close2: string, d: string)
    requires MatchEnd(OpeningTag, open, 0) == Some(|open|)
    requires MatchEnd(ClosingTag, close, 0) == Some(|close|)
    requires MatchEnd(OpeningTag, open2, 0) == Some(|open2|)
    requires MatchEnd(ClosingTag, close2, 0) == Some(|close2|)
    requires NoMatchIn(ClosingTag, a, 0, |a|) && NoMatchIn(ClosingTag, c, 0, |c|)
    requires Plain(b) && Plain(d)
    ensures Clean(open + a + close + b + open2 + c + close2 + d) == Trim(b + d)
  {
    var second := open2 + c + close2 + d;
    assert open + a + close + b + open2 + c + close2 + d == open + a + close + (b + second);
    RemovesBlock(open, a, close, b + second);
    MatchEndStartsWithLt(OpeningTag, open2, 0);
    assert second[0] == open2[0];
    NoLtNoMatch(OpeningTag, b);
    KeepsTextWithoutLead(ThoughtBlock, b, second);
    RemovesBlock(open2, c, close2, d);
    PlainTextKept(d);
    assert Plain(b + d) by {
      forall i | 0 <= i < |b + d| ensures (b + d)[i] != '<' {
        if i < |b| { assert (b + d)[i] == b[i]; } else { assert (b + d)[i] == d[i - |b|]; }
      }
    }
    PlainTextKept(b + d);
  }

  // ---------------------------------------------------------------------
  // Self-closing thought tags
  // ---------------------------------------------------------------------

  /** No closing tag starts in plain text around a self-closing tag. */
  lemma NoCloseAroundSelfClosing(front: string, tag: string, reply: string)
    requires MatchEnd(SelfClosingTag, tag, 0) == Some(|tag|)
    requires Plain(front) && Plain(reply)
    ensures var s := front + tag + reply; NoMatchIn(ClosingTag, s, 0, |s|)
  {
    var s := front + tag + reply;
    MatchEndExtends(SelfClosingTag, tag, reply, 0);
    MatchEndShift(SelfClosingTag, front, tag + reply, 0);
    assert s == front + (tag + reply);
    forall k | 0 <= k < |s| ensures MatchEnd(ClosingTag, s, k).None? {
      if k < |front| {
        assert s[k] == front[k];
        NoLtAt(ClosingTag, s, k);
      } else if k == |front| {
        NoCloseAtThink(s, k);
      } else if k < |front| + |tag| {
        MatchEndNoInnerLt(SelfClosingTag, s, |front|, k);
        NoLtAt(ClosingTag, s, k);
      } else {
        assert s[k] == reply[k - |front| - |tag|];
        NoLtAt(ClosingTag, s, k);
      }
    }
  }

  /** A self-closing thought tag, in any case and with or without white space
      before `/>`, is removed and the text around it is kept;
      " <THINK />Hi\n" shows "Hi". */
  lemma SelfClosingDropped(front: string, tag: string, reply: string)
    requires MatchEnd(SelfClosingTag, tag, 0) == Some(|tag|)
    requires Plain(front) && Plain(reply)
    ensures Clean(front + tag + reply) == Trim(front + reply)
  {
    var u := tag + reply;
    var s := front + u;
    assert front + tag + reply == s;
    NoCloseAroundSelfClosing(front, tag, reply);
    NoCloseUnchanged(s);
    MatchEndExtends(SelfClosingTag, tag, reply, 0);
    MatchEndStartsWithLt(SelfClosingTag, u, 0);
    SelfClosingSplit(front, u);
    PlainTextKept(front);
    RemovesSelfClosing(tag, reply);
    PlainTextKept(reply);
  }

  // ---------------------------------------------------------------------
  // An opening tag that is never closed
  // ---------------------------------------------------------------------

  /** An opening tag followed only by text without `<` is kept, and so is the
      text: the answer is only trimmed; "<think>abc" shows "<think>abc". */
  lemma UnclosedOpeningKept(open: string, body: string)
    requires MatchEnd(OpeningTag, open, 0) == Some(|open|)
    requires Plain(body)
    ensures Clean(open + body) == Trim(open + body)
  {
    var s := open + body;
    MatchEndExtends(OpeningTag, open, body, 0);
    forall k | 0 <= k < |s|
      ensures MatchEnd(ClosingTag, s, k).None? && MatchEnd(SelfClosingTag, s, k).None?
    {
      if k == 0 {
        NoCloseAtThink(s, 0);
        NoSelfCloseAtOpen(s, 0);
      } else {
        if k < |open| {
          MatchEndNoInnerLt(OpeningTag, s, 0, k);
        } else {
          assert s[k] == body[k - |open|];
        }
        NoLtAt(ClosingTag, s, k);
        NoLtAt(SelfClosingTag, s, k);
      }
    }
    NoCloseUnchanged(s);
    assert s + [] == s;
    KeepsTextWithoutLead(SelfClosingThought, s, []);
  }

  // ---------------------------------------------------------------------
  // Each replacement runs once, in order
  // ---------------------------------------------------------------------

  /** "<think" + tag + ">": neither `<think` is followed by `>`, so the block
      pass finds no opening tag in it. */
  lemma NoOpeningInJoint(joint: string, body: string)
    requires joint == "<think<think/>>"
    requires Plain(body)
    ensures NoMatchIn(OpeningTag, joint + body, 0, |joint + body|)
  {
    var x := joint + body;
    forall k | 0 <= k < |x| ensures MatchEnd(OpeningTag, x, k).None? {
      if k == 0 || k == 6 {
        assert x[k + 6] == joint[k + 6];
        SkipSpaceOver(x, k + 6, k + 6);
      } else {
        if k < |joint| { assert x[k] == joint[k]; } else { assert x[k] == body[k - |joint|]; }
        NoLtAt(OpeningTag, x, k);
      }
    }
  }

  /** The block pass leaves "<think<think/>>" + body + "</think>" + reply
      as it is. */
  lemma JointFirstPass(body: string, reply: string)
    requires Plain(body) && Plain(reply)
    ensures var s := "<think<think/>>" + body + "</think>" + reply;
      RemoveAll(ThoughtBlock, s) == s
  {
    var joint, close := "<think<think/>>", "</think>";
    var x := joint + body;
    assert joint + body + close + reply == x + (close + reply);
    TagsMatch();
    NoOpeningInJoint(joint, body);
    KeepsTextWithoutLead(ThoughtBlock, x, close + reply);
    CloseThenPlainKept(close, reply);
  }

  /** `<think` alone is no self-closing tag. */
  lemma ThinkWordKept()
    ensures RemoveAll(SelfClosingThought, "<think") == "<think"
  {
    var w := "<think";
    forall k | 0 <= k < |w| ensures MatchEnd(SelfClosingTag, w, k).None? {
      if k > 0 {
        NoLtAt(SelfClosingTag, w, k);
      }
    }
    assert w + [] == w;
    KeepsTextWithoutLead(SelfClosingThought, w, []);
  }

  /** The self-closing pass removes a tag between text it keeps. */
  lemma TagRemovedBetween(front: string, tag: string, rest: string, y: string)
    requires RemoveAll(SelfClosingThought, front) == front
    requires MatchEnd(SelfClosingTag, tag, 0) == Some(|tag|)
    requires Plain(rest)
    requires y != [] && y[0] == '<' && RemoveAll(SelfClosingThought, y) == y
    ensures RemoveAll(SelfClosingThought, front + tag + rest + y) == front + rest + y
  {
    var u := tag + (rest + y);
    assert front + tag + rest + y == front + u;
    MatchEndStartsWithLt(SelfClosingTag, tag, 0);
    assert u[0] == tag[0];
    SelfClosingSplit(front, u);
    RemovesSelfClosing(tag, rest + y);
    NoLtNoMatch(SelfClosingTag, rest);
    KeepsTextWithoutLead(SelfClosingThought, rest, y);
    assert front + (rest + y) == front + rest + y;
  }

  /** The self-closing pass takes the tag out of "<think<think/>>" and
      nothing else. */
  lemma JointSecondPass(body: string, reply: string)
    requires Plain(body) && Plain(reply)
    ensures RemoveAll(SelfClosingThought, "<think<think/>>" + body + "</think>" + reply)
         == "<think>" + body + "</think>" + reply
  {
    var rest, y := ">" + body, "</think>" + reply;
    assert "<think<think/>>" == "<think" + "<think/>" + ">";
    assert "<think<think/>>" + body + "</think>" + reply == "<think" + "<think/>" + rest + y;
    assert "<think>" + body + "</think>" + reply == "<think" + rest + y;
    TagsMatch();
    SelfClosingTagsMatch();
    ThinkWordKept();
    assert Plain(rest) by {
      forall i | 0 <= i < |rest| ensures rest[i] != '<' {
        if i > 0 { assert rest[i] == body[i - 1]; }
      }
    }
    CloseThenPlainKept("</think>", reply);
    TagRemovedBetween("<think", "<think/>", rest, y);
  }

  /** Removing a self-closing tag in the second pass can join the text around
      it into a whole thought block, which the first pass has already gone
      past: the cleaned answer may still hold a block. */
  lemma SecondPassCanJoinBlock(body: string, reply: string)
    requires Plain(body) && Plain(reply)
    ensures var s := "<think<think/>>" + body + "</think>" + reply;
      var joined := "<think>" + body + "</think>" + reply;
      && RemoveAll(SelfClosingThought, RemoveAll(ThoughtBlock, s)) == joined
      && RemoveAll(ThoughtBlock, joined) == reply
  {
    JointFirstPass(body, reply);
    JointSecondPass(body, reply);
    TagsMatch();
    NoLtNoMatch(ClosingTag, body);
    RemovesBlock("<think>", body, "</think>", reply);
    PlainTextKept(reply);
  }
}
