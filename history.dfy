/**
 * The questions the chat widget sends along with every new question: the
 * module-level array of the last few questions that were answered, with at
 * most `HistoryLength` of them. A question is recorded by pushing it at the
 * end and, when that makes the array too long, shifting the oldest one out.
 */
module History {

  /** How many earlier questions are kept. */
  const HistoryLength: nat := 3

  /** The last n entries of s (all of s when it has no more than n). This is
      what the history is meant to hold: the newest questions, oldest first. */
  function Newest(s: seq<string>, n: nat): (r: seq<string>)
    ensures |r| == if |s| <= n then |s| else n
    ensures |s| <= n ==> r == s
    ensures forall k :: 0 <= k < |r| ==> r[k] == s[|s| - |r| + k]
  {
    if |s| <= n then s else s[|s| - n..]
  }

  /** The history after recording question q: q is pushed at the end and,
      only when that makes the history longer than HistoryLength, the first
      entry is dropped. */
  function Recorded(h: seq<string>, q: string): (r: seq<string>)
    ensures |r| > 0 && r[|r| - 1] == q
    ensures |h| <= HistoryLength ==> r == Newest(h + [q], HistoryLength)
  {
    var pushed := h + [q];
    if |pushed| > HistoryLength then pushed[1..] else pushed
  }

  /** Recording keeps every earlier entry in order and drops exactly the
      oldest one, and only when the history was already full. */
  lemma RecordDropsOnlyOldest(h: seq<string>, q: string)
    requires |h| <= HistoryLength
    ensures |h| < HistoryLength ==> Recorded(h, q) == h + [q]
    ensures |h| == HistoryLength ==> Recorded(h, q) == h[1..] + [q]
  {
    assert |h| < HistoryLength ==> Newest(h + [q], HistoryLength) == h + [q];
    if |h| == HistoryLength {
      var r := Recorded(h, q);
      assert |r| == |h[1..] + [q]|;
      forall k | 0 <= k < |r| ensures r[k] == (h[1..] + [q])[k] {
        assert r[k] == (h + [q])[k + 1];
      }
    }
  }

  /** The history after the questions qs were answered, one after another,
      starting from the empty history. */
  function RecordAll(qs: seq<string>): (h: seq<string>)
    ensures |h| <= HistoryLength
  {
    if qs == [] then []
    else
      Recorded(RecordAll(qs[..|qs| - 1]), qs[|qs| - 1])
  }

  /** Taking the newest n of a sequence and then of that sequence with one
      more entry is the same as taking the newest n once. */
  lemma NewestSnoc(s: seq<string>, q: string, n: nat)
    requires n > 0
    ensures Newest(Newest(s, n) + [q], n) == Newest(s + [q], n)
  {
    if |s| < n {
      assert Newest(s, n) == s;
    } else {
      var t := s[|s| - n..];
      assert Newest(s, n) == t;
      assert Newest(s + [q], n) == (s + [q])[|s| + 1 - n..] == t[1..] + [q];
      assert Newest(t + [q], n) == (t + [q])[1..] == t[1..] + [q];
    }
  }

  /** However many questions were answered, the history holds the newest
      HistoryLength of them, oldest first. */
  lemma {:induction false} RecordAllNewest(qs: seq<string>)
    ensures RecordAll(qs) == Newest(qs, HistoryLength)
  {
    if qs != [] {
      var init, q := qs[..|qs| - 1], qs[|qs| - 1];
      assert qs == init + [q];
      RecordAllNewest(init);
      NewestSnoc(init, q, HistoryLength);
    }
  }

  /** After four answered questions the first one is gone and the other
      three are kept in the order they were asked. */
  lemma FourthQuestionEvictsFirst(a: string, b: string, c: string, d: string)
    ensures RecordAll([a, b, c, d]) == [b, c, d]
  {
    RecordAllNewest([a, b, c, d]);
  }

  /** The history of the widget: one array shared by every exchange. */
  class QuestionHistory {
    var entries: seq<string>

    ghost predicate Valid()
      reads this
    {
      |entries| <= HistoryLength
    }

    /** The page starts with no history. */
    constructor ()
      ensures Valid() && entries == []
    {
      entries := [];
    }

    /** Records a question that was answered: push, then shift if the
        history has grown too long. */
    method Record(question: string)
      requires Valid()
      modifies this
      ensures Valid()
      ensures entries == Recorded(old(entries), question)
    {
      entries := entries + [question];
      if |entries| > HistoryLength {
        entries := entries[1..];
      }
    }
  }
}
