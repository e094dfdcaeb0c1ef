/**
 * The chat widget's handling of one submitted question: the form is checked
 * and its text trimmed, the input is locked, the question is posted to the
 * thread and sent to the bot with the history of earlier questions, the
 * bot's cleaned answer (or a fixed apology) is posted, and the input is
 * unlocked again whatever happened.
 *
 * The page's effects are kept as a list of events in the order they happen:
 * the input being locked and unlocked, messages posted to the thread and
 * requests sent to the bot. How the bot's side ended is a parameter.
 */
module Chat {
  import opened Wrappers
  import opened AnswerCleaning
  import opened History

  /** Who a message in the thread is from: the visitor (posted with the
      class "guest") or the bot (class "me"). */
  datatype Sender = Guest | Bot

  datatype Message = Message(sender: Sender, text: string)

  /** The body sent to the bot: the question and the history of the
      questions answered before it. */
  datatype Request = Request(question: string, history: seq<string>)

  /** How a request to the bot ended. */
  datatype Outcome =
      /** No usable reply: the request failed, the status was not ok, the
          body was not JSON, or the JSON body was `null` (destructuring it
          throws). askChatBot throws before the history is touched. */
    | Failed
      /** A reply whose `answer` is a string. */
    | Answered(answer: string)
      /** A JSON body other than `null` whose `answer` is missing or not a
          string: the question is recorded, then cleaning the answer throws. */
    | AnswerNotText

  /** What the page does, in order. */
  datatype Event =
    | Locked
    | Unlocked
    | Posted(message: Message)
    | Asked(request: Request)

  /** What the bot says when no answer can be shown. */
  const Fallback := "Sorry, I can't reply at the moment."

  /** The question to send, if any: none when the form is invalid or its
      text is blank, otherwise the text without surrounding white space. */
  function Question(valid: bool, raw: string): (q: Option<string>)
    ensures q.Some? <==> valid && !AllSpace(raw)
    ensures q.Some? ==> q.value == Trim(raw) && q.value != []
  {
    if !valid then None
    else
      var message := Trim(raw);
      TrimEmptyIffBlank(raw);
      if message == [] then None else Some(message)
  }

  /** The text the bot's message shows once the exchange is over. */
  function Reply(outcome: Outcome): string
  {
    match outcome
    case Answered(answer) => Clean(answer)
    case _ => Fallback
  }

  /** Everything one submitted question q makes the page do, given the
      history h at the time it was sent and the text of the bot's reply. */
  function Exchange(q: string, h: seq<string>, reply: string): seq<Event>
  {
    [Locked, Posted(Message(Guest, q)), Asked(Request(q, h)), Posted(Message(Bot, reply)), Unlocked]
  }

  // ---------------------------------------------------------------------
  // Reading the event list
  // ---------------------------------------------------------------------

  /** The lock events among es: true for locking, false for unlocking. */
  function Locks(es: seq<Event>): (ls: seq<bool>)
    ensures |ls| <= |es|
  {
    if es == [] then []
    else
      var rest := Locks(es[1..]);
      match es[0]
      case Locked => [true] + rest
      case Unlocked => [false] + rest
      case _ => rest
  }

  /** The messages posted among es. */
  function Posts(es: seq<Event>): (ms: seq<Message>)
    ensures |ms| <= |es|
  {
    if es == [] then []
    else if es[0].Posted? then [es[0].message] + Posts(es[1..])
    else Posts(es[1..])
  }

  /** The requests sent among es. */
  function Requests(es: seq<Event>): (rs: seq<Request>)
    ensures |rs| <= |es|
  {
    if es == [] then []
    else if es[0].Asked? then [es[0].request] + Requests(es[1..])
    else Requests(es[1..])
  }

  /** Locking and unlocking alternate, starting with a lock and ending with
      an unlock: the input is free again after every exchange. */
  predicate Balanced(ls: seq<bool>)
  {
    |ls| % 2 == 0 && forall i :: 0 <= i < |ls| ==> ls[i] == (i % 2 == 0)
  }

  lemma {:induction false} LocksAppend(a: seq<Event>, b: seq<Event>)
    ensures Locks(a + b) == Locks(a) + Locks(b)
    decreases |a|
  {
    if a != [] {
      assert (a + b)[0] == a[0];
      assert (a + b)[1..] == a[1..] + b;
      LocksAppend(a[1..], b);
    } else {
      assert a + b == b;
    }
  }

  lemma {:induction false} PostsAppend(a: seq<Event>, b: seq<Event>)
    ensures Posts(a + b) == Posts(a) + Posts(b)
    decreases |a|
  {
    if a != [] {
      assert (a + b)[0] == a[0];
      assert (a + b)[1..] == a[1..] + b;
      PostsAppend(a[1..], b);
    } else {
      assert a + b == b;
    }
  }

  lemma {:induction false} RequestsAppend(a: seq<Event>, b: seq<Event>)
    ensures Requests(a + b) == Requests(a) + Requests(b)
    decreases |a|
  {
    if a != [] {
      assert (a + b)[0] == a[0];
      assert (a + b)[1..] == a[1..] + b;
      RequestsAppend(a[1..], b);
    } else {
      assert a + b == b;
    }
  }

  /** One exchange locks the input once and unlocks it once, in that order;
      it posts the question and then the reply; it sends one request, which
      carries the history from before the question. */
  lemma ExchangeEffects(q: string, h: seq<string>, reply: string)
    ensures Locks(Exchange(q, h, reply)) == [true, false]
    ensures Posts(Exchange(q, h, reply)) == [Message(Guest, q), Message(Bot, reply)]
    ensures Requests(Exchange(q, h, reply)) == [Request(q, h)]
  {
    var e4 := [Unlocked];
    var e3 := [Posted(Message(Bot, reply))] + e4;
    var e2 := [Asked(Request(q, h))] + e3;
    var e1 := [Posted(Message(Guest, q))] + e2;
    var e0 := [Locked] + e1;
    assert Exchange(q, h, reply) == e0;
    assert e4[1..] == [] && e3[1..] == e4 && e2[1..] == e3 && e1[1..] == e2 && e0[1..] == e1;
    assert Locks(e4) == [false] && Posts(e4) == [] && Requests(e4) == [];
    assert Locks(e3) == [false] && Posts(e3) == [Message(Bot, reply)] && Requests(e3) == [];
    assert Locks(e2) == [false] && Posts(e2) == [Message(Bot, reply)] && Requests(e2) == [Request(q, h)];
    assert Locks(e1) == [false] && Posts(e1) == [Message(Guest, q), Message(Bot, reply)] && Requests(e1) == [Request(q, h)];
  }

  /** The exchange is the five effects added one at a time. */
  lemma ExchangeInSteps(es: seq<Event>, q: string, h: seq<string>, reply: string)
    ensures es + [Locked] + [Posted(Message(Guest, q))] + [Asked(Request(q, h))]
      + [Posted(Message(Bot, reply))] + [Unlocked] == es + Exchange(q, h, reply)
  {
  }

  /** Without an answer to show the bot posts the fallback; a blank answer
      is posted as an empty message, and an answer that never mentions
      `<think` is posted trimmed and otherwise as it came. */
  lemma ReplyShown(outcome: Outcome)
    ensures !outcome.Answered? ==> Reply(outcome) == Fallback
    ensures outcome.Answered? && AllSpace(outcome.answer) ==> Reply(outcome) == []
    ensures outcome.Answered? && NoThink(outcome.answer) ==> Reply(outcome) == Trim(outcome.answer)
  {
    if outcome.Answered? {
      if AllSpace(outcome.answer) {
        BlankCleansToEmpty(outcome.answer);
      }
      if NoThink(outcome.answer) {
        NoThinkOnlyTrimmed(outcome.answer);
      }
    }
  }

  /** After any number of exchanges the lock events are still balanced. */
  lemma ExchangeKeepsBalance(es: seq<Event>, q: string, h: seq<string>, reply: string)
    requires Balanced(Locks(es))
    ensures Balanced(Locks(es + Exchange(q, h, reply)))
  {
    LocksAppend(es, Exchange(q, h, reply));
    ExchangeEffects(q, h, reply);
    var ls := Locks(es) + [true, false];
    forall i | 0 <= i < |ls| ensures ls[i] == (i % 2 == 0) {
      if i >= |Locks(es)| {
        assert i == |Locks(es)| || i == |Locks(es)| + 1;
      }
    }
  }

  /** The chat form and thread of one page. */
  class ChatWidget {
    /** The text in the input field. */
    var inputValue: string
    /** The `disabled` flags of the input field and the send button. */
    var inputDisabled: bool
    var sendDisabled: bool
    /** What the page has done so far. */
    var events: seq<Event>
    /** The questions sent along with the next request. */
    const history: QuestionHistory

    ghost predicate Valid()
      reads this, history
    {
      && history.Valid()
      && inputDisabled == sendDisabled
    }

    /** A page as it is loaded, with an empty form. */
    constructor ()
      ensures Valid() && fresh(history)
      ensures inputValue == [] && !inputDisabled && events == [] && history.entries == []
      ensures Balanced(Locks(events))
    {
      inputValue := [];
      inputDisabled := false;
      sendDisabled := false;
      events := [];
      history := new QuestionHistory();
    }

    /** Disables the input field and the send button and empties the field. */
    method LockInput()
      modifies this
      ensures inputDisabled && sendDisabled && inputValue == []
      ensures events == old(events) + [Locked]
    {
      inputDisabled := true;
      sendDisabled := true;
      inputValue := [];
      events := events + [Locked];
    }

    /** Enables the input field and the send button again; the text in the
        field stays as it is. */
    method UnlockInput()
      modifies this
      ensures !inputDisabled && !sendDisabled && inputValue == old(inputValue)
      ensures events == old(events) + [Unlocked]
    {
      inputDisabled := false;
      sendDisabled := false;
      events := events + [Unlocked];
    }

    /** Adds a message at the end of the thread. */
    method PostMessage(message: Message)
      modifies this
      ensures events == old(events) + [Posted(message)]
      ensures inputValue == old(inputValue)
      ensures inputDisabled == old(inputDisabled) && sendDisabled == old(sendDisabled)
    {
      events := events + [Posted(message)];
    }

    /** Sends the question with the current history. Unless the request
        failed, the question is then recorded; the result is the cleaned
        answer, or None where the source throws. */
    method AskChatBot(question: string, outcome: Outcome) returns (answer: Option<string>)
      requires history.Valid()
      modifies this, history
      ensures history.Valid()
      ensures events == old(events) + [Asked(Request(question, old(history.entries)))]
      ensures history.entries == if outcome.Failed? then old(history.entries) else Recorded(old(history.entries), question)
      ensures answer == if outcome.Answered? then Some(Clean(outcome.answer)) else None
      ensures inputValue == old(inputValue)
      ensures inputDisabled == old(inputDisabled) && sendDisabled == old(sendDisabled)
    {
      events := events + [Asked(Request(question, history.entries))];
      if outcome.Failed? {
        return None;
      }
      history.Record(question);
      match outcome {
        case Answered(text) => answer := Some(Clean(text));
        case _ => answer := None;
      }
    }

    /** Handles the send button: nothing happens unless the form is valid
        and its text is not blank; otherwise the whole exchange runs, and
        the input always ends unlocked. */
    method SendMessage(valid: bool, outcome: Outcome)
      requires Valid()
      modifies this, history
      ensures Valid()
      ensures Question(valid, old(inputValue)).None? ==>
        && inputValue == old(inputValue) && events == old(events)
        && inputDisabled == old(inputDisabled) && sendDisabled == old(sendDisabled)
        && history.entries == old(history.entries)
      ensures Question(valid, old(inputValue)).Some? ==>
        var q := Question(valid, old(inputValue)).value;
        && events == old(events) + Exchange(q, old(history.entries), Reply(outcome))
        && history.entries == (if outcome.Failed? then old(history.entries) else Recorded(old(history.entries), q))
        && inputValue == [] && !inputDisabled && !sendDisabled
      ensures Balanced(Locks(old(events))) ==> Balanced(Locks(events))
    {
      var question := Question(valid, inputValue);
      if question.None? {
        return;
      }
      var q := question.value;
      ghost var before := events;
      ghost var h := history.entries;
      LockInput();
      PostMessage(Message(Guest, q));
      var answer := AskChatBot(q, outcome);
      var text := if answer.Some? then answer.value else Fallback;
      assert text == Reply(outcome);
      PostMessage(Message(Bot, text));
      UnlockInput();
      ExchangeInSteps(before, q, h, text);
      if Balanced(Locks(before)) {
        ExchangeKeepsBalance(before, q, h, text);
      }
    }
  }
}
