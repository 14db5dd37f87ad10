/** The bot's main loop (homework.py:98-129): the token check at start-up and
    then, cycle after cycle, fetch, validate, fetch again, interpret, and send
    what differs from the last status message. The network answers, the clock
    and the chat are inputs and outputs of a cycle; `while True` becomes a
    finite list of cycles. */
module PollLoop {
  import opened Json
  import opened Errors
  import opened Homework

  /** What one call of get_api_answer gives: the decoded answer, or the
      message of the exception it raised (unreachable endpoint, a status code
      other than 200, a body that is not JSON). */
  datatype Fetch = Answered(body: Value) | Failed(message: string)

  /** The outside world during one cycle: the answers to the first and to the
      second request, and what `int(time.time())` reads. */
  datatype CycleInput = CycleInput(first: Fetch, second: Fetch, now: int)

  /** How the `try` block of a cycle ends: with a message, through the branch
      that logs "no new statuses", or with an exception. */
  datatype Outcome = Message(text: string) | NoUpdate | Raised(error: Error)

  /** The end of the `try` block and how many requests it made. */
  datatype Attempt = Attempt(outcome: Outcome, fetches: int)

  /** The loop's own variables: `timestamp` and `last_message`. */
  datatype State = State(timestamp: int, lastMessage: string)

  const Init := State(0, "")

  /** What a cycle, or a run of cycles, leaves behind: the new state, the
      messages handed to the bot in order, and the requests made. */
  datatype Transition = Transition(next: State, sent: seq<string>, fetches: int)

  const DiagnosticPrefix: string := "Сбой в работе программы: "

  /** The text sent for an exception caught at the loop boundary. It can never
      be mistaken for a status notification. */
  function Diagnostic(e: Error): (d: string)
    ensures d == DiagnosticPrefix + Text(e)
    ensures !IsStatusMessage(d)
  {
    var d := DiagnosticPrefix + Text(e);
    assert d[0] != StatusPrefix[0];
    d
  }

  /** `response.get('homeworks')[0]` on the second answer, which nothing
      validated: a missing list reads as None, an empty one raises. */
  function FirstHomework(response: Value): (r: Result<Value>)
    ensures !response.Obj? ==> r == Err(NoGet(response))
    ensures response.Obj? && "homeworks" !in response.fields ==>
      r == Err(TypeError("'NoneType' object is not subscriptable"))
    ensures response.Obj? && "homeworks" in response.fields && response.fields["homeworks"].Arr? ==>
      var items := response.fields["homeworks"].items;
      r == if items == [] then Err(IndexError("list index out of range")) else Ok(items[0])
    // `homeworks` present but not a list: Python's indexing of that value
    ensures response.Obj? && "homeworks" in response.fields && !response.fields["homeworks"].Arr? ==>
      var h := response.fields["homeworks"];
      && (h.Str? ==> r == if h.s == "" then Err(IndexError("string index out of range")) else Ok(Str([h.s[0]])))
      && (h.Obj? ==> r == Err(IndexKeyError(0)))
      && (h.Int? ==> r == Err(TypeError("'int' object is not subscriptable")))
      && (h.Null? ==> r == Err(TypeError("'NoneType' object is not subscriptable")))
  {
    if !response.Obj? then
      Err(NoGet(response))
    else
      var homeworks := if "homeworks" in response.fields then response.fields["homeworks"] else Null;
      match homeworks
      case Arr(items) =>
        if items == [] then Err(IndexError("list index out of range")) else Ok(items[0])
      case Str(s) =>
        if s == "" then Err(IndexError("string index out of range")) else Ok(Str([s[0]]))
      // a decoded JSON object has only string keys, so the integer key 0 is absent
      case Obj(_) => Err(IndexKeyError(0))
      case Int(_) => Err(TypeError("'int' object is not subscriptable"))
      case Null => Err(TypeError("'NoneType' object is not subscriptable"))
  }

  /** The `try` block of one cycle. check_response returns None, so `not hw`
      holds, the answer is fetched a second time, and the "no new statuses"
      branch is never taken. */
  function TryCycle(first: Fetch, second: Fetch): (a: Attempt)
    ensures !a.outcome.NoUpdate?
    ensures a.fetches == if first.Answered? && CheckResponse(first.body).Ok? then 2 else 1
    ensures a.outcome.Message? <==>
      && first.Answered? && CheckResponse(first.body).Ok?
      && second.Answered? && FirstHomework(second.body).Ok?
      && IsKnownRecord(FirstHomework(second.body).value)
    ensures a.outcome.Message? ==> IsStatusMessage(a.outcome.text)
    // which exception ends the block, in the order the code can raise them
    ensures first.Failed? ==> a.outcome == Raised(ApiError(first.message))
    ensures first.Answered? && CheckResponse(first.body).Err? ==>
      a.outcome == Raised(CheckResponse(first.body).error)
    ensures first.Answered? && CheckResponse(first.body).Ok? ==>
      match second
      case Failed(message) => a.outcome == Raised(ApiError(message))
      case Answered(response) =>
        match FirstHomework(response)
        case Err(e) => a.outcome == Raised(e)
        case Ok(homework) =>
          match ParseStatus(homework)
          case Err(e) => a.outcome == Raised(e)
          // the message is the interpretation of the second answer's first homework
          case Ok(message) => a.outcome == Message(message)
  {
    match first
    case Failed(message) => Attempt(Raised(ApiError(message)), 1)
    case Answered(response) =>
      match CheckResponse(response)
      case Err(e) => Attempt(Raised(e), 1)
      case Ok(hw) =>
        if !Truthy(hw) then
          match second
          case Failed(message) => Attempt(Raised(ApiError(message)), 2)
          case Answered(response2) =>
            match FirstHomework(response2)
            case Err(e) => Attempt(Raised(e), 2)
            case Ok(homework) =>
              match ParseStatus(homework)
              case Err(e) => Attempt(Raised(e), 2)
              case Ok(message) => Attempt(Message(message), 2)
        else
          Attempt(NoUpdate, 1)
  }

  /** One pass of `while True`. The state changes only when a status message
      is sent; a diagnostic is sent without being remembered, because the
      error branch assigns to the local `message` (homework.py:127). */
  function Step(s: State, c: CycleInput): (t: Transition)
    ensures |t.sent| <= 1 && 1 <= t.fetches <= 2
    ensures forall m :: m in t.sent ==> m != s.lastMessage
    ensures t.next == s || (t.sent == [t.next.lastMessage] && IsStatusMessage(t.next.lastMessage) && t.next.timestamp == c.now)
    ensures t.next == s ==> forall m :: m in t.sent ==> !IsStatusMessage(m)
  {
    var a := TryCycle(c.first, c.second);
    match a.outcome
    case Message(message) =>
      if message != s.lastMessage then Transition(State(c.now, message), [message], a.fetches)
      else Transition(s, [], a.fetches)
    case NoUpdate => Transition(s, [], a.fetches)
    case Raised(e) =>
      var message := Diagnostic(e);
      Transition(s, if message != s.lastMessage then [message] else [], a.fetches)
  }

  /** Cycles run one after the other from state `s`. */
  function Iterate(step: (State, CycleInput) -> Transition, s: State, cycles: seq<CycleInput>): Transition
    decreases |cycles|
  {
    if cycles == [] then Transition(s, [], 0)
    else
      var before := Iterate(step, s, cycles[..|cycles| - 1]);
      var last := step(before.next, cycles[|cycles| - 1]);
      Transition(last.next, before.sent + last.sent, before.fetches + last.fetches)
  }

  /** Running one more cycle after a run continues from where it stopped. */
  lemma IterateSnoc(step: (State, CycleInput) -> Transition, s: State, cycles: seq<CycleInput>, c: CycleInput)
    ensures var before := Iterate(step, s, cycles); var last := step(before.next, c);
      Iterate(step, s, cycles + [c]) == Transition(last.next, before.sent + last.sent, before.fetches + last.fetches)
  {
    assert (cycles + [c])[..|cycles|] == cycles;
  }

  /** Two cycles in a row. */
  lemma IterateTwo(step: (State, CycleInput) -> Transition, s: State, c1: CycleInput, c2: CycleInput)
    ensures var t1 := step(s, c1); var t2 := step(t1.next, c2);
      Iterate(step, s, [c1, c2]) == Transition(t2.next, t1.sent + t2.sent, t1.fetches + t2.fetches)
  {
    IterateSnoc(step, s, [], c1);
    assert [] + [c1] == [c1];
    IterateSnoc(step, s, [c1], c2);
    assert [c1] + [c2] == [c1, c2];
  }

  const ExitMessage: string := "Работа программы завершена"

  /** How a run ends: `sys.exit` with status 1 before the bot exists and before
      any request, or polling through all the given cycles. */
  datatype RunResult = Exited(status: int, message: string) | Polled(final: Transition)

  /** `main` over a finite number of cycles. */
  function Run(config: Config, cycles: seq<CycleInput>): (r: RunResult)
    ensures r.Exited? <==> !CheckTokens(config)
    ensures r.Exited? ==> r == Exited(1, ExitMessage)
    ensures r.Polled? ==>
      && |r.final.sent| <= |cycles| <= r.final.fetches <= 2 * |cycles|
      && r.final == Iterate(Step, Init, cycles)
  {
    if !CheckTokens(config) then Exited(1, ExitMessage)
    else
      RunBounds(Init, cycles);
      Polled(Iterate(Step, Init, cycles))
  }

  /** The loop variables of `main` and the chat it writes to. */
  class Poller {
    var timestamp: int
    var lastMessage: string
    /** The messages handed to `send_message`, in order. Sending never fails
        as far as the loop can tell: send_message swallows every exception. */
    var sent: seq<string>
    /** The requests made to the status API so far. */
    var fetches: nat

    function Current(): State
      reads this
    {
      State(timestamp, lastMessage)
    }

    constructor ()
      ensures Current() == Init && sent == [] && fetches == 0
    {
      timestamp := 0;
      lastMessage := "";
      sent := [];
      fetches := 0;
    }

    method SendMessage(message: string)
      modifies this
      ensures sent == old(sent) + [message]
      ensures Current() == old(Current()) && fetches == old(fetches)
    {
      sent := sent + [message];
    }

    /** One pass of the loop body. */
    method Cycle(c: CycleInput)
      modifies this
      ensures var t := Step(old(Current()), c);
        Current() == t.next && sent == old(sent) + t.sent && fetches == old(fetches) + t.fetches
    {
      var attempt := TryCycle(c.first, c.second);
      fetches := fetches + attempt.fetches;
      match attempt.outcome {
        case Message(message) =>
          if message != lastMessage {
            SendMessage(message);
            timestamp := c.now;
            lastMessage := message;
          }
        case NoUpdate =>
        case Raised(error) =>
          var message := Diagnostic(error);
          if message != lastMessage {
            SendMessage(message);
            message := lastMessage;
          }
      }
    }
  }

  /** `main`: check the tokens, then run the loop body once per given cycle. */
  method RunBot(config: Config, cycles: seq<CycleInput>) returns (r: RunResult)
    ensures r == Run(config, cycles)
  {
    if !CheckTokens(config) {
      return Exited(1, ExitMessage);
    }
    var poller := new Poller();
    var i := 0;
    while i < |cycles|
      invariant 0 <= i <= |cycles|
      invariant Transition(poller.Current(), poller.sent, poller.fetches) == Iterate(Step, Init, cycles[..i])
    {
      poller.Cycle(cycles[i]);
      assert cycles[..i + 1][..i] == cycles[..i];
      i := i + 1;
    }
    assert cycles[..|cycles|] == cycles;
    r := Polled(Transition(poller.Current(), poller.sent, poller.fetches));
  }

  // ---------------------------------------------------------------------------
  // One cycle

  /** A new status message is sent once, remembered, and moves the cursor to
      the current time. */
  lemma NewStatusIsSent(s: State, c: CycleInput, message: string)
    requires TryCycle(c.first, c.second).outcome == Message(message)
    requires message != s.lastMessage
    ensures Step(s, c) == Transition(State(c.now, message), [message], 2)
  {
  }

  /** A status message equal to the last one is not sent and changes nothing. */
  lemma RepeatedStatusIsSuppressed(s: State, c: CycleInput)
    requires TryCycle(c.first, c.second).outcome == Message(s.lastMessage)
    ensures Step(s, c).next == s && Step(s, c).sent == []
  {
  }

  /** A failing cycle sends its diagnostic once unless it equals the last
      status message, and leaves cursor and last message as they were. */
  lemma FailureKeepsState(s: State, c: CycleInput, e: Error)
    requires TryCycle(c.first, c.second).outcome == Raised(e)
    ensures Step(s, c).next == s
    ensures Step(s, c).sent == if Diagnostic(e) != s.lastMessage then [Diagnostic(e)] else []
  {
  }

  /** An empty list in the second answer raises IndexError: the cycle reports
      a failure instead of passing quietly. */
  lemma EmptyHomeworksIsFailure(s: State, c: CycleInput, fields: map<string, Value>)
    requires c.first.Answered? && CheckResponse(c.first.body).Ok?
    requires c.second == Answered(Obj(fields)) && "homeworks" in fields && fields["homeworks"] == Arr([])
    ensures TryCycle(c.first, c.second) == Attempt(Raised(IndexError("list index out of range")), 2)
    ensures var d := DiagnosticPrefix + "list index out of range";
      Step(s, c) == Transition(s, if d != s.lastMessage then [d] else [], 2)
  {
    var e := IndexError("list index out of range");
    assert FirstHomework(c.second.body) == Err(e);
    assert TryCycle(c.first, c.second) == Attempt(Raised(e), 2);
    assert Text(e) == "list index out of range";
    FailureKeepsState(s, c, e);
  }

  // ---------------------------------------------------------------------------
  // Runs of cycles

  /** The status notifications among the sent messages, in order. */
  function Statuses(sent: seq<string>): seq<string>
    decreases |sent|
  {
    if sent == [] then []
    else Statuses(sent[..|sent| - 1]) + (if IsStatusMessage(sent[|sent| - 1]) then [sent[|sent| - 1]] else [])
  }

  lemma {:induction false} StatusesAppend(a: seq<string>, b: seq<string>)
    ensures Statuses(a + b) == Statuses(a) + Statuses(b)
    decreases |b|
  {
    if b != [] {
      var b' := b[..|b| - 1];
      assert (a + b)[..|a + b| - 1] == a + b';
      StatusesAppend(a, b');
    } else {
      assert a + b == a;
    }
  }

  ghost predicate NoAdjacentRepeats(s: seq<string>) {
    forall i :: 0 < i < |s| ==> s[i - 1] != s[i]
  }

  lemma {:induction false} RunBounds(s: State, cycles: seq<CycleInput>)
    ensures var t := Iterate(Step, s, cycles);
      |t.sent| <= |cycles| <= t.fetches <= 2 * |cycles|
    decreases |cycles|
  {
    if cycles != [] {
      RunBounds(s, cycles[..|cycles| - 1]);
    }
  }

  /** What one cycle adds to the status notifications: nothing, and then the
      state is unchanged, or the new last message, sent at the cycle's time. */
  ghost predicate StatusStep(s: State, c: CycleInput, t: Transition) {
    || (t.next == s && Statuses(t.sent) == [])
    || (Statuses(t.sent) == [t.next.lastMessage] && t.next.lastMessage != s.lastMessage
        && t.next.timestamp == c.now)
  }

  lemma StepStatuses(s: State, c: CycleInput)
    ensures StatusStep(s, c, Step(s, c))
  {
    var t := Step(s, c);
    if t.sent != [] {
      assert t.sent[..0] == [];
      assert t.sent == [t.sent[0]];
    }
  }

  lemma NoAdjacentRepeatsSnoc(st: seq<string>, m: string)
    requires NoAdjacentRepeats(st)
    requires st != [] ==> st[|st| - 1] != m
    ensures NoAdjacentRepeats(st + [m])
  {
  }

  /** What a run from `s` that ended in `t` has kept about status
      notifications: the last message is the last one sent (and nothing
      changed if none was), and no one of them repeats the previous one. */
  ghost predicate Deduplicated(s: State, t: Transition) {
    var st := Statuses(t.sent);
    && (st == [] ==> t.next == s)
    && (st != [] ==> t.next.lastMessage == st[|st| - 1] && st[0] != s.lastMessage)
    && NoAdjacentRepeats(st)
  }

  /** One more cycle of the StatusStep shape keeps Deduplicated. */
  lemma DeduplicatedSnoc(s: State, before: Transition, c: CycleInput, last: Transition)
    requires Deduplicated(s, before)
    requires StatusStep(before.next, c, last)
    ensures Deduplicated(s, Transition(last.next, before.sent + last.sent, before.fetches + last.fetches))
  {
    StatusesAppend(before.sent, last.sent);
    var st0 := Statuses(before.sent);
    if last.next == before.next && Statuses(last.sent) == [] {
      assert st0 + [] == st0;
    } else {
      NoAdjacentRepeatsSnoc(st0, last.next.lastMessage);
      if st0 != [] {
        assert (st0 + [last.next.lastMessage])[0] == st0[0];
      }
    }
  }

  /** The dedup invariant, for any cycle that behaves like StatusStep says. */
  lemma {:induction false} DedupInvariant(step: (State, CycleInput) -> Transition, s: State, cycles: seq<CycleInput>)
    requires forall s', c' :: StatusStep(s', c', step(s', c'))
    ensures Deduplicated(s, Iterate(step, s, cycles))
    decreases |cycles|
  {
    if cycles != [] {
      var init, c := cycles[..|cycles| - 1], cycles[|cycles| - 1];
      assert cycles == init + [c];
      DedupInvariant(step, s, init);
      var before := Iterate(step, s, init);
      IterateSnoc(step, s, init, c);
      DeduplicatedSnoc(s, before, c, step(before.next, c));
    } else {
      assert Statuses([]) == [];
    }
  }

  /** Over any run: the last message is the last status notification sent (or
      what it was before, if none was sent, and then nothing changed at all),
      and no status notification directly repeats the previous one. */
  lemma RunDedup(s: State, cycles: seq<CycleInput>)
    ensures var t := Iterate(Step, s, cycles); var st := Statuses(t.sent);
      && (st == [] ==> t.next == s)
      && (st != [] ==> t.next.lastMessage == st[|st| - 1] && st[0] != s.lastMessage)
      && NoAdjacentRepeats(st)
  {
    forall s', c' ensures StatusStep(s', c', Step(s', c')) {
      StepStatuses(s', c');
    }
    DedupInvariant(Step, s, cycles);
  }

  /** Cycle `i` of a run sent the run's last status notification: it added one
      to the notifications, no later cycle added any, the state it left is the
      final state, and its cursor is the time read in cycle `i`. */
  ghost predicate SentLastStatus(step: (State, CycleInput) -> Transition, s: State, cycles: seq<CycleInput>, i: int)
    requires 0 <= i < |cycles|
  {
    var u := Iterate(step, s, cycles[..i]);
    var v := Iterate(step, s, cycles[..i + 1]);
    var t := Iterate(step, s, cycles);
    && |Statuses(u.sent)| < |Statuses(v.sent)|
    && Statuses(v.sent) == Statuses(t.sent)
    && t.next == v.next
    && v.next.timestamp == cycles[i].now
  }

  /** The cursor invariant, for any cycle that behaves like StatusStep says. */
  lemma {:induction false} CursorInvariant(step: (State, CycleInput) -> Transition, s: State, cycles: seq<CycleInput>)
    requires forall s', c' :: StatusStep(s', c', step(s', c'))
    ensures Statuses(Iterate(step, s, cycles).sent) != [] ==>
      exists i :: 0 <= i < |cycles| && SentLastStatus(step, s, cycles, i)
    decreases |cycles|
  {
    if cycles != [] {
      var init, c := cycles[..|cycles| - 1], cycles[|cycles| - 1];
      assert cycles == init + [c];
      CursorInvariant(step, s, init);
      var before := Iterate(step, s, init);
      var last := step(before.next, c);
      IterateSnoc(step, s, init, c);
      StatusesAppend(before.sent, last.sent);
      assert StatusStep(before.next, c, last);
      if last.next == before.next && Statuses(last.sent) == [] {
        assert Statuses(before.sent) + [] == Statuses(before.sent);
        if Statuses(before.sent) != [] {
          var i :| 0 <= i < |init| && SentLastStatus(step, s, init, i);
          assert cycles[..i] == init[..i] && cycles[..i + 1] == init[..i + 1];
          assert SentLastStatus(step, s, cycles, i);
        }
      } else {
        var i := |init|;
        assert cycles[..i] == init && cycles[..i + 1] == cycles;
        assert SentLastStatus(step, s, cycles, i);
      }
    }
  }

  /** Over any run: once a status notification has been sent, the final state
      is the one left by the cycle that sent the last of them, and the cursor
      is the time read in that cycle. */
  lemma RunCursor(s: State, cycles: seq<CycleInput>)
    ensures Statuses(Iterate(Step, s, cycles).sent) != [] ==>
      exists i :: 0 <= i < |cycles| && SentLastStatus(Step, s, cycles, i)
  {
    forall s', c' ensures StatusStep(s', c', Step(s', c')) {
      StepStatuses(s', c');
    }
    CursorInvariant(Step, s, cycles);
  }

  /** Two cycles that arrive at the same status message send it at most once
      between them. */
  lemma SameStatusTwiceSentOnce(s: State, c1: CycleInput, c2: CycleInput, message: string)
    requires TryCycle(c1.first, c1.second).outcome == Message(message)
    requires TryCycle(c2.first, c2.second).outcome == Message(message)
    ensures Iterate(Step, s, [c1, c2]).sent == if message != s.lastMessage then [message] else []
  {
    IterateTwo(Step, s, c1, c2);
  }

  /** As written, two cycles failing the same way send the same diagnostic
      twice: the first one was never recorded as the last message. */
  lemma RepeatedFailureResent(s: State, c1: CycleInput, c2: CycleInput, e: Error)
    requires TryCycle(c1.first, c1.second).outcome == Raised(e)
    requires TryCycle(c2.first, c2.second).outcome == Raised(e)
    requires Diagnostic(e) != s.lastMessage
    ensures Iterate(Step, s, [c1, c2]).sent == [Diagnostic(e), Diagnostic(e)]
  {
    IterateTwo(Step, s, c1, c2);
  }

  /** Every status notification is a status message. */
  lemma {:induction false} StatusesAreStatus(sent: seq<string>)
    ensures forall m :: m in Statuses(sent) ==> IsStatusMessage(m)
    decreases |sent|
  {
    if sent != [] {
      StatusesAreStatus(sent[..|sent| - 1]);
    }
  }

  /** As written, after any run from the start, a failing cycle sends its
      diagnostic: the last message is empty or a status notification, and a
      diagnostic is neither. So a failure that persists is reported on every
      cycle. */
  lemma FailureAlwaysSentFromInit(cycles: seq<CycleInput>, c: CycleInput, e: Error)
    requires TryCycle(c.first, c.second).outcome == Raised(e)
    ensures var t := Iterate(Step, Init, cycles);
      Step(t.next, c) == Transition(t.next, [Diagnostic(e)], TryCycle(c.first, c.second).fetches)
  {
    var t := Iterate(Step, Init, cycles);
    RunDedup(Init, cycles);
    var st := Statuses(t.sent);
    if st != [] {
      StatusesAreStatus(t.sent);
      assert st[|st| - 1] in st;
    }
    assert Diagnostic(e) != t.next.lastMessage;
    FailureKeepsState(t.next, c, e);
  }

  /** The end-to-end example: an answer with one approved homework "hw1" sends
      the notification `Изменился статус проверки работы "hw1". ` followed by the
      approved verdict in the first cycle, and nothing in a second identical one. */
  lemma ApprovedHomeworkExample(now1: int, now2: int)
    ensures
      var homework := Obj(map["homework_name" := Str("hw1"), "status" := Str("approved")]);
      var answer := Answered(Obj(map["homeworks" := Arr([homework]), "current_date" := Int(1000)]));
      var cycles := [CycleInput(answer, answer, now1), CycleInput(answer, answer, now2)];
      var message := StatusPrefix + "hw1" + "\". " + Verdicts["approved"];
      Iterate(Step, Init, cycles) == Transition(State(now1, message), [message], 4)
  {
    var homework := Obj(map["homework_name" := Str("hw1"), "status" := Str("approved")]);
    var answer := Answered(Obj(map["homeworks" := Arr([homework]), "current_date" := Int(1000)]));
    var message := StatusPrefix + "hw1" + "\". " + Verdicts["approved"];
    assert IsKnownRecord(homework);
    assert Show(homework.fields["homework_name"]) == "hw1";
    assert ParseStatus(homework) == Ok(message);
    assert FirstHomework(answer.body) == Ok(homework);
    assert TryCycle(answer, answer) == Attempt(Message(message), 2);
    IterateTwo(Step, Init, CycleInput(answer, answer, now1), CycleInput(answer, answer, now2));
  }
}
