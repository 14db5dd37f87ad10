/** The poll loop with the error branch as evidently intended: the diagnostic
    just sent becomes the last message (homework.py:127 reads
    `message = last_message`, the reverse assignment). Everything else is the
    as-written cycle of module PollLoop. */
module CorrectedLoop {
  import opened Errors
  import opened PollLoop

  /** One pass of the loop in which a sent diagnostic is remembered too. */
  function StepIntended(s: State, c: CycleInput): (t: Transition)
    ensures |t.sent| <= 1
    ensures t.sent == [] ==> t.next.lastMessage == s.lastMessage
    ensures t.sent != [] ==> t.sent[0] != s.lastMessage && t.next.lastMessage == t.sent[0]
    // the same sends, requests and cursor as the cycle as written; only a
    // failing cycle differs, and only in the last message
    ensures var u := Step(s, c);
      && t.sent == u.sent && t.fetches == u.fetches && t.next.timestamp == u.next.timestamp
      && (!TryCycle(c.first, c.second).outcome.Raised? ==> t == u)
  {
    var t := Step(s, c);
    match TryCycle(c.first, c.second).outcome
    case Raised(_) =>
      if t.sent != [] then Transition(State(s.timestamp, t.sent[0]), t.sent, t.fetches) else t
    case _ => t
  }

  ghost predicate Remembers(s: State, t: Transition) {
    && (t.sent == [] ==> t.next.lastMessage == s.lastMessage)
    && (t.sent != [] ==> t.sent[0] != s.lastMessage && t.next.lastMessage == t.sent[|t.sent| - 1])
  }

  /** Remembering holds over any run of a cycle that sends at most one
      message and remembers it. */
  lemma {:induction false} RememberInvariant(step: (State, CycleInput) -> Transition, s: State, cycles: seq<CycleInput>)
    requires forall s', c' :: |step(s', c').sent| <= 1 && Remembers(s', step(s', c'))
    ensures var t := Iterate(step, s, cycles);
      Remembers(s, t) && NoAdjacentRepeats(t.sent)
    decreases |cycles|
  {
    if cycles != [] {
      var init, c := cycles[..|cycles| - 1], cycles[|cycles| - 1];
      assert cycles == init + [c];
      RememberInvariant(step, s, init);
      var before := Iterate(step, s, init);
      var last := step(before.next, c);
      IterateSnoc(step, s, init, c);
      assert |last.sent| <= 1 && Remembers(before.next, last);
      if last.sent == [] {
        assert before.sent + [] == before.sent;
      } else {
        assert last.sent == [last.sent[0]];
        NoAdjacentRepeatsSnoc(before.sent, last.sent[0]);
        if before.sent != [] {
          assert (before.sent + last.sent)[0] == before.sent[0];
        }
      }
    }
  }

  /** With the correction no message is ever sent twice in a row, diagnostics
      included, and the last message is always the last one sent. */
  lemma IntendedNeverRepeats(s: State, cycles: seq<CycleInput>)
    ensures var t := Iterate(StepIntended, s, cycles);
      Remembers(s, t) && NoAdjacentRepeats(t.sent)
  {
    forall s', c' ensures |StepIntended(s', c').sent| <= 1 && Remembers(s', StepIntended(s', c')) {
      var t := StepIntended(s', c');
      if t.sent != [] {
        assert t.sent == [t.sent[0]];
      }
    }
    RememberInvariant(StepIntended, s, cycles);
  }

  /** With the correction, two cycles failing the same way send the
      diagnostic once. */
  lemma IntendedRepeatedFailureOnce(s: State, c1: CycleInput, c2: CycleInput, e: Error)
    requires TryCycle(c1.first, c1.second).outcome == Raised(e)
    requires TryCycle(c2.first, c2.second).outcome == Raised(e)
    requires Diagnostic(e) != s.lastMessage
    ensures Iterate(StepIntended, s, [c1, c2]).sent == [Diagnostic(e)]
  {
    IterateTwo(StepIntended, s, c1, c2);
  }
}
