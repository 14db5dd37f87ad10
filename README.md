# homework_bot in Dafny

A model of the decision core of a Telegram bot that polls the Yandex Practicum
homework-status API and tells its owner when the review status of their latest
homework changes. The core is in `homework.py`:

- the verdict table `HOMEWORK_VERDICTS` and the status interpreter
  `parse_status`, which turns one homework record into a notification text or
  raises;
- the response validator `check_response` and the start-up check
  `check_tokens`;
- one pass of the `while True` loop in `main`. It fetches the answer,
  validates it, fetches it a second time and interprets its first homework.
  It sends the message when it differs from `last_message`, and moves the
  cursor `timestamp` to the current time. When anything raises, it sends a
  diagnostic instead.

The network, the clock and the chat are outside the model. A cycle takes the
two answers the API gives (`PollLoop.Fetch`: a decoded JSON value, or the
message of the exception `get_api_answer` raised) and the current time
(`now`). It produces the new `(timestamp, last_message)` state, the messages
handed to the bot, and the number of requests made. The infinite loop becomes
a finite list of such cycle inputs.

Files:

- `json.dfy` (module `Json`): decoded JSON values (`Obj`, `Arr`, `Str`, `Int`,
  `Null`). It also holds the pieces of Python behaviour the code relies on:
  `in`, truthiness, type names in error messages, and `str()` inside an
  f-string.
- `errors.dfy` (module `Errors`): the exceptions a cycle can raise. Each is a
  tag plus what `f'{error}'` prints for it. A `KeyError('x')` prints as `'x'`,
  with the quotes.
- `homework.dfy` (module `Homework`): `Verdicts`, `CheckTokens`,
  `CheckResponse`, `ParseStatus`.
- `poll_loop.dfy` (module `PollLoop`): the pure cycle `Step` and runs of cycles
  (`Iterate`, `Run`). The class `Poller` holds the loop's variables, and
  `Poller.Cycle` updates them in place. `RunBot` is `main` over a finite list
  of cycles, proved equal to `Run`.
- `corrected_loop.dfy` (module `CorrectedLoop`): the cycle with the error
  branch as evidently intended (see Findings).

The code has these quirks, and the model keeps them:

- An empty `homeworks` list in the answer is not a quiet "no update" cycle.
  `homeworks[0]` raises `IndexError`, and a diagnostic is sent.
- `check_response` returns `None`, not the validated answer. So `not hw` always
  holds, and the answer is fetched a second time without being validated. The
  "no new statuses" branch is never taken.
- The cursor moves to the wall-clock time of the cycle that sent a new status.
  The answer's `current_date` is never used.
- A diagnostic is never recorded as the last message, so a failure that repeats
  is sent again every cycle (see Findings).
- The interpreter raises `KeyError` for a missing key and for an unknown status
  alike. A homework that is a list or a string goes through the same `in`
  tests, so it raises the code's own `KeyError` for a missing status or name,
  and Python's `AttributeError` only when it holds both keys and reaches
  `.get`. An integer or `None` homework fails the first `in` with Python's
  `TypeError`. The validator's "not a mapping" error is a `TypeError`.

Pure functions cannot change their argument, so `check_response` leaving its
input untouched holds by construction.

## Model

| member | source | states |
|---|---|---|
| Homework.VerdictTable | homework.py:33-37 | the verdict table has exactly the statuses `approved`, `reviewing` and `rejected`, and the three verdict texts differ from each other |
| Json.Show | homework.py:95 | what the f-string prints for the homework name: a string as itself, `None` as `None`, an integer as a non-empty run of decimal digits, preceded by `-` exactly when it is negative, that reads back as the same integer (`IntValue`) |
| Homework.CheckTokens | homework.py:40-45 | true exactly when each of the three configuration values is present and non-empty |
| Homework.CheckResponse | homework.py:72-79 | succeeds exactly on an object whose `homeworks` is a list, and then yields `None`; otherwise a TypeError for a non-object, else a KeyError for a missing `homeworks`, else a TypeError for a non-list, in that order |
| Homework.CheckResponseExamples | homework.py:74-79 | an answer with an empty list is accepted; `homeworks` set to a string gives the TypeError; an empty object gives the KeyError |
| Homework.ParseStatus | homework.py:81-95 | succeeds exactly on a dict with both keys whose status is a key of the verdict table. The message is `Изменился статус проверки работы "<name>". ` followed by that status's verdict. A missing status is reported before a missing name, and a missing name before an unknown status. A list or string homework gives the same two KeyErrors, and the AttributeError of `.get` when it holds both keys; an integer or `None` gives the TypeError of `in` |
| Homework.NonDictHomeworks | homework.py:86-90 | an empty list and a string without `status` give the "no status" KeyError, a list holding only `status` the "no name" KeyError, and a list holding both keys the AttributeError of `.get` |
| Homework.ParseRecord | homework.py:86-95 | on a record of string fields: "no status" when `status` is absent (whether or not the name is), "no name" when only the name is absent, "no such status" for a status outside the table, otherwise the exact message |
| Homework.MessageDeterminesRecord | homework.py:33-37 | two accepted homeworks give the same message if and only if they have the same status and their names print the same, so the loop's "message changed" test means "status or name changed" |
| PollLoop.Diagnostic | homework.py:123 | the diagnostic is `Сбой в работе программы: ` followed by the error's text, and it is never a status notification |
| PollLoop.FirstHomework | homework.py:111-112 | on the unvalidated second answer: the first homework of a non-empty list; IndexError for an empty list; TypeError when `homeworks` is missing; AttributeError when the answer is not a dict; for a `homeworks` that is not a list, what Python's `[0]` gives: a string's first character or IndexError when it is empty, `KeyError(0)` for a dict, and "not subscriptable" for an int or `None` |
| PollLoop.TryCycle | homework.py:107-113 | never ends in the "no new statuses" branch; makes two requests exactly when the first answer passes validation, else one; yields a message exactly when the first answer is valid and the second holds a known homework first, and that message is `ParseStatus` of the second answer's first homework; otherwise the exception is the first one raised, in the code's order: the first request's, the validator's, the second request's, the indexing's, the interpreter's |
| PollLoop.Step | homework.py:106-129 | sends at most one message, never one equal to the last message; the state changes only by sending a new status message, which becomes the last message while the cursor becomes `now`; a cycle that leaves the state alone sends no status message |
| PollLoop.NewStatusIsSent | homework.py:114-117 | a status message that differs from the last one is sent exactly once, becomes the last message, and moves the cursor to `now` |
| PollLoop.RepeatedStatusIsSuppressed | homework.py:114-119 | a status message equal to the last one sends nothing and changes neither the cursor nor the last message |
| PollLoop.FailureKeepsState | homework.py:122-127 | a failing cycle sends its diagnostic once unless it equals the last message, and leaves cursor and last message unchanged |
| PollLoop.EmptyHomeworksIsFailure | homework.py:109-112 | an empty list in the second answer raises `list index out of range`, and that diagnostic is what gets sent |
| PollLoop.StepStatuses | homework.py:113-127 | a cycle either leaves the state alone and adds no status notification, or adds exactly one: the new last message, sent at `now` |
| PollLoop.DedupInvariant | homework.py:106-127 | for any cycle shaped like that: the last message is the last status notification sent, or unchanged with the whole state when none was sent; no status notification repeats the previous one |
| PollLoop.RunDedup | homework.py:106-127 | the same invariant for the loop as written, over any number of cycles |
| PollLoop.CursorInvariant | homework.py:113-127 | for any cycle shaped like `StepStatuses` says: once a status notification has been sent, some cycle sent the last one, no later cycle sent any, the final state is the one it left, and the cursor is the time it read |
| PollLoop.RunCursor | homework.py:116 | the same for the loop as written: the cursor is the time read in the cycle that sent the last status notification |
| PollLoop.StatusesAreStatus | homework.py:114-117 | every notification the status filter keeps is a status message |
| PollLoop.RunBounds | homework.py:106-129 | a run of n cycles sends at most n messages and makes between n and 2n requests |
| PollLoop.SameStatusTwiceSentOnce | homework.py:114-119 | two cycles reaching the same status message send it once if it differs from the last message, and not at all otherwise |
| PollLoop.RepeatedFailureResent | homework.py:122-127 | as written, two cycles failing the same way send the same diagnostic twice |
| PollLoop.FailureAlwaysSentFromInit | homework.py:122-127 | as written, after any run from the start, a failing cycle sends its diagnostic and leaves the state unchanged, however often the same failure came before |
| PollLoop.ApprovedHomeworkExample | homework.py:106-119 | an answer holding one approved homework "hw1", returned in two cycles, sends its notification once, with the cursor at the first cycle's time and four requests made |
| PollLoop.Run | homework.py:98-129 | exits with status 1 before any request exactly when the token check fails; otherwise polls all cycles, sending at most one message and making one or two requests per cycle |
| PollLoop.RunBot | homework.py:98-129 | the imperative `main` (token check, a fresh poller, one loop pass per cycle) gives exactly `Run` |
| PollLoop.Poller.constructor | homework.py:104-105 | the loop starts with cursor 0, an empty last message, nothing sent and no request made |
| PollLoop.Poller.SendMessage | homework.py:48-54 | appends the message to what the chat received and changes nothing else; it never fails |
| PollLoop.Poller.Cycle | homework.py:107-127 | one loop pass in place: the new cursor and last message, the messages appended and the requests added are those of `Step` |
| CorrectedLoop.StepIntended | homework.py:122-127 | sends the same messages, makes the same requests and moves the cursor the same way as `Step`, and equals `Step` on any cycle that does not fail; the only difference is that a sent diagnostic becomes the last message. Whatever is sent differs from the previous last message and becomes the new one |
| CorrectedLoop.RememberInvariant | homework.py:114-127 | for any cycle that sends at most one message and remembers it: over any run, no message is sent twice in a row and the last message is the last one sent |
| CorrectedLoop.IntendedNeverRepeats | homework.py:114-127 | with the correction, over any run, no message is sent twice in a row and the last message is the last one sent |
| CorrectedLoop.IntendedRepeatedFailureOnce | homework.py:122-127 | with the correction, two cycles failing the same way send the diagnostic once |

## Left out

- `get_api_answer` (homework.py:57-69) is not modelled: the HTTP request, the status-code check and JSON decoding. Only its outcome is modelled, as `PollLoop.Fetch`: a decoded value, or the message of the exception it raised.
- `telegram.Bot` (homework.py:103) is not modelled. Sending is an append to `Poller.sent`; `send_message` swallows every exception, so a send never fails as far as the loop can tell.
- `time.sleep(RETRY_PERIOD)`, `time.time()` and the endless `while True` (homework.py:106, 116, 129) are not modelled. The clock is the input `now`, and a run is a finite list of cycles.
- `load_dotenv`, `os.getenv` and the logger (homework.py:15-28) are left out, as are all log calls, including the one at line 119 that lacks its `f` prefix. They have no effect on what is sent or on the state.
- The exception classes `StatusCodeException` and `JSONCodeException` come from `exceptions.py`, which is not part of this model. A failed request carries only its message text.
- `ENDPOINT`, `HEADERS` and the `from_date` parameter belong to the HTTP request and are left out with it.
- JSON booleans and floating-point numbers are not in `Json.Value`.
- Python's own error texts ("argument of type '...' is not iterable", "unhashable type: '...'", "'...' object has no attribute 'get'", "... object is not subscriptable", "list index out of range") are those of CPython 3 up to version 3.13. Another interpreter or a later version may word some of them differently.
- Json.Show: a homework name that is a list or an object prints as `[...]` or `{...}`, not as Python's `repr`. A map keeps no insertion order to print by.
- In `Errors.Text`, a KeyError's argument is put in single quotes without escaping. This matches Python's `repr` for the fixed messages the code raises, none of which contains a quote or a backslash.

## Findings

| source | as written | input that shows it | evidently intended | confidence | as-written member | corrected member |
|---|---|---|---|---|---|---|
| homework.py:127 | `message = last_message` assigns to the local variable, so a sent diagnostic is never recorded | two consecutive cycles whose first request fails with the same message, starting from a state whose last message differs from the diagnostic: the diagnostic is sent twice; and after any run from the start, every failing cycle sends its diagnostic | `last_message = message`, so that a repeated identical failure is suppressed | high; not executed | PollLoop.RepeatedFailureResent | CorrectedLoop.IntendedRepeatedFailureOnce |

`PollLoop` models the loop as written; `PollLoop.FailureAlwaysSentFromInit`
extends the two-cycle counterexample to any history. The corrected cycle is
`CorrectedLoop.StepIntended`. For it, `CorrectedLoop.IntendedNeverRepeats`
proves that no message, diagnostics included, is ever sent twice in a row.
