/** The decision functions of the bot: the configuration check, the response
    validator and the status interpreter with its verdict table
    (homework.py:33-95). All of them are pure; the poll loop that calls them
    is in module PollLoop. */
module Homework {
  import opened Json
  import opened Errors

  /** The verdict shown for each review status the API reports. */
  const Verdicts: map<string, string> := map[
    "approved" := "Работа проверена: ревьюеру всё понравилось. Ура!",
    "reviewing" := "Работа взята на проверку ревьюером.",
    "rejected" := "Работа проверена: у ревьюера есть замечания."
  ]

  /** The verdict table: exactly the three statuses, each with its own text. */
  lemma VerdictTable()
    ensures Verdicts.Keys == {"approved", "reviewing", "rejected"}
    ensures Verdicts["approved"] != Verdicts["reviewing"]
    ensures Verdicts["approved"] != Verdicts["rejected"]
    ensures Verdicts["reviewing"] != Verdicts["rejected"]
  {
    assert |Verdicts["approved"]| != |Verdicts["reviewing"]|;
    assert Verdicts["reviewing"][|Verdicts["reviewing"]| - 2] != Verdicts["rejected"][|Verdicts["rejected"]| - 2];
  }

  /** Homeworks that are not dicts: an empty list and a string without
      "status" fail the first check, a list holding only "status" the second,
      and a list holding both keys reaches `.get`. */
  lemma NonDictHomeworks()
    ensures ParseStatus(Arr([])) == Err(KeyError("Нет нового статуса"))
    ensures ParseStatus(Str("x")) == Err(KeyError("Нет нового статуса"))
    ensures ParseStatus(Arr([Str("status")])) == Err(KeyError("Нет ключа домашки"))
    ensures ParseStatus(Arr([Str("homework_name"), Str("status")])) == Err(NoGet(Arr([Str("homework_name"), Str("status")])))
  {
  }

  /** Every notification about a status begins with this text. */
  const StatusPrefix: string := "Изменился статус проверки работы \""

  predicate IsStatusMessage(m: string) {
    |StatusPrefix| <= |m| && m[..|StatusPrefix|] == StatusPrefix
  }

  // ---------------------------------------------------------------------------
  // check_tokens

  datatype Option<T> = None | Some(value: T)

  /** The three environment variables as `os.getenv` returns them: absent, or
      a string that may be empty. */
  datatype Config = Config(
    practicumToken: Option<string>,
    telegramToken: Option<string>,
    telegramChat: Option<string>)

  /** Python truthiness of what `os.getenv` returns. */
  predicate Given(v: Option<string>) {
    match v
    case None => false
    case Some(s) => s != ""
  }

  /** `all((PRACTICUM_TOKEN, TELEGRAM_TOKEN, TELEGRAM_CHAT_ID))`. */
  function CheckTokens(config: Config): (ok: bool)
    ensures ok <==>
      && config.practicumToken.Some? && config.practicumToken.value != ""
      && config.telegramToken.Some? && config.telegramToken.value != ""
      && config.telegramChat.Some? && config.telegramChat.value != ""
  {
    Given(config.practicumToken) && Given(config.telegramToken) && Given(config.telegramChat)
  }

  // ---------------------------------------------------------------------------
  // check_response

  /** Validates the shape of an API answer. Like the Python function, which
      has no `return`, it yields `None` (here `Null`) when the shape is right. */
  function CheckResponse(response: Value): (r: Result<Value>)
    ensures r.Ok? <==> response.Obj? && "homeworks" in response.fields && response.fields["homeworks"].Arr?
    ensures r.Ok? ==> r.value == Null
    ensures !response.Obj? ==> r == Err(TypeError("Ответ API не является словарем"))
    ensures response.Obj? && "homeworks" !in response.fields ==> r == Err(KeyError("Нет ключа homeworks"))
    ensures response.Obj? && "homeworks" in response.fields && !response.fields["homeworks"].Arr? ==>
      r == Err(TypeError("homeworks не является списком"))
  {
    if !response.Obj? then
      Err(TypeError("Ответ API не является словарем"))
    else if "homeworks" !in response.fields then
      Err(KeyError("Нет ключа homeworks"))
    else if !response.fields["homeworks"].Arr? then
      Err(TypeError("homeworks не является списком"))
    else
      Ok(Null)
  }

  // ---------------------------------------------------------------------------
  // parse_status

  /** A homework the interpreter accepts: a dict with both keys whose status
      is one of the verdict table's keys. */
  predicate IsKnownRecord(homework: Value) {
    && homework.Obj?
    && "status" in homework.fields
    && "homework_name" in homework.fields
    && homework.fields["status"].Str?
    && homework.fields["status"].s in Verdicts
  }

  /** Turns one homework of the API answer into the notification text.
      `homework` is whatever the answer's list held, so values that are not
      dicts fail the way Python's `in` and `.get` fail on them. */
  function ParseStatus(homework: Value): (r: Result<string>)
    ensures r.Ok? <==> IsKnownRecord(homework)
    ensures r.Ok? ==>
      r.value == StatusPrefix + Show(homework.fields["homework_name"]) + "\". "
                 + Verdicts[homework.fields["status"].s]
    ensures r.Ok? ==> IsStatusMessage(r.value)
    // the checks come in this order: status, then name, then the status value
    ensures homework.Obj? && "status" !in homework.fields ==> r == Err(KeyError("Нет нового статуса"))
    ensures homework.Obj? && "status" in homework.fields && "homework_name" !in homework.fields ==>
      r == Err(KeyError("Нет ключа домашки"))
    ensures homework.Obj? && "status" in homework.fields && "homework_name" in homework.fields ==>
      var status := homework.fields["status"];
      && (status.Arr? || status.Obj? ==> r == Err(TypeError("unhashable type: '" + TypeName(status) + "'")))
      && (!status.Arr? && !status.Obj? && !(status.Str? && status.s in Verdicts) ==>
            r == Err(KeyError("Нет такого статуса домашки.")))
    // a list or a string is searched with `in`, then `.get` fails on it
    ensures homework.Arr? || homework.Str? ==>
      r == if !Contains(homework, "status") then Err(KeyError("Нет нового статуса"))
           else if !Contains(homework, "homework_name") then Err(KeyError("Нет ключа домашки"))
           else Err(NoGet(homework))
    ensures !Iterable(homework) ==>
      r == Err(TypeError("argument of type '" + TypeName(homework) + "' is not iterable"))
  {
    if !Iterable(homework) then
      Err(TypeError("argument of type '" + TypeName(homework) + "' is not iterable"))
    else if !Contains(homework, "status") then
      Err(KeyError("Нет нового статуса"))
    else if !Contains(homework, "homework_name") then
      Err(KeyError("Нет ключа домашки"))
    else if !homework.Obj? then
      Err(NoGet(homework))
    else
      var name := homework.fields["homework_name"];
      var status := homework.fields["status"];
      if status.Arr? || status.Obj? then
        Err(TypeError("unhashable type: '" + TypeName(status) + "'"))
      else if !(status.Str? && status.s in Verdicts) then
        Err(KeyError("Нет такого статуса домашки."))
      else
        var message := StatusPrefix + Show(name) + "\". " + Verdicts[status.s];
        assert message[..|StatusPrefix|] == StatusPrefix;
        Ok(message)
  }

  /** The verdict a notification ends with, read off its last two characters
      (the three verdicts end in "!", "м." and "я."). */
  function VerdictOfEnding(m: string): string
    requires |m| >= 2
  {
    if m[|m| - 1] == '!' then Verdicts["approved"]
    else if m[|m| - 2] == 'м' then Verdicts["reviewing"]
    else Verdicts["rejected"]
  }

  lemma EndingDeterminesVerdict(a: string, status: string)
    requires status in Verdicts
    ensures |a + Verdicts[status]| >= 2 && VerdictOfEnding(a + Verdicts[status]) == Verdicts[status]
  {
    var v := Verdicts[status];
    var m := a + v;
    assert m[|m| - 1] == v[|v| - 1] && m[|m| - 2] == v[|v| - 2];
  }

  /** Two accepted homeworks give the same notification exactly when they have
      the same status and their names print the same. So the poll loop's
      "message differs from the last one" test means "status or name changed". */
  lemma MessageDeterminesRecord(h1: Value, h2: Value)
    requires IsKnownRecord(h1) && IsKnownRecord(h2)
    ensures ParseStatus(h1) == ParseStatus(h2) <==>
      h1.fields["status"] == h2.fields["status"]
      && Show(h1.fields["homework_name"]) == Show(h2.fields["homework_name"])
  {
    var n1, n2 := Show(h1.fields["homework_name"]), Show(h2.fields["homework_name"]);
    var s1, s2 := h1.fields["status"].s, h2.fields["status"].s;
    var a1, a2 := StatusPrefix + n1 + "\". ", StatusPrefix + n2 + "\". ";
    if ParseStatus(h1) == ParseStatus(h2) {
      var m := ParseStatus(h1).value;
      assert m == a1 + Verdicts[s1] && m == a2 + Verdicts[s2];
      EndingDeterminesVerdict(a1, s1);
      EndingDeterminesVerdict(a2, s2);
      var v := Verdicts[s1];
      assert Verdicts[s2] == v;
      assert s1 == s2;
      assert a1 == m[..|m| - |v|] == a2;
      assert n1 == a1[|StatusPrefix|..|a1| - 3];
      assert n2 == a2[|StatusPrefix|..|a2| - 3];
    }
  }

  // ---------------------------------------------------------------------------
  // The record as a string-to-string map

  /** A homework whose fields are all strings. */
  function Record(m: map<string, string>): (v: Value)
    ensures v.Obj? && v.fields.Keys == m.Keys
    ensures forall k :: k in m ==> v.fields[k] == Str(m[k])
  {
    Obj(map k | k in m :: Str(m[k]))
  }

  /** parse_status on a string record: the message for a known status, and
      otherwise the first failing check among "status present", "name
      present", "status known". */
  lemma ParseRecord(m: map<string, string>)
    ensures "status" !in m ==> ParseStatus(Record(m)) == Err(KeyError("Нет нового статуса"))
    ensures "status" in m && "homework_name" !in m ==>
      ParseStatus(Record(m)) == Err(KeyError("Нет ключа домашки"))
    ensures "status" in m && "homework_name" in m && m["status"] !in Verdicts ==>
      ParseStatus(Record(m)) == Err(KeyError("Нет такого статуса домашки."))
    ensures "status" in m && "homework_name" in m && m["status"] in Verdicts ==>
      ParseStatus(Record(m)) ==
        Ok("Изменился статус проверки работы \"" + m["homework_name"] + "\". " + Verdicts[m["status"]])
  {
    var v := Record(m);
    if "status" in m && "homework_name" in m {
      assert v.fields["status"] == Str(m["status"]);
      assert v.fields["homework_name"] == Str(m["homework_name"]);
    }
  }

  /** Three answers: one with an empty list is accepted, one whose list is a
      string or that has no list is not. */
  lemma CheckResponseExamples()
    ensures CheckResponse(Obj(map["homeworks" := Arr([]), "current_date" := Int(100)])) == Ok(Null)
    ensures CheckResponse(Obj(map["homeworks" := Str("x")])) == Err(TypeError("homeworks не является списком"))
    ensures CheckResponse(Obj(map[])) == Err(KeyError("Нет ключа homeworks"))
  {
  }
}
