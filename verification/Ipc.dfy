/** The messages of `Ipc` (c_binding/lsm_ipc.cpp) and how the client reads a reply. */
module Ipc {
  import opened Wrappers
  import opened Jsmn
  import opened JsonValue
  import opened JsonPayload
  import opened JsonStandard
  import N = Numbers

  const ERR_OK := 0
  const ERR_JOB_STARTED := 7
  const ERR_NO_SUPPORT := 153

  // ----- accessors of Value

  function Find(ms: seq<Member>, key: string): (r: Option<Value>)
    ensures r.Some? <==> exists m | m in ms :: m.key == key
    ensures r.Some? ==> Member(key, r.value) in ms
  {
    if ms == [] then None
    else if ms[0].key == key then Some(ms[0].value)
    else Find(ms[1..], key)
  }

  predicate HasKey(v: Value, key: string) {
    v.Obj? && Find(v.members, key).Some?
  }

  /** `getValue`, and `operator[]` on a copy: an absent key gives null. */
  function GetValue(v: Value, key: string): Value {
    if HasKey(v, key) then Find(v.members, key).value else Null
  }

  predicate IsValidRequest(v: Value) {
    HasKey(v, "method") && HasKey(v, "id") && HasKey(v, "params")
  }

  /** A request is an object with a method, an id and parameters. */
  lemma ValidRequestIff(v: Value)
    ensures IsValidRequest(v) <==>
            && v.Obj? && (exists m | m in v.members :: m.key == "method")
            && (exists m | m in v.members :: m.key == "id")
            && (exists m | m in v.members :: m.key == "params")
  {
    hide Find;
  }

  /** None stands for the ValueException. */
  function AsString(v: Value): Option<string> {
    match v
    case Str(s) => Some(s)
    case Null => Some("")
    case _ => None
  }

  function AsInt32(v: Value): Option<int> {
    if v.Num? then N.Scan(v.text) else None
  }

  // ----- the messages

  function Number(n: int): Value {
    Num(N.DecimalInt(n))
  }

  /** What `requestSend` sends. */
  function Request(method_: string, params: Value, id: int): Value {
    Obj([Member("id", Number(id)), Member("method", Str(method_)), Member("params", params)])
  }

  /** What `responseSend` sends. */
  function Response(result: Value, id: int): Value {
    Obj([Member("id", Number(id)), Member("result", result)])
  }

  /** What `errorSend` sends. */
  function ErrorReply(code: int, message: string, debug: string, id: int): Value {
    Obj([Member("error", ErrorData(code, message, debug)), Member("id", Number(id))])
  }

  /** How `rpc` ends: a value, an LsmException, a ValueException or an EOFException. */
  datatype Answer =
    | Result(value: Value)
    | LsmError(code: int, message: string, debug: string)
    | ValueError
    | EofError

  /** `responseRead` on a received message. */
  function ResponseRead(msg: string): Answer {
    match Deserialize(msg)
    case None => ValueError
    case Some(r) =>
      if HasKey(r, "result") then Result(GetValue(r, "result"))
      else
        var error := GetValue(r, "error");
        if !error.Obj? then ValueError
        else
          match (AsString(GetValue(error, "message")), AsString(GetValue(error, "data")),
                  AsInt32(GetValue(error, "code")))
          case (Some(message), Some(data), Some(code)) => LsmError(code, message, data)
          case _ => ValueError
  }

  // ----- the messages are well formed

  predicate Plain(s: string) {
    forall i | 0 <= i < |s| :: s[i] != '\"' && s[i] != '\\' && s[i] != '\0'
  }

  lemma {:induction false} PlainUnits(s: string)
    requires Plain(s)
    ensures Units(s)
  {
    if s != [] {
      PlainUnits(s[1..]);
    }
  }

  lemma NumberWellFormed(n: int)
    ensures WellFormed(Number(n))
  {
    hide N.Decimal;
    var d := N.Decimal(if n < 0 then -n else n);
    var s := if n < 0 then "-" + d else d;
    assert s == N.DecimalInt(n);
    assert forall i | 0 <= i < |s| :: s[i] == '-' || N.IsDigit(s[i]);
  }

  lemma RequestWellFormed(method_: string, params: Value, id: int)
    requires Units(method_) && WellFormed(params)
    ensures WellFormed(Request(method_, params, id))
  {
    hide Units, Number;
    NumberWellFormed(id);
    PlainUnits("id");
    PlainUnits("method");
    PlainUnits("params");
  }

  lemma ResponseWellFormed(result: Value, id: int)
    requires WellFormed(result)
    ensures WellFormed(Response(result, id))
  {
    hide Units, Number;
    NumberWellFormed(id);
    PlainUnits("id");
    PlainUnits("result");
  }

  /** The value of the `error` key. */
  function ErrorData(code: int, message: string, debug: string): Value {
    Obj([Member("code", Number(code)), Member("data", Str(debug)), Member("message", Str(message))])
  }

  lemma ErrorDataWellFormed(code: int, message: string, debug: string)
    requires Units(message) && Units(debug)
    ensures WellFormed(ErrorData(code, message, debug))
  {
    hide Units, Number;
    NumberWellFormed(code);
    PlainUnits("code");
    PlainUnits("data");
    PlainUnits("message");
  }

  lemma ErrorReplyWellFormed(code: int, message: string, debug: string, id: int)
    requires Units(message) && Units(debug)
    ensures WellFormed(ErrorReply(code, message, debug, id))
  {
    hide Units, Number, ErrorData;
    NumberWellFormed(id);
    ErrorDataWellFormed(code, message, debug);
    PlainUnits("error");
    PlainUnits("id");
  }

  // ----- what the client makes of a reply

  lemma ResponseReadBack(result: Value, id: int)
    requires WellFormed(result)
    ensures ResponseRead(Serialize(Response(result, id))) == Result(result)
  {
    hide WellFormed, Serialize, Deserialize;
    ResponseWellFormed(result, id);
    SerializedReadsBack(Response(result, id));
  }

  lemma ErrorReplyReadBack(code: int, message: string, debug: string, id: int)
    requires Units(message) && Units(debug)
    ensures ResponseRead(Serialize(ErrorReply(code, message, debug, id))) == LsmError(code, message, debug)
  {
    hide WellFormed, Serialize, Deserialize, Units, N.Scan, N.DecimalInt;
    var e := ErrorReply(code, message, debug, id);
    ErrorReplyWellFormed(code, message, debug, id);
    SerializedReadsBack(e);
    N.ScanDecimalInt(code);
    assert GetValue(e, "error") == e.members[0].value;
    var inner := e.members[0].value;
    assert GetValue(inner, "message") == Str(message);
    assert GetValue(inner, "data") == Str(debug);
    assert GetValue(inner, "code") == Number(code);
  }
  /** A reply whose error has no message and no data is read with empty ones; one that is no
      JSON, or has neither a result nor an error, gives a ValueException. */
  lemma OtherReplies(code: int, id: int, msg: string)
    ensures var e := Obj([Member("error", Obj([Member("code", Number(code))]))]);
            ResponseRead(Serialize(e)) == LsmError(code, "", "")
    ensures ResponseRead(Serialize(Obj([Member("id", Number(id))]))) == ValueError
    ensures Deserialize(msg) == None ==> ResponseRead(msg) == ValueError
  {
    hide Serialize, Deserialize, Units, N.Scan, N.DecimalInt, WellFormed;
    var inner := Obj([Member("code", Number(code))]);
    OneMember("code", Number(code));
    OneMember("id", Number(id));
    NumberWellFormed(code);
    NumberWellFormed(id);
    PlainUnits("code");
    PlainUnits("id");
    PlainUnits("error");
    OneMember("error", inner);
    SerializedReadsBack(Obj([Member("error", inner)]));
    SerializedReadsBack(Obj([Member("id", Number(id))]));
    N.ScanDecimalInt(code);
    assert GetValue(Obj([Member("error", inner)]), "error") == inner;
    assert GetValue(inner, "code") == Number(code);
  }

  /** A reply with a result is read as that result, whatever else it holds. */
  lemma ResultWins(v: Value, m: Member)
    requires WellFormed(v) && v.Obj? && m in v.members && m.key == "result"
    ensures exists w :: ResponseRead(Serialize(v)) == Result(w) && Member("result", w) in v.members
  {
    hide Serialize, Deserialize, WellFormed;
    SerializedReadsBack(v);
    var w := Find(v.members, "result").value;
    assert Member("result", w) in v.members;
    assert ResponseRead(Serialize(v)) == Result(w);
  }

  lemma OneMember(key: string, value: Value)
    ensures Units(key) && WellFormed(value) ==> WellFormed(Obj([Member(key, value)]))
  {
    hide Units;
  }

  // ----- the messages as texts

  lemma KeyWritten(key: string, text: string)
    requires text == "\"" + key + "\": "
    ensures SerializeKey(key) == text
  {
  }

  lemma {:induction false} MembersWritten(m: Member, ms: seq<Member>)
    ensures SerializeMembers([m] + ms) ==
            SerializeKey(m.key) + (Serialize(m.value) + if ms == [] then "}" else ", " + SerializeMembers(ms))
  {
    hide Serialize, SerializeKey;
    assert ([m] + ms)[1..] == ms;
  }

  /** The text of a request. */
  lemma RequestWritten(method_: string, params: Value, id: int)
    ensures Serialize(Request(method_, params, id)) ==
            "{" + ("\"id\": " + (N.DecimalInt(id) + (", " + ("\"method\": " + (("\"" + method_ + "\"") + (", " +
            ("\"params\": " + (Serialize(params) + "}"))))))))
  {
    var a, b, c := Member("id", Number(id)), Member("method", Str(method_)), Member("params", params);
    assert [a, b, c] == [a] + ([b] + ([c] + []));
    MembersWritten(a, [b] + ([c] + []));
    MembersWritten(b, [c] + []);
    MembersWritten(c, []);
    hide SerializeMembers, SerializeKey, N.DecimalInt;
    KeyWritten("id", "\"id\": ");
    KeyWritten("method", "\"method\": ");
    KeyWritten("params", "\"params\": ");
  }

  /** The text of a response. */
  lemma ResponseWritten(result: Value, id: int)
    ensures Serialize(Response(result, id)) ==
            "{" + ("\"id\": " + (N.DecimalInt(id) + (", " + ("\"result\": " + (Serialize(result) + "}")))))
  {
    var a, b := Member("id", Number(id)), Member("result", result);
    assert [a, b] == [a] + ([b] + []);
    MembersWritten(a, [b] + []);
    MembersWritten(b, []);
    hide SerializeMembers, SerializeKey, N.DecimalInt;
    KeyWritten("id", "\"id\": ");
    KeyWritten("result", "\"result\": ");
  }

  lemma ErrorDataWritten(code: int, message: string, debug: string)
    ensures Serialize(ErrorData(code, message, debug)) ==
            "{" + ("\"code\": " + (N.DecimalInt(code) + (", " + ("\"data\": " + (("\"" + debug + "\"") + (", " +
            ("\"message\": " + (("\"" + message + "\"") + "}"))))))))
  {
    var a, b, c := Member("code", Number(code)), Member("data", Str(debug)), Member("message", Str(message));
    assert [a, b, c] == [a] + ([b] + ([c] + []));
    MembersWritten(a, [b] + ([c] + []));
    MembersWritten(b, [c] + []);
    MembersWritten(c, []);
    hide SerializeMembers, SerializeKey, N.DecimalInt;
    KeyWritten("code", "\"code\": ");
    KeyWritten("data", "\"data\": ");
    KeyWritten("message", "\"message\": ");
  }

  /** The text of an error reply. */
  lemma ErrorReplyWritten(code: int, message: string, debug: string, id: int)
    ensures Serialize(ErrorReply(code, message, debug, id)) ==
            "{" + ("\"error\": " + (Serialize(ErrorData(code, message, debug)) + (", " + ("\"id\": " +
            (N.DecimalInt(id) + "}")))))
  {
    hide ErrorData;
    var a, b := Member("error", ErrorData(code, message, debug)), Member("id", Number(id));
    assert [a, b] == [a] + ([b] + []);
    MembersWritten(a, [b] + []);
    MembersWritten(b, []);
    hide SerializeMembers, SerializeKey, N.DecimalInt;
    KeyWritten("error", "\"error\": ");
    KeyWritten("id", "\"id\": ");
  }

  // ----- the messages are JSON texts

  lemma {:induction false} LettersJString(s: string)
    requires forall i | 0 <= i < |s| :: 'a' <= s[i] <= 'z'
    ensures JString(s)
  {
    if s != [] {
      LettersJString(s[1..]);
    }
  }

  lemma StandardObject(ms: seq<Member>)
    requires WellFormed(Obj(ms)) && forall m | m in ms :: JString(m.key) && Standard(m.value)
    ensures Standard(Obj(ms))
  {
    hide Units, Sorted;
  }

  lemma StandardString(s: string)
    requires JString(s)
    ensures Standard(Str(s))
  {
  }

  lemma StandardNumber(n: int)
    ensures Standard(Number(n))
  {
    hide JNumber, N.DecimalInt;
    IntegersAreNumbers(n);
  }

  /** Requests, responses and error replies whose parts are standard are JSON texts of the
      messages. */
  lemma MessagesAreJson(method_: string, params: Value, code: int, message: string, debug: string, id: int)
    requires JString(method_) && Standard(params) && JString(message) && JString(debug)
    ensures var v := Request(method_, params, id); Json(Serialize(v), v)
    ensures var v := Response(params, id); Json(Serialize(v), v)
    ensures var v := ErrorReply(code, message, debug, id); Json(Serialize(v), v)
  {
    hide *;
    RequestStandard(method_, params, id);
    ResponseStandard(params, id);
    ErrorReplyStandard(code, message, debug, id);
    PrintedIsJson(Request(method_, params, id));
    PrintedIsJson(Response(params, id));
    PrintedIsJson(ErrorReply(code, message, debug, id));
  }

  lemma RequestStandard(method_: string, params: Value, id: int)
    requires JString(method_) && Standard(params)
    ensures Standard(Request(method_, params, id))
  {
    hide Units, WellFormed, Number, Standard, JString;
    StringsRead(method_);
    StandardRead(params);
    RequestWellFormed(method_, params, id);
    StandardNumber(id);
    StandardString(method_);
    LettersJString("id");
    LettersJString("method");
    LettersJString("params");
    StandardObject(Request(method_, params, id).members);
  }

  lemma ResponseStandard(result: Value, id: int)
    requires Standard(result)
    ensures Standard(Response(result, id))
  {
    hide Units, WellFormed, Number, Standard, JString;
    StandardRead(result);
    ResponseWellFormed(result, id);
    StandardNumber(id);
    LettersJString("id");
    LettersJString("result");
    StandardObject(Response(result, id).members);
  }

  lemma ErrorDataStandard(code: int, message: string, debug: string)
    requires JString(message) && JString(debug)
    ensures Standard(ErrorData(code, message, debug))
  {
    hide Units, WellFormed, Number, Standard, JString;
    StringsRead(message);
    StringsRead(debug);
    ErrorDataWellFormed(code, message, debug);
    StandardNumber(code);
    StandardString(message);
    StandardString(debug);
    LettersJString("code");
    LettersJString("data");
    LettersJString("message");
    StandardObject(ErrorData(code, message, debug).members);
  }

  lemma ErrorReplyStandard(code: int, message: string, debug: string, id: int)
    requires JString(message) && JString(debug)
    ensures Standard(ErrorReply(code, message, debug, id))
  {
    hide Units, WellFormed, Number, Standard, JString, ErrorData;
    StringsRead(message);
    StringsRead(debug);
    ErrorReplyWellFormed(code, message, debug, id);
    ErrorDataStandard(code, message, debug);
    StandardNumber(id);
    LettersJString("error");
    LettersJString("id");
    StandardObject(ErrorReply(code, message, debug, id).members);
  }
}
