/** Client and plug-in as two parties that step over two byte streams: the client's `rpc`
    (c_binding/lsm_ipc.cpp) against the serving loop (c_binding/lsm_plugin_ipc.cpp), with
    every send and receive moving an arbitrary number of bytes. */
module Rpc {
  import opened Wrappers
  import opened Transport
  import opened Jsmn
  import opened JsonValue
  import opened JsonPayload
  import opened Ipc
  import opened PluginLoop
  import N = Numbers

  // ----- receiving in pieces

  /** How many bytes the receive loops still ask for, given what has arrived of a frame:
      first the header, then the payload it announces. */
  function Want(got: string): nat {
    if |got| < HDR_LEN then HDR_LEN - |got|
    else
      var n := PayloadLength(got[..HDR_LEN]);
      if n < MAX_PAYLOAD && |got| - HDR_LEN < n then n - (|got| - HDR_LEN) else 0
  }

  function Payload(got: string): string {
    if |got| >= HDR_LEN && PayloadLength(got[..HDR_LEN]) < MAX_PAYLOAD then got[HDR_LEN..] else ""
  }

  /** A prefix of a frame is complete exactly when it is the whole frame. */
  lemma FramePrefix(msg: string, got: string, rest: string)
    requires |msg| < MAX_PAYLOAD && got + rest == Frame(msg)
    ensures Want(got) == 0 <==> rest == ""
    ensures Want(got) <= |rest|
    ensures rest == "" ==> Payload(got) == msg
  {
    hide N.Scan, N.ZeroPad;
    N.PaddedHeader(|msg|);
    var header := N.ZeroPad(HDR_LEN, |msg|);
    assert Frame(msg) == header + msg;
    if |got| >= HDR_LEN {
      assert got[..HDR_LEN] == Frame(msg)[..HDR_LEN] == header;
      assert Frame(msg)[HDR_LEN..] == msg;
    }
    if rest == "" {
      assert got == Frame(msg);
    }
  }

  /** On any stream whatever, receiving in pieces takes exactly the bytes that the message
      takes in one go: short of them more is wanted, but never more than that, and with all
      of them the message is complete. */
  lemma PiecesAreWhole(wire: string, n: nat)
    requires Receive(wire).Message? && n <= |wire| - |Receive(wire).rest|
    ensures var taken := |wire| - |Receive(wire).rest|;
            && Want(wire[..n]) <= taken - n
            && (Want(wire[..n]) == 0 <==> n == taken)
            && (n == taken ==> Payload(wire[..n]) == Receive(wire).msg)
  {
    hide N.Scan;
    if n >= HDR_LEN {
      assert wire[..n][..HDR_LEN] == wire[..HDR_LEN];
      assert wire[..n][HDR_LEN..] == wire[HDR_LEN..][..n - HDR_LEN];
    }
  }

  // ----- the two parties

  /** The client is `Lost` once a send failed on an open connection, part of a frame being
      out: the calls after that are not part of this model. */
  datatype Client = Idle | Sending(unsent: string) | Waiting(got: string) | Lost(unsent: string)

  /** The plug-in is `Stopped` when its loop has ended and `Closed` once `lsm_plugin_free`
      has closed the connection. */
  datatype Server = Reading(got: string) | Handling(msg: string) | Replying(unsent: string) | Stopped | Closed

  /** `c2p` and `p2c` hold the bytes under way; `results` is how each `rpc` so far ended. */
  datatype Sys = Sys(client: Client, server: Server, c2p: string, p2c: string, world: World, results: seq<Answer>)

  /** `Handle(part)`: if the reply cannot be sent, its first `part` bytes still go out. */
  datatype Event =
    | NextCall
    | ClientSend(n: nat)
    | ClientSendFails(errno: int)
    | ServerRecv(n: nat)
    | Handle(part: nat)
    | ServerSend(n: nat)
    | Close
    | ClientRecv(n: nat)
    | ClientEof

  /** The calls that the client makes, one after the other. */
  datatype Job = Job(method_: string, params: Value, id: int)

  const START := Sys(Idle, Reading(""), "", "", World("", NO_ERRORS, [], 0, 0, Running), [])

  const ERR_TRANSPORT := 400

  /** The exception of `requestSend` when the message cannot be sent. */
  function SendFailed(errno: int): Answer {
    LsmError(ERR_TRANSPORT, "Error sending message: errno " + N.DecimalInt(errno), "")
  }

  /** The serving loop between two messages. */
  function Resting(w: World): Server {
    if w.stop == Running then Reading("") else Stopped
  }

  function RequestText(job: Job): string {
    Serialize(Request(job.method_, job.params, job.id))
  }

  /** The frame that the plug-in tries to send for a message, empty if its handler raises. */
  function Attempt(env: Env, w: World, msg: string): string {
    var r, k := HandleMessage(env.(sends := (_: nat) => true), w, msg), |w.exchanges|;
    if |r.exchanges| == k + 1 && r.exchanges[k].reply.Some? then Frame(Serialize(r.exchanges[k].reply.value)) else ""
  }

  /** What goes out for a message: the frame, or a part of it when the send fails. */
  function Output(env: Env, w: World, msg: string, part: nat): string {
    var r, k, frame := HandleMessage(env, w, msg), |w.exchanges|, Attempt(env, w, msg);
    if |r.exchanges| == k + 1 && r.exchanges[k].reply.Some? then frame
    else if part < |frame| then frame[..part]
    else ""
  }

  predicate Enabled(env: Env, jobs: seq<Job>, s: Sys, ev: Event) {
    match ev
    case NextCall => s.client == Idle && |s.results| < |jobs|
    case ClientSend(n) => s.client.Sending? && s.server != Closed && 1 <= n <= |s.client.unsent|
    case ClientSendFails(_) => s.client.Sending?
    case ServerRecv(n) => s.server.Reading? && 1 <= n <= |s.c2p| && n <= BUFFER && n <= Want(s.server.got)
    case Handle(_) => s.server.Handling?
    case ServerSend(n) => s.server.Replying? && 1 <= n <= |s.server.unsent|
    case Close => s.server == Stopped
    case ClientRecv(n) => s.client.Waiting? && 1 <= n <= |s.p2c| && n <= BUFFER && n <= Want(s.client.got)
    case ClientEof => s.client.Waiting? && s.server == Closed && s.p2c == ""
  }

  function Step(env: Env, jobs: seq<Job>, s: Sys, ev: Event): Sys
    requires Enabled(env, jobs, s, ev)
  {
    match ev
    case NextCall => s.(client := Sending(Frame(RequestText(jobs[|s.results|]))))
    case ClientSend(n) =>
      var u := s.client.unsent[n..];
      s.(client := if u == "" then Waiting("") else Sending(u), c2p := s.c2p + s.client.unsent[..n])
    case ClientSendFails(errno) =>
      s.(client := if s.server == Closed then Idle else Client.Lost(s.client.unsent),
         results := s.results + [SendFailed(errno)])
    case ServerRecv(n) =>
      var got := s.server.got + s.c2p[..n];
      s.(server := if Want(got) == 0 then Handling(Payload(got)) else Reading(got), c2p := s.c2p[n..])
    case Handle(part) =>
      var out := Output(env, s.world, s.server.msg, part);
      s.(world := HandleMessage(env, s.world, s.server.msg), server := if out == "" then Stopped else Replying(out))
    case ServerSend(n) =>
      var u := s.server.unsent[n..];
      s.(server := if u == "" then Resting(s.world) else Replying(u), p2c := s.p2c + s.server.unsent[..n])
    case Close => s.(server := Closed)
    case ClientRecv(n) =>
      var got := s.client.got + s.p2c[..n];
      if Want(got) == 0
      then s.(client := Idle, p2c := s.p2c[n..], results := s.results + [ResponseRead(Payload(got))])
      else s.(client := Waiting(got), p2c := s.p2c[n..])
    case ClientEof => s.(client := Idle, results := s.results + [EofError])
  }

  /** The state after a sequence of events, None when one of them could not happen. */
  function Exec(env: Env, jobs: seq<Job>, evs: seq<Event>): Option<Sys> {
    if evs == [] then Some(START)
    else
      var s := Exec(env, jobs, evs[..|evs| - 1]);
      if s.Some? && Enabled(env, jobs, s.value, evs[|evs| - 1])
      then Some(Step(env, jobs, s.value, evs[|evs| - 1])) else None
  }

  // ----- what each call should give

  function CallOf(env: Env, jobs: seq<Job>, n: nat): Call
    requires n < |jobs|
  {
    ProcessRequest(env, n, jobs[n].method_, jobs[n].params)
  }

  /** Call `n`, if it is served, gets its reply. */
  predicate Answered(env: Env, jobs: seq<Job>, n: nat)
    requires n < |jobs|
  {
    CallOf(env, jobs, n).end.Returns? && env.sends(n)
  }

  /** The plug-in goes on after call `n`. */
  predicate GoesOn(env: Env, jobs: seq<Job>, n: nat)
    requires n < |jobs|
  {
    Answered(env, jobs, n) && jobs[n].method_ != UNREGISTER
  }

  /** The plug-in is still there after `n` calls. */
  predicate Alive(env: Env, jobs: seq<Job>, n: nat)
    requires n <= |jobs|
  {
    n == 0 || (Alive(env, jobs, n - 1) && GoesOn(env, jobs, n - 1))
  }

  /** The error records when the handler of call `n` has ended. */
  function Logged(env: Env, jobs: seq<Job>, n: nat): Errors
    requires n < |jobs|
    decreases n, 1
  {
    LogAll(ErrorsAfter(env, jobs, n), CallOf(env, jobs, n).logged)
  }

  /** The error records when the first `n` calls have been answered. */
  function ErrorsAfter(env: Env, jobs: seq<Job>, n: nat): Errors
    requires n <= |jobs|
    decreases n, 0
  {
    if n == 0 then NO_ERRORS
    else
      var e := Logged(env, jobs, n - 1);
      var end := CallOf(env, jobs, n - 1).end;
      if end.Raises? || Succeeded(end.rc) then e else FreePending(e)
  }

  /** LSM_ERR_OK or LSM_ERR_JOB_STARTED. */
  predicate GoodCode(rc: int) {
    rc == 0 || rc == 7
  }

  /** The record that calls before `n` have left behind: the last one logged since the
      latest of them that failed. */
  function LeftBefore(env: Env, jobs: seq<Job>, n: nat): Option<ErrorRecord>
    requires n <= |jobs|
  {
    if n == 0 then None
    else
      var c := CallOf(env, jobs, n - 1);
      if c.end.Returns? && !GoodCode(c.end.rc) then None
      else if c.logged != [] then Some(c.logged[|c.logged| - 1])
      else LeftBefore(env, jobs, n - 1)
  }

  /** The error of call `n`: the last record it logged, else one left behind. */
  function ErrorOf(env: Env, jobs: seq<Job>, n: nat): Option<ErrorRecord>
    requires n < |jobs|
  {
    var c := CallOf(env, jobs, n);
    if c.logged != [] then Some(c.logged[|c.logged| - 1]) else LeftBefore(env, jobs, n)
  }

  /** The handler's value when its code is OK or JOB_STARTED; otherwise an exception with
      its error if there is one, else with the handler's code. */
  function Expected(env: Env, jobs: seq<Job>, n: nat): Answer
    requires n < |jobs| && CallOf(env, jobs, n).end.Returns?
  {
    var end := CallOf(env, jobs, n).end;
    if GoodCode(end.rc) then Result(end.response)
    else
      match ErrorOf(env, jobs, n)
      case Some(r) => LsmError(r.code, r.message, r.debug)
      case None => LsmError(end.rc, NO_MESSAGE, "")
  }

  ghost predicate SendError(a: Answer) {
    exists errno: int :: a == SendFailed(errno)
  }

  /** How call `n` should end: with what its handler produced when that is answered, with
      the end of the stream when it is not, and with that or a send that fails when the
      plug-in has gone before. */
  ghost predicate Ends(env: Env, jobs: seq<Job>, n: nat, a: Answer)
    requires n < |jobs|
  {
    if !Alive(env, jobs, n) then a == EofError || SendError(a)
    else if Answered(env, jobs, n) then a == Expected(env, jobs, n)
    else a == EofError
  }

  /** The reply to call `n`. */
  function ReplyText(env: Env, jobs: seq<Job>, n: nat): string
    requires n < |jobs| && CallOf(env, jobs, n).end.Returns?
  {
    var end := CallOf(env, jobs, n).end;
    Serialize(Reply(Logged(env, jobs, n), end.rc, end.response).0)
  }

  /** Requests, results and error texts can be carried by the wire format, and messages are
      shorter than 2^31 bytes.  Handlers may raise, replies may fail to be sent, and any
      call may unregister. */
  ghost predicate Admissible(env: Env, jobs: seq<Job>) {
    forall n | 0 <= n < |jobs| ::
      && Units(jobs[n].method_) && WellFormed(jobs[n].params)
      && |RequestText(jobs[n])| < MAX_PAYLOAD
      && (Alive(env, jobs, n) && CallOf(env, jobs, n).end.Returns? ==>
            && WellFormed(CallOf(env, jobs, n).end.response)
            && Texts(CallOf(env, jobs, n).logged)
            && |ReplyText(env, jobs, n)| < MAX_PAYLOAD)
  }

  predicate Texts(rs: seq<ErrorRecord>) {
    forall r | r in rs :: Units(r.message) && Units(r.debug)
  }

  // ----- records and replies along the calls

  lemma {:induction false} ErrorsInOrder(env: Env, jobs: seq<Job>, n: nat)
    requires Admissible(env, jobs) && n <= |jobs| && Alive(env, jobs, n)
    ensures Accounted(ErrorsAfter(env, jobs, n)) && Texts(ErrorsAfter(env, jobs, n).log)
    decreases n, 0
  {
    hide Admissible, Accounted, CallOf, Texts, Logged;
    if n == 0 {
      NoErrorsAccounted();
    } else {
      LoggedInOrder(env, jobs, n - 1);
      FreeAccounted(Logged(env, jobs, n - 1));
    }
  }

  lemma NoErrorsAccounted()
    ensures Accounted(NO_ERRORS) && Texts(NO_ERRORS.log)
  {
  }

  lemma {:induction false} LoggedInOrder(env: Env, jobs: seq<Job>, n: nat)
    requires Admissible(env, jobs) && n < |jobs| && Alive(env, jobs, n) && CallOf(env, jobs, n).end.Returns?
    ensures Accounted(Logged(env, jobs, n)) && Texts(Logged(env, jobs, n).log)
    decreases n, 1
  {
    hide Accounted, Alive, CallOf, LogAll, ErrorsAfter, Units, WellFormed, ReplyText, RequestText;
    ErrorsInOrder(env, jobs, n);
    var e, rs := ErrorsAfter(env, jobs, n), CallOf(env, jobs, n).logged;
    LogAllLog(e, rs);
    LogAllAccounted(e, rs);
    assert Texts(rs);
    hide Admissible;
  }

  /** `e` has the record `r` pending, or none. */
  predicate Holds(e: Errors, r: Option<ErrorRecord>) {
    if e.pending.None? then r == None
    else e.pending.value < |e.log| && r == Some(e.log[e.pending.value])
  }

  lemma LoggedHolds(e: Errors, rs: seq<ErrorRecord>, r: Option<ErrorRecord>)
    requires Holds(e, r)
    ensures Holds(LogAll(e, rs), if rs != [] then Some(rs[|rs| - 1]) else r)
  {
    LogAllLog(e, rs);
    LogAllPending(e, rs);
  }

  /** The record pending before call `n` is the one that the calls before it left behind. */
  lemma {:induction false} PendingIsLeft(env: Env, jobs: seq<Job>, n: nat)
    requires n <= |jobs|
    ensures Holds(ErrorsAfter(env, jobs, n), LeftBefore(env, jobs, n))
  {
    hide LogAll, CallOf;
    if n > 0 {
      PendingIsLeft(env, jobs, n - 1);
      LoggedHolds(ErrorsAfter(env, jobs, n - 1), CallOf(env, jobs, n - 1).logged, LeftBefore(env, jobs, n - 1));
    }
  }

  lemma PendingIsError(env: Env, jobs: seq<Job>, n: nat)
    requires n < |jobs|
    ensures Holds(Logged(env, jobs, n), ErrorOf(env, jobs, n))
  {
    hide LogAll, CallOf, LeftBefore, ErrorsAfter;
    PendingIsLeft(env, jobs, n);
    LoggedHolds(ErrorsAfter(env, jobs, n), CallOf(env, jobs, n).logged, LeftBefore(env, jobs, n));
  }

  /** The client reads the reply to call `n` as the outcome that the call should have. */
  lemma ReplyReadBack(env: Env, jobs: seq<Job>, n: nat)
    requires Admissible(env, jobs) && n < |jobs| && Alive(env, jobs, n) && CallOf(env, jobs, n).end.Returns?
    ensures ResponseRead(ReplyText(env, jobs, n)) == Expected(env, jobs, n)
  {
    hide Units, WellFormed, RequestText, LogAll, CallOf, ResponseRead, Serialize, Logged, Alive, ErrorOf;
    LoggedInOrder(env, jobs, n);
    PendingIsError(env, jobs, n);
    var end, e := CallOf(env, jobs, n).end, Logged(env, jobs, n);
    if Succeeded(end.rc) {
      ResponseReadBack(end.response, ID);
    } else if e.pending.Some? {
      var r := e.log[e.pending.value];
      ErrorReplyReadBack(r.code, r.message, r.debug, ID);
    } else {
      PlainUnits(NO_MESSAGE);
      PlainUnits("");
      ErrorReplyReadBack(end.rc, NO_MESSAGE, "", ID);
    }
  }

  /** The plug-in between calls, `n` of them served. */
  ghost predicate Between(env: Env, jobs: seq<Job>, w: World, n: nat) {
    && n <= |jobs|
    && |w.exchanges| == n
    && (Alive(env, jobs, n) ==> w.errors == ErrorsAfter(env, jobs, n))
    && (w.stop == Running <==> n == 0 || GoesOn(env, jobs, n - 1))
  }

  lemma RequestReadBack(job: Job)
    requires Units(job.method_) && WellFormed(job.params)
    ensures Deserialize(RequestText(job)) == Some(Request(job.method_, job.params, job.id))
    ensures var v := Request(job.method_, job.params, job.id);
            IsValidRequest(v) && GetValue(v, "method") == Str(job.method_) && GetValue(v, "params") == job.params
  {
    hide Units, WellFormed, Serialize, Deserialize;
    RequestWellFormed(job.method_, job.params, job.id);
    SerializedReadsBack(Request(job.method_, job.params, job.id));
    var v := Request(job.method_, job.params, job.id);
    assert Find(v.members, "id") == Some(v.members[0].value);
    assert Find(v.members, "method") == Some(v.members[1].value);
    assert Find(v.members, "params") == Some(v.members[2].value);
  }

  function ReplyFrame(env: Env, jobs: seq<Job>, k: nat): string
    requires k < |jobs|
  {
    if CallOf(env, jobs, k).end.Returns? then Frame(ReplyText(env, jobs, k)) else ""
  }

  lemma JobCarried(env: Env, jobs: seq<Job>, n: nat)
    requires Admissible(env, jobs) && n < |jobs|
    ensures Units(jobs[n].method_) && WellFormed(jobs[n].params) && |RequestText(jobs[n])| < MAX_PAYLOAD
    ensures Alive(env, jobs, n) && CallOf(env, jobs, n).end.Returns? ==> |ReplyText(env, jobs, n)| < MAX_PAYLOAD
  {
    hide Units, WellFormed, RequestText, ReplyText, Alive, CallOf, Texts;
  }

  /** A request of call `n` is a valid one for its method. */
  lemma HandlesAsServe(env: Env, jobs: seq<Job>, w: World, n: nat)
    requires Admissible(env, jobs) && n < |jobs|
    ensures var job := jobs[n];
            HandleMessage(env, w, RequestText(job)) ==
            Serve(env, w, Request(job.method_, job.params, job.id), job.method_)
    ensures GetValue(Request(jobs[n].method_, jobs[n].params, jobs[n].id), "params") == jobs[n].params
  {
    hide Admissible, Units, WellFormed, RequestText, Deserialize, Serve, IsValidRequest, GetValue, Request;
    JobCarried(env, jobs, n);
    RequestReadBack(jobs[n]);
  }

  /** The records after an answered call. */
  lemma RecordsAfter(env: Env, jobs: seq<Job>, n: nat)
    requires Admissible(env, jobs) && n < |jobs| && Alive(env, jobs, n) && CallOf(env, jobs, n).end.Returns?
    ensures var end := CallOf(env, jobs, n).end;
            Reply(Logged(env, jobs, n), end.rc, end.response).1 == ErrorsAfter(env, jobs, n + 1)
  {
    LoggedInOrder(env, jobs, n);
    hide Admissible, CallOf, Logged, Alive, Texts;
  }

  /** Serving call `n` leaves the plug-in as it should be after it. */
  lemma HandledRight(env: Env, jobs: seq<Job>, w: World, n: nat)
    requires Admissible(env, jobs) && n < |jobs| && Alive(env, jobs, n) && Between(env, jobs, w, n)
    ensures var r := HandleMessage(env, w, RequestText(jobs[n]));
            && Between(env, jobs, r, n + 1)
            && (r.exchanges[n].reply.Some? <==> Answered(env, jobs, n))
  {
    HandlesAsServe(env, jobs, w, n);
    ServeShape(env, w, Request(jobs[n].method_, jobs[n].params, jobs[n].id), jobs[n].method_);
    AliveBefore(env, jobs, n);
    if CallOf(env, jobs, n).end.Returns? {
      RecordsAfter(env, jobs, n);
    }
    hide Admissible, HandleMessage, Serve, RequestText, LogAll, ProcessRequest, Request, GetValue, Reply, ErrorsAfter;
  }

  /** What serving a request does to exchanges, records and loop. */
  lemma ServeShape(env: Env, w: World, req: Value, m: string)
    ensures var r, n := Serve(env, w, req, m), |w.exchanges|;
            var call := ProcessRequest(env, n, m, GetValue(req, "params"));
            var answered := call.end.Returns? && env.sends(n);
            && |r.exchanges| == n + 1 && (r.exchanges[n].reply.Some? <==> answered)
            && (answered ==> r.errors == Reply(LogAll(w.errors, call.logged), call.end.rc, call.end.response).1)
            && (w.stop == Running ==> (r.stop == Running <==> answered && m != UNREGISTER))
  {
    hide LogAll, ProcessRequest, HasFlags, GetValue, Reply;
  }

  /** What the plug-in tries to send for call `n` is the reply to it. */
  lemma AttemptIsReply(env: Env, jobs: seq<Job>, w: World, n: nat)
    requires Admissible(env, jobs) && n < |jobs| && Alive(env, jobs, n) && Between(env, jobs, w, n)
    ensures Attempt(env, w, RequestText(jobs[n])) == ReplyFrame(env, jobs, n)
  {
    SendsDoNotMatter(env, jobs, w, n);
    hide Admissible, HandleMessage, RequestText, LogAll, Alive, Reply, Serialize, Frame, ProcessRequest;
  }

  lemma SendsDoNotMatter(env: Env, jobs: seq<Job>, w: World, n: nat)
    requires Admissible(env, jobs) && n < |jobs| && |w.exchanges| == n
    ensures var r := HandleMessage(env.(sends := (_: nat) => true), w, RequestText(jobs[n]));
            var call := CallOf(env, jobs, n);
            && |r.exchanges| == n + 1
            && r.exchanges[n].reply ==
               match call.end
               case Raises(_) => None
               case Returns(rc, response) => Some(Reply(LogAll(w.errors, call.logged), rc, response).0)
  {
    hide Units, WellFormed, RequestText, LogAll, HasFlags, Request, Reply, Deserialize, IsValidRequest, GetValue;
    var env', job := env.(sends := (_: nat) => true), jobs[n];
    JobCarried(env, jobs, n);
    RequestReadBack(job);
    assert ProcessRequest(env', n, job.method_, job.params) == CallOf(env, jobs, n);
    hide Admissible, ProcessRequest;
  }

  // ----- the invariant of every run

  function RequestFrame(jobs: seq<Job>, k: nat): string
    requires k < |jobs|
  {
    Frame(RequestText(jobs[k]))
  }

  /** The request of call `k` is under way, `unsent` of it still with the client. */
  ghost predicate Requesting(env: Env, jobs: seq<Job>, s: Sys, k: nat, unsent: string)
    requires k < |jobs|
  {
    && s.server.Reading? && s.p2c == "" && s.c2p + unsent != ""
    && s.server.got + (s.c2p + unsent) == RequestFrame(jobs, k)
    && Between(env, jobs, s.world, k)
  }

  /** The request of call `k` has arrived. */
  ghost predicate Arrived(env: Env, jobs: seq<Job>, s: Sys, k: nat)
    requires k < |jobs|
  {
    && s.server == Handling(RequestText(jobs[k])) && s.c2p == "" && s.p2c == ""
    && Between(env, jobs, s.world, k)
  }

  function Unsent(s: Sys): string {
    if s.server.Replying? then s.server.unsent else ""
  }

  /** The plug-in waits for a request, or has stopped. */
  predicate Rests(s: Sys) {
    if s.world.stop == Running then s.server == Reading("") else s.server == Stopped || s.server == Closed
  }

  /** The plug-in has stopped and nothing is on its way to the client. */
  predicate Gone(s: Sys) {
    (s.server == Stopped || s.server == Closed) && s.p2c == ""
  }

  /** All that the client ever gets for call `k`: the reply, or less than it. */
  predicate Delivered(env: Env, jobs: seq<Job>, k: nat, text: string)
    requires k < |jobs|
  {
    if Answered(env, jobs, k) then text == ReplyFrame(env, jobs, k)
    else text == "" || text < ReplyFrame(env, jobs, k)
  }

  /** The reply to call `k` is under way, `got` of it already with the client. */
  ghost predicate Answering(env: Env, jobs: seq<Job>, s: Sys, k: nat, got: string)
    requires k < |jobs|
  {
    && (if s.server.Replying? then s.server.unsent != "" else Rests(s))
    && s.c2p == "" && (Answered(env, jobs, k) ==> s.p2c + Unsent(s) != "")
    && Delivered(env, jobs, k, got + (s.p2c + Unsent(s)))
    && Between(env, jobs, s.world, k + 1)
  }

  ghost predicate Phase(env: Env, jobs: seq<Job>, s: Sys, k: nat)
    requires k <= |jobs|
  {
    match s.client
    case Idle =>
      if Alive(env, jobs, k)
      then s.c2p == "" && s.p2c == "" && s.server == Reading("") && Between(env, jobs, s.world, k)
      else Gone(s)
    case Sending(u) =>
      k < |jobs| && u != "" && if Alive(env, jobs, k) then Requesting(env, jobs, s, k, u) else Gone(s)
    case Waiting(got) =>
      k < |jobs| &&
      if !Alive(env, jobs, k) then got == "" && Gone(s)
      else (got == "" && (Requesting(env, jobs, s, k, "") || Arrived(env, jobs, s, k))) ||
           Answering(env, jobs, s, k, got)
    case Lost(u) =>
      k > 0 && u != "" && if Alive(env, jobs, k - 1) then Requesting(env, jobs, s, k - 1, u) else Gone(s)
  }

  /** Every call so far has ended as it should; the last one of a lost client could not be
      sent. */
  ghost predicate Right(env: Env, jobs: seq<Job>, s: Sys)
    requires |s.results| <= |jobs|
  {
    forall n | 0 <= n < |s.results| ::
      if s.client.Lost? && n == |s.results| - 1 then SendError(s.results[n])
      else Ends(env, jobs, n, s.results[n])
  }

  ghost predicate Inv(env: Env, jobs: seq<Job>, s: Sys) {
    |s.results| <= |jobs| && Right(env, jobs, s) && Phase(env, jobs, s, |s.results|)
  }

  /** What the calls from `k` on can take at most. */
  function Remaining(env: Env, jobs: seq<Job>, k: nat): nat
    requires k <= |jobs|
    decreases |jobs| - k
  {
    if k == |jobs| then 0
    else 3 + 2 * |RequestFrame(jobs, k)| + 2 * |ReplyFrame(env, jobs, k)| + Remaining(env, jobs, k + 1)
  }

  /** What is left to do for call `k`: every byte counts once while unsent and once while
      under way. */
  function CallWork(env: Env, jobs: seq<Job>, s: Sys, k: nat): nat
    requires k < |jobs|
  {
    1 + (if s.client.Sending? then 2 * |s.client.unsent| else 0) +
    if Alive(env, jobs, k) && |s.world.exchanges| == k
    then 2 * |ReplyFrame(env, jobs, k)| + 1 + |s.c2p|
    else 2 * |Unsent(s)| + |s.p2c|
  }

  function Work(env: Env, jobs: seq<Job>, s: Sys): nat {
    var k := |s.results|;
    (if s.server == Closed then 0 else 1) +
    if k > |jobs| then 0
    else
      match s.client
      case Idle => Remaining(env, jobs, k)
      case Lost(_) => if k > 0 && Alive(env, jobs, k - 1) then |s.c2p| else 0
      case _ => if k == |jobs| then 0 else CallWork(env, jobs, s, k) + Remaining(env, jobs, k + 1)
  }

  // ----- every event keeps the invariant and leaves less to do

  ghost predicate Keeps(env: Env, jobs: seq<Job>, s: Sys, t: Sys) {
    Inv(env, jobs, t) && Work(env, jobs, t) < Work(env, jobs, s)
  }

  lemma RightSame(env: Env, jobs: seq<Job>, s: Sys, t: Sys)
    requires |s.results| <= |jobs| && Right(env, jobs, s) && t.results == s.results && t.client.Lost? == s.client.Lost?
    ensures Right(env, jobs, t)
  {
    hide Ends, SendError;
  }

  /** One more call has ended. */
  lemma RightMore(env: Env, jobs: seq<Job>, s: Sys, t: Sys, a: Answer)
    requires |s.results| < |jobs| && Right(env, jobs, s) && !s.client.Lost? && t.results == s.results + [a]
    requires if t.client.Lost? then SendError(a) else Ends(env, jobs, |s.results|, a)
    ensures Right(env, jobs, t)
  {
    hide Ends, SendError;
  }

  lemma GoesOnAnswered(env: Env, jobs: seq<Job>, k: nat)
    requires k < |jobs|
    ensures GoesOn(env, jobs, k) ==> Answered(env, jobs, k)
  {
  }

  lemma NextCallKeeps(env: Env, jobs: seq<Job>, s: Sys)
    requires Inv(env, jobs, s) && Enabled(env, jobs, s, NextCall)
    ensures Keeps(env, jobs, s, Step(env, jobs, s, NextCall))
  {
    hide Frame, RequestText, ReplyFrame, ErrorsAfter, GoesOn, Alive, Right;
    FrameNotEmpty(RequestText(jobs[|s.results|]));
    RightSame(env, jobs, s, Step(env, jobs, s, NextCall));
  }

  lemma ClientSendKeeps(env: Env, jobs: seq<Job>, s: Sys, n: nat)
    requires Inv(env, jobs, s) && Enabled(env, jobs, s, ClientSend(n))
    ensures Keeps(env, jobs, s, Step(env, jobs, s, ClientSend(n)))
  {
    hide RequestFrame, ReplyFrame, ErrorsAfter, GoesOn, Alive, Right, Remaining;
    RightSame(env, jobs, s, Step(env, jobs, s, ClientSend(n)));
    var u := s.client.unsent;
    assert s.c2p + u == s.c2p + u[..n] + u[n..];
  }

  lemma ClientSendFailsKeeps(env: Env, jobs: seq<Job>, s: Sys, errno: int)
    requires Inv(env, jobs, s) && Enabled(env, jobs, s, ClientSendFails(errno))
    ensures Keeps(env, jobs, s, Step(env, jobs, s, ClientSendFails(errno)))
  {
    hide RequestFrame, ReplyFrame, ErrorsAfter, GoesOn, Alive, Ends, Remaining, SendError, SendFailed, Right;
    var t, k := Step(env, jobs, s, ClientSendFails(errno)), |s.results|;
    AliveBefore(env, jobs, k);
    SendFailedRight(env, jobs, k, errno);
    RightMore(env, jobs, s, t, SendFailed(errno));
  }

  lemma SendFailedRight(env: Env, jobs: seq<Job>, k: nat, errno: int)
    requires k < |jobs|
    ensures SendError(SendFailed(errno))
    ensures !Alive(env, jobs, k) ==> Ends(env, jobs, k, SendFailed(errno)) && Ends(env, jobs, k, EofError)
    ensures Alive(env, jobs, k) && !Answered(env, jobs, k) ==> Ends(env, jobs, k, EofError)
  {
    hide Alive, Answered;
  }

  lemma AliveBefore(env: Env, jobs: seq<Job>, k: nat)
    requires k < |jobs|
    ensures Alive(env, jobs, k + 1) <==> Alive(env, jobs, k) && GoesOn(env, jobs, k)
  {
  }

  /** The call whose request is under way, and what the client still has of it. */
  function Current(s: Sys): int {
    if s.client.Lost? then |s.results| - 1 else |s.results|
  }

  function Held(s: Sys): string {
    if s.client.Sending? || s.client.Lost? then s.client.unsent else ""
  }

  lemma UnderWay(env: Env, jobs: seq<Job>, s: Sys)
    requires Inv(env, jobs, s) && s.server.Reading? && s.c2p != ""
    ensures var k := Current(s);
            && 0 <= k < |jobs| && Alive(env, jobs, k) && Requesting(env, jobs, s, k, Held(s))
            && |s.world.exchanges| == k && !s.client.Idle? && (s.client.Waiting? ==> s.client.got == "")
  {
    hide Right, Alive, ErrorsAfter, GoesOn, RequestFrame, ReplyFrame, Delivered;
  }

  lemma RequestTaken(env: Env, jobs: seq<Job>, s: Sys, k: nat, u: string, n: nat)
    requires Admissible(env, jobs) && k < |jobs| && Requesting(env, jobs, s, k, u)
    requires Enabled(env, jobs, s, ServerRecv(n))
    ensures var t := Step(env, jobs, s, ServerRecv(n));
            Requesting(env, jobs, t, k, u) || (u == "" && Arrived(env, jobs, t, k))
  {
    hide Admissible, RequestText, Between, Want, Payload, Frame;
    var got, rest := s.server.got + s.c2p[..n], s.c2p[n..] + u;
    assert s.server.got + (s.c2p + u) == got + rest;
    JobCarried(env, jobs, k);
    FramePrefix(RequestText(jobs[k]), got, rest);
  }

  lemma ServerRecvKeeps(env: Env, jobs: seq<Job>, s: Sys, n: nat)
    requires Admissible(env, jobs) && Inv(env, jobs, s) && Enabled(env, jobs, s, ServerRecv(n))
    ensures Keeps(env, jobs, s, Step(env, jobs, s, ServerRecv(n)))
  {
    hide Admissible, ReplyFrame, Alive, Right, Remaining, Want, Payload, Requesting, Arrived, Answering;
    RightSame(env, jobs, s, Step(env, jobs, s, ServerRecv(n)));
    UnderWay(env, jobs, s);
    RequestTaken(env, jobs, s, Current(s), Held(s), n);
  }

  lemma FrameNotEmpty(msg: string)
    ensures Frame(msg) != ""
  {
  }

  lemma OutputRight(env: Env, jobs: seq<Job>, w: World, k: nat, part: nat)
    requires Admissible(env, jobs) && k < |jobs| && Alive(env, jobs, k) && Between(env, jobs, w, k)
    ensures var out := Output(env, w, RequestText(jobs[k]), part);
            && Delivered(env, jobs, k, out) && |out| <= |ReplyFrame(env, jobs, k)|
            && (Answered(env, jobs, k) ==> out != "")
  {
    hide Admissible, Attempt, HandleMessage, RequestText, ReplyText, Alive, ErrorsAfter, CallOf, GoesOn, Frame;
    HandledRight(env, jobs, w, k);
    AttemptIsReply(env, jobs, w, k);
    if Answered(env, jobs, k) {
      FrameNotEmpty(ReplyText(env, jobs, k));
    }
  }

  lemma HandleKeeps(env: Env, jobs: seq<Job>, s: Sys, part: nat)
    requires Admissible(env, jobs) && Inv(env, jobs, s) && Enabled(env, jobs, s, Handle(part))
    ensures Keeps(env, jobs, s, Step(env, jobs, s, Handle(part)))
  {
    hide Admissible, RequestText, ReplyFrame, Alive, Right, Remaining, HandleMessage, Output, Delivered;
    hide ErrorsAfter, GoesOn;
    RightSame(env, jobs, s, Step(env, jobs, s, Handle(part)));
    var k := |s.results|;
    GoesOnAnswered(env, jobs, k);
    OutputRight(env, jobs, s.world, k, part);
    HandledRight(env, jobs, s.world, k);
    var out := Output(env, s.world, RequestText(jobs[k]), part);
    assert "" + ("" + out) == out;
  }

  lemma ServerSendKeeps(env: Env, jobs: seq<Job>, s: Sys, n: nat)
    requires Inv(env, jobs, s) && Enabled(env, jobs, s, ServerSend(n))
    ensures Keeps(env, jobs, s, Step(env, jobs, s, ServerSend(n)))
  {
    hide RequestFrame, ReplyFrame, Alive, Right, Remaining, Delivered, ErrorsAfter, GoesOn;
    RightSame(env, jobs, s, Step(env, jobs, s, ServerSend(n)));
    var u := s.server.unsent;
    assert s.p2c + u == s.p2c + u[..n] + u[n..];
  }

  lemma CloseKeeps(env: Env, jobs: seq<Job>, s: Sys)
    requires Inv(env, jobs, s) && Enabled(env, jobs, s, Close)
    ensures Keeps(env, jobs, s, Step(env, jobs, s, Close))
  {
    hide RequestFrame, ReplyFrame, Alive, Right, Remaining, Delivered, ErrorsAfter, GoesOn;
    RightSame(env, jobs, s, Step(env, jobs, s, Close));
  }

  /** What the client has of the reply to call `k` is complete exactly when the call was
      answered and nothing is left to come. */
  lemma GotPrefix(env: Env, jobs: seq<Job>, k: nat, got: string, rest: string)
    requires Admissible(env, jobs) && k < |jobs| && Alive(env, jobs, k)
    requires Delivered(env, jobs, k, got + rest) && got + rest != ""
    ensures Want(got) == 0 <==> Answered(env, jobs, k) && rest == ""
    ensures Want(got) == 0 ==> Payload(got) == ReplyText(env, jobs, k)
  {
    hide Admissible, Want, Payload, ReplyText, Alive, CallOf, Frame;
    JobCarried(env, jobs, k);
    var frame := ReplyFrame(env, jobs, k);
    assert got + rest == frame[..|got| + |rest|];
    var tail := frame[|got|..];
    assert got + tail == frame;
    FramePrefix(ReplyText(env, jobs, k), got, tail);
  }

  lemma ClientRecvKeeps(env: Env, jobs: seq<Job>, s: Sys, n: nat)
    requires Admissible(env, jobs) && Inv(env, jobs, s) && Enabled(env, jobs, s, ClientRecv(n))
    ensures Keeps(env, jobs, s, Step(env, jobs, s, ClientRecv(n)))
  {
    hide Admissible, Expected, RequestFrame, ReplyFrame, ReplyText, ErrorsAfter, Want, Payload, ResponseRead, Alive,
         Delivered, Remaining, GoesOn, SendError;
    var k := |s.results|;
    var got, rest := s.client.got + s.p2c[..n], s.p2c[n..] + Unsent(s);
    assert s.client.got + (s.p2c + Unsent(s)) == got + rest;
    assert got + rest != "";
    GotPrefix(env, jobs, k, got, rest);
    AliveBefore(env, jobs, k);
    if Want(got) == 0 {
      ReplyReadBack(env, jobs, k);
      RightMore(env, jobs, s, Step(env, jobs, s, ClientRecv(n)), ResponseRead(Payload(got)));
    } else {
      RightSame(env, jobs, s, Step(env, jobs, s, ClientRecv(n)));
    }
    hide Right, Ends;
  }

  lemma ClientEofKeeps(env: Env, jobs: seq<Job>, s: Sys)
    requires Inv(env, jobs, s) && Enabled(env, jobs, s, ClientEof)
    ensures Keeps(env, jobs, s, Step(env, jobs, s, ClientEof))
  {
    hide RequestFrame, ReplyFrame, ErrorsAfter, GoesOn, Alive, Answered, Ends, Delivered, Remaining, SendError, Right;
    var k := |s.results|;
    AliveBefore(env, jobs, k);
    GoesOnAnswered(env, jobs, k);
    SendFailedRight(env, jobs, k, 0);
    RightMore(env, jobs, s, Step(env, jobs, s, ClientEof), EofError);
  }

  lemma StepKeeps(env: Env, jobs: seq<Job>, s: Sys, ev: Event)
    requires Admissible(env, jobs) && Inv(env, jobs, s) && Enabled(env, jobs, s, ev)
    ensures Keeps(env, jobs, s, Step(env, jobs, s, ev))
  {
    hide *;
    match ev {
      case NextCall => NextCallKeeps(env, jobs, s);
      case ClientSend(n) => ClientSendKeeps(env, jobs, s, n);
      case ClientSendFails(errno) => ClientSendFailsKeeps(env, jobs, s, errno);
      case ServerRecv(n) => ServerRecvKeeps(env, jobs, s, n);
      case Handle(part) => HandleKeeps(env, jobs, s, part);
      case ServerSend(n) => ServerSendKeeps(env, jobs, s, n);
      case Close => CloseKeeps(env, jobs, s);
      case ClientRecv(n) => ClientRecvKeeps(env, jobs, s, n);
      case ClientEof => ClientEofKeeps(env, jobs, s);
    }
  }

  lemma {:induction false} ExecKeeps(env: Env, jobs: seq<Job>, evs: seq<Event>)
    requires Admissible(env, jobs)
    ensures var s := Exec(env, jobs, evs);
            s.Some? ==> Inv(env, jobs, s.value) && |evs| + Work(env, jobs, s.value) <= 1 + Remaining(env, jobs, 0)
    decreases |evs|
  {
    hide Admissible, Inv, Work, Step, Enabled, Remaining;
    if evs == [] {
      StartsRight(env, jobs);
    } else {
      var before := evs[..|evs| - 1];
      ExecKeeps(env, jobs, before);
      var s := Exec(env, jobs, before);
      if s.Some? && Enabled(env, jobs, s.value, evs[|evs| - 1]) {
        StepKeeps(env, jobs, s.value, evs[|evs| - 1]);
      }
    }
  }

  lemma StartsRight(env: Env, jobs: seq<Job>)
    ensures Inv(env, jobs, START) && Work(env, jobs, START) == 1 + Remaining(env, jobs, 0)
  {
  }

  // ----- the theorems

  /** In every run, however the bytes are cut, the two sides interleave and sends fail, the
      n-th call ends as it should: while the plug-in is there, with the handler's value if
      its code is OK or JOB_STARTED, else with the pending error record or the handler's
      code, and with the end of the stream if the handler raised or its reply could not be
      sent; once the plug-in has gone, with the end of the stream or an error on sending.
      Between calls to a plug-in that is there both streams are empty and it has served
      exactly the calls made. */
  lemma RpcReturnsHandlersResult(env: Env, jobs: seq<Job>, evs: seq<Event>)
    requires Admissible(env, jobs) && Exec(env, jobs, evs).Some?
    ensures var s := Exec(env, jobs, evs).value;
            && |s.results| <= |jobs|
            && (forall n | 0 <= n < |s.results| ::
                  if s.client.Lost? && n == |s.results| - 1 then SendError(s.results[n])
                  else Ends(env, jobs, n, s.results[n]))
            && (s.client == Idle && Alive(env, jobs, |s.results|) ==>
                  s.c2p == "" && s.p2c == "" && |s.world.exchanges| == |s.results|)
  {
    hide Admissible, Exec, Ends, Alive, ErrorsAfter, SendError;
    ExecKeeps(env, jobs, evs);
  }

  /** Handlers return, replies can be sent and only the last call unregisters. */
  predicate Smooth(env: Env, jobs: seq<Job>) {
    forall k | 0 <= k < |jobs| :: Answered(env, jobs, k) && (jobs[k].method_ == UNREGISTER ==> k == |jobs| - 1)
  }

  /** Then every call returns what its handler produced. */
  lemma RpcWithoutFailures(env: Env, jobs: seq<Job>, evs: seq<Event>, n: nat)
    requires Admissible(env, jobs) && Smooth(env, jobs) && Exec(env, jobs, evs).Some?
    requires var s := Exec(env, jobs, evs).value; !s.client.Lost? && n < |s.results|
    ensures n < |jobs| && Answered(env, jobs, n) && Exec(env, jobs, evs).value.results[n] == Expected(env, jobs, n)
  {
    hide Admissible, Exec, Expected, Alive, SendError, CallOf;
    RpcReturnsHandlersResult(env, jobs, evs);
    AliveThroughout(env, jobs, n);
  }

  lemma {:induction false} AliveThroughout(env: Env, jobs: seq<Job>, n: nat)
    requires Smooth(env, jobs) && n < |jobs|
    ensures Alive(env, jobs, n)
  {
    hide Answered;
    if n > 0 {
      AliveThroughout(env, jobs, n - 1);
    }
  }

  /** A call to a method that the plug-in does not have fails with NO_SUPPORT, unless a
      record was left behind; the call that unregisters succeeds with null. */
  lemma RpcOtherMethods(env: Env, jobs: seq<Job>, evs: seq<Event>, n: nat)
    requires Admissible(env, jobs) && Exec(env, jobs, evs).Some?
    requires var s := Exec(env, jobs, evs).value;
             n < |s.results| && !s.client.Lost? && n < |jobs| && Alive(env, jobs, n) && env.sends(n)
    ensures var m, a := jobs[n].method_, Exec(env, jobs, evs).value.results[n];
            && (m == "plugin_unregister" ==> a == Result(Null))
            && (m != "plugin_unregister" && m !in env.methods ==>
                  match LeftBefore(env, jobs, n)
                  case Some(r) => a == LsmError(r.code, r.message, r.debug)
                  case None => a == LsmError(153, NO_MESSAGE, ""))
  {
    RpcReturnsHandlersResult(env, jobs, evs);
    hide Admissible, Exec, Alive, SendError, LeftBefore;
  }

  /** A send that fails on an open connection. */
  predicate Breaks(s: Sys, ev: Event) {
    ev.ClientSendFails? && s.server != Closed
  }

  /** No run gets stuck before all calls have returned: something can happen other than a
      send failing on an open connection. */
  lemma RpcNeverStuck(env: Env, jobs: seq<Job>, evs: seq<Event>)
    requires Admissible(env, jobs) && Exec(env, jobs, evs).Some?
    requires var s := Exec(env, jobs, evs).value; !s.client.Lost? && !(s.client == Idle && |s.results| == |jobs|)
    ensures var s := Exec(env, jobs, evs).value; exists ev :: Enabled(env, jobs, s, ev) && !Breaks(s, ev)
  {
    hide Exec, Admissible, Want, Ends, ErrorsAfter, Alive, ReplyFrame, RequestFrame, GoesOn, Delivered;
    ExecKeeps(env, jobs, evs);
    var s := Exec(env, jobs, evs).value;
    var ev := NextMove(env, jobs, s);
    assert Enabled(env, jobs, s, ev) && !Breaks(s, ev);
  }

  lemma NextMove(env: Env, jobs: seq<Job>, s: Sys) returns (ev: Event)
    requires Admissible(env, jobs) && Inv(env, jobs, s)
    requires !s.client.Lost? && !(s.client == Idle && |s.results| == |jobs|)
    ensures Enabled(env, jobs, s, ev) && !Breaks(s, ev)
  {
    hide Admissible, Want, Ends, ErrorsAfter, Alive, ReplyFrame, RequestText, GoesOn, Delivered;
    var k := |s.results|;
    if s.client == Idle {
      ev := NextCall;
    } else if s.client.Sending? {
      ev := if s.server == Closed then ClientSendFails(0) else ClientSend(1);
    } else if s.server.Handling? {
      ev := Handle(0);
    } else if s.server.Replying? {
      ev := ServerSend(1);
    } else if s.server == Stopped {
      ev := Close;
    } else if s.p2c == "" && s.server == Closed {
      ev := ClientEof;
    } else if s.p2c == "" {
      GoesOnAnswered(env, jobs, k);
      assert s.c2p + "" == s.c2p;
      JobCarried(env, jobs, k);
      FramePrefix(RequestText(jobs[k]), s.server.got, s.c2p);
      ev := ServerRecv(1);
    } else {
      assert s.p2c + Unsent(s) == s.p2c;
      assert s.client.got + s.p2c != "";
      GotPrefix(env, jobs, k, s.client.got, s.p2c);
      ev := ClientRecv(1);
    }
  }

  /** Every run is finite: with the lemma above, every run that goes on as long as it can
      ends with all calls returned or a send failed. */
  lemma RpcRunsEnd(env: Env, jobs: seq<Job>, evs: seq<Event>)
    requires Admissible(env, jobs) && Exec(env, jobs, evs).Some?
    ensures |evs| <= 1 + Remaining(env, jobs, 0)
  {
    hide *;
    ExecKeeps(env, jobs, evs);
  }
}
