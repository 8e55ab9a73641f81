/** The serving loop of a plug-in (c_binding/lsm_plugin_ipc.cpp) and the life of the error
    records that handlers log.  Handlers are arbitrary: an `Env` says what each call logs
    and how it ends, and which sends the system lets through. */
module PluginLoop {
  import opened Wrappers
  import opened Transport
  import opened JsonValue
  import opened JsonPayload
  import opened Ipc
  import N = Numbers

  const ID := 100
  const UNREGISTER := "plugin_unregister"
  const NO_MESSAGE := "Plugin didn't provide error message"

  datatype ErrorRecord = ErrorRecord(code: int, message: string, debug: string)

  /** Every record logged so far, the one in `p->error`, and the ones freed, in order.
      A record is named by its place in `log`. */
  datatype Errors = Errors(log: seq<ErrorRecord>, pending: Option<nat>, freed: seq<nat>)

  const NO_ERRORS := Errors([], None, [])

  predicate Distinct(s: seq<nat>) {
    forall i, j | 0 <= i < j < |s| :: s[i] != s[j]
  }

  /** Each record is either freed, once, or pending. */
  ghost predicate Accounted(e: Errors) {
    && Distinct(e.freed)
    && (e.pending.Some? ==> e.pending.value !in e.freed)
    && (forall id: nat :: id < |e.log| <==> id in e.freed || e.pending == Some(id))
  }

  /** `lsm_error_free(p->error); p->error = NULL`. */
  function FreePending(e: Errors): Errors {
    if e.pending.None? then e else e.(pending := None, freed := e.freed + [e.pending.value])
  }

  /** `lsm_plugin_error_log`: an earlier record makes way for the new one. */
  function LogError(e: Errors, r: ErrorRecord): Errors {
    FreePending(e).(log := e.log + [r], pending := Some(|e.log|))
  }

  function LogAll(e: Errors, rs: seq<ErrorRecord>): Errors
    decreases |rs|
  {
    if rs == [] then e else LogAll(LogError(e, rs[0]), rs[1..])
  }

  predicate Succeeded(rc: int) {
    rc == ERR_OK || rc == ERR_JOB_STARTED
  }

  /** The reply to a request whose handler ended with `rc`, and the records after it. */
  function Reply(e: Errors, rc: int, response: Value): (Value, Errors) {
    if Succeeded(rc) then (Response(response, ID), e)
    else if e.pending.Some? && e.pending.value < |e.log| then
      var r := e.log[e.pending.value];
      (ErrorReply(r.code, r.message, r.debug, ID), FreePending(e))
    else (ErrorReply(rc, NO_MESSAGE, "", ID), e)
  }

  // ----- handlers

  datatype Exception = EofEx | ValueEx | LsmEx | OtherEx

  datatype CallEnd = Returns(rc: int, response: Value) | Raises(ex: Exception)

  datatype Call = Call(logged: seq<ErrorRecord>, end: CallEnd)

  /** `handle(n, method, params)` is what the n-th request's handler does; `sends(n)` says
      whether the reply to it can be sent; `unregLogs` is logged by the unregister call. */
  datatype Env = Env(methods: set<string>,
                     handle: (nat, string, Value) -> Call,
                     sends: nat -> bool,
                     unregLogs: seq<ErrorRecord>)

  /** `process_request`. */
  function ProcessRequest(env: Env, n: nat, method_: string, params: Value): Call {
    if method_ == UNREGISTER then Call([], Returns(ERR_OK, Null))
    else if method_ in env.methods then env.handle(n, method_, params)
    else Call([], Returns(ERR_NO_SUPPORT, Null))
  }

  // ----- the loop

  datatype Stop = Running | AtEof | Invalid | Unregistered | Failed(ex: Exception)

  /** A valid request and the reply it got. */
  datatype Exchange = Exchange(request: Value, reply: Option<Value>)

  predicate Unregisters(x: Exchange) {
    AsString(GetValue(x.request, "method")) == Some(UNREGISTER)
  }

  datatype World = World(incoming: string, errors: Errors, exchanges: seq<Exchange>, read: nat, rc: int, stop: Stop)

  function ExceptionCode(ex: Exception, rc: int): int {
    match ex
    case EofEx => rc
    case ValueEx => 1
    case LsmEx => 2
    case OtherEx => 3
  }

  function Fail(w: World, ex: Exception): World {
    w.(rc := ExceptionCode(ex, w.rc), stop := Failed(ex))
  }

  /** The flags of `plugin_unregister` can be read. */
  predicate HasFlags(params: Value) {
    var flags := GetValue(params, "flags");
    flags.Num? && N.Scan(flags.text).Some?
  }

  /** A valid request, once its method name is known. */
  function Serve(env: Env, w: World, req: Value, method_: string): World {
    var n := |w.exchanges|;
    var call := ProcessRequest(env, n, method_, GetValue(req, "params"));
    var logged := LogAll(w.errors, call.logged);
    var unanswered := w.(errors := logged, exchanges := w.exchanges + [Exchange(req, None)]);
    match call.end
    case Raises(ex) => Fail(unanswered, ex)
    case Returns(rc, response) =>
      var (reply, errors) := Reply(logged, rc, response);
      if !env.sends(n) then Fail(unanswered.(rc := rc), LsmEx)
      else
        var done := w.(errors := errors, exchanges := w.exchanges + [Exchange(req, Some(reply))], rc := rc);
        if method_ != UNREGISTER then done
        else if HasFlags(GetValue(req, "params")) then done.(stop := Unregistered)
        else Fail(done, ValueEx)
  }

  /** What the loop does with a message. */
  function HandleMessage(env: Env, w: World, msg: string): (r: World)
    ensures r.incoming == w.incoming && r.read == w.read
  {
    match Deserialize(msg)
    case None => Fail(w, ValueEx)
    case Some(req) =>
      if !IsValidRequest(req) then w.(stop := Invalid)
      else
        match AsString(GetValue(req, "method"))
        case None => Fail(w.(exchanges := w.exchanges + [Exchange(req, None)]), ValueEx)
        case Some(m) => Serve(env, w, req, m)
  }

  /** One round of the loop. */
  function Round(env: Env, w: World): (r: World)
    requires w.stop == Running
    ensures r.stop == Running ==> |r.incoming| < |w.incoming|
  {
    match Receive(w.incoming)
    case Eof => w.(stop := AtEof)
    case Message(msg, rest) => HandleMessage(env, w.(incoming := rest, read := w.read + 1), msg)
  }

  /** `lsm_plugin_run` up to the final free. */
  function Loop(env: Env, w: World): World
    decreases |w.incoming|
  {
    if w.stop != Running then w
    else
      var r := Round(env, w);
      if r.stop == Running then Loop(env, r) else r
  }

  /** `lsm_plugin_free`: the unregister call may still log. */
  function PluginFree(env: Env, e: Errors): Errors {
    FreePending(LogAll(e, env.unregLogs))
  }

  /** A whole run over a stream. */
  function PluginRun(env: Env, incoming: string): World {
    var w := Loop(env, World(incoming, NO_ERRORS, [], 0, 0, Running));
    w.(errors := PluginFree(env, w.errors))
  }

  // ----- error records

  lemma FreeAccounted(e: Errors)
    requires Accounted(e)
    ensures Accounted(FreePending(e))
  {
  }

  lemma LogErrorAccounted(e: Errors, r: ErrorRecord)
    requires Accounted(e)
    ensures Accounted(LogError(e, r))
  {
    FreeAccounted(e);
    var f := LogError(e, r);
    forall id: nat ensures id < |f.log| <==> id in f.freed || f.pending == Some(id) {
      assert id < |e.log| <==> id in FreePending(e).freed;
    }
  }

  lemma {:induction false} LogAllAccounted(e: Errors, rs: seq<ErrorRecord>)
    requires Accounted(e)
    ensures Accounted(LogAll(e, rs))
    decreases |rs|
  {
    hide Accounted;
    if rs != [] {
      LogErrorAccounted(e, rs[0]);
      LogAllAccounted(LogError(e, rs[0]), rs[1..]);
    }
  }

  lemma {:induction false} LogAllLog(e: Errors, rs: seq<ErrorRecord>)
    ensures LogAll(e, rs).log == e.log + rs
    decreases |rs|
  {
    if rs == [] {
      assert e.log + rs == e.log;
    } else {
      LogAllLog(LogError(e, rs[0]), rs[1..]);
      assert e.log + [rs[0]] + rs[1..] == e.log + rs;
    }
  }

  /** The last record logged is the pending one. */
  lemma {:induction false} LogAllPending(e: Errors, rs: seq<ErrorRecord>)
    ensures LogAll(e, rs).pending == if rs == [] then e.pending else Some(|e.log| + |rs| - 1)
    decreases |rs|
  {
    if rs != [] {
      LogAllPending(LogError(e, rs[0]), rs[1..]);
    }
  }

  lemma RoundAccounted(env: Env, w: World)
    requires w.stop == Running && Accounted(w.errors)
    ensures Accounted(Round(env, w).errors)
  {
    hide Accounted, Receive, Deserialize, LogAll, FreePending, IsValidRequest;
    forall rs ensures Accounted(LogAll(w.errors, rs)) {
      LogAllAccounted(w.errors, rs);
    }
    forall e | Accounted(e) ensures Accounted(FreePending(e)) {
      FreeAccounted(e);
    }
  }

  lemma {:induction false} LoopAccounted(env: Env, w: World)
    requires Accounted(w.errors)
    ensures Accounted(Loop(env, w).errors)
    decreases |w.incoming|
  {
    hide Accounted, Round;
    if w.stop == Running {
      RoundAccounted(env, w);
      if Round(env, w).stop == Running {
        LoopAccounted(env, Round(env, w));
      }
    }
  }

  /** In every run each record that was ever logged is freed exactly once: by an error
      reply, by a later record or at the final free. */
  lemma EveryErrorFreedOnce(env: Env, incoming: string)
    ensures var e := PluginRun(env, incoming).errors;
            && e.pending.None?
            && Distinct(e.freed)
            && (forall id: nat :: id < |e.log| <==> id in e.freed)
  {
    hide Loop, LogAll;
    var w := Loop(env, World(incoming, NO_ERRORS, [], 0, 0, Running));
    LoopAccounted(env, World(incoming, NO_ERRORS, [], 0, 0, Running));
    LogAllAccounted(w.errors, env.unregLogs);
    FreeAccounted(LogAll(w.errors, env.unregLogs));
  }

  // ----- requests and replies

  /** The exchanges of a run so far: every valid request but the last has its reply, an
      unanswered one means that an exception ended the loop, and the request that
      unregisters is the last message read. */
  predicate Orderly(w: World) {
    && |w.exchanges| <= w.read
    && (w.stop == Running ==> w.read == |w.exchanges|)
    && (forall k | 0 <= k < |w.exchanges| ::
          && (w.exchanges[k].reply.None? ==> k == |w.exchanges| - 1 && w.stop.Failed?)
          && (Unregisters(w.exchanges[k]) ==> w.read == k + 1 && w.stop != Running))
  }

  lemma RoundOrderly(env: Env, w: World)
    requires w.stop == Running && Orderly(w)
    ensures Orderly(Round(env, w))
  {
    hide Receive, Deserialize, LogAll, Reply, IsValidRequest, ProcessRequest, HasFlags;
  }

  lemma {:induction false} LoopOrderly(env: Env, w: World)
    requires Orderly(w)
    ensures Orderly(Loop(env, w))
    ensures Loop(env, w).stop != Running
    decreases |w.incoming|
  {
    hide Orderly, Round;
    if w.stop == Running {
      RoundOrderly(env, w);
      if Round(env, w).stop == Running {
        LoopOrderly(env, Round(env, w));
      }
    }
  }

  /** One round takes one message off the stream and appends at most its request. */
  lemma RoundAppends(env: Env, w: World)
    requires w.stop == Running
    ensures var r := Round(env, w);
            match Receive(w.incoming)
            case Eof => r.exchanges == w.exchanges && r.stop != Running
            case Message(msg, rest) =>
              && r.incoming == rest
              && (r.stop == Running ==> |r.exchanges| == |w.exchanges| + 1)
              && (r.exchanges == w.exchanges ||
                  (Deserialize(msg).Some? && IsValidRequest(Deserialize(msg).value) &&
                   exists a :: r.exchanges == w.exchanges + [Exchange(Deserialize(msg).value, a)]))
  {
    hide Receive, Deserialize, LogAll, Reply, IsValidRequest, ProcessRequest, HasFlags;
  }

  /** The n-th exchange of the loop is about the n-th message of the stream. */
  lemma {:induction false} LoopInOrder(env: Env, w: World)
    requires w.stop == Running
    ensures var r, msgs := Loop(env, w), ReceiveAll(w.incoming).0;
            var n := |w.exchanges|;
            && n <= |r.exchanges| <= n + |msgs| && r.exchanges[..n] == w.exchanges
            && (forall k | n <= k < |r.exchanges| ::
                  Deserialize(msgs[k - n]) == Some(r.exchanges[k].request) && IsValidRequest(r.exchanges[k].request))
    decreases |w.incoming|
  {
    hide Round, Receive, Deserialize, IsValidRequest;
    RoundAppends(env, w);
    var r := Round(env, w);
    if r.stop == Running {
      LoopInOrder(env, r);
      var msgs, n := ReceiveAll(w.incoming).0, |w.exchanges|;
      var last := Loop(env, r);
      assert last.exchanges[..n] == last.exchanges[..n + 1][..n];
      assert last.exchanges[n] == last.exchanges[..n + 1][n];
      forall k | n <= k < |last.exchanges|
        ensures Deserialize(msgs[k - n]) == Some(last.exchanges[k].request) && IsValidRequest(last.exchanges[k].request)
      {
        if k > n {
          assert msgs[1..][k - n - 1] == msgs[k - n];
        }
      }
    }
  }

  /** In every run the requests served are the first messages of the stream, in order and
      each once; every one of them but the last has been answered, the last too unless an
      exception ended the loop; and after `plugin_unregister` nothing more is read. */
  lemma RequestsAnsweredOnce(env: Env, incoming: string)
    ensures var w, msgs := PluginRun(env, incoming), ReceiveAll(incoming).0;
            && w.stop != Running
            && |w.exchanges| <= |msgs|
            && (forall k | 0 <= k < |w.exchanges| ::
                  && Deserialize(msgs[k]) == Some(w.exchanges[k].request)
                  && IsValidRequest(w.exchanges[k].request)
                  && (w.exchanges[k].reply.None? ==> k == |w.exchanges| - 1 && w.stop.Failed?)
                  && (Unregisters(w.exchanges[k]) ==> w.read == k + 1))
  {
    hide Loop, Deserialize, IsValidRequest, Unregisters;
    var w := World(incoming, NO_ERRORS, [], 0, 0, Running);
    LoopOrderly(env, w);
    LoopInOrder(env, w);
  }
  // ----- how the loop ends

  /** The flags can be read when they are any printed integer, and not when they are absent
      or anything but a number. */
  lemma FlagsRead(params: Value, n: int)
    ensures GetValue(params, "flags") == Number(n) ==> HasFlags(params)
    ensures !HasKey(params, "flags") || !GetValue(params, "flags").Num? ==> !HasFlags(params)
    ensures GetValue(params, "flags") == Num("x") ==> !HasFlags(params)
  {
    hide Find, N.Scan, N.DecimalInt;
    N.ScanDecimalInt(n);
    N.ScanFails("", "x");
    assert "" + "x" == "x";
  }

  /** What the handler of an exchange did, if its method name can be read. */
  function CallFor(env: Env, n: nat, x: Exchange): Option<Call> {
    match AsString(GetValue(x.request, "method"))
    case None => None
    case Some(m) => Some(ProcessRequest(env, n, m, GetValue(x.request, "params")))
  }

  /** The code of the last handler that returned, 0 when there is none. */
  function LastCode(env: Env, xs: seq<Exchange>): int {
    if xs == [] then 0
    else
      var n := |xs| - 1;
      match CallFor(env, n, xs[n])
      case Some(Call(_, Returns(rc, _))) => rc
      case _ => LastCode(env, xs[..n])
  }

  /** The exception that serving the n-th request ends the loop with, if any. */
  function Trouble(env: Env, n: nat, x: Exchange): Option<Exception> {
    match CallFor(env, n, x)
    case None => Some(ValueEx)
    case Some(Call(_, Raises(ex))) => Some(ex)
    case Some(Call(_, Returns(_, _))) =>
      if !env.sends(n) then Some(LsmEx)
      else if Unregisters(x) && !HasFlags(GetValue(x.request, "params")) then Some(ValueEx)
      else None
  }

  /** Why a loop over the messages `msgs` has ended, `first` requests having been served
      before them, and the code it returns. */
  predicate EndsRight(env: Env, w: World, msgs: seq<string>, first: nat)
    requires first <= |w.exchanges| <= first + |msgs|
  {
    var k := |w.exchanges|;
    && (match w.stop
        case Running => false
        case AtEof => k == first + |msgs|
        case Invalid =>
          && k < first + |msgs| && Deserialize(msgs[k - first]).Some?
          && !IsValidRequest(Deserialize(msgs[k - first]).value)
        case Unregistered =>
          k > first && Unregisters(w.exchanges[k - 1]) && Trouble(env, k - 1, w.exchanges[k - 1]) == None
        case Failed(ex) =>
          || (k < first + |msgs| && Deserialize(msgs[k - first]) == None && ex == ValueEx)
          || (k > first && Trouble(env, k - 1, w.exchanges[k - 1]) == Some(ex)))
    && w.rc == match w.stop
               case Failed(ValueEx) => 1
               case Failed(LsmEx) => 2
               case Failed(OtherEx) => 3
               case _ => LastCode(env, w.exchanges)
  }

  lemma LastCodeMore(env: Env, xs: seq<Exchange>, x: Exchange)
    ensures LastCode(env, xs + [x]) ==
            match CallFor(env, |xs|, x)
            case Some(Call(_, Returns(rc, _))) => rc
            case _ => LastCode(env, xs)
  {
    assert (xs + [x])[..|xs|] == xs;
  }

  lemma ServeEnds(env: Env, w: World, req: Value, m: string, msgs: seq<string>)
    requires w.stop == Running && w.rc == LastCode(env, w.exchanges) && |msgs| > 0
    requires AsString(GetValue(req, "method")) == Some(m)
    ensures var r := Serve(env, w, req, m);
            if r.stop == Running then r.rc == LastCode(env, r.exchanges)
            else |r.exchanges| == |w.exchanges| + 1 && EndsRight(env, r, msgs, |w.exchanges|)
  {
    hide Deserialize, LogAll, Reply, IsValidRequest, ProcessRequest, HasFlags, LastCode;
    var n := |w.exchanges|;
    var call := ProcessRequest(env, n, m, GetValue(req, "params"));
    LastCodeMore(env, w.exchanges, Exchange(req, None));
    if call.end.Returns? && env.sends(n) {
      var reply := Reply(LogAll(w.errors, call.logged), call.end.rc, call.end.response).0;
      LastCodeMore(env, w.exchanges, Exchange(req, Some(reply)));
      assert CallFor(env, n, Exchange(req, Some(reply))) == Some(call);
    }
    assert CallFor(env, n, Exchange(req, None)) == Some(call);
  }

  lemma RoundEnds(env: Env, w: World)
    requires w.stop == Running && w.rc == LastCode(env, w.exchanges)
    ensures var r, msgs := Round(env, w), ReceiveAll(w.incoming).0;
            var n := |w.exchanges|;
            if r.stop == Running then r.rc == LastCode(env, r.exchanges)
            else n <= |r.exchanges| <= n + |msgs| && EndsRight(env, r, msgs, n)
  {
    hide Receive, Deserialize, Serve, IsValidRequest, ProcessRequest, HasFlags, LastCode;
    var msgs := ReceiveAll(w.incoming).0;
    if Receive(w.incoming).Message? {
      var (msg, rest) := (Receive(w.incoming).msg, Receive(w.incoming).rest);
      var w' := w.(incoming := rest, read := w.read + 1);
      var req := Deserialize(msg);
      if req.Some? && IsValidRequest(req.value) {
        var m := AsString(GetValue(req.value, "method"));
        if m.Some? {
          ServeEnds(env, w', req.value, m.value, msgs);
        } else {
          LastCodeMore(env, w.exchanges, Exchange(req.value, None));
        }
      }
    }
  }

  /** The messages still to come and the requests already served shift together. */
  lemma EndsShift(env: Env, w: World, msgs: seq<string>, first: nat)
    requires |msgs| > 0 && first + 1 <= |w.exchanges| <= first + |msgs|
    requires EndsRight(env, w, msgs[1..], first + 1)
    ensures EndsRight(env, w, msgs, first)
  {
    hide Deserialize, IsValidRequest, Trouble, LastCode, Unregisters;
  }

  lemma {:induction false} LoopEnds(env: Env, w: World)
    requires w.stop == Running && w.rc == LastCode(env, w.exchanges)
    ensures var r, msgs := Loop(env, w), ReceiveAll(w.incoming).0;
            var n := |w.exchanges|;
            n <= |r.exchanges| <= n + |msgs| && EndsRight(env, r, msgs, n)
    decreases |w.incoming|
  {
    hide Round, Receive, EndsRight, LastCode;
    RoundEnds(env, w);
    RoundAppends(env, w);
    var r := Round(env, w);
    if r.stop == Running {
      LoopEnds(env, r);
      LoopInOrder(env, r);
      EndsShift(env, Loop(env, r), ReceiveAll(w.incoming).0, |w.exchanges|);
    }
  }

  /** The records that the handlers of these exchanges logged, in order. */
  function LogsOf(env: Env, xs: seq<Exchange>): seq<ErrorRecord> {
    if xs == [] then []
    else
      var n := |xs| - 1;
      match CallFor(env, n, xs[n])
      case Some(c) => LogsOf(env, xs[..n]) + c.logged
      case None => LogsOf(env, xs[..n])
  }

  lemma LogsMore(env: Env, xs: seq<Exchange>, x: Exchange)
    ensures LogsOf(env, xs + [x]) ==
            match CallFor(env, |xs|, x)
            case Some(c) => LogsOf(env, xs) + c.logged
            case None => LogsOf(env, xs)
  {
    assert (xs + [x])[..|xs|] == xs;
  }

  lemma ServeLogs(env: Env, w: World, req: Value, m: string)
    requires AsString(GetValue(req, "method")) == Some(m) && w.errors.log == LogsOf(env, w.exchanges)
    ensures var r := Serve(env, w, req, m); r.errors.log == LogsOf(env, r.exchanges)
  {
    hide LogAll, ProcessRequest, HasFlags, LogsOf, Response, ErrorReply;
    var n := |w.exchanges|;
    var call := ProcessRequest(env, n, m, GetValue(req, "params"));
    LogAllLog(w.errors, call.logged);
    LogsMore(env, w.exchanges, Exchange(req, None));
    if call.end.Returns? && env.sends(n) {
      var reply := Reply(LogAll(w.errors, call.logged), call.end.rc, call.end.response).0;
      LogsMore(env, w.exchanges, Exchange(req, Some(reply)));
    }
  }

  lemma RoundLogs(env: Env, w: World)
    requires w.stop == Running && w.errors.log == LogsOf(env, w.exchanges)
    ensures var r := Round(env, w); r.errors.log == LogsOf(env, r.exchanges)
  {
    hide Receive, Deserialize, Serve, IsValidRequest, ProcessRequest, LogsOf;
    if Receive(w.incoming).Message? {
      var w' := w.(incoming := Receive(w.incoming).rest, read := w.read + 1);
      var req := Deserialize(Receive(w.incoming).msg);
      if req.Some? && IsValidRequest(req.value) {
        var m := AsString(GetValue(req.value, "method"));
        if m.Some? {
          ServeLogs(env, w', req.value, m.value);
        } else {
          LogsMore(env, w.exchanges, Exchange(req.value, None));
        }
      }
    }
  }

  lemma {:induction false} LoopLogs(env: Env, w: World)
    requires w.errors.log == LogsOf(env, w.exchanges)
    ensures var r := Loop(env, w); r.errors.log == LogsOf(env, r.exchanges)
    decreases |w.incoming|
  {
    hide Round, LogsOf;
    if w.stop == Running {
      RoundLogs(env, w);
      if Round(env, w).stop == Running {
        LoopLogs(env, Round(env, w));
      }
    }
  }

  /** In every run the records ever logged are those of the handlers, in order, and then
      those of the unregister call. */
  lemma EveryErrorLogged(env: Env, incoming: string)
    ensures var w := PluginRun(env, incoming); w.errors.log == LogsOf(env, w.exchanges) + env.unregLogs
  {
    hide Loop, LogAll, LogsOf;
    var w := World(incoming, NO_ERRORS, [], 0, 0, Running);
    assert LogsOf(env, []) == [] by { NoLogs(env); }
    LoopLogs(env, w);
    LogAllLog(Loop(env, w).errors, env.unregLogs);
  }

  lemma NoLogs(env: Env)
    ensures LogsOf(env, []) == []
  {
  }

  /** In every run the loop ends for one of these reasons: the end of the stream after the
      last message, a message that is no valid request, `plugin_unregister`, a message that
      is no JSON, a handler that raises, a reply that cannot be sent, or a request whose
      method or flags cannot be read.  It returns 1, 2 or 3 after an exception, else the
      code of the last handler that returned. */
  lemma RunEndsRight(env: Env, incoming: string)
    ensures var w, msgs := PluginRun(env, incoming), ReceiveAll(incoming).0;
            |w.exchanges| <= |msgs| && EndsRight(env, w, msgs, 0)
  {
    hide Loop, EndsRight, ReceiveAll;
    var w := World(incoming, NO_ERRORS, [], 0, 0, Running);
    LoopEnds(env, w);
    EndsIgnoresErrors(env, Loop(env, w), PluginRun(env, incoming).errors, ReceiveAll(incoming).0);
  }

  lemma EndsIgnoresErrors(env: Env, w: World, e: Errors, msgs: seq<string>)
    requires |w.exchanges| <= |msgs| && EndsRight(env, w, msgs, 0)
    ensures EndsRight(env, w.(errors := e), msgs, 0)
  {
  }
}
