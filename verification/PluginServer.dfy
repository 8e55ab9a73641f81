/** The plug-in object as the loop of c_binding/lsm_plugin_ipc.cpp updates it in place,
    proved to carry out the rounds of module `PluginLoop`. */
module PluginServer {
  import opened Wrappers
  import opened Transport
  import opened JsonValue
  import opened JsonPayload
  import opened Ipc
  import opened PluginLoop

  class Plugin {
    var incoming: string
    var log: seq<ErrorRecord>
    var error: Option<nat>
    var freed: seq<nat>
    var exchanges: seq<Exchange>
    var read: nat
    var rc: int
    var stop: Stop

    ghost function E(): Errors
      reads this
    {
      Errors(log, error, freed)
    }

    ghost function W(): World
      reads this
    {
      World(incoming, E(), exchanges, read, rc, stop)
    }

    ghost predicate Valid()
      reads this
    {
      Accounted(E())
    }

    constructor (incoming: string)
      ensures Valid() && W() == World(incoming, NO_ERRORS, [], 0, 0, Running)
    {
      this.incoming, log, error, freed := incoming, [], None, [];
      exchanges, read, rc, stop := [], 0, 0, Running;
    }

    /** `lsm_error_free` on the pending record, which must not have been freed before. */
    method ErrorFree()
      requires Valid() && error.Some?
      modifies `freed, `error
      ensures Valid() && E() == FreePending(old(E()))
    {
      assert error.value !in freed;
      FreeAccounted(E());
      freed := freed + [error.value];
      error := None;
    }

    /** `lsm_plugin_error_log`. */
    method ErrorLog(r: ErrorRecord)
      requires Valid()
      modifies `log, `freed, `error
      ensures Valid() && E() == LogError(old(E()), r)
    {
      LogErrorAccounted(E(), r);
      if error.Some? {
        ErrorFree();
      }
      log := log + [r];
      error := Some(|log| - 1);
    }

    method ErrorLogAll(rs: seq<ErrorRecord>)
      requires Valid()
      modifies `log, `freed, `error
      ensures Valid() && E() == LogAll(old(E()), rs)
    {
      hide Accounted, LogError;
      var i := 0;
      while i < |rs|
        invariant i <= |rs| && Valid()
        invariant LogAll(E(), rs[i..]) == LogAll(old(E()), rs)
      {
        assert rs[i..][0] == rs[i] && rs[i..][1..] == rs[i + 1..];
        ErrorLog(rs[i]);
        i := i + 1;
      }
    }

    /** `responseSend` or `error_send`: an error record is freed once its reply is out. */
    method Answer(req: Value, code: int, response: Value, sent: bool)
      requires Valid()
      modifies `freed, `error, `exchanges
      ensures Valid()
      ensures var (reply, errors) := Reply(old(E()), code, response);
              if sent then E() == errors && exchanges == old(exchanges) + [Exchange(req, Some(reply))]
              else E() == old(E()) && exchanges == old(exchanges) + [Exchange(req, None)]
    {
      var reply;
      if Succeeded(code) {
        reply := Response(response, ID);
      } else if error.Some? {
        var r := log[error.value];
        reply := ErrorReply(r.code, r.message, r.debug, ID);
        if sent {
          ErrorFree();
        }
      } else {
        reply := ErrorReply(code, NO_MESSAGE, "", ID);
      }
      exchanges := exchanges + [Exchange(req, if sent then Some(reply) else None)];
    }

    method Catch(ex: Exception)
      modifies `rc, `stop
      ensures W() == Fail(old(W()), ex)
    {
      stop := Failed(ex);
      rc := ExceptionCode(ex, rc);
    }

    method ServeRequest(env: Env, req: Value, m: string)
      requires Valid()
      modifies this
      ensures Valid() && W() == Serve(env, old(W()), req, m)
    {
      hide Accounted, LogAll, Reply, ProcessRequest, HasFlags;
      var n := |exchanges|;
      var call := ProcessRequest(env, n, m, GetValue(req, "params"));
      ErrorLogAll(call.logged);
      match call.end {
        case Raises(ex) =>
          exchanges := exchanges + [Exchange(req, None)];
          Catch(ex);
        case Returns(code, response) =>
          rc := code;
          Answer(req, code, response, env.sends(n));
          if !env.sends(n) {
            Catch(LsmEx);
          } else if m == UNREGISTER {
            if HasFlags(GetValue(req, "params")) {
              stop := Unregistered;
            } else {
              Catch(ValueEx);
            }
          }
      }
    }

    /** One round of `lsm_plugin_run`. */
    method ServeOne(env: Env)
      requires Valid() && stop == Running
      modifies this
      ensures Valid() && W() == Round(env, old(W()))
    {
      hide Accounted, Serve, IsValidRequest, Deserialize, Receive;
      match Receive(incoming) {
        case Eof =>
          stop := AtEof;
        case Message(msg, rest) =>
          incoming, read := rest, read + 1;
          var v := DeserializeText(msg);
          if v.None? {
            Catch(ValueEx);
          } else if !IsValidRequest(v.value) {
            stop := Invalid;
          } else {
            var m := AsString(GetValue(v.value, "method"));
            if m.None? {
              exchanges := exchanges + [Exchange(v.value, None)];
              Catch(ValueEx);
            } else {
              ServeRequest(env, v.value, m.value);
            }
          }
      }
    }

    /** `lsm_plugin_run` and `lsm_plugin_free`. */
    method Run(env: Env)
      requires Valid() && W() == World(incoming, NO_ERRORS, [], 0, 0, Running)
      modifies this
      ensures Valid() && W() == PluginRun(env, old(incoming)) && error.None?
    {
      hide Accounted, Round, LogAll;
      ghost var start := W();
      while stop == Running
        invariant Valid() && Loop(env, W()) == Loop(env, start)
        decreases if stop == Running then |incoming| + 1 else 0
      {
        ServeOne(env);
      }
      ErrorLogAll(env.unregLogs);
      if error.Some? {
        ErrorFree();
      }
    }
  }
}
