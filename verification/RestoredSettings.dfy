/** The category and environment a restored session gets (src/restore.rs). */
module RestoredSettings {
  import opened Wrappers
  import opened Snapshots
  import opened TmuxServer
  import opened RestoreWindow
  import opened RestoreSessions

  /** The last value recorded for a variable. */
  function LastValue(env: Env, v: string): Option<string> {
    if env == [] then None else if Last(env).0 == v then Some(Last(env).1) else LastValue(Front(env), v)
  }

  lemma {:induction false} LastValueIs(env: Env, v: string)
    ensures LastValue(env, v).None? <==> forall i :: 0 <= i < |env| ==> env[i].0 != v
    ensures LastValue(env, v).Some? ==>
              exists i :: 0 <= i < |env| && env[i] == (v, LastValue(env, v).value)
                          && forall j :: i < j < |env| ==> env[j].0 != v
  {
    if env != [] && Last(env).0 != v {
      var front := Front(env);
      LastValueIs(front, v);
      assert forall i :: 0 <= i < |front| ==> env[i] == front[i];
      if LastValue(front, v).Some? {
        var i :| 0 <= i < |front| && front[i] == (v, LastValue(front, v).value)
                 && forall j :: i < j < |front| ==> front[j].0 != v;
        assert env[i] == (v, LastValue(env, v).value) && forall j :: i < j < |env| ==> env[j].0 != v;
      }
    } else if env != [] {
      assert env[|env| - 1] == (v, LastValue(env, v).value);
    }
  }

  /** `after` is `before` with the recorded variables set, each to the last value
      recorded for it. */
  ghost predicate EnvSet(before: map<string, string>, after: map<string, string>, env: Env) {
    forall v :: if LastValue(env, v).Some? then v in after && after[v] == LastValue(env, v).value
                else (v in after <==> v in before) && (v in after ==> after[v] == before[v])
  }

  lemma {:induction false} WithEnvSets(s: Server, name: string, env: Env)
    requires name in s.sessions
    ensures name in WithEnv(s, name, env).sessions
    ensures EnvSet(s.sessions[name].env, WithEnv(s, name, env).sessions[name].env, env)
    ensures WithEnv(s, name, env).sessions[name].category == s.sessions[name].category
  {
    if env != [] {
      WithEnvSets(s, name, Front(env));
    }
  }

  /** The session as the windows left it, before it is configured. */
  function Unconfigured(s: Server, session: SessionSnap, o: Options): Progress {
    AddWindows(s, session.name, TakenIn(s, session.name), session.windows, o)
  }

  /** A restored session has the recorded category, unless that is empty, and every
      recorded variable; one with a fault is left as its windows are. */
  lemma {:induction false} SettingsRestored(s: Server, session: SessionSnap, o: Options)
    ensures var p, r := Unconfigured(s, session, o), SessionRestored(s, session, o);
            && (p.fault.Some? ==> r == p)
            && (p.fault.None? && session.name in p.server.sessions ==>
                  && session.name in r.server.sessions
                  && r.server.sessions[session.name].category
                     == (if session.category != "" then session.category
                         else p.server.sessions[session.name].category)
                  && EnvSet(p.server.sessions[session.name].env, r.server.sessions[session.name].env, session.env))
  {
    var p := Unconfigured(s, session, o);
    var t := if session.name in p.server.sessions && session.category != ""
             then SetCategory(p.server, session.name, session.category) else p.server;
    hide AddWindows, WithEnv, EnvSet;
    if p.fault.None? && session.name in p.server.sessions {
      WithEnvSets(t, session.name, session.env);
    }
  }
}
