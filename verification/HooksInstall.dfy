/** Installing and removing our hook groups in Claude's settings
    (src/hooks_install.rs). Settings are parsed JSON, objects keep their keys in
    order; printing is the inverse of parsing. */
module HooksInstall {
  import opened Wrappers

  datatype Json =
    | Null
    | Bool(b: bool)
    | Num(n: int)
    | Str(s: string)
    | Arr(items: seq<Json>)
    | Obj(fields: seq<(string, Json)>)

  type Fields = seq<(string, Json)>

  datatype Fault = NotAnObject | HooksNotAnObject | EventNotAnArray(event: string)

  // ---- Objects -------------------------------------------------------------

  /** Position of a key; `|fields|` when it isn't there. */
  function KeyAt(fields: Fields, key: string): (i: nat)
    ensures i <= |fields| && (i < |fields| ==> fields[i].0 == key)
    ensures forall k :: 0 <= k < i ==> fields[k].0 != key
  {
    if fields == [] then 0 else if fields[0].0 == key then 0 else 1 + KeyAt(fields[1..], key)
  }

  function Get(v: Json, key: string): Json {
    if v.Obj? && KeyAt(v.fields, key) < |v.fields| then v.fields[KeyAt(v.fields, key)].1 else Null
  }

  /** Removing a key moves the last one to its place. */
  function SwapRemoved<T>(fields: seq<T>, i: nat): seq<T>
    requires i < |fields|
  {
    if i == |fields| - 1 then fields[..i] else fields[..|fields| - 1][i := fields[|fields| - 1]]
  }

  // ---- Groups --------------------------------------------------------------

  predicate HookRuns(h: Json, command: string) {
    Get(h, "command") == Str(command)
  }

  /** A hook group that runs `command`. */
  predicate GroupRuns(group: Json, command: string) {
    var hooks := Get(group, "hooks");
    hooks.Arr? && exists i :: 0 <= i < |hooks.items| && HookRuns(hooks.items[i], command)
  }

  predicate AnyRuns(list: seq<Json>, command: string) {
    exists i :: 0 <= i < |list| && GroupRuns(list[i], command)
  }

  datatype Subscription = Subscription(event: string, matcher: string, isAsync: bool)

  /** The events the plugin subscribes to. */
  const TEMPLATE: seq<Subscription> := [
    Subscription("SessionStart", ".*", false),
    Subscription("SessionEnd", ".*", false),
    Subscription("Stop", ".*", false),
    Subscription("PermissionRequest", ".*", false),
    Subscription("Notification", ".*", false),
    Subscription("UserPromptSubmit", ".*", true),
    Subscription("PreToolUse", "AskUserQuestion", true),
    Subscription("PostToolUse", ".*", true)]

  /** The group subscribing to an event with our command. */
  function GroupFor(s: Subscription, command: string): Json {
    var hook := [("type", Str("command")), ("command", Str(command)), ("timeout", Num(5))];
    Obj([("matcher", Str(s.matcher)),
         ("hooks", Arr([Obj(if s.isAsync then hook + [("async", Bool(true))] else hook)]))])
  }

  lemma {:induction false} OurGroupRuns(s: Subscription, command: string)
    ensures GroupRuns(GroupFor(s, command), command)
  {
    var g := GroupFor(s, command);
    assert g.fields[0].0 == "matcher" != "hooks" && g.fields[1..][0].0 == "hooks";
    assert KeyAt(g.fields, "hooks") == 1;
    var h := Get(g, "hooks").items[0];
    assert h.fields[0].0 == "type" != "command" && h.fields[1..][0].0 == "command";
    assert KeyAt(h.fields, "command") == 1;
    assert HookRuns(h, command);
  }

  /** Our group has the subscription's matcher and one hook, a command that is given
      five seconds, in the background where the subscription says so. */
  lemma {:induction false} GroupIs(s: Subscription, command: string)
    ensures var hooks := Get(GroupFor(s, command), "hooks");
            && Get(GroupFor(s, command), "matcher") == Str(s.matcher) && hooks.Arr? && |hooks.items| == 1
            && Get(hooks.items[0], "type") == Str("command") && Get(hooks.items[0], "command") == Str(command)
            && Get(hooks.items[0], "timeout") == Num(5)
            && Get(hooks.items[0], "async") == if s.isAsync then Bool(true) else Null
  {
    var g := GroupFor(s, command);
    assert g.fields[0].0 == "matcher" && KeyAt(g.fields, "matcher") == 0;
    assert "matcher"[0] != "hooks"[0] && g.fields[1..][0].0 == "hooks" && KeyAt(g.fields, "hooks") == 1;
    var h := Get(g, "hooks").items[0];
    var fs := h.fields;
    assert fs[0].0 == "type" && fs[1].0 == "command" && fs[2].0 == "timeout" && (s.isAsync ==> fs[3].0 == "async");
    assert |fs| == if s.isAsync then 4 else 3;
    DistinctWords();
    KeyFound(fs, 0);
    KeyFound(fs, 1);
    KeyFound(fs, 2);
    if s.isAsync {
      KeyFound(fs, 3);
    } else {
      KeyMissing(fs, "async");
    }
  }

  lemma {:induction false} DistinctWords()
    ensures "type"[0] != "command"[0] && "command"[0] != "async"[0] && "type" != "timeout" && "async"[0] != "type"[0]
    ensures "timeout"[0] != "command"[0] && "timeout"[0] != "async"[0]
  {
    assert "type"[1] != "timeout"[1];
  }

  lemma {:induction false} KeyFound(fields: Fields, i: nat)
    requires i < |fields| && forall k :: 0 <= k < i ==> fields[k].0 != fields[i].0
    ensures KeyAt(fields, fields[i].0) == i
  {
  }

  lemma {:induction false} KeyMissing(fields: Fields, key: string)
    requires forall k :: 0 <= k < |fields| ==> fields[k].0 != key
    ensures KeyAt(fields, key) == |fields|
  {
  }

  // ---- Installing ----------------------------------------------------------

  function WithEvent(hooks: Fields, s: Subscription, command: string): Result<Fields, Fault> {
    var i := KeyAt(hooks, s.event);
    if i == |hooks| then Ok(hooks + [(s.event, Arr([GroupFor(s, command)]))])
    else if !hooks[i].1.Arr? then Err(EventNotAnArray(s.event))
    else if AnyRuns(hooks[i].1.items, command) then Ok(hooks)
    else Ok(hooks[i := (s.event, Arr(hooks[i].1.items + [GroupFor(s, command)]))])
  }

  function WithEvents(hooks: Fields, template: seq<Subscription>, command: string): Result<Fields, Fault> {
    if template == [] then Ok(hooks) else
    match WithEvents(hooks, template[..|template| - 1], command)
    case Err(e) => Err(e)
    case Ok(h) => WithEvent(h, template[|template| - 1], command)
  }

  function Installed(root: Json, command: string): Result<Json, Fault> {
    if !root.Obj? then Err(NotAnObject) else
    var i := KeyAt(root.fields, "hooks");
    var hooks := if i == |root.fields| then Obj([]) else root.fields[i].1;
    if !hooks.Obj? then Err(HooksNotAnObject) else
    match WithEvents(hooks.fields, TEMPLATE, command)
    case Err(e) => Err(e)
    case Ok(h) =>
      var entry := ("hooks", Obj(h));
      Ok(Obj(if i == |root.fields| then root.fields + [entry] else root.fields[i := entry]))
  }

  method Runs(list: seq<Json>, command: string) returns (r: bool)
    ensures r == AnyRuns(list, command)
  {
    r := false;
    for i := 0 to |list|
      invariant r <==> exists k :: 0 <= k < i && GroupRuns(list[k], command)
    {
      r := r || GroupRuns(list[i], command);
    }
  }

  method InstallEvent(before: Fields, s: Subscription, command: string) returns (r: Result<Fields, Fault>)
    ensures r == WithEvent(before, s, command)
  {
    hide GroupFor, AnyRuns;
    var hooks := before;
    var i := KeyAt(hooks, s.event);
    if i == |hooks| {
      hooks := hooks + [(s.event, Arr([]))];
    }
    if !hooks[i].1.Arr? {
      return Err(EventNotAnArray(s.event));
    }
    var list := hooks[i].1.items;
    NothingRuns(command);
    var runs := Runs(list, command);
    if !runs {
      hooks := hooks[i := (s.event, Arr(list + [GroupFor(s, command)]))];
      assert [] + [GroupFor(s, command)] == [GroupFor(s, command)];
      assert i == |before| ==> hooks == before + [(s.event, Arr([GroupFor(s, command)]))];
    }
    r := Ok(hooks);
  }

  method InstallEvents(before: Fields, template: seq<Subscription>, command: string) returns (r: Result<Fields, Fault>)
    ensures r == WithEvents(before, template, command)
  {
    hide WithEvent;
    var hooks := before;
    for n := 0 to |template|
      invariant WithEvents(before, template[..n], command) == Ok(hooks)
    {
      assert template[..n + 1][..n] == template[..n] && template[..n + 1][n] == template[n];
      FaultStays(before, template, n + 1, command);
      var more := InstallEvent(hooks, template[n], command);
      if more.Err? {
        return more;
      }
      hooks := more.value;
    }
    assert template[..|template|] == template;
    r := Ok(hooks);
  }

  /** Settings with a group running `command` on every template event that lacks one. */
  method ClaudeInstall(root: Json, command: string) returns (r: Result<Json, Fault>)
    ensures r == Installed(root, command)
  {
    hide WithEvents;
    if !root.Obj? {
      return Err(NotAnObject);
    }
    var fields := root.fields;
    var at := KeyAt(fields, "hooks");
    if at == |fields| {
      fields := fields + [("hooks", Obj([]))];
    }
    if !fields[at].1.Obj? {
      return Err(HooksNotAnObject);
    }
    var hooks := InstallEvents(fields[at].1.fields, TEMPLATE, command);
    match hooks {
      case Err(e) => r := Err(e);
      case Ok(h) =>
        fields := fields[at := ("hooks", Obj(h))];
        assert at == |root.fields| ==> fields == root.fields + [("hooks", Obj(h))];
        r := Ok(Obj(fields));
    }
  }

  lemma {:induction false} NothingRuns(command: string)
    ensures !AnyRuns([], command)
  {
  }

  lemma {:induction false} FaultStays(hooks: Fields, template: seq<Subscription>, n: nat, command: string)
    requires n <= |template|
    ensures WithEvents(hooks, template[..n], command).Err? ==>
              WithEvents(hooks, template, command) == WithEvents(hooks, template[..n], command)
    decreases |template|
  {
    if n < |template| {
      FaultStays(hooks, template[..|template| - 1], n, command);
      assert template[..|template| - 1][..n] == template[..n];
    } else {
      assert template[..n] == template;
    }
  }

  // ---- What installing adds ------------------------------------------------

  /** The entry `b` of the hooks after installing: that of before, or with our
      group after the groups of the template event it stands for. */
  ghost predicate Kept(h: Fields, i: nat, b: (string, Json), template: seq<Subscription>, command: string)
    requires i < |h|
  {
    b == h[i] ||
    exists k :: 0 <= k < |template| && KeyAt(h, template[k].event) == i
                && h[i].1.Arr? && !AnyRuns(h[i].1.items, command)
                && b == (h[i].0, Arr(h[i].1.items + [GroupFor(template[k], command)]))
  }

  ghost predicate OnlyOurs(b: (string, Json), template: seq<Subscription>, command: string) {
    exists k :: 0 <= k < |template| && b == (template[k].event, Arr([GroupFor(template[k], command)]))
  }

  /** Every entry of before is there, in order, with all its groups in order; only
      our groups were added. */
  ghost predicate Extends(h: Fields, after: Fields, template: seq<Subscription>, command: string) {
    && |h| <= |after|
    && (forall i :: 0 <= i < |h| ==> Kept(h, i, after[i], template, command))
    && (forall i :: |h| <= i < |after| ==> OnlyOurs(after[i], template, command))
  }

  lemma {:induction false} OursRun(list: seq<Json>, s: Subscription, command: string)
    ensures AnyRuns(list + [GroupFor(s, command)], command)
  {
    OurGroupRuns(s, command);
    assert (list + [GroupFor(s, command)])[|list|] == GroupFor(s, command);
  }

  lemma {:induction false} KeptMore(h: Fields, i: nat, b: (string, Json), template: seq<Subscription>,
        s: Subscription, command: string)
    requires i < |h| && Kept(h, i, b, template, command)
    ensures Kept(h, i, b, template + [s], command)
  {
    if b != h[i] {
      var k :| 0 <= k < |template| && KeyAt(h, template[k].event) == i && h[i].1.Arr? && !AnyRuns(h[i].1.items, command)
               && b == (h[i].0, Arr(h[i].1.items + [GroupFor(template[k], command)]));
      assert (template + [s])[k] == template[k];
    }
  }

  lemma {:induction false} OnlyOursMore(b: (string, Json), template: seq<Subscription>, s: Subscription,
        command: string)
    requires OnlyOurs(b, template, command)
    ensures OnlyOurs(b, template + [s], command)
  {
    var k :| 0 <= k < |template| && b == (template[k].event, Arr([GroupFor(template[k], command)]));
    assert (template + [s])[k] == template[k];
  }

  lemma {:induction false} SameKeys(h: Fields, after: Fields, template: seq<Subscription>, command: string, key: string)
    requires Extends(h, after, template, command)
    ensures KeyAt(h, key) < |h| ==> KeyAt(after, key) == KeyAt(h, key)
    ensures KeyAt(h, key) == |h| ==> KeyAt(after, key) >= |h|
  {
    hide GroupFor, AnyRuns;
    assert forall i :: 0 <= i < |h| ==> after[i].0 == h[i].0;
  }

  /** An entry that isn't as it was, or wasn't there, runs our command. */
  lemma {:induction false} ChangedRuns(h: Fields, after: Fields, template: seq<Subscription>, command: string, i: nat)
    requires Extends(h, after, template, command) && i < |after| && (i < |h| ==> after[i] != h[i])
    ensures after[i].1.Arr? && AnyRuns(after[i].1.items, command)
  {
    hide AnyRuns, GroupFor, KeyAt;
    if i < |h| {
      assert Kept(h, i, after[i], template, command);
      var k :| 0 <= k < |template| && after[i] == (h[i].0, Arr(h[i].1.items + [GroupFor(template[k], command)]));
      OursRun(h[i].1.items, template[k], command);
    } else {
      assert OnlyOurs(after[i], template, command);
      var k :| 0 <= k < |template| && after[i] == (template[k].event, Arr([GroupFor(template[k], command)]));
      OursRun([], template[k], command);
      assert [] + [GroupFor(template[k], command)] == [GroupFor(template[k], command)];
    }
  }

  lemma {:induction false} WithEventExtends(h: Fields, mid: Fields, template: seq<Subscription>, s: Subscription,
        command: string)
    requires Extends(h, mid, template, command) && WithEvent(mid, s, command).Ok?
    ensures Extends(h, WithEvent(mid, s, command).value, template + [s], command)
  {
    var after, i := WithEvent(mid, s, command).value, KeyAt(mid, s.event);
    var more := template + [s];
    assert more[|template|] == s;
    SameKeys(h, mid, template, command, s.event);
    forall k | 0 <= k < |h|
      ensures Kept(h, k, mid[k], more, command)
    {
      KeptMore(h, k, mid[k], template, s, command);
    }
    forall k | |h| <= k < |mid|
      ensures OnlyOurs(mid[k], more, command)
    {
      OnlyOursMore(mid[k], template, s, command);
    }
    if i < |mid| && !AnyRuns(mid[i].1.items, command) {
      if i >= |h| || mid[i] != h[i] {
        ChangedRuns(h, mid, template, command, i);
      }
      assert i < |h| && mid[i] == h[i];
      assert Kept(h, i, after[i], more, command);
    }
    hide Kept, OnlyOurs, AnyRuns, GroupFor;
  }

  lemma {:induction false} InstallExtends(h: Fields, template: seq<Subscription>, command: string)
    requires WithEvents(h, template, command).Ok?
    ensures Extends(h, WithEvents(h, template, command).value, template, command)
  {
    if template != [] {
      var front, s := template[..|template| - 1], template[|template| - 1];
      hide WithEvent, Extends;
      InstallExtends(h, front, command);
      WithEventExtends(h, WithEvents(h, front, command).value, front, s, command);
      assert front + [s] == template;
    }
  }

  // ---- Nothing missing -----------------------------------------------------

  /** The event has a group running our command. */
  predicate Subscribed(hooks: Fields, event: string, command: string) {
    var i := KeyAt(hooks, event);
    i < |hooks| && hooks[i].1.Arr? && AnyRuns(hooks[i].1.items, command)
  }

  function MissingAmong(root: Json, template: seq<Subscription>, command: string): seq<string> {
    if template == [] then [] else
    var event := template[|template| - 1].event;
    var list := Get(Get(root, "hooks"), event);
    MissingAmong(root, template[..|template| - 1], command)
    + if list.Arr? && AnyRuns(list.items, command) then [] else [event]
  }

  /** Template events with no group running `command`. */
  function MissingEvents(root: Json, command: string): seq<string> {
    MissingAmong(root, TEMPLATE, command)
  }

  function Put(fields: Fields, key: string, v: Json): Fields {
    var i := KeyAt(fields, key);
    if i == |fields| then fields + [(key, v)] else fields[i := (key, v)]
  }

  lemma {:induction false} PutIsFound(fields: Fields, key: string, v: Json)
    ensures var i, after := KeyAt(fields, key), Put(fields, key, v);
            i < |after| && KeyAt(after, key) == i && after[i] == (key, v)
  {
    var i, after := KeyAt(fields, key), Put(fields, key, v);
    assert after[i].0 == key;
    assert forall k :: 0 <= k < i ==> after[k].0 != key;
  }

  lemma {:induction false} PutKeepsOthers(fields: Fields, key: string, v: Json, other: string)
    requires other != key && KeyAt(fields, other) < |fields|
    ensures var j, after := KeyAt(fields, other), Put(fields, key, v);
            j < |after| && KeyAt(after, other) == j && after[j] == fields[j]
  {
    var after := Put(fields, key, v);
    assert forall k :: 0 <= k < |fields| ==> after[k].0 == fields[k].0;
  }

  lemma {:induction false} SubscribedStays(hooks: Fields, s: Subscription, command: string, event: string)
    requires WithEvent(hooks, s, command).Ok? && (Subscribed(hooks, event, command) || event == s.event)
    ensures Subscribed(WithEvent(hooks, s, command).value, event, command)
  {
    if !Subscribed(hooks, s.event, command) {
      var i := KeyAt(hooks, s.event);
      var list := if i == |hooks| then [] else hooks[i].1.items;
      var v := Arr(list + [GroupFor(s, command)]);
      assert [] + [GroupFor(s, command)] == [GroupFor(s, command)];
      assert WithEvent(hooks, s, command) == Ok(Put(hooks, s.event, v));
      OursRun(list, s, command);
      hide AnyRuns, GroupFor, KeyAt, WithEvent, Put;
      PutIsFound(hooks, s.event, v);
      if event != s.event {
        PutKeepsOthers(hooks, s.event, v, event);
      }
    }
  }

  lemma {:induction false} AllSubscribedAfter(hooks: Fields, template: seq<Subscription>, command: string, k: nat)
    requires WithEvents(hooks, template, command).Ok? && k < |template|
    ensures Subscribed(WithEvents(hooks, template, command).value, template[k].event, command)
    decreases |template|
  {
    var front, s := template[..|template| - 1], template[|template| - 1];
    var mid := WithEvents(hooks, front, command).value;
    hide WithEvent, Subscribed;
    if k < |front| {
      AllSubscribedAfter(hooks, front, command, k);
    }
    SubscribedStays(mid, s, command, template[k].event);
  }

  lemma {:induction false} SubscribedIsUnchanged(hooks: Fields, template: seq<Subscription>, command: string)
    requires forall k :: 0 <= k < |template| ==> Subscribed(hooks, template[k].event, command)
    ensures WithEvents(hooks, template, command) == Ok(hooks)
  {
    if template != [] {
      var front := template[..|template| - 1];
      assert forall k :: 0 <= k < |front| ==> front[k] == template[k];
      hide AnyRuns, GroupFor;
      SubscribedIsUnchanged(hooks, front, command);
      assert Subscribed(hooks, template[|template| - 1].event, command);
    }
  }

  lemma {:induction false} NothingMissingIff(root: Json, template: seq<Subscription>, command: string)
    ensures MissingAmong(root, template, command) == [] <==>
            forall k :: 0 <= k < |template| ==>
              Get(root, "hooks").Obj? && Subscribed(Get(root, "hooks").fields, template[k].event, command)
  {
    hide AnyRuns;
    if template != [] {
      var front := template[..|template| - 1];
      NothingMissingIff(root, front, command);
      assert forall k :: 0 <= k < |front| ==> front[k] == template[k];
    }
  }

  /** Installing leaves no event without our group. */
  lemma {:induction false} InstallSubscribesAll(root: Json, command: string)
    requires Installed(root, command).Ok?
    ensures MissingEvents(Installed(root, command).value, command) == []
  {
    var i := KeyAt(root.fields, "hooks");
    var hooks := if i == |root.fields| then [] else root.fields[i].1.fields;
    var r := Installed(root, command).value;
    var after := WithEvents(hooks, TEMPLATE, command).value;
    assert KeyAt(r.fields, "hooks") == i by { PutIsFound(root.fields, "hooks", Obj(after)); }
    assert Get(r, "hooks") == Obj(after);
    hide WithEvents, Subscribed, MissingAmong, Get, Installed;
    forall k: nat | k < |TEMPLATE|
      ensures Subscribed(after, TEMPLATE[k].event, command)
    {
      AllSubscribedAfter(hooks, TEMPLATE, command, k);
    }
    NothingMissingIff(r, TEMPLATE, command);
  }

  /** Installing changes nothing exactly when no event is missing. */
  lemma {:induction false} InstallChangesNothingIff(root: Json, command: string)
    requires Installed(root, command).Ok?
    ensures Installed(root, command).value == root <==> MissingEvents(root, command) == []
  {
    if Installed(root, command).value == root {
      InstallSubscribesAll(root, command);
    }
    if MissingEvents(root, command) == [] {
      NothingMissingIff(root, TEMPLATE, command);
      assert Subscribed(Get(root, "hooks").fields, TEMPLATE[0].event, command);
      var i := KeyAt(root.fields, "hooks");
      var hooks := Get(root, "hooks").fields;
      assert i < |root.fields| && root.fields[i].1 == Obj(hooks);
      hide Subscribed, WithEvents, MissingAmong, KeyAt;
      SubscribedIsUnchanged(hooks, TEMPLATE, command);
      assert root.fields[i := ("hooks", Obj(hooks))] == root.fields;
    }
  }

  /** Installing twice is installing once. */
  lemma {:induction false} InstallIdempotent(root: Json, command: string)
    requires Installed(root, command).Ok?
    ensures Installed(Installed(root, command).value, command) == Installed(root, command)
  {
    var r := Installed(root, command).value;
    InstallSubscribesAll(root, command);
    NothingMissingIff(r, TEMPLATE, command);
    assert Subscribed(Get(r, "hooks").fields, TEMPLATE[0].event, command);
    SubscribedIsUnchanged(Get(r, "hooks").fields, TEMPLATE, command);
    assert Installed(r, command).Ok?;
    hide Installed, MissingEvents;
    InstallChangesNothingIff(r, command);
  }

  /** Installing keeps every setting in order and every group of every event in
      order, and adds only our groups. */
  lemma {:induction false} InstallKeepsSettings(root: Json, command: string)
    requires Installed(root, command).Ok?
    ensures var r, i := Installed(root, command).value, KeyAt(root.fields, "hooks");
            && root.Obj? && r.Obj? && (i < |root.fields| ==> root.fields[i].1.Obj?)
            && (forall k :: 0 <= k < |root.fields| && k != i ==> k < |r.fields| && r.fields[k] == root.fields[k])
            && |r.fields| == (if i == |root.fields| then i + 1 else |root.fields|)
            && r.fields[i].0 == "hooks" && r.fields[i].1.Obj?
            && Extends(if i == |root.fields| then [] else root.fields[i].1.fields,
                       r.fields[i].1.fields, TEMPLATE, command)
  {
    var i := KeyAt(root.fields, "hooks");
    InstallExtends(if i == |root.fields| then [] else root.fields[i].1.fields, TEMPLATE, command);
    hide WithEvents, Extends;
  }

  // ---- Uninstalling --------------------------------------------------------

  function Without(list: seq<Json>, command: string): seq<Json> {
    if list == [] then [] else
    Without(list[..|list| - 1], command) + if GroupRuns(list[|list| - 1], command) then [] else [list[|list| - 1]]
  }

  /** An event's entry once our groups are gone; nothing when they were all it had. */
  function Cleared(entry: (string, Json), command: string): Fields {
    if !entry.1.Arr? then [entry] else
    var left := Without(entry.1.items, command);
    if |left| == |entry.1.items| || left != [] then [(entry.0, Arr(left))] else []
  }

  function ClearedAll(hooks: Fields, command: string): Fields {
    if hooks == [] then [] else ClearedAll(hooks[..|hooks| - 1], command) + Cleared(hooks[|hooks| - 1], command)
  }

  predicate Holds(hooks: Fields, command: string) {
    exists i :: 0 <= i < |hooks| && hooks[i].1.Arr? && AnyRuns(hooks[i].1.items, command)
  }

  function Uninstalled(root: Json, command: string): Result<Json, Fault> {
    if !root.Obj? then Err(NotAnObject) else
    var i := KeyAt(root.fields, "hooks");
    if i == |root.fields| || !root.fields[i].1.Obj? then Ok(root) else
    var hooks := root.fields[i].1.fields;
    var left := ClearedAll(hooks, command);
    if Holds(hooks, command) && left == [] then Ok(Obj(SwapRemoved(root.fields, i)))
    else Ok(Obj(root.fields[i := ("hooks", Obj(left))]))
  }

  method WithoutGroups(list: seq<Json>, command: string) returns (left: seq<Json>)
    ensures left == Without(list, command)
  {
    left := [];
    for i := 0 to |list|
      invariant left == Without(list[..i], command)
    {
      assert list[..i + 1][..i] == list[..i] && list[..i + 1][i] == list[i];
      if !GroupRuns(list[i], command) {
        left := left + [list[i]];
      }
    }
    assert list[..|list|] == list;
  }

  method ClearEntry(entry: (string, Json), command: string) returns (kept: Fields, removed: bool)
    ensures kept == Cleared(entry, command)
    ensures removed <==> entry.1.Arr? && AnyRuns(entry.1.items, command)
  {
    hide GroupRuns, Without, AnyRuns;
    var (event, list) := entry;
    if !list.Arr? {
      return [entry], false;
    }
    var arr := WithoutGroups(list.items, command);
    WithoutShorter(list.items, command);
    removed := |arr| != |list.items|;
    kept := if |arr| == |list.items| || arr != [] then [(event, Arr(arr))] else [];
  }

  method ClearEntries(hooks: Fields, command: string) returns (left: Fields, removed: bool)
    ensures left == ClearedAll(hooks, command) && (removed <==> Holds(hooks, command))
  {
    hide Cleared, AnyRuns, Holds;
    left, removed := [], false;
    assert !Holds([], command) by { ClearedHasNone([], command); }
    for i := 0 to |hooks|
      invariant left == ClearedAll(hooks[..i], command)
      invariant removed <==> Holds(hooks[..i], command)
    {
      assert hooks[..i + 1][..i] == hooks[..i] && hooks[..i + 1][i] == hooks[i];
      HoldsMore(hooks, i, command);
      var kept, some := ClearEntry(hooks[i], command);
      left := left + kept;
      removed := removed || some;
    }
    assert hooks[..|hooks|] == hooks;
  }

  /** Settings without the groups running `command`, nor events and hooks left empty
      by that. */
  method ClaudeUninstall(root: Json, command: string) returns (r: Result<Json, Fault>)
    ensures r == Uninstalled(root, command)
  {
    hide ClearedAll, Holds;
    if !root.Obj? {
      return Err(NotAnObject);
    }
    var at := KeyAt(root.fields, "hooks");
    if at == |root.fields| || !root.fields[at].1.Obj? {
      return Ok(root);
    }
    var left, removed := ClearEntries(root.fields[at].1.fields, command);
    if removed && left == [] {
      r := Ok(Obj(SwapRemoved(root.fields, at)));
    } else {
      r := Ok(Obj(root.fields[at := ("hooks", Obj(left))]));
    }
  }

  lemma {:induction false} HoldsMore(hooks: Fields, i: nat, command: string)
    requires i < |hooks|
    ensures Holds(hooks[..i + 1], command)
            <==> Holds(hooks[..i], command) || (hooks[i].1.Arr? && AnyRuns(hooks[i].1.items, command))
  {
    hide AnyRuns;
    var more := hooks[..i + 1];
    assert more[i] == hooks[i] && forall k :: 0 <= k < i ==> more[k] == hooks[..i][k];
    if Holds(hooks[..i], command) {
      var k :| 0 <= k < i && hooks[..i][k].1.Arr? && AnyRuns(hooks[..i][k].1.items, command);
      assert more[k].1.Arr?;
    }
  }

  /** Nothing is taken out exactly when no group runs our command. */
  lemma {:induction false} WithoutShorter(list: seq<Json>, command: string)
    ensures |Without(list, command)| <= |list|
    ensures |Without(list, command)| == |list| <==> !AnyRuns(list, command)
    ensures |Without(list, command)| == |list| ==> Without(list, command) == list
  {
    hide GroupRuns;
    if list != [] {
      var front, last := list[..|list| - 1], list[|list| - 1];
      WithoutShorter(front, command);
      assert list == front + [last];
      assert AnyRuns(list, command) <==> AnyRuns(front, command) || GroupRuns(last, command) by {
        if AnyRuns(front, command) {
          var i :| 0 <= i < |front| && GroupRuns(front[i], command);
          assert list[i] == front[i];
        }
        assert list[|list| - 1] == last;
        assert forall i :: 0 <= i < |front| ==> list[i] == front[i];
      }
    }
  }

  lemma {:induction false} WithoutHas(list: seq<Json>, command: string, g: Json)
    ensures g in Without(list, command) <==> g in list && !GroupRuns(g, command)
  {
    hide GroupRuns;
    if list != [] {
      assert list == list[..|list| - 1] + [list[|list| - 1]];
      WithoutHas(list[..|list| - 1], command, g);
    }
  }

  lemma {:induction false} ClearedHasNone(hooks: Fields, command: string)
    ensures !Holds(ClearedAll(hooks, command), command)
  {
    hide GroupRuns, Without, AnyRuns;
    if hooks != [] {
      var front, last := ClearedAll(hooks[..|hooks| - 1], command), hooks[|hooks| - 1];
      ClearedHasNone(hooks[..|hooks| - 1], command);
      var c := Cleared(last, command);
      if last.1.Arr? {
        WithoutNone(last.1.items, command);
      }
      assert forall i :: 0 <= i < |front + c| ==> (front + c)[i] == if i < |front| then front[i] else c[i - |front|];
    }
  }

  lemma {:induction false} WithoutNone(list: seq<Json>, command: string)
    ensures !AnyRuns(Without(list, command), command)
  {
    var left := Without(list, command);
    forall i | 0 <= i < |left|
      ensures !GroupRuns(left[i], command)
    {
      WithoutHas(list, command, left[i]);
    }
  }

  /** The positions `at`, in order, below `n`. */
  ghost predicate Ascending(at: seq<nat>, n: nat) {
    && (forall k :: 0 <= k < |at| ==> at[k] < n)
    && (forall j, k :: 0 <= j < k < |at| ==> at[j] < at[k])
  }

  /** `left` is the groups of `list` at these positions, which are those of the
      groups that don't run our command. */
  ghost predicate GroupsAt(list: seq<Json>, left: seq<Json>, at: seq<nat>, command: string) {
    && Ascending(at, |list|) && |left| == |at|
    && (forall k :: 0 <= k < |at| ==> left[k] == list[at[k]])
    && (forall i: nat :: i < |list| ==> (i in at <==> !GroupRuns(list[i], command)))
  }

  /** The groups of other commands are left, in order. */
  ghost predicate GroupsLeft(list: seq<Json>, left: seq<Json>, command: string) {
    exists at: seq<nat> :: GroupsAt(list, left, at, command)
  }

  /** An entry keeps its event and the groups of other commands, or is no list and
      stays as it is. */
  ghost predicate EntryLeft(e: (string, Json), d: (string, Json), command: string) {
    d.0 == e.0 && if e.1.Arr? then d.1.Arr? && GroupsLeft(e.1.items, d.1.items, command) else d.1 == e.1
  }

  /** The entry holds groups and all of them run our command. */
  ghost predicate AllOurs(e: (string, Json), command: string) {
    e.1.Arr? && e.1.items != [] && forall i :: 0 <= i < |e.1.items| ==> GroupRuns(e.1.items[i], command)
  }

  /** `left` is what stays of the entries at these positions, which are those of
      the entries that aren't all ours. */
  ghost predicate EntriesAt(hooks: Fields, left: Fields, at: seq<nat>, command: string) {
    && Ascending(at, |hooks|) && |left| == |at|
    && (forall k :: 0 <= k < |at| ==> EntryLeft(hooks[at[k]], left[k], command))
    && (forall i: nat :: i < |hooks| ==> (i in at <==> !AllOurs(hooks[i], command)))
  }

  ghost predicate EntriesLeft(hooks: Fields, left: Fields, command: string) {
    exists at: seq<nat> :: EntriesAt(hooks, left, at, command)
  }

  lemma {:induction false} WithoutAt(list: seq<Json>, command: string) returns (at: seq<nat>)
    ensures GroupsAt(list, Without(list, command), at, command)
  {
    hide GroupRuns;
    at := [];
    if list != [] {
      var front, n := list[..|list| - 1], |list| - 1;
      at := WithoutAt(front, command);
      assert forall i :: 0 <= i < n ==> front[i] == list[i];
      assert n !in at;
      if !GroupRuns(list[n], command) {
        at := at + [n];
      }
    }
  }

  lemma {:induction false} SomeLeft(list: seq<Json>, left: seq<Json>, at: seq<nat>, command: string)
    requires GroupsAt(list, left, at, command)
    ensures left == [] <==> forall i :: 0 <= i < |list| ==> GroupRuns(list[i], command)
  {
    hide GroupRuns;
    if at != [] {
      assert at[0] in at && !GroupRuns(list[at[0]], command);
    }
  }

  lemma {:induction false} ClearedEntry(e: (string, Json), command: string)
    ensures if AllOurs(e, command) then Cleared(e, command) == []
            else |Cleared(e, command)| == 1 && EntryLeft(e, Cleared(e, command)[0], command)
  {
    hide GroupRuns, Without, AnyRuns, GroupsAt;
    if e.1.Arr? {
      var at := WithoutAt(e.1.items, command);
      assert GroupsLeft(e.1.items, Without(e.1.items, command), command);
      hide GroupsLeft;
      WithoutShorter(e.1.items, command);
      SomeLeft(e.1.items, Without(e.1.items, command), at, command);
    }
  }

  lemma {:induction false} ClearedAt(hooks: Fields, command: string) returns (at: seq<nat>)
    ensures EntriesAt(hooks, ClearedAll(hooks, command), at, command)
  {
    hide Cleared, EntryLeft, AllOurs;
    at := [];
    if hooks != [] {
      var front, n := hooks[..|hooks| - 1], |hooks| - 1;
      at := ClearedAt(front, command);
      ClearedEntry(hooks[n], command);
      assert forall i :: 0 <= i < n ==> front[i] == hooks[i];
      assert n !in at;
      if !AllOurs(hooks[n], command) {
        at := at + [n];
      }
    }
  }

  lemma {:induction false} SwapRemovedOthers<T>(fields: seq<T>, i: nat)
    requires i < |fields|
    ensures multiset(SwapRemoved(fields, i)) == multiset(fields) - multiset{fields[i]}
  {
    var n := |fields| - 1;
    var front, last := fields[..n], fields[n];
    assert fields == front + [last];
    if i < n {
      assert front[i] == fields[i] && front[i] in multiset(front);
      assert multiset(front[i := last]) == multiset(front) - multiset{front[i]} + multiset{last};
    }
  }

  /** Uninstalling removes every group running our command and nothing else: none
      is left, the groups and events of others stay in order, an event goes exactly
      when all its groups were ours, `hooks` when that leaves no event, and every
      other setting stays. */
  lemma {:induction false} UninstallRemovesOnlyOurs(root: Json, command: string) returns (left: Fields)
    ensures var r := Uninstalled(root, command);
            if !root.Obj? then r == Err(NotAnObject)
            else if !Get(root, "hooks").Obj? then r == Ok(root)
            else
              var at, hooks := KeyAt(root.fields, "hooks"), Get(root, "hooks").fields;
              && r.Ok? && r.value.Obj?
              && !Holds(left, command) && EntriesLeft(hooks, left, command)
              && if left == [] && hooks != []
                 then multiset(r.value.fields) == multiset(root.fields) - multiset{root.fields[at]}
                 else r.value == Obj(root.fields[at := ("hooks", Obj(left))])
  {
    left := [];
    if root.Obj? && Get(root, "hooks").Obj? {
      var at, hooks := KeyAt(root.fields, "hooks"), Get(root, "hooks").fields;
      left := ClearedAll(hooks, command);
      var kept := ClearedAt(hooks, command);
      ClearedHasNone(hooks, command);
      EmptiedHeld(hooks, command);
      SwapRemovedOthers(root.fields, at);
    }
  }

  /** Entries are all cleared away only if there are none or ours are among them. */
  lemma {:induction false} EmptiedHeld(hooks: Fields, command: string)
    ensures ClearedAll(hooks, command) == [] ==> (Holds(hooks, command) <==> hooks != [])
  {
    var at := ClearedAt(hooks, command);
    hide GroupRuns, ClearedAll, EntryLeft;
    if ClearedAll(hooks, command) == [] && hooks != [] {
      assert 0 !in at;
      assert AllOurs(hooks[0], command);
      assert GroupRuns(hooks[0].1.items[0], command);
    }
  }

  // ---- Installing, then uninstalling ---------------------------------------

  lemma {:induction false} ClearedAppend(a: Fields, b: Fields, command: string)
    ensures ClearedAll(a + b, command) == ClearedAll(a, command) + ClearedAll(b, command)
    decreases |b|
  {
    hide Cleared;
    if b == [] {
      assert a + b == a;
    } else {
      ClearedAppend(a, b[..|b| - 1], command);
      assert (a + b)[..|a + b| - 1] == a + b[..|b| - 1];
    }
  }

  lemma {:induction false} ClearedAtMostOne(e: (string, Json), command: string)
    ensures |Cleared(e, command)| <= 1
  {
  }

  /** Clearing gives back `h` exactly when it does so entry by entry. */
  lemma {:induction false} ClearedEach(after: Fields, h: Fields, command: string)
    requires |after| == |h|
    ensures |ClearedAll(after, command)| <= |after|
    ensures ClearedAll(after, command) == h <==> forall i :: 0 <= i < |h| ==> Cleared(after[i], command) == [h[i]]
    decreases |h|
  {
    hide Cleared;
    if h != [] {
      var n := |h| - 1;
      ClearedEach(after[..n], h[..n], command);
      ClearedAtMostOne(after[n], command);
      var c, d := ClearedAll(after[..n], command), Cleared(after[n], command);
      assert ClearedAll(after, command) == c + d;
      assert h == h[..n] + [h[n]];
      assert c + d == h ==> |c| == n && |d| == 1 && c == h[..n] && d == [h[n]] by {
        if c + d == h { assert |c| == n; assert c == (c + d)[..n] && d == (c + d)[n..]; }
      }
    }
  }

  /** What only our installing added is cleared away. */
  lemma {:induction false} AddedIsCleared(added: Fields, template: seq<Subscription>, command: string)
    requires forall i :: 0 <= i < |added| ==> OnlyOurs(added[i], template, command)
    ensures ClearedAll(added, command) == []
  {
    if added != [] {
      var e := added[|added| - 1];
      AddedIsCleared(added[..|added| - 1], template, command);
      var k :| 0 <= k < |template| && e == (template[k].event, Arr([GroupFor(template[k], command)]));
      OurGroupRuns(template[k], command);
      var g := GroupFor(template[k], command);
      assert [g][..0] == [] && Without([g], command) == Without([], command) + [];
      hide GroupRuns, GroupFor;
      assert Cleared(e, command) == [];
    }
  }

  /** An entry comes back exactly when it had none of our groups and wasn't an empty
      list that ours was added to. */
  lemma {:induction false} EntryComesBack(h: Fields, i: nat, b: (string, Json), template: seq<Subscription>,
        command: string)
    requires i < |h| && Kept(h, i, b, template, command)
    ensures Cleared(b, command) == [h[i]] <==>
            !(h[i].1.Arr? && AnyRuns(h[i].1.items, command)) && !(h[i].1 == Arr([]) && b != h[i])
  {
    var e := h[i];
    if e.1.Arr? {
      WithoutShorter(e.1.items, command);
      if b != e {
        var k :| 0 <= k < |template| && !AnyRuns(e.1.items, command)
                 && b == (e.0, Arr(e.1.items + [GroupFor(template[k], command)]));
        OurGroupRuns(template[k], command);
        var items := b.1.items;
        assert items[..|items| - 1] == e.1.items && items[|items| - 1] == GroupFor(template[k], command);
        assert Without(items, command) == e.1.items;
      }
    }
    hide GroupRuns, GroupFor, AnyRuns, Without;
  }

  /** No template event has an empty list. */
  ghost predicate NoEmptyEvent(h: Fields, template: seq<Subscription>) {
    forall k :: 0 <= k < |template| && KeyAt(h, template[k].event) < |h| ==>
      h[KeyAt(h, template[k].event)].1 != Arr([])
  }

  lemma {:induction false} EmptyEventFilled(h: Fields, after: Fields, template: seq<Subscription>, command: string,
        i: nat)
    requires Extends(h, after, template, command) && i < |h| && h[i].1 == Arr([])
    requires forall k :: 0 <= k < |template| ==> Subscribed(after, template[k].event, command)
    ensures after[i] != h[i] <==> exists k :: 0 <= k < |template| && KeyAt(h, template[k].event) == i
  {
    if k :| 0 <= k < |template| && KeyAt(h, template[k].event) == i {
      SameKeys(h, after, template, command, template[k].event);
      assert Subscribed(after, template[k].event, command);
      NothingRuns(command);
      hide AnyRuns;
      assert after[i] != h[i];
    }
    assert Kept(h, i, after[i], template, command);
  }

  lemma {:induction false} HooksComeBack(h: Fields, after: Fields, template: seq<Subscription>, command: string)
    requires Extends(h, after, template, command)
    requires forall k :: 0 <= k < |template| ==> Subscribed(after, template[k].event, command)
    ensures ClearedAll(after, command) == h <==> !Holds(h, command) && NoEmptyEvent(h, template)
  {
    hide Cleared, ClearedAll, AnyRuns, GroupFor, Kept, Subscribed, OnlyOurs, KeyAt;
    var prefix, added := after[..|h|], after[|h|..];
    assert after == prefix + added;
    AddedIsCleared(added, template, command);
    ClearedAppend(prefix, added, command);
    ClearedEach(prefix, h, command);
    assert ClearedAll(prefix, command) + [] == ClearedAll(prefix, command);
    forall i: nat | i < |h|
      ensures Cleared(after[i], command) == [h[i]] <==>
              !(h[i].1.Arr? && AnyRuns(h[i].1.items, command))
              && !(h[i].1 == Arr([]) && exists k :: 0 <= k < |template| && KeyAt(h, template[k].event) == i)
    {
      EntryComesBack(h, i, after[i], template, command);
      if h[i].1 == Arr([]) {
        EmptyEventFilled(h, after, template, command, i);
      }
    }
    EmptyEvents(h, template);
  }

  lemma {:induction false} EmptyEvents(h: Fields, template: seq<Subscription>)
    ensures NoEmptyEvent(h, template) <==>
            forall i :: 0 <= i < |h| ==>
              !(h[i].1 == Arr([]) && exists k :: 0 <= k < |template| && KeyAt(h, template[k].event) == i)
  {
  }

  /** The settings held none of our groups, no empty list for a template event and
      no empty `hooks` object. */
  ghost predicate Untouched(root: Json, command: string)
    requires root.Obj?
  {
    var i := KeyAt(root.fields, "hooks");
    i < |root.fields| && root.fields[i].1.Obj? ==>
      var h := root.fields[i].1.fields;
      h != [] && !Holds(h, command) && NoEmptyEvent(h, TEMPLATE)
  }

  /** Uninstalling after installing gives back the settings exactly when they held
      none of our groups, no empty list for a template event and no empty `hooks`
      object. */
  lemma {:induction false} UninstallUndoesInstallIff(root: Json, command: string)
    requires Installed(root, command).Ok?
    ensures Uninstalled(Installed(root, command).value, command) == Ok(root) <==> Untouched(root, command)
  {
    var i, r := KeyAt(root.fields, "hooks"), Installed(root, command).value;
    var h := if i == |root.fields| then [] else root.fields[i].1.fields;
    var after := WithEvents(h, TEMPLATE, command).value;
    assert r == Obj(Put(root.fields, "hooks", Obj(after)));
    PutIsFound(root.fields, "hooks", Obj(after));
    forall k: nat | k < |TEMPLATE|
      ensures Subscribed(after, TEMPLATE[k].event, command)
    {
      AllSubscribedAfter(h, TEMPLATE, command, k);
    }
    SomethingHeld(after, command);
    InstallExtends(h, TEMPLATE, command);
    HooksComeBack(h, after, TEMPLATE, command);
    NothingComesBack(command);
    UninstallResult(root, h, after, command);
  }

  lemma {:induction false} SomethingHeld(after: Fields, command: string)
    requires Subscribed(after, TEMPLATE[0].event, command)
    ensures Holds(after, command)
  {
    hide AnyRuns;
  }

  lemma {:induction false} NothingComesBack(command: string)
    ensures !Holds([], command) && NoEmptyEvent([], TEMPLATE)
  {
  }

  lemma {:induction false} UninstallResult(root: Json, h: Fields, after: Fields, command: string)
    requires root.Obj? && Holds(after, command)
    requires var i := KeyAt(root.fields, "hooks"); if i == |root.fields| then h == [] else root.fields[i].1 == Obj(h)
    ensures var i, left := KeyAt(root.fields, "hooks"), ClearedAll(after, command);
            Uninstalled(Obj(Put(root.fields, "hooks", Obj(after))), command) == Ok(root)
            <==> left == h && (i == |root.fields| || h != [])
  {
    var i, fields := KeyAt(root.fields, "hooks"), Put(root.fields, "hooks", Obj(after));
    var left := ClearedAll(after, command);
    PutIsFound(root.fields, "hooks", Obj(after));
    hide ClearedAll, Holds;
    if left == [] {
      assert Uninstalled(Obj(fields), command) == Ok(Obj(SwapRemoved(fields, i)));
      if i == |root.fields| {
        assert SwapRemoved(fields, i) == root.fields;
      } else {
        assert |SwapRemoved(fields, i)| < |root.fields|;
      }
    } else {
      var back := fields[i := ("hooks", Obj(left))];
      assert Uninstalled(Obj(fields), command) == Ok(Obj(back));
      assert back[i] == ("hooks", Obj(left));
      if i < |root.fields| {
        assert root.fields[i] == ("hooks", Obj(h));
        assert left == h ==> back == root.fields;
      } else {
        assert |back| == |root.fields| + 1;
      }
    }
  }
}
