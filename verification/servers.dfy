/** Connection settings as the reload script declares them, the abstract
    per-network connection instance, outbound routing into bounded queues,
    and the specification of reconciliation and error recovery. */
module Servers {
  import opened LuaValues
  import opened Codec

  /** Settings of one IRC connection. */
  datatype Settings = Settings(
    host: string,
    port: int,
    tls: bool,
    verifyTLS: bool,
    nick: string,
    realname: string,
    username: string,
    maxReconnect: int)

  /** A message waiting in a connection's outbound queue. */
  datatype OutMessage = OutMessage(command: string, params: seq<string>)

  /** One live connection instance: its settings, its generation (the
      identity that tells it apart from every predecessor and successor),
      its reconnect exponent and its bounded outbound queue. */
  datatype Instance = Instance(settings: Settings, gen: nat, reconnectExp: nat, queue: seq<OutMessage>)

  /** The values settings fall back on: the bot-wide identity and the
      configured port and reconnect ceiling. */
  datatype Defaults = Defaults(nick: string, realname: string, username: string, port: int, maxReconnect: int)

  /** A newly created connection starts with its backoff reset. */
  const InitialReconnectExp: nat := 0

  /** Two settings are equivalent when everything that shapes the
      connection matches; the reconnect ceiling is not compared. */
  predicate Equivalent(a: Settings, b: Settings)
    ensures Equivalent(a, b) <==> a.(maxReconnect := b.maxReconnect) == b
  {
    && a.host == b.host
    && a.port == b.port
    && a.tls == b.tls
    && a.verifyTLS == b.verifyTLS
    && a.nick == b.nick
    && a.realname == b.realname
    && a.username == b.username
  }

  lemma EquivalentIgnoresMaxReconnect(a: Settings, m: int)
    ensures Equivalent(a, a.(maxReconnect := m))
  {
  }

  /** A string field, or the given default when it is not a string. */
  function StringOr(v: LValue, default: string): (r: string)
    ensures v.LString? ==> r == v.s
    ensures !v.LString? ==> r == default
  {
    if v.LString? then v.s else default
  }

  /** The settings a server table declares, each missing or ill-typed
      field replaced by its default. */
  function SettingsFrom(t: LValue, d: Defaults): (s: Settings)
    requires t.LTable?
    ensures s.host == AsString(Field(t, "server"))
    ensures s.tls <==> Field(t, "tls") == LBool(true)
    ensures !s.verifyTLS <==> Field(t, "tls_verify") == LBool(false)
    ensures Field(t, "port").LNumber? ==> s.port == Field(t, "port").n
    ensures !Field(t, "port").LNumber? ==> s.port == d.port
    ensures Field(t, "nick").LString? ==> s.nick == Field(t, "nick").s
    ensures Field(t, "realname").LString? ==> s.realname == Field(t, "realname").s
    ensures Field(t, "username").LString? ==> s.username == Field(t, "username").s
    ensures !Field(t, "nick").LString? ==> s.nick == d.nick
    ensures !Field(t, "realname").LString? ==> s.realname == d.realname
    ensures !Field(t, "username").LString? ==> s.username == d.username
    ensures s.maxReconnect == d.maxReconnect
  {
    var tlsV := Field(t, "tls");
    var portV := Field(t, "port");
    Settings(
      AsString(Field(t, "server")),
      if portV.LNumber? then portV.n else d.port,
      if tlsV.LBool? then tlsV.b else false,
      Field(t, "tls_verify") != LBool(false),
      StringOr(Field(t, "nick"), d.nick),
      StringOr(Field(t, "realname"), d.realname),
      StringOr(Field(t, "username"), d.username),
      d.maxReconnect)
  }

  /** A server table that gives only the host gets every default. */
  lemma HostOnlyDefaults(host: string, d: Defaults)
    ensures SettingsFrom(LTable([], map["server" := LString(host)]), d)
         == Settings(host, d.port, false, true, d.nick, d.realname, d.username, d.maxReconnect)
  {
  }

  /** Re-declaring a server with another nick, everything else as before,
      yields settings equivalent to the old ones iff the nick it had is
      that nick: a nick change makes the reload recreate the server. */
  lemma NickChangeRecreates(t: LValue, d: Defaults, nick: string)
    requires t.LTable?
    ensures var t2 := LTable(t.arr, t.hash["nick" := LString(nick)]);
      Equivalent(SettingsFrom(t, d), SettingsFrom(t2, d)) <==> SettingsFrom(t, d).nick == nick
  {
    var t2 := LTable(t.arr, t.hash["nick" := LString(nick)]);
    assert Field(t2, "nick") == LString(nick);
    assert forall k :: k != "nick" ==> Field(t2, k) == Field(t, k);
    assert Field(t2, "server") == Field(t, "server") && Field(t2, "port") == Field(t, "port");
    assert Field(t2, "tls") == Field(t, "tls") && Field(t2, "tls_verify") == Field(t, "tls_verify");
    assert Field(t2, "realname") == Field(t, "realname") && Field(t2, "username") == Field(t, "username");
  }

  /** The servers a reload declares, by name: every table-valued entry of
      the `servers` table. A `servers` value that is not a table declares
      none. */
  function DesiredServers(serversV: LValue, d: Defaults): (r: map<string, Settings>)
    ensures !serversV.LTable? ==> r == map[]
    ensures serversV.LTable? ==>
      forall name :: name in r <==> name in serversV.hash && serversV.hash[name].LTable?
    ensures forall name :: name in r ==> r[name] == SettingsFrom(serversV.hash[name], d)
  {
    if serversV.LTable? then
      map name | name in serversV.hash && serversV.hash[name].LTable? :: SettingsFrom(serversV.hash[name], d)
    else
      map[]
  }

  // ---------------------------------------------------------------------
  // Invariant of the server map
  // ---------------------------------------------------------------------

  /** Generations below `nextGen` have been handed out; no live instance
      has been closed; no two names share an instance; every queue is
      within its capacity. */
  ghost predicate ServersValid(servers: map<string, Instance>, nextGen: nat, closed: set<nat>, cap: nat)
  {
    && (forall name :: name in servers ==>
          servers[name].gen < nextGen && servers[name].gen !in closed && |servers[name].queue| <= cap)
    && (forall n1, n2 :: n1 in servers && n2 in servers && n1 != n2 ==> servers[n1].gen != servers[n2].gen)
    && (forall g :: g in closed ==> g < nextGen)
  }

  // ---------------------------------------------------------------------
  // Routing into bounded queues
  // ---------------------------------------------------------------------

  /** Non-blocking delivery of one action: appended to the queue of the
      named server when it exists and its queue has room, dropped
      otherwise. */
  function Route(servers: map<string, Instance>, a: Action, cap: nat): (r: map<string, Instance>)
    ensures r.Keys == servers.Keys
    ensures forall name :: name in servers && name != a.net ==> r[name] == servers[name]
    ensures a.net !in servers ==> r == servers
    ensures a.net in servers ==>
      r[a.net] == servers[a.net].(queue :=
        if |servers[a.net].queue| < cap then servers[a.net].queue + [OutMessage(a.command, a.params)]
        else servers[a.net].queue)
  {
    if a.net in servers && |servers[a.net].queue| < cap then
      var svr := servers[a.net];
      servers[a.net := svr.(queue := svr.queue + [OutMessage(a.command, a.params)])]
    else
      servers
  }

  /** Delivery of a list of actions, one after the other. */
  function DeliverAll(servers: map<string, Instance>, acts: seq<Action>, cap: nat): (r: map<string, Instance>)
    ensures r.Keys == servers.Keys
    decreases |acts|
  {
    if acts == [] then servers
    else Route(DeliverAll(servers, acts[..|acts| - 1], cap), acts[|acts| - 1], cap)
  }

  /** The messages of `acts` addressed to server `name`, in order. */
  function MessagesFor(acts: seq<Action>, name: string): (ms: seq<OutMessage>)
    ensures |ms| <= |acts|
    decreases |acts|
  {
    if acts == [] then []
    else
      var last := acts[|acts| - 1];
      MessagesFor(acts[..|acts| - 1], name) + (if last.net == name then [OutMessage(last.command, last.params)] else [])
  }

  /** Delivery changes only queues: the same servers, each with the same
      settings, generation and reconnect exponent; each queue only grows
      at its end and never beyond its capacity. */
  lemma {:induction false} DeliverAllKeepsInstances(servers: map<string, Instance>, acts: seq<Action>, cap: nat)
    requires forall name :: name in servers ==> |servers[name].queue| <= cap
    ensures var r := DeliverAll(servers, acts, cap);
      && r.Keys == servers.Keys
      && forall name :: name in servers ==>
           && r[name].settings == servers[name].settings
           && r[name].gen == servers[name].gen
           && r[name].reconnectExp == servers[name].reconnectExp
           && servers[name].queue <= r[name].queue
           && |r[name].queue| <= cap
    decreases |acts|
  {
    if acts != [] {
      DeliverAllKeepsInstances(servers, acts[..|acts| - 1], cap);
    }
  }

  /** A server that no action names keeps its queue. */
  lemma {:induction false} DeliverAllUnaddressed(servers: map<string, Instance>, acts: seq<Action>, cap: nat, name: string)
    requires name in servers
    requires forall i :: 0 <= i < |acts| ==> acts[i].net != name
    ensures name in DeliverAll(servers, acts, cap)
    ensures DeliverAll(servers, acts, cap)[name] == servers[name]
    decreases |acts|
  {
    if acts != [] {
      DeliverAllUnaddressed(servers, acts[..|acts| - 1], cap, name);
    }
  }

  /** When a server's queue has room for everything addressed to it, it
      receives exactly those messages, in the order they were returned. */
  lemma {:induction false} DeliverAllWithRoom(servers: map<string, Instance>, acts: seq<Action>, cap: nat, name: string)
    requires name in servers
    requires |servers[name].queue| + |MessagesFor(acts, name)| <= cap
    ensures name in DeliverAll(servers, acts, cap)
    ensures DeliverAll(servers, acts, cap)[name].queue == servers[name].queue + MessagesFor(acts, name)
    decreases |acts|
  {
    if acts != [] {
      var init := acts[..|acts| - 1];
      DeliverAllWithRoom(servers, init, cap, name);
      var mid := DeliverAll(servers, init, cap);
      assert mid[name].queue == servers[name].queue + MessagesFor(init, name);
      var last := acts[|acts| - 1];
      if last.net == name {
        assert |mid[name].queue| < cap;
        assert servers[name].queue + MessagesFor(init, name) + [OutMessage(last.command, last.params)]
            == servers[name].queue + MessagesFor(acts, name);
      } else {
        assert MessagesFor(acts, name) == MessagesFor(init, name) + [];
      }
    }
  }

  // ---------------------------------------------------------------------
  // Reconciliation
  // ---------------------------------------------------------------------

  /** Whether a declared server keeps its live instance: it has one and
      the declared settings are equivalent to that instance's. */
  predicate Keeps(before: map<string, Instance>, desired: map<string, Settings>, name: string)
    requires name in desired
  {
    name in before && Equivalent(before[name].settings, desired[name])
  }

  /** A freshly created instance for settings `s`, with a generation not
      handed out before `gen0`. */
  predicate FreshInstance(inst: Instance, s: Settings, gen0: nat)
  {
    inst.settings == s && inst.reconnectExp == InitialReconnectExp && inst.queue == [] && gen0 <= inst.gen
  }

  /** The live names whose instances a reconciliation closes: those no
      longer declared and those whose settings changed. */
  function RetiredNames(before: map<string, Instance>, desired: map<string, Settings>): (r: set<string>)
    ensures forall name :: name in r <==>
      name in before && (name !in desired || !Equivalent(before[name].settings, desired[name]))
  {
    set name | name in before && (name !in desired || !Equivalent(before[name].settings, desired[name]))
  }

  /** The generations of the instances `names` stand for in `servers`. */
  function GensOf(servers: map<string, Instance>, names: set<string>): (r: set<nat>)
    ensures forall name :: name in names && name in servers ==> servers[name].gen in r
    ensures forall g :: g in r ==> exists name :: name in names && name in servers && servers[name].gen == g
  {
    set name | name in names && name in servers :: servers[name].gen
  }

  lemma GensOfUnion(servers: map<string, Instance>, a: set<string>, b: set<string>)
    ensures GensOf(servers, a + b) == GensOf(servers, a) + GensOf(servers, b)
  {
  }

  lemma GensOfInsert(servers: map<string, Instance>, names: set<string>, name: string)
    requires name in servers
    ensures GensOf(servers, names + {name}) == GensOf(servers, names) + {servers[name].gen}
  {
    GensOfUnion(servers, names, {name});
    assert GensOf(servers, {name}) == {servers[name].gen};
  }

  lemma GensOfAgree(m1: map<string, Instance>, m2: map<string, Instance>, names: set<string>)
    requires forall name :: name in names ==> (name in m1 <==> name in m2)
    requires forall name :: name in names && name in m1 ==> m1[name] == m2[name]
    ensures GensOf(m1, names) == GensOf(m2, names)
  {
  }

  /** `after`, `gen1`, `closed1` are the outcome of reconciling the live
      servers `before` against the declared `desired`: exactly the
      declared names remain; a declared server keeps its instance when it
      is equivalent and gets a fresh one otherwise; the instances of the
      retired names are closed. */
  ghost predicate Reconciled(
    before: map<string, Instance>, gen0: nat, closed0: set<nat>,
    desired: map<string, Settings>,
    after: map<string, Instance>, gen1: nat, closed1: set<nat>)
  {
    && after.Keys == desired.Keys
    && gen0 <= gen1
    && (forall name :: name in desired ==>
          if Keeps(before, desired, name) then after[name] == before[name]
          else FreshInstance(after[name], desired[name], gen0))
    && closed1 == closed0 + GensOf(before, RetiredNames(before, desired))
  }

  /** One declared server `name` with settings `s` processed: kept when
      its live instance is equivalent, otherwise given a new instance with
      generation `g0`, the instance it replaces being closed. */
  ghost predicate ReconcileStep(
    s0: map<string, Instance>, g0: nat, c0: set<nat>,
    name: string, s: Settings,
    s1: map<string, Instance>, g1: nat, c1: set<nat>)
  {
    if name in s0 && Equivalent(s0[name].settings, s) then
      s1 == s0 && g1 == g0 && c1 == c0
    else
      && s1 == s0[name := Instance(s, g0, InitialReconnectExp, [])]
      && g1 == g0 + 1
      && c1 == c0 + (if name in s0 then {s0[name].gen} else {})
  }

  /** The first pass of reconciliation has processed every declared name
      outside `todo`; `replaced` are the names whose instance it replaced. */
  ghost predicate DeclaredProgress(
    before: map<string, Instance>, gen0: nat, closed0: set<nat>,
    desired: map<string, Settings>, todo: set<string>, replaced: set<string>,
    servers: map<string, Instance>, nextGen: nat, closed: set<nat>)
  {
    && DeclaredShape(before, gen0, desired, todo, servers, nextGen)
    && DeclaredClosed(before, closed0, desired, todo, replaced, closed)
  }

  /** Which instances the first pass has left in place or created. */
  ghost predicate DeclaredShape(
    before: map<string, Instance>, gen0: nat,
    desired: map<string, Settings>, todo: set<string>,
    servers: map<string, Instance>, nextGen: nat)
  {
    && todo <= desired.Keys
    && gen0 <= nextGen
    && (forall name :: name in servers <==> name in before || (name in desired && name !in todo))
    && (forall name :: name in before && (name !in desired || name in todo) ==> servers[name] == before[name])
    && (forall name :: name in desired && name !in todo ==>
          if Keeps(before, desired, name) then servers[name] == before[name]
          else FreshInstance(servers[name], desired[name], gen0))
  }

  /** Which instances the first pass has closed so far. */
  ghost predicate DeclaredClosed(
    before: map<string, Instance>, closed0: set<nat>,
    desired: map<string, Settings>, todo: set<string>, replaced: set<string>,
    closed: set<nat>)
  {
    && (forall name :: name in replaced <==>
          name in before && name in desired && name !in todo && !Equivalent(before[name].settings, desired[name]))
    && closed == closed0 + GensOf(before, replaced)
  }

  lemma DeclaredStart(before: map<string, Instance>, gen0: nat, closed0: set<nat>, desired: map<string, Settings>)
    ensures DeclaredProgress(before, gen0, closed0, desired, desired.Keys, {}, before, gen0, closed0)
  {
    assert GensOf(before, {}) == {};
  }

  lemma DeclaredStep(
    before: map<string, Instance>, gen0: nat, closed0: set<nat>,
    desired: map<string, Settings>, todo: set<string>, replaced: set<string>,
    s0: map<string, Instance>, g0: nat, c0: set<nat>,
    name: string,
    s1: map<string, Instance>, g1: nat, c1: set<nat>)
    requires DeclaredProgress(before, gen0, closed0, desired, todo, replaced, s0, g0, c0)
    requires name in todo
    requires ReconcileStep(s0, g0, c0, name, desired[name], s1, g1, c1)
    ensures var retires := name in before && !Equivalent(before[name].settings, desired[name]);
      DeclaredProgress(before, gen0, closed0, desired, todo - {name},
                       if retires then replaced + {name} else replaced, s1, g1, c1)
  {
    assert name in s0 ==> s0[name] == before[name];
    if name in s0 && Equivalent(s0[name].settings, desired[name]) {
      DeclaredKeepStep(before, gen0, closed0, desired, todo, replaced, s0, g0, c0, name);
    } else {
      DeclaredReplaceStep(before, gen0, closed0, desired, todo, replaced, s0, g0, c0, name, s1, g1, c1);
    }
  }

  lemma DeclaredKeepStep(
    before: map<string, Instance>, gen0: nat, closed0: set<nat>,
    desired: map<string, Settings>, todo: set<string>, replaced: set<string>,
    s0: map<string, Instance>, g0: nat, c0: set<nat>,
    name: string)
    requires DeclaredProgress(before, gen0, closed0, desired, todo, replaced, s0, g0, c0)
    requires name in todo && name in s0 && Equivalent(s0[name].settings, desired[name])
    ensures name in before && Equivalent(before[name].settings, desired[name])
    ensures DeclaredProgress(before, gen0, closed0, desired, todo - {name}, replaced, s0, g0, c0)
  {
    assert Keeps(before, desired, name);
  }

  lemma DeclaredReplaceStep(
    before: map<string, Instance>, gen0: nat, closed0: set<nat>,
    desired: map<string, Settings>, todo: set<string>, replaced: set<string>,
    s0: map<string, Instance>, g0: nat, c0: set<nat>,
    name: string,
    s1: map<string, Instance>, g1: nat, c1: set<nat>)
    requires DeclaredProgress(before, gen0, closed0, desired, todo, replaced, s0, g0, c0)
    requires name in todo && !(name in s0 && Equivalent(s0[name].settings, desired[name]))
    requires s1 == s0[name := Instance(desired[name], g0, InitialReconnectExp, [])]
    requires g1 == g0 + 1
    requires c1 == c0 + (if name in s0 then {s0[name].gen} else {})
    ensures var retires := name in before && !Equivalent(before[name].settings, desired[name]);
      DeclaredProgress(before, gen0, closed0, desired, todo - {name},
                       if retires then replaced + {name} else replaced, s1, g1, c1)
  {
    assert name in s0 <==> name in before;
    assert name in s0 ==> s0[name] == before[name];
    ReplaceShapeStep(before, gen0, desired, todo, s0, g0, name, s1, g1);
    ReplaceClosedStep(before, closed0, desired, todo, replaced, c0, name, c1);
  }

  lemma ReplaceShapeStep(
    before: map<string, Instance>, gen0: nat,
    desired: map<string, Settings>, todo: set<string>,
    s0: map<string, Instance>, g0: nat,
    name: string,
    s1: map<string, Instance>, g1: nat)
    requires DeclaredShape(before, gen0, desired, todo, s0, g0)
    requires name in todo && !(name in before && Equivalent(before[name].settings, desired[name]))
    requires s1 == s0[name := Instance(desired[name], g0, InitialReconnectExp, [])]
    requires g1 == g0 + 1
    ensures DeclaredShape(before, gen0, desired, todo - {name}, s1, g1)
  {
    var todo' := todo - {name};
    forall n | n in before && (n !in desired || n in todo')
      ensures s1[n] == before[n]
    {
      assert n != name;
    }
    forall n | n in desired && n !in todo'
      ensures if Keeps(before, desired, n) then s1[n] == before[n]
              else FreshInstance(s1[n], desired[n], gen0)
    {
      if n == name {
        assert !Keeps(before, desired, n);
      }
    }
  }

  lemma ReplaceClosedStep(
    before: map<string, Instance>, closed0: set<nat>,
    desired: map<string, Settings>, todo: set<string>, replaced: set<string>,
    c0: set<nat>,
    name: string,
    c1: set<nat>)
    requires DeclaredClosed(before, closed0, desired, todo, replaced, c0)
    requires name in todo && name in desired && !(name in before && Equivalent(before[name].settings, desired[name]))
    requires c1 == c0 + (if name in before then {before[name].gen} else {})
    ensures var retires := name in before && !Equivalent(before[name].settings, desired[name]);
      DeclaredClosed(before, closed0, desired, todo - {name},
                     if retires then replaced + {name} else replaced, c1)
  {
    if name in before {
      GensOfInsert(before, replaced, name);
    }
  }

  lemma DeclaredDone(
    before: map<string, Instance>, gen0: nat, closed0: set<nat>,
    desired: map<string, Settings>, replaced: set<string>,
    servers: map<string, Instance>, nextGen: nat, closed: set<nat>)
    requires DeclaredProgress(before, gen0, closed0, desired, {}, replaced, servers, nextGen, closed)
    ensures replaced == RetiredNames(before, desired) * desired.Keys
    ensures servers.Keys == before.Keys + desired.Keys
  {
  }

  /** The second pass of reconciliation has looked at every live name
      outside `names`; `removed` are the undeclared names it dropped. */
  ghost predicate RemovalProgress(
    before: map<string, Instance>, closed0: set<nat>,
    desired: map<string, Settings>, names: set<string>, removed: set<string>,
    servers: map<string, Instance>, closed: set<nat>)
  {
    && names <= before.Keys
    && (forall name :: name in servers <==> name in before && (name in desired || name in names))
    && (forall name :: name in servers ==> servers[name] == before[name])
    && (forall name :: name in removed <==> name in before && name !in desired && name !in names)
    && closed == closed0 + GensOf(before, removed)
  }

  lemma RemovalStep(
    before: map<string, Instance>, closed0: set<nat>,
    desired: map<string, Settings>, names: set<string>, removed: set<string>,
    s0: map<string, Instance>, c0: set<nat>,
    name: string,
    s1: map<string, Instance>, c1: set<nat>)
    requires RemovalProgress(before, closed0, desired, names, removed, s0, c0)
    requires name in names
    requires name in desired ==> s1 == s0 && c1 == c0
    requires name !in desired ==> s1 == s0 - {name} && c1 == c0 + {s0[name].gen}
    ensures RemovalProgress(before, closed0, desired, names - {name},
                            if name in desired then removed else removed + {name}, s1, c1)
  {
    if name !in desired {
      RemovalDropStep(before, closed0, desired, names, removed, s0, c0, name, s1, c1);
    } else {
      assert RemovalProgress(before, closed0, desired, names - {name}, removed, s1, c1);
    }
  }

  lemma RemovalDropStep(
    before: map<string, Instance>, closed0: set<nat>,
    desired: map<string, Settings>, names: set<string>, removed: set<string>,
    s0: map<string, Instance>, c0: set<nat>,
    name: string,
    s1: map<string, Instance>, c1: set<nat>)
    requires RemovalProgress(before, closed0, desired, names, removed, s0, c0)
    requires name in names && name !in desired
    requires s1 == s0 - {name} && c1 == c0 + {s0[name].gen}
    ensures RemovalProgress(before, closed0, desired, names - {name}, removed + {name}, s1, c1)
  {
    assert s0[name] == before[name];
    GensOfInsert(before, removed, name);
    assert c1 == closed0 + GensOf(before, removed + {name});
  }

  /** The two passes together reconcile: the first leaves the declared
      servers in place, the second drops the undeclared ones. */
  lemma PassesReconcile(
    before: map<string, Instance>, gen0: nat, closed0: set<nat>,
    desired: map<string, Settings>,
    mid: map<string, Instance>, gen1: nat, closed1: set<nat>,
    after: map<string, Instance>, closed2: set<nat>)
    requires DeclaredProgress(before, gen0, closed0, desired, {}, RetiredNames(before, desired) * desired.Keys,
                              mid, gen1, closed1)
    requires RemovalProgress(mid, closed1, desired, {}, mid.Keys - desired.Keys, after, closed2)
    ensures Reconciled(before, gen0, closed0, desired, after, gen1, closed2)
  {
    DeclaredDone(before, gen0, closed0, desired, RetiredNames(before, desired) * desired.Keys, mid, gen1, closed1);
    PassesShape(before, gen0, desired, mid, gen1, closed1, after, closed2);
    PassesClosed(before, closed0, desired, mid, closed1, after, closed2);
  }

  /** Which servers remain after both passes, and with which instance. */
  lemma PassesShape(
    before: map<string, Instance>, gen0: nat,
    desired: map<string, Settings>,
    mid: map<string, Instance>, gen1: nat, closed1: set<nat>,
    after: map<string, Instance>, closed2: set<nat>)
    requires DeclaredShape(before, gen0, desired, {}, mid, gen1)
    requires RemovalProgress(mid, closed1, desired, {}, mid.Keys - desired.Keys, after, closed2)
    ensures after.Keys == desired.Keys
    ensures forall name :: name in desired ==>
      if Keeps(before, desired, name) then after[name] == before[name]
      else FreshInstance(after[name], desired[name], gen0)
  {
  }

  /** Which instances are closed after both passes. */
  lemma PassesClosed(
    before: map<string, Instance>, closed0: set<nat>,
    desired: map<string, Settings>,
    mid: map<string, Instance>, closed1: set<nat>,
    after: map<string, Instance>, closed2: set<nat>)
    requires DeclaredClosed(before, closed0, desired, {}, RetiredNames(before, desired) * desired.Keys, closed1)
    requires mid.Keys == before.Keys + desired.Keys
    requires forall name :: name in before && name !in desired ==> mid[name] == before[name]
    requires RemovalProgress(mid, closed1, desired, {}, mid.Keys - desired.Keys, after, closed2)
    ensures closed2 == closed0 + GensOf(before, RetiredNames(before, desired))
  {
    var replaced := RetiredNames(before, desired) * desired.Keys;
    var dropped := before.Keys - desired.Keys;
    assert mid.Keys - desired.Keys == dropped;
    assert closed2 == closed1 + GensOf(mid, dropped);
    GensOfAgree(mid, before, dropped);
    RetiredSplit(before, desired);
    ClosedInTwoSteps(before, closed0, replaced, closed1, dropped, closed2, RetiredNames(before, desired));
  }

  lemma ClosedInTwoSteps(
    before: map<string, Instance>, closed0: set<nat>,
    first: set<string>, closed1: set<nat>, second: set<string>, closed2: set<nat>,
    all: set<string>)
    requires closed1 == closed0 + GensOf(before, first)
    requires closed2 == closed1 + GensOf(before, second)
    requires all == first + second
    ensures closed2 == closed0 + GensOf(before, all)
  {
    GensOfUnion(before, first, second);
  }

  /** The retired names are the changed declared ones and the undeclared ones. */
  lemma RetiredSplit(before: map<string, Instance>, desired: map<string, Settings>)
    ensures RetiredNames(before, desired) == RetiredNames(before, desired) * desired.Keys + (before.Keys - desired.Keys)
  {
  }

  /** Reconciling twice against the same declaration changes nothing the
      second time: every instance is kept and nothing more is closed. */
  lemma ReconcileIdempotent(
    s0: map<string, Instance>, g0: nat, c0: set<nat>,
    desired: map<string, Settings>,
    s1: map<string, Instance>, g1: nat, c1: set<nat>,
    s2: map<string, Instance>, g2: nat, c2: set<nat>)
    requires Reconciled(s0, g0, c0, desired, s1, g1, c1)
    requires Reconciled(s1, g1, c1, desired, s2, g2, c2)
    ensures s2 == s1 && c2 == c1
  {
    forall name | name in desired
      ensures Keeps(s1, desired, name)
    {
      assert s1[name].settings == desired[name] || s1[name] == s0[name];
    }
    assert RetiredNames(s1, desired) == {};
  }

  /** An instance that a reconciliation replaced or removed can no longer
      be mistaken for the one registered under its name. */
  lemma RetiredInstanceSuperseded(
    before: map<string, Instance>, gen0: nat, closed0: set<nat>, cap: nat,
    desired: map<string, Settings>,
    after: map<string, Instance>, gen1: nat, closed1: set<nat>,
    name: string)
    requires ServersValid(before, gen0, closed0, cap)
    requires Reconciled(before, gen0, closed0, desired, after, gen1, closed1)
    requires name in RetiredNames(before, desired)
    ensures Superseded(after, name, before[name].gen)
  {
  }

  // ---------------------------------------------------------------------
  // Error recovery
  // ---------------------------------------------------------------------

  /** An error reported by instance generation `errGen` of server `name`
      is stale when the name is no longer configured or another instance
      has since been registered under it. */
  predicate Superseded(servers: map<string, Instance>, name: string, errGen: nat)
  {
    name !in servers || servers[name].gen != errGen
  }

  /** The instance that replaces a failed one: same settings, the failed
      instance's reconnect exponent, a new generation, an empty queue. */
  function Replacement(failed: Instance, gen: nat): (r: Instance)
    ensures r.settings == failed.settings && r.reconnectExp == failed.reconnectExp
    ensures r.gen == gen && r.queue == []
  {
    Instance(failed.settings, gen, failed.reconnectExp, [])
  }

  /** After an error from the live instance has been handled, a second
      report from that same instance is stale. */
  lemma RecoveryOnce(servers: map<string, Instance>, nextGen: nat, closed: set<nat>, cap: nat, name: string, errGen: nat)
    requires ServersValid(servers, nextGen, closed, cap)
    requires !Superseded(servers, name, errGen)
    ensures Superseded(servers[name := Replacement(servers[name], nextGen)], name, errGen)
  {
  }
}
