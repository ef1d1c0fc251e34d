/** The bot's state and the operations that change it: dispatching an
    inbound message to its script handler and forwarding the actions the
    handler returns, reloading the script (bot-wide defaults, handler
    registry, reconciliation of the declared servers against the live
    ones), recovering a failed connection, and the worker that runs a
    script function on its own. Each operation is atomic here; the locks
    that make it so in the bot are not modelled. */
module BananaBoat {
  import opened Wrappers
  import opened LuaValues
  import opened Codec
  import opened Servers

  /** The outcome of one call into a script function: its single return
      value, or the fault the protected call caught. */
  type CallResult = Result<LValue, string>

  /** Which way dispatching a message went. The bot itself returns
      nothing: it logs the failure paths, and a rejected return value is
      a script error raised outside any protected call. */
  datatype DispatchStatus =
    | NoHandler
    | HandlerFailed(fault: string)
    | ReturnRejected(err: DecodeError)
    | Forwarded(actions: seq<Action>)

  datatype ReloadError =
    | LoadFailed(reason: string)
    | UnexpectedReturnType(got: LValue)
    | UnexpectedHandlersType(got: LValue)

  /** What a spawned worker carries: the function, its arguments, and the
      network and message current when it was spawned. */
  datatype WorkerTask = WorkerTask(fn: FuncId, args: seq<LValue>, net: string, message: Option<Message>)

  datatype WorkerError = FunctionExpected

  /** The bot-wide default when the reload script sets `key` to a
      non-empty string, the current one otherwise. */
  function Override(current: string, t: LValue, key: string): (r: string)
    requires t.LTable?
    ensures r == current || (Field(t, key) == LString(r) && r != "")
    ensures Field(t, key).LString? && Field(t, key).s != "" ==> r == Field(t, key).s
  {
    var s := AsString(Field(t, key));
    if |s| > 0 then s else current
  }

  /** The registry a handlers table defines: every command whose value is
      a function, bound to that function. */
  function Registry(handlersT: map<string, LValue>): (r: map<string, FuncId>)
    ensures forall cmd :: cmd in r <==> cmd in handlersT && handlersT[cmd].LFunction?
    ensures forall cmd :: cmd in r ==> handlersT[cmd] == LFunction(r[cmd])
  {
    map cmd | cmd in handlersT && handlersT[cmd].LFunction? :: handlersT[cmd].id
  }

  /** The error a reload reports for what the script evaluated to, if any. */
  function ReloadCheck(loaded: Result<LValue, string>): (r: Option<ReloadError>)
    ensures r.None? <==> loaded.Success? && loaded.value.LTable? && Field(loaded.value, "handlers").LTable?
  {
    match loaded
    case Failure(reason) => Some(LoadFailed(reason))
    case Success(v) =>
      if !v.LTable? then Some(UnexpectedReturnType(v))
      else if !Field(v, "handlers").LTable? then Some(UnexpectedHandlersType(Field(v, "handlers")))
      else None
  }

  class BananaBoatBot {
    /** Configuration: the port a server table may leave out, the
        reconnect ceiling given to every server, and the capacity of each
        connection's outbound queue. */
    const defaultPort: int
    const maxReconnect: int
    const queueCap: nat

    /** Bot-wide defaults for the servers' identity. */
    var nick: string
    var realname: string
    var username: string
    /** Command name to script function. */
    var handlers: map<string, FuncId>
    /** Network name to its live connection instance. */
    var servers: map<string, Instance>
    /** The generation the next created instance gets. */
    var nextGen: nat
    /** Generations of the instances that have been closed. */
    var closed: set<nat>
    /** Network and message of the handler call in progress, read by a
        worker spawned from it. */
    var curNet: string
    var curMessage: Option<Message>
    /** The shared interpreter's value stack. */
    var stack: seq<LValue>

    ghost predicate Valid()
      reads this
    {
      ServersValid(servers, nextGen, closed, queueCap)
    }

    /** The defaults the bot starts with, before any script is loaded. */
    function CurrentDefaults(): (d: Defaults)
      reads this
      ensures d.nick == nick && d.realname == realname && d.username == username
      ensures d.port == defaultPort && d.maxReconnect == maxReconnect
    {
      Defaults(nick, realname, username, defaultPort, maxReconnect)
    }

    constructor (defaultPort: int, maxReconnect: int, queueCap: nat)
      ensures Valid()
      ensures this.defaultPort == defaultPort && this.maxReconnect == maxReconnect && this.queueCap == queueCap
      ensures nick == "BananaBoatBot" && realname == "Banana Boat Bot" && username == "bananarama"
      ensures handlers == map[] && servers == map[] && closed == {} && nextGen == 0
      ensures curNet == "" && curMessage == None && stack == []
    {
      this.defaultPort := defaultPort;
      this.maxReconnect := maxReconnect;
      this.queueCap := queueCap;
      nick := "BananaBoatBot";
      realname := "Banana Boat Bot";
      username := "bananarama";
      handlers := map[];
      servers := map[];
      nextGen := 0;
      closed := {};
      curNet := "";
      curMessage := None;
      stack := [];
    }

    // -------------------------------------------------------------------
    // Forwarding actions
    // -------------------------------------------------------------------

    /** Non-blocking send of one action to the outbound queue of the
        server it names; dropped when the server is unknown or its queue
        is full. */
    method Send(a: Action)
      requires Valid()
      modifies this`servers
      ensures Valid()
      ensures servers == Route(old(servers), a, queueCap)
    {
      if a.net in servers {
        var svr := servers[a.net];
        if |svr.queue| < queueCap {
          servers := servers[a.net := svr.(queue := svr.queue + [OutMessage(a.command, a.params)])];
        }
        // else: queue full, the message is dropped
      }
      // else: no such server, the message is dropped
    }

    /** Sends the decoded actions one after the other. */
    method Deliver(acts: seq<Action>)
      requires Valid()
      modifies this`servers
      ensures Valid()
      ensures servers == DeliverAll(old(servers), acts, queueCap)
    {
      var i := 0;
      while i < |acts|
        invariant 0 <= i <= |acts|
        invariant Valid()
        invariant servers == DeliverAll(old(servers), acts[..i], queueCap)
      {
        Send(acts[i]);
        assert acts[..i + 1][..i] == acts[..i];
        i := i + 1;
      }
      assert acts[..|acts|] == acts;
    }

    /** Decodes a script function's return value, for an event on `net`,
        and forwards the actions; a value that is neither nil nor a table
        is rejected and nothing is sent. */
    method HandleReturnValue(net: string, ret: LValue) returns (decoded: Result<seq<Action>, DecodeError>)
      requires Valid()
      modifies this`servers
      ensures Valid()
      ensures decoded == DecodeReturn(ret, net)
      ensures decoded.Failure? ==> servers == old(servers)
      ensures decoded.Success? ==> servers == DeliverAll(old(servers), decoded.value, queueCap)
    {
      decoded := DecodeReturn(ret, net);
      if decoded.Success? {
        Deliver(decoded.value);
      }
    }

    // -------------------------------------------------------------------
    // Dispatch
    // -------------------------------------------------------------------

    /** Runs the handler registered for the message's command, if any, in
        the shared interpreter; `call` is the protected call into the
        script. On success the actions it returns are forwarded and the
        stack is cleared; a fault forwards nothing and leaves the stack as
        it was. */
    method HandleHandlers(net: string, msg: Message, call: (FuncId, seq<LValue>) -> CallResult)
      returns (status: DispatchStatus)
      requires Valid()
      modifies this`servers, this`curNet, this`curMessage, this`stack
      ensures Valid()
      ensures msg.command !in handlers ==>
        status == NoHandler && servers == old(servers) && curNet == old(curNet)
        && curMessage == old(curMessage) && stack == old(stack)
      ensures msg.command in handlers ==> curNet == net && curMessage == Some(msg)
      ensures msg.command in handlers ==>
        var res := call(handlers[msg.command], EventArgs(net, msg));
        if res.Failure? then
          status == HandlerFailed(res.error) && servers == old(servers) && stack == old(stack)
        else
          match DecodeReturn(res.value, net)
          case Failure(e) =>
            status == ReturnRejected(e) && servers == old(servers) && stack == old(stack) + [res.value]
          case Success(acts) =>
            status == Forwarded(acts) && servers == DeliverAll(old(servers), acts, queueCap) && stack == []
    {
      if msg.command in handlers {
        var fn := handlers[msg.command];
        var args := LuaParamsFromMessage(net, msg);
        curMessage := Some(msg);
        curNet := net;
        var res := call(fn, args);
        if res.Failure? {
          // the fault is logged; the stack is not cleared on this path
          status := HandlerFailed(res.error);
          return;
        }
        stack := stack + [res.value];
        var decoded := HandleReturnValue(net, res.value);
        if decoded.Failure? {
          status := ReturnRejected(decoded.error);
          return;
        }
        stack := [];
        status := Forwarded(decoded.value);
      } else {
        status := NoHandler;
      }
    }

    // -------------------------------------------------------------------
    // Workers
    // -------------------------------------------------------------------

    /** `worker(f, ...)`: captures `f`, the arguments after it, and the
        network and message of the handler call in progress. */
    method SpawnWorker(luaArgs: seq<LValue>) returns (r: Result<WorkerTask, WorkerError>)
      ensures r.Failure? <==> luaArgs == [] || !luaArgs[0].LFunction?
      ensures r.Success? ==>
        && r.value.fn == luaArgs[0].id
        && r.value.args == luaArgs[1..]
        && r.value.net == curNet
        && r.value.message == curMessage
    {
      if luaArgs == [] || !luaArgs[0].LFunction? {
        return Failure(FunctionExpected);
      }
      var numParams := |luaArgs|;
      if numParams == 1 {
        numParams := 0;
      } else {
        numParams := numParams - 1;
      }
      var params := new LValue[numParams](_ => LNil);
      var goIndex := 0;
      var i := 1;
      while goIndex < numParams
        invariant 0 <= goIndex <= numParams
        invariant i == goIndex + 1
        invariant forall j :: 0 <= j < goIndex ==> params[j] == luaArgs[j + 1]
      {
        params[goIndex] := luaArgs[i];
        goIndex := goIndex + 1;
        i := i + 1;
      }
      assert params[..] == luaArgs[1..];
      r := Success(WorkerTask(luaArgs[0].id, params[..], curNet, curMessage));
    }

    /** Runs a spawned worker in an interpreter of its own and forwards
        what it returns for the network captured at spawn time, whatever
        the bot is handling by then. */
    method RunWorker(task: WorkerTask, call: (FuncId, seq<LValue>) -> CallResult)
      returns (status: DispatchStatus)
      requires Valid()
      modifies this`servers
      ensures Valid()
      ensures
        var res := call(task.fn, task.args);
        if res.Failure? then
          status == HandlerFailed(res.error) && servers == old(servers)
        else
          match DecodeReturn(res.value, task.net)
          case Failure(e) => status == ReturnRejected(e) && servers == old(servers)
          case Success(acts) => status == Forwarded(acts) && servers == DeliverAll(old(servers), acts, queueCap)
    {
      var res := call(task.fn, task.args);
      if res.Failure? {
        status := HandlerFailed(res.error);
        return;
      }
      var decoded := HandleReturnValue(task.net, res.value);
      if decoded.Failure? {
        status := ReturnRejected(decoded.error);
      } else {
        status := Forwarded(decoded.value);
      }
    }

    // -------------------------------------------------------------------
    // Error recovery
    // -------------------------------------------------------------------

    /** Closes the instance registered under `name`, if any, and registers
        a new one with the given settings and reconnect exponent. */
    method ReplaceInstance(name: string, s: Settings, reconnectExp: nat)
      requires Valid()
      modifies this`servers, this`nextGen, this`closed
      ensures Valid()
      ensures servers == old(servers)[name := Instance(s, old(nextGen), reconnectExp, [])]
      ensures nextGen == old(nextGen) + 1
      ensures closed == old(closed) + (if name in old(servers) then {old(servers)[name].gen} else {})
    {
      if name in servers {
        closed := closed + {servers[name].gen};
      }
      servers := servers[name := Instance(s, nextGen, reconnectExp, [])];
      nextGen := nextGen + 1;
    }

    /** A connection error reported by generation `errGen` of server
        `name`: ignored when stale, otherwise the failed instance is closed
        and replaced by one with its settings and reconnect exponent. */
    method HandleErrors(name: string, errGen: nat)
      requires Valid()
      modifies this`servers, this`nextGen, this`closed
      ensures Valid()
      ensures Superseded(old(servers), name, errGen) ==>
        servers == old(servers) && nextGen == old(nextGen) && closed == old(closed)
      ensures !Superseded(old(servers), name, errGen) ==>
        && servers == old(servers)[name := Replacement(old(servers)[name], old(nextGen))]
        && nextGen == old(nextGen) + 1
        && closed == old(closed) + {errGen}
    {
      if name !in servers {
        return;
      }
      var svr := servers[name];
      if errGen != svr.gen {
        return;
      }
      ReplaceInstance(name, svr.settings, svr.reconnectExp);
    }

    // -------------------------------------------------------------------
    // Reload
    // -------------------------------------------------------------------

    /** Rebuilds the registry from a handlers table: registers every
        function-valued command, then drops every command it no longer
        declares. */
    method RebuildHandlers(handlersT: map<string, LValue>)
      modifies this`handlers
      ensures handlers == Registry(handlersT)
    {
      ghost var before := handlers;
      var luaCommands: set<string> := {};
      var todo := handlersT.Keys;
      while todo != {}
        invariant todo <= handlersT.Keys
        invariant forall cmd :: cmd in luaCommands <==>
          cmd in handlersT && cmd !in todo && handlersT[cmd].LFunction?
        invariant forall cmd :: cmd in luaCommands ==> cmd in handlers && handlers[cmd] == handlersT[cmd].id
        invariant forall cmd :: cmd in handlers && cmd !in luaCommands ==> cmd in before
        decreases todo
      {
        var cmd :| cmd in todo;
        if handlersT[cmd].LFunction? {
          handlers := handlers[cmd := handlersT[cmd].id];
          luaCommands := luaCommands + {cmd};
        }
        todo := todo - {cmd};
      }
      var stale := handlers.Keys;
      while stale != {}
        invariant stale <= handlers.Keys
        invariant forall cmd :: cmd in luaCommands ==> cmd in handlers && handlers[cmd] == handlersT[cmd].id
        invariant forall cmd :: cmd in handlers && cmd !in luaCommands ==> cmd in stale
        decreases stale
      {
        var cmd :| cmd in stale;
        if cmd !in luaCommands {
          handlers := handlers - {cmd};
        }
        stale := stale - {cmd};
      }
    }

    /** Closes and forgets the instance registered under `name`. */
    method RemoveServer(name: string)
      requires Valid()
      requires name in servers
      modifies this`servers, this`closed
      ensures Valid()
      ensures servers == old(servers) - {name}
      ensures closed == old(closed) + {old(servers)[name].gen}
    {
      closed := closed + {servers[name].gen};
      servers := servers - {name};
    }

    /** The step for one declared server: kept when its live instance has
        equivalent settings, otherwise created, closing the instance it
        replaces. */
    method ReconcileOne(name: string, s: Settings)
      requires Valid()
      modifies this`servers, this`nextGen, this`closed
      ensures Valid()
      ensures ReconcileStep(old(servers), old(nextGen), old(closed), name, s, servers, nextGen, closed)
    {
      if name !in servers || !Equivalent(servers[name].settings, s) {
        ReplaceInstance(name, s, InitialReconnectExp);
      }
    }

    /** First pass of reconciliation: every declared server is created,
        recreated or kept. */
    method ReconcileDeclared(desired: map<string, Settings>)
      requires Valid()
      modifies this`servers, this`nextGen, this`closed
      ensures Valid()
      ensures DeclaredProgress(old(servers), old(nextGen), old(closed), desired, {},
                               RetiredNames(old(servers), desired) * desired.Keys, servers, nextGen, closed)
    {
      ghost var before := servers;
      ghost var gen0 := nextGen;
      ghost var closed0 := closed;
      ghost var replaced: set<string> := {};
      var todo := desired.Keys;
      DeclaredStart(before, gen0, closed0, desired);
      while todo != {}
        invariant Valid()
        invariant DeclaredProgress(before, gen0, closed0, desired, todo, replaced, servers, nextGen, closed)
        decreases todo
      {
        var name :| name in todo;
        ghost var s0, g0, c0 := servers, nextGen, closed;
        ReconcileOne(name, desired[name]);
        DeclaredStep(before, gen0, closed0, desired, todo, replaced, s0, g0, c0, name, servers, nextGen, closed);
        if name in before && !Equivalent(before[name].settings, desired[name]) {
          replaced := replaced + {name};
        }
        todo := todo - {name};
      }
      DeclaredDone(before, gen0, closed0, desired, replaced, servers, nextGen, closed);
    }

    /** Second pass of reconciliation: every server no longer declared is
        closed and removed. */
    method RemoveUndeclared(desired: map<string, Settings>)
      requires Valid()
      modifies this`servers, this`closed
      ensures Valid()
      ensures RemovalProgress(old(servers), old(closed), desired, {}, old(servers).Keys - desired.Keys, servers, closed)
    {
      ghost var before := servers;
      ghost var closed0 := closed;
      ghost var removed: set<string> := {};
      var names := servers.Keys;
      assert GensOf(before, {}) == {};
      while names != {}
        invariant Valid()
        invariant RemovalProgress(before, closed0, desired, names, removed, servers, closed)
        decreases names
      {
        var name :| name in names;
        ghost var s0, c0 := servers, closed;
        if name !in desired {
          RemoveServer(name);
        }
        RemovalStep(before, closed0, desired, names, removed, s0, c0, name, servers, closed);
        if name !in desired {
          removed := removed + {name};
        }
        names := names - {name};
      }
      assert removed == before.Keys - desired.Keys;
    }

    /** Brings the live servers in line with the declared ones: a declared
        server is created when absent, recreated when its settings
        changed, and kept otherwise; then every server no longer declared
        is closed and removed. */
    method Reconcile(desired: map<string, Settings>)
      requires Valid()
      modifies this`servers, this`nextGen, this`closed
      ensures Valid()
      ensures Reconciled(old(servers), old(nextGen), old(closed), desired, servers, nextGen, closed)
    {
      ghost var before, gen0, closed0 := servers, nextGen, closed;
      ReconcileDeclared(desired);
      ghost var mid, gen1, closed1 := servers, nextGen, closed;
      RemoveUndeclared(desired);
      PassesReconcile(before, gen0, closed0, desired, mid, gen1, closed1, servers, closed);
    }

    /** Reloads the script. `loaded` is what evaluating it gave: the value
        it returned, or the reason it failed to load. Bot-wide defaults are
        applied before the handlers table is checked; a load failure, a
        non-table result or a non-table `handlers` leaves registry and
        servers untouched. The stack is cleared on every path. */
    method ReloadLua(loaded: Result<LValue, string>) returns (err: Option<ReloadError>)
      requires Valid()
      modifies this`nick, this`realname, this`username, this`handlers,
               this`servers, this`nextGen, this`closed, this`stack
      ensures Valid()
      ensures stack == []
      ensures err == ReloadCheck(loaded)
      ensures loaded.Success? && loaded.value.LTable? ==>
        && nick == Override(old(nick), loaded.value, "nick")
        && realname == Override(old(realname), loaded.value, "realname")
        && username == Override(old(username), loaded.value, "username")
      ensures !(loaded.Success? && loaded.value.LTable?) ==>
        nick == old(nick) && realname == old(realname) && username == old(username)
      ensures err.Some? ==>
        handlers == old(handlers) && servers == old(servers) && nextGen == old(nextGen) && closed == old(closed)
      ensures err.None? ==>
        && handlers == Registry(Field(loaded.value, "handlers").hash)
        && Reconciled(old(servers), old(nextGen), old(closed),
                      DesiredServers(Field(loaded.value, "servers"), CurrentDefaults()),
                      servers, nextGen, closed)
    {
      err := ReloadCheck(loaded);
      if loaded.Failure? || !loaded.value.LTable? {
        stack := [];
        return;
      }
      var tbl := loaded.value;
      nick := Override(nick, tbl, "nick");
      realname := Override(realname, tbl, "realname");
      username := Override(username, tbl, "username");
      var handlersV := Field(tbl, "handlers");
      if !handlersV.LTable? {
        stack := [];
        return;
      }
      RebuildHandlers(handlersV.hash);
      Reconcile(DesiredServers(Field(tbl, "servers"), CurrentDefaults()));
      stack := [];
    }
  }
}
