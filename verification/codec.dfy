/** The event/action codec: an inbound IRC message becomes the positional
    arguments of a script handler, and a handler's return value becomes
    the outbound actions it asks for. */
module Codec {
  import opened Wrappers
  import opened LuaValues

  /** The nick!user@host prefix of an inbound message. */
  datatype Prefix = Prefix(name: string, user: string, host: string)

  /** An inbound IRC message, as the transport hands it over. */
  datatype Message = Message(prefix: Option<Prefix>, command: string, params: seq<string>)

  /** An outbound command requested by a script, with the network it goes to. */
  datatype Action = Action(net: string, command: string, params: seq<string>)

  /** A handler returned something that is neither nil nor a table. */
  datatype DecodeError = TableExpected(got: LValue)

  // ---------------------------------------------------------------------
  // Inbound: message -> handler arguments
  // ---------------------------------------------------------------------

  /** Slots 1..3 of the argument list: the prefix parts, or three empty
      slots when the message has no prefix. */
  function PrefixSlots(p: Option<Prefix>): (r: seq<LValue>)
    ensures |r| == 3
  {
    match p
    case None => [LNil, LNil, LNil]
    case Some(px) => [LString(px.name), LString(px.user), LString(px.host)]
  }

  /** Every message parameter as a script string, in order. */
  function StringValues(ss: seq<string>): (r: seq<LValue>)
    ensures |r| == |ss|
    ensures forall i :: 0 <= i < |ss| ==> r[i] == LString(ss[i])
  {
    seq(|ss|, i requires 0 <= i < |ss| => LString(ss[i]))
  }

  /** The arguments a handler is called with for message `msg` received on
      network `net`: the network, the three prefix slots, then the params. */
  function EventArgs(net: string, msg: Message): (args: seq<LValue>)
    ensures |args| == |msg.params| + 4
    ensures args[0] == LString(net)
    ensures msg.prefix.None? ==> args[1] == LNil && args[2] == LNil && args[3] == LNil
    ensures msg.prefix.Some? ==>
      args[1] == LString(msg.prefix.value.name) &&
      args[2] == LString(msg.prefix.value.user) &&
      args[3] == LString(msg.prefix.value.host)
    ensures forall i :: 0 <= i < |msg.params| ==> args[4 + i] == LString(msg.params[i])
  {
    [LString(net)] + PrefixSlots(msg.prefix) + StringValues(msg.params)
  }

  /** Builds the argument list by filling a fresh buffer of |params| + 4
      slots, the way the bot does before every handler call. */
  method LuaParamsFromMessage(net: string, msg: Message) returns (args: seq<LValue>)
    ensures |args| == |msg.params| + 4
    ensures args[0] == LString(net)
    ensures forall i :: 0 <= i < |msg.params| ==> args[4 + i] == LString(msg.params[i])
    ensures args == EventArgs(net, msg)
  {
    var buf := new LValue[|msg.params| + 4](_ => LNil);
    buf[0] := LString(net);
    if msg.prefix.Some? {
      buf[1] := LString(msg.prefix.value.name);
      buf[2] := LString(msg.prefix.value.user);
      buf[3] := LString(msg.prefix.value.host);
    }
    var pi := 0;
    var i := 4;
    while i < buf.Length
      invariant 4 <= i <= buf.Length
      invariant pi == i - 4
      invariant buf[..4] == [LString(net)] + PrefixSlots(msg.prefix)
      invariant forall j :: 4 <= j < i ==> buf[j] == LString(msg.params[j - 4])
    {
      buf[i] := LString(msg.params[pi]);
      pi := pi + 1;
      i := i + 1;
    }
    args := buf[..];
    assert args[..4] == [LString(net)] + PrefixSlots(msg.prefix);
    assert args[4..] == StringValues(msg.params);
    assert args == args[..4] + args[4..];
  }

  // ---------------------------------------------------------------------
  // Outbound: handler return value -> actions
  // ---------------------------------------------------------------------

  /** The string form of every entry of a script params table, in order. */
  function ParamStrings(ps: seq<LValue>): (r: seq<string>)
    ensures |r| == |ps|
    ensures forall i :: 0 <= i < |ps| ==> r[i] == AsString(ps[i])
  {
    seq(|ps|, i requires 0 <= i < |ps| => AsString(ps[i]))
  }

  /** The non-nil entries of a table's array part, in order: the values
      iterating the table visits. */
  function NonNil(ps: seq<LValue>): (r: seq<LValue>)
    ensures |r| <= |ps|
    ensures forall i :: 0 <= i < |r| ==> !r[i].LNil?
    decreases |ps|
  {
    if ps == [] then []
    else NonNil(ps[..|ps| - 1]) + (if ps[|ps| - 1].LNil? then [] else [ps[|ps| - 1]])
  }

  /** The length a table reports for its array part: the position of its
      last non-nil entry, 0 when there is none. */
  function MaxN(ps: seq<LValue>): (n: nat)
    ensures n <= |ps|
    ensures n == 0 || !ps[n - 1].LNil?
    ensures forall i :: n <= i < |ps| ==> ps[i].LNil?
    decreases |ps|
  {
    if ps == [] then 0
    else if !ps[|ps| - 1].LNil? then |ps|
    else MaxN(ps[..|ps| - 1])
  }

  /** There are never more non-nil entries than reported positions. */
  lemma {:induction false} NonNilWithinMaxN(ps: seq<LValue>)
    ensures |NonNil(ps)| <= MaxN(ps)
    decreases |ps|
  {
    if ps != [] {
      NonNilWithinMaxN(ps[..|ps| - 1]);
    }
  }

  /** `k` empty parameters. */
  function Blanks(k: nat): (r: seq<string>)
    ensures |r| == k && forall i :: 0 <= i < k ==> r[i] == ""
  {
    seq(k, _ => "")
  }

  /** The parameters read from a params table's array part: one slot per
      reported position, filled in order with the string views of the
      non-nil entries; the slots left over stay empty. */
  function ParamsFromTable(ps: seq<LValue>): (r: seq<string>)
    ensures |r| == MaxN(ps) && |NonNil(ps)| <= |r|
    ensures forall i :: 0 <= i < |NonNil(ps)| ==> r[i] == AsString(NonNil(ps)[i])
    ensures forall i :: |NonNil(ps)| <= i < |r| ==> r[i] == ""
  {
    NonNilWithinMaxN(ps);
    ParamStrings(NonNil(ps)) + Blanks(MaxN(ps) - |NonNil(ps)|)
  }

  /** A params table without nil entries gives the string view of every
      entry, in order. */
  lemma {:induction false} NilFreeParams(ps: seq<LValue>)
    requires forall i :: 0 <= i < |ps| ==> !ps[i].LNil?
    ensures NonNil(ps) == ps && MaxN(ps) == |ps|
    ensures ParamsFromTable(ps) == ParamStrings(ps)
    decreases |ps|
  {
    if ps != [] {
      NilFreeParams(ps[..|ps| - 1]);
      assert ps[..|ps| - 1] + [ps[|ps| - 1]] == ps;
    }
  }

  /** Nil entries are skipped and the freed slots end up empty at the end:
      `{x, nil, z}` gives x, z and an empty parameter; `{x, nil}` gives x
      alone. */
  lemma NilParamsCompacted(x: LValue, z: LValue)
    requires !x.LNil? && !z.LNil?
    ensures ParamsFromTable([x, LNil, z]) == [AsString(x), AsString(z), ""]
    ensures ParamsFromTable([x, LNil]) == [AsString(x)]
  {
    assert [x, LNil, z][..2] == [x, LNil];
    assert [x, LNil][..1] == [x];
    assert [x][..0] == [];
    assert NonNil([x, LNil]) == [x];
    assert NonNil([x, LNil, z]) == [x, z];
  }

  /** Writing the next entry's string view into the first empty slot. */
  lemma FillStep(done: seq<LValue>, v: LValue, k: nat)
    requires k > 0
    ensures (ParamStrings(done) + Blanks(k))[|done| := AsString(v)]
         == ParamStrings(done + [v]) + Blanks(k - 1)
  {
    var lhs := (ParamStrings(done) + Blanks(k))[|done| := AsString(v)];
    var rhs := ParamStrings(done + [v]) + Blanks(k - 1);
    assert |lhs| == |rhs|;
    forall j | 0 <= j < |lhs|
      ensures lhs[j] == rhs[j]
    {
      if j < |done| {
        assert (done + [v])[j] == done[j];
      }
    }
  }

  /** Copies a params table into a slice of `MaxN` strings. Iterating the
      table hands over its non-nil entries in order; each one is written at
      the current position, which then advances, as the bot does. */
  method CopyParams(ps: seq<LValue>) returns (params: seq<string>)
    ensures params == ParamsFromTable(ps)
  {
    var n := MaxN(ps);
    NonNilWithinMaxN(ps);
    var buf := new string[n](_ => "");
    var visits := NonNil(ps);
    var paramsIndex := 0;
    while paramsIndex < |visits|
      invariant paramsIndex <= |visits|
      invariant buf[..] == ParamStrings(visits[..paramsIndex]) + Blanks(n - paramsIndex)
    {
      FillStep(visits[..paramsIndex], visits[paramsIndex], n - paramsIndex);
      assert visits[..paramsIndex + 1] == visits[..paramsIndex] + [visits[paramsIndex]];
      buf[paramsIndex] := AsString(visits[paramsIndex]);
      paramsIndex := paramsIndex + 1;
    }
    assert visits[..paramsIndex] == visits;
    params := buf[..];
  }

  /** One entry of the returned list: a table `{command, net?, params?}`
      becomes an action; `net` defaults to the current network and a
      missing or non-table `params` to no parameters. Any other entry is
      skipped. */
  function DecodeEntry(v: LValue, curNet: string): (r: Option<Action>)
    ensures r.Some? <==> v.LTable?
    ensures r.Some? ==> r.value.command == AsString(Field(v, "command"))
    ensures r.Some? && AsString(Field(v, "net")) == "" ==> r.value.net == curNet
    ensures r.Some? && AsString(Field(v, "net")) != "" ==> r.value.net == AsString(Field(v, "net"))
    ensures r.Some? && Field(v, "params").LTable? ==> r.value.params == ParamsFromTable(Field(v, "params").arr)
    ensures r.Some? && !Field(v, "params").LTable? ==> r.value.params == []
  {
    if v.LTable? then
      var net := AsString(Field(v, "net"));
      var p := Field(v, "params");
      Some(Action(if |net| == 0 then curNet else net,
                  AsString(Field(v, "command")),
                  if p.LTable? then ParamsFromTable(p.arr) else []))
    else
      None
  }

  /** The actions decoded from the entries of the returned list, in order,
      non-table entries skipped. */
  function DecodeEntries(entries: seq<LValue>, curNet: string): (r: seq<Action>)
    ensures |r| <= |entries|
    ensures (forall i :: 0 <= i < |entries| ==> entries[i].LTable?) ==> |r| == |entries|
    ensures (forall i :: 0 <= i < |entries| ==> !entries[i].LTable?) ==> r == []
  {
    if entries == [] then []
    else
      var rest := DecodeEntries(entries[1..], curNet);
      match DecodeEntry(entries[0], curNet)
      case Some(a) => [a] + rest
      case None => rest
  }

  /** A handler's return value as actions: nil asks for nothing, a table
      is a list of actions, anything else is rejected. */
  function DecodeReturn(ret: LValue, curNet: string): (r: Result<seq<Action>, DecodeError>)
    ensures r.Failure? <==> !(ret.LNil? || ret.LTable?)
    ensures ret.LNil? ==> r == Success([])
    ensures ret.LTable? ==> r == Success(DecodeEntries(ret.arr, curNet))
  {
    match ret
    case LNil => Success([])
    case LTable(arr, _) => Success(DecodeEntries(arr, curNet))
    case _ => Failure(TableExpected(ret))
  }

  /** Decoding distributes over concatenation of the returned list: each
      entry contributes its own action (or none) in place. */
  lemma {:induction false} DecodeEntriesAppend(xs: seq<LValue>, ys: seq<LValue>, curNet: string)
    ensures DecodeEntries(xs + ys, curNet) == DecodeEntries(xs, curNet) + DecodeEntries(ys, curNet)
  {
    if xs != [] {
      assert xs == [xs[0]] + xs[1..];
      assert xs + ys == [xs[0]] + (xs[1..] + ys);
      DecodeEntriesAppend(xs[1..], ys, curNet);
      DecodeEntriesCons(xs[0], xs[1..] + ys, curNet);
      DecodeEntriesCons(xs[0], xs[1..], curNet);
      AppendAssoc(EntryActions(xs[0], curNet), DecodeEntries(xs[1..], curNet), DecodeEntries(ys, curNet));
    } else {
      assert xs + ys == ys;
    }
  }

  /** The action an entry contributes, as a list of at most one. */
  function EntryActions(v: LValue, curNet: string): (r: seq<Action>)
    ensures |r| <= 1
    ensures v.LTable? ==> r == [DecodeEntry(v, curNet).value]
    ensures !v.LTable? ==> r == []
  {
    match DecodeEntry(v, curNet)
    case Some(a) => [a]
    case None => []
  }

  lemma AppendAssoc<T>(a: seq<T>, b: seq<T>, c: seq<T>)
    ensures a + (b + c) == (a + b) + c
  {
  }

  lemma DecodeEntriesCons(x: LValue, xs: seq<LValue>, curNet: string)
    ensures DecodeEntries([x] + xs, curNet) == EntryActions(x, curNet) + DecodeEntries(xs, curNet)
  {
    assert ([x] + xs)[0] == x;
    assert ([x] + xs)[1..] == xs;
  }

  // ---------------------------------------------------------------------
  // The inverse direction: what a script writes to request actions
  // ---------------------------------------------------------------------

  /** The table a script writes for action `a`, leaving out `net` when it
      is empty and `params` when there are none. */
  function EncodeAction(a: Action): (v: LValue)
    ensures v.LTable?
  {
    var cmd := map["command" := LString(a.command)];
    var withNet := if a.net != "" then cmd["net" := LString(a.net)] else cmd;
    LTable([], if a.params != [] then withNet["params" := LTable(StringValues(a.params), map[])] else withNet)
  }

  /** The list of tables a script returns for actions `acts`. */
  function EncodeActions(acts: seq<Action>): (vs: seq<LValue>)
    ensures |vs| == |acts|
    ensures forall i :: 0 <= i < |acts| ==> vs[i] == EncodeAction(acts[i])
  {
    seq(|acts|, i requires 0 <= i < |acts| => EncodeAction(acts[i]))
  }

  /** An action as delivered for an event on `curNet`: an empty target
      network means the originating one. */
  function Targeted(a: Action, curNet: string): (r: Action)
    ensures r.command == a.command && r.params == a.params
    ensures r.net == (if a.net == "" then curNet else a.net)
  {
    if a.net == "" then a.(net := curNet) else a
  }

  function TargetedAll(acts: seq<Action>, curNet: string): (r: seq<Action>)
    ensures |r| == |acts|
    ensures forall i :: 0 <= i < |acts| ==> r[i] == Targeted(acts[i], curNet)
  {
    seq(|acts|, i requires 0 <= i < |acts| => Targeted(acts[i], curNet))
  }

  /** Decoding one encoded action gives it back, with the default network
      filled in. */
  lemma DecodeEncodeAction(a: Action, curNet: string)
    ensures DecodeEntry(EncodeAction(a), curNet) == Some(Targeted(a, curNet))
  {
    var v := EncodeAction(a);
    assert AsString(Field(v, "command")) == a.command;
    if a.net != "" {
      assert Field(v, "net") == LString(a.net);
    } else {
      assert Field(v, "net") == LNil;
    }
    if a.params != [] {
      assert Field(v, "params") == LTable(StringValues(a.params), map[]);
      NilFreeParams(StringValues(a.params));
      assert ParamStrings(StringValues(a.params)) == a.params;
    } else {
      assert Field(v, "params") == LNil;
    }
  }

  /** Round trip: a returned list of encoded actions decodes to exactly
      those actions, in order, each aimed at its own network or else at
      the originating one. */
  lemma {:induction false} DecodeEncodeRoundTrip(acts: seq<Action>, curNet: string)
    ensures DecodeReturn(LTable(EncodeActions(acts), map[]), curNet) == Success(TargetedAll(acts, curNet))
  {
    EntriesRoundTrip(acts, curNet);
  }

  lemma {:induction false} EntriesRoundTrip(acts: seq<Action>, curNet: string)
    ensures DecodeEntries(EncodeActions(acts), curNet) == TargetedAll(acts, curNet)
  {
    if acts != [] {
      EncodeActionsCons(acts);
      TargetedAllCons(acts, curNet);
      DecodeEncodeAction(acts[0], curNet);
      EntriesRoundTrip(acts[1..], curNet);
      DecodeEntriesCons(EncodeAction(acts[0]), EncodeActions(acts[1..]), curNet);
    }
  }

  lemma EncodeActionsCons(acts: seq<Action>)
    requires acts != []
    ensures EncodeActions(acts) == [EncodeAction(acts[0])] + EncodeActions(acts[1..])
  {
  }

  lemma TargetedAllCons(acts: seq<Action>, curNet: string)
    requires acts != []
    ensures TargetedAll(acts, curNet) == [Targeted(acts[0], curNet)] + TargetedAll(acts[1..], curNet)
  {
  }

  /** When every action names its network, the round trip is the identity. */
  lemma ExplicitNetsRoundTrip(acts: seq<Action>, curNet: string)
    requires forall i :: 0 <= i < |acts| ==> acts[i].net != ""
    ensures DecodeReturn(LTable(EncodeActions(acts), map[]), curNet) == Success(acts)
  {
    DecodeEncodeRoundTrip(acts, curNet);
    assert TargetedAll(acts, curNet) == acts;
  }

  /** A handler that answers PRIVMSG "HELLO" to testbot1 with
      `{{command="PRIVMSG", params={"testbot1","GOODBYE"}}}` on network
      "test" yields exactly one action, aimed at "test". */
  lemma GoodbyeScenario()
    ensures
      var reply := LTable([LTable([], map["command" := LString("PRIVMSG"),
                                          "params" := LTable([LString("testbot1"), LString("GOODBYE")], map[])])],
                          map[]);
      DecodeReturn(reply, "test") == Success([Action("test", "PRIVMSG", ["testbot1", "GOODBYE"])])
  {
    var entry := LTable([], map["command" := LString("PRIVMSG"),
                                "params" := LTable([LString("testbot1"), LString("GOODBYE")], map[])]);
    assert Field(entry, "net") == LNil;
    NilFreeParams([LString("testbot1"), LString("GOODBYE")]);
    assert ParamStrings([LString("testbot1"), LString("GOODBYE")]) == ["testbot1", "GOODBYE"];
    assert DecodeEntries([entry], "test") == [Action("test", "PRIVMSG", ["testbot1", "GOODBYE"])];
  }
}
