# BananaBoatBot core, modelled in Dafny

BananaBoatBot is an IRC bot. Its behaviour comes from a Lua script. The
script returns a table holding the bot-wide identity (`nick`, `realname`,
`username`), a `handlers` table that maps IRC commands to script functions,
and a `servers` table that declares the networks to connect to.

This project models the orchestration core in `bot/bananaboatbot.go`:

- **Dispatch.** An inbound message on network `net` is turned into the
  handler's positional arguments, and the registered handler is called.
  Its return value is decoded into outbound actions. Each action is
  pushed, without blocking, onto the bounded outbound queue of the
  network it names.
- **Reload.** The bot-wide defaults are updated and the handler registry
  is rebuilt. The declared servers are then reconciled with the live
  ones: kept when their settings are equivalent, recreated when the
  settings changed, created when new, closed and removed when no longer
  declared.
- **Recovery.** A connection error from the live instance of a network
  closes that instance. A new instance is registered with the same
  settings and the same reconnect exponent. An error from an instance
  that has since been replaced or removed is ignored.
- **Workers.** `worker(f, ...)` captures a function, its arguments and
  the network of the handler call in progress. It later runs them in an
  interpreter of its own and forwards what the function returns.
- **Library arithmetic.** This covers the bound of `random`, the
  normalisation of the text `get_title` returns, and the utterance cap of
  `luis_predict`.

Modules:

- `LuaValues` (`lua_values.dfy`) defines the script values that cross the
  boundary. A table has an array part (entries 1..n) and a string-keyed
  hash part. A script function is identified by a `FuncId`.
- `Codec` (`codec.dfy`) turns a message into handler arguments and a
  return value into actions. It also has the inverse encoder, used to
  state the round trip.
- `Servers` (`servers.dfy`) holds:
  - connection settings and how they are read from a server table;
  - the abstract connection instance;
  - routing into bounded queues;
  - the specification of reconciliation and of error recovery.

  Each instance carries a *generation*, a number that is never reused.
  In the bot, the identity of an instance's context plays this role. The
  set `closed` records the generations of the instances that have been
  closed.
- `BananaBoat` (`bot.dfy`) is the class `BananaBoatBot`. Its fields are
  the defaults, the handler registry, the server map, the generation
  counter, the closed set, the current network and message, and the
  shared interpreter stack. Its methods are the bot's operations. Every
  method that changes the server map, the generation counter or the
  closed set keeps the invariant `Valid()`:
  - every live instance has a generation that has been handed out and is
    not closed;
  - no two names share an instance;
  - no queue exceeds its capacity.
- `Library` (`library.dfy`) covers `random`, `get_title` and
  `luis_predict`.

Three behaviours of the code that a reader might not expect:

- **Reload is not atomic.** A reload whose `handlers` entry is not a table
  has already applied the new `nick`/`realname`/`username`
  (`bot/bananaboatbot.go:241-273`).
- **A failing handler leaves the stack alone.** The stack is cleared only
  after the return value has been handled. The failure path returns before
  that (`bot/bananaboatbot.go:176-183`).
- **No prefix leaves slots 1-3 nil.** When a message has no prefix,
  argument slots 1-3 are left unset. They are modelled as nil, not as
  empty strings (`bot/bananaboatbot.go:70-78`).

## Model

| member | source | states |
|---|---|---|
| LuaValues.AsString | bot/bananaboatbot.go:103-107 | a string's view is the string itself; only a string has a non-empty view |
| LuaValues.ToInt | bot/bananaboatbot.go:534 | a number's integer view is its value; only a number has a non-zero view |
| Codec.EventArgs | bot/bananaboatbot.go:68-86 | handler arguments: params + 4 slots; slot 0 is the network; slots 1-3 are the prefix name/user/host, or nil without a prefix; param i is in slot 4+i |
| Codec.LuaParamsFromMessage | bot/bananaboatbot.go:68-86 | filling a buffer of params+4 slots yields exactly the argument list `EventArgs` specifies |
| Codec.DecodeEntry | bot/bananaboatbot.go:98-131 | an entry yields an action iff it is a table; the command is its `command`; a non-empty `net` is the target and an empty one means the originating network; a table `params` gives `ParamsFromTable` of its array part, a missing or non-table one no parameters |
| Codec.NonNilWithinMaxN | bot/bananaboatbot.go:116-122 | a params table never has more non-nil entries than the slots reserved for it, so filling the slice never overruns it |
| Codec.ParamsFromTable | bot/bananaboatbot.go:114-122 | one parameter slot per reported array position; the non-nil entries' string views fill the first slots in order, and the leftover slots are empty |
| Codec.CopyParams | bot/bananaboatbot.go:116-122 | the fill loop, which advances its write position once per non-nil entry, yields exactly `ParamsFromTable` |
| Codec.NilFreeParams | bot/bananaboatbot.go:114-122 | a params table without nil entries gives every entry's string view, in order |
| Codec.NilParamsCompacted | bot/bananaboatbot.go:114-122 | for any non-nil `x` and `z`, `{x, nil, z}` gives the views of x and z and one empty parameter; `{x, nil}` gives x alone |
| Codec.DecodeEntries | bot/bananaboatbot.go:97-145 | never more actions than entries; a list of tables gives one action per entry; a list with no table gives none |
| Codec.DecodeReturn | bot/bananaboatbot.go:88-97 | a return value is rejected iff it is neither nil nor a table; nil asks for nothing; a table's entries are decoded in order |
| Codec.DecodeEntriesAppend | bot/bananaboatbot.go:97-145 | decoding distributes over concatenation of the returned list: every entry contributes independently, in place |
| Codec.DecodeEncodeAction | bot/bananaboatbot.go:101-131 | the table a script writes for an action decodes back to that action, with an empty network filled in as the originating one |
| Codec.DecodeEncodeRoundTrip | bot/bananaboatbot.go:88-145 | a returned list of encoded actions decodes to exactly those actions, in order, each aimed at its own network or else the originating one |
| Codec.ExplicitNetsRoundTrip | bot/bananaboatbot.go:105-111 | when every action names its network, decode after encode is the identity |
| Codec.GoodbyeScenario | bot/bananaboatbot.go:88-131 | a handler's `{{command="PRIVMSG", params={"testbot1","GOODBYE"}}}` on network "test" yields the single action PRIVMSG testbot1 GOODBYE for "test" |
| Servers.Equivalent | bot/bananaboatbot.go:362-372 | two settings are equivalent iff they agree on every field except the reconnect ceiling |
| Servers.EquivalentIgnoresMaxReconnect | bot/bananaboatbot.go:362-372 | settings that differ only in the reconnect ceiling are equivalent, so such a change keeps the live instance |
| Servers.StringOr | bot/bananaboatbot.go:318-343 | a string field is taken as is; any other value falls back to the default |
| Servers.SettingsFrom | bot/bananaboatbot.go:293-360 | host from `server`; TLS only when `tls` is true; TLS verification off only when `tls_verify` is false; port from a number or the configured default; `nick`/`realname`/`username` taken from the table when they are strings, the bot-wide defaults otherwise; the configured reconnect ceiling |
| Servers.NickChangeRecreates | bot/bananaboatbot.go:318-325 | re-declaring a server with another nick and nothing else changed gives equivalent settings iff the nick is unchanged, so a new nick makes the reload recreate the server |
| Servers.HostOnlyDefaults | bot/bananaboatbot.go:293-360 | a server table giving only the host gets the default port, no TLS, verification on and the bot-wide identity |
| Servers.DesiredServers | bot/bananaboatbot.go:282-291 | the declared servers are exactly the table-valued entries of `servers`, each read with the current defaults; a non-table `servers` declares none |
| Servers.Route | bot/bananaboatbot.go:133-143 | delivery keeps the set of servers and leaves every other server alone; the named server's queue grows by the message iff the server exists and its queue has room |
| Servers.DeliverAll | bot/bananaboatbot.go:97-145 | forwarding a list of actions, one after another, never adds or removes a server |
| Servers.DeliverAllKeepsInstances | bot/bananaboatbot.go:97-145 | forwarding any list of actions changes no instance's settings, generation or reconnect exponent, and only ever appends to queues |
| Servers.DeliverAllUnaddressed | bot/bananaboatbot.go:133-143 | a server that no action names is left unchanged |
| Servers.DeliverAllWithRoom | bot/bananaboatbot.go:133-143 | while a queue has room for every message aimed at it, it receives exactly those messages, in order |
| Servers.RetiredNames | bot/bananaboatbot.go:361-399 | the instances a reload closes are exactly those of names no longer declared or with changed settings |
| Servers.PassesReconcile | bot/bananaboatbot.go:282-401 | the create/keep pass followed by the removal pass reconciles: exactly the declared names remain; equivalent instances are kept; others are fresh; exactly the retired instances are closed |
| Servers.ReconcileIdempotent | bot/bananaboatbot.go:361-401 | reloading the same declaration a second time keeps every instance and closes nothing more |
| Servers.RetiredInstanceSuperseded | bot/bananaboatbot.go:198-209 | after a reload, an error reported by a replaced or removed instance is recognised as stale |
| Servers.Superseded | bot/bananaboatbot.go:198-209 | an error is stale iff its network is no longer configured or another instance has since been registered under the name |
| Servers.Replacement | bot/bananaboatbot.go:210-216 | a replacement instance has the failed one's settings and reconnect exponent, a new generation and an empty queue |
| Servers.RecoveryOnce | bot/bananaboatbot.go:195-216 | once an error from the live instance has been handled, a repeated report from that instance is stale |
| BananaBoat.Override | bot/bananaboatbot.go:241-257 | a bot-wide default changes only to a non-empty string the script sets, and always does when it sets one |
| BananaBoat.Registry | bot/bananaboatbot.go:262-280 | the registry holds exactly the function-valued commands of the handlers table, each bound to its function |
| BananaBoat.ReloadCheck | bot/bananaboatbot.go:231-273 | a reload succeeds iff the script loads, evaluates to a table, and its `handlers` is a table |
| BananaBoat.BananaBoatBot.constructor | bot/bananaboatbot.go:741-748 | a new bot is BananaBoatBot / Banana Boat Bot / bananarama with no handlers and no servers |
| BananaBoat.BananaBoatBot.Send | bot/bananaboatbot.go:133-143 | sending an action updates the servers as `Route` specifies and keeps the invariant |
| BananaBoat.BananaBoatBot.Deliver | bot/bananaboatbot.go:97-145 | sending actions one after the other updates the servers as `DeliverAll` specifies |
| BananaBoat.BananaBoatBot.HandleReturnValue | bot/bananaboatbot.go:88-146 | a rejected return value sends nothing; otherwise the decoded actions are delivered in order |
| BananaBoat.BananaBoatBot.HandleHandlers | bot/bananaboatbot.go:149-188 | no handler: nothing changes; handler fault: nothing sent, stack untouched; rejected return: nothing sent, value left on the stack; success: actions forwarded and stack cleared; the current network and message are recorded whenever a handler runs |
| BananaBoat.BananaBoatBot.SpawnWorker | bot/bananaboatbot.go:554-571 | a worker is refused iff the first argument is not a function; otherwise it captures that function, exactly the remaining arguments, and the current network and message |
| BananaBoat.BananaBoatBot.RunWorker | bot/bananaboatbot.go:573-601 | a worker's actions are decoded against the network captured at spawn time; a fault or a rejected value sends nothing |
| BananaBoat.BananaBoatBot.ReplaceInstance | bot/bananaboatbot.go:376-386 | registers a new instance with the next generation, closing the one it replaces |
| BananaBoat.BananaBoatBot.HandleErrors | bot/bananaboatbot.go:191-220 | a stale error changes nothing; an error from the live instance closes exactly that instance and registers its replacement |
| BananaBoat.BananaBoatBot.RebuildHandlers | bot/bananaboatbot.go:259-280 | after the register and prune loops, the registry is exactly the one the handlers table defines, whatever it held before |
| BananaBoat.BananaBoatBot.RemoveServer | bot/bananaboatbot.go:394-399 | an undeclared server is forgotten and its instance closed |
| BananaBoat.BananaBoatBot.ReconcileOne | bot/bananaboatbot.go:361-388 | a declared server is kept when equivalent, otherwise recreated, closing the old instance |
| BananaBoat.BananaBoatBot.ReconcileDeclared | bot/bananaboatbot.go:287-391 | after the first pass every declared server is present: kept if equivalent, fresh otherwise; only changed instances are closed |
| BananaBoat.BananaBoatBot.RemoveUndeclared | bot/bananaboatbot.go:393-401 | after the second pass every undeclared server is gone and its instance closed; declared ones are untouched |
| BananaBoat.BananaBoatBot.Reconcile | bot/bananaboatbot.go:282-401 | the live servers end up reconciled with the declaration, as `Reconciled` states |
| BananaBoat.BananaBoatBot.ReloadLua | bot/bananaboatbot.go:223-404 | the reported error is exactly `ReloadCheck`'s; the stack is cleared on every path; defaults update whenever the script returns a table; on error the registry and servers are untouched; on success the registry is rebuilt and the servers reconciled against the declaration read with the updated defaults |
| Library.Random | bot/bananaboatbot.go:532-551 | `random(n)` fails iff n < 1; otherwise it gives a value from 1 to n |
| Library.RandomCoversRange | bot/bananaboatbot.go:534-538 | every value from 1 to n comes from exactly one draw |
| Library.Truncate | bot/bananaboatbot.go:675-677 | a cut is a prefix of at most n bytes, the whole string when it fits |
| Library.LuisUtterance | bot/bananaboatbot.go:483-485 | the utterance sent is the whole utterance iff it fits in 500 bytes, and exactly its first 500 bytes otherwise |
| Library.StripNewlinesTabs | bot/bananaboatbot.go:670-671 | the stripped title holds no newline or tab |
| Library.StripOne | bot/bananaboatbot.go:670-671 | a single byte is removed iff it is a newline or a tab |
| Library.StripAppend | bot/bananaboatbot.go:670-671 | stripping distributes over concatenation, so every other byte is kept, in order |
| Library.StripKeepsClean | bot/bananaboatbot.go:670-671 | stripping leaves a title without newlines or tabs unchanged |
| Library.TrimLeft | bot/bananaboatbot.go:673 | left trimming removes only white space, and all of it |
| Library.TrimRight | bot/bananaboatbot.go:673 | right trimming removes only white space, and all of it |
| Library.TrimSpace | bot/bananaboatbot.go:673 | trimming never lengthens the title; its content is pinned by `TrimSpaceIsMaximalPiece` |
| Library.TrimSpaceIsMaximalPiece | bot/bananaboatbot.go:673 | the trimmed title is a contiguous piece of the input that neither starts nor ends with white space, and everything cut off is white space |
| Library.TrimSpaceKeepsInterior | bot/bananaboatbot.go:673 | trimming is the identity on a string without surrounding white space |
| Library.NormalizeTitle | bot/bananaboatbot.go:669-677 | the title returned is a prefix of the stripped, trimmed text: all of it when it fits in 400 bytes, exactly its first 400 bytes otherwise; it has no newline or tab, does not start with white space, and does not end with it when the trimmed text fits in 400 bytes |
| Library.GetTitle | bot/bananaboatbot.go:663-679 | nil iff no title text was found; otherwise the normalised title, possibly empty |
| Library.TruncationCanExposeSpace | bot/bananaboatbot.go:672-677 | a title longer than 400 bytes, without newlines or tabs, not starting or ending with white space, whose 400th byte is a space, comes back 400 bytes long and ending in white space |

## Left out

- Library.NormalizeTitle: a title without trailing white space is promised only when the trimmed text fits in 400 bytes. Trimming comes before the cut, so a cut can end on a space (`Library.TruncationCanExposeSpace`).
- The Lua interpreter is not modelled:
  - Evaluating the script file is the `loaded` parameter of `ReloadLua`: a value or a load failure.
  - A protected call into a script function is the `call` parameter: a return value or a fault.
  - What runs inside the script, including the library functions it calls, is not modelled.
- Concurrency is not modelled: the mutexes, the concurrent server map, the interpreter pool and goroutines. Every operation is one atomic step. A worker is split into `SpawnWorker` (on the caller's side) and `RunWorker` (later, in its own interpreter).
- Connections are not modelled:
  - The IRC transport (`client` package) is not part of this model: dialling, reconnect backoff waits, TLS, and the reading and writing loops.
  - A connection instance is reduced to its settings, generation, reconnect exponent and outbound queue. Nothing drains the queue here.
  - Closing an instance is recording its generation in `closed`.
  - The queue capacity is a constructor parameter.
- `Close`, `newLuaState`, `luaLibLoader` and the rest of startup are not modelled. Only the initial identity defaults of `NewBananaBoatBot` are (`bot/bananaboatbot.go:741-748`). The URL templates and the fatal exit without a script are not.
- Logging, including the `LogCommands` message log, is not modelled.
- HTTP and JSON are not modelled. This leaves out:
  - all of `owm` (including the float formatting of temperatures);
  - the request and response handling of `luis_predict`, beyond its 500-byte utterance cap;
  - the fetch and HTML tokenising in `get_title`. Its raw title text is the parameter of `GetTitle`.
- Library.Random: the randomness source is the `draw` parameter, assumed uniform in [0, n). A bound below 1 is the `Failure` result: the source refuses it and the script call fails. A failing randomness source with a valid bound is not modelled. In the bot it would fail the same way: the source hands back no number, the `r.Int64()` call at `bot/bananaboatbot.go:538` then panics, and the protected call reports a handler fault. So the branch that pushes an error string (`bot/bananaboatbot.go:546-549`) is never reached.
- Library.Random: a bound of 2^63 or more is taken exactly, and succeeds with any draw below it. In the bot the number passes through Go's float-to-`int` conversion (`bot/bananaboatbot.go:534`), whose result is left to the platform when out of range. On amd64 it becomes negative, and `rand.Int` panics, so the call faults. On arm64 it saturates at 2^63-1.
- Library.RandomCoversRange: for n of 2^63 or more, the values above 2^63-1 that the lemma says some draw yields cannot come back in the bot, for the platform-dependent conversion the line above describes.
- A rejected return value (neither nil nor a table) makes the bot raise a script error outside any protected call, and the bot does not recover from it. The model stops at that point: `ReturnRejected`, nothing sent, and the value left on the stack. What the raised error does to the calling connection is not modelled.
- LuaValues.AsString: numbers have no string view here (the interpreter would format them). So a numeric `command`, `net`, parameter or identity default reads as empty.
- LuaValues.ToInt: numeric strings are not parsed. Numbers are integers, so the truncation of fractional ports and bounds is not modelled. Numbers outside Go's 64-bit `int` range are also kept exactly, while the bot's conversion of such a number is left to the platform (negative on amd64, saturated on arm64).
- Servers.SettingsFrom: a `port` of 2^63 or more is kept exactly. The bot's `int(port)` (`bot/bananaboatbot.go:315`) leaves such a conversion to the platform. So the port the bot stores there differs from the model's.
- Table iteration order is not modelled. The handlers and servers tables are maps keyed by string. Non-string keys and keys that convert to the same string are not modelled.
- Returned lists and params tables are visited through their array part only. The bot's iteration also visits the hash part, after the array entries. For a params table those values are written into the slots left empty by nil entries, and once those slots run out the write goes past the end of the slice, which is a run-time panic in Go. Nil array entries are modelled: they are skipped, and the slots reserved for them stay empty at the end.
- TrimSpace: trims only the ASCII white-space bytes (space, tab, newline, vertical tab, form feed, carriage return). Go's trimming decodes UTF-8 and also removes every other Unicode White_Space character (U+0085, U+00A0, U+1680, U+2000 to U+200A, U+2028, U+2029, U+202F, U+205F, U+3000). Each of those takes two or three bytes in UTF-8, so a model that treats one byte as one character cannot represent them, and titles that start or end with one keep it here.
- Rebuilding a function from its prototype for a worker's interpreter is not modelled. A `FuncId` stays the same, so the arguments' sanitising loop is the identity here.
- The stack of a worker's own interpreter is not modelled. Only the shared interpreter's stack is.
