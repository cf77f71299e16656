# SpongeCommandManager: a verified model of its bookkeeping

`SpongeCommandManager` adapts the Aikar command framework (ACF) to the Sponge
plugin host. Most of the class forwards calls to host and framework code. This
project models the part that keeps state of its own:

- the **root-command table**. `registerCommand` folds a command's batch of
  (name, root command) entries into a map keyed by the lowercased name. It hands
  each root command to the host's command registrar only while that root's
  `isRegistered` flag is still false, and then sets the flag;
- the three **lazily created sub-resources**: the command contexts, the command
  completions and the locales. The locales load their languages once, when they
  are created;
- **log output**. `log` writes the prefixed message. If a throwable is given, it
  then writes one prefixed line per line of the stack trace, at the same severity;
- the **issuer helpers**: the issuer-type test, wrapping an object as an issuer,
  and the command prefix.

Files:

- `ascii.dfy` (module `Ascii`): lowercasing of command names.
- `lines.dfy` (module `Lines`): the newline split that `log` applies to a stack
  trace. It follows `Pattern.split` with limit 0. An input with no newline gives
  back the input alone. Otherwise the pieces between newlines are returned, with
  the trailing empty pieces dropped.
- `registration.dfy` (module `Registration`): the registration loop as a pure
  function over a table. The table holds the name-to-root map, the set of
  flagged roots and the log of host-registrar calls. Its lemmas hold the
  registration properties.
- `logging.dfy` (module `Logging`): the lines one `log` call writes.
- `issuers.dfy` (module `Issuers`): `isCommandIssuer`, `getCommandIssuer` and
  `getCommandPrefix`.
- `manager.dfy` (module `Sponge`): the classes. `SpongeCommandManager` has
  `registeredCommands`, `contexts`, `completions` and `locales` as fields. It
  also has two logs: `hostCalls` records the calls the host registrar receives,
  and `logged` records the lines the plugin logger receives. `RootCommand` has
  the `isRegistered` flag. `RegisterCommand` runs its loop in `RegisterEntries`,
  and `Log` has its own loop; each loop is proved against the matching pure
  function. `Valid()` is the manager's invariant:
  every key and every registrar alias is lowercase, no root command is handed
  to the registrar twice, and every root that was handed to the registrar or
  is stored in the map is flagged.

Two points of the code's own behaviour shape the model:

- Every entry of a batch is written into the map, whether or not its root was
  already flagged. Only the call to the host registrar depends on the flag.
- The file has no lookup operation. The model therefore states only which
  lowercase keys are stored, and what each maps to.

## Model

| member | source | states |
|---|---|---|
| Ascii.Lower | sponge/src/main/java/co/aikar/commands/SpongeCommandManager.java:125 | the lowercased name has the input's length, maps each letter A-Z to a-z and keeps every other character, and contains no upper-case letter |
| Ascii.LowerIdempotent | sponge/src/main/java/co/aikar/commands/SpongeCommandManager.java:125 | lowercasing a stored key again gives the same key |
| Registration.Register | sponge/src/main/java/co/aikar/commands/SpongeCommandManager.java:125-130 | one entry: its lowercased name is added to the keys and maps to its root; the root ends up flagged; a registrar call with that name and root is appended exactly when the root was not flagged before, and otherwise the call log is unchanged |
| Registration.RegisterAll | sponge/src/main/java/co/aikar/commands/SpongeCommandManager.java:124-131 | the loop over a batch never removes a key, never clears a flag, and only appends to the registrar-call log |
| Registration.RegisterAllCommands | sponge/src/main/java/co/aikar/commands/SpongeCommandManager.java:124-131 | after the loop, the table is the old table overwritten by the batch's own map, in which later entries win |
| Registration.RegisterAllKeys | sponge/src/main/java/co/aikar/commands/SpongeCommandManager.java:124-131 | the keys afterwards are the old keys plus the batch's lowercased names, so the map never shrinks; keys outside the batch keep their old root |
| Registration.RegisterAllLastWins | sponge/src/main/java/co/aikar/commands/SpongeCommandManager.java:125-131 | an entry that no later entry shadows is stored under its lowercased name and maps to its root, overwriting any earlier mapping |
| Registration.RegisterAllStoresEveryEntry | sponge/src/main/java/co/aikar/commands/SpongeCommandManager.java:124-131 | when no two batch names lowercase alike, every entry is stored under its lowercased name and maps to its own root |
| Registration.RegisterAllKeysLower | sponge/src/main/java/co/aikar/commands/SpongeCommandManager.java:125-131 | a table with only lowercase keys keeps only lowercase keys |
| Registration.RegisterAllValues | sponge/src/main/java/co/aikar/commands/SpongeCommandManager.java:124-131 | every root stored after the loop was stored before or comes from the batch |
| Registration.RegisterAllFlags | sponge/src/main/java/co/aikar/commands/SpongeCommandManager.java:130 | afterwards the flagged roots are the ones flagged before plus every root of the batch |
| Registration.RegisterAllHostCalls | sponge/src/main/java/co/aikar/commands/SpongeCommandManager.java:127-129 | the loop only appends registrar calls: one per batch root that was unflagged before and none for any other root, each under the lowercased name of the first batch entry carrying that root |
| Registration.RegisterAllCallAliases | sponge/src/main/java/co/aikar/commands/SpongeCommandManager.java:125-128 | each new registrar call is made under the lowercased name of the first batch entry carrying its root |
| Registration.RegisterAllCallsOnce | sponge/src/main/java/co/aikar/commands/SpongeCommandManager.java:127-130 | when no root was called twice before and every previously called root in the batch is flagged, still no root is called twice; the called roots grow by exactly the batch's unflagged roots |
| Registration.RegisterAllCallNamesLower | sponge/src/main/java/co/aikar/commands/SpongeCommandManager.java:125-128 | every alias passed to the host registrar is lowercase |
| Registration.RegisterAllAlreadyRegistered | sponge/src/main/java/co/aikar/commands/SpongeCommandManager.java:127-131 | re-registering roots that are all flagged makes no registrar call, but still writes the batch into the map |
| Registration.RegisterAllTwice | sponge/src/main/java/co/aikar/commands/SpongeCommandManager.java:121-133 | registering the same batch twice leaves exactly the state that registering it once does |
| Registration.RegisterAllNonEmpty | sponge/src/main/java/co/aikar/commands/SpongeCommandManager.java:124-131 | a non-empty batch leaves a non-empty table |
| Registration.RegisterMixedCaseExample | sponge/src/main/java/co/aikar/commands/SpongeCommandManager.java:125 | registering "Foo" into an empty table stores it under "foo" and under no other key |
| Sponge.SpongeCommandManager.RegisterCommand | sponge/src/main/java/co/aikar/commands/SpongeCommandManager.java:120-133 | the loop leaves the map, the registrar-call log and the batch roots' flags exactly as the pure registration fold says; every batch root is flagged; a batch whose roots were all flagged makes no registrar call; the manager invariant is kept (lowercase keys and aliases, no root called twice, every called or stored root flagged); a non-empty batch makes `HasRegisteredCommands` true |
| Sponge.SpongeCommandManager.RegisterEntries | sponge/src/main/java/co/aikar/commands/SpongeCommandManager.java:124-131 | the loop over the batch leaves the map, the registrar-call log and the batch roots' flags exactly as the pure registration fold says |
| Sponge.SpongeCommandManager.HasRegisteredCommands | sponge/src/main/java/co/aikar/commands/SpongeCommandManager.java:115-118 | true exactly when some name is stored in the table |
| Sponge.SpongeCommandManager.GetRegisteredRootCommands | sponge/src/main/java/co/aikar/commands/SpongeCommandManager.java:144-147 | every root some stored name maps to is in the result, and every root in the result has been flagged |
| Sponge.SpongeCommandManager.GetCommandContexts | sponge/src/main/java/co/aikar/commands/SpongeCommandManager.java:90-96 | creates the contexts on the first call and returns that same instance on every later call |
| Sponge.SpongeCommandManager.GetCommandCompletions | sponge/src/main/java/co/aikar/commands/SpongeCommandManager.java:98-104 | creates the completions on the first call and returns that same instance on every later call |
| Sponge.SpongeCommandManager.GetLocales | sponge/src/main/java/co/aikar/commands/SpongeCommandManager.java:106-113 | creates the locales on the first call and loads languages exactly once then; later calls return the same instance and load nothing |
| Sponge.SpongeCommandManager.constructor | sponge/src/main/java/co/aikar/commands/SpongeCommandManager.java:61-71 | starts with an empty table and no contexts or completions; the locales are created and loaded once although requested twice, and carry the bundles "acf-minecraft", "acf-" + plugin name, and its lowercase form |
| Sponge.SpongeCommandManager.Log | sponge/src/main/java/co/aikar/commands/SpongeCommandManager.java:172-192 | the loop appends to the logger exactly the lines of `LogLines` for the call |
| Logging.Prefixed | sponge/src/main/java/co/aikar/commands/SpongeCommandManager.java:179-181 | one log line per stack-trace line, in order, each the prefix followed by that line, at the given severity |
| Logging.LogLines | sponge/src/main/java/co/aikar/commands/SpongeCommandManager.java:173-191 | the first line is the prefixed message; every line has the call's severity; with no throwable only that line is written; with one, line k+1 is the prefix followed by the k-th line of the split stack trace |
| Logging.LogLinesRecoverTrace | sponge/src/main/java/co/aikar/commands/SpongeCommandManager.java:179-181 | with the prefix removed, the trace lines contain no newline, and joined with newlines they give back the stack trace, apart from newlines at its end |
| Lines.Pieces | sponge/src/main/java/co/aikar/commands/SpongeCommandManager.java:179 | the pieces between newlines: at least one, none containing a newline, and the input alone when it has no newline |
| Lines.JoinPieces | sponge/src/main/java/co/aikar/commands/SpongeCommandManager.java:179 | joining the pieces with newlines gives back the input |
| Lines.DropTrailingEmpty | sponge/src/main/java/co/aikar/commands/SpongeCommandManager.java:179 | the result is a prefix of the pieces that does not end in an empty piece, and only empty pieces were dropped |
| Lines.JoinDropTrailingEmpty | sponge/src/main/java/co/aikar/commands/SpongeCommandManager.java:179 | dropping trailing empty pieces removes only newlines from the end of the join |
| Lines.Split | sponge/src/main/java/co/aikar/commands/SpongeCommandManager.java:179 | no line of the split contains a newline; an input without a newline, the empty one included, is a single line; otherwise the last line, if any, is not empty |
| Lines.SplitRecoversInput | sponge/src/main/java/co/aikar/commands/SpongeCommandManager.java:179 | the split lines, joined with newlines, are the input up to a run of newlines at its end |
| Lines.SplitExampleTrailingNewline | sponge/src/main/java/co/aikar/commands/SpongeCommandManager.java:179 | "a\nb\n" splits into ["a", "b"], with no empty last line |
| Lines.SplitExampleOnlyNewlines | sponge/src/main/java/co/aikar/commands/SpongeCommandManager.java:179 | "\n\n" splits into no line at all, so only the message is logged |
| Issuers.GetCommandIssuer | sponge/src/main/java/co/aikar/commands/SpongeCommandManager.java:149-155 | succeeds exactly for objects whose class is a command source, and then wraps exactly that object; otherwise fails with an argument error "<class name> is not a Command Issuer." |
| Issuers.GetCommandPrefix | sponge/src/main/java/co/aikar/commands/SpongeCommandManager.java:211-214 | "/" for a player issuer, "" for any other issuer |
| Issuers.IsCommandIssuer | sponge/src/main/java/co/aikar/commands/SpongeCommandManager.java:85-88 | the command-source interface itself passes the issuer-type test, and so does every player type |
| Issuers.WrappedIssuerPrefix | sponge/src/main/java/co/aikar/commands/SpongeCommandManager.java:149-155 | an accepted object wraps to itself, and its commands take the prefix "/" exactly when it is a player, and "" otherwise |

## Left out

- Constructor host wiring is left out: `Timings.of`, the message formatters and colours, `validNamePredicate`, the event-listener registration and `registerDependency`. These are calls into host and library code that is not part of this model. Only the locale setup is modelled.
- `createTiming` and `getPlugin` are left out. They only delegate to the host or return the plugin handle.
- The factory methods are left out: `createRootCommand`, `createCommandContext`, `createCompletionContext`, `createRegisteredCommand`, `createCommandOperationContext` and `createConditionContext`. Each only calls the constructor of a class that is not part of this model.
- `command.onRegister(this)` is left out. The framework code that fills `BaseCommand.registeredCommands` is not part of this model, so the batch is an input sequence. Its order stands for the unspecified iteration order of the `HashMap` entry set.
- Sponge.SpongeCommandManager.RegisterCommand: the host registrar always succeeds. A registrar that throws partway through a batch, leaving earlier entries registered, is not modelled.
- Ascii.Lower: lowercases only the ASCII letters A-Z. `toLowerCase(Locale.ENGLISH)` also lowercases other Unicode letters.
- Lines.Split: assumes the framework's newline pattern is the single character "\n". That pattern is not part of this model. Stack-trace generation (`ApacheCommonsExceptionUtil`) is not modelled either; a throwable is given by its stack-trace text.
- Logging.LogLines: the framework's `LogLevel` is not part of this model. It is taken to have only the two values the switch handles, `INFO` and `ERROR`. Its prefix constant is taken to be "[ACF] ", though no property proved depends on that value.
- Sponge.SpongeCommandManager.GetRegisteredRootCommands: returns the set of stored roots. A root stored under two names counts once. The model does not capture that the result is a live, unmodifiable view of the map's values. Its contract states that every stored root is in the result and that every root in the result is flagged, not the converse inclusion.
- Sponge.SpongeCommandManager.GetCommandContexts, Sponge.SpongeCommandManager.GetCommandCompletions: these two getters are `synchronized`; their single initialisation under concurrent first access is not modelled. Only the sequential create-once behaviour is.
- Sponge.SpongeCommandManager.GetLocales: this getter is not `synchronized`. Two concurrent first calls could each create a `SpongeLocales` and each load its languages. Concurrency is not modelled, so the model states only the sequential create-once, load-once behaviour.
- Issuers.GetCommandPrefix: `SpongeCommandIssuer.isPlayer` is not part of this model. An issuer is taken to be a player exactly when its source's class is a Sponge `Player`.
- Issuers.GetCommandIssuer: a null issuer, which makes the source throw a `NullPointerException` while building its message, is not modelled.
- `SpongeLocales.loadLanguages` and `addMessageBundles` are recorded only as a load counter and the list of bundle names. The bundles themselves are not modelled.
