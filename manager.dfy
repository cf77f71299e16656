/** `SpongeCommandManager`: the root-command table, the lazily created
    sub-resources, and log output, as state updated in place. The host's command
    registrar and the plugin's logger are modelled by the calls they receive. */
module Sponge {
  import opened Ascii
  import opened Registration
  import opened Logging
  import Lines

  /** A root command; its `isRegistered` flag says whether the host registrar has seen it. */
  class RootCommand {
    const name: string
    var isRegistered: bool

    constructor (name: string)
      ensures this.name == name && !isRegistered
    {
      this.name := name;
      isRegistered := false;
    }
  }

  /** The context-resolution registry. */
  class CommandContexts {
    constructor () {}
  }

  /** The completion-resolution registry. */
  class CommandCompletions {
    constructor () {}
  }

  /** The plugin's locale bundles: how often languages were loaded, and the message bundles added. */
  class Locales {
    var languageLoads: nat
    var messageBundles: seq<string>

    constructor ()
      ensures languageLoads == 0 && messageBundles == []
    {
      languageLoads := 0;
      messageBundles := [];
    }

    method LoadLanguages()
      modifies this
      ensures languageLoads == old(languageLoads) + 1 && messageBundles == old(messageBundles)
    {
      languageLoads := languageLoads + 1;
    }

    method AddMessageBundles(names: seq<string>)
      modifies this
      ensures messageBundles == old(messageBundles) + names && languageLoads == old(languageLoads)
    {
      messageBundles := messageBundles + names;
    }
  }

  /** The root commands of a set whose flag is set. */
  ghost function Flagged(roots: set<RootCommand>): set<RootCommand>
    reads roots
  {
    set r | r in roots && r.isRegistered
  }

  class SpongeCommandManager {
    const pluginName: string
    var registeredCommands: map<string, RootCommand>
    /** The calls made to the host's command registrar, in order. */
    var hostCalls: seq<HostCall<RootCommand>>
    var contexts: CommandContexts?
    var completions: CommandCompletions?
    var locales: Locales?
    /** The lines written to the plugin's logger, in order. */
    var logged: seq<LogLine>

    /** Keys and registrar aliases are lowercase, every stored root and every
        root handed to the registrar is flagged, and none was handed to it twice. */
    ghost predicate Valid()
      reads this, CalledRoots(hostCalls), registeredCommands.Values
    {
      && KeysLower(registeredCommands)
      && CalledOnce(hostCalls)
      && (forall k :: 0 <= k < |hostCalls| ==> IsLower(hostCalls[k].name))
      && (forall r :: r in CalledRoots(hostCalls) ==> r.isRegistered)
      && (forall r :: r in registeredCommands.Values ==> r.isRegistered)
    }

    /** The constructor's own bookkeeping: an empty table, and the locales created
        (and loaded) once although they are asked for twice. */
    constructor (pluginName: string)
      ensures Valid()
      ensures this.pluginName == pluginName
      ensures registeredCommands == map[] && hostCalls == [] && logged == []
      ensures contexts == null && completions == null
      ensures locales != null && fresh(locales) && locales.languageLoads == 1
      ensures locales.messageBundles == ["acf-minecraft", "acf-" + pluginName, Lower("acf-" + pluginName)]
    {
      this.pluginName := pluginName;
      registeredCommands := map[];
      hostCalls := [];
      contexts := null;
      completions := null;
      locales := null;
      logged := [];
      new;
      var name := "acf-" + pluginName;
      var l := GetLocales();
      l.AddMessageBundles(["acf-minecraft", name, Lower(name)]);
      l := GetLocales();
    }

    method GetCommandContexts() returns (c: CommandContexts)
      modifies this`contexts
      ensures contexts == c
      ensures old(contexts) != null ==> c == old(contexts)
      ensures old(contexts) == null ==> fresh(c)
    {
      if contexts == null {
        contexts := new CommandContexts();
      }
      c := contexts;
    }

    method GetCommandCompletions() returns (c: CommandCompletions)
      modifies this`completions
      ensures completions == c
      ensures old(completions) != null ==> c == old(completions)
      ensures old(completions) == null ==> fresh(c)
    {
      if completions == null {
        completions := new CommandCompletions();
      }
      c := completions;
    }

    /** Creates the locales on first use and loads their languages then, and only then. */
    method GetLocales() returns (l: Locales)
      modifies this`locales
      ensures locales == l
      ensures old(locales) != null ==> l == old(locales) && l.languageLoads == old(l.languageLoads)
      ensures old(locales) == null ==> fresh(l) && l.languageLoads == 1 && l.messageBundles == []
    {
      if locales == null {
        locales := new Locales();
        locales.LoadLanguages();
      }
      l := locales;
    }

    function HasRegisteredCommands(): (b: bool)
      reads this
      ensures b <==> exists k :: k in registeredCommands
    {
      registeredCommands != map[]
    }

    /** Exactly the root commands the table maps some name to; each of them has
        been flagged, since a root is flagged before it is stored. */
    function GetRegisteredRootCommands(): (roots: set<RootCommand>)
      requires Valid()
      reads this, CalledRoots(hostCalls), registeredCommands.Values
      ensures forall k :: k in registeredCommands ==> registeredCommands[k] in roots
      ensures forall r :: r in roots ==> r.isRegistered
    {
      registeredCommands.Values
    }

    /** Stores every entry of the batch under its lowercased name, hands each root
        not yet flagged to the host registrar, and flags every root of the batch. */
    method RegisterCommand(batch: seq<Entry<RootCommand>>)
      requires Valid()
      modifies this`registeredCommands, this`hostCalls, Roots(batch)
      ensures Valid()
      ensures var t := RegisterAll(Table(old(registeredCommands), old(Flagged(Roots(batch))), old(hostCalls)), batch);
        registeredCommands == t.commands && hostCalls == t.hostCalls && Flagged(Roots(batch)) == t.registered
      ensures forall r :: r in Roots(batch) ==> r.isRegistered
      ensures old(Flagged(Roots(batch))) == Roots(batch) ==> hostCalls == old(hostCalls)
      ensures |batch| > 0 ==> HasRegisteredCommands()
    {
      ghost var t0 := Table(registeredCommands, Flagged(Roots(batch)), hostCalls);
      RegisterEntries(batch);
      RegisterAllKeepsInvariant(t0, batch);
      forall r | r in CalledRoots(hostCalls)
        ensures r.isRegistered
      {
        if r in old(CalledRoots(hostCalls)) {
          assert old(r.isRegistered);
        }
      }
      forall r | r in registeredCommands.Values
        ensures r.isRegistered
      {
        if r in old(registeredCommands.Values) {
          assert old(r.isRegistered);
        }
      }
      if t0.registered == Roots(batch) {
        RegisterAllAlreadyRegistered(t0, batch);
      }
      if |batch| > 0 {
        RegisterAllNonEmpty(t0, batch);
      }
    }

    /** The loop of registerCommand: each entry in turn is stored under its
        lowercase name, and its root is handed to the registrar unless flagged. */
    method RegisterEntries(batch: seq<Entry<RootCommand>>)
      modifies this`registeredCommands, this`hostCalls, Roots(batch)
      ensures var t := RegisterAll(Table(old(registeredCommands), old(Flagged(Roots(batch))), old(hostCalls)), batch);
        registeredCommands == t.commands && hostCalls == t.hostCalls && Flagged(Roots(batch)) == t.registered
    {
      ghost var t0 := Table(registeredCommands, Flagged(Roots(batch)), hostCalls);
      ghost var t := t0;
      var i := 0;
      while i < |batch|
        invariant 0 <= i <= |batch|
        invariant t == RegisterAll(t0, batch[..i])
        invariant registeredCommands == t.commands && hostCalls == t.hostCalls
        invariant t.registered <= Roots(batch)
        invariant forall r :: r in Roots(batch) ==> (r.isRegistered <==> r in t.registered)
      {
        var name := Lower(batch[i].name);
        var root := batch[i].root;
        assert root in Roots(batch);
        RegisterAllStep(t0, batch, i);
        if !root.isRegistered {
          hostCalls := hostCalls + [HostCall(name, root)];
        }
        root.isRegistered := true;
        registeredCommands := registeredCommands[name := root];
        t := Register(t, batch[i]);
        i := i + 1;
      }
      assert Flagged(Roots(batch)) == t.registered;
      assert batch[..i] == batch;
    }

    /** Writes the prefixed message, then, for a throwable, one prefixed line per
        line of its stack trace, all at the given severity. */
    method Log(level: LogLevel, message: string, throwable: Option<Throwable>)
      modifies this`logged
      ensures logged == old(logged) + LogLines(level, message, throwable)
    {
      var first := LogLine(level, LogPrefix + message);
      var written := [first];
      if throwable.Some? {
        var lines := Lines.Split(throwable.value.stackTrace);
        for i := 0 to |lines|
          invariant written == [first] + Prefixed(level, lines[..i])
          invariant logged == old(logged)
        {
          written := written + [LogLine(level, LogPrefix + lines[i])];
          PrefixedSnoc(level, lines, i);
        }
        assert lines[..|lines|] == lines;
      }
      assert written == LogLines(level, message, throwable);
      logged := logged + written;
    }
  }
}
