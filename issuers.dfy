/** Issuer helpers of `SpongeCommandManager`: which runtime types are command
    issuers, wrapping an object as an issuer, and the prefix a command is typed with. */
module Issuers {

  /** The host's command-source interface; a player is one. */
  const CommandSourceType: string := "org.spongepowered.api.command.CommandSource"
  const PlayerType: string := "org.spongepowered.api.entity.living.player.Player"

  /** A runtime class, with the names of every class and interface its instances
      are instances of (itself included). */
  datatype RuntimeType = RuntimeType(name: string, supertypes: set<string>)

  /** In the host's type hierarchy a class is its own supertype and every player is a command source. */
  predicate WellFormed(t: RuntimeType)
  {
    t.name in t.supertypes && (PlayerType in t.supertypes ==> CommandSourceType in t.supertypes)
  }

  /** An object handed to the manager: its identity and its runtime class. */
  datatype HostObject = HostObject(id: nat, runtimeType: RuntimeType)

  /** The framework's wrapper around a command source. */
  datatype SpongeCommandIssuer = SpongeCommandIssuer(source: HostObject)
  {
    /** A player types commands with a leading slash; the console does not. */
    predicate IsPlayer() { PlayerType in source.runtimeType.supertypes }
  }

  datatype Error = IllegalArgument(message: string)

  datatype Result<T> = Ok(value: T) | Err(error: Error)

  /** `CommandSource.class.isAssignableFrom(type)`: the command-source interface
      itself and every type below it, players among them. */
  function IsCommandIssuer(t: RuntimeType): (b: bool)
    ensures WellFormed(t) && t.name == CommandSourceType ==> b
    ensures WellFormed(t) && PlayerType in t.supertypes ==> b
  {
    CommandSourceType in t.supertypes
  }

  /** Wraps a command source; anything else is refused with an argument error naming its class. */
  function GetCommandIssuer(issuer: HostObject): (r: Result<SpongeCommandIssuer>)
    ensures r.Ok? <==> IsCommandIssuer(issuer.runtimeType)
    ensures r.Ok? ==> r.value.source == issuer
    ensures r.Err? ==> r.error == IllegalArgument(issuer.runtimeType.name + " is not a Command Issuer.")
  {
    if !IsCommandIssuer(issuer.runtimeType) then
      Err(IllegalArgument(issuer.runtimeType.name + " is not a Command Issuer."))
    else
      Ok(SpongeCommandIssuer(issuer))
  }

  function GetCommandPrefix(issuer: SpongeCommandIssuer): (prefix: string)
    ensures issuer.IsPlayer() ==> prefix == "/"
    ensures !issuer.IsPlayer() ==> prefix == ""
  {
    if issuer.IsPlayer() then "/" else ""
  }

  /** An accepted object wraps to itself, and its commands take the "/" prefix
      exactly when it is a player. */
  lemma WrappedIssuerPrefix(o: HostObject)
    requires IsCommandIssuer(o.runtimeType)
    ensures GetCommandIssuer(o) == Ok(SpongeCommandIssuer(o))
    ensures GetCommandPrefix(GetCommandIssuer(o).value) == "/" <==> PlayerType in o.runtimeType.supertypes
    ensures GetCommandPrefix(GetCommandIssuer(o).value) != "/" ==> GetCommandPrefix(GetCommandIssuer(o).value) == ""
  {
  }
}
