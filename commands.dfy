/** The command dispatcher of `ExternalEventReceiver.ProcessMessage`: the
    `switch` from a decoded command to the handler it runs, with the
    arguments the handler receives. */
module Commands {
  import opened World
  import opened Text
  import opened Decoder

  /** A handler call, with its arguments as the `switch` passes them. */
  datatype Action =
    | HandleRaidGeneral(raidFaction: Option<FactionId>, raidPoints: real, raidStrategy: Option<string>)
    | ItemDropPods(itemName: Option<string>)
    | TriggerRandomExplosion
    | WandererJoinsEvent(customName: Option<string>)
    | ForceEnemyFlee
    | ResurrectAllCorpses
    | ChangeWeather(weatherName: Option<string>)
    | CallEventSimple(eventName: string)
    | NeutralLetter(title: string, body: string)
    | UnknownCommand(command: string)
    | RejectMessage

  /** The names the `switch` has a case for. */
  const KnownCommands: set<string> := {
    "raid", "siege", "itempods", "boom", "wanderer", "retreat", "resurrect",
    "weather", "solarflare", "eclipse", "aurora", "fallout", "zzzt", "message"
  }

  /** The simple events: command name to incident def name. */
  const SimpleIncidents: map<string, string> := map[
    "solarflare" := "SolarFlare",
    "eclipse" := "Eclipse",
    "aurora" := "Aurora",
    "fallout" := "ToxicFallout",
    "zzzt" := "ShortCircuit"
  ]

  /** The commands whose handler reads no parameter. */
  const ParameterlessCommands: set<string> := KnownCommands - {"itempods", "wanderer", "weather", "message"}

  /** `(parameters.Length == 0) ? null : parameters[0]`. */
  function FirstOrNull(parameters: seq<string>): (r: Option<string>)
    ensures r.Some? <==> |parameters| > 0
    ensures r.Some? ==> r.value == parameters[0]
  {
    if |parameters| == 0 then None else Some(parameters[0])
  }

  /** `(parameters.Length < i + 1) ? "" : parameters[i]`. */
  function TextOrEmpty(parameters: seq<string>, i: nat): (r: string)
    ensures i < |parameters| ==> r == parameters[i]
    ensures |parameters| <= i ==> r == ""
  {
    if |parameters| < i + 1 then "" else parameters[i]
  }

  /** The `switch (command)` of ProcessMessage. */
  function Dispatch(cmd: Command): (a: Action)
    ensures a.UnknownCommand? <==> cmd.name !in KnownCommands
    ensures a.UnknownCommand? ==> a.command == cmd.name
    ensures a != RejectMessage
  {
    var ps := cmd.parameters;
    match cmd.name
    case "raid" => HandleRaidGeneral(None, -1.0, None)
    case "siege" => HandleRaidGeneral(None, -1.0, Some("Siege"))
    case "itempods" => ItemDropPods(FirstOrNull(ps))
    case "boom" => TriggerRandomExplosion
    case "wanderer" => WandererJoinsEvent(FirstOrNull(ps))
    case "retreat" => ForceEnemyFlee
    case "resurrect" => ResurrectAllCorpses
    case "weather" => ChangeWeather(FirstOrNull(ps))
    case "solarflare" => CallEventSimple("SolarFlare")
    case "eclipse" => CallEventSimple("Eclipse")
    case "aurora" => CallEventSimple("Aurora")
    case "fallout" => CallEventSimple("ToxicFallout")
    case "zzzt" => CallEventSimple("ShortCircuit")
    case "message" => NeutralLetter(TextOrEmpty(ps, 0), TextOrEmpty(ps, 1))
    case _ => UnknownCommand(cmd.name)
  }

  /** ProcessMessage's decision: decode, then dispatch; a failed decode would
      only log. */
  function Interpret(message: string): (a: Action)
    ensures a != RejectMessage
  {
    match Decode(message)
    case Decoded(cmd) => Dispatch(cmd)
    case InvalidMessageFormat => RejectMessage
  }

  /** The five simple events go to exactly the incidents of the table, and
      only they call a simple incident. */
  lemma SimpleIncidentTable(cmd: Command)
    ensures cmd.name in SimpleIncidents ==> Dispatch(cmd) == CallEventSimple(SimpleIncidents[cmd.name])
    ensures Dispatch(cmd).CallEventSimple? ==> cmd.name in SimpleIncidents
  {
  }

  /** `raid` runs the raid handler with every argument left to its default;
      `siege` pins only the Siege strategy. */
  lemma RaidCommands(cmd: Command)
    ensures cmd.name == "raid" ==> Dispatch(cmd) == HandleRaidGeneral(None, -1.0, None)
    ensures cmd.name == "siege" ==> Dispatch(cmd) == HandleRaidGeneral(None, -1.0, Some("Siege"))
    ensures Dispatch(cmd).HandleRaidGeneral? ==> cmd.name in {"raid", "siege"}
    ensures Dispatch(cmd).HandleRaidGeneral? ==> Dispatch(cmd).raidFaction.None? && Dispatch(cmd).raidPoints < 0.0
  {
  }

  /** Optional parameters: the first one or null for itempods, wanderer and
      weather; the first two or "" for message. */
  lemma OptionalParameters(cmd: Command)
    ensures cmd.name == "itempods" ==> Dispatch(cmd) == ItemDropPods(if |cmd.parameters| > 0 then Some(cmd.parameters[0]) else None)
    ensures cmd.name == "wanderer" ==> Dispatch(cmd) == WandererJoinsEvent(if |cmd.parameters| > 0 then Some(cmd.parameters[0]) else None)
    ensures cmd.name == "weather" ==> Dispatch(cmd) == ChangeWeather(if |cmd.parameters| > 0 then Some(cmd.parameters[0]) else None)
    ensures cmd.name == "message" ==> Dispatch(cmd) == NeutralLetter(
      if |cmd.parameters| >= 1 then cmd.parameters[0] else "",
      if |cmd.parameters| >= 2 then cmd.parameters[1] else "")
  {
  }

  /** Parameterless commands ignore whatever parameters follow them. */
  lemma ParametersIgnored(name: string, ps: seq<string>, qs: seq<string>)
    requires name in ParameterlessCommands || name !in KnownCommands
    ensures Dispatch(Command(name, ps)) == Dispatch(Command(name, qs))
  {
  }

  /** Each kind of action comes from exactly one set of names. */
  lemma ActionSources(cmd: Command)
    ensures Dispatch(cmd).ItemDropPods? <==> cmd.name == "itempods"
    ensures Dispatch(cmd).TriggerRandomExplosion? <==> cmd.name == "boom"
    ensures Dispatch(cmd).WandererJoinsEvent? <==> cmd.name == "wanderer"
    ensures Dispatch(cmd).ForceEnemyFlee? <==> cmd.name == "retreat"
    ensures Dispatch(cmd).ResurrectAllCorpses? <==> cmd.name == "resurrect"
    ensures Dispatch(cmd).ChangeWeather? <==> cmd.name == "weather"
    ensures Dispatch(cmd).NeutralLetter? <==> cmd.name == "message"
    ensures Dispatch(cmd).HandleRaidGeneral? <==> cmd.name in {"raid", "siege"}
    ensures Dispatch(cmd).CallEventSimple? <==> cmd.name in SimpleIncidents
  {
  }

  /** The command name is case-insensitive: upper-case letters in the first
      segment select the same handler. */
  lemma NameCaseInsensitive(message: string, other: string)
    requires ToLower(Segments(message)[0]) == ToLower(Segments(other)[0])
    requires Decode(message).command.parameters == Decode(other).command.parameters
    ensures Interpret(message) == Interpret(other)
  {
  }

  /** Whatever encodable command a client sends is the command dispatched. */
  lemma InterpretEncoded(cmd: Command)
    requires Encodable(cmd)
    ensures Interpret(Encode(cmd)) == Dispatch(cmd)
  {
    DecodeEncode(cmd);
  }

  /** `weather:Rain` asks for the Rain weather. */
  lemma WeatherRainMessage()
    ensures Interpret("weather:Rain") == ChangeWeather(Some("Rain"))
  {
    var cmd := Command("weather", ["Rain"]);
    var fields := [cmd.name] + cmd.parameters;
    assert fields == ["weather", "Rain"] && fields[1..] == ["Rain"];
    assert !IsWhiteSpace('n');
    assert Encodable(cmd);
    assert Join(fields[1..], ':') == "Rain";
    assert Encode(cmd) == "weather" + ":" + "Rain" == "weather:Rain";
    InterpretEncoded(cmd);
    OptionalParameters(cmd);
  }

  /** `message:Hi:Body text` sends a neutral letter titled Hi. */
  lemma MessageLetter()
    ensures Interpret("message:Hi:Body text") == NeutralLetter("Hi", "Body text")
  {
    var cmd := Command("message", ["Hi", "Body text"]);
    var fields := [cmd.name] + cmd.parameters;
    assert fields == ["message", "Hi", "Body text"];
    assert fields[1..] == ["Hi", "Body text"] && fields[1..][1..] == ["Body text"];
    assert !IsWhiteSpace('t');
    assert Encodable(cmd);
    assert Join(fields[1..][1..], ':') == "Body text";
    assert Join(fields[1..], ':') == "Hi" + ":" + "Body text";
    assert Encode(cmd) == "message" + ":" + ("Hi" + ":" + "Body text") == "message:Hi:Body text";
    InterpretEncoded(cmd);
    OptionalParameters(cmd);
  }

  /** An empty message, or one of separators only, is an unknown command with
      the empty name. */
  lemma EmptyIsUnknown(message: string)
    requires forall i :: 0 <= i < |message| ==> message[i] == ':' || message[i] == '"'
    ensures Interpret(message) == UnknownCommand("")
  {
    DecodeEmpty(message);
  }
}
