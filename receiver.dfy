/** `ExternalEventReceiver.ProcessMessage`: decode one message, select its
    handler, and run it on the game. */
module Receiver {
  import opened World
  import Decoder
  import Commands
  import Weather
  import Resurrection
  import Raid
  import DropPods
  import Handlers

  const InvalidFormatText := "Invalid message format."

  function UnknownCommandText(command: string): string {
    "Unknown command received: " + command
  }

  /** What running a handler call does to the game: only the raid handler
      raids, and it raids at most once. */
  function Run(action: Commands.Action, game: Game, chance: Chance): (effects: seq<Effect>)
    ensures !action.HandleRaidGeneral? ==> Count(effects, RaidKind) == 0
    ensures Count(effects, RaidKind) <= 1
  {
    match action
    case HandleRaidGeneral(faction, points, strategy) =>
      Raid.RaidOutcome(game, chance, faction, points, strategy);
      Raid.RaidEffects(game, chance, faction, points, strategy)
    case ItemDropPods(itemName) => DropPods.ItemDropPodsEffects(game, chance, itemName)
    case TriggerRandomExplosion => Handlers.ExplosionEffects(game, chance)
    case WandererJoinsEvent(customName) => Handlers.WandererEffects(game, chance, customName)
    case ForceEnemyFlee =>
      NoRaidInRetreat(game);
      Handlers.RetreatEffects(game)
    case ResurrectAllCorpses =>
      NoRaidInResurrection(game);
      Resurrection.ResurrectionEffects(game)
    case ChangeWeather(weatherName) => Weather.WeatherEffects(weatherName, game)
    case CallEventSimple(eventName) => Handlers.CallEventSimple(eventName, game)
    case NeutralLetter(title, body) => [ReceiveLetter(title, Text(body), NeutralEvent, None)]
    case UnknownCommand(command) => [LogError(UnknownCommandText(command))]
    case RejectMessage => [LogError(InvalidFormatText)]
  }

  /** What one message does to the game. */
  function Respond(message: string, game: Game, chance: Chance): seq<Effect> {
    Run(Commands.Interpret(message), game, chance)
  }

  /** The receiver: decode, dispatch, and call the handler. */
  method ProcessMessage(message: string, game: Game, chance: Chance) returns (effects: seq<Effect>)
    ensures effects == Respond(message, game, chance)
  {
    var decoded := Decoder.Decode(message);
    if decoded.InvalidMessageFormat? {
      return [LogError(InvalidFormatText)];
    }
    var action := Commands.Dispatch(decoded.command);
    match action {
      case HandleRaidGeneral(faction, points, strategy) =>
        effects := Raid.HandleRaidGeneral(game, chance, faction, points, strategy);
      case ItemDropPods(itemName) =>
        effects := DropPods.ItemDropPods(game, chance, itemName);
      case TriggerRandomExplosion =>
        effects := Handlers.ExplosionEffects(game, chance);
      case WandererJoinsEvent(customName) =>
        effects := Handlers.WandererEffects(game, chance, customName);
      case ForceEnemyFlee =>
        effects := Handlers.ForceEnemyFlee(game);
      case ResurrectAllCorpses =>
        effects := Resurrection.ResurrectAllCorpses(game);
      case ChangeWeather(weatherName) =>
        effects := Weather.WeatherEffects(weatherName, game);
      case CallEventSimple(eventName) =>
        effects := Handlers.CallEventSimple(eventName, game);
      case NeutralLetter(title, body) =>
        effects := [ReceiveLetter(title, Text(body), NeutralEvent, None)];
      case UnknownCommand(command) =>
        effects := [LogError(UnknownCommandText(command))];
      case RejectMessage =>
        effects := [LogError(InvalidFormatText)];
    }
  }

  /** A name outside the table only logs one error naming it; a message
      is never answered with the malformed-message error. */
  lemma UnknownOnlyLogs(message: string, game: Game, chance: Chance)
    ensures Decoder.Decode(message).command.name !in Commands.KnownCommands ==>
      Respond(message, game, chance) == [LogError(UnknownCommandText(Decoder.Decode(message).command.name))]
    ensures Commands.Interpret(message) != Commands.RejectMessage
  {
  }

  /** At most one raid per message, and only from `raid` or `siege`. */
  lemma OneRaidPerMessage(message: string, game: Game, chance: Chance)
    ensures Count(Respond(message, game, chance), RaidKind) <= 1
    ensures Count(Respond(message, game, chance), RaidKind) == 1 ==>
      Decoder.Decode(message).command.name in {"raid", "siege"}
  {
    Commands.ActionSources(Decoder.Decode(message).command);
  }

  /** The retreat sends flee orders and a message, never a raid. */
  lemma NoRaidInRetreat(game: Game)
    ensures forall i :: 0 <= i < |Handlers.RetreatEffects(game)| ==> KindOf(Handlers.RetreatEffects(game)[i]) != RaidKind
  {
    if game.currentMap.Some? {
      var orders := Handlers.FleeOrders(game.lords, game);
      Handlers.FleeOrdersExact(game.lords, game);
      assert forall i :: 0 <= i < |orders| ==> orders[i] in orders;
    }
  }

  /** Resurrection attempts and their letter are no raid. */
  lemma NoRaidInResurrection(game: Game)
    ensures forall i :: 0 <= i < |Resurrection.ResurrectionEffects(game)| ==>
      KindOf(Resurrection.ResurrectionEffects(game)[i]) != RaidKind
  {
  }

  /** `solarflare` with a known, succeeding incident runs it and nothing
      else; the other simple events likewise. */
  lemma SimpleEventRuns(message: string, game: Game, chance: Chance)
    requires Decoder.Decode(message).command.name in Commands.SimpleIncidents
    requires Commands.SimpleIncidents[Decoder.Decode(message).command.name] in game.incidentDefs
    requires Commands.SimpleIncidents[Decoder.Decode(message).command.name] !in game.failingIncidents
    ensures Respond(message, game, chance) ==
      [ExecuteIncident(Commands.SimpleIncidents[Decoder.Decode(message).command.name])]
  {
    Commands.SimpleIncidentTable(Decoder.Decode(message).command);
  }

  /** `message:Hi:Body text` delivers one neutral letter and nothing else. */
  lemma MessageDelivered(game: Game, chance: Chance)
    ensures Respond("message:Hi:Body text", game, chance) == [ReceiveLetter("Hi", Text("Body text"), NeutralEvent, None)]
  {
    Commands.MessageLetter();
  }

  /** An empty message is an unknown command with the empty name. */
  lemma EmptyMessageLogged(message: string, game: Game, chance: Chance)
    requires forall i :: 0 <= i < |message| ==> message[i] == ':' || message[i] == '"'
    ensures Respond(message, game, chance) == [LogError(UnknownCommandText(""))]
  {
    Commands.EmptyIsUnknown(message);
  }
}
