/** The remaining command handlers: a named incident, a random explosion, a
    wanderer joining the colony, and every hostile group fleeing. */
module Handlers {
  import opened World
  import Location

  /** `CallEventSimple`: nothing for an incident the def database does not
      know; otherwise the incident is executed, with a warning when the
      incident worker reports failure. */
  function CallEventSimple(eventName: string, game: Game): (effects: seq<Effect>)
    ensures eventName !in game.incidentDefs ==> effects == []
    ensures eventName in game.incidentDefs ==>
      && |effects| >= 1
      && effects[0] == ExecuteIncident(eventName)
      && Count(effects, IncidentKind) == 1
      && (Count(effects, LogKind) == 1 <==> eventName in game.failingIncidents)
      && (Count(effects, LogKind) == 0 <==> eventName !in game.failingIncidents)
      && (eventName in game.failingIncidents ==> effects[1] == LogWarning("Failed to trigger event: " + eventName))
      && |effects| == Count(effects, IncidentKind) + Count(effects, LogKind)
  {
    if eventName !in game.incidentDefs then []
    else if eventName in game.failingIncidents then
      var effects := [ExecuteIncident(eventName), LogWarning("Failed to trigger event: " + eventName)];
      assert effects[1..] == [LogWarning("Failed to trigger event: " + eventName)];
      effects
    else [ExecuteIncident(eventName)]
  }

  const ExplosionText := "An explosion occured."

  /** `TriggerRandomExplosion`: nothing without a map; otherwise a bomb
      explosion on a random valid cell and a message pointing at it. */
  function ExplosionEffects(game: Game, chance: Chance): (effects: seq<Effect>)
    ensures game.currentMap.None? ==> effects == []
    ensures forall i :: 0 <= i < |effects| && effects[i].Explode? ==>
      game.currentMap.Some? && ValidLocation(game.currentMap.value, effects[i].center)
  {
    if game.currentMap.None? then []
    else
      match Location.Search(game.currentMap.value, chance.cells)
      case OutOfDraws => [Stalled]
      case Located(center, _) => [Explode(center), ShowMessage(ExplosionText, NegativeMessage, Some(center))]
  }

  /** An explosion happens only on a valid cell of the current map, at most
      once, and the message is focused on it. */
  lemma ExplosionPlacement(game: Game, chance: Chance)
    ensures var effects := ExplosionEffects(game, chance);
      && Count(effects, ExplosionKind) <= 1
      && (Count(effects, ExplosionKind) == 1 <==>
            game.currentMap.Some? && Location.Search(game.currentMap.value, chance.cells).Located?)
      && (Count(effects, ExplosionKind) == 1 ==>
            && ValidLocation(game.currentMap.value, effects[0].center)
            && effects[1] == ShowMessage(ExplosionText, NegativeMessage, Some(effects[0].center)))
  {
    var effects := ExplosionEffects(game, chance);
    if game.currentMap.Some? && Location.Search(game.currentMap.value, chance.cells).Located? {
      assert effects[1..] == [ShowMessage(ExplosionText, NegativeMessage, Some(effects[0].center))];
    }
  }

  /** The wanderer's name: a `NameTriple` takes the custom name as its nick,
      any other name is kept. */
  function WandererName(generated: PawnName, customName: Option<string>): (name: PawnName)
    ensures customName.None? || generated.OtherName? ==> name == generated
    ensures customName.Some? && generated.NameTriple? ==>
      name.NameTriple? && name.first == generated.first && name.nick == customName.value && name.last == generated.last
  {
    if customName.Some? && generated.NameTriple? then NameTriple(generated.first, customName.value, generated.last)
    else generated
  }

  /** Renaming twice with the same custom name is renaming once. */
  lemma WandererNameIdempotent(generated: PawnName, customName: Option<string>)
    ensures WandererName(WandererName(generated, customName), customName) == WandererName(generated, customName)
  {
  }

  /** `WandererJoinsEvent`: nothing without a map or a generated pawn;
      otherwise the (renamed) colonist spawns on a random valid cell and a
      letter announces it. */
  function WandererEffects(game: Game, chance: Chance, customName: Option<string>): (effects: seq<Effect>)
    ensures game.currentMap.None? || game.generatedWanderer.None? ==> effects == []
    ensures forall i :: 0 <= i < |effects| && effects[i].SpawnColonist? ==>
      && game.currentMap.Some? && game.generatedWanderer.Some?
      && ValidLocation(game.currentMap.value, effects[i].at)
      && effects[i].name == WandererName(game.generatedWanderer.value, customName)
  {
    if game.currentMap.None? || game.generatedWanderer.None? then []
    else
      var name := WandererName(game.generatedWanderer.value, customName);
      match Location.Search(game.currentMap.value, chance.cells)
      case OutOfDraws => [Stalled]
      case Located(at, _) =>
        [SpawnColonist(name, at), ReceiveLetter("Wanderer Joins", ColonistJoined(name), PositiveEvent, Some(at))]
  }

  /** One colonist at most, and exactly one when there is a map, a
      generated pawn and a drawn cell, on a valid cell; the letter names the spawned
      colonist and points at where it spawned; a custom name becomes the
      nick of a three-part name. */
  lemma WandererArrival(game: Game, chance: Chance, customName: Option<string>)
    ensures var effects := WandererEffects(game, chance, customName);
      && Count(effects, SpawnKind) <= 1
      && (Count(effects, SpawnKind) == 1 <==>
            && game.currentMap.Some? && game.generatedWanderer.Some?
            && Location.Search(game.currentMap.value, chance.cells).Located?)
      && (Count(effects, SpawnKind) == 1 ==>
            && game.currentMap.Some? && game.generatedWanderer.Some?
            && effects[0].SpawnColonist?
            && ValidLocation(game.currentMap.value, effects[0].at)
            && effects[0].name == WandererName(game.generatedWanderer.value, customName)
            && effects[1] == ReceiveLetter("Wanderer Joins", ColonistJoined(effects[0].name), PositiveEvent,
                                           Some(effects[0].at)))
      && (game.currentMap.None? || game.generatedWanderer.None? ==> effects == [])
  {
    var effects := WandererEffects(game, chance, customName);
    if |effects| == 2 {
      assert effects[1..] == [effects[1]];
    }
  }

  const RetreatText := "All foes on the map are retreating."

  /** The test of the `foreach` in `ForceEnemyFlee`: a lord of a faction
      hostile to the player, whose def flees on its own, and whose graph has
      a panic-flee toil. */
  predicate Flees(lord: Lord, game: Game) {
    lord.faction.Some? && lord.faction.value in game.hostileToPlayer && lord.faction.value in game.autoFlee
    && lord.hasPanicFleeToil
  }

  /** The flee orders for the lords, in order, by their index. */
  function FleeOrders(lords: seq<Lord>, game: Game): seq<Effect>
    decreases |lords|
  {
    if lords == [] then []
    else
      var i := |lords| - 1;
      FleeOrders(lords[..i], game) + (if Flees(lords[i], game) then [SendLordToFlee(i)] else [])
  }

  /** The calls `ForceEnemyFlee` makes; without a map the lord manager
      dereference throws. */
  function RetreatEffects(game: Game): seq<Effect> {
    if game.currentMap.None? then [Fault]
    else FleeOrders(game.lords, game) + [ShowMessage(RetreatText, PositiveMessage, None)]
  }

  /** The handler's loop over the lords. */
  method ForceEnemyFlee(game: Game) returns (effects: seq<Effect>)
    ensures effects == RetreatEffects(game)
  {
    if game.currentMap.None? {
      return [Fault];
    }
    var lords := game.lords;
    effects := [];
    for i := 0 to |lords|
      invariant effects == FleeOrders(lords[..i], game)
    {
      assert lords[..i + 1][..i] == lords[..i];
      var lord := lords[i];
      if lord.faction.Some? && lord.faction.value in game.hostileToPlayer && lord.faction.value in game.autoFlee {
        if lord.hasPanicFleeToil {
          effects := effects + [SendLordToFlee(i)];
        }
      }
    }
    assert lords[..|lords|] == lords;
    effects := effects + [ShowMessage(RetreatText, PositiveMessage, None)];
  }

  /** Exactly the fleeing lords are sent to flee, each once, in the order of
      the lord list, and nothing else happens. */
  lemma {:induction false} FleeOrdersExact(lords: seq<Lord>, game: Game)
    ensures var orders := FleeOrders(lords, game);
      && (forall e :: e in orders ==> e.SendLordToFlee?)
      && (forall i: nat :: SendLordToFlee(i) in orders <==> i < |lords| && Flees(lords[i], game))
      && (forall j, k :: 0 <= j < k < |orders| ==> orders[j].lord < orders[k].lord)
    decreases |lords|
  {
    if lords != [] {
      var n := |lords| - 1;
      var prefix := lords[..n];
      FleeOrdersExact(prefix, game);
      assert forall i :: 0 <= i < n ==> prefix[i] == lords[i];
      var orders := FleeOrders(lords, game);
      var head := FleeOrders(prefix, game);
      assert forall e :: e in head ==> e.lord < n by {
        forall e | e in head
          ensures e.lord < n
        {
          assert SendLordToFlee(e.lord) in head;
        }
      }
      assert forall k :: 0 <= k < |head| ==> head[k] in head;
    }
  }

  /** The retreat always ends with its message, and sends one flee order
      per fleeing lord. */
  lemma RetreatMessage(game: Game)
    requires game.currentMap.Some?
    ensures var effects := RetreatEffects(game);
      && effects[|effects| - 1] == ShowMessage(RetreatText, PositiveMessage, None)
      && Count(effects, MessageKind) == 1
      && Count(effects, FleeKind) == |effects| - 1
  {
    var orders := FleeOrders(game.lords, game);
    FleeOrdersExact(game.lords, game);
    FleeCount(orders);
    CountAppend(orders, [ShowMessage(RetreatText, PositiveMessage, None)], MessageKind);
    CountAppend(orders, [ShowMessage(RetreatText, PositiveMessage, None)], FleeKind);
  }

  /** A sequence of flee orders counts as flee orders only. */
  lemma {:induction false} FleeCount(orders: seq<Effect>)
    requires forall e :: e in orders ==> e.SendLordToFlee?
    ensures Count(orders, FleeKind) == |orders|
    ensures Count(orders, MessageKind) == 0
  {
    if orders != [] {
      assert orders[0] in orders;
      assert forall e :: e in orders[1..] ==> e in orders;
      FleeCount(orders[1..]);
    }
  }
}
