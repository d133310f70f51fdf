/** `HandleRaidGeneral`: fill in a raid request, then look for an enemy
    faction the raid strategy can be used with, giving up after 100 rejected
    factions (or after one when the caller pinned a faction); and the unused
    `CanUseStrategy` test. */
module Raid {
  import opened World

  /** The attempt budget of the faction search. */
  const MaxAttempts: nat := 100

  const ImmediateAttack: string := "ImmediateAttack"

  const EdgeWalkIn: ArrivalMode := ArrivalMode("EdgeWalkIn")

  /** The fields of RimWorld's `IncidentParms` the handler sets. */
  class IncidentParms {
    var faction: Option<FactionId>
    var raidStrategy: string
    var points: real
    var raidArrivalMode: Option<ArrivalMode>

    /** What the storyteller's `GenerateParms` hands over: the fields above
        are all overwritten by the handler, and no arrival mode is set. */
    constructor (points: real)
      ensures faction.None? && raidArrivalMode.None? && this.points == points
    {
      faction := None;
      raidStrategy := "";
      this.points := points;
      raidArrivalMode := None;
    }

    function Request(): RaidRequest
      reads this
    {
      RaidRequest(faction, raidStrategy, points, raidArrivalMode)
    }
  }

  /** `(raid_strategy == null) ? RaidStrategyDefOf.ImmediateAttack : raid_strategy`. */
  function StrategyOrDefault(raidStrategy: Option<string>): string {
    if raidStrategy.None? then ImmediateAttack else raidStrategy.value
  }

  /** `(raid_points < 0) ? DefaultThreatPointsNow(map) : raid_points`. */
  function PointsOrDefault(raidPoints: real, defaultPoints: real): real {
    if raidPoints < 0.0 then defaultPoints else raidPoints
  }

  /** The index of the first `RandomEnemyFaction` call inside the loop: the
      initial assignment already made call 0 when no faction was pinned. */
  function FirstLoopDraw(raidFaction: Option<FactionId>): nat {
    if raidFaction.None? then 1 else 0
  }

  /** How many rejections end the search. */
  function Budget(pinned: bool): nat {
    if pinned then 1 else MaxAttempts
  }

  datatype SearchResult = Accepted(faction: Option<FactionId>, failures: nat) | GaveUp(failures: nat)

  /** The `while (!factionCanRaid)` loop as written: every iteration draws a
      fresh random enemy faction (`draw(next)`), pinned or not; a rejection
      counts, and the search stops at 100 rejections, or at the first one
      when a faction was pinned. */
  function FactionSearch(canUseWith: (string, Option<FactionId>, real) -> bool, strategy: string, points: real,
                         draw: nat -> Option<FactionId>, pinned: bool, next: nat, failures: nat): (r: SearchResult)
    requires failures < MaxAttempts
    ensures r.Accepted? ==> canUseWith(strategy, r.faction, points) && r.failures < MaxAttempts
    ensures r.GaveUp? ==> failures < r.failures <= MaxAttempts
    decreases MaxAttempts - failures
  {
    var candidate := draw(next);
    if canUseWith(strategy, candidate, points) then Accepted(candidate, failures)
    else if failures + 1 == MaxAttempts || pinned then GaveUp(failures + 1)
    else FactionSearch(canUseWith, strategy, points, draw, pinned, next + 1, failures + 1)
  }

  /** What the search finds: an accepted faction is the draw after all the
      rejected ones, and the strategy can be used with it; the search gives
      up after 100 rejections in all, or after one more for a pinned faction;
      every draw before the end was rejected. */
  lemma {:induction false} SearchFacts(canUseWith: (string, Option<FactionId>, real) -> bool, strategy: string,
                                       points: real, draw: nat -> Option<FactionId>, pinned: bool, next: nat,
                                       failures: nat)
    requires failures < MaxAttempts
    ensures var r := FactionSearch(canUseWith, strategy, points, draw, pinned, next, failures);
      && (r.Accepted? ==>
            && failures <= r.failures < MaxAttempts
            && (pinned ==> r.failures == failures)
            && r.faction == draw(next + r.failures - failures)
            && canUseWith(strategy, r.faction, points))
      && (r.GaveUp? ==> r.failures == (if pinned then failures + 1 else MaxAttempts))
      && forall k :: next <= k < next + r.failures - failures ==> !canUseWith(strategy, draw(k), points)
    decreases MaxAttempts - failures
  {
    if !canUseWith(strategy, draw(next), points) && failures + 1 != MaxAttempts && !pinned {
      SearchFacts(canUseWith, strategy, points, draw, pinned, next + 1, failures + 1);
    }
  }

  /** One iteration of the search. */
  lemma SearchStep(canUseWith: (string, Option<FactionId>, real) -> bool, strategy: string, points: real,
                   draw: nat -> Option<FactionId>, pinned: bool, next: nat, failures: nat)
    requires failures < MaxAttempts
    ensures FactionSearch(canUseWith, strategy, points, draw, pinned, next, failures) ==
      if canUseWith(strategy, draw(next), points) then Accepted(draw(next), failures)
      else if failures + 1 == MaxAttempts || pinned then GaveUp(failures + 1)
      else FactionSearch(canUseWith, strategy, points, draw, pinned, next + 1, failures + 1)
  {
  }

  /** The search gives up exactly when every candidate of its budget is
      rejected: the next one for a pinned faction, the next 100 otherwise. */
  lemma GaveUpIffAllRejected(canUseWith: (string, Option<FactionId>, real) -> bool, strategy: string, points: real,
                             draw: nat -> Option<FactionId>, pinned: bool, next: nat)
    ensures FactionSearch(canUseWith, strategy, points, draw, pinned, next, 0).GaveUp?
      <==> forall k :: next <= k < next + Budget(pinned) ==> !canUseWith(strategy, draw(k), points)
  {
    var r := FactionSearch(canUseWith, strategy, points, draw, pinned, next, 0);
    SearchFacts(canUseWith, strategy, points, draw, pinned, next, 0);
    if r.Accepted? {
      assert next <= next + r.failures < next + Budget(pinned);
    }
  }

  /** The context of the handler's `catch` log line. */
  const RaidErrorContext := "Error handling raid command: "

  /** The calls the handler makes: one raid, walking in from the map edge,
      with the accepted faction; or one log line and nothing else. Without a
      current map the threat-point query throws and the handler's `catch`
      logs the error. */
  function RaidEffects(game: Game, chance: Chance, raidFaction: Option<FactionId>, raidPoints: real,
                       raidStrategy: Option<string>): seq<Effect>
  {
    if game.currentMap.None? then [LogException(RaidErrorContext)]
    else
      var strategy := StrategyOrDefault(raidStrategy);
      var points := PointsOrDefault(raidPoints, game.defaultThreatPoints);
      match FactionSearch(game.canUseWith, strategy, points, chance.enemyFaction, raidFaction.Some?,
                          FirstLoopDraw(raidFaction), 0)
      case Accepted(faction, _) => [ExecuteRaid(RaidRequest(faction, strategy, points, Some(EdgeWalkIn)))]
      case GaveUp(_) => [NoFactionCanRaid(points)]
  }

  /** The handler, with its request object and its retry loop. */
  method HandleRaidGeneral(game: Game, chance: Chance, raidFaction: Option<FactionId>, raidPoints: real,
                           raidStrategy: Option<string>) returns (effects: seq<Effect>)
    ensures effects == RaidEffects(game, chance, raidFaction, raidPoints, raidStrategy)
  {
    if game.currentMap.None? {
      return [LogException(RaidErrorContext)];
    }
    var raidParms := new IncidentParms(game.defaultThreatPoints);
    var next: nat := 0;
    if raidFaction.None? {
      raidParms.faction := chance.enemyFaction(0);
      next := 1;
    } else {
      raidParms.faction := raidFaction;
    }
    var strategy := StrategyOrDefault(raidStrategy);
    var points := PointsOrDefault(raidPoints, game.defaultThreatPoints);
    raidParms.raidStrategy := strategy;
    raidParms.points := points;
    var factionCanRaid := false;
    var attempts: nat := 0;
    ghost var outcome := FactionSearch(game.canUseWith, strategy, points, chance.enemyFaction,
                                       raidFaction.Some?, next, 0);
    while !factionCanRaid
      invariant attempts < MaxAttempts
      invariant raidParms.raidStrategy == strategy && raidParms.points == points
      invariant raidParms.raidArrivalMode.None?
      invariant !factionCanRaid ==>
        outcome == FactionSearch(game.canUseWith, strategy, points, chance.enemyFaction,
                                 raidFaction.Some?, next, attempts)
      invariant factionCanRaid ==> outcome == Accepted(raidParms.faction, attempts)
      decreases MaxAttempts - attempts, if factionCanRaid then 0 else 1
    {
      SearchStep(game.canUseWith, strategy, points, chance.enemyFaction, raidFaction.Some?, next, attempts);
      raidParms.faction := chance.enemyFaction(next);
      next := next + 1;
      if game.canUseWith(raidParms.raidStrategy, raidParms.faction, raidParms.points) {
        factionCanRaid := true;
      } else {
        attempts := attempts + 1;
      }
      if attempts == MaxAttempts || (!factionCanRaid && raidFaction.Some?) {
        effects := [NoFactionCanRaid(raidParms.points)];
        return;
      }
    }
    raidParms.raidArrivalMode := Some(EdgeWalkIn);
    effects := [ExecuteRaid(raidParms.Request())];
  }

  /** The raid is executed at most once, only on a game with a current map
      and only with an accepted faction; on giving up there is one log line
      and no raid, and without a map the caught error is logged. Strategy and
      points take their defaults when null or negative. */
  lemma RaidOutcome(game: Game, chance: Chance, raidFaction: Option<FactionId>, raidPoints: real,
                    raidStrategy: Option<string>)
    ensures var effects := RaidEffects(game, chance, raidFaction, raidPoints, raidStrategy);
      var strategy := if raidStrategy.None? then ImmediateAttack else raidStrategy.value;
      var points := if raidPoints < 0.0 then game.defaultThreatPoints else raidPoints;
      && Count(effects, RaidKind) <= 1
      && |effects| == 1
      && (effects[0].ExecuteRaid? ==>
            && effects[0].request.strategy == strategy
            && effects[0].request.points == points
            && effects[0].request.arrivalMode == Some(EdgeWalkIn)
            && game.canUseWith(strategy, effects[0].request.faction, points))
      && (effects[0].ExecuteRaid? ==> game.currentMap.Some?)
      && (game.currentMap.None? ==> effects == [LogException(RaidErrorContext)])
      && (game.currentMap.Some? && !effects[0].ExecuteRaid? ==> effects == [NoFactionCanRaid(points)])
  {
    SearchFacts(game.canUseWith, StrategyOrDefault(raidStrategy), PointsOrDefault(raidPoints, game.defaultThreatPoints),
                chance.enemyFaction, raidFaction.Some?, FirstLoopDraw(raidFaction), 0);
  }

  /** A pinned faction gets one attempt: if the (redrawn) candidate is
      rejected, the handler gives up without a raid. */
  lemma PinnedSingleAttempt(game: Game, chance: Chance, pinned: FactionId, raidPoints: real, raidStrategy: Option<string>)
    requires game.currentMap.Some?
    requires !game.canUseWith(StrategyOrDefault(raidStrategy), chance.enemyFaction(0),
                              PointsOrDefault(raidPoints, game.defaultThreatPoints))
    ensures FactionSearch(game.canUseWith, StrategyOrDefault(raidStrategy),
                          PointsOrDefault(raidPoints, game.defaultThreatPoints),
                          chance.enemyFaction, true, 0, 0) == GaveUp(1)
    ensures RaidEffects(game, chance, Some(pinned), raidPoints, raidStrategy)
            == [NoFactionCanRaid(PointsOrDefault(raidPoints, game.defaultThreatPoints))]
  {
  }

  /** When no faction can be used, the unpinned search gives up after
      exactly 100 rejections and no raid happens. */
  lemma NoUsableFaction(game: Game, chance: Chance, raidPoints: real, raidStrategy: Option<string>)
    requires game.currentMap.Some?
    requires forall f :: !game.canUseWith(StrategyOrDefault(raidStrategy), f,
                                          PointsOrDefault(raidPoints, game.defaultThreatPoints))
    ensures FactionSearch(game.canUseWith, StrategyOrDefault(raidStrategy),
                          PointsOrDefault(raidPoints, game.defaultThreatPoints),
                          chance.enemyFaction, false, 1, 0) == GaveUp(MaxAttempts)
    ensures RaidEffects(game, chance, None, raidPoints, raidStrategy)
            == [NoFactionCanRaid(PointsOrDefault(raidPoints, game.defaultThreatPoints))]
  {
    SearchFacts(game.canUseWith, StrategyOrDefault(raidStrategy), PointsOrDefault(raidPoints, game.defaultThreatPoints),
                chance.enemyFaction, false, 1, 0);
  }

  /** When every faction can be used, the first candidate drawn inside the
      loop (the second draw of the command) raids. */
  lemma EveryFactionUsable(game: Game, chance: Chance, raidPoints: real, raidStrategy: Option<string>)
    requires game.currentMap.Some?
    requires forall f :: game.canUseWith(StrategyOrDefault(raidStrategy), f,
                                         PointsOrDefault(raidPoints, game.defaultThreatPoints))
    ensures RaidEffects(game, chance, None, raidPoints, raidStrategy)
            == [ExecuteRaid(RaidRequest(chance.enemyFaction(1), StrategyOrDefault(raidStrategy),
                                        PointsOrDefault(raidPoints, game.defaultThreatPoints), Some(EdgeWalkIn)))]
  {
  }

  /** Without a current map nothing is raided: the handler only logs the
      caught error, whatever the factions and the command's arguments. */
  lemma NoMapNoRaid(game: Game, chance: Chance, raidFaction: Option<FactionId>, raidPoints: real,
                    raidStrategy: Option<string>)
    requires game.currentMap.None?
    ensures Count(RaidEffects(game, chance, raidFaction, raidPoints, raidStrategy), RaidKind) == 0
    ensures RaidEffects(game, chance, raidFaction, raidPoints, raidStrategy) == [LogException(RaidErrorContext)]
  {
  }

  // The search as evidently intended: a pinned faction is the one tried.

  /** The faction search with the pinned faction kept as the candidate. */
  function FactionSearchIntended(canUseWith: (string, Option<FactionId>, real) -> bool, strategy: string, points: real,
                                 draw: nat -> Option<FactionId>, raidFaction: Option<FactionId>, next: nat,
                                 failures: nat): (r: SearchResult)
    requires failures < MaxAttempts
    decreases MaxAttempts - failures
  {
    var candidate := if raidFaction.Some? then raidFaction else draw(next);
    if canUseWith(strategy, candidate, points) then Accepted(candidate, failures)
    else if failures + 1 == MaxAttempts || raidFaction.Some? then GaveUp(failures + 1)
    else FactionSearchIntended(canUseWith, strategy, points, draw, raidFaction, next + 1, failures + 1)
  }

  /** With the correction, a pinned faction raids exactly when the strategy
      can be used with it, and then it is the raiding faction. */
  lemma IntendedUsesPinned(canUseWith: (string, Option<FactionId>, real) -> bool, strategy: string, points: real,
                           draw: nat -> Option<FactionId>, pinned: FactionId, next: nat)
    ensures var r := FactionSearchIntended(canUseWith, strategy, points, draw, Some(pinned), next, 0);
      && (r.Accepted? <==> canUseWith(strategy, Some(pinned), points))
      && (r.Accepted? ==> r.faction == Some(pinned))
      && (r.GaveUp? ==> r.failures == 1)
  {
  }

  /** Without a pinned faction (the only way the dispatcher calls the
      handler) the correction changes nothing. */
  lemma {:induction false} IntendedAgreesUnpinned(canUseWith: (string, Option<FactionId>, real) -> bool, strategy: string,
                                                  points: real, draw: nat -> Option<FactionId>, next: nat, failures: nat)
    requires failures < MaxAttempts
    ensures FactionSearchIntended(canUseWith, strategy, points, draw, None, next, failures)
            == FactionSearch(canUseWith, strategy, points, draw, false, next, failures)
    decreases MaxAttempts - failures
  {
    if !canUseWith(strategy, draw(next), points) && failures + 1 != MaxAttempts {
      IntendedAgreesUnpinned(canUseWith, strategy, points, draw, next + 1, failures + 1);
    }
  }

  /** As written, a pinned faction is overwritten by a random draw: pinning
      faction 1 raids with faction 2 when that is what the draw returns. */
  lemma PinnedFactionOverwritten()
    ensures var canUse := (s: string, f: Option<FactionId>, p: real) => true;
      var draw := (n: nat) => Some(2);
      FactionSearch(canUse, ImmediateAttack, 1.0, draw, true, 0, 0) == Accepted(Some(2), 0)
      && FactionSearchIntended(canUse, ImmediateAttack, 1.0, draw, Some(1), 0, 0) == Accepted(Some(1), 0)
  {
  }

  /** The same at the handler: a raid with faction 1 pinned, default points
      and the default strategy comes from faction 2 when every faction is
      usable and the draw returns faction 2. */
  lemma PinnedRaidOverwritten(game: Game, chance: Chance)
    requires game.currentMap.Some?
    requires forall s, f, p :: game.canUseWith(s, f, p)
    requires chance.enemyFaction(0) == Some(2)
    ensures RaidEffects(game, chance, Some(1), -1.0, None) ==
      [ExecuteRaid(RaidRequest(Some(2), ImmediateAttack, game.defaultThreatPoints, Some(EdgeWalkIn)))]
  {
  }

  // CanUseStrategy: defined in the source, called by nothing.

  /** A raid strategy def: its name and its `arriveModes` list, if any. */
  datatype StrategyDef = StrategyDef(defName: string, arriveModes: Option<seq<ArrivalMode>>)

  /** `arriveModes.Any(mode => mode.Worker.CanUseWith(parms))`. */
  function AnyArrivalUsable(modes: seq<ArrivalMode>, arrivalCanUseWith: ArrivalMode -> bool): (r: bool)
    ensures r <==> exists i :: 0 <= i < |modes| && arrivalCanUseWith(modes[i])
  {
    if modes == [] then false
    else arrivalCanUseWith(modes[0]) || AnyArrivalUsable(modes[1..], arrivalCanUseWith)
  }

  /** `CanUseStrategy(def, parms, Combat)`. */
  function CanUseStrategy(def: Option<StrategyDef>, parms: RaidRequest, game: Game,
                          arrivalCanUseWith: ArrivalMode -> bool): (r: bool)
    ensures r ==> def.Some? && game.canUseWith(def.value.defName, parms.faction, parms.points)
    ensures r && parms.arrivalMode.None? ==>
      def.value.arriveModes.Some? && exists m :: m in def.value.arriveModes.value && arrivalCanUseWith(m)
  {
    if def.None? || !game.canUseWith(def.value.defName, parms.faction, parms.points) then false
    else if parms.arrivalMode.Some? then true
    else def.value.arriveModes.Some? && AnyArrivalUsable(def.value.arriveModes.value, arrivalCanUseWith)
  }

  /** With an arrival mode already fixed, CanUseStrategy is the strategy
      worker's own test; without one, it also needs a usable arrival mode of
      the def. */
  lemma CanUseStrategyCases(def: StrategyDef, parms: RaidRequest, game: Game, arrivalCanUseWith: ArrivalMode -> bool)
    ensures parms.arrivalMode.Some? ==>
      (CanUseStrategy(Some(def), parms, game, arrivalCanUseWith) <==> game.canUseWith(def.defName, parms.faction, parms.points))
    ensures parms.arrivalMode.None? && def.arriveModes.Some?
            && game.canUseWith(def.defName, parms.faction, parms.points) ==>
      (CanUseStrategy(Some(def), parms, game, arrivalCanUseWith) <==>
         exists i :: 0 <= i < |def.arriveModes.value| && arrivalCanUseWith(def.arriveModes.value[i]))
    ensures CanUseStrategy(None, parms, game, arrivalCanUseWith) == false
  {
  }
}
