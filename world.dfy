/** The simulation as the command handlers see it: the facts they read from
    the game (the current map, its things and lords, the def databases, the
    faction relations), the random draws they make, and the calls they make
    into the game, recorded as a sequence of effects. */
module World {

  datatype Option<+T> = None | Some(value: T)

  type FactionId = nat

  /** A map cell; the y coordinate of `IntVec3` is always 0 here. */
  datatype Cell = Cell(x: int, z: int)

  /** The current map: its size and the cells `Standable` accepts. */
  datatype MapGrid = MapGrid(width: int, height: int, standable: set<Cell>)

  predicate InBounds(m: MapGrid, c: Cell) {
    0 <= c.x < m.width && 0 <= c.z < m.height
  }

  predicate Standable(m: MapGrid, c: Cell) {
    c in m.standable
  }

  /** A cell a pawn or an explosion may be placed on. */
  predicate ValidLocation(m: MapGrid, c: Cell) {
    InBounds(m, c) && Standable(m, c)
  }

  /** `NameTriple` (first, nick, last) or any other kind of pawn name. */
  datatype PawnName = NameTriple(first: string, nick: string, last: string) | OtherName(full: string)

  datatype Pawn = Pawn(id: nat, faction: Option<FactionId>)

  /** An entry of `listerThings.AllThings`: a corpse with its inner pawn (which
      may be missing), or anything else. */
  datatype Thing = Corpse(innerPawn: Option<Pawn>) | OtherThing

  /** A lord (an AI group) on the map: its faction and whether its graph has a
      panic-flee toil. */
  datatype Lord = Lord(faction: Option<FactionId>, hasPanicFleeToil: bool)

  /** The parts of a `ThingDef` the drop-pod handler reads. `stuffCategories`
      and `stuffProps` are null when absent. */
  datatype ThingDef = ThingDef(
    defName: string,
    isBlueprint: bool,
    isFrame: bool,
    isItem: bool,
    everHaulable: bool,
    madeFromStuff: bool,
    stuffCategories: Option<seq<string>>,
    stuffProps: Option<seq<string>>,
    stackLimit: int)

  /** What the game reports or decides when a handler asks it. */
  datatype Game = Game(
    currentMap: Option<MapGrid>,
    things: seq<Thing>,
    lords: seq<Lord>,
    hostileToPlayer: set<FactionId>,
    autoFlee: set<FactionId>,
    weatherDefs: set<string>,
    incidentDefs: set<string>,
    failingIncidents: set<string>,
    thingDefs: seq<ThingDef>,
    defaultThreatPoints: real,
    // RaidStrategyWorker.CanUseWith(parms, Combat) for a strategy, a faction
    // and the raid points (the other request fields are fixed per command)
    canUseWith: (string, Option<FactionId>, real) -> bool,
    // what PawnGenerator.GeneratePawn produces for the wanderer, if anything
    generatedWanderer: Option<PawnName>)

  /** The random draws, as oracles. `enemyFaction(n)` answers the n-th call of
      `RandomEnemyFaction` in one raid command; `cells` are the raw draws of
      the location search, an x and a z per attempt; the remaining fields are
      the raw draws of the drop-pod handler (per pod where indexed). */
  datatype Chance = Chance(
    enemyFaction: nat -> Option<FactionId>,
    cells: seq<(nat, nat)>,
    itemPick: nat,
    podCount: nat,
    stuffPick: nat -> nat,
    stackCount: nat -> nat)

  /** `Rand.Range(min, max)` for integers, given the raw draw: `min` when the
      range is empty, otherwise a value in [min, max). */
  function RandRange(min: int, max: int, raw: nat): (r: int)
    ensures max <= min ==> r == min
    ensures min < max ==> min <= r < max
  {
    if max <= min then min else min + raw % (max - min)
  }

  /** `Rand.RangeInclusive(min, max)`. */
  function RandRangeInclusive(min: int, max: int, raw: nat): (r: int)
    ensures min <= max ==> min <= r <= max
  {
    RandRange(min, max + 1, raw)
  }

  /** `list.RandomElement()`: null for an empty list. */
  function RandomElement<T>(xs: seq<T>, raw: nat): (r: Option<T>)
    ensures r.Some? <==> |xs| > 0
    ensures r.Some? ==> r.value in xs
  {
    if |xs| == 0 then None else Some(xs[RandRange(0, |xs|, raw)])
  }

  datatype LetterDef = NeutralEvent | PositiveEvent | ThreatBig

  datatype MessageType = PositiveMessage | NegativeMessage

  /** A letter's text; the two interpolated texts keep the values they
      interpolate. */
  datatype LetterText =
    | Text(s: string)
    | CorpsesResurrected(count: nat)
    | ColonistJoined(name: PawnName)

  datatype WeatherTarget = NamedWeather(defName: string) | RandomWeather

  datatype ArrivalMode = ArrivalMode(defName: string)

  /** The request handed to the raid incident worker. */
  datatype RaidRequest = RaidRequest(
    faction: Option<FactionId>,
    strategy: string,
    points: real,
    arrivalMode: Option<ArrivalMode>)

  /** One item stack loaded into a drop pod. */
  datatype ItemStack = ItemStack(def: string, stuff: Option<string>, stackCount: int)

  /** One observable call into the game or the log. */
  datatype Effect =
    | LogWarning(text: string)
    | LogError(text: string)
    // Log.Message($"No factions can raid with {points} points")
    | NoFactionCanRaid(points: real)
    // Log.Error(context + ex.Message) for a caught exception, whose message
    // is the game's
    | LogException(context: string)
    | ReceiveLetter(title: string, body: LetterText, def: LetterDef, focus: Option<Cell>)
    | ShowMessage(text: string, kind: MessageType, focus: Option<Cell>)
    | TransitionWeather(target: WeatherTarget)
    | TryResurrect(pawn: Option<Pawn>)
    | ForceNormalSpeed
    | PauseGame
    | ExecuteIncident(defName: string)
    | ExecuteRaid(request: RaidRequest)
    | Explode(center: Cell)
    | SpawnColonist(name: PawnName, at: Cell)
    | SendLordToFlee(lord: nat)
    | DropPods(center: Cell, stacks: seq<ItemStack>)
    // an exception escaped the handler (a null dereference in the source)
    | Fault
    // the location search was still retrying when the modelled draws ran out
    | Stalled

  /** The kind of an effect, for counting. */
  datatype EffectKind = LogKind | LetterKind | MessageKind | WeatherKind | ResurrectKind
    | SpeedKind | IncidentKind | RaidKind | ExplosionKind | SpawnKind | FleeKind | PodKind
    | FaultKind | StalledKind

  function KindOf(e: Effect): EffectKind {
    match e
    case LogWarning(_) => LogKind
    case LogError(_) => LogKind
    case NoFactionCanRaid(_) => LogKind
    case LogException(_) => LogKind
    case ReceiveLetter(_, _, _, _) => LetterKind
    case ShowMessage(_, _, _) => MessageKind
    case TransitionWeather(_) => WeatherKind
    case TryResurrect(_) => ResurrectKind
    case ForceNormalSpeed => SpeedKind
    case PauseGame => SpeedKind
    case ExecuteIncident(_) => IncidentKind
    case ExecuteRaid(_) => RaidKind
    case Explode(_) => ExplosionKind
    case SpawnColonist(_, _) => SpawnKind
    case SendLordToFlee(_) => FleeKind
    case DropPods(_, _) => PodKind
    case Fault => FaultKind
    case Stalled => StalledKind
  }

  /** How many effects of kind `k` a sequence holds. */
  function Count(effects: seq<Effect>, k: EffectKind): (n: nat)
    ensures n <= |effects|
    ensures n == 0 <==> forall i :: 0 <= i < |effects| ==> KindOf(effects[i]) != k
  {
    if effects == [] then 0
    else (if KindOf(effects[0]) == k then 1 else 0) + Count(effects[1..], k)
  }

  lemma {:induction false} CountAppend(a: seq<Effect>, b: seq<Effect>, k: EffectKind)
    ensures Count(a + b, k) == Count(a, k) + Count(b, k)
  {
    if a == [] {
      assert a + b == b;
    } else {
      assert (a + b)[1..] == a[1..] + b;
      CountAppend(a[1..], b, k);
    }
  }
}
