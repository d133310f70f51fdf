# neuro-rimworld command protocol, modelled in Dafny

The mod `neuro-rimworld` lets an outside program drive a RimWorld game: it
receives short text messages such as `raid`, `weather:Rain` or
`message:Title:Body`, decodes each into a command name and parameters,
selects a handler with a `switch`, and runs the handler against the current
map (raids, drop pods, explosions, a wanderer joining, enemies fleeing,
corpses resurrected, weather changes, simple incidents and letters).

This project models `ExternalEventReceiver.ProcessMessage` and its handlers
in `Source/Class1.cs`:

- `Text` — the string operations the decoder uses: quote removal,
  `TrimEnd` (with the whitespace set of `char.IsWhiteSpace`), `Split` on one
  character, and lower-casing (ASCII).
- `Decoder` — the message decoder and its round trip with an encoder.
- `Commands` — the `switch`: a datatype of handler calls and the table from
  command names to calls, with the parameter defaults.
- `World` — the game as the handlers see it (map, things, lords, def
  databases, faction relations), the random draws as an oracle (`Chance`),
  and the handlers' calls into the game recorded as a sequence of `Effect`s.
- `Location` — the random cell search, as a loop over a finite stream of
  draws.
- `Weather`, `Resurrection`, `Raid`, `DropPods`, `Handlers` — the handlers.
  The raid handler keeps its mutable `IncidentParms` request object (a class)
  and its retry loop; the drop-pod, resurrection and retreat handlers keep
  their loops. Each looping handler is a method proved equal to a
  specification function, and the properties are lemmas about that function.
- `Receiver` — `ProcessMessage`: decode, dispatch, run.

A null dereference in a handler (no current map, no item) is the effect
`Fault`: the source lets the exception escape. When the modelled draws run
out while the location search would still be retrying, the handler's result
is `Stalled`.

`Split` always returns at least one segment, so the `parts.Length == 0`
branch (`Source/Class1.cs:56-59`) cannot run; an empty message is dispatched
as the unknown command `""` (`Decoder.Decode`, `Commands.EmptyIsUnknown`).
Only `HandleRaidGeneral` catches exceptions (its `catch` logs the error, the
effect `LogException`); the other handlers' exceptions escape (`Fault`).

The helper `World.Count` counts the effects of one kind in a sequence of
effects; the lemmas use it to say how many raids, letters or log lines a
command produces.

## Model

Each looping handler's row states that the method returns the effects given
by its specification function: `Raid.RaidEffects`, `DropPods.ItemDropPodsEffects`,
`Resurrection.ResurrectionEffects` (built from `Resurrection.Attempts` and
`Resurrection.Notification`), `Handlers.RetreatEffects` and, for the
receiver, `Receiver.Respond`. Those functions have no row of their own. The
lemma rows that follow each method state their properties.

| member | source | states |
|---|---|---|
| Text.ToLower | Source/Class1.cs:62 | same length; each character is its ASCII lower-case form |
| Text.ToLowerNoUpper | Source/Class1.cs:62 | the lowered name has no upper-case ASCII letter |
| Text.ToLowerIdempotent | Source/Class1.cs:62 | lowering twice is lowering once |
| Text.ToLowerFixed | Source/Class1.cs:62 | a name without upper-case letters is unchanged |
| Text.ToLowerKeepsPunctuation | Source/Class1.cs:62 | a non-letter occurs in the lowered name exactly when it occurs in the name |
| Text.RemoveAll | Source/Class1.cs:55 | `Replace("\"", "")`: no quote remains, every other character keeps its number of occurrences, a quote-free text is unchanged |
| Text.RemoveAllAppend | Source/Class1.cs:55 | removing quotes distributes over concatenation |
| Text.TrimEnd | Source/Class1.cs:55 | the result is a prefix not ending in whitespace, and everything cut off is whitespace |
| Text.TrimEndUnique | Source/Class1.cs:55 | any prefix with those properties is the trimmed text |
| Text.TrimEndFixed | Source/Class1.cs:55 | trimming a text that does not end in whitespace changes nothing |
| Text.Split | Source/Class1.cs:55-56 | `Split(':')` returns at least one segment |
| Text.JoinSplit | Source/Class1.cs:55 | joining the segments with the separator gives back the text |
| Text.SplitPartsSeparatorFree | Source/Class1.cs:55 | no segment contains the separator |
| Text.SplitCount | Source/Class1.cs:55 | there is one segment more than there are separators |
| Text.SplitCons | Source/Class1.cs:55 | a separator-free head followed by the separator becomes the first segment |
| Text.SplitNoSep | Source/Class1.cs:55 | a text without separator is one segment |
| Text.SplitJoin | Source/Class1.cs:55 | splitting a join of separator-free parts gives back the parts |
| Decoder.Clean | Source/Class1.cs:55 | the cleaned message has no quote and does not end in whitespace |
| Decoder.Decode | Source/Class1.cs:55-63 | decoding never takes the invalid-format branch |
| Decoder.SegmentsRoundTrip | Source/Class1.cs:55-59 | at least one segment; joined with `:` they give the cleaned message; one more segment than `:`; no segment holds `:` or `"` |
| Decoder.DecodeShape | Source/Class1.cs:62-63 | the name is the lowered first segment and the parameters are the other segments, in order and case, as many as there are `:` |
| Decoder.DecodeEmpty | Source/Class1.cs:55-63 | a message of only `:` and `"` (the empty one included) has the name `""` |
| Decoder.OnlySeparators | Source/Class1.cs:55 | cleaning a message of `:` and `"` leaves only `:` |
| Decoder.DecodeEncode | Source/Class1.cs:55-63 | decoding an encoded command with a lower-case name and clean parameters gives the command back |
| Decoder.EncodeDecode | Source/Class1.cs:55-63 | encoding a decoded message whose name has no upper case gives the cleaned message |
| Commands.FirstOrNull | Source/Class1.cs:74 | a parameter is passed exactly when there is one, and it is the first |
| Commands.TextOrEmpty | Source/Class1.cs:108-109 | the i-th parameter when there is one, `""` otherwise |
| Commands.Dispatch | Source/Class1.cs:65-116 | a name selects the unknown-command case exactly when the switch has no case for it, and that case carries the name |
| Commands.Interpret | Source/Class1.cs:52-116 | a message is never rejected as malformed |
| Commands.SimpleIncidentTable | Source/Class1.cs:91-105 | the five simple-event names call their incident (`SolarFlare`, `Eclipse`, `Aurora`, `ToxicFallout`, `ShortCircuit`), and only they call an incident |
| Commands.RaidCommands | Source/Class1.cs:67-72 | `raid` raids with the default strategy, `siege` with `Siege`, both unpinned with points to default; only they raid |
| Commands.OptionalParameters | Source/Class1.cs:73-111 | `itempods`, `wanderer`, `weather` get the first parameter or null; `message` gets the first two or `""` |
| Commands.ParametersIgnored | Source/Class1.cs:65-116 | commands that read no parameter, and unknown names, do the same whatever the parameters |
| Commands.ActionSources | Source/Class1.cs:65-116 | each handler is selected by exactly its command names |
| Commands.NameCaseInsensitive | Source/Class1.cs:62 | first segments equal up to case, with equal parameters, select the same call |
| Commands.InterpretEncoded | Source/Class1.cs:52-116 | an encoded command is dispatched as itself |
| Commands.WeatherRainMessage | Source/Class1.cs:88-90 | `weather:Rain` asks for the weather Rain |
| Commands.MessageLetter | Source/Class1.cs:106-112 | `message:Hi:Body text` is a letter titled `Hi` with body `Body text` |
| Commands.EmptyIsUnknown | Source/Class1.cs:55-116 | the empty message is the unknown command `""` |
| World.RandRange | Source/Class1.cs:394-395 | `Rand.Range`: in [min, max) for a non-empty range, min otherwise |
| World.RandRangeInclusive | Source/Class1.cs:340 | `Rand.RangeInclusive`: in [min, max] |
| World.RandomElement | Source/Class1.cs:351 | null exactly for an empty list, otherwise an element of it |
| Location.DrawnCell | Source/Class1.cs:391-397 | on a map of positive size a drawn cell lies in [0,width)×[0,height) |
| Location.Search | Source/Class1.cs:389-406 | a found cell is the first valid draw, in bounds and standable, after only invalid draws; no cell exactly when every draw is invalid |
| Location.SearchFirstValid | Source/Class1.cs:398-405 | the first valid draw is what the search returns |
| Location.GetRandomMapLocation | Source/Class1.cs:389-406 | the retry loop returns what the search specifies, and a returned cell is valid |
| Location.DrawsInBounds | Source/Class1.cs:391-398 | on a map of positive size validity is standability |
| Location.EveryCellDrawable | Source/Class1.cs:394-397 | every in-bounds cell can be drawn |
| Location.NoStandableNeverFound | Source/Class1.cs:398-405 | without a standable cell in bounds no cell is ever returned |
| Location.SingleStandableFound | Source/Class1.cs:398-405 | the only standable cell is returned once drawn |
| Weather.ChangeWeather | Source/Class1.cs:139-170 | one or two calls ending in a transition, which goes to the named weather exactly when the name is known |
| Weather.WeatherEffects | Source/Class1.cs:139-170 | with a map, the weather choice; without one, no transition happens |
| Weather.WeatherChoice | Source/Class1.cs:139-158 | one transition, to the named weather exactly when it is known and random otherwise; one warning before it exactly for an unknown name |
| Weather.KnownWeatherNotRandomised | Source/Class1.cs:146-156 | a known name is never randomised |
| Weather.WeatherWithoutMap | Source/Class1.cs:139-170 | without a map no transition happens: the warning, if any, then the fault |
| Resurrection.CorpsesOf | Source/Class1.cs:175 | every corpse among the map's things is kept, as often as it occurs, and nothing else; none exactly when no thing is a corpse |
| Resurrection.AnyEnemiesResurrected | Source/Class1.cs:185-189 | true exactly when some corpse's pawn has a faction hostile to the player |
| Resurrection.ResurrectAllCorpses | Source/Class1.cs:173-210 | the loop produces the specified attempts and notification |
| Resurrection.AttemptsCount | Source/Class1.cs:177-180 | one attempt per corpse |
| Resurrection.NotificationShape | Source/Class1.cs:182-207 | one letter reporting the count, ThreatBig exactly for a hostile corpse (PositiveEvent otherwise), followed by normal speed and a pause exactly for ThreatBig and by nothing otherwise |
| Resurrection.NotificationSeverity | Source/Class1.cs:173-210 | one attempt per corpse first, in order; no letter without corpses; otherwise one letter right after the attempts, its severity as above, then normal speed and a pause exactly for ThreatBig and nothing otherwise |
| Resurrection.NoCorpsesNoLetter | Source/Class1.cs:182 | a map without corpses gets no letter |
| Raid.IncidentParms.constructor | Source/Class1.cs:428 | a fresh request has no faction and no arrival mode |
| Raid.FactionSearch | Source/Class1.cs:442-460 | an accepted faction passes `CanUseWith` within the budget; giving up takes at least one more rejection and at most 100 |
| Raid.SearchFacts | Source/Class1.cs:442-460 | an accepted faction is the draw after the rejected ones and passes `CanUseWith`; giving up takes 100 rejections, or one when pinned; every earlier draw was rejected |
| Raid.GaveUpIffAllRejected | Source/Class1.cs:442-460 | the search gives up exactly when every candidate of its budget is rejected |
| Raid.HandleRaidGeneral | Source/Class1.cs:424-470 | the handler's loop, with its request object, produces the specified raid or log line; without a map it logs the caught error |
| Raid.RaidOutcome | Source/Class1.cs:428-469 | at most one raid, only with a current map, walking in from the edge, with an accepted faction, the strategy defaulting to ImmediateAttack and negative points to the default; otherwise one log line: no faction, or the caught error without a map |
| Raid.PinnedSingleAttempt | Source/Class1.cs:454-459 | with a pinned faction one rejection ends the search without a raid |
| Raid.NoUsableFaction | Source/Class1.cs:452-459 | when no faction is usable, the search gives up after exactly 100 rejections and nothing is executed |
| Raid.EveryFactionUsable | Source/Class1.cs:444-464 | when every faction is usable the first draw inside the loop raids |
| Raid.NoMapNoRaid | Source/Class1.cs:428-469 | without a current map nothing is raided and only the caught error is logged |
| Raid.IntendedUsesPinned | Source/Class1.cs:454 | with the correction, a pinned faction raids exactly when usable, as itself |
| Raid.IntendedAgreesUnpinned | Source/Class1.cs:432-459 | without a pinned faction the corrected search is the search as written |
| Raid.PinnedFactionOverwritten | Source/Class1.cs:432-444 | as written, pinning faction 1 can raid with faction 2 |
| Raid.PinnedRaidOverwritten | Source/Class1.cs:428-469 | as written, the handler asked for a raid by faction 1 with every faction usable raids with faction 2 when the draw returns 2 |
| Raid.AnyArrivalUsable | Source/Class1.cs:420 | true exactly when some arrival mode is usable |
| Raid.CanUseStrategy | Source/Class1.cs:408-421 | true only for a def whose worker accepts, and, without a fixed arrival mode, one with a usable arrival mode |
| Raid.CanUseStrategyCases | Source/Class1.cs:408-421 | both directions: a fixed arrival mode reduces the test to the worker's; otherwise it is the arrival-mode test; a null def fails |
| DropPods.StuffCategoriesOverlap | Source/Class1.cs:368-371 | true exactly when a category of the thing is a category of the stuff |
| DropPods.OverlapFlip | Source/Class1.cs:368-371 | an overlap found from one side is found from the other |
| DropPods.OverlapSymmetric | Source/Class1.cs:368-371 | the overlap test is symmetric |
| DropPods.RandomItemCandidates | Source/Class1.cs:375-377 | exactly the defs that are not blueprints or frames, are items, and are haulable |
| DropPods.GetRandomItem | Source/Class1.cs:373-387 | null exactly when no def qualifies; otherwise a qualifying def |
| DropPods.GetNamedSilentFail | Source/Class1.cs:327 | a def of that name, or null exactly when none has it |
| DropPods.StuffsFor | Source/Class1.cs:348-350 | exactly the defs with stuff properties whose categories overlap the item's |
| DropPods.ChosenStuff | Source/Class1.cs:342-353 | a stuff is one the item can be made of; one is chosen exactly when the item is made from stuff and some stuff fits it; none for an item not made from stuff |
| DropPods.StackCount | Source/Class1.cs:354 | 10 to 75 for a stack limit over 10, otherwise the stack limit |
| DropPods.StackWithinLimit | Source/Class1.cs:354 | the count stays within a limit of at least 75, and can exceed a limit between 11 and 74 |
| DropPods.PodCount | Source/Class1.cs:340 | one to six pods |
| DropPods.ItemDropPods | Source/Class1.cs:310-366 | the handler's loop produces the specified pods and letter |
| DropPods.DeliveryShape | Source/Class1.cs:321-364 | one to six stacks of the chosen def, each of a suitable stuff whenever the def is made from stuff and has one, with a rule-conforming count, on a valid cell, with the letter focused there |
| DropPods.UnknownNameCancels | Source/Class1.cs:327-332 | an unknown item name logs one error and drops nothing |
| DropPods.DeliveryIff | Source/Class1.cs:321-357 | pods drop exactly when an item is found and a landing cell is drawn |
| Handlers.CallEventSimple | Source/Class1.cs:119-136 | nothing for an unknown incident; otherwise one execution, with one warning exactly when it fails |
| Handlers.ExplosionEffects | Source/Class1.cs:264-289 | nothing without a map; any explosion is on a valid cell of the map |
| Handlers.ExplosionPlacement | Source/Class1.cs:264-289 | at most one explosion, exactly when there is a map and a valid cell is drawn, on that cell, with a message focused on it |
| Handlers.WandererName | Source/Class1.cs:242-248 | a custom name becomes the nick of a three-part name; other names are kept |
| Handlers.WandererNameIdempotent | Source/Class1.cs:242-248 | renaming twice with the same name is renaming once |
| Handlers.WandererEffects | Source/Class1.cs:226-262 | nothing without a map or a generated pawn; any spawned colonist is on a valid cell and carries the renamed name |
| Handlers.WandererArrival | Source/Class1.cs:226-262 | nothing without a map or a generated pawn; exactly one colonist when there is a map, a generated pawn and a drawn cell, renamed, on a valid cell, announced by a letter that names it and points at it |
| Handlers.ForceEnemyFlee | Source/Class1.cs:212-225 | the loop over the lords produces the specified flee orders and message |
| Handlers.FleeOrdersExact | Source/Class1.cs:214-222 | exactly the hostile, auto-fleeing lords with a panic-flee toil are sent to flee, in list order, and nothing else |
| Handlers.RetreatMessage | Source/Class1.cs:212-225 | the retreat ends with its one message; every other effect is a flee order |
| Receiver.ProcessMessage | Source/Class1.cs:52-117 | the receiver does what decoding, dispatching and running the handler specify |
| Receiver.Run | Source/Class1.cs:65-116 | running a handler call: only the raid handler raids, at most once |
| Receiver.UnknownOnlyLogs | Source/Class1.cs:113-115 | an unknown name only logs one error naming it; no message is rejected as malformed |
| Receiver.OneRaidPerMessage | Source/Class1.cs:65-72 | a message raids at most once, and only as `raid` or `siege` |
| Receiver.SimpleEventRuns | Source/Class1.cs:91-105 | a simple event whose incident exists and succeeds executes it and nothing else |
| Receiver.MessageDelivered | Source/Class1.cs:106-112 | `message:Hi:Body text` delivers one neutral letter |
| Receiver.EmptyMessageLogged | Source/Class1.cs:55-116 | an empty message logs the unknown command `""` |

## Left out

- The TCP listener and socket reads (`Source/Class1.cs:20-50`), and the
  ASCII decoding of the bytes: the model starts at the received string.
- `MyMapComponent` (`Source/Class1.cs:472-489`), which only calls the
  receiver on every tick.
- Text.ToLower: culture-sensitive lower-casing is modelled as ASCII
  lower-casing.
- Raid.HandleRaidGeneral: of the exceptions the `catch` block
  (`Source/Class1.cs:466-469`) handles, only the one from a missing current
  map is modelled; a storyteller without a suitable component (line 428) is
  not, and the logged exception message is the game's (`LogException` keeps
  only the context text).
- Raid.CanUseStrategy: the `groupKind` argument (`Source/Class1.cs:408,
  410`) is fixed to Combat, the only group kind the file uses (line 446): the
  strategy worker's oracle `canUseWith` has no group-kind argument.
- Resurrection.NotificationSeverity: the hostility test at
  `Source/Class1.cs:185-189` reads `corpse.InnerPawn` after the resurrection
  attempts have run on the same corpses; the model reads the inner pawns as
  they were before the attempts, so it assumes an attempt leaves a corpse's
  inner pawn as it was. If the game empties a corpse on resurrection, the
  source sends ThreatBig only for hostile corpses that stayed dead.
- Commands.RaidCommands: `DefDatabase<RaidStrategyDef>.GetNamed("Siege")` is
  taken to find the def; a missing def (null, which would fall back to
  ImmediateAttack) is not modelled.
- Raid points and the explosion radius are floating point in the source;
  points are reals here and only compared with 0, the radius is not kept.
- The strategy worker's `CanUseWith`, the incident workers, weather
  transitions, resurrection, spawning, explosions, drop pods, letters and
  messages are calls into the game: they are oracles of `Game` or recorded
  `Effect`s, and what they do to the game is not modelled.
- Weather.ChangeWeather: which weather `RandomizeWeather` picks is not
  modelled (`RandomWeather`), nor a null pick on an empty def list.
- Location.Search: the source retries without bound; the model retries over
  a finite stream of draws and proves partial correctness only (`Stalled`
  where the source would keep retrying).
- DropPods.ChosenStuff: `ThingMaker.MakeThing` with a null stuff for a def
  made from stuff is the game's business; the stack records no stuff.
- Handlers.CallEventSimple: whether an incident succeeds is an oracle
  (`failingIncidents`), including the case of no current map.
- Letter texts with interpolated values (`A total of … corpses`, `… has joined
  your colony!`) keep the interpolated value (`CorpsesResurrected`,
  `ColonistJoined`) rather than the formatted text.
- `GenerateWandererPawn` (`Source/Class1.cs:291-308`) is an oracle: the
  name of the pawn the generator produces, or none.

## Findings

| source | as written | input that shows it | evidently intended | confidence | as-written member | corrected member |
|---|---|---|---|---|---|---|
| Source/Class1.cs:444 | every loop iteration overwrites `raidParms.faction` with a random enemy faction, so a faction passed by the caller is never tried | a caller pins faction 1, the random draw returns faction 2 and every faction is usable: the raid comes from faction 2 | a pinned faction gets a single attempt with that faction (comment at line 454) | not executed; the dispatcher never pins a faction, so no command reaches it | Raid.PinnedRaidOverwritten | Raid.IntendedUsesPinned |
