/** `ItemDropPods`: pick an item def (named, or random among haulable
    items), find a landing cell, fill one to six pods with stacks of it,
    and send a letter focused on the landing cell. */
module DropPods {
  import opened World
  import Location

  const CargoTitle := "Cargo Pods"
  const CargoText := "You have detected a cluster of cargo pods dropping nearby.\n\nPerhaps you'll find something useful in the wreckage."

  /** `stuffCategoriesOverlap`: some category of the thing is also a
      category of the stuff. */
  function StuffCategoriesOverlap(thingCategories: seq<string>, stuffCategories: seq<string>): (r: bool)
    ensures r <==> exists i :: 0 <= i < |thingCategories| && thingCategories[i] in stuffCategories
  {
    if thingCategories == [] then false
    else thingCategories[0] in stuffCategories || StuffCategoriesOverlap(thingCategories[1..], stuffCategories)
  }

  /** A shared category found from one side is found from the other. */
  lemma OverlapFlip(a: seq<string>, b: seq<string>)
    requires StuffCategoriesOverlap(a, b)
    ensures StuffCategoriesOverlap(b, a)
  {
    var i :| 0 <= i < |a| && a[i] in b;
    var j :| 0 <= j < |b| && b[j] == a[i];
    assert b[j] in a;
  }

  /** The overlap test does not depend on which list is searched. */
  lemma OverlapSymmetric(a: seq<string>, b: seq<string>)
    ensures StuffCategoriesOverlap(a, b) == StuffCategoriesOverlap(b, a)
  {
    if StuffCategoriesOverlap(a, b) {
      OverlapFlip(a, b);
    } else if StuffCategoriesOverlap(b, a) {
      OverlapFlip(b, a);
    }
  }

  /** The `Where` test of `GetRandomItem`. */
  predicate IsRandomItemCandidate(d: ThingDef) {
    !d.isBlueprint && !d.isFrame && d.isItem && d.everHaulable
  }

  /** The defs `GetRandomItem` chooses from, in database order. */
  function RandomItemCandidates(defs: seq<ThingDef>): (r: seq<ThingDef>)
    ensures |r| <= |defs|
    ensures forall d :: d in r <==> d in defs && IsRandomItemCandidate(d)
  {
    if defs == [] then []
    else
      var rest := RandomItemCandidates(defs[1..]);
      assert forall d :: d in defs <==> d == defs[0] || d in defs[1..];
      if IsRandomItemCandidate(defs[0]) then [defs[0]] + rest else rest
  }

  /** `GetRandomItem`: null when no def qualifies. */
  function GetRandomItem(defs: seq<ThingDef>, raw: nat): (r: Option<ThingDef>)
    ensures r.Some? <==> exists d :: d in defs && IsRandomItemCandidate(d)
    ensures r.Some? ==> r.value in defs && IsRandomItemCandidate(r.value)
  {
    var candidates := RandomItemCandidates(defs);
    if |candidates| > 0 then
      assert candidates[0] in candidates;
      RandomElement(candidates, raw)
    else None
  }

  /** `DefDatabase<ThingDef>.GetNamedSilentFail`: the def with that name,
      or null. */
  function GetNamedSilentFail(defs: seq<ThingDef>, name: string): (r: Option<ThingDef>)
    ensures r.Some? ==> r.value in defs && r.value.defName == name
    ensures r.None? <==> forall d :: d in defs ==> d.defName != name
  {
    if defs == [] then None
    else if defs[0].defName == name then Some(defs[0])
    else
      assert forall d :: d in defs <==> d == defs[0] || d in defs[1..];
      GetNamedSilentFail(defs[1..], name)
  }

  /** The `Where` test for the stuffs an item may be made from. */
  predicate IsStuffFor(item: ThingDef, stuff: ThingDef) {
    item.stuffCategories.Some? && stuff.stuffProps.Some?
    && StuffCategoriesOverlap(item.stuffCategories.value, stuff.stuffProps.value)
  }

  /** The stuffs an item may be made from, in database order. */
  function StuffsFor(item: ThingDef, defs: seq<ThingDef>): (r: seq<ThingDef>)
    ensures |r| <= |defs|
    ensures forall s :: s in r <==> s in defs && IsStuffFor(item, s)
  {
    if defs == [] then []
    else
      var rest := StuffsFor(item, defs[1..]);
      assert forall d :: d in defs <==> d == defs[0] || d in defs[1..];
      if IsStuffFor(item, defs[0]) then [defs[0]] + rest else rest
  }

  /** The stuff of pod `i`: a random stuff of the item when it is made from
      stuff (null if it has none), otherwise null throughout. */
  function ChosenStuff(item: ThingDef, defs: seq<ThingDef>, raw: nat): (r: Option<string>)
    ensures r.Some? ==> exists s :: s in defs && IsStuffFor(item, s) && s.defName == r.value
    ensures !item.madeFromStuff ==> r.None?
    ensures item.madeFromStuff && (exists s :: s in defs && IsStuffFor(item, s)) ==> r.Some?
  {
    if !item.madeFromStuff then None
    else
      match RandomElement(StuffsFor(item, defs), raw)
      case None => None
      case Some(s) => Some(s.defName)
  }

  /** The stack size rule: ten to seventy-five for a def whose stack limit
      is over ten, otherwise exactly its stack limit. */
  function StackCount(item: ThingDef, raw: nat): (n: int)
    ensures item.stackLimit > 10 ==> 10 <= n <= 75
    ensures item.stackLimit <= 10 ==> n == item.stackLimit
  {
    if item.stackLimit > 10 then RandRangeInclusive(10, 75, raw) else item.stackLimit
  }

  /** A stack never goes over the limit when the limit is at least 75; in
      between, the rule can exceed it (a limit of 25 and a draw of 75). */
  lemma StackWithinLimit(item: ThingDef, raw: nat)
    ensures item.stackLimit >= 75 ==> StackCount(item, raw) <= item.stackLimit
    ensures 10 < item.stackLimit < 75 && raw % 66 == 65 ==> StackCount(item, raw) == 75 > item.stackLimit
  {
  }

  /** The number of pods: one to six. */
  function PodCount(raw: nat): (n: int)
    ensures 1 <= n <= 6
  {
    RandRangeInclusive(1, 6, raw)
  }

  /** The stack loaded for pod `i`. */
  function PodStack(item: ThingDef, defs: seq<ThingDef>, chance: Chance, i: nat): ItemStack {
    ItemStack(item.defName, ChosenStuff(item, defs, chance.stuffPick(i)), StackCount(item, chance.stackCount(i)))
  }

  /** The stacks of all the pods, in loading order. */
  function PodStacks(item: ThingDef, defs: seq<ThingDef>, chance: Chance, n: nat): seq<ItemStack> {
    seq(n, i requires 0 <= i < n => PodStack(item, defs, chance, i))
  }

  /** The calls the handler makes. Without a current map the threat-point
      query throws; without a random item the first pod's
      `MadeFromStuff` throws, after the landing cell was searched. */
  function ItemDropPodsEffects(game: Game, chance: Chance, itemName: Option<string>): seq<Effect> {
    if game.currentMap.None? then [Fault]
    else
      var item := if itemName.None? then GetRandomItem(game.thingDefs, chance.itemPick)
                  else GetNamedSilentFail(game.thingDefs, itemName.value);
      if itemName.Some? && item.None? then
        [LogError("No item named " + itemName.value + ", drop pods cancelling...")]
      else
        match Location.Search(game.currentMap.value, chance.cells)
        case OutOfDraws => [Stalled]
        case Located(center, _) =>
          if item.None? then [Fault]
          else
            [DropPods(center, PodStacks(item.value, game.thingDefs, chance, PodCount(chance.podCount))),
             ReceiveLetter(CargoTitle, Text(CargoText), PositiveEvent, Some(center))]
  }

  /** The handler, with its `for` loop filling the list of things. */
  method ItemDropPods(game: Game, chance: Chance, itemName: Option<string>) returns (effects: seq<Effect>)
    ensures effects == ItemDropPodsEffects(game, chance, itemName)
  {
    if game.currentMap.None? {
      return [Fault];
    }
    var currentMap := game.currentMap.value;
    var actualItem: Option<ThingDef>;
    if itemName.None? {
      actualItem := GetRandomItem(game.thingDefs, chance.itemPick);
    } else {
      actualItem := GetNamedSilentFail(game.thingDefs, itemName.value);
      if actualItem.None? {
        return [LogError("No item named " + itemName.value + ", drop pods cancelling...")];
      }
    }
    var spawnCenter := Location.GetRandomMapLocation(currentMap, chance.cells);
    if spawnCenter.OutOfDraws? {
      return [Stalled];
    }
    if actualItem.None? {
      return [Fault];
    }
    var item := actualItem.value;
    var things: seq<ItemStack> := [];
    var podcount := PodCount(chance.podCount);
    var chosenStuff: Option<string> := None;
    for i := 0 to podcount
      invariant things == PodStacks(item, game.thingDefs, chance, i)
      invariant !item.madeFromStuff ==> chosenStuff.None?
    {
      if item.madeFromStuff {
        chosenStuff := ChosenStuff(item, game.thingDefs, chance.stuffPick(i));
      }
      var stackCount := if item.stackLimit > 10 then RandRangeInclusive(10, 75, chance.stackCount(i)) else item.stackLimit;
      things := things + [ItemStack(item.defName, chosenStuff, stackCount)];
    }
    effects := [DropPods(spawnCenter.cell, things),
                ReceiveLetter(CargoTitle, Text(CargoText), PositiveEvent, Some(spawnCenter.cell))];
  }

  /** A stack of `item`, made of one of its stuffs when it is made from
      stuff and has one, and of nothing otherwise, with a count by the stack size rule. */
  predicate StackFits(item: ThingDef, defs: seq<ThingDef>, stack: ItemStack) {
    && stack.def == item.defName
    && (stack.stuff.Some? ==> exists s :: s in defs && IsStuffFor(item, s) && s.defName == stack.stuff.value)
    && (!item.madeFromStuff ==> stack.stuff.None?)
    && (item.madeFromStuff && (exists s :: s in defs && IsStuffFor(item, s)) ==> stack.stuff.Some?)
    && (item.stackLimit > 10 ==> 10 <= stack.stackCount <= 75)
    && (item.stackLimit <= 10 ==> stack.stackCount == item.stackLimit)
  }

  /** A delivery: one to six pods, each a stack of the chosen def, made of
      one of its stuffs when it is made from stuff and of nothing otherwise,
      with a stack count by the stack size rule; it lands on a valid cell
      and the letter points at that cell. */
  lemma DeliveryShape(game: Game, chance: Chance, itemName: Option<string>)
    requires game.currentMap.Some?
    requires ItemDropPodsEffects(game, chance, itemName)[0].DropPods?
    ensures var effects := ItemDropPodsEffects(game, chance, itemName);
      var center := effects[0].center;
      var stacks := effects[0].stacks;
      && |effects| == 2
      && ValidLocation(game.currentMap.value, center)
      && effects[1] == ReceiveLetter(CargoTitle, Text(CargoText), PositiveEvent, Some(center))
      && 1 <= |stacks| <= 6
      && (exists item :: && item in game.thingDefs
                         && (itemName.Some? ==> item.defName == itemName.value)
                         && (itemName.None? ==> IsRandomItemCandidate(item))
                         && forall k :: 0 <= k < |stacks| ==> StackFits(item, game.thingDefs, stacks[k]))
  {
    var item := if itemName.None? then GetRandomItem(game.thingDefs, chance.itemPick)
                else GetNamedSilentFail(game.thingDefs, itemName.value);
    var stacks := PodStacks(item.value, game.thingDefs, chance, PodCount(chance.podCount));
    assert forall k :: 0 <= k < |stacks| ==> stacks[k] == PodStack(item.value, game.thingDefs, chance, k);
  }

  /** A name the database does not know cancels the delivery with one
      error and nothing else. */
  lemma UnknownNameCancels(game: Game, chance: Chance, name: string)
    requires game.currentMap.Some?
    requires forall d :: d in game.thingDefs ==> d.defName != name
    ensures ItemDropPodsEffects(game, chance, Some(name)) == [LogError("No item named " + name + ", drop pods cancelling...")]
  {
  }

  /** A delivery happens exactly when an item is found and a landing cell is
      drawn: a random delivery needs some candidate def, a named one a def
      of that name. */
  lemma DeliveryIff(game: Game, chance: Chance, itemName: Option<string>)
    requires game.currentMap.Some?
    ensures ItemDropPodsEffects(game, chance, itemName)[0].DropPods? <==>
      && Location.Search(game.currentMap.value, chance.cells).Located?
      && (itemName.None? ==> exists d :: d in game.thingDefs && IsRandomItemCandidate(d))
      && (itemName.Some? ==> exists d :: d in game.thingDefs && d.defName == itemName.value)
  {
  }
}
