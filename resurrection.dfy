/** `ResurrectAllCorpses`: try to resurrect every corpse on the current map,
    then send one letter whose severity depends on whether any of them
    belonged to a faction hostile to the player. */
module Resurrection {
  import opened World

  /** The inner pawns of the map's corpses, in the order of
      `listerThings.AllThings` (`Where(thing => thing is Corpse)`). */
  function CorpsesOf(things: seq<Thing>): (corpses: seq<Option<Pawn>>)
    ensures |corpses| <= |things|
    ensures forall p :: p in corpses ==> Corpse(p) in things
    ensures corpses == [] <==> forall t :: t in things ==> !t.Corpse?
    ensures forall p :: multiset(corpses)[p] == multiset(things)[Corpse(p)]
  {
    if things == [] then []
    else
      var rest := CorpsesOf(things[1..]);
      assert things == [things[0]] + things[1..];
      assert forall t :: t in things <==> t == things[0] || t in things[1..];
      var corpses := if things[0].Corpse? then [things[0].innerPawn] + rest else rest;
      assert forall p :: multiset(corpses)[p] == multiset(things)[Corpse(p)] by {
        forall p
          ensures multiset(corpses)[p] == multiset(things)[Corpse(p)]
        {
          calc {
            multiset(things)[Corpse(p)];
            (multiset{things[0]} + multiset(things[1..]))[Corpse(p)];
            (if things[0] == Corpse(p) then 1 else 0) + multiset(rest)[p];
          }
        }
      }
      corpses
  }

  /** A corpse whose pawn has a faction hostile to the player. */
  predicate HostileCorpse(pawn: Option<Pawn>, hostileToPlayer: set<FactionId>) {
    pawn.Some? && pawn.value.faction.Some? && pawn.value.faction.value in hostileToPlayer
  }

  /** The LINQ `Any` over the corpses. */
  function AnyEnemiesResurrected(corpses: seq<Option<Pawn>>, hostileToPlayer: set<FactionId>): (r: bool)
    ensures r <==> exists i :: 0 <= i < |corpses| && HostileCorpse(corpses[i], hostileToPlayer)
  {
    if corpses == [] then false
    else HostileCorpse(corpses[0], hostileToPlayer) || AnyEnemiesResurrected(corpses[1..], hostileToPlayer)
  }

  /** One resurrection attempt per corpse, in order. */
  function Attempts(corpses: seq<Option<Pawn>>): seq<Effect> {
    seq(|corpses|, i requires 0 <= i < |corpses| => TryResurrect(corpses[i]))
  }

  /** The notification after the attempts. */
  function Notification(corpses: seq<Option<Pawn>>, hostileToPlayer: set<FactionId>): seq<Effect> {
    if |corpses| == 0 then []
    else if AnyEnemiesResurrected(corpses, hostileToPlayer) then
      [ReceiveLetter("Resurrection Event", CorpsesResurrected(|corpses|), ThreatBig, None),
       ForceNormalSpeed, PauseGame]
    else
      [ReceiveLetter("Resurrection Event", CorpsesResurrected(|corpses|), PositiveEvent, None)]
  }

  /** What the handler does on a game; without a current map the first
      dereference throws. */
  function ResurrectionEffects(game: Game): seq<Effect> {
    if game.currentMap.None? then [Fault]
    else
      var corpses := CorpsesOf(game.things);
      Attempts(corpses) + Notification(corpses, game.hostileToPlayer)
  }

  /** The handler: a `foreach` over the corpses, then the letter. */
  method ResurrectAllCorpses(game: Game) returns (effects: seq<Effect>)
    ensures effects == ResurrectionEffects(game)
  {
    if game.currentMap.None? {
      return [Fault];
    }
    var corpses := CorpsesOf(game.things);
    effects := [];
    for i := 0 to |corpses|
      invariant effects == Attempts(corpses[..i])
    {
      effects := effects + [TryResurrect(corpses[i])];
    }
    assert corpses[..|corpses|] == corpses;
    if |corpses| > 0 {
      var anyEnemiesResurrected := AnyEnemiesResurrected(corpses, game.hostileToPlayer);
      if anyEnemiesResurrected {
        effects := effects + [ReceiveLetter("Resurrection Event", CorpsesResurrected(|corpses|), ThreatBig, None)];
        effects := effects + [ForceNormalSpeed];
        effects := effects + [PauseGame];
      } else {
        effects := effects + [ReceiveLetter("Resurrection Event", CorpsesResurrected(|corpses|), PositiveEvent, None)];
      }
    }
  }

  /** Every corpse is tried exactly once, and nothing else is resurrected. */
  lemma {:induction false} AttemptsCount(corpses: seq<Option<Pawn>>)
    ensures Count(Attempts(corpses), ResurrectKind) == |corpses|
    ensures |Attempts(corpses)| == |corpses|
  {
    if corpses != [] {
      AttemptsCount(corpses[1..]);
      assert Attempts(corpses) == [TryResurrect(corpses[0])] + Attempts(corpses[1..]);
    }
  }

  /** The notification alone: one letter first, reporting the count, then
      normal speed and a pause exactly for a ThreatBig letter. */
  lemma NotificationShape(corpses: seq<Option<Pawn>>, hostileToPlayer: set<FactionId>)
    requires |corpses| > 0
    ensures var note := Notification(corpses, hostileToPlayer);
      && Count(note, ResurrectKind) == 0
      && Count(note, LetterKind) == 1
      && note[0].ReceiveLetter?
      && note[0].body == CorpsesResurrected(|corpses|)
      && (note[0].def == ThreatBig <==> AnyEnemiesResurrected(corpses, hostileToPlayer))
      && (note[0].def != ThreatBig ==> note[0].def == PositiveEvent)
      && (Count(note, SpeedKind) > 0 <==> note[0].def == ThreatBig)
      && note[1..] == (if note[0].def == ThreatBig then [ForceNormalSpeed, PauseGame] else [])
  {
    var note := Notification(corpses, hostileToPlayer);
    if AnyEnemiesResurrected(corpses, hostileToPlayer) {
      assert note[1..] == [ForceNormalSpeed, PauseGame];
      assert note[1..][1..] == [PauseGame];
    }
  }

  /** The attempts, in order, followed by the notification, for any list of
      corpses. */
  lemma AttemptsThenNotification(corpses: seq<Option<Pawn>>, hostileToPlayer: set<FactionId>)
    ensures var effects := Attempts(corpses) + Notification(corpses, hostileToPlayer);
      var n := |corpses|;
      && Count(effects, ResurrectKind) == n
      && effects[..n] == Attempts(corpses)
      && (n == 0 ==> effects == [])
      && (n > 0 ==>
            && Count(effects, LetterKind) == 1
            && effects[n].ReceiveLetter?
            && effects[n].body == CorpsesResurrected(n)
            && (effects[n].def == ThreatBig <==>
                  exists i :: 0 <= i < n && HostileCorpse(corpses[i], hostileToPlayer))
            && (effects[n].def != ThreatBig ==> effects[n].def == PositiveEvent)
            && (Count(effects, SpeedKind) > 0 <==> effects[n].def == ThreatBig)
            && effects[n + 1..] == (if effects[n].def == ThreatBig then [ForceNormalSpeed, PauseGame] else []))
  {
    var attempts := Attempts(corpses);
    var note := Notification(corpses, hostileToPlayer);
    AttemptsCount(corpses);
    CountAppend(attempts, note, ResurrectKind);
    if |corpses| > 0 {
      NotificationShape(corpses, hostileToPlayer);
      CountAfterAttempts(corpses, note, LetterKind);
      CountAfterAttempts(corpses, note, SpeedKind);
      AppendSlices(attempts, note);
    }
  }

  /** The attempts are resurrections only: any other kind of effect after
      them comes from the notification. */
  lemma CountAfterAttempts(corpses: seq<Option<Pawn>>, note: seq<Effect>, k: EffectKind)
    requires k != ResurrectKind
    ensures Count(Attempts(corpses) + note, k) == Count(note, k)
  {
    var attempts := Attempts(corpses);
    CountAppend(attempts, note, k);
    assert forall i :: 0 <= i < |attempts| ==> KindOf(attempts[i]) == ResurrectKind;
  }

  /** The three pieces of `a + b` around the first element of `b`. */
  lemma AppendSlices(a: seq<Effect>, b: seq<Effect>)
    requires |b| > 0
    ensures (a + b)[..|a|] == a
    ensures (a + b)[|a|] == b[0]
    ensures (a + b)[|a| + 1..] == b[1..]
  {
    assert (a + b)[|a| + 1..] == b[1..];
  }

  /** The notification: no letter without corpses; otherwise one letter that
      reports the number of corpses, ThreatBig (with the game slowed to
      normal speed and paused) exactly when some corpse's pawn is hostile to
      the player, PositiveEvent otherwise. */
  lemma NotificationSeverity(game: Game)
    requires game.currentMap.Some?
    ensures var corpses := CorpsesOf(game.things);
      var effects := ResurrectionEffects(game);
      var n := |corpses|;
      && Count(effects, ResurrectKind) == n
      && effects[..n] == Attempts(corpses)
      && (n == 0 ==> effects == [])
      && (n > 0 ==>
            && Count(effects, LetterKind) == 1
            && effects[n].ReceiveLetter?
            && effects[n].body == CorpsesResurrected(n)
            && (effects[n].def == ThreatBig <==>
                  exists i :: 0 <= i < n && HostileCorpse(corpses[i], game.hostileToPlayer))
            && (effects[n].def != ThreatBig ==> effects[n].def == PositiveEvent)
            && (Count(effects, SpeedKind) > 0 <==> effects[n].def == ThreatBig)
            && effects[n + 1..] == (if effects[n].def == ThreatBig then [ForceNormalSpeed, PauseGame] else []))
  {
    AttemptsThenNotification(CorpsesOf(game.things), game.hostileToPlayer);
  }

  /** A map without corpses sends no letter, whatever else lies on it. */
  lemma NoCorpsesNoLetter(game: Game)
    requires game.currentMap.Some?
    requires forall t :: t in game.things ==> t == OtherThing
    ensures ResurrectionEffects(game) == []
  {
  }
}
