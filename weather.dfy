/** `ChangeWeather`: a named weather if the def database knows it, a random
    one otherwise, with a warning for a name it does not know. */
module Weather {
  import opened World

  /** The calls ChangeWeather makes, for a weather name or null. */
  function ChangeWeather(weatherName: Option<string>, weatherDefs: set<string>): (effects: seq<Effect>)
    ensures 1 <= |effects| <= 2
    ensures effects[|effects| - 1].TransitionWeather?
    ensures effects[|effects| - 1].target.NamedWeather? <==> weatherName.Some? && weatherName.value in weatherDefs
    ensures effects[|effects| - 1].target.NamedWeather? ==> effects[|effects| - 1].target.defName == weatherName.value
  {
    match weatherName
    case None => [TransitionWeather(RandomWeather)]
    case Some(name) =>
      if name !in weatherDefs then
        [LogWarning("Weather name '" + name + "' is invalid. Randomizing weather."),
         TransitionWeather(RandomWeather)]
      else [TransitionWeather(NamedWeather(name))]
  }

  /** Exactly one weather transition, to the named weather exactly when it is
      known and to a random one otherwise; one warning, before it, exactly
      when a name was given and is unknown; nothing else. */
  lemma WeatherChoice(weatherName: Option<string>, weatherDefs: set<string>)
    ensures var effects := ChangeWeather(weatherName, weatherDefs);
      var known := weatherName.Some? && weatherName.value in weatherDefs;
      var unknown := weatherName.Some? && weatherName.value !in weatherDefs;
      && Count(effects, WeatherKind) == 1
      && effects[|effects| - 1] == TransitionWeather(if known then NamedWeather(weatherName.value) else RandomWeather)
      && Count(effects, LogKind) == (if unknown then 1 else 0)
      && (unknown ==> effects[0].LogWarning?)
      && |effects| == Count(effects, WeatherKind) + Count(effects, LogKind)
  {
  }

  /** A known name is never randomised: the transition goes to it whatever
      else the database holds. */
  lemma KnownWeatherNotRandomised(name: string, weatherDefs: set<string>)
    requires name in weatherDefs
    ensures forall e :: e in ChangeWeather(Some(name), weatherDefs) ==> e == TransitionWeather(NamedWeather(name))
  {
  }

  /** The command on a game: without a current map the transition throws,
      after the warning for an unknown name was logged. */
  function WeatherEffects(weatherName: Option<string>, game: Game): (effects: seq<Effect>)
    ensures game.currentMap.Some? ==> effects == ChangeWeather(weatherName, game.weatherDefs)
    ensures game.currentMap.None? ==> forall i :: 0 <= i < |effects| ==> !effects[i].TransitionWeather?
  {
    var effects := ChangeWeather(weatherName, game.weatherDefs);
    if game.currentMap.None? then effects[..|effects| - 1] + [Fault] else effects
  }

  /** Without a map no weather changes: the warning, if any, then the fault. */
  lemma WeatherWithoutMap(weatherName: Option<string>, game: Game)
    requires game.currentMap.None?
    ensures var effects := WeatherEffects(weatherName, game);
      && Count(effects, WeatherKind) == 0
      && effects[|effects| - 1] == Fault
      && (Count(effects, LogKind) == 1 <==> weatherName.Some? && weatherName.value !in game.weatherDefs)
  {
    var effects := WeatherEffects(weatherName, game);
    if weatherName.Some? && weatherName.value !in game.weatherDefs {
      assert effects[1..] == [Fault];
    }
  }
}
