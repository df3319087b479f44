/** The later revision of the card element: `setConfig` resolves and stores the
    configuration and marks the card configured, re-rendering when a Home Assistant
    object has already arrived; the `hass` setter stores the states and renders, or shows
    the not-configured placeholder until a configuration is in place. */
module SrcCard {
  import opened Js
  import opened Config
  import opened Time
  import opened Render

  class Card {
    /** `this.config`: absent until the first `setConfig` gets past validation. */
    var config: Option<CardConfig>
    /** `this.configInitialized` */
    var configInitialized: bool
    /** The states of `this._hass`. */
    var hass: Option<States>
    /** `this.content.innerHTML` */
    var content: Content

    /** The flag is only ever raised after a configuration has been stored. */
    ghost predicate Valid()
      reads this
    {
      configInitialized ==> config.Some?
    }

    constructor()
      ensures Valid()
      ensures config == None && !configInitialized && hass == None && content == Blank
    {
      config := None;
      configInitialized := false;
      hass := None;
      content := Blank;
    }

    /** `setConfig(raw)`: a falsy entity throws before anything is assigned; a digit colour
        that is not a string throws while deriving the dimmed colour, after the resolved
        configuration (still holding 'none') has been stored but before the card is marked
        configured; otherwise the resolved configuration is stored, the card is marked
        configured and, when states are present, the content is rendered at time `now`. */
    method SetConfig(raw: RawConfig, now: LocalTime) returns (r: Result<CardConfig>)
      requires Valid() && Resolvable(Src, raw) && ValidClock(now)
      requires hass.Some? && ResolveConfig(Src, raw).Ok? ==>
        Renderable(ResolveConfig(Src, raw).value, hass.value)
      modifies this
      ensures Valid()
      ensures r == ResolveConfig(Src, raw)
      ensures hass == old(hass)
      ensures r == Err(MissingEntity) ==>
        config == old(config) && configInitialized == old(configInitialized) && content == old(content)
      ensures r == Err(NotAString) ==>
        config == Some(Defaults(Src, raw)) && configInitialized == old(configInitialized)
        && content == old(content)
      ensures r.Ok? ==> config == Some(r.value) && configInitialized
      ensures r.Ok? && hass.Some? ==> content == Shows(RenderClock(r.value, hass.value, now))
      ensures r.Ok? && hass.None? ==> content == old(content)
    {
      if !Truthy(Get(raw, Key.Entity)) {
        return Err(MissingEntity);
      }
      var base := Defaults(Src, raw);
      config := Some(base);
      if base.dimmedColor == Str("none") {
        var derived := DeriveDimmed(Src, raw, base.digitColor);
        if derived.Err? {
          return Err(derived.error);
        }
        config := Some(base.(dimmedColor := derived.value));
      }
      configInitialized := true;
      if hass.Some? {
        content := Shows(RenderGuarded(configInitialized, config, hass.value, now));
      }
      r := Ok(config.value);
    }

    /** The `hass` setter: stores the states, then renders if configured and shows the
        not-configured placeholder otherwise. */
    method SetHass(states: States, now: LocalTime)
      requires Valid() && ValidClock(now)
      requires configInitialized ==> Renderable(config.value, states)
      modifies this
      ensures Valid()
      ensures hass == Some(states) && config == old(config) && configInitialized == old(configInitialized)
      ensures configInitialized ==> content == Shows(RenderClock(config.value, states, now))
      ensures !configInitialized ==> content == Shows(Message(NotConfigured))
    {
      hass := Some(states);
      if configInitialized {
        content := Shows(RenderGuarded(configInitialized, config, states, now));
      } else {
        content := Shows(Message(NotConfigured));
      }
    }
  }

  /** States that arrive before the configuration show the placeholder, and the
      configuration then renders them straight away, as if it had come first. */
  method HassBeforeConfig(states: States, raw: RawConfig, now: LocalTime)
    returns (before: Content, after: Content)
    requires Resolvable(Src, raw) && ValidClock(now)
    requires ResolveConfig(Src, raw).Ok? && Renderable(ResolveConfig(Src, raw).value, states)
    ensures before == Shows(Message(NotConfigured))
    ensures after == Shows(RenderClock(ResolveConfig(Src, raw).value, states, now))
  {
    var card := new Card();
    card.SetHass(states, now);
    before := card.content;
    var r := card.SetConfig(raw, now);
    after := card.content;
  }

  /** A rejected configuration leaves a configured card showing what it showed. */
  method RejectedConfigKeepsClock(raw1: RawConfig, raw2: RawConfig, states: States, now: LocalTime)
    returns (shown: Content, r: Result<CardConfig>)
    requires Resolvable(Src, raw1) && ValidClock(now)
    requires ResolveConfig(Src, raw1).Ok? && Renderable(ResolveConfig(Src, raw1).value, states)
    requires !Truthy(Get(raw2, Key.Entity))
    ensures r == Err(MissingEntity)
    ensures shown == Shows(RenderClock(ResolveConfig(Src, raw1).value, states, now))
  {
    var card := new Card();
    card.SetHass(states, now);
    var r1 := card.SetConfig(raw1, now);
    r := card.SetConfig(raw2, now);
    shown := card.content;
  }
}
