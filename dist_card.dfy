/** The earlier revision of the card element and of its editor's configuration merge. The
    card has no configured flag: `setConfig` only stores the resolved configuration, and
    the `hass` setter always renders, throwing when no configuration has been stored. */
module DistCard {
  import opened Js
  import opened Config
  import opened Time
  import opened Render

  class Card {
    /** `this.config` */
    var config: Option<CardConfig>
    /** The states of `this._hass`. */
    var hass: Option<States>
    /** `this.content.innerHTML` */
    var content: Content

    constructor()
      ensures config == None && hass == None && content == Blank
    {
      config := None;
      hass := None;
      content := Blank;
    }

    /** `setConfig(raw)`: a falsy entity throws before anything is assigned; a digit colour
        that is not a string throws after the resolved configuration (still holding
        'none') has been stored; otherwise the resolved configuration is stored. Nothing is
        rendered. */
    method SetConfig(raw: RawConfig) returns (r: Result<CardConfig>)
      modifies this
      ensures r == ResolveConfig(Dist, raw)
      ensures hass == old(hass) && content == old(content)
      ensures r == Err(MissingEntity) ==> config == old(config)
      ensures r == Err(NotAString) ==> config == Some(Defaults(Dist, raw))
      ensures r.Ok? ==> config == Some(r.value)
    {
      if !Truthy(Get(raw, Key.Entity)) {
        return Err(MissingEntity);
      }
      var base := Defaults(Dist, raw);
      config := Some(base);
      if base.dimmedColor == Str("none") {
        var derived := DeriveDimmed(Dist, raw, base.digitColor);
        if derived.Err? {
          return Err(derived.error);
        }
        config := Some(base.(dimmedColor := derived.value));
      }
      r := Ok(config.value);
    }

    /** The `hass` setter: stores the states and renders; without a configuration,
        reading the entity of the missing configuration throws (`threw`) and the content
        keeps what it held. */
    method SetHass(states: States, now: LocalTime) returns (threw: bool)
      requires ValidClock(now) && (config.Some? ==> Renderable(config.value, states))
      modifies this
      ensures hass == Some(states) && config == old(config)
      ensures threw <==> config.None?
      ensures config.Some? ==> content == Shows(RenderClock(config.value, states, now))
      ensures config.None? ==> content == old(content)
    {
      hass := Some(states);
      if config.None? {
        return true;
      }
      content := Shows(RenderClock(config.value, states, now));
      threw := false;
    }
  }

  /** States that arrive before the configuration make the setter throw, and the
      configuration alone does not draw anything: the card stays blank until the next
      states arrive. */
  method HassBeforeConfig(states: States, raw: RawConfig, now: LocalTime)
    returns (threw: bool, shown: Content, r: Result<CardConfig>)
    requires ValidClock(now)
    ensures threw && shown == Blank && r == ResolveConfig(Dist, raw)
  {
    var card := new Card();
    threw := card.SetHass(states, now);
    r := card.SetConfig(raw);
    shown := card.content;
  }

  // ---------------------------------------------------------------------------
  // The editor's configuration

  /** `{ ...base, ...update }`: every key of the update with its new value, every other
      key of the base unchanged. */
  function MergeConfig(base: RawConfig, update: RawConfig): (r: RawConfig)
    ensures r.Keys == base.Keys + update.Keys
    ensures forall k | k in update :: r[k] == update[k]
    ensures forall k | k in base && k !in update :: r[k] == base[k]
  {
    base + update
  }

  /** Reading a merged configuration: the update wins where it has the key. */
  lemma MergeReads(base: RawConfig, update: RawConfig, k: Key)
    ensures Get(MergeConfig(base, update), k) == if k in update then update[k] else Get(base, k)
  {
  }

  /** Applying the same update twice is applying it once, and two updates in a row are one
      update with the later values winning. */
  lemma MergeComposes(base: RawConfig, u1: RawConfig, u2: RawConfig)
    ensures MergeConfig(MergeConfig(base, u1), u1) == MergeConfig(base, u1)
    ensures MergeConfig(MergeConfig(base, u1), u2) == MergeConfig(base, MergeConfig(u1, u2))
  {
  }

  class Editor {
    /** `this._config` */
    var config: Option<RawConfig>

    constructor()
      ensures config == None
    {
      config := None;
    }

    /** `setConfig(raw)` keeps a shallow copy of the configuration. */
    method SetConfig(raw: RawConfig)
      modifies this
      ensures config == Some(raw)
    {
      config := Some(raw);
    }

    /** `_updateConfig(update)`: nothing happens before a configuration is set; otherwise
        the configuration becomes the merge and is sent out as the `config-changed`
        event's configuration. */
    method UpdateConfig(update: RawConfig) returns (event: Option<RawConfig>)
      modifies this
      ensures old(config).None? ==> config == None && event == None
      ensures old(config).Some? ==>
        config == Some(MergeConfig(old(config).value, update)) && event == config
    {
      if config.None? {
        return None;
      }
      config := Some(MergeConfig(config.value, update));
      event := config;
    }
  }

  /** An editor session: setting a configuration and then editing one field sends a
      configuration that differs from the original only in that field. */
  method EditOneField(raw: RawConfig, k: Key, v: JsValue) returns (event: Option<RawConfig>)
    ensures event.Some? && Get(event.value, k) == v
    ensures forall j | j != k :: Get(event.value, j) == Get(raw, j)
  {
    var editor := new Editor();
    editor.SetConfig(raw);
    event := editor.UpdateConfig(map[k := v]);
  }
}
