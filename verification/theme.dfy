/** The theme store (src/lib/stores/theme.svelte.ts): colour mode, accent
    colour, UI scale, background effect and quality, and two display flags,
    each read from the browser's storage on start-up with a fallback, changed
    by setters that write the choice back, and the pixel sizes the store
    derives from the UI scale. */
module Theme {
  import opened Wrappers
  import opened JsNumber

  // ---------------------------------------------------------------------------
  // Preset tables

  datatype AccentColor = AccentColor(id: string, name: string, hex: string, hoverHex: string, mutedHex: string)

  const AccentPalette: seq<AccentColor> := [
    AccentColor("orange", "Rahapuu Orange", "#ff6b00", "#ff8533", "#cc5500"),
    AccentColor("amber", "Amber", "#f59e0b", "#fbbf24", "#d97706"),
    AccentColor("emerald", "Emerald", "#10b981", "#34d399", "#059669"),
    AccentColor("cyan", "Cyan", "#06b6d4", "#22d3ee", "#0891b2"),
    AccentColor("blue", "Blue", "#3b82f6", "#60a5fa", "#2563eb"),
    AccentColor("violet", "Violet", "#8b5cf6", "#a78bfa", "#7c3aed"),
    AccentColor("pink", "Pink", "#ec4899", "#f472b6", "#db2777"),
    AccentColor("rose", "Rose", "#f43f5e", "#fb7185", "#e11d48")
  ]

  datatype UiScalePreset = UiScalePreset(id: string, name: string, scale: real)

  const UiScalePresets: seq<UiScalePreset> := [
    UiScalePreset("compact", "Compact", 0.875),
    UiScalePreset("cozy", "Cozy", 1.0),
    UiScalePreset("comfortable", "Comfortable", 1.125),
    UiScalePreset("spacious", "Spacious", 1.25)
  ]

  datatype BgEffect = BgEffect(id: string, name: string, description: string)

  const BgEffects: seq<BgEffect> := [
    BgEffect("none", "None", "No background animation"),
    BgEffect("grid-pulse", "Grid Pulse", "Pulsing grid like data propagation"),
    BgEffect("delaunay", "Delaunay Mesh", "Animated triangulation mesh"),
    BgEffect("isometric", "Isometric", "Wavy isometric grid terrain"),
    BgEffect("particle-flow", "Particle Flow", "Rising particles with connections"),
    BgEffect("supernova", "Supernova", "Cosmic gas formations and stellar nebulae")
  ]

  datatype BgQualityPreset = BgQualityPreset(id: string, name: string, resolution: real, targetFps: nat, description: string)

  const BgQualityPresets: seq<BgQualityPreset> := [
    BgQualityPreset("low", "Low", 0.25, 20, "Battery saver"),
    BgQualityPreset("medium", "Medium", 0.4, 30, "Balanced"),
    BgQualityPreset("high", "High", 0.6, 60, "Full quality")
  ]

  function AccentId(c: AccentColor): string { c.id }
  function ScaleId(s: UiScalePreset): string { s.id }
  function EffectId(e: BgEffect): string { e.id }
  function QualityId(q: BgQualityPreset): string { q.id }

  // ---------------------------------------------------------------------------
  // Lookup by id

  /** `findIndex(x => x.id === key)`: the first position whose id is key. */
  function FindIndex<T>(xs: seq<T>, idOf: T -> string, key: string): (r: Option<nat>)
    ensures r.Some? ==> r.value < |xs| && idOf(xs[r.value]) == key
    ensures r.Some? ==> forall j :: 0 <= j < r.value ==> idOf(xs[j]) != key
    ensures r.None? <==> forall j :: 0 <= j < |xs| ==> idOf(xs[j]) != key
  {
    if xs == [] then None
    else if idOf(xs[0]) == key then Some(0)
    else match FindIndex(xs[1..], idOf, key)
      case None => None
      case Some(i) => Some(i + 1)
  }

  /** `find(x => x.id === key)`. */
  function Find<T>(xs: seq<T>, idOf: T -> string, key: string): (r: Option<T>)
    ensures r.Some? ==> r.value in xs && idOf(r.value) == key
    ensures r.None? <==> forall j :: 0 <= j < |xs| ==> idOf(xs[j]) != key
  {
    match FindIndex(xs, idOf, key)
    case None => None
    case Some(i) => Some(xs[i])
  }

  predicate DistinctIds<T>(xs: seq<T>, idOf: T -> string) {
    forall i, j :: 0 <= i < j < |xs| ==> idOf(xs[i]) != idOf(xs[j])
  }

  /** When ids are distinct, every entry is found at its own position by its
      own id. */
  lemma FindOwnId<T>(xs: seq<T>, idOf: T -> string, i: nat)
    requires DistinctIds(xs, idOf) && i < |xs|
    ensures FindIndex(xs, idOf, idOf(xs[i])) == Some(i)
    ensures Find(xs, idOf, idOf(xs[i])) == Some(xs[i])
  {
  }

  /** Every preset table is keyed by distinct, non-empty ids. */
  lemma TablesHaveDistinctIds()
    ensures DistinctIds(AccentPalette, AccentId) && DistinctIds(UiScalePresets, ScaleId)
    ensures DistinctIds(BgEffects, EffectId) && DistinctIds(BgQualityPresets, QualityId)
    ensures forall i :: 0 <= i < |AccentPalette| ==> AccentPalette[i].id != []
    ensures forall i :: 0 <= i < |UiScalePresets| ==> UiScalePresets[i].id != []
    ensures forall i :: 0 <= i < |BgEffects| ==> BgEffects[i].id != []
    ensures forall i :: 0 <= i < |BgQualityPresets| ==> BgQualityPresets[i].id != []
  {
  }

  // ---------------------------------------------------------------------------
  // Stored preferences

  /** What the browser's storage holds under each preference key; None is a
      key that was never written. */
  datatype Stored = Stored(
    mode: Option<string>,
    accent: Option<string>,
    scale: Option<string>,
    bgEffect: Option<string>,
    bgQuality: Option<string>,
    nebula: Option<string>,
    solidText: Option<string>)

  const EmptyStored: Stored := Stored(None, None, None, None, None, None, None)

  /** A string is truthy in JavaScript iff it is non-empty. */
  predicate Truthy(v: Option<string>) {
    v.Some? && v.value != []
  }

  /** The stored mode is taken as it is, unvalidated; a missing or empty one
      is 'dark'. */
  function StoredMode(v: Option<string>): (m: string)
    ensures m != []
    ensures v.Some? && v.value != [] ==> m == v.value
    ensures m != "dark" ==> v == Some(m)
  {
    if Truthy(v) then v.value else "dark"
  }

  /** A stored id selects the table entry with that id; a missing, empty or
      unknown id selects the default. */
  function StoredChoice<T>(xs: seq<T>, idOf: T -> string, v: Option<string>, default: T): (r: T)
    ensures Truthy(v) && (exists i :: 0 <= i < |xs| && idOf(xs[i]) == v.value) ==>
      r in xs && idOf(r) == v.value
    ensures !Truthy(v) || (forall i :: 0 <= i < |xs| ==> idOf(xs[i]) != v.value) ==> r == default
  {
    if Truthy(v) then Find(xs, idOf, v.value).GetOr(default) else default
  }

  /** A stored flag is on only when it is exactly "true". */
  function StoredFlag(v: Option<string>): (b: bool)
    ensures b <==> v == Some("true")
  {
    match v
    case Some(s) => s == "true"
    case None => false
  }

  /** `String(enabled)`. */
  function FlagString(b: bool): (s: string)
    ensures StoredFlag(Some(s)) == b
  {
    if b then "true" else "false"
  }

  // ---------------------------------------------------------------------------
  // The store

  datatype ThemeState = ThemeState(
    mode: string,
    accent: AccentColor,
    uiScale: UiScalePreset,
    bgEffect: BgEffect,
    bgQuality: BgQualityPreset,
    nebula: bool,
    solidText: bool)

  /** The store's state and the storage it writes to; storage is None where
      there is no browser window, and then nothing is read or written. */
  datatype ThemeStore = ThemeStore(state: ThemeState, storage: Option<Stored>)

  /** The state a store starts in: each preference read back with its own
      fallback (the first accent, cozy scale, grid pulse, medium quality,
      flags off). Without a window every key reads as missing. */
  function Init(storage: Option<Stored>): (s: ThemeState)
    ensures s.accent in AccentPalette && s.uiScale in UiScalePresets
    ensures s.bgEffect in BgEffects && s.bgQuality in BgQualityPresets
    ensures storage.None? ==>
      s == ThemeState("dark", AccentPalette[0], UiScalePresets[1], BgEffects[1], BgQualityPresets[1], false, false)
  {
    var st := storage.GetOr(EmptyStored);
    ThemeState(
      StoredMode(st.mode),
      StoredChoice(AccentPalette, AccentId, st.accent, AccentPalette[0]),
      StoredChoice(UiScalePresets, ScaleId, st.scale, UiScalePresets[1]),
      StoredChoice(BgEffects, EffectId, st.bgEffect, BgEffects[1]),
      StoredChoice(BgQualityPresets, QualityId, st.bgQuality, BgQualityPresets[1]),
      StoredFlag(st.nebula),
      StoredFlag(st.solidText))
  }

  function NewThemeStore(storage: Option<Stored>): ThemeStore {
    ThemeStore(Init(storage), storage)
  }

  /** The two colour tables the store switches between. */
  datatype ColorTable = DarkColors | LightColors

  /** `colors`: the dark table exactly when the mode is 'dark'. */
  function Colors(mode: string): (c: ColorTable)
    ensures c == DarkColors <==> mode == "dark"
  {
    if mode == "dark" then DarkColors else LightColors
  }

  function SetMode(t: ThemeStore, mode: string): (r: ThemeStore)
    ensures r.state == t.state.(mode := mode)
  {
    ThemeStore(t.state.(mode := mode), if t.storage.Some? then Some(t.storage.value.(mode := Some(mode))) else None)
  }

  /** `toggleMode`: 'dark' becomes 'light' and anything else 'dark'. */
  function ToggleMode(t: ThemeStore): (r: ThemeStore)
    ensures r.state.mode == "dark" <==> t.state.mode != "dark"
    ensures r.state.mode == "light" || r.state.mode == "dark"
    ensures r.state.(mode := t.state.mode) == t.state
    ensures Colors(r.state.mode) != Colors(t.state.mode)
  {
    SetMode(t, if t.state.mode == "dark" then "light" else "dark")
  }

  function SetAccent(t: ThemeStore, c: AccentColor): (r: ThemeStore)
    ensures r.state == t.state.(accent := c)
  {
    ThemeStore(t.state.(accent := c), if t.storage.Some? then Some(t.storage.value.(accent := Some(c.id))) else None)
  }

  /** `setAccentById`: an id not in the palette changes nothing. */
  function SetAccentById(t: ThemeStore, id: string): (r: ThemeStore)
    ensures (forall i :: 0 <= i < |AccentPalette| ==> AccentPalette[i].id != id) ==> r == t
    ensures (exists i :: 0 <= i < |AccentPalette| && AccentPalette[i].id == id) ==>
      r.state.accent in AccentPalette && r.state.accent.id == id && r.state.(accent := t.state.accent) == t.state
  {
    match Find(AccentPalette, AccentId, id)
    case Some(c) => SetAccent(t, c)
    case None => t
  }

  function SetUiScale(t: ThemeStore, s: UiScalePreset): (r: ThemeStore)
    ensures r.state == t.state.(uiScale := s)
  {
    ThemeStore(t.state.(uiScale := s), if t.storage.Some? then Some(t.storage.value.(scale := Some(s.id))) else None)
  }

  function SetUiScaleById(t: ThemeStore, id: string): (r: ThemeStore)
    ensures (forall i :: 0 <= i < |UiScalePresets| ==> UiScalePresets[i].id != id) ==> r == t
    ensures (exists i :: 0 <= i < |UiScalePresets| && UiScalePresets[i].id == id) ==>
      r.state.uiScale in UiScalePresets && r.state.uiScale.id == id && r.state.(uiScale := t.state.uiScale) == t.state
  {
    match Find(UiScalePresets, ScaleId, id)
    case Some(s) => SetUiScale(t, s)
    case None => t
  }

  /** `scaleIndex`: the slider position of the current scale, -1 when its id
      is not a preset's. */
  function ScaleIndex(t: ThemeStore): (i: int)
    ensures -1 <= i < |UiScalePresets|
    ensures i >= 0 ==> UiScalePresets[i].id == t.state.uiScale.id
    ensures i == -1 <==> forall j :: 0 <= j < |UiScalePresets| ==> UiScalePresets[j].id != t.state.uiScale.id
  {
    match FindIndex(UiScalePresets, ScaleId, t.state.uiScale.id)
    case Some(i) => i
    case None => -1
  }

  /** What a fractional slider position does: `uiScalePresets[index]` is
      undefined and becomes the store's scale; with a window, reading its
      `id` for storage throws (`thrown`), without one the store is left
      holding the undefined scale. */
  datatype UndefinedScale = UndefinedScale(thrown: bool)

  /** The position lies on the slider: `index >= 0 && index < 4`, false
      for NaN. */
  predicate OnSlider(index: Number) {
    AtLeast(index, 0.0) && index.v < |UiScalePresets| as real
  }

  /** `setUiScaleByIndex`: positions outside the slider, and NaN, change
      nothing; a whole position selects its preset; a fractional one stores
      an undefined scale. */
  function SetUiScaleByIndex(t: ThemeStore, index: Number): (r: Result<ThemeStore, UndefinedScale>)
    ensures !OnSlider(index) ==> r == Ok(t)
    ensures OnSlider(index) && index.v.Floor as real == index.v ==>
      0 <= index.v.Floor < |UiScalePresets| && r.Ok? &&
      r.value.state == t.state.(uiScale := UiScalePresets[index.v.Floor])
    ensures OnSlider(index) && index.v.Floor as real != index.v ==> r == Err(UndefinedScale(t.storage.Some?))
  {
    if !OnSlider(index) then Ok(t)
    else if index.v.Floor as real == index.v then Ok(SetUiScale(t, UiScalePresets[index.v.Floor]))
    else Err(UndefinedScale(t.storage.Some?))
  }

  /** Moving the slider to a whole position and reading it back gives that
      position; a position off the slider leaves it where it was. */
  lemma ScaleIndexAfterSet(t: ThemeStore, index: Number)
    ensures OnSlider(index) && index.v.Floor as real == index.v ==>
      SetUiScaleByIndex(t, index).Ok? && ScaleIndex(SetUiScaleByIndex(t, index).value) == index.v.Floor
    ensures !OnSlider(index) ==> SetUiScaleByIndex(t, index) == Ok(t)
  {
    if OnSlider(index) && index.v.Floor as real == index.v {
      TablesHaveDistinctIds();
      FindOwnId(UiScalePresets, ScaleId, index.v.Floor);
    }
  }

  function SetBgEffect(t: ThemeStore, e: BgEffect): (r: ThemeStore)
    ensures r.state == t.state.(bgEffect := e)
  {
    ThemeStore(t.state.(bgEffect := e), if t.storage.Some? then Some(t.storage.value.(bgEffect := Some(e.id))) else None)
  }

  function SetBgEffectById(t: ThemeStore, id: string): (r: ThemeStore)
    ensures (forall i :: 0 <= i < |BgEffects| ==> BgEffects[i].id != id) ==> r == t
    ensures (exists i :: 0 <= i < |BgEffects| && BgEffects[i].id == id) ==>
      r.state.bgEffect in BgEffects && r.state.bgEffect.id == id && r.state.(bgEffect := t.state.bgEffect) == t.state
  {
    match Find(BgEffects, EffectId, id)
    case Some(e) => SetBgEffect(t, e)
    case None => t
  }

  function SetBgQuality(t: ThemeStore, q: BgQualityPreset): (r: ThemeStore)
    ensures r.state == t.state.(bgQuality := q)
  {
    ThemeStore(t.state.(bgQuality := q), if t.storage.Some? then Some(t.storage.value.(bgQuality := Some(q.id))) else None)
  }

  function SetBgQualityById(t: ThemeStore, id: string): (r: ThemeStore)
    ensures (forall i :: 0 <= i < |BgQualityPresets| ==> BgQualityPresets[i].id != id) ==> r == t
    ensures (exists i :: 0 <= i < |BgQualityPresets| && BgQualityPresets[i].id == id) ==>
      r.state.bgQuality in BgQualityPresets && r.state.bgQuality.id == id && r.state.(bgQuality := t.state.bgQuality) == t.state
  {
    match Find(BgQualityPresets, QualityId, id)
    case Some(q) => SetBgQuality(t, q)
    case None => t
  }

  function SetNebula(t: ThemeStore, enabled: bool): (r: ThemeStore)
    ensures r.state == t.state.(nebula := enabled)
  {
    ThemeStore(t.state.(nebula := enabled),
               if t.storage.Some? then Some(t.storage.value.(nebula := Some(FlagString(enabled)))) else None)
  }

  /** `toggleNebula` negates the nebula flag and nothing else. */
  function ToggleNebula(t: ThemeStore): (r: ThemeStore)
    ensures r.state.nebula == !t.state.nebula
    ensures r.state.(nebula := t.state.nebula) == t.state
  {
    SetNebula(t, !t.state.nebula)
  }

  function SetSolidText(t: ThemeStore, enabled: bool): (r: ThemeStore)
    ensures r.state == t.state.(solidText := enabled)
  {
    ThemeStore(t.state.(solidText := enabled),
               if t.storage.Some? then Some(t.storage.value.(solidText := Some(FlagString(enabled)))) else None)
  }

  /** `toggleSolidText` negates the solid-text flag and nothing else. */
  function ToggleSolidText(t: ThemeStore): (r: ThemeStore)
    ensures r.state.solidText == !t.state.solidText
    ensures r.state.(solidText := t.state.solidText) == t.state
  {
    SetSolidText(t, !t.state.solidText)
  }

  /** Toggling the mode twice from 'dark' or 'light' restores it. */
  lemma ToggleModeTwice(t: ThemeStore)
    requires t.state.mode == "dark" || t.state.mode == "light"
    ensures ToggleMode(ToggleMode(t)).state == t.state
  {
  }

  // ---------------------------------------------------------------------------
  // Persistence

  /** The storage agrees with the state: reloading the page would restore
      exactly the current state. */
  predicate Consistent(t: ThemeStore) {
    t.storage.Some? ==> Init(t.storage) == t.state
  }

  /** A fresh store agrees with the storage it was read from once the
      storage is rewritten with what was read back. */
  lemma NewStoreReloads(storage: Option<Stored>)
    ensures Init(storage).mode != []
    ensures Consistent(NewThemeStore(storage))
  {
  }

  /** Reloading after setting a non-empty mode, or toggling it, restores
      the new mode. */
  lemma ModeSettersKeepConsistent(t: ThemeStore, mode: string)
    requires Consistent(t)
    ensures mode != [] ==> Consistent(SetMode(t, mode))
    ensures Consistent(ToggleMode(t))
  {
  }

  /** A stored id that is some entry's own id reads back as that entry. */
  lemma ChoiceOfOwnId<T>(xs: seq<T>, idOf: T -> string, i: nat, default: T)
    requires DistinctIds(xs, idOf) && i < |xs| && idOf(xs[i]) != []
    ensures StoredChoice(xs, idOf, Some(idOf(xs[i])), default) == xs[i]
  {
    FindOwnId(xs, idOf, i);
  }

  /** Reloading after choosing the palette accent at position i restores it. */
  lemma AccentRestored(t: ThemeStore, i: nat)
    requires Consistent(t) && i < |AccentPalette|
    ensures Consistent(SetAccent(t, AccentPalette[i]))
  {
    if t.storage.Some? {
      TablesHaveDistinctIds();
      ChoiceOfOwnId(AccentPalette, AccentId, i, AccentPalette[0]);
    }
  }

  /** Reloading after choosing the scale preset at position i restores it. */
  lemma ScaleRestored(t: ThemeStore, i: nat)
    requires Consistent(t) && i < |UiScalePresets|
    ensures Consistent(SetUiScale(t, UiScalePresets[i]))
  {
    if t.storage.Some? {
      TablesHaveDistinctIds();
      ChoiceOfOwnId(UiScalePresets, ScaleId, i, UiScalePresets[1]);
    }
  }

  lemma EffectRestored(t: ThemeStore, i: nat)
    requires Consistent(t) && i < |BgEffects|
    ensures Consistent(SetBgEffect(t, BgEffects[i]))
  {
    if t.storage.Some? {
      TablesHaveDistinctIds();
      ChoiceOfOwnId(BgEffects, EffectId, i, BgEffects[1]);
    }
  }

  lemma QualityRestored(t: ThemeStore, i: nat)
    requires Consistent(t) && i < |BgQualityPresets|
    ensures Consistent(SetBgQuality(t, BgQualityPresets[i]))
  {
    if t.storage.Some? {
      TablesHaveDistinctIds();
      ChoiceOfOwnId(BgQualityPresets, QualityId, i, BgQualityPresets[1]);
    }
  }

  /** Reloading after choosing a palette accent, directly or by id, restores
      that accent. */
  lemma AccentSettersKeepConsistent(t: ThemeStore, c: AccentColor, id: string)
    requires Consistent(t)
    ensures c in AccentPalette ==> Consistent(SetAccent(t, c))
    ensures Consistent(SetAccentById(t, id))
  {
    if c in AccentPalette {
      var i :| 0 <= i < |AccentPalette| && AccentPalette[i] == c;
      AccentRestored(t, i);
    }
    var a := Find(AccentPalette, AccentId, id);
    if a.Some? {
      var i :| 0 <= i < |AccentPalette| && AccentPalette[i] == a.value;
      AccentRestored(t, i);
    }
  }

  /** Reloading after choosing a scale by id or by slider position restores
      that scale. */
  lemma ScaleSettersKeepConsistent(t: ThemeStore, id: string, index: Number)
    requires Consistent(t)
    ensures Consistent(SetUiScaleById(t, id))
    ensures SetUiScaleByIndex(t, index).Ok? ==> Consistent(SetUiScaleByIndex(t, index).value)
  {
    var s := Find(UiScalePresets, ScaleId, id);
    if s.Some? {
      var i :| 0 <= i < |UiScalePresets| && UiScalePresets[i] == s.value;
      ScaleRestored(t, i);
    }
    if OnSlider(index) && index.v.Floor as real == index.v {
      ScaleRestored(t, index.v.Floor);
    }
  }

  /** Reloading after choosing a background effect or quality by id restores
      it. */
  lemma BackgroundSettersKeepConsistent(t: ThemeStore, id: string)
    requires Consistent(t)
    ensures Consistent(SetBgEffectById(t, id))
    ensures Consistent(SetBgQualityById(t, id))
  {
    var e := Find(BgEffects, EffectId, id);
    if e.Some? {
      var i :| 0 <= i < |BgEffects| && BgEffects[i] == e.value;
      EffectRestored(t, i);
    }
    var q := Find(BgQualityPresets, QualityId, id);
    if q.Some? {
      var i :| 0 <= i < |BgQualityPresets| && BgQualityPresets[i] == q.value;
      QualityRestored(t, i);
    }
  }

  /** Reloading after a flag toggle restores the toggled flag. */
  lemma FlagTogglesKeepConsistent(t: ThemeStore)
    requires Consistent(t)
    ensures Consistent(ToggleNebula(t)) && Consistent(ToggleSolidText(t))
  {
  }

  // ---------------------------------------------------------------------------
  // Scaled sizes

  const SpacingBases: seq<nat> := [2, 4, 8, 12, 16, 24]
  const FontSizeBases: seq<nat> := [12, 14, 16, 18, 20, 24]
  const RadiusBases: seq<nat> := [2, 4, 6]

  /** `Math.round(base * scale)` for each base size. */
  function ScaleAll(bases: seq<nat>, scale: real): (r: seq<int>)
    ensures |r| == |bases|
    ensures forall i :: 0 <= i < |r| ==>
      r[i] as real - 0.5 <= bases[i] as real * scale < r[i] as real + 0.5
  {
    if bases == [] then [] else [Round(bases[0] as real * scale)] + ScaleAll(bases[1..], scale)
  }

  /** The spacing, font-size and radius pixel values of the CSS variables. */
  datatype Sizes = Sizes(spacing: seq<int>, fontSize: seq<int>, radius: seq<int>)

  function ScaledSizes(scale: real): (r: Sizes)
    ensures |r.spacing| == |SpacingBases| && |r.fontSize| == |FontSizeBases| && |r.radius| == |RadiusBases|
    ensures forall i :: 0 <= i < |SpacingBases| ==>
      r.spacing[i] as real - 0.5 <= SpacingBases[i] as real * scale < r.spacing[i] as real + 0.5
    ensures forall i :: 0 <= i < |FontSizeBases| ==>
      r.fontSize[i] as real - 0.5 <= FontSizeBases[i] as real * scale < r.fontSize[i] as real + 0.5
    ensures forall i :: 0 <= i < |RadiusBases| ==>
      r.radius[i] as real - 0.5 <= RadiusBases[i] as real * scale < r.radius[i] as real + 0.5
  {
    Sizes(ScaleAll(SpacingBases, scale), ScaleAll(FontSizeBases, scale), ScaleAll(RadiusBases, scale))
  }

  /** Rounding to the nearest integer leaves integers alone, so at scale 1
      every size is its base. */
  lemma {:induction false} ScaleAllByOne(bases: seq<nat>)
    ensures ScaleAll(bases, 1.0) == bases
  {
    if bases != [] {
      ScaleAllByOne(bases[1..]);
      RoundOfInt(bases[0]);
    }
  }

  /** At the cozy preset the sizes are the base sizes. */
  lemma CozySizes()
    ensures UiScalePresets[1].id == "cozy"
    ensures ScaledSizes(UiScalePresets[1].scale) == Sizes(SpacingBases, FontSizeBases, RadiusBases)
  {
    ScaleAllByOne(SpacingBases);
    ScaleAllByOne(FontSizeBases);
    ScaleAllByOne(RadiusBases);
  }

  /** A larger scale never shrinks a size. */
  lemma {:induction false} ScaleAllMonotone(bases: seq<nat>, s1: real, s2: real)
    requires 0.0 <= s1 <= s2
    ensures forall i :: 0 <= i < |bases| ==> ScaleAll(bases, s1)[i] <= ScaleAll(bases, s2)[i]
  {
    if bases != [] {
      ScaleAllMonotone(bases[1..], s1, s2);
      assert bases[0] as real * s1 <= bases[0] as real * s2;
      RoundMonotone(bases[0] as real * s1, bases[0] as real * s2);
      forall i | 1 <= i < |bases| ensures ScaleAll(bases, s1)[i] <= ScaleAll(bases, s2)[i] {
        assert ScaleAll(bases, s1)[i] == ScaleAll(bases[1..], s1)[i - 1];
        assert ScaleAll(bases, s2)[i] == ScaleAll(bases[1..], s2)[i - 1];
      }
    }
  }

  /** The compact preset rounds halves up: 12 * 0.875 = 10.5 becomes 11. */
  lemma CompactSpacing()
    ensures ScaleAll(SpacingBases, UiScalePresets[0].scale) == [2, 4, 7, 11, 14, 21]
  {
    var r := ScaleAll(SpacingBases, 0.875);
    assert UiScalePresets[0].scale == 0.875;
    assert SpacingBases[0] == 2 && SpacingBases[1] == 4 && SpacingBases[2] == 8;
    assert SpacingBases[3] == 12 && SpacingBases[4] == 16 && SpacingBases[5] == 24;
    assert r[0] == 2 && r[1] == 4 && r[2] == 7;
    assert r[3] == 11 && r[4] == 14 && r[5] == 21;
  }
}
