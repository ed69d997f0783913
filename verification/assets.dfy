/** The asset registry (src/lib/stores/assets.svelte.ts): formatting metadata
    and icon URLs of currencies and tokens, keyed by symbol, with a built-in
    table of common assets. */
module Assets {
  import opened Wrappers
  import opened Strings
  import opened OrderedMap

  datatype AssetType = Fiat | Crypto | Stablecoin

  datatype IconSize = Thumb | Small | Large

  datatype AssetFormat = AssetFormat(
    symbol: string,
    name: Option<string>,
    assetType: AssetType,
    decimals: int,
    minDecimals: Option<int>,
    prefix: Option<string>,
    suffix: Option<string>,
    unicode: Option<string>,
    coingeckoId: Option<string>,
    coingeckoImageId: Option<int>,
    iconUrl: Option<string>)

  /** A registry: symbol to format, in insertion order. */
  type Registry = seq<(string, AssetFormat)>

  const CoingeckoCdn: string := "https://assets.coingecko.com/coins/images"

  function FiatAsset(symbol: string, name: string, decimals: int, prefix: string, unicode: string): AssetFormat {
    AssetFormat(symbol, Some(name), Fiat, decimals, None, Some(prefix), None, Some(unicode), None, None, None)
  }

  function CoinAsset(symbol: string, name: string, t: AssetType, decimals: int, coingeckoId: string, imageId: int): AssetFormat {
    AssetFormat(symbol, Some(name), t, decimals, None, None, Some(" " + symbol), None,
                Some(coingeckoId), Some(imageId), None)
  }

  /** The built-in assets, keyed by symbol. */
  const DefaultAssets: Registry := [
    ("USD", FiatAsset("USD", "US Dollar", 2, "$", "$")),
    ("EUR", FiatAsset("EUR", "Euro", 2, "€", "€")),
    ("GBP", FiatAsset("GBP", "British Pound", 2, "£", "£")),
    ("JPY", FiatAsset("JPY", "Japanese Yen", 0, "¥", "¥")),
    ("CHF", FiatAsset("CHF", "Swiss Franc", 2, "CHF ", "₣")),
    ("CAD", FiatAsset("CAD", "Canadian Dollar", 2, "C$", "$")),
    ("AUD", FiatAsset("AUD", "Australian Dollar", 2, "A$", "$")),
    ("CNY", FiatAsset("CNY", "Chinese Yuan", 2, "¥", "¥")),
    ("KRW", FiatAsset("KRW", "South Korean Won", 0, "₩", "₩")),
    ("INR", FiatAsset("INR", "Indian Rupee", 2, "₹", "₹")),
    ("BTC", CoinAsset("BTC", "Bitcoin", Crypto, 8, "bitcoin", 1)),
    ("ETH", CoinAsset("ETH", "Ethereum", Crypto, 6, "ethereum", 279)),
    ("SOL", CoinAsset("SOL", "Solana", Crypto, 4, "solana", 4128)),
    ("BNB", CoinAsset("BNB", "BNB", Crypto, 4, "binancecoin", 825)),
    ("XRP", CoinAsset("XRP", "XRP", Crypto, 4, "ripple", 44)),
    ("ADA", CoinAsset("ADA", "Cardano", Crypto, 4, "cardano", 975)),
    ("AVAX", CoinAsset("AVAX", "Avalanche", Crypto, 4, "avalanche-2", 12559)),
    ("DOT", CoinAsset("DOT", "Polkadot", Crypto, 4, "polkadot", 12171)),
    ("MATIC", CoinAsset("MATIC", "Polygon", Crypto, 4, "matic-network", 4713)),
    ("LINK", CoinAsset("LINK", "Chainlink", Crypto, 4, "chainlink", 877)),
    ("ATOM", CoinAsset("ATOM", "Cosmos", Crypto, 4, "cosmos", 1481)),
    ("LTC", CoinAsset("LTC", "Litecoin", Crypto, 6, "litecoin", 2)),
    ("UNI", CoinAsset("UNI", "Uniswap", Crypto, 4, "uniswap", 12504)),
    ("AAVE", CoinAsset("AAVE", "Aave", Crypto, 4, "aave", 12645)),
    ("ARB", CoinAsset("ARB", "Arbitrum", Crypto, 4, "arbitrum", 16547)),
    ("OP", CoinAsset("OP", "Optimism", Crypto, 4, "optimism", 25244)),
    ("USDT", CoinAsset("USDT", "Tether", Stablecoin, 2, "tether", 325)),
    ("USDC", CoinAsset("USDC", "USD Coin", Stablecoin, 2, "usd-coin", 6319)),
    ("DAI", CoinAsset("DAI", "Dai", Stablecoin, 2, "dai", 9956)),
    ("BUSD", CoinAsset("BUSD", "Binance USD", Stablecoin, 2, "binance-usd", 9576))
  ]

  /** The built-in symbols, in table order. */
  const DefaultSymbols: seq<string> := [
    "USD", "EUR", "GBP", "JPY", "CHF", "CAD", "AUD", "CNY", "KRW", "INR",
    "BTC", "ETH", "SOL", "BNB", "XRP", "ADA", "AVAX", "DOT", "MATIC", "LINK",
    "ATOM", "LTC", "UNI", "AAVE", "ARB", "OP", "USDT", "USDC", "DAI", "BUSD"
  ]

  /** The built-in table has 30 entries, each stored under its own symbol;
      fiat currencies are exactly the entries without a CoinGecko image. */
  lemma DefaultAssetsWellFormed()
    ensures |DefaultAssets| == |DefaultSymbols| == 30
    ensures forall i :: 0 <= i < |DefaultAssets| ==>
      DefaultAssets[i].0 == DefaultSymbols[i] == DefaultAssets[i].1.symbol
    ensures forall i :: 0 <= i < |DefaultAssets| ==>
      (DefaultAssets[i].1.assetType == Fiat <==> DefaultAssets[i].1.coingeckoImageId.None?)
  {
  }

  /** The built-in table is a map: no symbol appears twice. */
  lemma DefaultAssetsValid()
    ensures Valid(DefaultAssets)
  {
    DefaultAssetsWellFormed();
    DefaultSymbolsDistinct();
    ValidByKeys(DefaultAssets, DefaultSymbols);
  }

  lemma ValidByKeys<V>(m: seq<(string, V)>, ks: seq<string>)
    requires |m| == |ks| && Distinct(ks)
    requires forall i :: 0 <= i < |m| ==> m[i].0 == ks[i]
    ensures Valid(m)
  {
    assert Keys(m) == ks;
  }

  lemma DefaultSymbolsDistinct()
    ensures Distinct(DefaultSymbols)
  {
  }

  // ---------------------------------------------------------------------------
  // Contexts

  /** The context made by `setAssetContext`, or the read-only fallback that
      `getAssetContext` hands out when none was set. */
  datatype AssetContext = Writable(registry: Registry) | Fallback

  function RegistryOf(ctx: AssetContext): Registry {
    match ctx
    case Writable(r) => r
    case Fallback => DefaultAssets
  }

  /** The entries a new registry is built from: the custom entries alone,
      or the custom entries spread over `defaults`, so that a custom entry
      replaces the default of the same key in place. */
  function InitialRegistry(defaults: Registry, custom: Registry, overrideDefaults: bool): Registry {
    SetAll([], if overrideDefaults then custom else SetAll(defaults, custom))
  }

  /** A new registry holds the last custom entry of each key and, unless
      defaults are overridden, the default entry of every other key. */
  lemma InitialRegistryGet(defaults: Registry, custom: Registry, overrideDefaults: bool, k: string)
    requires Valid(defaults)
    ensures Valid(InitialRegistry(defaults, custom, overrideDefaults))
    ensures Get(InitialRegistry(defaults, custom, overrideDefaults), k) ==
      if LastValue(custom, k).Some? then LastValue(custom, k)
      else if overrideDefaults then None
      else Get(defaults, k)
  {
    var entries := if overrideDefaults then custom else SetAll(defaults, custom);
    SetAllValid([], entries);
    SetAllGet([], entries, k);
    if !overrideDefaults {
      SetAllValid(defaults, custom);
      SetAllGet(defaults, custom, k);
      LastValueOfMap(entries, k);
    }
  }

  /** `setAssetContext({ customAssets = {}, overrideDefaults = false })`. */
  function SetAssetContext(customAssets: Option<Registry>, overrideDefaults: Option<bool>): (ctx: AssetContext)
    ensures ctx.Writable?
  {
    Writable(InitialRegistry(DefaultAssets, customAssets.GetOr([]), overrideDefaults.GetOr(false)))
  }

  /** The registry of `setAssetContext` holds each custom asset, and the
      built-in asset of every symbol not customised unless defaults are
      overridden. */
  lemma SetAssetContextGet(customAssets: Option<Registry>, overrideDefaults: Option<bool>, k: string)
    ensures Valid(RegistryOf(SetAssetContext(customAssets, overrideDefaults)))
    ensures Get(RegistryOf(SetAssetContext(customAssets, overrideDefaults)), k) ==
      if LastValue(customAssets.GetOr([]), k).Some? then LastValue(customAssets.GetOr([]), k)
      else if overrideDefaults.GetOr(false) then None
      else Get(DefaultAssets, k)
  {
    DefaultAssetsValid();
    InitialRegistryGet(DefaultAssets, customAssets.GetOr([]), overrideDefaults.GetOr(false), k);
  }

  /** For a map, the last entry of a key is the only one. */
  lemma {:induction false} LastValueOfMap<V>(m: seq<(string, V)>, k: string)
    requires Valid(m)
    ensures LastValue(m, k) == Get(m, k)
  {
    if m != [] {
      var init := m[..|m| - 1];
      assert Valid(init) by {
        forall a, b | 0 <= a < b < |init| ensures Keys(init)[a] != Keys(init)[b] {
          assert Keys(m)[a] != Keys(m)[b];
        }
      }
      LastValueOfMap(init, k);
      GetAt(m, |m| - 1);
      if m[|m| - 1].0 != k {
        GetInit(m, k);
      }
    }
  }

  lemma {:induction false} GetInit<V>(m: seq<(string, V)>, k: string)
    requires m != [] && m[|m| - 1].0 != k
    ensures Get(m, k) == Get(m[..|m| - 1], k)
  {
    if |m| > 1 {
      assert m[1..][..|m[1..]| - 1] == m[..|m| - 1][1..];
      GetInit(m[1..], k);
    }
  }

  // ---------------------------------------------------------------------------
  // Lookups

  /** `getFormat(symbol)`: the exact symbol first, then its upper-case form. */
  function GetFormat(ctx: AssetContext, symbol: string): (r: Option<AssetFormat>)
    ensures Has(RegistryOf(ctx), symbol) ==> r == Get(RegistryOf(ctx), symbol)
    ensures !Has(RegistryOf(ctx), symbol) ==> r == Get(RegistryOf(ctx), AsciiUpper(symbol))
  {
    var reg := RegistryOf(ctx);
    match Get(reg, symbol)
    case Some(f) => Some(f)
    case None => Get(reg, AsciiUpper(symbol))
  }

  /** `has(symbol)`. */
  predicate HasAsset(ctx: AssetContext, symbol: string) {
    Has(RegistryOf(ctx), symbol) || Has(RegistryOf(ctx), AsciiUpper(symbol))
  }

  /** `has` agrees with `getFormat`. */
  lemma HasIffFormat(ctx: AssetContext, symbol: string)
    ensures HasAsset(ctx, symbol) <==> GetFormat(ctx, symbol).Some?
  {
  }

  function SizeName(size: IconSize): string {
    match size
    case Thumb => "thumb"
    case Small => "small"
    case Large => "large"
  }

  /** The CoinGecko CDN URL of an asset; a missing CoinGecko id renders as
      `undefined`. */
  function CdnUrl(imageId: int, size: IconSize, coingeckoId: Option<string>): string {
    CoingeckoCdn + "/" + IntToString(imageId) + "/" + SizeName(size) + "/" + coingeckoId.GetOr("undefined") + ".png"
  }

  /** `getIconUrl(symbol, size = 'small')`. */
  function GetIconUrl(ctx: AssetContext, symbol: string, size: Option<IconSize>): (r: Option<string>)
    ensures GetFormat(ctx, symbol).None? ==> r.None?
    ensures var f := GetFormat(ctx, symbol);
      f.Some? && f.value.iconUrl.Some? && f.value.iconUrl.value != [] ==> r == f.value.iconUrl
    ensures var f := GetFormat(ctx, symbol);
      r.Some? ==>
        f.Some? &&
        ((f.value.iconUrl.Some? && r.value == f.value.iconUrl.value && r.value != []) ||
         (f.value.assetType != Fiat && f.value.coingeckoImageId.Some? && f.value.coingeckoImageId.value != 0 &&
          r.value == CdnUrl(f.value.coingeckoImageId.value, size.GetOr(Small), f.value.coingeckoId)))
    ensures var f := GetFormat(ctx, symbol);
      f.Some? && f.value.assetType == Fiat && (f.value.iconUrl.None? || f.value.iconUrl.value == []) ==> r.None?
    ensures var f := GetFormat(ctx, symbol);
      var noCustom := f.Some? && (f.value.iconUrl.None? || f.value.iconUrl.value == []);
      noCustom && f.value.assetType != Fiat && f.value.coingeckoImageId.Some? && f.value.coingeckoImageId.value != 0 ==>
        r == Some(CdnUrl(f.value.coingeckoImageId.value, size.GetOr(Small), f.value.coingeckoId))
    ensures var f := GetFormat(ctx, symbol);
      var noCustom := f.Some? && (f.value.iconUrl.None? || f.value.iconUrl.value == []);
      noCustom && (f.value.coingeckoImageId.None? || f.value.coingeckoImageId.value == 0) ==> r.None?
  {
    match GetFormat(ctx, symbol)
    case None => None
    case Some(f) =>
      if f.iconUrl.Some? && f.iconUrl.value != [] then f.iconUrl
      else if f.coingeckoImageId.Some? && f.coingeckoImageId.value != 0 &&
              (f.assetType == Crypto || f.assetType == Stablecoin) then
        Some(CdnUrl(f.coingeckoImageId.value, size.GetOr(Small), f.coingeckoId))
      else None
  }

  /** `getUnicode(symbol)`. */
  function GetUnicode(ctx: AssetContext, symbol: string): (r: Option<string>)
    ensures r.Some? <==> GetFormat(ctx, symbol).Some? && GetFormat(ctx, symbol).value.unicode.Some?
    ensures r.Some? ==> r == GetFormat(ctx, symbol).value.unicode
  {
    match GetFormat(ctx, symbol)
    case None => None
    case Some(f) => f.unicode
  }

  /** `symbols()`: the registered keys in insertion order. */
  function Symbols(ctx: AssetContext): (r: seq<string>)
    ensures forall s :: s in r <==> Has(RegistryOf(ctx), s)
    ensures |r| == |RegistryOf(ctx)|
    ensures forall i :: 0 <= i < |r| ==> r[i] == RegistryOf(ctx)[i].0
    ensures Valid(RegistryOf(ctx)) ==> forall i, j :: 0 <= i < j < |r| ==> r[i] != r[j]
  {
    Keys(RegistryOf(ctx))
  }

  /** Without a context, the built-in entry at position i is what a lookup
      of its symbol finds. */
  lemma FallbackFinds(i: nat)
    requires i < |DefaultAssets|
    ensures GetFormat(Fallback, DefaultSymbols[i]) == Some(DefaultAssets[i].1)
  {
    DefaultAssetsWellFormed();
    DefaultAssetsValid();
    GetAt(DefaultAssets, i);
  }

  /** Without a context, every built-in crypto asset and stablecoin has a
      CoinGecko CDN icon and every built-in fiat currency has no icon but a
      unicode symbol. */
  lemma FallbackIcons(i: nat, size: Option<IconSize>)
    requires i < |DefaultAssets|
    ensures var f := DefaultAssets[i].1;
      f.assetType != Fiat ==>
        f.coingeckoImageId.Some? && f.coingeckoId.Some? &&
        GetIconUrl(Fallback, DefaultSymbols[i], size) ==
          Some(CdnUrl(f.coingeckoImageId.value, size.GetOr(Small), f.coingeckoId))
    ensures var f := DefaultAssets[i].1;
      f.assetType == Fiat ==>
        GetIconUrl(Fallback, DefaultSymbols[i], size).None? &&
        GetUnicode(Fallback, DefaultSymbols[i]).Some?
  {
    FallbackFinds(i);
    DefaultAssetsFields(i);
    IconOfFormat(Fallback, DefaultSymbols[i], DefaultAssets[i].1, size);
  }

  lemma IconOfFormat(ctx: AssetContext, symbol: string, f: AssetFormat, size: Option<IconSize>)
    requires GetFormat(ctx, symbol) == Some(f) && (f.iconUrl.None? || f.iconUrl.value == [])
    ensures f.assetType != Fiat && f.coingeckoImageId.Some? && f.coingeckoImageId.value != 0 ==>
      GetIconUrl(ctx, symbol, size) == Some(CdnUrl(f.coingeckoImageId.value, size.GetOr(Small), f.coingeckoId))
    ensures f.assetType == Fiat ==> GetIconUrl(ctx, symbol, size).None?
    ensures GetUnicode(ctx, symbol) == f.unicode
  {
  }

  /** Field facts of the built-in table, one entry at a time. */
  lemma DefaultAssetsFields(i: nat)
    requires i < |DefaultAssets|
    ensures var f := DefaultAssets[i].1;
      f.iconUrl.None? &&
      (f.assetType == Fiat ==> f.unicode.Some? && f.coingeckoImageId.None?) &&
      (f.assetType != Fiat ==> f.coingeckoImageId.Some? && f.coingeckoImageId.value > 0 && f.coingeckoId.Some?)
  {
  }

  // ---------------------------------------------------------------------------
  // Registration

  /** `register(asset)`: sets exactly the key `asset.symbol`. */
  function Register(ctx: AssetContext, asset: AssetFormat): (r: AssetContext)
    ensures ctx.Fallback? ==> r == ctx
    ensures ctx.Writable? ==> r.Writable? && Get(r.registry, asset.symbol) == Some(asset)
    ensures ctx.Writable? ==> forall k :: k != asset.symbol ==> Get(r.registry, k) == Get(ctx.registry, k)
    ensures ctx.Writable? ==>
      Symbols(r) == if Has(ctx.registry, asset.symbol) then Symbols(ctx) else Symbols(ctx) + [asset.symbol]
  {
    match ctx
    case Fallback => Fallback
    case Writable(reg) => Writable(Set(reg, asset.symbol, asset))
  }

  /** `registerMany(assets)`: `register` applied to each asset in turn. */
  function RegisterMany(ctx: AssetContext, assets: seq<AssetFormat>): (r: AssetContext)
    ensures r.Writable? <==> ctx.Writable?
    ensures ctx.Fallback? ==> r == ctx
  {
    if assets == [] then ctx
    else Register(RegisterMany(ctx, assets[..|assets| - 1]), assets[|assets| - 1])
  }

  /** The last asset with a given symbol. */
  function LastWithSymbol(assets: seq<AssetFormat>, s: string): Option<AssetFormat> {
    if assets == [] then None
    else if assets[|assets| - 1].symbol == s then Some(assets[|assets| - 1])
    else LastWithSymbol(assets[..|assets| - 1], s)
  }

  /** After `registerMany` a symbol holds its last asset in the list, and
      symbols not in the list keep their formats; the fallback ignores it. */
  lemma {:induction false} RegisterManyGet(ctx: AssetContext, assets: seq<AssetFormat>, s: string)
    ensures ctx.Fallback? ==> RegisterMany(ctx, assets) == Fallback
    ensures ctx.Writable? ==>
      RegisterMany(ctx, assets).Writable? &&
      Get(RegisterMany(ctx, assets).registry, s) ==
        if LastWithSymbol(assets, s).Some? then LastWithSymbol(assets, s) else Get(ctx.registry, s)
  {
    if assets != [] {
      RegisterManyGet(ctx, assets[..|assets| - 1], s);
    }
  }

  /** Registration keeps the symbols distinct. */
  lemma {:induction false} RegisterManyValid(ctx: AssetContext, assets: seq<AssetFormat>)
    requires Valid(RegistryOf(ctx))
    ensures Valid(RegistryOf(RegisterMany(ctx, assets)))
  {
    if assets != [] {
      RegisterManyValid(ctx, assets[..|assets| - 1]);
      var c := RegisterMany(ctx, assets[..|assets| - 1]);
      if c.Writable? {
        SetValid(c.registry, assets[|assets| - 1].symbol, assets[|assets| - 1]);
      }
    }
  }

  /** `getDefaultDecimals(type)`. */
  function GetDefaultDecimals(t: AssetType): (d: nat)
    ensures d == 8 <==> t == Crypto
    ensures d != 8 ==> d == 2
  {
    match t
    case Fiat => 2
    case Stablecoin => 2
    case Crypto => 8
  }
}
