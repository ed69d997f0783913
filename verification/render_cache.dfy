/** `renderMandelbrot`: rendered avatars are kept in a module-level `Map` from
    cache key to data URL. A hit returns the stored URL; a miss renders the
    image and stores it, first evicting the oldest entry once the map holds
    `MAX_CACHE_SIZE` entries, so the map behaves as a FIFO window of the most
    recently rendered keys. */
module RenderCache {
  import opened Wrappers
  import opened Strings
  import opened JsNumber
  import opened Julia
  import opened PixelBuffer
  import opened OrderedMap

  const MaxCacheSize: nat := 100
  const DefaultSize: nat := 64
  const DefaultMaxIter: nat := 50

  /** The cache: cache keys to data URLs, in insertion order. */
  type Cache = seq<(string, string)>

  /** Why a render throws: the parameters could not be derived, or the
      canvas has no pixels (`createImageData(0, 0)` throws `IndexSizeError`). */
  datatype RenderError = ParamsError(failure: Failure) | IndexSizeError

  /** `julia-${uuid}-${size}-${maxIter}`. */
  function CacheKey(uuid: string, size: nat, maxIter: nat): (k: string)
    ensures |k| > 6 && k[..6] == "julia-"
  {
    "julia-" + uuid + "-" + NatToString(size) + "-" + NatToString(maxIter)
  }

  /** Splitting at the last hyphen: a prefix followed by a hyphen and a
      hyphen-free suffix is determined by the whole string. */
  lemma SplitLastHyphen(a: string, d: string, b: string, e: string)
    requires '-' !in d && '-' !in e
    requires a + "-" + d == b + "-" + e
    ensures a == b && d == e
  {
    var k := a + "-" + d;
    assert k[|k| - |d| - 1] == '-';
    assert (b + "-" + e)[|k| - |e| - 1] == '-';
    assert d == k[|k| - |d|..];
    assert e == k[|k| - |e|..];
    assert a == k[..|a|];
    assert b == k[..|b|];
  }

  lemma DigitsHaveNoHyphen(n: nat)
    ensures '-' !in NatToString(n)
  {
  }

  /** Different (uuid, size, maxIter) triples get different cache keys. */
  lemma {:induction false} CacheKeyInjective(u1: string, s1: nat, m1: nat, u2: string, s2: nat, m2: nat)
    requires CacheKey(u1, s1, m1) == CacheKey(u2, s2, m2)
    ensures u1 == u2 && s1 == s2 && m1 == m2
  {
    DigitsHaveNoHyphen(s1);
    DigitsHaveNoHyphen(s2);
    DigitsHaveNoHyphen(m1);
    DigitsHaveNoHyphen(m2);
    var p1, p2 := "julia-" + u1 + "-" + NatToString(s1), "julia-" + u2 + "-" + NatToString(s2);
    assert CacheKey(u1, s1, m1) == p1 + "-" + NatToString(m1);
    assert CacheKey(u2, s2, m2) == p2 + "-" + NatToString(m2);
    SplitLastHyphen(p1, NatToString(m1), p2, NatToString(m2));
    SplitLastHyphen("julia-" + u1, NatToString(s1), "julia-" + u2, NatToString(s2));
    assert u1 == ("julia-" + u1)[6..];
    assert u2 == ("julia-" + u2)[6..];
    NatToStringInjective(s1, s2);
    NatToStringInjective(m1, m2);
  }

  /** Keys are distinct and non-empty, and there are at most
      `MAX_CACHE_SIZE` of them. */
  predicate ValidCache(c: Cache) {
    Valid(c) && |c| <= MaxCacheSize && !Has(c, [])
  }

  /** `const cached = cache.get(key); if (cached) return cached;`: an empty
      stored URL is falsy and counts as a miss. */
  function Lookup(c: Cache, key: string): (r: Option<string>)
    ensures r.Some? <==> Get(c, key).Some? && Get(c, key).value != []
    ensures r.Some? ==> (key, r.value) in c
  {
    match Get(c, key)
    case Some(v) => if v != [] then Some(v) else None
    case None => None
  }

  /** Storing a freshly rendered URL: when the map is full, the first key is
      deleted (if it is truthy), then the key is set. */
  function Admit(c: Cache, key: string, url: string): (r: Cache)
    ensures Get(r, key) == Some(url)
    ensures |c| < MaxCacheSize ==> r == Set(c, key, url)
    ensures forall k :: k != key && (|c| < MaxCacheSize || k != c[0].0) ==> Get(r, k) == Get(c, k)
  {
    var evicted := if |c| >= MaxCacheSize && c[0].0 != [] then Delete(c, c[0].0) else c;
    Set(evicted, key, url)
  }

  /** Admitting a non-empty key keeps the cache valid; in particular it never
      grows beyond `MAX_CACHE_SIZE`. */
  lemma AdmitValid(c: Cache, key: string, url: string)
    requires ValidCache(c) && key != []
    ensures ValidCache(Admit(c, key, url))
  {
    var evicted := if |c| >= MaxCacheSize && c[0].0 != [] then Delete(c, c[0].0) else c;
    if |c| >= MaxCacheSize {
      DeleteValid(c, c[0].0);
      assert Has(c, c[0].0);
      assert Get(evicted, []) == Get(c, []);
    }
    assert Valid(evicted) && |evicted| < MaxCacheSize && !Has(evicted, []);
    SetValid(evicted, key, url);
    assert |Keys(Set(evicted, key, url))| <= |Keys(evicted)| + 1;
  }

  /** On a full cache a new key evicts exactly the oldest key and goes to
      the end. */
  lemma AdmitEvictsOldest(c: Cache, key: string, url: string)
    requires ValidCache(c) && |c| == MaxCacheSize && !Has(c, key)
    ensures Keys(Admit(c, key, url)) == Keys(c)[1..] + [key]
    ensures Get(Admit(c, key, url), c[0].0).None?
    ensures forall k :: k != key && k != c[0].0 ==> Get(Admit(c, key, url), k) == Get(c, k)
  {
    DeleteFirst(c);
    assert Keys(c[1..]) == Keys(c)[1..];
    assert !Has(c[1..], key);
  }

  /** The cache after rendering each key of `keys`, in order, starting from an
      empty cache (every key a miss). */
  function Fill(keys: seq<string>, url: string): (c: Cache)
  {
    if keys == [] then [] else Admit(Fill(keys[..|keys| - 1], url), keys[|keys| - 1], url)
  }

  function Min(a: nat, b: nat): nat {
    if a <= b then a else b
  }

  /** Rendering distinct keys one after another leaves exactly the last
      `MAX_CACHE_SIZE` of them in the cache, oldest first. */
  lemma {:induction false} FillKeepsNewest(keys: seq<string>, url: string)
    requires Distinct(keys) && [] !in keys
    ensures ValidCache(Fill(keys, url))
    ensures Keys(Fill(keys, url)) == keys[|keys| - Min(|keys|, MaxCacheSize)..]
  {
    if keys != [] {
      var n := |keys|;
      var init := keys[..n - 1];
      var key := keys[n - 1];
      assert Distinct(init);
      FillKeepsNewest(init, url);
      var c := Fill(init, url);
      var window := init[|init| - Min(|init|, MaxCacheSize)..];
      assert !Has(c, key);
      AdmitValid(c, key, url);
      if |c| == MaxCacheSize {
        AdmitEvictsOldest(c, key, url);
        assert window[1..] == init[n - MaxCacheSize..];
        WindowStep(keys, MaxCacheSize);
      } else {
        assert Keys(Admit(c, key, url)) == Keys(c) + [key];
        assert window == init;
        WindowStep(keys, n);
      }
    }
  }

  lemma WindowStep(keys: seq<string>, m: nat)
    requires 1 <= m <= |keys|
    ensures keys[..|keys| - 1][|keys| - m..] + [keys[|keys| - 1]] == keys[|keys| - m..]
  {
  }

  /** The colour of every pixel of a `size`-pixel canvas. */
  function ColorAt(params: JuliaParams, size: nat, maxIter: nat, nu: real -> real,
                   outside: (Number, nat, Number, Number) -> Rgb): (nat, nat) -> Rgb
    requires size > 0
  {
    (px: nat, py: nat) => PixelColor(params, size, maxIter, nu, outside, px, py)
  }

  /** The bytes of the finished canvas: every pixel's clamped colour and an
      opaque alpha, in row-major order. */
  function Image(params: JuliaParams, size: nat, maxIter: nat, nu: real -> real,
                 outside: (Number, nat, Number, Number) -> Rgb): (img: seq<Byte>)
    requires size > 0
    ensures |img| == 4 * size * size
  {
    seq(4 * size * size, i requires 0 <= i => ExpectedByte(size, ColorAt(params, size, maxIter, nu, outside), i))
  }

  /** Every pixel of the image holds the colour the render loop computes
      for it. */
  lemma ImagePixels(params: JuliaParams, size: nat, maxIter: nat, nu: real -> real,
                    outside: (Number, nat, Number, Number) -> Rgb)
    requires size > 0
    ensures forall px: nat, py: nat :: px < size && py < size ==>
      PixelStored(Image(params, size, maxIter, nu, outside), size, px, py,
                  PixelColor(params, size, maxIter, nu, outside, px, py))
  {
    var colorAt := ColorAt(params, size, maxIter, nu, outside);
    Layout(size, colorAt, Image(params, size, maxIter, nu, outside));
    forall px: nat, py: nat | px < size && py < size
      ensures colorAt(px, py) == PixelColor(params, size, maxIter, nu, outside, px, py)
    {
    }
  }

  /** `renderMandelbrot(uuid, size, maxIter)` against the cache `cache`.
      `nu` is the smoothing term, `outside` the colour of escaping points and
      `encode` the PNG data URL of the canvas (`canvas.toDataURL`). The
      parameters are derived as the code does, so a first group that
      indexes outside the base constants makes the call fail. The image
      itself is returned in `pixels`. */
  method RenderMandelbrot(cache: Cache, uuid: string, size: nat, maxIter: nat, nu: real -> real,
                          outside: (Number, nat, Number, Number) -> Rgb,
                          encode: (nat, seq<Byte>) -> string)
    returns (r: Result<string, RenderError>, pixels: seq<Byte>, cache': Cache)
    ensures var key := CacheKey(uuid, size, maxIter);
      Lookup(cache, key).Some? ==> r == Ok(Lookup(cache, key).value) && cache' == cache
    ensures var key := CacheKey(uuid, size, maxIter);
      Lookup(cache, key).None? && UuidToJuliaParamsAsWritten(uuid).Err? ==>
        r == Err(ParamsError(UuidToJuliaParamsAsWritten(uuid).error)) && cache' == cache
    ensures var key := CacheKey(uuid, size, maxIter);
      Lookup(cache, key).None? && UuidToJuliaParamsAsWritten(uuid).Ok? && size == 0 ==>
        r == Err(IndexSizeError) && cache' == cache
    ensures var key := CacheKey(uuid, size, maxIter);
      Lookup(cache, key).None? && UuidToJuliaParamsAsWritten(uuid).Ok? && size > 0 ==>
        var params := UuidToJuliaParamsAsWritten(uuid).value;
        pixels == Image(params, size, maxIter, nu, outside) &&
        (forall px: nat, py: nat :: px < size && py < size ==>
           PixelStored(pixels, size, px, py, PixelColor(params, size, maxIter, nu, outside, px, py))) &&
        r == Ok(encode(size, pixels)) && cache' == Admit(cache, key, encode(size, pixels))
    ensures ValidCache(cache) ==> ValidCache(cache')
    ensures r.Ok? && r.value != [] ==> Lookup(cache', CacheKey(uuid, size, maxIter)) == Some(r.value)
  {
    var key := CacheKey(uuid, size, maxIter);
    var cached := Lookup(cache, key);
    if cached.Some? {
      return Ok(cached.value), [], cache;
    }
    var params := UuidToJuliaParamsAsWritten(uuid);
    if params.Err? {
      return Err(ParamsError(params.error)), [], cache;
    }
    if size == 0 {
      return Err(IndexSizeError), [], cache;
    }
    var colorAt := ColorAt(params.value, size, maxIter, nu, outside);
    pixels := FillPixels(size, colorAt);
    assert pixels == Image(params.value, size, maxIter, nu, outside);
    ImagePixels(params.value, size, maxIter, nu, outside);
    var url := encode(size, pixels);
    cache' := Admit(cache, key, url);
    if ValidCache(cache) {
      AdmitValid(cache, key, url);
    }
    r := Ok(url);
  }

  /** `getMandelbrotBackground(uuid, size)`: the rendered image as a CSS
      `url(...)` value, rendered with the default iteration budget. */
  method MandelbrotBackground(cache: Cache, uuid: string, size: nat, nu: real -> real,
                              outside: (Number, nat, Number, Number) -> Rgb,
                              encode: (nat, seq<Byte>) -> string)
    returns (r: Result<string, RenderError>, cache': Cache)
    ensures var key := CacheKey(uuid, size, DefaultMaxIter);
      Lookup(cache, key).Some? ==> r == Ok("url(" + Lookup(cache, key).value + ")") && cache' == cache
    ensures var key := CacheKey(uuid, size, DefaultMaxIter);
      Lookup(cache, key).None? && UuidToJuliaParamsAsWritten(uuid).Err? ==>
        r == Err(ParamsError(UuidToJuliaParamsAsWritten(uuid).error)) && cache' == cache
    ensures var key := CacheKey(uuid, size, DefaultMaxIter);
      Lookup(cache, key).None? && UuidToJuliaParamsAsWritten(uuid).Ok? && size == 0 ==>
        r == Err(IndexSizeError) && cache' == cache
    ensures var key := CacheKey(uuid, size, DefaultMaxIter);
      Lookup(cache, key).None? && UuidToJuliaParamsAsWritten(uuid).Ok? && size > 0 ==>
        var url := encode(size, Image(UuidToJuliaParamsAsWritten(uuid).value, size, DefaultMaxIter, nu, outside));
        r == Ok("url(" + url + ")") && cache' == Admit(cache, key, url)
    ensures ValidCache(cache) ==> ValidCache(cache')
  {
    var url, _, c := RenderMandelbrot(cache, uuid, size, DefaultMaxIter, nu, outside, encode);
    cache' := c;
    match url
    case Ok(u) => r := Ok("url(" + u + ")");
    case Err(e) => r := Err(e);
  }
}
