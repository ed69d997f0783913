# ukiyoe core, modelled in Dafny

This project models the non-visual core of the ukiyoe Svelte component
library and its demo site:

- the UUID avatar renderer (`src/lib/utils/mandelbrot.ts`). It derives
  Julia-set parameters from a UUID, iterates the Julia map per pixel, tints
  the inside of the set, lays the pixels out in an RGBA buffer and keeps the
  rendered data URLs in a FIFO cache of 100 entries;
- the OpenAPI helpers (`src/lib/openapi/utils.ts`): endpoint extraction,
  grouping by tag with 'default' last, method colours, API info;
- the asset registry context (`src/lib/stores/assets.svelte.ts`): the 30
  built-in assets, custom and overriding registries, exact-then-upper-case
  lookup, CoinGecko icon URLs, registration and default decimals;
- the theme store (`src/lib/stores/theme.svelte.ts`): the preset tables,
  reading preferences back from storage, every setter and toggle, and the
  scaled spacing, font and radius sizes;
- the privacy and formatting contexts (`src/lib/stores/privacy.svelte.ts`,
  `src/lib/stores/formatting.svelte.ts`), including their read-only
  fallbacks;
- the demo's navigation table and command-palette items
  (`apps/demo/src/lib/routes.ts`);
- the demo's mdsvex highlighter callback (`apps/demo/svelte.config.js`):
  template-literal escaping, `title="…"` extraction and the preview or
  plain output.

Every file is one module:

| file | module | models |
|---|---|---|
| `wrappers.dfy` | `Wrappers` | `Option` and `Result` |
| `strings.dfy` | `Strings` | hex digits, `replace(/x/g, …)`, decimal rendering, ASCII upper case, substring search |
| `js_number.dfy` | `JsNumber` | JavaScript numbers (finite or NaN), `Math.round`, `Uint8ClampedArray` stores, `parseInt(s, 16)` with leading white space, a sign and a `0x` prefix |
| `ordered_map.dfy` | `OrderedMap` | a JavaScript `Map` as an insertion-ordered list of pairs |
| `julia.dfy` | `Julia` | `uuidToJuliaParams`, `juliaIter`, the inside-set tint |
| `pixel_buffer.dfy` | `PixelBuffer` | the nested pixel loop writing RGBA bytes |
| `render_cache.dfy` | `RenderCache` | `renderMandelbrot` with its cache, and `getMandelbrotBackground` |
| `openapi.dfy` | `OpenApi` | `extractEndpoints`, `groupEndpointsByTag`, `getMethodColor`, `getMethodBgColor`, `getApiInfo` |
| `assets.dfy` | `Assets` | `setAssetContext`, `getAssetContext`, `getDefaultDecimals` |
| `theme.dfy` | `Theme` | the `ThemeStore` class and its preset tables |
| `routes.dfy` | `Routes` | `sections` and `getCommandItems` |
| `code_blocks.dfy` | `CodeBlocks` | `escapeTemplateLiteral` and the mdsvex `highlighter` |
| `privacy.dfy` | `Privacy` | `setPrivacyContext`, `getPrivacyContext`, the masks |
| `formatting.dfy` | `Formatting` | `setFormattingContext`, `getFormattingContext`, `getBrowserLocale` |

Components hold state in Svelte runes and in `localStorage`. Here that state
is an immutable value, and every setter is a function from the old value to
the new one. The renderer's canvas, the PNG encoder, the shiki highlighter,
`navigator.language` and the browser's `localeCompare` are parameters of the
functions that use them.

The comments of `mandelbrot.ts` (lines 4-5 and 26-27) say that every UUID
maps to Julia parameters and a deterministic image. The code picks the base
point with `Math.floor(a * 8)` (line 52) and does not clamp the index. A first
group of `ffffffff` gives a = 1 and reads past the eight-entry table. The
renderer follows the code: `RenderCache.RenderMandelbrot` derives its
parameters with `Julia.UuidToJuliaParamsAsWritten`. The finding below records
the consequence and a corrected derivation, `Julia.UuidToJuliaParams`.

## Model

| member | source | states |
|---|---|---|
| Strings.ReplaceAll | src/lib/utils/mandelbrot.ts:30 | replacing every occurrence of a character by a string that does not contain it leaves none behind, and a string without the character is unchanged |
| Strings.ReplaceByChar | src/lib/utils/mandelbrot.ts:30 | replacing a character by a character keeps the length and changes exactly the positions that held it |
| Strings.ReplaceAllAppend | apps/demo/svelte.config.js:24 | a global replace distributes over concatenation |
| Strings.HexPrefix | src/lib/utils/mandelbrot.ts:33-36 | the hex digits `parseInt` reads are the longest all-hex prefix of the text |
| Strings.HexValueAppend | src/lib/utils/mandelbrot.ts:33-36 | the value of concatenated hex digits is the first part shifted by the second part's width plus the second part |
| Strings.HexValueBound | src/lib/utils/mandelbrot.ts:33-36 | n hex digits are worth less than 16^n |
| Strings.DecimalRoundTrip | src/lib/utils/mandelbrot.ts:155 | reading back the decimal rendering of a number gives the number |
| Strings.NatToStringInjective | src/lib/utils/mandelbrot.ts:155 | different numbers have different decimal renderings |
| Strings.AsciiUpper | src/lib/stores/assets.svelte.ts:138 | upper-casing keeps the length and maps each character on its own |
| Strings.ContainsIff | apps/demo/svelte.config.js:48 | `includes` holds exactly when the pattern occurs at some position |
| JsNumber.Round | src/lib/utils/mandelbrot.ts:109 | `Math.round` gives the integer within one half, rounding halves up |
| JsNumber.RoundMonotone | src/lib/stores/theme.svelte.ts:358-378 | `Math.round` never decreases when its argument grows |
| JsNumber.RoundOfInt | src/lib/stores/theme.svelte.ts:358-378 | `Math.round` leaves integers unchanged |
| JsNumber.RoundNumber | src/lib/utils/mandelbrot.ts:109 | rounding keeps NaN as NaN and rounds a finite value |
| JsNumber.ToUint8Clamp | src/lib/utils/mandelbrot.ts:182-185 | storing into a clamped byte array gives 0 for NaN and non-positive values, 255 from 255 up, and the nearest byte in between |
| JsNumber.ToUint8ClampOfByte | src/lib/utils/mandelbrot.ts:182-185 | storing a whole byte value stores that value |
| JsNumber.ParseIntHex | src/lib/utils/mandelbrot.ts:33-36 | `parseInt(s, 16)` is NaN exactly when no hex digit follows the leading white space, the optional sign and the optional `0x`; otherwise it is a whole number of magnitude below 16^length, and never negative without a `-` |
| JsNumber.ParseIntHexOfHex | src/lib/utils/mandelbrot.ts:33-36 | on a non-empty run of hex digits `parseInt` gives their value |
| JsNumber.TrimStartRemovesBlanks | src/lib/utils/mandelbrot.ts:33-36 | trimming removes a prefix made only of ECMAScript white space and line terminators and stops at the first other character |
| JsNumber.ParseIntHexSkipsBlank | src/lib/utils/mandelbrot.ts:33-36 | a leading white-space character does not change what `parseInt` reads |
| JsNumber.ParseIntHexPlus | src/lib/utils/mandelbrot.ts:33-36 | a leading `+` does not change the value |
| JsNumber.ParseIntHexMinus | src/lib/utils/mandelbrot.ts:33-36 | a leading `-` negates the value and keeps NaN as NaN |
| JsNumber.ParseIntHexPrefixed | src/lib/utils/mandelbrot.ts:33-36 | after `0x` the digits that follow are read, and `0x` with no hex digit after it is NaN |
| OrderedMap.Get | src/lib/utils/mandelbrot.ts:156 | a lookup succeeds exactly for present keys and returns a stored value |
| OrderedMap.GetAt | src/lib/utils/mandelbrot.ts:156 | in a map with distinct keys, looking up the key at a position returns the value at that position |
| OrderedMap.Set | src/lib/utils/mandelbrot.ts:197 | `set` stores the value under the key, changes no other key, and appends the key only when it is new |
| OrderedMap.SetValid | src/lib/utils/mandelbrot.ts:197 | `set` keeps keys distinct |
| OrderedMap.Delete | src/lib/utils/mandelbrot.ts:195 | `delete` removes the key, changes no other key, and changes nothing when the key is absent |
| OrderedMap.DeleteValid | src/lib/utils/mandelbrot.ts:195 | `delete` keeps keys distinct and shrinks the map by one when the key was present |
| OrderedMap.DeleteFirst | src/lib/utils/mandelbrot.ts:194-195 | deleting the first key in insertion order drops the first entry |
| OrderedMap.SetAllGet | src/lib/stores/assets.svelte.ts:129-133 | after setting a list of entries, a key holds its last value in the list, or its old value if the list does not mention it |
| OrderedMap.SetAllValid | src/lib/stores/assets.svelte.ts:129-133 | setting a list of entries keeps keys distinct |
| Julia.StripHyphens | src/lib/utils/mandelbrot.ts:30 | the hex string has no hyphens |
| Strings.BmpCodeUnits | src/lib/utils/mandelbrot.ts:33-36 | text without characters above U+FFFF has one UTF-16 code unit per character, equal to its code point |
| Strings.CodeUnitsAppend | src/lib/utils/mandelbrot.ts:33-36 | the UTF-16 encoding of a concatenation is the concatenation of the encodings |
| Julia.SliceMatchesCodeUnits | src/lib/utils/mandelbrot.ts:33-36 | on text without characters above U+FFFF, the model's character slice is exactly JavaScript's code-unit slice |
| Julia.AstralShiftsSecondGroup | src/lib/utils/mandelbrot.ts:34 | a character above U+FFFF among the first eight makes JavaScript's second group start with a low surrogate, while the character slice starts at the next character |
| Julia.GroupFraction | src/lib/utils/mandelbrot.ts:33-36 | a group's fraction is NaN exactly when `parseInt` finds no hex numeral in the group; otherwise it lies in [-1, 1], and in [0, 1] for text without `-` (every hex string the UUID yields) |
| Julia.ParsedWithin | src/lib/utils/mandelbrot.ts:33-36 | a number parsed from at most w characters lies within ±(16^w - 1) |
| Julia.BaseIndexAsWritten | src/lib/utils/mandelbrot.ts:52 | `Math.floor(a * 8)` is a valid index for a in [0, 1) and is 8, one past the table, for a = 1 |
| Julia.BaseIndex | src/lib/utils/mandelbrot.ts:52 | the corrected base index is always a valid index into the eight base points, and agrees with the code wherever the code's index is valid |
| Julia.Perturb | src/lib/utils/mandelbrot.ts:55-59 | the perturbed coordinate is NaN exactly when the group is NaN; a group in [0, 1] keeps it within 0.04 of the base point, and one in [-1, 1] within [base - 0.12, base + 0.04] |
| Julia.Hue | src/lib/utils/mandelbrot.ts:62 | the hue is NaN exactly when the group is NaN; a group in [0, 1] gives a hue in [0, 360], and one in [-1, 1] a hue in [-360, 360] |
| Julia.SatBase | src/lib/utils/mandelbrot.ts:65 | the saturation base is NaN exactly when `parseInt` finds no hex numeral in digits 20 to 23; otherwise it lies in [0.1, 0.9], and in [0.5, 0.9] for text without `-` |
| Julia.DeriveFrom | src/lib/utils/mandelbrot.ts:55-67 | each derived parameter is NaN exactly when the group it comes from is NaN, and the saturation base passes through |
| Julia.Derive | src/lib/utils/mandelbrot.ts:55-67 | finite results keep c within [base - 0.12, base + 0.04], the hue in [-360, 360] and the saturation base in [0.1, 0.9]; for text without `-`, c stays within 0.04 of the base point, the hue in [0, 360] and the saturation base in [0.5, 0.9] |
| Julia.UuidToJuliaParamsAsWritten | src/lib/utils/mandelbrot.ts:29-68 | the function as written returns parameters exactly when the first group is a number whose index is in 0..7, and then derives them from that base point |
| Julia.UuidToJuliaParams | src/lib/utils/mandelbrot.ts:29-68 | the corrected function fails exactly when `parseInt` finds no hex numeral in the first group, otherwise uses one of the eight base points, and agrees with the code wherever the code succeeds |
| Julia.BlankLedFirstGroup | src/lib/utils/mandelbrot.ts:29-52 | a first group of a white-space character and seven hex digits is read as a number below 16^7, so both versions succeed with the first base point |
| Julia.BaseIndexExact | src/lib/utils/mandelbrot.ts:33-52 | for a first group of value n the code's index is floor(8n / 0xffffffff), which is valid exactly when n < 0xffffffff |
| Julia.RepeatValue | src/lib/utils/mandelbrot.ts:33 | n copies of a hex digit d are worth d(16^n - 1)/15 |
| Julia.GroupOfHexDigits | src/lib/utils/mandelbrot.ts:33-36 | a group of eight hex digits has fraction value/0xffffffff |
| Julia.FullFirstGroupThrows | src/lib/utils/mandelbrot.ts:52 | a UUID whose first group is `ffffffff` gets fraction 1, base index 8, and makes the code fail, while the corrected function succeeds |
| Julia.CanonicalSlice | src/lib/utils/mandelbrot.ts:33-36 | every slice of a canonical 32-digit hex string is all hex |
| Julia.SatSliceIsLowHalfOfThirdGroup | src/lib/utils/mandelbrot.ts:65 | the saturation digits are the low 16 bits of the third group, and the saturation base is 0.5 + 0.4·value/0xffff |
| Julia.CanonicalParams | src/lib/utils/mandelbrot.ts:29-68 | for a canonical UUID all four parameters are finite; the code succeeds exactly when the first group is not `ffffffff`, and then the base point is number floor(8n / 0xffffffff) |
| Julia.ZerosValue | src/lib/utils/mandelbrot.ts:33-36 | a run of zeros is hex with value 0 |
| Julia.ZeroGroup | src/lib/utils/mandelbrot.ts:33-36 | every group of the nil UUID has fraction 0 |
| Julia.ZeroDigitsDerive | src/lib/utils/mandelbrot.ts:55-67 | the nil UUID, derived from the first base point, gives c = (-0.84, 0.116), hue 0 and saturation base 0.5 |
| Julia.DeriveOfZeroGroups | src/lib/utils/mandelbrot.ts:55-67 | groups of value 0 and a saturation base of 0.5 move both components of any base point down by 0.04, with hue 0 |
| Julia.NilUuidParams | src/lib/utils/mandelbrot.ts:29-68 | the nil UUID maps to c = (-0.84, 0.116), hue 0 and saturation base 0.5 in both versions |
| Julia.FirstEscape | src/lib/utils/mandelbrot.ts:78-92 | the first escaping iteration is found when there is one before the budget, and none escapes before it |
| Julia.EscapeFromOrbit | src/lib/utils/mandelbrot.ts:74-94 | the loop, started at any point of the orbit, returns the value of the orbit's first escape from there on |
| Julia.JuliaIter | src/lib/utils/mandelbrot.ts:74-94 | `juliaIter` always returns a finite number; Julia.JuliaIterFirstEscape ties it to the first escaping iterate of the orbit |
| Julia.JuliaIterFirstEscape | src/lib/utils/mandelbrot.ts:74-94 | `juliaIter` returns i + 1 - nu at the first escape, and maxIter when the orbit stays bounded |
| Julia.EscapeBelowBudget | src/lib/utils/mandelbrot.ts:74-94 | with a positive smoothing term, `juliaIter` never exceeds maxIter, and reaches it exactly when no iterate escapes |
| Julia.InsideTint | src/lib/utils/mandelbrot.ts:106-110 | each of the three channels of the inside-set tint is NaN exactly for a NaN hue, and for hues in [0, 360] lies within [15, 25] × [12, 20] × [20, 25] |
| Julia.RoundBetween | src/lib/utils/mandelbrot.ts:109 | rounding a value between two integers stays between them |
| Julia.InsideTintAtHueZero | src/lib/utils/mandelbrot.ts:109 | hue 0 gives the tint (15, 12, 20) |
| Julia.IterToColor | src/lib/utils/mandelbrot.ts:100-148 | `iterToColor`, characterised by Julia.InsideColourDependsOnHueOnly: from the budget on it is the hue's inside tint, otherwise the HSL sweep `outside` |
| Julia.InsideColourDependsOnHueOnly | src/lib/utils/mandelbrot.ts:100-110 | every point that reaches the budget gets the same colour, the hue's inside tint, whatever its iteration count, saturation or outside colouring |
| Julia.PixelColor | src/lib/utils/mandelbrot.ts:171-179 | the colour the loop computes for a pixel, `iterToColor` of `juliaIter` at its viewport point; RenderCache.ImagePixels states that the image stores it |
| Julia.PixelCoord | src/lib/utils/mandelbrot.ts:168-176 | every pixel maps into the viewport [-1.5, 1.5) |
| PixelBuffer.PixelInBounds | src/lib/utils/mandelbrot.ts:181-185 | the four bytes of every pixel lie inside the buffer |
| PixelBuffer.DecodeIndex | src/lib/utils/mandelbrot.ts:181 | a byte index determines its pixel's column, row and channel |
| PixelBuffer.IndexDecomposes | src/lib/utils/mandelbrot.ts:181 | every byte of the buffer belongs to exactly one pixel and channel |
| PixelBuffer.ExpectedAt | src/lib/utils/mandelbrot.ts:181-185 | the byte expected at a pixel's channel is that channel of the pixel's colour |
| PixelBuffer.Layout | src/lib/utils/mandelbrot.ts:171-187 | a buffer holding the expected byte everywhere stores every pixel's colour at its place |
| PixelBuffer.WritePixel | src/lib/utils/mandelbrot.ts:181-185 | the inner loop body writes the four expected bytes of one pixel and changes no other byte |
| PixelBuffer.FillPixels | src/lib/utils/mandelbrot.ts:164-187 | the loop produces 4·size² bytes and stores each pixel's red, green, blue and an opaque alpha at (py·size + px)·4 |
| RenderCache.CacheKey | src/lib/utils/mandelbrot.ts:155 | every cache key starts with `julia-` |
| RenderCache.SplitLastHyphen | src/lib/utils/mandelbrot.ts:155 | a string ending in a hyphen and a hyphen-free suffix splits uniquely |
| RenderCache.CacheKeyInjective | src/lib/utils/mandelbrot.ts:155 | different (uuid, size, maxIter) triples never share a cache key |
| RenderCache.Lookup | src/lib/utils/mandelbrot.ts:156-157 | a cache hit is a stored, non-empty URL for the key; an empty stored URL counts as a miss |
| RenderCache.Admit | src/lib/utils/mandelbrot.ts:192-197 | after storing, the key maps to the new URL; below the limit nothing is evicted; every other key keeps its URL, except the oldest key of a full cache |
| RenderCache.AdmitValid | src/lib/utils/mandelbrot.ts:192-197 | storing keeps the keys distinct and non-empty, and the cache at most 100 entries |
| RenderCache.AdmitEvictsOldest | src/lib/utils/mandelbrot.ts:192-197 | storing a new key in a full cache drops exactly the oldest key, appends the new one, and keeps every other key's URL |
| RenderCache.FillKeepsNewest | src/lib/utils/mandelbrot.ts:192-197 | rendering distinct keys one after another leaves exactly the last 100 of them, oldest first |
| RenderCache.Image | src/lib/utils/mandelbrot.ts:164-187 | the finished canvas has 4·size² bytes; RenderCache.ImagePixels states that each pixel holds its colour |
| RenderCache.ImagePixels | src/lib/utils/mandelbrot.ts:171-187 | the rendered image stores every pixel's colour at its place |
| RenderCache.RenderMandelbrot | src/lib/utils/mandelbrot.ts:154-200 | a hit returns the cached URL and leaves the cache unchanged; a failure of `uuidToJuliaParams` as written (so also a first group of `ffffffff`) or an empty canvas is an error that leaves it unchanged; otherwise the image holds every pixel's colour, its encoding is returned, and it is cached with the oldest entry evicted from a full cache; the cache stays valid |
| RenderCache.MandelbrotBackground | src/lib/utils/mandelbrot.ts:206-209 | a hit gives the cached URL in `url(...)`; a miss renders the image from the parameters as written, wraps its encoding in `url(...)` and caches it; the render errors pass through |
| OpenApi.MethodIndex | src/lib/openapi/utils.ts:7 | every method has a position in the method order |
| OpenApi.MethodOrderIsPermutation | src/lib/openapi/utils.ts:7 | the method order lists each of the eight methods exactly once |
| OpenApi.MakeEndpoint | src/lib/openapi/utils.ts:23-33 | an endpoint's id is `method-path`, and its tags are the operation's or `['default']` |
| OpenApi.MethodsFrom | src/lib/openapi/utils.ts:19-34 | the endpoints of one path are exactly its defined operations, in method order |
| OpenApi.EntryEndpoints | src/lib/openapi/utils.ts:16-34 | a path entry yields endpoints of that path only, in method order |
| OpenApi.PathsEndpointsMembers | src/lib/openapi/utils.ts:12-38 | an endpoint is extracted exactly when some path defines that method with that operation |
| OpenApi.PathIndex | src/lib/openapi/utils.ts:16 | finds the first entry with a given path |
| OpenApi.PathsEndpointsPaths | src/lib/openapi/utils.ts:12-38 | every extracted endpoint belongs to a listed path |
| OpenApi.PathsEndpointsOrdered | src/lib/openapi/utils.ts:12-38 | endpoints come out ordered by path position, then by method order |
| OpenApi.OrderedConcat | src/lib/openapi/utils.ts:16-35 | the first path's endpoints followed by the rest's stay in emission order |
| OpenApi.ExtractEndpoints | src/lib/openapi/utils.ts:12-38 | `extractEndpoints` gives no endpoints for a document without paths; its members are characterised by OpenApi.PathsEndpointsMembers and its order by OpenApi.ExtractEndpointsOrdered |
| OpenApi.ExtractEndpointsOrdered | src/lib/openapi/utils.ts:12-38 | `extractEndpoints` emits endpoints in path order, then method order, and treats missing paths as none |
| OpenApi.Copies | src/lib/openapi/utils.ts:57-61 | n copies of an endpoint |
| OpenApi.AddToTagsGet | src/lib/openapi/utils.ts:57-61 | adding one endpoint under its tags appends it to each tag's list once per occurrence of the tag |
| OpenApi.AddToTagsHas | src/lib/openapi/utils.ts:57-61 | a tag is present afterwards exactly when it was before or the endpoint lists it |
| OpenApi.AddToTagsValid | src/lib/openapi/utils.ts:57-61 | the tag map keeps distinct keys |
| OpenApi.GroupAllValid | src/lib/openapi/utils.ts:56-62 | grouping keeps distinct tags |
| OpenApi.GroupAllGet | src/lib/openapi/utils.ts:56-62 | each tag's list is the endpoints that list it, in input order |
| OpenApi.GroupAllHas | src/lib/openapi/utils.ts:56-62 | a tag has a group exactly when some endpoint lists it |
| OpenApi.ListedCons | src/lib/openapi/utils.ts:56-57 | a tag is listed by a list of endpoints exactly when the first or a later endpoint lists it |
| OpenApi.SelectNonEmpty | src/lib/openapi/utils.ts:56-62 | a tag's list is non-empty exactly when some endpoint lists it |
| OpenApi.SelectContains | src/lib/openapi/utils.ts:56-62 | an endpoint that lists a tag appears in that tag's list |
| OpenApi.CountPositive | src/lib/openapi/utils.ts:57 | a tag occurs a positive number of times exactly when it is listed |
| OpenApi.DescriptionMapGet | src/lib/openapi/utils.ts:48-53 | a named tag's description is the last one given for it, empty when absent |
| OpenApi.ToGroups | src/lib/openapi/utils.ts:65-72 | one group per map entry, in order, with the tag's description |
| OpenApi.BeforeIsStrictTotalOrder | src/lib/openapi/utils.ts:75-79 | the comparator, with 'default' last, is a strict total order when `localeCompare` is |
| OpenApi.Insert | src/lib/openapi/utils.ts:75-79 | insertion adds exactly the one group |
| OpenApi.SortGroups | src/lib/openapi/utils.ts:75-79 | sorting permutes the groups |
| OpenApi.InsertSorted | src/lib/openapi/utils.ts:75-79 | inserting into a sorted list keeps it sorted |
| OpenApi.SortGroupsSorted | src/lib/openapi/utils.ts:75-79 | sorting groups with distinct tags yields a sorted list |
| OpenApi.UnsortedGroups | src/lib/openapi/utils.ts:43-72 | before sorting, tags are distinct, each group holds exactly its tag's endpoints and description, and the tags are exactly the listed ones |
| OpenApi.SortKeepsGroups | src/lib/openapi/utils.ts:75-79 | sorting neither loses nor invents groups |
| OpenApi.GroupEndpointsByTag | src/lib/openapi/utils.ts:43-82 | `groupEndpointsByTag`, characterised by OpenApi.GroupEndpointsByTagSpec (one sorted group per listed tag with its endpoints and description) and OpenApi.DefaultGroupLast |
| OpenApi.GroupEndpointsByTagSpec | src/lib/openapi/utils.ts:43-82 | the result has one group per listed tag, holds that tag's endpoints in input order with its description, and is sorted |
| OpenApi.DescriptionMapNoEmpty | src/lib/openapi/utils.ts:50 | tags without a name get no description |
| OpenApi.DefaultGroupLast | src/lib/openapi/utils.ts:74-79 | a 'default' group is always the last group |
| OpenApi.MethodColor | src/lib/openapi/utils.ts:87-102 | the muted colour goes exactly to HEAD, OPTIONS and TRACE |
| OpenApi.MethodBgColor | src/lib/openapi/utils.ts:107-122 | the tertiary background goes exactly to HEAD, OPTIONS and TRACE |
| OpenApi.ColoursDistinguishCommonMethods | src/lib/openapi/utils.ts:87-122 | GET, POST, PUT, DELETE and PATCH get pairwise different colours and backgrounds |
| OpenApi.ColourTablesAgree | src/lib/openapi/utils.ts:87-122 | the text-colour and background switches group the methods the same way: equal colours exactly when equal backgrounds |
| OpenApi.GetApiInfo | src/lib/openapi/utils.ts:127-138 | missing title and version default to 'API Documentation' and '1.0.0'; the description passes through |
| Assets.DefaultAssetsWellFormed | src/lib/stores/assets.svelte.ts:59-95 | the 30 built-in assets are keyed by their own symbols, and an asset is fiat exactly when it has no CoinGecko image |
| Assets.DefaultAssetsValid | src/lib/stores/assets.svelte.ts:59-95 | the built-in symbols are distinct |
| Assets.ValidByKeys | src/lib/stores/assets.svelte.ts:131 | a registry keyed by a list of distinct keys has distinct keys |
| Assets.InitialRegistry | src/lib/stores/assets.svelte.ts:126-133 | the registry `setAssetContext` starts from, characterised by Assets.InitialRegistryGet (last custom entry wins, defaults kept unless overridden) |
| Assets.InitialRegistryGet | src/lib/stores/assets.svelte.ts:126-133 | a symbol's initial format is its last custom entry; otherwise none when overriding, else the built-in one |
| Assets.SetAssetContext | src/lib/stores/assets.svelte.ts:125-182 | `setAssetContext` makes a writable registry |
| Assets.SetAssetContextGet | src/lib/stores/assets.svelte.ts:125-133 | with options left out, custom assets default to none and overriding to false; lookups then follow the initial-registry rule |
| Assets.LastValueOfMap | src/lib/stores/assets.svelte.ts:131 | in a registry with distinct keys, the last entry for a key is the key's entry |
| Assets.GetInit | src/lib/stores/assets.svelte.ts:170-172 | a later entry for another key does not change a lookup |
| Assets.GetFormat | src/lib/stores/assets.svelte.ts:136-139 | a registered symbol is found as written; otherwise its upper-cased form is looked up |
| Assets.HasAsset | src/lib/stores/assets.svelte.ts:161-163 | `has`, which Assets.HasIffFormat states holds exactly when `getFormat` finds something |
| Assets.HasIffFormat | src/lib/stores/assets.svelte.ts:161-163 | `has` holds exactly when `getFormat` finds something |
| Assets.GetIconUrl | src/lib/stores/assets.svelte.ts:141-155 | unknown symbols have no icon; a non-empty custom URL wins; without one, a non-fiat asset with a non-zero image id gets its CDN URL and every other asset has none |
| Assets.GetUnicode | src/lib/stores/assets.svelte.ts:157-159 | a unicode symbol is returned exactly when the format exists and has one |
| Assets.Symbols | src/lib/stores/assets.svelte.ts:175-177 | `symbols()` lists exactly the registered symbols, one per entry in registry order, without repeats in a registry with distinct keys |
| Assets.FallbackFinds | src/lib/stores/assets.svelte.ts:189-199 | without a context, every built-in symbol finds its built-in format |
| Assets.FallbackIcons | src/lib/stores/assets.svelte.ts:200-211 | without a context, every built-in crypto or stablecoin has its CDN icon at the chosen size (small by default), and every built-in fiat has no icon but a unicode symbol |
| Assets.IconOfFormat | src/lib/stores/assets.svelte.ts:141-159 | for a format with no custom URL or an empty one, a non-fiat asset with a non-zero image id gets the CDN URL, fiat gets none, and the unicode is the format's |
| Assets.DefaultAssetsFields | src/lib/stores/assets.svelte.ts:59-95 | built-in assets have no custom URL; fiat ones have a unicode symbol; the others have a positive image id and a CoinGecko id |
| Assets.Register | src/lib/stores/assets.svelte.ts:165-167 | registering sets the asset under its symbol, changes no other symbol, and appends new symbols; the fallback ignores it |
| Assets.RegisterMany | src/lib/stores/assets.svelte.ts:169-173 | `registerMany` keeps a writable context writable and leaves the fallback as it is; Assets.RegisterManyGet states what each symbol then holds |
| Assets.RegisterManyGet | src/lib/stores/assets.svelte.ts:169-173 | after registering a list, each symbol holds the list's last asset with that symbol, else its old format; the fallback ignores it |
| Assets.RegisterManyValid | src/lib/stores/assets.svelte.ts:169-173 | registering a list keeps symbols distinct |
| Assets.GetDefaultDecimals | src/lib/stores/assets.svelte.ts:233-244 | 8 decimals exactly for crypto, 2 otherwise |
| Theme.FindIndex | src/lib/stores/theme.svelte.ts:512 | `findIndex` returns the first position with the id, or none when no entry has it |
| Theme.Find | src/lib/stores/theme.svelte.ts:298-336 | `find` returns a table entry with the id, or none exactly when no entry has it |
| Theme.FindOwnId | src/lib/stores/theme.svelte.ts:298-306 | in a table with distinct ids, an entry's own id finds that entry |
| Theme.TablesHaveDistinctIds | src/lib/stores/theme.svelte.ts:232-272 | the four preset tables have distinct, non-empty ids |
| Theme.StoredMode | src/lib/stores/theme.svelte.ts:293-296 | the stored mode is any non-empty stored text, otherwise 'dark' |
| Theme.StoredChoice | src/lib/stores/theme.svelte.ts:298-336 | a stored id that names a table entry selects it; an empty, missing or unknown id gives the default |
| Theme.StoredFlag | src/lib/stores/theme.svelte.ts:282-291 | a stored flag is on exactly when the stored text is 'true' |
| Theme.FlagString | src/lib/stores/theme.svelte.ts:549-554 | `String(enabled)` reads back as the same flag |
| Theme.NewThemeStore | src/lib/stores/theme.svelte.ts:338-345 | the constructor, whose state is Theme.Init of its storage and which Theme.NewStoreReloads shows agrees with what that storage reads back |
| Theme.Init | src/lib/stores/theme.svelte.ts:338-345 | a new store picks table entries; with no storage it is dark, the first accent, cozy, grid pulse, medium, with nebula and solid text off |
| Theme.Colors | src/lib/stores/theme.svelte.ts:347 | the dark colours are used exactly in mode 'dark' |
| Theme.SetMode | src/lib/stores/theme.svelte.ts:471-476 | `setMode` changes the mode and nothing else |
| Theme.ToggleMode | src/lib/stores/theme.svelte.ts:478-480 | `toggleMode` switches between dark and light, changes nothing else, and switches the colour table |
| Theme.SetAccent | src/lib/stores/theme.svelte.ts:482-487 | `setAccent` changes the accent and nothing else |
| Theme.SetAccentById | src/lib/stores/theme.svelte.ts:489-494 | an unknown id changes nothing; a known id selects the palette entry with that id and changes nothing else |
| Theme.SetUiScale | src/lib/stores/theme.svelte.ts:496-501 | `setUiScale` changes the scale and nothing else |
| Theme.SetUiScaleById | src/lib/stores/theme.svelte.ts:503-508 | an unknown id changes nothing; a known id selects the preset with that id and changes nothing else |
| Theme.ScaleIndex | src/lib/stores/theme.svelte.ts:510-513 | the slider index is the preset position of the current scale's id, or -1 when no preset has it |
| Theme.SetUiScaleByIndex | src/lib/stores/theme.svelte.ts:515-519 | a NaN index or one outside [0, 4) changes nothing; a whole index selects that preset; a fractional one stores an undefined scale, which throws when storage exists |
| Theme.ScaleIndexAfterSet | src/lib/stores/theme.svelte.ts:510-519 | after selecting a whole index on the slider the slider shows that index; an index off the slider leaves the store unchanged |
| Theme.SetBgEffect | src/lib/stores/theme.svelte.ts:521-526 | `setBgEffect` changes the effect and nothing else |
| Theme.SetBgEffectById | src/lib/stores/theme.svelte.ts:528-533 | an unknown id changes nothing; a known id selects that effect |
| Theme.SetBgQuality | src/lib/stores/theme.svelte.ts:535-540 | `setBgQuality` changes the quality and nothing else |
| Theme.SetBgQualityById | src/lib/stores/theme.svelte.ts:542-547 | an unknown id changes nothing; a known id selects that preset |
| Theme.SetNebula | src/lib/stores/theme.svelte.ts:549-554 | `setNebula` changes the nebula flag and nothing else |
| Theme.ToggleNebula | src/lib/stores/theme.svelte.ts:556-558 | `toggleNebula` negates the flag and changes nothing else |
| Theme.SetSolidText | src/lib/stores/theme.svelte.ts:560-565 | `setSolidText` changes the flag and nothing else |
| Theme.ToggleSolidText | src/lib/stores/theme.svelte.ts:567-569 | `toggleSolidText` negates the flag and changes nothing else |
| Theme.ToggleModeTwice | src/lib/stores/theme.svelte.ts:478-480 | toggling a dark or light store twice restores it |
| Theme.NewStoreReloads | src/lib/stores/theme.svelte.ts:338-345 | a fresh store agrees with what it would read back from its storage |
| Theme.ModeSettersKeepConsistent | src/lib/stores/theme.svelte.ts:471-480 | setting a non-empty mode, or toggling, writes storage that reads back as the new state |
| Theme.ChoiceOfOwnId | src/lib/stores/theme.svelte.ts:298-336 | a stored entry's own id reads back as that entry |
| Theme.AccentRestored | src/lib/stores/theme.svelte.ts:482-487 | storing a palette accent reads back as that accent |
| Theme.ScaleRestored | src/lib/stores/theme.svelte.ts:496-501 | storing a preset scale reads back as that scale |
| Theme.EffectRestored | src/lib/stores/theme.svelte.ts:521-526 | storing an effect reads back as that effect |
| Theme.QualityRestored | src/lib/stores/theme.svelte.ts:535-540 | storing a quality preset reads back as that preset |
| Theme.AccentSettersKeepConsistent | src/lib/stores/theme.svelte.ts:482-494 | setting a palette accent, directly or by id, keeps storage and state in agreement |
| Theme.ScaleSettersKeepConsistent | src/lib/stores/theme.svelte.ts:496-519 | setting the scale by id, or by any index that does not fail, keeps storage and state in agreement |
| Theme.BackgroundSettersKeepConsistent | src/lib/stores/theme.svelte.ts:521-547 | setting the effect or quality by id keeps storage and state in agreement |
| Theme.FlagTogglesKeepConsistent | src/lib/stores/theme.svelte.ts:549-569 | the nebula and solid-text toggles keep storage and state in agreement |
| Theme.ScaledSizes | src/lib/stores/theme.svelte.ts:357-379 | the six spacings, six font sizes and three radii, each its base times the scale rounded to the nearest integer |
| Theme.ScaleAll | src/lib/stores/theme.svelte.ts:357-379 | every scaled size is its base times the scale, rounded to the nearest integer |
| Theme.ScaleAllByOne | src/lib/stores/theme.svelte.ts:357-379 | scale 1 keeps every base size |
| Theme.CozySizes | src/lib/stores/theme.svelte.ts:357-379 | the cozy preset renders the base sizes unchanged |
| Theme.ScaleAllMonotone | src/lib/stores/theme.svelte.ts:357-379 | a larger scale never gives a smaller size |
| Theme.CompactSpacing | src/lib/stores/theme.svelte.ts:357-364 | the compact preset's spacing is 2, 4, 7, 11, 14, 21 |
| Routes.DropLeadingHyphen | apps/demo/src/lib/routes.ts:200 | removes one leading hyphen, if there is one |
| Routes.CommandId | apps/demo/src/lib/routes.ts:200 | an id has no slash; it is the href with each slash made a hyphen, minus one leading slash or hyphen |
| Routes.SlashSegment | apps/demo/src/lib/routes.ts:200 | a slash before a slash-free segment becomes a hyphen |
| Routes.OneSegmentId | apps/demo/src/lib/routes.ts:200 | `/a` has id `a` |
| Routes.TwoSegmentId | apps/demo/src/lib/routes.ts:200 | `/a/b` has id `a-b` |
| Routes.RootId | apps/demo/src/lib/routes.ts:200 | the root page has the empty id |
| Routes.InstallId | apps/demo/src/lib/routes.ts:200 | the installation page has id `docs-install` |
| Routes.ToCommandItem | apps/demo/src/lib/routes.ts:199-206 | an item keeps its caption, href and shortcut, takes the section title as group, and uses the section icon when it has none |
| Routes.SectionItems | apps/demo/src/lib/routes.ts:199-206 | a section yields one command per item, in order |
| Routes.CommandItems | apps/demo/src/lib/routes.ts:197-208 | the flattened list has one command per navigation item |
| Routes.GetCommandItems | apps/demo/src/lib/routes.ts:34-208 | the command palette lists 82 commands |
| Routes.SectionSizes | apps/demo/src/lib/routes.ts:34-194 | the navigation has 13 sections holding 82 items |
| Routes.SectionSizesMatch | apps/demo/src/lib/routes.ts:34-194 | the per-section item counts match the table of sizes |
| Routes.SumOfSectionSizes | apps/demo/src/lib/routes.ts:34-194 | the section sizes add up to 82 |
| Routes.ItemCountBySizes | apps/demo/src/lib/routes.ts:198 | the total item count is the sum of the section sizes |
| Routes.CommandItemAt | apps/demo/src/lib/routes.ts:198-206 | item k of section s is the command at position (items before s) + k |
| Routes.CommandItemFrom | apps/demo/src/lib/routes.ts:198-206 | every command comes from some section's item |
| Routes.IdsHaveNoSlash | apps/demo/src/lib/routes.ts:200 | no command id contains a slash |
| CodeBlocks.EscapeTemplateLiteral | apps/demo/svelte.config.js:23-25 | `escapeTemplateLiteral`, characterised by CodeBlocks.EscapeIsPerCharacter (a per-character escape), CodeBlocks.UnescapeEscape (a template literal reads it back as the input) and CodeBlocks.EscapeInjective |
| CodeBlocks.EscapeChar | apps/demo/svelte.config.js:24 | a backslash, backtick or dollar gets one backslash before it; other characters stay |
| CodeBlocks.EscapeOneChar | apps/demo/svelte.config.js:24 | the three passes escape a single character as `EscapeChar` does |
| CodeBlocks.EscapeIsPerCharacter | apps/demo/svelte.config.js:23-25 | the three replace passes together escape each character independently |
| CodeBlocks.EscapeLength | apps/demo/svelte.config.js:23-25 | escaping adds one character per backslash, backtick or dollar |
| CodeBlocks.EscapeEachLength | apps/demo/svelte.config.js:23-25 | the per-character escaping adds one character per special character |
| CodeBlocks.Unescape | apps/demo/svelte.config.js:56-62 | reading a template literal back never makes it longer |
| CodeBlocks.UnescapeEscape | apps/demo/svelte.config.js:23-25 | reading an escaped string back as a template literal gives the original |
| CodeBlocks.UnescapeEscapeEach | apps/demo/svelte.config.js:23-25 | the same round trip for the per-character form |
| CodeBlocks.EscapeInjective | apps/demo/svelte.config.js:23-25 | different strings escape differently |
| CodeBlocks.EscapedSpecialsArePreceded | apps/demo/svelte.config.js:23-25 | every backtick or dollar in the escaped text follows a backslash, so none can end the literal or open a substitution |
| CodeBlocks.FirstQuote | apps/demo/svelte.config.js:52 | finds the first double quote, or none when there is none |
| CodeBlocks.TitleAt | apps/demo/svelte.config.js:52 | a title match at a position is a non-empty, quote-free value enclosed in `title="…"` there |
| CodeBlocks.FindTitleFrom | apps/demo/svelte.config.js:52 | the search returns the match at some position from i on, or none when no position has one |
| CodeBlocks.TitleProp | apps/demo/svelte.config.js:52-53 | the title prop is empty exactly when the meta string has no title match |
| CodeBlocks.TitleFoundIff | apps/demo/svelte.config.js:52 | a title is found exactly when `title="x"` occurs with x non-empty and quote-free |
| CodeBlocks.TitleFromMatch | apps/demo/svelte.config.js:52 | at a position where `title="x"` occurs, the match is x |
| CodeBlocks.PreviewElement | apps/demo/svelte.config.js:56-58 | the preview element starts with `<ComponentPreview` |
| CodeBlocks.Highlight | apps/demo/svelte.config.js:31-63 | the language defaults to 'text'; a block not marked preview becomes `{@html` around the escaped highlighted HTML; a preview block becomes a `<ComponentPreview` element |
| CodeBlocks.PlainBlockRoundTrip | apps/demo/svelte.config.js:45-62 | reading the plain block's template literal back gives exactly the highlighted HTML |
| CodeBlocks.PreviewIff | apps/demo/svelte.config.js:48-62 | the output is a preview element exactly when the meta string mentions 'preview' |
| CodeBlocks.PreviewParts | apps/demo/svelte.config.js:56-58 | where each part of the preview element sits |
| CodeBlocks.PreviewEmbedsCode | apps/demo/svelte.config.js:49-58 | the preview's `code` prop reads back as the code, its `lang` attribute is the language, and the element ends with the raw code and the closing tag |
| Privacy.Enabled | src/lib/stores/privacy.svelte.ts:59-72 | the fallback context is never enabled |
| Privacy.SetPrivacyContext | src/lib/stores/privacy.svelte.ts:35-36 | a new context starts disabled |
| Privacy.Toggle | src/lib/stores/privacy.svelte.ts:42-44 | `toggle` negates a provided context and does nothing to the fallback |
| Privacy.Set | src/lib/stores/privacy.svelte.ts:45-47 | `set` stores the value in a provided context and does nothing to the fallback |
| Privacy.ToggleTwice | src/lib/stores/privacy.svelte.ts:42-44 | toggling twice restores the context |
| Privacy.ToggleIsSetNegation | src/lib/stores/privacy.svelte.ts:42-47 | toggling is setting the negation; after set(v) a toggle leaves a provided context at not-v |
| Privacy.FallbackStaysDisabled | src/lib/stores/privacy.svelte.ts:62-68 | whatever calls are made on the fallback, it stays the disabled fallback |
| Privacy.MasksAreBullets | src/lib/stores/privacy.svelte.ts:75-78 | the masks are five and three bullets, the short one a prefix of the long one |
| Formatting.BrowserLocale | src/lib/stores/formatting.svelte.ts:45-50 | a non-empty navigator language is used; anything else gives 'en-US' |
| Formatting.QuoteCurrency | src/lib/stores/formatting.svelte.ts:84-98 | the fallback's quote currency is 'USD' |
| Formatting.Locale | src/lib/stores/formatting.svelte.ts:64-66 | the `locale` getter, whose value Formatting.SetFormattingContext, Formatting.GetFallback and Formatting.SetLocale state |
| Formatting.SetFormattingContext | src/lib/stores/formatting.svelte.ts:56-58 | given options are used as they are, even empty ones; missing ones default to 'USD' and the browser locale |
| Formatting.GetFallback | src/lib/stores/formatting.svelte.ts:84-98 | without a context, the currency is 'USD' and the locale is the browser's |
| Formatting.SetQuoteCurrency | src/lib/stores/formatting.svelte.ts:67-69 | sets a provided context's currency and keeps its locale; the fallback is unchanged |
| Formatting.SetLocale | src/lib/stores/formatting.svelte.ts:70-72 | sets a provided context's locale and keeps its currency; the fallback is unchanged |
| Formatting.SettersCommute | src/lib/stores/formatting.svelte.ts:67-72 | the two setters commute, and a second call of a setter overrides the first |
| Formatting.DefaultsAgree | src/lib/stores/formatting.svelte.ts:56-91 | with no options and no navigator, a new context and the fallback both report 'USD' and 'en-US' |

## Left out

- Canvas, `toDataURL` and PNG encoding: the data URL is a parameter `encode` of the rendered bytes.
- The floating-point logarithm in `juliaIter`'s smooth colouring (mandelbrot.ts:84-86) is a parameter `nu`. All other arithmetic is on exact reals, not IEEE doubles.
- The HSL branch of `iterToColor` (mandelbrot.ts:112-148) is a parameter `outside`. Only the inside-set tint is modelled.
- `createImageData(0, 0)` throwing is modelled as an `IndexSizeError` result. Sizes are natural numbers, so fractional or negative sizes are not modelled.
- RenderCache.RenderMandelbrot: `size` and `maxIter` are natural numbers. A fractional or negative budget, such as 2.5, which the loop runs three times and writes into the key as "2.5", is not modelled, because the rendering functions are stated over whole iteration counts.
- RenderCache.MandelbrotBackground: `size` is a natural number for the same reason.
- Julia.JuliaIterFirstEscape: the budget `maxIter` is a natural number, as in `RenderCache.RenderMandelbrot`. A fractional budget, for which `i < maxIter` admits one more iteration than its floor, is not modelled.
- `parseInt(s, 16)` is modelled with only the steps a base-16 call takes. Digits are read into an exact integer, with no rounding to a double for more than 13 digits.
- `localeCompare` is an abstract strict total order parameter. The browser's collation is not modelled.
- Julia.GroupFraction: strings are sequences of code points, while `slice` counts UTF-16 code units. On text with a character above U+FFFF the groups differ from JavaScript's, as Julia.AstralShiftsSecondGroup shows. Julia.SliceMatchesCodeUnits proves they agree on all other text, including every hex UUID.
- Julia.SatBase: the same code-point slicing of digits 20 to 23, exact only on text without characters above U+FFFF.
- Julia.UuidToJuliaParamsAsWritten: its success condition is stated over code-point slices, which match JavaScript's only on text without characters above U+FFFF.
- Julia.UuidToJuliaParams: the same code-point slicing as the as-written version.
- `toUpperCase` maps only ASCII letters. Other Unicode case mappings are not modelled.
- `Object.entries` orders integer-like keys first in JavaScript. The model keeps the insertion order of custom assets.
- `setContext`, `getContext` and Svelte reactivity: a context is a value passed explicitly. `console.warn` in the fallbacks is not modelled.
- Theme: the CSS text of `generateCssVars`, the colour tables (only the choice between dark and light is modelled) and the nebula gradient are not modelled. Window detection is folded into an absent storage.
- `localStorage` is the `Stored` record of the seven keys. Only what the store writes and reads back is modelled.
- The icon components of the navigation table are their names as strings.
- The shiki highlighter is the parameter `codeToHtml`. Its lazy creation and the mdsvex options other than the highlighter are not modelled.
- CodeBlocks.Highlight: for a preview block its own contract states only the element's opening. The content is stated by CodeBlocks.PreviewEmbedsCode. The `highlightedHtml` prop and the title prop's exact place are not stated.

## Findings

| source | as written | input that shows it | evidently intended | confidence | as-written member | corrected member |
|---|---|---|---|---|---|---|
| src/lib/utils/mandelbrot.ts:52 | the index `Math.floor(a * cValues.length)` is 8 when `a == 1`, so `cValues[8]` is undefined and reading `baseC.re` throws a TypeError | a UUID whose first group is `ffffffff`, e.g. `ffffffff-0000-0000-0000-000000000000` | every UUID maps to Julia parameters, as the comments at lines 4-5 and 26-27 say, so the index stays in 0..7 (the last base point for `a == 1`) | not executed | Julia.UuidToJuliaParamsAsWritten, Julia.FullFirstGroupThrows | Julia.UuidToJuliaParams |
