/** The privacy context (src/lib/stores/privacy.svelte.ts): one flag that
    components read to mask sensitive values, and the masks they show. */
module Privacy {

  /** A context made by `setPrivacyContext`, or the fallback that
      `getPrivacyContext` returns when none was provided. */
  datatype PrivacyContext = Provided(flag: bool) | Fallback

  /** `enabled`: the fallback is never enabled. */
  function Enabled(ctx: PrivacyContext): (b: bool)
    ensures ctx.Fallback? ==> !b
  {
    match ctx
    case Provided(f) => f
    case Fallback => false
  }

  /** `setPrivacyContext()`: a new context starts disabled. */
  function SetPrivacyContext(): (ctx: PrivacyContext)
    ensures ctx.Provided? && !Enabled(ctx)
  {
    Provided(false)
  }

  /** `toggle()`: negates the flag of a provided context; the fallback's
      toggle does nothing. */
  function Toggle(ctx: PrivacyContext): (r: PrivacyContext)
    ensures ctx.Provided? ==> r.Provided? && Enabled(r) == !Enabled(ctx)
    ensures ctx.Fallback? ==> r == ctx
  {
    match ctx
    case Provided(f) => Provided(!f)
    case Fallback => Fallback
  }

  /** `set(value)`: a provided context takes the value; the fallback's set
      does nothing. */
  function Set(ctx: PrivacyContext, value: bool): (r: PrivacyContext)
    ensures ctx.Provided? ==> r.Provided? && Enabled(r) == value
    ensures ctx.Fallback? ==> r == ctx
  {
    match ctx
    case Provided(_) => Provided(value)
    case Fallback => Fallback
  }

  /** Toggling twice restores any context. */
  lemma ToggleTwice(ctx: PrivacyContext)
    ensures Toggle(Toggle(ctx)) == ctx
  {
  }

  /** Toggling a provided context is setting it to the other value, and a
      set followed by a toggle lands on the negated value. */
  lemma ToggleIsSetNegation(ctx: PrivacyContext, value: bool)
    ensures Toggle(ctx) == Set(ctx, !Enabled(ctx))
    ensures Enabled(Toggle(Set(ctx, value))) == (ctx.Provided? && !value)
  {
  }

  /** A call on the context: `toggle()` or `set(value)`. */
  datatype Call = ToggleCall | SetCall(value: bool)

  /** The context after a sequence of calls. */
  function Apply(ctx: PrivacyContext, ops: seq<Call>): PrivacyContext {
    if ops == [] then ctx
    else
      var before := Apply(ctx, ops[..|ops| - 1]);
      match ops[|ops| - 1]
      case ToggleCall => Toggle(before)
      case SetCall(v) => Set(before, v)
  }

  /** The fallback stays disabled whatever is done to it. */
  lemma {:induction false} FallbackStaysDisabled(ops: seq<Call>)
    ensures Enabled(Apply(Fallback, ops)) == false
    ensures Apply(Fallback, ops) == Fallback
  {
    if ops != [] {
      FallbackStaysDisabled(ops[..|ops| - 1]);
    }
  }

  /** `PRIVACY_MASK` and `PRIVACY_MASK_SHORT`: five and three bullets. */
  const PrivacyMask: string := "•••••"
  const PrivacyMaskShort: string := "•••"

  /** Both masks are runs of bullets, the short one a prefix of the long one. */
  lemma MasksAreBullets()
    ensures |PrivacyMask| == 5 && |PrivacyMaskShort| == 3
    ensures forall i :: 0 <= i < |PrivacyMask| ==> PrivacyMask[i] == '•'
    ensures PrivacyMaskShort == PrivacyMask[..3]
  {
  }
}
