/** The formatting context (src/lib/stores/formatting.svelte.ts): the quote
    currency and locale that numeric displays fall back on. */
module Formatting {
  import opened Wrappers

  const DefaultQuoteCurrency: string := "USD"
  const DefaultLocale: string := "en-US"

  /** `getBrowserLocale()`: `navigator.language` when there is a navigator
      and its language is non-empty, otherwise 'en-US'. `language` is None
      where there is no navigator. */
  function BrowserLocale(language: Option<string>): (l: string)
    ensures l != []
    ensures language.Some? && language.value != [] ==> l == language.value
    ensures l != DefaultLocale ==> language == Some(l)
  {
    if language.Some? && language.value != [] then language.value else DefaultLocale
  }

  datatype FormattingOptions = FormattingOptions(quoteCurrency: Option<string>, locale: Option<string>)

  /** A context made by `setFormattingContext`, or the fallback of
      `getFormattingContext`, which reports the browser locale at the time it
      was asked for. */
  datatype FormattingContext =
    | Provided(currency: string, localeName: string)
    | Fallback(browserLocale: string)

  function QuoteCurrency(ctx: FormattingContext): (c: string)
    ensures ctx.Fallback? ==> c == DefaultQuoteCurrency
  {
    match ctx
    case Provided(c, _) => c
    case Fallback(_) => DefaultQuoteCurrency
  }

  function Locale(ctx: FormattingContext): string {
    match ctx
    case Provided(_, l) => l
    case Fallback(l) => l
  }

  /** `setFormattingContext(options)`: each option as given (`??` keeps an
      empty string), otherwise 'USD' and the browser locale. */
  function SetFormattingContext(options: FormattingOptions, language: Option<string>): (ctx: FormattingContext)
    ensures ctx.Provided?
    ensures options.quoteCurrency.Some? ==> QuoteCurrency(ctx) == options.quoteCurrency.value
    ensures options.quoteCurrency.None? ==> QuoteCurrency(ctx) == DefaultQuoteCurrency
    ensures options.locale.Some? ==> Locale(ctx) == options.locale.value
    ensures options.locale.None? ==> Locale(ctx) == BrowserLocale(language)
  {
    Provided(options.quoteCurrency.GetOr(DefaultQuoteCurrency),
             if options.locale.Some? then options.locale.value else BrowserLocale(language))
  }

  /** `getFormattingContext()` when no context was provided. */
  function GetFallback(language: Option<string>): (ctx: FormattingContext)
    ensures QuoteCurrency(ctx) == DefaultQuoteCurrency && Locale(ctx) == BrowserLocale(language)
  {
    Fallback(BrowserLocale(language))
  }

  /** `setQuoteCurrency(currency)`: changes the currency of a provided
      context and nothing else; the fallback's setter does nothing. */
  function SetQuoteCurrency(ctx: FormattingContext, currency: string): (r: FormattingContext)
    ensures ctx.Provided? ==> QuoteCurrency(r) == currency
    ensures Locale(r) == Locale(ctx)
    ensures ctx.Fallback? ==> r == ctx
  {
    match ctx
    case Provided(_, l) => Provided(currency, l)
    case Fallback(_) => ctx
  }

  /** `setLocale(locale)`: changes the locale of a provided context and
      nothing else; the fallback's setter does nothing. */
  function SetLocale(ctx: FormattingContext, locale: string): (r: FormattingContext)
    ensures ctx.Provided? ==> Locale(r) == locale
    ensures QuoteCurrency(r) == QuoteCurrency(ctx)
    ensures ctx.Fallback? ==> r == ctx
  {
    match ctx
    case Provided(c, _) => Provided(c, locale)
    case Fallback(_) => ctx
  }

  /** The two setters act on separate fields, so they commute, and a setter
      applied twice keeps the last value. */
  lemma SettersCommute(ctx: FormattingContext, currency: string, locale: string, other: string)
    ensures SetLocale(SetQuoteCurrency(ctx, currency), locale) == SetQuoteCurrency(SetLocale(ctx, locale), currency)
    ensures SetQuoteCurrency(SetQuoteCurrency(ctx, other), currency) == SetQuoteCurrency(ctx, currency)
    ensures SetLocale(SetLocale(ctx, other), locale) == SetLocale(ctx, locale)
  {
  }

  /** With no options and no navigator, a new context reports 'USD' and
      'en-US', just like the fallback. */
  lemma DefaultsAgree()
    ensures var ctx := SetFormattingContext(FormattingOptions(None, None), None);
      QuoteCurrency(ctx) == "USD" && Locale(ctx) == "en-US"
    ensures QuoteCurrency(GetFallback(None)) == "USD" && Locale(GetFallback(None)) == "en-US"
  {
  }
}
