/**
 * Message catalogue and language helpers (src/translations.py).
 *
 * `MESSAGES` maps each supported language to a table of templates. What
 * decides every lookup is which message names each table defines, so the
 * model keeps those key sets exactly; the wording of a template is the
 * parameter `wording(lang, key)`, and `str.format` interpolation is the
 * parameter `format`.
 */
module Translations {
  import opened Wrappers
  import opened Strings

  const SupportedLanguages: set<string> := {"en", "it"}
  const DefaultLanguage: string := "en"

  /** The messages of the catalogue, one per name. The `"en"` and the
      `"it"` table define exactly these 53 names, from `not_authorized` to
      `summary_more`, in this order. */
  datatype Message =
      NotAuthorized | StartFirst | OperationCancelled | TimedOut | InvalidChoice | NumberOutOfRange
    | Welcome | AddChannelPrompt | InvalidInviteLink | InvalidChannelId | ScanningMessages
    | BackfillMatches | BackfillNoMatches | NoChannels | YourChannels | WatchAskProduct
    | WatchAskPrice | WatchInvalidPrice | WatchAskCategory | WatchAlreadyMonitoring
    | WatchSuggestPrice | WatchActive | NoProducts | NoProductsShort | YourProducts | UnwatchPrompt
    | Unwatched | HistoryPrompt | HistoryEmpty | HistoryHeader | Paused | Resumed | StatsHeader
    | StatsProducts | StatsChannels | StatsMatches | StatsTopProduct | StatsTopChannel
    | StatsLastMatch | CategoriesHeader | Uncategorized | NotifyMatch | NotifyPriceLine
    | NotifyLinkLine | NotifyBackfillMatch | NotifyBackfillPriceLine | JoinChannelSuccess
    | JoinChannelFailed | LeaveChannelSuccess | LeaveChannelFailed | SummaryHeader | SummaryProduct
    | SummaryMore

  /** The name `t` is called with: one the catalogue defines, or another
      string, which no table holds. `Uncatalogued` is only for the names
      that neither table defines; a name that the tables do define is always
      written as `Catalogued` with its message. */
  datatype Key = Catalogued(message: Message) | Uncatalogued(name: string)

  // ---------------------------------------------------------------------
  // resolve_lang

  /** `lang_code[:2]` */
  function Take2(s: string): (r: string)
    ensures |r| <= 2 && |r| <= |s| && r == s[..|r|]
  {
    if |s| <= 2 then assert s[..|s|] == s; s else s[..2]
  }

  /** `resolve_lang`: no code gives the default; otherwise the first two
      characters, lower-cased, if that is a supported language, else the
      default. */
  function ResolveLang(code: Option<string>): (r: string)
    ensures r in SupportedLanguages
    ensures code.Some? && Lower(Take2(code.value)) in SupportedLanguages ==> r == Lower(Take2(code.value))
    ensures r != DefaultLanguage ==> code.Some? && r == Lower(Take2(code.value))
  {
    if code.None? || code.value == "" then DefaultLanguage
    else
      var short := Lower(Take2(code.value));
      if short in SupportedLanguages then short else DefaultLanguage
  }

  /** A resolved language resolves to itself. */
  lemma ResolveLangIdempotent(code: Option<string>)
    ensures ResolveLang(Some(ResolveLang(code))) == ResolveLang(code)
  {
    var r := ResolveLang(code);
    assert Take2(r) == r;
    assert Lower(r) == r by {
      assert r == "en" || r == "it";
    }
  }

  /** "it-IT" and "IT" are Italian, "fr" and a missing code are English. */
  lemma ResolveLangExamples()
    ensures ResolveLang(Some("it-IT")) == "it"
    ensures ResolveLang(Some("IT")) == "it"
    ensures ResolveLang(Some("fr")) == "en"
    ensures ResolveLang(None) == "en"
  {
    assert Take2("it-IT") == "it";
    assert Lower("it") == "it";
    assert Lower("IT") == "it";
    assert Lower("fr") == "fr";
  }

  // ---------------------------------------------------------------------
  // t

  /** A keyword argument of `t`. */
  datatype Value = Text(s: string) | Number(n: int) | Cents(c: int)

  /** The keyword arguments of `t`, in order. */
  type Args = seq<(string, Value)>

  /** `MESSAGES.get(lang, MESSAGES["en"])`: the table of a supported
      language, else the English one. */
  function Table(lang: string): (r: string)
    ensures r in SupportedLanguages
    ensures lang in SupportedLanguages <==> r == lang
  {
    if lang in SupportedLanguages then lang else DefaultLanguage
  }

  /** The wording of each table, and `str.format`, which the rest of the
      bot receives together. */
  datatype Catalogue = Catalogue(wording: (string, Message) -> string,
                                 format: (string, Args) -> string)

  /** `str.format` gives back a template without braces unchanged, whatever
      the arguments are: such a template has no field to replace. */
  ghost predicate FormatKeepsPlain(cat: Catalogue) {
    forall template, args ::
      '{' !in template && '}' !in template ==> cat.format(template, args) == template
  }

  /** The template `t` formats: the table's wording of a catalogued
      message, or the name itself for any other. Since both tables define
      the same names, the fallback to the English table for a name missing
      from the other one never applies. */
  function Template(key: Key, lang: string, cat: Catalogue): string {
    match key
    case Catalogued(m) => cat.wording(Table(lang), m)
    case Uncatalogued(name) => name
  }

  /** `t(key, lang, **kwargs)`: the template, formatted only when there are
      arguments. */
  function T(key: Key, lang: string, args: Args, cat: Catalogue): (r: string)
    ensures args == [] ==> r == Template(key, lang, cat)
    ensures args != [] ==> r == cat.format(Template(key, lang, cat), args)
  {
    var template := Template(key, lang, cat);
    if args == [] then template else cat.format(template, args)
  }

  /** An unsupported language reads exactly like English. */
  lemma UnsupportedIsEnglish(key: Key, lang: string, args: Args, cat: Catalogue)
    requires lang !in SupportedLanguages
    ensures T(key, lang, args, cat) == T(key, DefaultLanguage, args, cat)
  {
  }

  /** A supported language uses its own wording of every catalogued
      message. */
  lemma SupportedUsesOwnTable(m: Message, lang: string, cat: Catalogue)
    requires lang in SupportedLanguages
    ensures T(Catalogued(m), lang, [], cat) == cat.wording(lang, m)
  {
  }

  /** A name no table defines is shown as itself, in every language: as it
      is without arguments, and whatever the arguments are when the name has
      no braces for `str.format` to fill. */
  lemma MissingKeyIsItsName(name: string, lang: string, args: Args, cat: Catalogue)
    ensures T(Uncatalogued(name), lang, [], cat) == name
    ensures FormatKeepsPlain(cat) && '{' !in name && '}' !in name ==>
      T(Uncatalogued(name), lang, args, cat) == name
  {
    if FormatKeepsPlain(cat) && '{' !in name && '}' !in name && args != [] {
      assert cat.format(name, args) == name;
    }
  }
}
