/**
 * The decision logic of the bot's command handlers (src/bot_commands.py):
 * who may use the bot, how a channel reference typed by the user is
 * normalised and classified, how cancel and skip words and menu numbers
 * are read, how a watch is added, how a channel is unlinked, and how the
 * category listing is built. The conversations themselves (prompts,
 * timeouts, replies) are not part of this module.
 */
module BotCommands {
  import opened Wrappers
  import opened Strings
  import opened Translations
  import opened Models
  import opened Collections
  import opened Config
  import opened ClientCommands

  // ---------------------------------------------------------------------
  // _is_authorized

  /** `_is_authorized(user_id)`: everybody when the allow-list is empty,
      otherwise exactly the listed ids; an unknown sender is not listed. */
  function IsAuthorized(allowed: seq<nat>, userId: Option<int>): (r: bool)
    ensures allowed == [] ==> r
    ensures allowed != [] ==> (r <==> userId.Some? && userId.value in allowed)
  {
    allowed == [] || (userId.Some? && userId.value in allowed)
  }

  /** With `ALLOWED_USERS` unset or empty the bot serves everyone; with the
      ids written as a comma-separated list, exactly those ids. */
  lemma AuthorizedByEnvironment(ids: seq<nat>, userId: int)
    ensures IsAuthorized(AllowedUsers(None), Some(userId))
    ensures IsAuthorized(AllowedUsers(Some(Join(IdTexts(ids), ','))), Some(userId)) <==>
            ids == [] || userId in ids
  {
    NoAllowList();
    AllowedUsersRoundTrip(ids);
  }

  // ---------------------------------------------------------------------
  // add_channel_command: normalising and classifying the identifier

  /** The link prefixes `add_channel_command` strips, in the order tried. */
  const UrlPrefixes: seq<string> := ["https://t.me/", "http://t.me/", "https://telegram.me/",
                                     "http://telegram.me/", "t.me/", "telegram.me/",
                                     "tg://resolve?domain="]

  /** `txt` without the first of `prefixes` it starts with, if any. */
  function StripFirstPrefix(txt: string, prefixes: seq<string>): (r: string)
    ensures |r| <= |txt| && r == txt[|txt| - |r|..]
  {
    if prefixes == [] then txt
    else if StartsWith(txt, prefixes[0]) then txt[|prefixes[0]|..]
    else StripFirstPrefix(txt, prefixes[1..])
  }

  /** Without a matching prefix the text is kept. */
  lemma {:induction false} StripFirstPrefixNone(txt: string, prefixes: seq<string>)
    requires forall j :: 0 <= j < |prefixes| ==> !StartsWith(txt, prefixes[j])
    ensures StripFirstPrefix(txt, prefixes) == txt
    decreases |prefixes|
  {
    if prefixes != [] {
      assert !StartsWith(txt, prefixes[0]);
      assert forall j :: 0 <= j < |prefixes| - 1 ==> prefixes[1..][j] == prefixes[j + 1];
      StripFirstPrefixNone(txt, prefixes[1..]);
    }
  }

  /** The first matching prefix, at index `i`, is the one removed. */
  lemma {:induction false} StripFirstPrefixAt(txt: string, prefixes: seq<string>, i: nat)
    requires i < |prefixes| && StartsWith(txt, prefixes[i])
    requires forall j :: 0 <= j < i ==> !StartsWith(txt, prefixes[j])
    ensures StripFirstPrefix(txt, prefixes) == txt[|prefixes[i]|..]
    decreases i
  {
    if i > 0 {
      assert !StartsWith(txt, prefixes[0]);
      assert prefixes[1..][i - 1] == prefixes[i];
      StripFirstPrefixAt(txt, prefixes[1..], i - 1);
    }
  }

  /** The `for p in prefixes: ... break` loop. */
  method StripPrefixLoop(txt: string, prefixes: seq<string>) returns (r: string)
    ensures r == StripFirstPrefix(txt, prefixes)
  {
    r := txt;
    var i := 0;
    while i < |prefixes|
      invariant 0 <= i <= |prefixes|
      invariant r == txt
      invariant StripFirstPrefix(txt, prefixes) == StripFirstPrefix(txt, prefixes[i..])
    {
      assert prefixes[i..][1..] == prefixes[i + 1..];
      if StartsWith(txt, prefixes[i]) {
        r := txt[|prefixes[i]|..];
        break;
      }
      i := i + 1;
    }
  }

  /** The identifier after normalisation: one of `prefixes` off, then one
      leading "@", then surrounding whitespace. */
  function Normalized(identifier: string, prefixes: seq<string>): (r: string)
    ensures |r| <= |identifier|
  {
    var txt := StripFirstPrefix(identifier, prefixes);
    var bare := if |txt| > 0 && txt[0] == '@' then txt[1..] else txt;
    Strip(bare)
  }

  /** The normalisation of `add_channel_command`, on the reply already
      stripped. */
  function NormalizedIdentifier(identifier: string): (r: string)
    ensures |r| <= |identifier|
  {
    Normalized(identifier, UrlPrefixes)
  }

  /** A bare name, without link prefix, "@" or surrounding whitespace, is
      left as it is. */
  lemma NormalizedPlain(identifier: string, prefixes: seq<string>)
    requires forall j :: 0 <= j < |prefixes| ==> !StartsWith(identifier, prefixes[j])
    requires identifier == [] || (identifier[0] != '@' && !IsSpace(identifier[0]) && !IsSpace(identifier[|identifier| - 1]))
    ensures Normalized(identifier, prefixes) == identifier
  {
    StripFirstPrefixNone(identifier, prefixes);
  }

  /** After the first matching link prefix, one "@" is dropped as well. */
  lemma NormalizedAfterPrefix(prefixes: seq<string>, i: nat, name: string)
    requires i < |prefixes|
    requires forall j :: 0 <= j < i ==> !StartsWith(prefixes[i] + ['@'] + name, prefixes[j])
    ensures Normalized(prefixes[i] + ['@'] + name, prefixes) == Strip(name)
  {
    var s := prefixes[i] + ['@'] + name;
    assert StripFirstPrefix(s, prefixes) == ['@'] + name by {
      assert s[..|prefixes[i]|] == prefixes[i];
      StripFirstPrefixAt(s, prefixes, i);
      assert s[|prefixes[i]|..] == ['@'] + name;
    }
    assert (['@'] + name)[1..] == name;
  }

  /** The code's normalisation steps in order. */
  method NormalizeIdentifier(identifier: string) returns (r: string)
    ensures r == NormalizedIdentifier(identifier)
  {
    var txt := StripPrefixLoop(identifier, UrlPrefixes);
    if |txt| > 0 && txt[0] == '@' {
      txt := txt[1..];
    }
    r := Strip(txt);
  }

  /** `[a-zA-Z0-9_-]` */
  predicate IsHashChar(c: char) {
    IsLetter(c) || IsDigit(c) || c == '_' || c == '-'
  }

  /** `[a-zA-Z0-9_]` */
  predicate IsNameChar(c: char) {
    IsLetter(c) || IsDigit(c) || c == '_'
  }

  /** `_INVITE_HASH_RE.match(h)`: `^[a-zA-Z0-9_-]+$` */
  predicate IsInviteHash(h: string) {
    |h| > 0 && forall k :: 0 <= k < |h| ==> IsHashChar(h[k])
  }

  /** `_CHANNEL_RE.match(s)`: `^[a-zA-Z][a-zA-Z0-9_]{3,31}$` */
  predicate IsChannelName(s: string) {
    4 <= |s| <= 32 && IsLetter(s[0]) && forall k :: 1 <= k < |s| ==> IsNameChar(s[k])
  }

  const InvitePrefix: string := "joinchat/"

  /** What `add_channel_command` does with a normalised identifier. */
  datatype AddTarget = Cancelled | JoinInvite(hash: string) | JoinName(name: string) | BadInvite | BadName

  /** A leading "+" or "joinchat/" makes the rest an invite hash; a
      non-empty hash must match the invite pattern, and an empty one falls
      through to the channel-name pattern. */
  function Classify(identifier: string): (r: AddTarget)
    ensures !r.Cancelled?
  {
    var hash :=
      if StartsWith(identifier, "+") then Some(identifier[1..])
      else if StartsWith(identifier, InvitePrefix) then Some(identifier[|InvitePrefix|..])
      else None;
    if Truthy(hash) then
      if IsInviteHash(hash.value) then JoinInvite(hash.value) else BadInvite
    else if IsChannelName(identifier) then JoinName(identifier)
    else BadName
  }

  /** A name is joined by username exactly when it matches the channel
      pattern, which neither "+" nor "joinchat/" can start. */
  lemma JoinNameExactly(identifier: string)
    ensures Classify(identifier).JoinName? <==> IsChannelName(identifier)
    ensures Classify(identifier).JoinName? ==> Classify(identifier).name == identifier
  {
    if IsChannelName(identifier) {
      assert !IsNameChar('/');
      if |identifier| >= |InvitePrefix| {
        assert identifier[..|InvitePrefix|][8] == identifier[8];
        assert identifier[..|InvitePrefix|] != InvitePrefix;
      }
    }
  }

  /** An invite is joined only with a valid, non-empty hash that follows
      "+" or "joinchat/". */
  lemma JoinInviteExactly(identifier: string)
    ensures Classify(identifier).JoinInvite? <==>
      (StartsWith(identifier, "+") && IsInviteHash(identifier[1..]))
      || (!StartsWith(identifier, "+") && StartsWith(identifier, InvitePrefix)
          && IsInviteHash(identifier[|InvitePrefix|..]))
    ensures Classify(identifier).JoinInvite? ==>
      identifier == "+" + Classify(identifier).hash || identifier == InvitePrefix + Classify(identifier).hash
  {
    var r := Classify(identifier);
    if r.JoinInvite? {
      if StartsWith(identifier, "+") {
        assert identifier == identifier[..1] + identifier[1..];
      } else {
        assert identifier == identifier[..|InvitePrefix|] + identifier[|InvitePrefix|..];
      }
    }
  }

  /** "+" and "joinchat/" alone carry an empty hash, fall through to the
      channel-name pattern and are refused as channel names. */
  lemma EmptyHashRefused(identifier: string)
    requires identifier == "+" || identifier == InvitePrefix
    ensures Classify(identifier) == BadName
  {
    if identifier == InvitePrefix {
      assert identifier[0] == 'j';
      assert identifier[|InvitePrefix|..] == [];
      assert identifier[8] == '/' && !IsNameChar(identifier[8]);
    }
  }

  /** The reply to the `/add_channel` prompt, stripped: a cancel word
      ends the command, anything else is normalised and classified. */
  function AddChannelTarget(reply: string): (r: AddTarget)
    ensures r.Cancelled? <==> IsCancel(Strip(reply))
  {
    var identifier := Strip(reply);
    if IsCancel(identifier) then Cancelled else Classify(NormalizedIdentifier(identifier))
  }

  // ---------------------------------------------------------------------
  // Cancel and skip words, menu choices

  const CancelWords: set<string> := {"/cancel", "cancel", "/annulla", "annulla"}
  const SkipWords: set<string> := {"/skip", "skip", "/salta", "salta"}

  /** `text.lower() in _CANCEL_KEYWORDS` */
  predicate IsCancel(text: string) {
    Lower(text) in CancelWords
  }

  /** `text.lower() in _SKIP_KEYWORDS` */
  predicate IsSkip(text: string) {
    Lower(text) in SkipWords
  }

  /** Case does not matter: a reply and its lower-case form are both
      cancel words or neither is. */
  lemma CancelIgnoresCase(text: string)
    ensures IsCancel(text) <==> IsCancel(Lower(text))
    ensures IsSkip(text) <==> IsSkip(Lower(text))
  {
    LowerIdempotent(text);
  }

  /** The outcome of reading a menu reply against a list of `n` items. */
  datatype Choice = Chosen(index: nat) | NotANumber | OutOfRange

  /** `idx = int(choice) - 1`, then the range check: a non-integer is
      "invalid_choice", an integer outside 1..n is "number_out_of_range". */
  function ParseChoice(choice: string, n: nat): (r: Choice)
    ensures r.NotANumber? <==> ParseInt(choice).None?
    ensures r.Chosen? <==> ParseInt(choice).Some? && 1 <= ParseInt(choice).value <= n
    ensures r.Chosen? ==> r.index < n && r.index + 1 == ParseInt(choice).value
  {
    match ParseInt(choice)
    case None => NotANumber
    case Some(v) =>
      var idx := v - 1;
      if idx < 0 || idx >= n then OutOfRange else Chosen(idx)
  }

  /** Typing the number shown in front of an item selects that item. */
  lemma ChoiceRoundTrip(k: nat, n: nat)
    requires k < n
    ensures ParseChoice(NatToString(k + 1), n) == Chosen(k)
  {
    ParseIntOfToString(k + 1);
  }

  /** Zero and numbers past the list are out of range, not invalid. */
  lemma ChoiceOutOfRange(v: int, n: nat)
    requires v < 1 || v > n
    ensures ParseChoice(IntToString(v), n) == OutOfRange
  {
    ParseIntOfToString(v);
  }

  // ---------------------------------------------------------------------
  // watch_command: the stored product

  /** The category typed: none for a skip word, else lower-cased. */
  function CategoryOf(text: string): (r: Option<string>)
    ensures r.None? <==> IsSkip(text)
    ensures r.Some? ==> r.value == Lower(text)
  {
    if IsSkip(text) then None else Some(Lower(text))
  }

  /** The user already watches a product stored under `name`. */
  predicate Watches(products: seq<Product>, userId: int, name: string) {
    exists p :: p in products && p.userId == userId && p.name == name
  }

  /** The primary key of the next product row. */
  function NextProductId(products: seq<Product>): (id: nat)
    ensures forall i :: 0 <= i < |products| ==> products[i].id < id
  {
    if products == [] then 1
    else
      var rest := NextProductId(products[1..]);
      if products[0].id < rest then rest else products[0].id + 1
  }

  /** The products table after `/watch name`: unchanged when the user
      already watches the lower-cased name, else with one new row for it. */
  function WatchProducts(products: seq<Product>, userId: int, name: string, target: Option<int>,
                         category: Option<string>, now: string): (r: seq<Product>)
  {
    var lower := Lower(name);
    if Watches(products, userId, lower) then products
    else products + [Product(NextProductId(products), userId, lower, target, category, now)]
  }

  /** A watch adds a row exactly when the lower-cased name is new for the
      user; the row holds the lower-cased name, and the keys stay unique. */
  lemma WatchFacts(products: seq<Product>, userId: int, name: string, target: Option<int>,
                   category: Option<string>, now: string)
    requires UniqueProducts(products)
    ensures var r := WatchProducts(products, userId, name, target, category, now);
      && UniqueProducts(r)
      && Watches(r, userId, Lower(name))
      && (Watches(products, userId, Lower(name)) <==> r == products)
      && (r != products ==> r == products[..] + [r[|r| - 1]] && r[|r| - 1].name == Lower(name)
                             && r[|r| - 1].userId == userId && r[|r| - 1].targetPrice == target
                             && r[|r| - 1].category == category)
  {
    var r := WatchProducts(products, userId, name, target, category, now);
    if !Watches(products, userId, Lower(name)) {
      var p := r[|r| - 1];
      assert p in r;
      forall i, j | 0 <= i < j < |r|
        ensures r[i].id != r[j].id && (r[i].userId != r[j].userId || r[i].name != r[j].name)
      {
        if j == |r| - 1 {
          assert r[i] in products;
        }
      }
    } else {
      assert r == products;
    }
  }

  /** Watching the same name again in another case is refused, while a
      second user may watch it. */
  lemma WatchIgnoresCase(products: seq<Product>, userId: int, other: int, name: string, again: string,
                         target: Option<int>, category: Option<string>, now: string)
    requires UniqueProducts(products)
    requires Lower(again) == Lower(name)
    ensures var r := WatchProducts(products, userId, name, target, category, now);
      WatchProducts(r, userId, again, target, category, now) == r
    ensures other != userId && !Watches(products, other, Lower(name)) ==>
      var r := WatchProducts(products, userId, name, target, category, now);
      WatchProducts(r, other, again, target, category, now) != r
  {
    WatchFacts(products, userId, name, target, category, now);
    var r := WatchProducts(products, userId, name, target, category, now);
    if other != userId && !Watches(products, other, Lower(name)) {
      assert !Watches(r, other, Lower(again)) by {
        forall p | p in r ensures !(p.userId == other && p.name == Lower(again)) {
          if p !in products {
            assert p == r[|r| - 1];
          }
        }
      }
    }
  }

  /** The end of `watch_command`: the duplicate check and the insert.
      Returns whether the product was added. */
  method Watch(db: Database, userId: int, name: string, target: Option<int>, category: Option<string>,
               now: string) returns (added: bool)
    requires db.Valid()
    modifies db
    ensures db.Valid()
    ensures added <==> !Watches(old(db.products), userId, Lower(name))
    ensures db.products == WatchProducts(old(db.products), userId, name, target, category, now)
    ensures db.users == old(db.users) && db.channels == old(db.channels)
    ensures db.memberships == old(db.memberships) && db.history == old(db.history)
  {
    WatchFacts(db.products, userId, name, target, category, now);
    var lower := Lower(name);
    added := !Watches(db.products, userId, lower);
    if added {
      db.products := db.products + [Product(NextProductId(db.products), userId, lower, target, category, now)];
    }
  }

  // ---------------------------------------------------------------------
  // remove_channel_command: unlinking the chosen channel

  /** `ms` without its first occurrence of `m`, if any. */
  function RemoveFirst(ms: seq<Membership>, m: Membership): (r: seq<Membership>)
    ensures |r| <= |ms|
  {
    if ms == [] then []
    else if ms[0] == m then ms[1..]
    else [ms[0]] + RemoveFirst(ms[1..], m)
  }

  /** With the pair key unique, removing the link removes exactly that
      pair: every other membership, of this user or another, stays. */
  lemma {:induction false} RemoveFirstExact(ms: seq<Membership>, m: Membership)
    requires UniqueMemberships(ms)
    ensures UniqueMemberships(RemoveFirst(ms, m))
    ensures forall x :: x in RemoveFirst(ms, m) <==> x in ms && x != m
    decreases |ms|
  {
    if ms != [] {
      assert UniqueMemberships(ms[1..]) by {
        forall i, j | 0 <= i < j < |ms[1..]| ensures ms[1..][i] != ms[1..][j] {
          assert ms[1..][i] == ms[i + 1] && ms[1..][j] == ms[j + 1];
        }
      }
      assert forall x :: x in ms <==> x == ms[0] || x in ms[1..];
      if ms[0] != m {
        RemoveFirstExact(ms[1..], m);
        var r := RemoveFirst(ms, m);
        assert ms[0] !in ms[1..] by {
          forall k | 0 <= k < |ms[1..]| ensures ms[1..][k] != ms[0] {
            assert ms[1..][k] == ms[k + 1];
          }
        }
        forall i, j | 0 <= i < j < |r| ensures r[i] != r[j] {
          if i == 0 {
            assert r[j] in RemoveFirst(ms[1..], m);
          } else {
            assert r[i] == RemoveFirst(ms[1..], m)[i - 1] && r[j] == RemoveFirst(ms[1..], m)[j - 1];
          }
        }
      } else {
        assert ms[0] !in ms[1..] by {
          forall k | 0 <= k < |ms[1..]| ensures ms[1..][k] != ms[0] {
            assert ms[1..][k] == ms[k + 1];
          }
        }
      }
    }
  }

  /** The delete of `remove_channel_command`: the user's link to the
      channel goes; the channel row and all other links stay. */
  method Unlink(db: Database, userId: int, channelId: nat)
    requires db.Valid()
    modifies db
    ensures db.Valid()
    ensures db.memberships == RemoveFirst(old(db.memberships), Membership(userId, channelId))
    ensures db.users == old(db.users) && db.channels == old(db.channels)
    ensures db.products == old(db.products) && db.history == old(db.history)
  {
    RemoveFirstExact(db.memberships, Membership(userId, channelId));
    db.memberships := RemoveFirst(db.memberships, Membership(userId, channelId));
  }

  /** The numbered menu of `remove_channel_command`: "k. display" for the
      k-th channel row, counting from 1. */
  function MenuLines(rows: seq<Channel>): (r: seq<string>)
    ensures |r| == |rows|
  {
    if rows == [] then []
    else MenuLines(rows[..|rows| - 1]) + [NatToString(|rows|) + ". " + ChannelDisplay(rows[|rows| - 1])]
  }

  /** Line k of the menu shows the number k + 1 and the k-th channel. */
  lemma {:induction false} MenuLinesAt(rows: seq<Channel>)
    ensures forall k :: 0 <= k < |rows| ==>
      MenuLines(rows)[k] == NatToString(k + 1) + ". " + ChannelDisplay(rows[k])
    decreases |rows|
  {
    if rows != [] {
      var init := rows[..|rows| - 1];
      MenuLinesAt(init);
      forall k | 0 <= k < |rows| - 1
        ensures MenuLines(rows)[k] == NatToString(k + 1) + ". " + ChannelDisplay(rows[k])
      {
        assert rows[k] == init[k];
      }
    }
  }

  /** The prompt of `remove_channel_command`. Its key is missing from both
      message tables, so the template is the key's own name, which
      `str.format` is then asked to fill with the menu. */
  function RemovePrompt(rows: seq<Channel>, lang: string, cat: Catalogue): (r: string)
    ensures r == cat.format(RemovePromptKey, [("channels", Text(Join(MenuLines(rows), '\n')))])
  {
    T(Uncatalogued(RemovePromptKey), lang, [("channels", Text(Join(MenuLines(rows), '\n')))], cat)
  }

  const RemovePromptKey: string := "remove_channel_prompt"

  /** The key's name has no field for the menu, so the user is sent the bare
      name `remove_channel_prompt`: no line of the numbered menu, and not even
      a digit, reaches them, whatever channels they follow. */
  lemma RemovePromptIsKey(rows: seq<Channel>, lang: string, cat: Catalogue)
    requires FormatKeepsPlain(cat)
    ensures RemovePrompt(rows, lang, cat) == RemovePromptKey
    ensures forall c :: c in RemovePrompt(rows, lang, cat) ==> !IsDigit(c)
  {
    var args := [("channels", Text(Join(MenuLines(rows), '\n')))];
    assert '{' !in RemovePromptKey && '}' !in RemovePromptKey;
    MissingKeyIsItsName(RemovePromptKey, lang, args, cat);
  }

  /** What `remove_channel_command` does with a reply, given the user's
      channel rows: nothing for a cancel word or a bad number, else the
      chosen row is the one to unlink. */
  function RemoveChoice(rows: seq<Channel>, reply: string): (r: Option<Channel>)
    ensures r.Some? ==> r.value in rows
    ensures r.Some? <==> !IsCancel(reply) && ParseChoice(reply, |rows|).Chosen?
  {
    if IsCancel(reply) then None
    else match ParseChoice(reply, |rows|)
      case Chosen(i) => Some(rows[i])
      case _ => None
  }

  /** Typing the number the menu shows in front of a channel selects that
      channel: no number is a cancel word. */
  lemma MenuNumberSelects(rows: seq<Channel>, k: nat)
    requires k < |rows|
    ensures MenuLines(rows)[k] == NatToString(k + 1) + ". " + ChannelDisplay(rows[k])
    ensures RemoveChoice(rows, NatToString(k + 1)) == Some(rows[k])
  {
    MenuLinesAt(rows);
    var n := NatToString(k + 1);
    assert !IsCancel(n) by {
      assert IsDigit(Lower(n)[0]);
      forall w | w in CancelWords ensures Lower(n) != w {
        assert !IsDigit(w[0]);
      }
    }
    assert ParseChoice(n, |rows|) == Chosen(k) by {
      ChoiceRoundTrip(k, |rows|);
    }
  }

  /** Choosing a channel from the menu removes that channel for this user
      and nothing else. */
  lemma RemoveChosenOnly(memberships: seq<Membership>, channels: seq<Channel>, userId: int, reply: string)
    requires UniqueChannels(channels) && UniqueMemberships(memberships)
    requires RemoveChoice(UserChannels(memberships, channels, userId), reply).Some?
    ensures var ch := RemoveChoice(UserChannels(memberships, channels, userId), reply).value;
      && Membership(userId, ch.id) in memberships
      && forall x :: x in RemoveFirst(memberships, Membership(userId, ch.id)) <==>
                       x in memberships && x != Membership(userId, ch.id)
  {
    var ch := RemoveChoice(UserChannels(memberships, channels, userId), reply).value;
    UserChannelsExact(memberships, channels, userId, ch);
    RemoveFirstExact(memberships, Membership(userId, ch.id));
  }

  // ---------------------------------------------------------------------
  // list_categories_command

  /** `p.category or t("uncategorized", lang)` */
  function CategoryLabel(p: Product, lang: string, cat: Catalogue): (r: string)
    ensures Truthy(p.category) ==> r == p.category.value
    ensures !Truthy(p.category) ==> r == T(Catalogued(Uncategorized), lang, [], cat)
  {
    if Truthy(p.category) then p.category.value else T(Catalogued(Uncategorized), lang, [], cat)
  }

  function LabelKey(lang: string, cat: Catalogue): Product -> string {
    (p: Product) => CategoryLabel(p, lang, cat)
  }

  function GroupKey(g: Group<Product>): string {
    g.key
  }

  /** `sorted(by_category.items())`: the categories in ascending order. */
  function CategoryGroups(products: seq<Product>, lang: string, cat: Catalogue): seq<Group<Product>> {
    SortBy(GroupBy(products, LabelKey(lang, cat)), GroupKey, false)
  }

  /** The lines of one category: its heading and its product names. */
  function CategoryBlock(g: Group<Product>): (r: seq<string>)
    ensures |r| == 1 + |g.items|
  {
    ["\n" + g.key + ":"] + Rendered(g.items, NameLine)
  }

  function NameLine(p: Product): string {
    "  - " + p.name
  }

  function Blocks(gs: seq<Group<Product>>): seq<string> {
    if gs == [] then [] else Blocks(gs[..|gs| - 1]) + CategoryBlock(gs[|gs| - 1])
  }

  /** The reply's lines: the header, then each category in order. */
  function CategoryLines(products: seq<Product>, lang: string, cat: Catalogue): seq<string> {
    [T(Catalogued(CategoriesHeader), lang, [], cat)] + Blocks(CategoryGroups(products, lang, cat))
  }

  /** The categories come sorted, each with exactly the products carrying
      its label, in query order; a product without a category is listed
      under the translated "uncategorized" label. */
  lemma CategoriesFacts(products: seq<Product>, lang: string, cat: Catalogue)
    ensures var gs := CategoryGroups(products, lang, cat);
      && SortedBy(gs, GroupKey, false)
      && multiset(gs) == multiset(GroupBy(products, LabelKey(lang, cat)))
      && (forall g :: g in gs ==> g.items == Matching(products, LabelKey(lang, cat), g.key))
      && (forall p :: p in products ==> CategoryLabel(p, lang, cat) in FirstKeys(products, LabelKey(lang, cat)))
  {
    var key := LabelKey(lang, cat);
    var grouped := GroupBy(products, key);
    var gs := CategoryGroups(products, lang, cat);
    SortByFacts(grouped, GroupKey, false);
    GroupByItems(products, key);
    forall g | g in gs ensures g.items == Matching(products, key, g.key) {
      assert g in multiset(gs);
      assert g in multiset(grouped);
      var i :| 0 <= i < |grouped| && grouped[i] == g;
    }
    forall p | p in products ensures CategoryLabel(p, lang, cat) in FirstKeys(products, key) {
      FirstKeysExact(products, key, CategoryLabel(p, lang, cat));
    }
  }

  /** The reply of `/categories` for a user: "no_products_short" when the
      user watches nothing, else the category lines joined by newlines. */
  function CategoriesReply(products: seq<Product>, userId: int, lang: string, cat: Catalogue): (r: string)
  {
    var mine := ProductsOf(products, userId);
    if mine == [] then T(Catalogued(NoProductsShort), lang, [], cat)
    else Join(CategoryLines(mine, lang, cat), '\n')
  }

  /** The category listing: the user's products grouped into the
      `by_category` dict in query order, then rendered category by
      category in sorted order. */
  method ListCategories(products: seq<Product>, userId: int, lang: string, cat: Catalogue) returns (reply: string)
    ensures reply == CategoriesReply(products, userId, lang, cat)
  {
    var mine := ProductsOf(products, userId);
    if mine == [] {
      return T(Catalogued(NoProductsShort), lang, [], cat);
    }
    var byCategory := CollectGroups(mine, LabelKey(lang, cat));
    var sorted := SortBy(byCategory, GroupKey, false);
    var header := T(Catalogued(CategoriesHeader), lang, [], cat);
    var lines := [header];
    var i := 0;
    while i < |sorted|
      invariant 0 <= i <= |sorted|
      invariant lines == [header] + Blocks(sorted[..i])
    {
      assert sorted[..i + 1][..i] == sorted[..i];
      var g := sorted[i];
      var block := AppendRendered(["\n" + g.key + ":"], g.items, NameLine);
      AppendAssoc([header], Blocks(sorted[..i]), block);
      lines := lines + block;
      i := i + 1;
    }
    assert sorted[..i] == sorted;
    reply := Join(lines, '\n');
  }
}
