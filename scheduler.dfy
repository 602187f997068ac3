/**
 * The daily digest (src/scheduler.py): when the next digest is due, and
 * what each user is sent. Time is local wall-clock seconds counted from
 * a midnight; the ISO-8601 timestamps stored with each match are
 * compared as strings, as the query does.
 */
module Scheduler {
  import opened Wrappers
  import opened Strings
  import opened Translations
  import opened Models
  import opened Collections
  import opened ChannelListener

  const SecondsPerDay: nat := 86400
  const SecondsPerHour: nat := 3600
  const ShownPerProduct: nat := 5
  const UnknownProduct: string := "???"

  // ---------------------------------------------------------------------
  // _loop: the next firing time

  /** One cycle of `_loop`: today at `hour`:00:00, or tomorrow when that
      is not after `now`. `datetime.replace` rejects an hour outside
      0..23, which ends the loop: `None`. */
  function NextFire(now: nat, hour: int): (r: Option<nat>)
    ensures r.None? <==> hour < 0 || hour > 23
    ensures r.Some? ==> now < r.value <= now + SecondsPerDay
    ensures r.Some? ==> r.value % SecondsPerDay == hour * SecondsPerHour
  {
    if hour < 0 || hour > 23 then None
    else
      var day := now / SecondsPerDay;
      var target := day * SecondsPerDay + hour * SecondsPerHour;
      assert target % SecondsPerDay == hour * SecondsPerHour;
      if target <= now then
        assert (target + SecondsPerDay) % SecondsPerDay == hour * SecondsPerHour;
        Some(target + SecondsPerDay)
      else Some(target)
  }

  /** The wait is the shortest one: no earlier instant after `now` falls at
      `hour`:00:00. */
  lemma NextFireEarliest(now: nat, hour: int, t: nat)
    requires 0 <= hour <= 23
    requires now < t < NextFire(now, hour).value
    ensures t % SecondsPerDay != hour * SecondsPerHour
  {
    var r := NextFire(now, hour).value;
    if t % SecondsPerDay == hour * SecondsPerHour {
      assert false;
    }
  }

  // ---------------------------------------------------------------------
  // _send_summaries: one user's digest

  /** `f"{m.price:.2f}" if m.price else "N/A"`, with the price in cents. */
  function PriceText(price: Option<nat>): (r: string)
  {
    if price.None? || price.value == 0 then "N/A"
    else NatToString(price.value / 100) + "." + TwoDigits(price.value % 100)
  }

  /** "N/A" stands exactly for a missing or zero price. */
  lemma PriceTextNotAvailable(price: Option<nat>)
    ensures PriceText(price) == "N/A" <==> price.None? || price.value == 0
  {
    if price.Some? && price.value != 0 {
      var whole := NatToString(price.value / 100);
      var r := PriceText(price);
      if |whole| == 1 {
        assert r[1] == '.';
      } else {
        assert r[1] == whole[1] && IsDigit(r[1]);
      }
    }
  }

  /** A rendered price reads back as its value: whole units, a point and
      two digits of cents. */
  lemma PriceTextValue(price: Option<nat>)
    requires price.Some? && price.value != 0
    ensures var r := PriceText(price);
      exists whole, cents :: r == whole + "." + cents && AllDigits(whole) && AllDigits(cents)
        && |cents| == 2 && DigitsValue(whole) * 100 + DigitsValue(cents) == price.value
  {
    var v := price.value;
    var whole, cents := NatToString(v / 100), TwoDigits(v % 100);
    assert PriceText(price) == whole + "." + cents;
    assert DigitsValue(whole) * 100 + DigitsValue(cents) == v;
  }

  /** One match line: the price, the channel, and a trailing space when
      the match has a link. */
  function ItemLine(h: PriceHistory): string {
    "  " + PriceText(h.price) + " in " + h.channel + (if Truthy(h.messageLink) then " " else "")
  }

  /** The name a match is listed under: its product's, or "???" when no
      product has that id any more. */
  function ProductName(products: seq<Product>, id: nat): (r: string)
    ensures (exists p :: p in products && p.id == id) ==> exists p :: p in products && p.id == id && r == p.name
    ensures (forall p :: p in products ==> p.id != id) ==> r == UnknownProduct
  {
    if products == [] then UnknownProduct
    else if products[0].id == id then assert products[0] in products; products[0].name
    else
      var r := ProductName(products[1..], id);
      assert forall p :: p in products[1..] ==> p in products;
      assert forall p :: p in products && p.id == id ==> p in products[1..];
      r
  }

  /** The key of the `by_product` dict for one match. */
  function NameKey(products: seq<Product>): PriceHistory -> string {
    (h: PriceHistory) => ProductName(products, h.productId)
  }

  function FoundAt(h: PriceHistory): string {
    h.foundAt
  }

  /** The user's matches found since `todayStart`, in table order. */
  function RecentOf(history: seq<PriceHistory>, userId: int, todayStart: string): (r: seq<PriceHistory>)
    ensures |r| <= |history|
    ensures forall h :: h in r <==> h in history && h.userId == userId && StrLe(todayStart, h.foundAt)
  {
    if history == [] then []
    else
      var last := history[|history| - 1];
      var init := RecentOf(history[..|history| - 1], userId, todayStart);
      assert history == history[..|history| - 1] + [last];
      if last.userId == userId && StrLe(todayStart, last.foundAt) then init + [last] else init
  }

  /** The query's result: those matches, newest first. */
  function Entries(history: seq<PriceHistory>, userId: int, todayStart: string): seq<PriceHistory> {
    SortBy(RecentOf(history, userId, todayStart), FoundAt, true)
  }

  /** The entries are the user's matches since `todayStart`, each once,
      ordered from the newest `found_at` to the oldest. */
  lemma EntriesExact(history: seq<PriceHistory>, userId: int, todayStart: string)
    ensures var es := Entries(history, userId, todayStart);
      && multiset(es) == multiset(RecentOf(history, userId, todayStart))
      && (forall i, j :: 0 <= i < j < |es| ==> StrLe(es[j].foundAt, es[i].foundAt))
      && (forall h :: h in es <==> h in history && h.userId == userId && StrLe(todayStart, h.foundAt))
  {
    var rs := RecentOf(history, userId, todayStart);
    var es := Entries(history, userId, todayStart);
    SortByFacts(rs, FoundAt, true);
    forall h ensures h in es <==> h in rs {
      assert h in es <==> h in multiset(es);
      assert h in rs <==> h in multiset(rs);
    }
  }

  /** The lines for one product: its heading, at most five matches, and a
      line counting the rest when there are more than five. */
  function GroupLines(g: Group<PriceHistory>, lang: string, cat: Catalogue): (r: seq<string>)
  {
    [ProductHeading(g, lang, cat)] + ItemLines(Shown(g))
    + (if |g.items| > ShownPerProduct then [MoreLine(g, lang, cat)] else [])
  }

  /** `matches[:5]` */
  function Shown(g: Group<PriceHistory>): (r: seq<PriceHistory>)
    ensures |r| == if |g.items| <= ShownPerProduct then |g.items| else ShownPerProduct
    ensures r == g.items[..|r|]
  {
    if |g.items| <= ShownPerProduct then g.items else g.items[..ShownPerProduct]
  }

  /** The heading of a product: its name and its number of matches. */
  function ProductHeading(g: Group<PriceHistory>, lang: string, cat: Catalogue): string {
    T(Catalogued(SummaryProduct), lang, [("name", Text(g.key)), ("count", Number(|g.items|))], cat)
  }

  /** The line counting the matches not shown. */
  function MoreLine(g: Group<PriceHistory>, lang: string, cat: Catalogue): string {
    T(Catalogued(SummaryMore), lang, [("count", Number(|g.items| - ShownPerProduct))], cat)
  }

  /** The match lines, in order. */
  function ItemLines(ms: seq<PriceHistory>): seq<string> {
    Rendered(ms, ItemLine)
  }

  /** The lines for every product, in the dict's order. */
  function GroupsLines(gs: seq<Group<PriceHistory>>, lang: string, cat: Catalogue): seq<string> {
    if gs == [] then [] else GroupsLines(gs[..|gs| - 1], lang, cat) + GroupLines(gs[|gs| - 1], lang, cat)
  }

  /** The digest's lines: the header with the number of entries, then the
      products in order of first appearance among the entries. */
  function DigestLines(entries: seq<PriceHistory>, products: seq<Product>, lang: string,
                       cat: Catalogue): seq<string>
  {
    [T(Catalogued(SummaryHeader), lang, [("count", Number(|entries|))], cat)]
    + GroupsLines(GroupBy(entries, NameKey(products)), lang, cat)
  }

  /** Each product shows `min(5, n)` match lines, the first ones in entry
      order, under a heading that counts all `n`; a closing line counting
      `n - 5` is there exactly when `n > 5`. */
  lemma GroupLinesShape(g: Group<PriceHistory>, lang: string, cat: Catalogue)
    ensures var r := GroupLines(g, lang, cat);
      var n := |g.items|;
      var shown := if n <= ShownPerProduct then n else ShownPerProduct;
      && |r| == 1 + shown + (if n > ShownPerProduct then 1 else 0)
      && r[0] == ProductHeading(g, lang, cat)
      && (forall k :: 0 <= k < shown ==> r[1 + k] == ItemLine(g.items[k]))
      && (n > ShownPerProduct <==> |r| == 2 + ShownPerProduct)
      && (n > ShownPerProduct ==> r[|r| - 1] == MoreLine(g, lang, cat))
  {
    var ms := Shown(g);
    var items := ItemLines(ms);
    var tail := if |g.items| > ShownPerProduct then [MoreLine(g, lang, cat)] else [];
    assert GroupLines(g, lang, cat) == [ProductHeading(g, lang, cat)] + items + tail;
    RenderedAt(ms, ItemLine);
    LinesShape(ProductHeading(g, lang, cat), items, tail);
    forall k | 0 <= k < |ms| ensures items[k] == ItemLine(g.items[k]) {
      assert ms[k] == g.items[k];
    }
  }

  lemma LinesShape(head: string, items: seq<string>, tail: seq<string>)
    ensures var r := [head] + items + tail;
      && |r| == 1 + |items| + |tail| && r[0] == head
      && (forall k :: 0 <= k < |items| ==> r[1 + k] == items[k])
      && (tail != [] ==> r[|r| - 1] == tail[|tail| - 1])
  {
  }


  /** The products of a digest: each name once, in order of first
      appearance among the (newest-first) entries; each lists exactly the
      entries with that name, in entry order; and the product counts add
      up to the header's count. */
  lemma DigestGroups(entries: seq<PriceHistory>, products: seq<Product>)
    ensures var gs := GroupBy(entries, NameKey(products));
      && DistinctKeys(gs)
      && Keys(gs) == FirstKeys(entries, NameKey(products))
      && (forall i :: 0 <= i < |gs| ==> gs[i].items == Matching(entries, NameKey(products), gs[i].key))
      && Total(gs) == |entries|
  {
    GroupByKeys(entries, NameKey(products));
    GroupByItems(entries, NameKey(products));
    GroupByTotal(entries, NameKey(products));
  }

  /** The message a user gets: none without entries, otherwise the lines
      joined by newlines. */
  function Digest(history: seq<PriceHistory>, products: seq<Product>, userId: int, lang: string,
                  todayStart: string, cat: Catalogue): (r: Option<string>)
    ensures r.None? <==> RecentOf(history, userId, todayStart) == []
  {
    var entries := Entries(history, userId, todayStart);
    if entries == [] then None
    else Some(Join(DigestLines(entries, products, lang, cat), '\n'))
  }

  // ---------------------------------------------------------------------
  // _send_summaries: the loops

  /** `for m in matches[:5]` and the lines around it, for one product. */
  method RenderGroup(g: Group<PriceHistory>, lang: string, cat: Catalogue) returns (lines: seq<string>)
    ensures lines == GroupLines(g, lang, cat)
  {
    var heading := ProductHeading(g, lang, cat);
    lines := AppendRendered([heading], Shown(g), ItemLine);
    var tail := if |g.items| > ShownPerProduct then [MoreLine(g, lang, cat)] else [];
    lines := lines + tail;
  }

  /** The `lines` list of one user's digest: the `by_product` dict is
      filled by `setdefault().append`, then rendered product by product. */
  method RenderDigest(entries: seq<PriceHistory>, products: seq<Product>, lang: string, cat: Catalogue)
    returns (lines: seq<string>)
    ensures lines == DigestLines(entries, products, lang, cat)
  {
    var byProduct := CollectGroups(entries, NameKey(products));
    var header := T(Catalogued(SummaryHeader), lang, [("count", Number(|entries|))], cat);
    lines := [header];
    var i := 0;
    while i < |byProduct|
      invariant 0 <= i <= |byProduct|
      invariant lines == [header] + GroupsLines(byProduct[..i], lang, cat)
    {
      GroupsLinesSnoc(byProduct, i, lang, cat);
      var more := RenderGroup(byProduct[i], lang, cat);
      AppendAssoc([header], GroupsLines(byProduct[..i], lang, cat), more);
      lines := lines + more;
      i := i + 1;
    }
    assert byProduct[..i] == byProduct;
  }

  lemma GroupsLinesSnoc(gs: seq<Group<PriceHistory>>, i: nat, lang: string, cat: Catalogue)
    requires i < |gs|
    ensures GroupsLines(gs[..i + 1], lang, cat) == GroupsLines(gs[..i], lang, cat) + GroupLines(gs[i], lang, cat)
  {
    assert gs[..i + 1][..i] == gs[..i];
  }

  /** The users the digest goes to, in table order, with their language. */
  function Recipients(users: seq<User>): (r: seq<(int, string)>)
    ensures |r| <= |users|
  {
    if users == [] then []
    else
      var u := users[|users| - 1];
      Recipients(users[..|users| - 1]) + (if u.paused then [] else [(u.userId, LangOr(u.langCode))])
  }

  /** The digests delivered to `rs`, in order: none for a user without
      entries, and none when sending to a user in `sendFails` raises. */
  function Delivered(rs: seq<(int, string)>, history: seq<PriceHistory>, products: seq<Product>,
                     todayStart: string, cat: Catalogue, sendFails: set<int>): (r: seq<Notice>)
    ensures |r| <= |rs|
  {
    if rs == [] then []
    else
      var (uid, lang) := rs[|rs| - 1];
      var d := Digest(history, products, uid, lang, todayStart, cat);
      Delivered(rs[..|rs| - 1], history, products, todayStart, cat, sendFails)
      + (if d.Some? && uid !in sendFails then [Notice(uid, d.value)] else [])
  }

  /** `_send_summaries()`: every unpaused user, in table order, is sent the
      digest of the matches found since `todayStart`; a failed send is
      logged and the next user is served. Returns the messages delivered;
      the tables are only read. */
  method SendSummaries(users: seq<User>, history: seq<PriceHistory>, products: seq<Product>,
                       todayStart: string, cat: Catalogue, sendFails: set<int>)
    returns (sent: seq<Notice>)
    ensures sent == Delivered(Recipients(users), history, products, todayStart, cat, sendFails)
  {
    var rs := CollectRecipients(users);
    sent := [];
    var i := 0;
    while i < |rs|
      invariant 0 <= i <= |rs|
      invariant sent == Delivered(rs[..i], history, products, todayStart, cat, sendFails)
    {
      DeliveredSnoc(rs, i, history, products, todayStart, cat, sendFails);
      var (uid, lang) := rs[i];
      var entries := Entries(history, uid, todayStart);
      if entries != [] {
        var lines := RenderDigest(entries, products, lang, cat);
        if uid !in sendFails {
          sent := sent + [Notice(uid, Join(lines, '\n'))];
        }
      }
      i := i + 1;
    }
    assert rs[..i] == rs;
  }

  lemma DeliveredSnoc(rs: seq<(int, string)>, i: nat, history: seq<PriceHistory>, products: seq<Product>,
                      todayStart: string, cat: Catalogue, sendFails: set<int>)
    requires i < |rs|
    ensures var d := Digest(history, products, rs[i].0, rs[i].1, todayStart, cat);
      Delivered(rs[..i + 1], history, products, todayStart, cat, sendFails)
      == Delivered(rs[..i], history, products, todayStart, cat, sendFails)
         + (if d.Some? && rs[i].0 !in sendFails then [Notice(rs[i].0, d.value)] else [])
  {
    assert rs[..i + 1][..i] == rs[..i];
  }

  /** `[(u.user_id, u.lang_code or DEFAULT_LANGUAGE) for u in users]` over
      the unpaused users. */
  method CollectRecipients(users: seq<User>) returns (rs: seq<(int, string)>)
    ensures rs == Recipients(users)
  {
    rs := [];
    var i := 0;
    while i < |users|
      invariant 0 <= i <= |users|
      invariant rs == Recipients(users[..i])
    {
      assert users[..i + 1][..i] == users[..i];
      if !users[i].paused {
        rs := rs + [(users[i].userId, LangOr(users[i].langCode))];
      }
      i := i + 1;
    }
    assert users[..i] == users;
  }

  // ---------------------------------------------------------------------
  // Properties of the digest round

  /** The recipients are exactly the unpaused users, each with a language
      that is never empty. */
  lemma {:induction false} RecipientsExact(users: seq<User>)
    ensures forall r :: r in Recipients(users) ==>
      r.1 != "" && exists u :: u in users && !u.paused && u.userId == r.0 && r.1 == LangOr(u.langCode)
    ensures forall u :: u in users && !u.paused ==> (u.userId, LangOr(u.langCode)) in Recipients(users)
    decreases |users|
  {
    if users != [] {
      var init := users[..|users| - 1];
      RecipientsExact(init);
      assert forall u :: u in users <==> u in init || u == users[|users| - 1];
    }
  }

  /** Only a recipient with entries since `todayStart` is sent anything,
      and it is that recipient's digest. */
  lemma {:induction false} DeliveredSound(rs: seq<(int, string)>, history: seq<PriceHistory>,
                                          products: seq<Product>, todayStart: string, cat: Catalogue,
                                          sendFails: set<int>)
    ensures forall n :: n in Delivered(rs, history, products, todayStart, cat, sendFails) ==>
      && n.chatId !in sendFails
      && exists r :: r in rs && r.0 == n.chatId && Digest(history, products, r.0, r.1, todayStart, cat) == Some(n.text)
    decreases |rs|
  {
    if rs != [] {
      var init := rs[..|rs| - 1];
      DeliveredSound(init, history, products, todayStart, cat, sendFails);
      assert forall r :: r in init ==> r in rs;
      assert rs[|rs| - 1] in rs;
    }
  }

  /** Every recipient with entries whose send does not fail is sent its
      digest. */
  lemma {:induction false} DeliveredComplete(rs: seq<(int, string)>, history: seq<PriceHistory>,
                                             products: seq<Product>, todayStart: string, cat: Catalogue,
                                             sendFails: set<int>)
    ensures forall r :: r in rs && r.0 !in sendFails && Digest(history, products, r.0, r.1, todayStart, cat).Some? ==>
      Notice(r.0, Digest(history, products, r.0, r.1, todayStart, cat).value)
        in Delivered(rs, history, products, todayStart, cat, sendFails)
    decreases |rs|
  {
    if rs != [] {
      var init := rs[..|rs| - 1];
      DeliveredComplete(init, history, products, todayStart, cat, sendFails);
      assert forall r :: r in rs ==> r in init || r == rs[|rs| - 1];
    }
  }

  /** A digest reaches only an unpaused user, and only when that user has
      a match since `todayStart`; a paused user is never sent one. */
  lemma OnlyUnpausedWithMatches(users: seq<User>, history: seq<PriceHistory>, products: seq<Product>,
                                todayStart: string, cat: Catalogue, sendFails: set<int>)
    ensures forall n :: n in Delivered(Recipients(users), history, products, todayStart, cat, sendFails) ==>
      && (exists u :: u in users && !u.paused && u.userId == n.chatId)
      && (exists h :: h in history && h.userId == n.chatId && StrLe(todayStart, h.foundAt))
  {
    var rs := Recipients(users);
    RecipientsExact(users);
    DeliveredSound(rs, history, products, todayStart, cat, sendFails);
    forall n | n in Delivered(rs, history, products, todayStart, cat, sendFails)
      ensures exists h :: h in history && h.userId == n.chatId && StrLe(todayStart, h.foundAt)
    {
      var r :| r in rs && r.0 == n.chatId && Digest(history, products, r.0, r.1, todayStart, cat) == Some(n.text);
      var recent := RecentOf(history, r.0, todayStart);
      assert recent[0] in recent;
    }
  }

  /** A failed send only loses that user's digest: the others are
      delivered as if nothing had failed. */
  lemma {:induction false} FailuresIsolated(rs: seq<(int, string)>, history: seq<PriceHistory>,
                                            products: seq<Product>, todayStart: string, cat: Catalogue,
                                            sendFails: set<int>)
    ensures Delivered(rs, history, products, todayStart, cat, sendFails)
            == WithoutChats(Delivered(rs, history, products, todayStart, cat, {}), sendFails)
    decreases |rs|
  {
    if rs != [] {
      var init := rs[..|rs| - 1];
      FailuresIsolated(init, history, products, todayStart, cat, sendFails);
      var (uid, lang) := rs[|rs| - 1];
      var d := Digest(history, products, uid, lang, todayStart, cat);
      WithoutChatsAppend(Delivered(init, history, products, todayStart, cat, {}),
                         if d.Some? then [Notice(uid, d.value)] else [], sendFails);
    }
  }

  /** The notices not addressed to a chat in `chats`, in order. */
  function WithoutChats(ns: seq<Notice>, chats: set<int>): (r: seq<Notice>)
    ensures |r| <= |ns|
  {
    if ns == [] then []
    else
      var last := ns[|ns| - 1];
      WithoutChats(ns[..|ns| - 1], chats) + (if last.chatId in chats then [] else [last])
  }

  /** The notices kept are exactly those not addressed to `chats`. */
  lemma {:induction false} WithoutChatsExact(ns: seq<Notice>, chats: set<int>)
    ensures forall n :: n in WithoutChats(ns, chats) <==> n in ns && n.chatId !in chats
    decreases |ns|
  {
    if ns != [] {
      WithoutChatsExact(ns[..|ns| - 1], chats);
      assert ns == ns[..|ns| - 1] + [ns[|ns| - 1]];
    }
  }

  lemma {:induction false} WithoutChatsAppend(a: seq<Notice>, b: seq<Notice>, chats: set<int>)
    ensures WithoutChats(a + b, chats) == WithoutChats(a, chats) + WithoutChats(b, chats)
    decreases |b|
  {
    if b != [] {
      var init := b[..|b| - 1];
      assert (a + b)[..|a + b| - 1] == a + init;
      assert (a + b)[|a + b| - 1] == b[|b| - 1];
      WithoutChatsAppend(a, init, chats);
      var step := if b[|b| - 1].chatId in chats then [] else [b[|b| - 1]];
      assert WithoutChats(a + b, chats) == WithoutChats(a + init, chats) + step;
      assert WithoutChats(b, chats) == WithoutChats(init, chats) + step;
    } else {
      assert a + b == a;
    }
  }
}
