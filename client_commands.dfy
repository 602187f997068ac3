/**
 * What the user client does for the bot (src/client_commands.py): list the
 * channels a user follows, join a channel and record the membership, and
 * scan the recent messages of a channel for the user's products.
 *
 * Telegram's answers are inputs: the outcome of a join request, the
 * channel entity, the messages returned, where the scan is interrupted,
 * and which notifications fail to send.
 */
module ClientCommands {
  import opened Wrappers
  import opened Strings
  import opened Translations
  import opened Models
  import opened ChannelListener

  // ---------------------------------------------------------------------
  // list_channels

  /** One line of the channel list: "title (identifier)" when the channel
      has a title, else the identifier. */
  function ChannelDisplay(ch: Channel): (r: string)
    ensures Truthy(ch.title) ==> r == ch.title.value + " (" + ch.identifier + ")"
    ensures !Truthy(ch.title) ==> r == ch.identifier
  {
    if Truthy(ch.title) then ch.title.value + " (" + ch.identifier + ")" else ch.identifier
  }

  /** Every line names the channel's identifier, after the title if any. */
  lemma DisplayNamesChannel(ch: Channel)
    ensures Contains(ChannelDisplay(ch), ch.identifier)
    ensures Truthy(ch.title) ==> StartsWith(ChannelDisplay(ch), ch.title.value)
  {
    var d := ChannelDisplay(ch);
    if Truthy(ch.title) {
      var head := ch.title.value + " (";
      assert d == head + ch.identifier + ")";
      assert d[|head|..|head| + |ch.identifier|] == ch.identifier;
      assert ContainsAt(d, ch.identifier, |head|);
      assert d[..|ch.title.value|] == ch.title.value;
    } else {
      assert ContainsAt(d, ch.identifier, 0);
    }
  }

  /** The rows of the query: for each membership of the user, in table
      order, the channel it names. */
  function UserChannels(memberships: seq<Membership>, channels: seq<Channel>, userId: int): (r: seq<Channel>)
    ensures |r| <= |memberships|
  {
    if memberships == [] then []
    else
      var m := memberships[|memberships| - 1];
      var row := if m.userId == userId then ToSeq(ChannelById(channels, m.channelId)) else [];
      UserChannels(memberships[..|memberships| - 1], channels, userId) + row
  }

  /** With unique channel ids, a channel is listed exactly when the user
      has a membership for it. */
  lemma {:induction false} UserChannelsExact(memberships: seq<Membership>, channels: seq<Channel>,
                                             userId: int, ch: Channel)
    requires UniqueChannels(channels)
    ensures ch in UserChannels(memberships, channels, userId) <==>
            ch in channels && Membership(userId, ch.id) in memberships
    decreases |memberships|
  {
    if memberships != [] {
      var init := memberships[..|memberships| - 1];
      var m := memberships[|memberships| - 1];
      UserChannelsExact(init, channels, userId, ch);
      assert forall x :: x in memberships <==> x in init || x == m;
      if ch in channels && m == Membership(userId, ch.id) {
        var k :| 0 <= k < |channels| && channels[k] == ch;
        ChannelByIdUnique(channels, k);
      }
    }
  }

  lemma ChannelByIdUnique(channels: seq<Channel>, k: nat)
    requires UniqueChannels(channels) && k < |channels|
    ensures ChannelById(channels, channels[k].id) == Some(channels[k])
  {
    var r := ChannelById(channels, channels[k].id);
    var j :| 0 <= j < |channels| && channels[j] == r.value;
    assert j == k;
  }

  /** `list_channels(user_id)`: one line per row of the query, in order. */
  method ListChannels(db: Database, userId: int) returns (result: seq<string>)
    ensures var rows := UserChannels(db.memberships, db.channels, userId);
            |result| == |rows| && forall i :: 0 <= i < |rows| ==> result[i] == ChannelDisplay(rows[i])
  {
    var rows := UserChannels(db.memberships, db.channels, userId);
    result := [];
    var i := 0;
    while i < |rows|
      invariant 0 <= i <= |rows|
      invariant |result| == i
      invariant forall k :: 0 <= k < i ==> result[k] == ChannelDisplay(rows[k])
    {
      if Truthy(rows[i].title) {
        result := result + [rows[i].title.value + " (" + rows[i].identifier + ")"];
      } else {
        result := result + [rows[i].identifier];
      }
      i := i + 1;
    }
  }

  // ---------------------------------------------------------------------
  // join_channel

  /** What Telegram answered to the join: an `RPCError`, or the channel
      joined. For an invite it is the chat with its id; for a username
      the id is unused and the title is that of `get_entity`, `None` when
      that call failed. */
  datatype JoinReply = RpcError | Joined(chatId: int, title: Option<string>)

  /** The channels table after the upsert of `identifier`, and the id of
      its row. */
  function UpsertChannel(channels: seq<Channel>, identifier: string, title: Option<string>,
                         now: string): (r: (seq<Channel>, nat))
  {
    match ChannelIndex(channels, identifier)
    case None =>
      var id := NextChannelId(channels);
      (channels + [Channel(id, identifier, title, now)], id)
    case Some(k) =>
      if Truthy(title) && !Truthy(channels[k].title) then
        (channels[k := channels[k].(title := title)], channels[k].id)
      else (channels, channels[k].id)
  }

  /** The memberships table after linking the user to the channel. */
  function Link(memberships: seq<Membership>, userId: int, channelId: nat): (r: seq<Membership>)
    ensures Membership(userId, channelId) in r
    ensures forall m :: m in memberships ==> m in r
    ensures forall m :: m in r ==> m in memberships || m == Membership(userId, channelId)
  {
    if Membership(userId, channelId) in memberships then memberships
    else memberships + [Membership(userId, channelId)]
  }

  /** A row is added only for an identifier not yet in the table; the row
      returned carries that identifier. */
  lemma UpsertFacts(channels: seq<Channel>, identifier: string, title: Option<string>, now: string)
    ensures var (cs, id) := UpsertChannel(channels, identifier, title, now);
      && (|cs| == |channels| + 1 <==> forall c :: c in channels ==> c.identifier != identifier)
      && (|cs| == |channels| || |cs| == |channels| + 1)
      && exists c :: c in cs && c.id == id && c.identifier == identifier
  {
    var (cs, id) := UpsertChannel(channels, identifier, title, now);
    match ChannelIndex(channels, identifier)
    case None =>
      assert cs[|channels|].id == id;
    case Some(k) =>
      assert channels[k] in channels;
      assert cs[k].id == id && cs[k].identifier == identifier;
  }

  /** A title already there is never overwritten; a missing one is filled
      in from a non-empty title. */
  lemma UpsertTitle(channels: seq<Channel>, identifier: string, title: Option<string>, now: string, k: nat)
    requires k < |channels| && channels[k].identifier == identifier
    requires UniqueChannels(channels)
    ensures var cs := UpsertChannel(channels, identifier, title, now).0;
      && |cs| == |channels|
      && cs[k].id == channels[k].id && cs[k].identifier == identifier
      && (Truthy(channels[k].title) ==> cs[k].title == channels[k].title)
      && (!Truthy(channels[k].title) && Truthy(title) ==> cs[k].title == title)
      && (forall j :: 0 <= j < |channels| && j != k ==> cs[j] == channels[j])
  {
    var i := ChannelIndex(channels, identifier);
    assert i.Some?;
    assert i.value == k;
  }

  /** Joining again with the same title changes nothing. */
  lemma UpsertIdempotent(channels: seq<Channel>, identifier: string, title: Option<string>, now: string)
    requires UniqueChannels(channels)
    ensures var (cs, id) := UpsertChannel(channels, identifier, title, now);
            UpsertChannel(cs, identifier, title, now) == (cs, id)
  {
    var (cs, id) := UpsertChannel(channels, identifier, title, now);
    match ChannelIndex(channels, identifier)
    case None =>
      var n := |channels|;
      var again := ChannelIndex(cs, identifier);
      assert cs[n].identifier == identifier;
      assert again == Some(n);
    case Some(k) =>
      assert cs[k].identifier == identifier;
      var again := ChannelIndex(cs, identifier);
      assert again.Some?;
      assert cs[again.value].identifier == channels[again.value].identifier;
      assert again.value == k;
  }

  /** The upsert keeps ids and identifiers unique. */
  lemma UpsertKeepsUnique(channels: seq<Channel>, identifier: string, title: Option<string>, now: string)
    requires UniqueChannels(channels)
    ensures UniqueChannels(UpsertChannel(channels, identifier, title, now).0)
  {
  }

  /** Linking twice is linking once, and keeps the pairs unique. */
  lemma LinkFacts(memberships: seq<Membership>, userId: int, channelId: nat)
    ensures Link(Link(memberships, userId, channelId), userId, channelId) == Link(memberships, userId, channelId)
    ensures UniqueMemberships(memberships) ==> UniqueMemberships(Link(memberships, userId, channelId))
  {
  }

  /** The name shown for the channel joined. */
  function JoinDisplay(identifier: string, inviteHash: Option<string>, reply: JoinReply): (r: string)
    requires reply.Joined?
  {
    if Truthy(inviteHash) then
      (if Truthy(reply.title) then reply.title.value else "Channel " + IntToString(reply.chatId))
    else identifier
  }

  /** `join_channel(identifier, user_id, invite_hash, lang)`: on an RPC
      error nothing changes; otherwise the channel row is upserted under
      `str(chat.id)` for an invite and under the identifier otherwise, and
      the user is linked to it. */
  method JoinChannel(db: Database, identifier: string, userId: int, inviteHash: Option<string>,
                     lang: string, cat: Catalogue, reply: JoinReply, now: string)
    returns (success: bool, message: string, dbIdentifier: string)
    requires db.Valid()
    modifies db
    ensures db.Valid()
    ensures db.users == old(db.users) && db.products == old(db.products) && db.history == old(db.history)
    ensures reply.RpcError? ==>
      && !success && dbIdentifier == ""
      && message == T(Catalogued(JoinChannelFailed), lang, [], cat)
      && db.channels == old(db.channels) && db.memberships == old(db.memberships)
    ensures reply.Joined? ==>
      && success
      && dbIdentifier == (if Truthy(inviteHash) then IntToString(reply.chatId) else identifier)
      && message == T(Catalogued(JoinChannelSuccess), lang,
                      [("channel", Text(JoinDisplay(identifier, inviteHash, reply)))], cat)
      && var (cs, id) := UpsertChannel(old(db.channels), dbIdentifier, reply.title, now);
         db.channels == cs && db.memberships == Link(old(db.memberships), userId, id)
  {
    if reply.RpcError? {
      return false, T(Catalogued(JoinChannelFailed), lang, [], cat), "";
    }
    dbIdentifier := identifier;
    var display := identifier;
    var title := reply.title;
    if Truthy(inviteHash) {
      dbIdentifier := IntToString(reply.chatId);
      display := if Truthy(title) then title.value else "Channel " + dbIdentifier;
    }
    UpsertKeepsUnique(db.channels, dbIdentifier, title, now);
    var channelId: nat;
    var k := ChannelIndex(db.channels, dbIdentifier);
    if k.None? {
      channelId := NextChannelId(db.channels);
      db.channels := db.channels + [Channel(channelId, dbIdentifier, title, now)];
    } else {
      channelId := db.channels[k.value].id;
      if Truthy(title) && !Truthy(db.channels[k.value].title) {
        db.channels := db.channels[k.value := db.channels[k.value].(title := title)];
      }
    }
    LinkFacts(db.memberships, userId, channelId);
    if Membership(userId, channelId) !in db.memberships {
      db.memberships := db.memberships + [Membership(userId, channelId)];
    }
    success := true;
    message := T(Catalogued(JoinChannelSuccess), lang, [("channel", Text(display))], cat);
  }

  // ---------------------------------------------------------------------
  // leave_channel

  /** `leave_channel(identifier, lang)`: the reply to the user, given
      whether the `LeaveChannelRequest` succeeded or raised an `RPCError`.
      The tables are not touched. */
  function LeaveChannel(identifier: string, lang: string, cat: Catalogue, left: bool): (r: string)
    ensures left ==> r == cat.format(Template(Catalogued(LeaveChannelSuccess), lang, cat), [("channel", Text(identifier))])
    ensures !left ==> r == Template(Catalogued(LeaveChannelFailed), lang, cat)
  {
    if left then T(Catalogued(LeaveChannelSuccess), lang, [("channel", Text(identifier))], cat)
    else T(Catalogued(LeaveChannelFailed), lang, [], cat)
  }

  // ---------------------------------------------------------------------
  // backfill_channel

  /** A message returned by `iter_messages`. */
  datatype Post = Post(id: int, text: string)

  const BackfillTextLimit: nat := 500
  const BackfillNoticeTextLimit: nat := 300

  /** The language of the backfill notifications: the user's `lang_code`
      as stored, with no fallback for an empty one; "en" when the user is
      not registered. */
  function BackfillLang(users: seq<User>, userId: int): (r: string)
    ensures UserById(users, userId).Some? ==> r == UserById(users, userId).value.langCode
    ensures UserById(users, userId).None? ==> r == DefaultLanguage
  {
    match UserById(users, userId)
    case Some(u) => u.langCode
    case None => DefaultLanguage
  }

  /** `getattr(entity, "title", channel_identifier)`: `title` is `None`
      when the entity has no such attribute. */
  function EntityName(entity: Chat, identifier: string): (r: string)
    ensures entity.title.Some? ==> r == entity.title.value
    ensures entity.title.None? ==> r == identifier
  {
    match entity.title
    case Some(t) => t
    case None => identifier
  }

  /** The message link as the backfill loop builds it inline. */
  function BackfillLink(username: Option<string>, channelId: Option<int>, messageId: int): (r: Option<string>)
  {
    if Truthy(username) then Some(PublicLinkBase + username.value + "/" + IntToString(messageId))
    else if channelId.Some? && channelId.value != 0 then
      var id := IntToString(channelId.value);
      var clean := if StartsWith(id, "-100") then id[4..] else id;
      Some(PrivateLinkBase + clean + "/" + IntToString(messageId))
    else None
  }

  /** The inline link is the same as the one the live handler builds. */
  lemma BackfillLinkAgrees(username: Option<string>, channelId: Option<int>, messageId: int)
    ensures BackfillLink(username, channelId, messageId) == BuildMessageLink(username, channelId, messageId)
  {
    if !Truthy(username) && channelId.Some? && channelId.value != 0 {
      var id := IntToString(channelId.value);
      if StartsWith(id, "-100") {
        assert CleanId(channelId.value) == id[4..];
      } else {
        assert CleanId(channelId.value) == id;
      }
    }
  }

  /** The `price_history` row added for a match of product `p` in `post`. */
  function BackfillRecord(p: Product, r: MatchResult, post: Post, name: string, entity: Chat,
                          now: string): (h: PriceHistory)
    ensures h.productId == p.id && h.userId == p.userId && h.price == PriceFound(r)
    ensures h.source == BackfillSource && h.channel == name && h.foundAt == now
    ensures |h.messageText| <= BackfillTextLimit && |h.messageText| <= |post.text|
    ensures h.messageText == post.text[..|h.messageText|]
    ensures |post.text| >= BackfillTextLimit ==> |h.messageText| == BackfillTextLimit
  {
    NewHistory(p.id, p.userId, PriceFound(r), name, Take(post.text, BackfillTextLimit),
               BackfillLink(entity.username, entity.id, post.id), Some(BackfillSource), now)
  }

  /** The bot's notification for a backfill match, in `lang`. */
  function BackfillNotice(p: Product, r: MatchResult, post: Post, name: string, entity: Chat,
                          lang: string, cat: Catalogue): (n: Notice)
    ensures n.chatId == p.userId
  {
    var link := BackfillLink(entity.username, entity.id, post.id);
    var priceLine :=
      if r.WithinTarget? then
        T(Catalogued(NotifyBackfillPriceLine), lang,
          [("price", Cents(r.priceFound)), ("target", Cents(r.targetPrice))], cat)
      else "";
    var linkLine := if link.Some? then "\n\n " + link.value else "";
    Notice(p.userId,
           T(Catalogued(NotifyBackfillMatch), lang,
             [("product", Text(p.name)), ("channel", Text(name)), ("price_line", Text(priceLine)),
              ("text", Text(Take(post.text, BackfillNoticeTextLimit))), ("link_line", Text(linkLine))],
             cat))
  }

  /** What stays fixed while one channel is scanned: the channel's name
      and entity, the user's language, the catalogue, whether the bot is
      there, the sends that fail (as (post, product) positions) and the
      time. */
  datatype Scan = Scan(name: string, entity: Chat, lang: string, cat: Catalogue, hasBot: bool,
                       sendFails: set<(nat, nat)>, now: string)

  /** What `check_product_match` decides for product `p` and one text. */
  function Decision(p: Product, text: string): Option<MatchResult> {
    CheckProductMatch(p.name, p.targetPrice, text)
  }

  /** The row added for product `p` and `post`: one if it matches. */
  function RecordStep(p: Product, post: Post, sc: Scan): (r: seq<PriceHistory>)
    ensures |r| <= 1
  {
    match Decision(p, post.text)
    case None => []
    case Some(m) => [BackfillRecord(p, m, post, sc.name, sc.entity, sc.now)]
  }

  /** The notification sent for product number `k` and post number `j`:
      one for a match when the bot is there, unless that send fails. */
  function NoticeStep(p: Product, k: nat, post: Post, j: nat, sc: Scan): (r: seq<Notice>)
    ensures |r| <= 1
  {
    match Decision(p, post.text)
    case None => []
    case Some(m) =>
      if sc.hasBot && (j, k) !in sc.sendFails
      then [BackfillNotice(p, m, post, sc.name, sc.entity, sc.lang, sc.cat)] else []
  }

  /** The rows added while checking products `ps` against one post, in
      product order. */
  function PostRecords(ps: seq<Product>, post: Post, sc: Scan): (r: seq<PriceHistory>)
    ensures |r| <= |ps|
  {
    if ps == [] then []
    else PostRecords(ps[..|ps| - 1], post, sc) + RecordStep(ps[|ps| - 1], post, sc)
  }

  /** The notifications sent while checking products `ps` against post
      number `j`, in product order. */
  function PostNotices(ps: seq<Product>, post: Post, j: nat, sc: Scan): (r: seq<Notice>)
    ensures |r| <= |ps|
  {
    if ps == [] then []
    else PostNotices(ps[..|ps| - 1], post, j, sc) + NoticeStep(ps[|ps| - 1], |ps| - 1, post, j, sc)
  }

  /** The rows added for one post: none when it has no text. */
  function PostRows(ps: seq<Product>, post: Post, sc: Scan): (r: seq<PriceHistory>)
    ensures |r| <= |ps|
  {
    if post.text == [] then [] else PostRecords(ps, post, sc)
  }

  /** The notifications sent for post number `j`: none when it has no
      text. */
  function PostSends(ps: seq<Product>, post: Post, j: nat, sc: Scan): (r: seq<Notice>)
    ensures |r| <= |ps|
  {
    if post.text == [] then [] else PostNotices(ps, post, j, sc)
  }

  /** The rows added for the posts scanned, in order. */
  function ScanRecords(posts: seq<Post>, ps: seq<Product>, sc: Scan): (r: seq<PriceHistory>)
    ensures |r| <= |posts| * |ps|
  {
    if posts == [] then []
    else
      var r := ScanRecords(posts[..|posts| - 1], ps, sc) + PostRows(ps, posts[|posts| - 1], sc);
      assert |r| <= (|posts| - 1) * |ps| + |ps|;
      r
  }

  /** The notifications sent for the posts scanned, in order. */
  function ScanNotices(posts: seq<Post>, ps: seq<Product>, sc: Scan): (r: seq<Notice>)
  {
    if posts == [] then []
    else
      var j := |posts| - 1;
      ScanNotices(posts[..j], ps, sc) + PostSends(ps, posts[j], j, sc)
  }

  /** How many posts the loop gets through: `iter_messages` yields at most
      `limit` of them, and a `FloodWaitError` or `RPCError` raised while
      fetching post number `interruptAt` ends the scan there. */
  function ScanLength(available: nat, limit: nat, interruptAt: Option<nat>): (n: nat)
    ensures n <= available && n <= limit
    ensures interruptAt.Some? ==> n <= interruptAt.value
    ensures interruptAt.None? ==> n == if available < limit then available else limit
    ensures interruptAt.Some? && interruptAt.value >= available && interruptAt.value >= limit ==>
            n == if available < limit then available else limit
  {
    var m := if available < limit then available else limit;
    if interruptAt.Some? && interruptAt.value < m then interruptAt.value else m
  }

  lemma PostRecordsSnoc(ps: seq<Product>, k: nat, post: Post, sc: Scan)
    requires k < |ps|
    ensures PostRecords(ps[..k + 1], post, sc) == PostRecords(ps[..k], post, sc) + RecordStep(ps[k], post, sc)
  {
    assert ps[..k + 1][..k] == ps[..k];
  }

  lemma PostNoticesSnoc(ps: seq<Product>, k: nat, post: Post, j: nat, sc: Scan)
    requires k < |ps|
    ensures PostNotices(ps[..k + 1], post, j, sc) == PostNotices(ps[..k], post, j, sc) + NoticeStep(ps[k], k, post, j, sc)
  {
    assert ps[..k + 1][..k] == ps[..k];
  }

  /** The inner loop of `backfill_channel`: every product against post
      number `j`, which has text. */
  method ScanPost(ps: seq<Product>, post: Post, j: nat, sc: Scan)
    returns (added: seq<PriceHistory>, sent: seq<Notice>)
    requires post.text != []
    ensures added == PostRows(ps, post, sc)
    ensures sent == PostSends(ps, post, j, sc)
  {
    added, sent := [], [];
    var k := 0;
    while k < |ps|
      invariant 0 <= k <= |ps|
      invariant added == PostRecords(ps[..k], post, sc)
      invariant sent == PostNotices(ps[..k], post, j, sc)
    {
      PostRecordsSnoc(ps, k, post, sc);
      PostNoticesSnoc(ps, k, post, j, sc);
      var result := CheckProductMatch(ps[k].name, ps[k].targetPrice, post.text);
      if result.Some? {
        added := added + [BackfillRecord(ps[k], result.value, post, sc.name, sc.entity, sc.now)];
        if sc.hasBot && (j, k) !in sc.sendFails {
          sent := sent + [BackfillNotice(ps[k], result.value, post, sc.name, sc.entity, sc.lang, sc.cat)];
        }
      }
      k := k + 1;
    }
    assert ps[..k] == ps;
  }

  lemma ScanSnoc(posts: seq<Post>, j: nat, ps: seq<Product>, sc: Scan)
    requires j < |posts|
    ensures ScanRecords(posts[..j + 1], ps, sc) == ScanRecords(posts[..j], ps, sc) + PostRows(ps, posts[j], sc)
    ensures ScanNotices(posts[..j + 1], ps, sc) == ScanNotices(posts[..j], ps, sc) + PostSends(ps, posts[j], j, sc)
  {
    assert posts[..j + 1][..j] == posts[..j];
  }

  /** The outer loop of `backfill_channel`: the posts in the order
      returned, up to `limit` of them or until the scan is interrupted. */
  method ScanPosts(posts: seq<Post>, limit: nat, interruptAt: Option<nat>, ps: seq<Product>, sc: Scan)
    returns (added: seq<PriceHistory>, sent: seq<Notice>)
    ensures var n := ScanLength(|posts|, limit, interruptAt);
            added == ScanRecords(posts[..n], ps, sc) && sent == ScanNotices(posts[..n], ps, sc)
  {
    added, sent := [], [];
    var j := 0;
    while j < |posts| && j < limit && (interruptAt.None? || j < interruptAt.value)
      invariant 0 <= j <= ScanLength(|posts|, limit, interruptAt)
      invariant added == ScanRecords(posts[..j], ps, sc)
      invariant sent == ScanNotices(posts[..j], ps, sc)
    {
      ScanSnoc(posts, j, ps, sc);
      if posts[j].text != [] {
        var a, s := ScanPost(ps, posts[j], j, sc);
        added, sent := added + a, sent + s;
      }
      j := j + 1;
    }
    assert j == ScanLength(|posts|, limit, interruptAt);
  }

  /** Every row added for one post is a match of one of the products,
      tagged "backfill", named after the channel, with at most 500
      characters of the post. */
  lemma {:induction false} PostRecordsSound(ps: seq<Product>, post: Post, sc: Scan)
    ensures forall h :: h in PostRecords(ps, post, sc) ==>
      && h.source == BackfillSource && h.channel == sc.name && |h.messageText| <= BackfillTextLimit
      && exists p :: p in ps && Decision(p, post.text).Some? && h.productId == p.id
                     && h.userId == p.userId && h.price == PriceFound(Decision(p, post.text).value)
    decreases |ps|
  {
    if ps != [] {
      var init := ps[..|ps| - 1];
      PostRecordsSound(init, post, sc);
      assert forall p :: p in init ==> p in ps;
      assert ps[|ps| - 1] in ps;
    }
  }

  /** Every row added by the scan comes from a post with text and one of
      the products that matches it, tagged "backfill", named after the
      channel, with at most 500 characters of the post. */
  lemma {:induction false} ScanRecordsSound(posts: seq<Post>, ps: seq<Product>, sc: Scan)
    ensures forall h :: h in ScanRecords(posts, ps, sc) ==>
      && h.source == BackfillSource && h.channel == sc.name && |h.messageText| <= BackfillTextLimit
      && exists post, p :: post in posts && post.text != [] && p in ps && Decision(p, post.text).Some?
                           && h.productId == p.id && h.userId == p.userId
                           && h.price == PriceFound(Decision(p, post.text).value)
    decreases |posts|
  {
    if posts != [] {
      var init := posts[..|posts| - 1];
      var last := posts[|posts| - 1];
      ScanRecordsSound(init, ps, sc);
      PostRecordsSound(ps, last, sc);
      assert forall post :: post in init ==> post in posts;
      assert last in posts;
    }
  }

  /** Every match of a product in a post is recorded. */
  lemma {:induction false} EveryPostMatchRecorded(ps: seq<Product>, post: Post, sc: Scan)
    ensures forall p :: p in ps && Decision(p, post.text).Some? ==>
      BackfillRecord(p, Decision(p, post.text).value, post, sc.name, sc.entity, sc.now) in PostRecords(ps, post, sc)
    decreases |ps|
  {
    if ps != [] {
      var init := ps[..|ps| - 1];
      EveryPostMatchRecorded(init, post, sc);
      assert forall p :: p in ps ==> p in init || p == ps[|ps| - 1];
    }
  }

  /** Without the bot no notification is sent for a post. */
  lemma {:induction false} PostNoBotNoNotices(ps: seq<Product>, post: Post, j: nat, sc: Scan)
    requires !sc.hasBot
    ensures PostNotices(ps, post, j, sc) == []
    decreases |ps|
  {
    if ps != [] {
      PostNoBotNoNotices(ps[..|ps| - 1], post, j, sc);
    }
  }

  /** Without the bot the scan sends nothing, whatever it records. */
  lemma {:induction false} NoBotNoNotices(posts: seq<Post>, ps: seq<Product>, sc: Scan)
    requires !sc.hasBot
    ensures ScanNotices(posts, ps, sc) == []
    decreases |posts|
  {
    if posts != [] {
      var j := |posts| - 1;
      NoBotNoNotices(posts[..j], ps, sc);
      PostNoBotNoNotices(ps, posts[j], j, sc);
    }
  }

  /** Notification `k` goes to the user of row `k`, one for one. */
  predicate Paired(ns: seq<Notice>, rs: seq<PriceHistory>) {
    |ns| == |rs| && forall k :: 0 <= k < |ns| ==> ns[k].chatId == rs[k].userId
  }

  lemma PairedAppend(ns1: seq<Notice>, rs1: seq<PriceHistory>, ns2: seq<Notice>, rs2: seq<PriceHistory>)
    requires Paired(ns1, rs1) && Paired(ns2, rs2)
    ensures Paired(ns1 + ns2, rs1 + rs2)
  {
    forall k | 0 <= k < |ns1 + ns2|
      ensures (ns1 + ns2)[k].chatId == (rs1 + rs2)[k].userId
    {
      if k >= |ns1| {
        assert (ns1 + ns2)[k] == ns2[k - |ns1|] && (rs1 + rs2)[k] == rs2[k - |rs1|];
      }
    }
  }

  /** With the bot and no failed send, each row of a post is announced to
      the owner of its product, in the same order. */
  lemma {:induction false} PostNotifiesEveryMatch(ps: seq<Product>, post: Post, j: nat, sc: Scan)
    requires sc.hasBot && sc.sendFails == {}
    ensures Paired(PostNotices(ps, post, j, sc), PostRecords(ps, post, sc))
    decreases |ps|
  {
    if ps != [] {
      var init := ps[..|ps| - 1];
      PostNotifiesEveryMatch(init, post, j, sc);
      PairedAppend(PostNotices(init, post, j, sc), PostRecords(init, post, sc),
                   NoticeStep(ps[|ps| - 1], |ps| - 1, post, j, sc), RecordStep(ps[|ps| - 1], post, sc));
    }
  }

  /** With the bot and no failed send, the scan announces every row it
      records to the owner of its product, in the same order. */
  lemma {:induction false} NotifiesEveryMatch(posts: seq<Post>, ps: seq<Product>, sc: Scan)
    requires sc.hasBot && sc.sendFails == {}
    ensures Paired(ScanNotices(posts, ps, sc), ScanRecords(posts, ps, sc))
    decreases |posts|
  {
    if posts != [] {
      var j := |posts| - 1;
      NotifiesEveryMatch(posts[..j], ps, sc);
      if posts[j].text != [] {
        PostNotifiesEveryMatch(ps, posts[j], j, sc);
      }
      PairedAppend(ScanNotices(posts[..j], ps, sc), ScanRecords(posts[..j], ps, sc),
                   PostSends(ps, posts[j], j, sc), PostRows(ps, posts[j], sc));
    }
  }

  /** An interrupted scan keeps what it recorded before the interruption:
      the rows for fewer posts are a prefix of the rows for more. */
  lemma {:induction false} ScanPrefix(posts: seq<Post>, m: nat, n: nat, ps: seq<Product>, sc: Scan)
    requires m <= n <= |posts|
    ensures ScanRecords(posts[..m], ps, sc) <= ScanRecords(posts[..n], ps, sc)
    ensures ScanNotices(posts[..m], ps, sc) <= ScanNotices(posts[..n], ps, sc)
    decreases n - m
  {
    if m < n {
      ScanPrefix(posts, m, n - 1, ps, sc);
      ScanSnoc(posts, n - 1, ps, sc);
    }
  }

  /** The scan records at most one row per product for each post fetched,
      so no more than `limit` times the number of products. */
  lemma CountBound(posts: seq<Post>, limit: nat, interruptAt: Option<nat>, ps: seq<Product>, sc: Scan)
    ensures |ScanRecords(posts[..ScanLength(|posts|, limit, interruptAt)], ps, sc)| <= limit * |ps|
  {
    var n := ScanLength(|posts|, limit, interruptAt);
    assert n * |ps| <= limit * |ps|;
  }

  /** A backfill for `userId` records rows for that user's products only. */
  lemma BackfillOnlyForUser(posts: seq<Post>, products: seq<Product>, userId: int, sc: Scan)
    ensures forall h :: h in ScanRecords(posts, ProductsOf(products, userId), sc) ==>
      h.userId == userId && exists p :: p in products && p.userId == userId && h.productId == p.id
  {
    ScanRecordsSound(posts, ProductsOf(products, userId), sc);
  }

  /** The scan context of `backfill_channel` once the channel is resolved. */
  function BackfillScan(users: seq<User>, userId: int, identifier: string, entity: Chat, hasBot: bool,
                        cat: Catalogue, sendFails: set<(nat, nat)>, now: string): (sc: Scan)
    ensures sc.name == EntityName(entity, identifier) && sc.lang == BackfillLang(users, userId)
    ensures sc.entity == entity && sc.cat == cat && sc.hasBot == hasBot
    ensures sc.sendFails == sendFails && sc.now == now
  {
    Scan(EntityName(entity, identifier), entity, BackfillLang(users, userId), cat, hasBot, sendFails, now)
  }

  /** `backfill_channel(identifier, user_id, limit)`: nothing happens when
      the user has no products or the channel cannot be resolved;
      otherwise the user's products are checked against every post
      scanned, each match is recorded with source "backfill", and the
      count of matches is returned. Only the history table changes. */
  method Backfill(db: Database, identifier: string, userId: int, limit: nat, entity: Option<Chat>,
                  posts: seq<Post>, interruptAt: Option<nat>, hasBot: bool, cat: Catalogue,
                  sendFails: set<(nat, nat)>, now: string)
    returns (count: nat, sent: seq<Notice>)
    modifies db
    ensures db.users == old(db.users) && db.channels == old(db.channels)
    ensures db.memberships == old(db.memberships) && db.products == old(db.products)
    ensures var ps := ProductsOf(old(db.products), userId);
      if ps == [] || entity.None? then
        count == 0 && sent == [] && db.history == old(db.history)
      else
        var n := ScanLength(|posts|, limit, interruptAt);
        var sc := BackfillScan(old(db.users), userId, identifier, entity.value, hasBot, cat, sendFails, now);
        && db.history == old(db.history) + ScanRecords(posts[..n], ps, sc)
        && count == |ScanRecords(posts[..n], ps, sc)|
        && sent == ScanNotices(posts[..n], ps, sc)
  {
    var ps := ProductsOf(db.products, userId);
    if ps == [] || entity.None? {
      return 0, [];
    }
    var sc := BackfillScan(db.users, userId, identifier, entity.value, hasBot, cat, sendFails, now);
    var added;
    added, sent := ScanPosts(posts, limit, interruptAt, ps, sc);
    db.history := db.history + added;
    count := |added|;
  }
}
