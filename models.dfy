/**
 * The five tables of the bot's database (src/models.py) as records, the
 * keys that make rows unique, the column defaults, and the tables
 * themselves as an object whose sequences the command handlers update.
 *
 * Primary keys the code never reads (the surrogate `id` of users and of
 * history rows) are not represented; `users.id` is always set equal to
 * `users.user_id`.
 */
module Models {
  import opened Wrappers

  const DefaultLangCode: string := "en"
  const RealtimeSource: string := "realtime"
  const BackfillSource: string := "backfill"

  /** A registered bot user. */
  datatype User = User(userId: int, username: Option<string>, paused: bool,
                       langCode: string, addedAt: string)

  /** A monitored channel; `identifier` is a username or a numeric id. */
  datatype Channel = Channel(id: nat, identifier: string, title: Option<string>, addedAt: string)

  /** A row of `user_channels`: the user follows the channel. */
  datatype Membership = Membership(userId: int, channelId: nat)

  /** A product a user watches. Prices are in cents. */
  datatype Product = Product(id: nat, userId: int, name: string, targetPrice: Option<int>,
                             category: Option<string>, addedAt: string)

  /** A match found in a channel. `price` and `messageLink` may be null. */
  datatype PriceHistory = PriceHistory(productId: nat, userId: int, price: Option<nat>,
                                       channel: string, messageText: string,
                                       messageLink: Option<string>, source: string,
                                       foundAt: string)

  // ---------------------------------------------------------------------
  // Column defaults

  /** A `User(...)` row: `paused` is false and `lang_code` is "en" unless
      given. */
  function NewUser(userId: int, username: Option<string>, langCode: Option<string>,
                   now: string): (u: User)
    ensures u.userId == userId && u.username == username && u.addedAt == now
    ensures !u.paused
    ensures langCode.None? ==> u.langCode == DefaultLangCode
    ensures langCode.Some? ==> u.langCode == langCode.value
  {
    User(userId, username, false, if langCode.Some? then langCode.value else DefaultLangCode, now)
  }

  /** A `PriceHistory(...)` row: `source` is "realtime" unless given. */
  function NewHistory(productId: nat, userId: int, price: Option<nat>, channel: string,
                      text: string, link: Option<string>, source: Option<string>,
                      now: string): (h: PriceHistory)
    ensures h.productId == productId && h.userId == userId && h.price == price
    ensures h.channel == channel && h.messageText == text && h.messageLink == link
    ensures h.foundAt == now
    ensures source.None? ==> h.source == RealtimeSource
    ensures source.Some? ==> h.source == source.value
  {
    PriceHistory(productId, userId, price, channel, text, link,
                 if source.Some? then source.value else RealtimeSource, now)
  }

  // ---------------------------------------------------------------------
  // Keys

  /** `users.user_id` is unique. */
  predicate UniqueUserIds(users: seq<User>) {
    forall i, j :: 0 <= i < j < |users| ==> users[i].userId != users[j].userId
  }

  /** `channels.id` is the primary key and `channels.identifier` is unique. */
  predicate UniqueChannels(channels: seq<Channel>) {
    forall i, j :: 0 <= i < j < |channels| ==>
      channels[i].id != channels[j].id && channels[i].identifier != channels[j].identifier
  }

  /** `user_channels` is keyed by the (user_id, channel_id) pair. */
  predicate UniqueMemberships(memberships: seq<Membership>) {
    forall i, j :: 0 <= i < j < |memberships| ==> memberships[i] != memberships[j]
  }

  /** `products.id` is the primary key and (user_id, name) is unique. */
  predicate UniqueProducts(products: seq<Product>) {
    forall i, j :: 0 <= i < j < |products| ==>
      products[i].id != products[j].id
      && (products[i].userId != products[j].userId || products[i].name != products[j].name)
  }

  predicate Consistent(users: seq<User>, channels: seq<Channel>,
                       memberships: seq<Membership>, products: seq<Product>) {
    UniqueUserIds(users) && UniqueChannels(channels)
    && UniqueMemberships(memberships) && UniqueProducts(products)
  }

  /** Two users may watch products of the same name. */
  lemma SameNameForTwoUsers(p: Product, q: Product)
    requires p.id != q.id && p.userId != q.userId && p.name == q.name
    ensures UniqueProducts([p, q])
  {
  }

  /** One user cannot watch the same name twice, whatever the other columns. */
  lemma SameNameForOneUser(p: Product, q: Product)
    requires p.userId == q.userId && p.name == q.name
    ensures !UniqueProducts([p, q])
  {
    assert [p, q][0] == p && [p, q][1] == q;
  }

  // ---------------------------------------------------------------------
  // Lookups by key

  /** `filter_by(identifier=...).one_or_none()` on `channels`. */
  function ChannelIndex(channels: seq<Channel>, identifier: string): (r: Option<nat>)
    ensures r.Some? ==> r.value < |channels| && channels[r.value].identifier == identifier
    ensures r.None? ==> forall i :: 0 <= i < |channels| ==> channels[i].identifier != identifier
  {
    if channels == [] then None
    else if channels[|channels| - 1].identifier == identifier then Some(|channels| - 1)
    else ChannelIndex(channels[..|channels| - 1], identifier)
  }

  /** The channel row with primary key `id`. */
  function ChannelById(channels: seq<Channel>, id: nat): (r: Option<Channel>)
    ensures r.Some? ==> r.value in channels && r.value.id == id
    ensures r.None? ==> forall i :: 0 <= i < |channels| ==> channels[i].id != id
  {
    if channels == [] then None
    else if channels[0].id == id then Some(channels[0])
    else ChannelById(channels[1..], id)
  }

  /** The user row with `user_id == userId`. */
  function UserById(users: seq<User>, userId: int): (r: Option<User>)
    ensures r.Some? ==> r.value in users && r.value.userId == userId
    ensures r.None? ==> forall i :: 0 <= i < |users| ==> users[i].userId != userId
  {
    if users == [] then None
    else if users[0].userId == userId then Some(users[0])
    else UserById(users[1..], userId)
  }

  /** The products of one user, in table order. */
  function ProductsOf(products: seq<Product>, userId: int): (r: seq<Product>)
    ensures |r| <= |products|
    ensures forall p :: p in r <==> p in products && p.userId == userId
  {
    if products == [] then []
    else (if products[0].userId == userId then [products[0]] else [])
         + ProductsOf(products[1..], userId)
  }

  /** The primary key SQLite gives the next row: one more than the largest. */
  function NextChannelId(channels: seq<Channel>): (id: nat)
    ensures forall i :: 0 <= i < |channels| ==> channels[i].id < id
  {
    if channels == [] then 1
    else
      var rest := NextChannelId(channels[1..]);
      if channels[0].id < rest then rest else channels[0].id + 1
  }

  /** The database: one sequence per table, in insertion order. */
  class Database {
    var users: seq<User>
    var channels: seq<Channel>
    var memberships: seq<Membership>
    var products: seq<Product>
    var history: seq<PriceHistory>

    predicate Valid()
      reads this
    {
      Consistent(users, channels, memberships, products)
    }

    constructor ()
      ensures Valid()
      ensures users == [] && channels == [] && memberships == [] && products == [] && history == []
    {
      users, channels, memberships, products, history := [], [], [], [], [];
    }
  }
}
