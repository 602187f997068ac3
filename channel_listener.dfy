/**
 * Matching of channel messages against watched products
 * (src/channel_listener.py): the text normaliser, the match decision, the
 * message permalink, and the handler that records and announces every
 * match of a new channel message.
 */
module ChannelListener {
  import opened Wrappers
  import opened Strings
  import opened PriceParser
  import opened Translations
  import opened Models

  // ---------------------------------------------------------------------
  // _normalize

  /** `re.sub(r"[-_]", "", s)` */
  function RemoveDashes(s: string): (r: string)
    ensures |r| <= |s|
  {
    if s == [] then []
    else (if s[0] == '-' || s[0] == '_' then [] else [s[0]]) + RemoveDashes(s[1..])
  }

  /** `re.sub(r"\s+", " ", s)`: every run of whitespace becomes one space. */
  function CollapseSpaces(s: string): (r: string)
    decreases |s|
  {
    if s == [] then []
    else if IsSpace(s[0]) then [' '] + CollapseSpaces(StripLeft(s[1..]))
    else [s[0]] + CollapseSpaces(s[1..])
  }

  /** `_normalize(text)` */
  function Normalize(text: string): string {
    Strip(CollapseSpaces(RemoveDashes(Lower(text))))
  }

  predicate NoUpper(s: string) {
    forall c :: c in s ==> !IsUpper(c)
  }

  predicate NoDash(s: string) {
    forall c :: c in s ==> c != '-' && c != '_'
  }

  /** Whitespace occurs only as single plain spaces. */
  predicate Collapsed(s: string) {
    forall k :: 0 <= k < |s| && IsSpace(s[k]) ==> s[k] == ' ' && (k + 1 < |s| ==> !IsSpace(s[k + 1]))
  }

  predicate Trimmed(s: string) {
    s == [] || (!IsSpace(s[0]) && !IsSpace(s[|s| - 1]))
  }

  /** The texts `_normalize` can return. */
  predicate IsNormal(s: string) {
    NoUpper(s) && NoDash(s) && Collapsed(s) && Trimmed(s)
  }

  lemma {:induction false} RemoveDashesChars(s: string)
    ensures NoDash(RemoveDashes(s))
    ensures forall c :: c in RemoveDashes(s) ==> c in s
    decreases |s|
  {
    if s != [] {
      RemoveDashesChars(s[1..]);
    }
  }

  lemma {:induction false} CollapseChars(s: string)
    ensures forall c :: c in CollapseSpaces(s) ==> c == ' ' || c in s
    decreases |s|
  {
    if s != [] {
      if IsSpace(s[0]) {
        var t := StripLeft(s[1..]);
        CollapseChars(t);
        assert forall c :: c in t ==> c in s by {
          assert t == s[1..][|s| - 1 - |t|..];
        }
      } else {
        CollapseChars(s[1..]);
      }
    }
  }

  lemma CollapseFirst(s: string)
    requires s != [] && !IsSpace(s[0])
    ensures CollapseSpaces(s) != [] && CollapseSpaces(s)[0] == s[0]
  {
  }

  lemma ConsCollapsed(c: char, rest: string)
    requires Collapsed(rest)
    requires IsSpace(c) ==> c == ' ' && (rest == [] || !IsSpace(rest[0]))
    ensures Collapsed([c] + rest)
  {
    var s := [c] + rest;
    forall k | 0 <= k < |s| && IsSpace(s[k])
      ensures s[k] == ' ' && (k + 1 < |s| ==> !IsSpace(s[k + 1]))
    {
      if k > 0 {
        assert s[k] == rest[k - 1];
        if k + 1 < |s| {
          assert s[k + 1] == rest[k];
        }
      }
    }
  }

  lemma {:induction false} CollapseCollapsed(s: string)
    ensures Collapsed(CollapseSpaces(s))
    decreases |s|
  {
    if s != [] {
      if IsSpace(s[0]) {
        var t := StripLeft(s[1..]);
        CollapseCollapsed(t);
        if t != [] {
          CollapseFirst(t);
        }
        ConsCollapsed(' ', CollapseSpaces(t));
      } else {
        CollapseCollapsed(s[1..]);
        ConsCollapsed(s[0], CollapseSpaces(s[1..]));
      }
    }
  }

  lemma CollapsedSlice(s: string, a: nat, b: nat)
    requires Collapsed(s) && a <= b <= |s|
    ensures Collapsed(s[a..b])
  {
    var t := s[a..b];
    forall k | 0 <= k < |t| && IsSpace(t[k])
      ensures t[k] == ' ' && (k + 1 < |t| ==> !IsSpace(t[k + 1]))
    {
      assert t[k] == s[a + k];
      if k + 1 < |t| {
        assert t[k + 1] == s[a + k + 1];
      }
    }
  }

  /** `_normalize` returns lower-case text without `-` or `_`, with single
      spaces between words and none at either end. */
  lemma NormalizeIsNormal(text: string)
    ensures IsNormal(Normalize(text))
  {
    var x := Lower(text);
    var y := RemoveDashes(x);
    var z := CollapseSpaces(y);
    assert NoUpper(y) && NoDash(y) by {
      LowerNoUpper(text);
      RemoveDashesChars(x);
    }
    assert NoUpper(z) && NoDash(z) && Collapsed(z) by {
      CollapseChars(y);
      CollapseCollapsed(y);
    }
    var n := Strip(z);
    var a := StripIsSlice(z);
    assert Collapsed(n) by {
      CollapsedSlice(z, a, a + |n|);
    }
    assert NoUpper(n) && NoDash(n) by {
      assert forall c :: c in n ==> c in z;
    }
  }

  lemma LowerNoUpper(s: string)
    ensures NoUpper(Lower(s))
  {
    var x := Lower(s);
    forall c | c in x ensures !IsUpper(c) {
      var k :| 0 <= k < |x| && x[k] == c;
    }
  }

  lemma {:induction false} RemoveDashesNoop(s: string)
    requires NoDash(s)
    ensures RemoveDashes(s) == s
    decreases |s|
  {
    if s != [] {
      assert s[0] in s;
      assert forall c :: c in s[1..] ==> c in s;
      RemoveDashesNoop(s[1..]);
      assert [s[0]] + s[1..] == s;
    }
  }

  lemma {:induction false} CollapseNoop(s: string)
    requires Collapsed(s)
    ensures CollapseSpaces(s) == s
    decreases |s|
  {
    if s != [] {
      CollapsedSlice(s, 1, |s|);
      CollapseNoop(s[1..]);
      if IsSpace(s[0]) {
        assert StripLeft(s[1..]) == s[1..];
      }
      assert [s[0]] + s[1..] == s;
    }
  }

  /** A normal text is its own normal form. */
  lemma NormalFixed(s: string)
    requires IsNormal(s)
    ensures Normalize(s) == s
  {
    assert Lower(s) == s by {
      forall k | 0 <= k < |s| ensures Lower(s)[k] == s[k] {
        assert s[k] in s;
      }
    }
    RemoveDashesNoop(s);
    CollapseNoop(s);
  }

  /** Normalising twice is normalising once. */
  lemma NormalizeIdempotent(text: string)
    ensures Normalize(Normalize(text)) == Normalize(text)
  {
    NormalizeIsNormal(text);
    NormalFixed(Normalize(text));
  }

  lemma {:induction false} RemoveDashesAppend(a: string, b: string)
    ensures RemoveDashes(a + b) == RemoveDashes(a) + RemoveDashes(b)
    decreases |a|
  {
    if a == [] {
      assert a + b == b;
    } else {
      var h := if a[0] == '-' || a[0] == '_' then [] else [a[0]];
      assert RemoveDashes(a + b) == h + RemoveDashes(a[1..] + b) by {
        assert (a + b)[0] == a[0] && (a + b)[1..] == a[1..] + b;
      }
      RemoveDashesAppend(a[1..], b);
      AppendAssoc(h, RemoveDashes(a[1..]), RemoveDashes(b));
    }
  }

  /** A hyphen or underscore vanishes without leaving a space: "i-Phone"
      and "Air_Pods" read as "iphone" and "airpods". */
  lemma DashVanishes(a: string, d: char, b: string)
    requires d == '-' || d == '_'
    ensures Normalize(a + [d] + b) == Normalize(a + b)
  {
    LowerAppend(a + [d], b);
    LowerAppend(a, [d]);
    LowerAppend(a, b);
    assert Lower([d]) == [d];
    RemoveDashesAppend(Lower(a) + [d], Lower(b));
    RemoveDashesAppend(Lower(a), [d]);
    RemoveDashesAppend(Lower(a), Lower(b));
    assert RemoveDashes([d]) == [];
    assert RemoveDashes(Lower(a)) + [] == RemoveDashes(Lower(a));
  }

  predicate AllSpaces(u: string) {
    forall k :: 0 <= k < |u| ==> IsSpace(u[k])
  }

  /** `lstrip` runs through leading whitespace into what follows it. */
  lemma {:induction false} StripLeftThroughSpaces(u: string, v: string)
    requires AllSpaces(u)
    ensures StripLeft(u + v) == StripLeft(v)
    decreases |u|
  {
    if u == [] {
      assert u + v == v;
    } else {
      assert (u + v)[0] == u[0] && (u + v)[1..] == u[1..] + v;
      assert AllSpaces(u[1..]) by {
        assert forall k :: 0 <= k < |u[1..]| ==> u[1..][k] == u[k + 1];
      }
      StripLeftThroughSpaces(u[1..], v);
    }
  }

  /** `lstrip` stops inside `u` when `u` has a non-space. */
  lemma {:induction false} StripLeftStops(u: string, v: string)
    requires !AllSpaces(u)
    ensures StripLeft(u + v) == StripLeft(u) + v
    decreases |u|
  {
    assert u != [];
    if IsSpace(u[0]) {
      assert !AllSpaces(u[1..]) by {
        var k :| 0 <= k < |u| && !IsSpace(u[k]);
        assert u[1..][k - 1] == u[k];
      }
      assert StripLeft(u + v) == StripLeft(u[1..] + v) by {
        assert (u + v)[0] == u[0] && (u + v)[1..] == u[1..] + v;
      }
      StripLeftStops(u[1..], v);
    } else {
      assert (u + v)[0] == u[0];
    }
  }

  /** Whatever precedes them, two tails that start with whitespace and
      agree after it collapse alike. */
  lemma {:induction false} CollapseSameTail(x: string, t1: string, t2: string)
    requires t1 != [] && t2 != [] && IsSpace(t1[0]) && IsSpace(t2[0])
    requires StripLeft(t1) == StripLeft(t2)
    ensures CollapseSpaces(x + t1) == CollapseSpaces(x + t2)
    decreases |x|
  {
    if x == [] {
      assert x + t1 == t1 && x + t2 == t2;
    } else {
      var u := x[1..];
      assert (x + t1)[0] == x[0] && (x + t1)[1..] == u + t1;
      assert (x + t2)[0] == x[0] && (x + t2)[1..] == u + t2;
      if !IsSpace(x[0]) {
        CollapseSameTail(u, t1, t2);
      } else if AllSpaces(u) {
        StripLeftThroughSpaces(u, t1);
        StripLeftThroughSpaces(u, t2);
      } else {
        StripLeftStops(u, t1);
        StripLeftStops(u, t2);
        CollapseSameTail(StripLeft(u), t1, t2);
      }
    }
  }

  /** Lower-casing and dropping `-` and `_` work piece by piece. */
  lemma Prepare3(a: string, m: string, b: string)
    ensures RemoveDashes(Lower(a + m + b))
         == RemoveDashes(Lower(a)) + RemoveDashes(Lower(m)) + RemoveDashes(Lower(b))
  {
    LowerAppend(a + m, b);
    LowerAppend(a, m);
    RemoveDashesAppend(Lower(a) + Lower(m), Lower(b));
    RemoveDashesAppend(Lower(a), Lower(m));
  }

  lemma {:induction false} SpacesSurvive(m: string)
    requires AllSpaces(m)
    ensures RemoveDashes(Lower(m)) == m
    decreases |m|
  {
    if m != [] {
      LowerAppend([m[0]], m[1..]);
      assert [m[0]] + m[1..] == m;
      assert Lower([m[0]]) == [m[0]];
      RemoveDashesAppend([m[0]], Lower(m[1..]));
      assert AllSpaces(m[1..]) by {
        assert forall k :: 0 <= k < |m[1..]| ==> m[1..][k] == m[k + 1];
      }
      SpacesSurvive(m[1..]);
    }
  }

  /** Several spaces between words read as one: "iPhone  15" is
      "iphone 15". */
  lemma SpaceRunCollapses(a: string, c: char, d: char, b: string)
    requires IsSpace(c) && IsSpace(d)
    ensures Normalize(a + [c, d] + b) == Normalize(a + [c] + b)
  {
    var ra, rb := RemoveDashes(Lower(a)), RemoveDashes(Lower(b));
    PrepareAround(a, [c, d], b);
    PrepareAround(a, [c], b);
    CollapseRunTail(ra, c, d, rb);
    NormalizeVia(a + [c, d] + b, ra + ([c, d] + rb));
    NormalizeVia(a + [c] + b, ra + ([c] + rb));
  }

  lemma PrepareAround(a: string, m: string, b: string)
    requires AllSpaces(m)
    ensures RemoveDashes(Lower(a + m + b)) == RemoveDashes(Lower(a)) + (m + RemoveDashes(Lower(b)))
  {
    Prepare3(a, m, b);
    SpacesSurvive(m);
  }

  lemma CollapseRunTail(ra: string, c: char, d: char, rb: string)
    requires IsSpace(c) && IsSpace(d)
    ensures CollapseSpaces(ra + ([c, d] + rb)) == CollapseSpaces(ra + ([c] + rb))
  {
    var t1 := [d] + rb;
    assert [c, d] + rb == [c] + t1;
    StripLeftCons(c, t1);
    StripLeftCons(d, rb);
    StripLeftCons(c, rb);
    CollapseSameTail(ra, [c] + t1, [c] + rb);
  }

  lemma StripLeftCons(c: char, s: string)
    requires IsSpace(c)
    ensures StripLeft([c] + s) == StripLeft(s)
  {
    assert ([c] + s)[1..] == s;
  }

  lemma NormalizeVia(s: string, r: string)
    requires RemoveDashes(Lower(s)) == r
    ensures Normalize(s) == Strip(CollapseSpaces(r))
  {
  }

  // ---------------------------------------------------------------------
  // check_product_match

  /** `min(prices)` */
  function MinOf(s: seq<nat>): (m: nat)
    requires |s| > 0
    ensures m in s && forall x :: x in s ==> m <= x
  {
    if |s| == 1 then s[0]
    else
      var rest := MinOf(s[1..]);
      assert forall x :: x in s ==> x == s[0] || x in s[1..];
      if s[0] <= rest then s[0] else rest
  }

  /** The dict `check_product_match` returns on a match: without a target
      both `price_found` and `target_price` are None; with one, they are the
      lowest price in the message and the target. */
  datatype MatchResult = AnyPrice | WithinTarget(priceFound: nat, targetPrice: int)

  /** `result["price_found"]` */
  function PriceFound(r: MatchResult): Option<nat> {
    if r.AnyPrice? then None else Some(r.priceFound)
  }

  /** `check_product_match(product, text)` for a product with this name and
      target (in cents). The name is looked for in the normalised text; the
      prices come from the text as it was sent. */
  function CheckProductMatch(name: string, target: Option<int>, text: string): (r: Option<MatchResult>)
    ensures r.Some? ==> Contains(Normalize(text), Normalize(name))
  {
    if !Contains(Normalize(text), Normalize(name)) then None
    else if target.Some? then
      var prices := Prices(text);
      if prices == [] || MinOf(prices) > target.value then None
      else Some(WithinTarget(MinOf(prices), target.value))
    else Some(AnyPrice)
  }

  /** A message matches when the normalised name occurs in the normalised
      text and, for a product with a target, some price in the text is at
      most the target; the price reported is then the lowest in the text. */
  lemma CheckProductMatchSpec(name: string, target: Option<int>, text: string)
    ensures var r := CheckProductMatch(name, target, text);
      && (r.Some? <==> Contains(Normalize(text), Normalize(name))
                       && (target.None? || exists p :: p in Prices(text) && p <= target.value))
      && (r.Some? && target.None? ==> r.value == AnyPrice)
      && (r.Some? && target.Some? ==>
            && r.value.WithinTarget?
            && r.value.targetPrice == target.value
            && r.value.priceFound in Prices(text)
            && r.value.priceFound <= target.value
            && forall p :: p in Prices(text) ==> r.value.priceFound <= p)
  {
    if Contains(Normalize(text), Normalize(name)) && target.Some? {
      var prices := Prices(text);
      if prices != [] {
        var m := MinOf(prices);
      }
    }
  }

  /** A name that normalises to nothing, such as "--", matches every
      message. */
  lemma EmptyNameMatchesAll(name: string, text: string)
    requires Normalize(name) == []
    ensures CheckProductMatch(name, None, text) == Some(AnyPrice)
  {
    assert ContainsAt(Normalize(text), [], 0);
  }

  /** The normal form is never longer than the text. */
  lemma NormalizeShorter(text: string)
    ensures |Normalize(text)| <= |text|
  {
    CollapseShorter(RemoveDashes(Lower(text)));
  }

  lemma {:induction false} CollapseShorter(s: string)
    ensures |CollapseSpaces(s)| <= |s|
    decreases |s|
  {
    if s != [] {
      if IsSpace(s[0]) {
        CollapseShorter(StripLeft(s[1..]));
      } else {
        CollapseShorter(s[1..]);
      }
    }
  }

  /** A text without white space only loses its case and its dashes. */
  lemma UnspacedNormal(text: string)
    requires forall k :: 0 <= k < |text| ==> !IsSpace(text[k])
    ensures Normalize(text) == RemoveDashes(Lower(text))
    ensures ' ' !in Normalize(text)
  {
    var low := Lower(text);
    var r := RemoveDashes(low);
    RemoveDashesChars(low);
    assert forall c :: c in low ==> !IsSpace(c) by {
      forall c | c in low ensures !IsSpace(c) {
        var k :| 0 <= k < |low| && low[k] == c;
        assert !IsSpace(LowerChar(text[k]));
      }
    }
    assert forall k :: 0 <= k < |r| ==> !IsSpace(r[k]) by {
      forall k | 0 <= k < |r| ensures !IsSpace(r[k]) {
        assert r[k] in r;
      }
    }
    CollapseNoop(r);
    assert ' ' !in r by {
      assert IsSpace(' ');
      assert forall k :: 0 <= k < |r| ==> r[k] != ' ';
    }
  }

  /** A pattern with a space is not in a text without one. */
  lemma SpacedNotContained(t: string, n: string)
    requires ' ' in n && ' ' !in t
    ensures !Contains(t, n)
  {
    var j :| 0 <= j < |n| && n[j] == ' ';
    forall i: nat ensures !ContainsAt(t, n, i) {
      if i + |n| <= |t| {
        assert t[i..i + |n|][j] == t[i + j] != ' ';
      }
    }
  }

  /** Matching never adds spaces: a product whose name holds a space, such
      as "iphone 15", never matches a message without white space, such as
      "iPhone15". */
  lemma SpacedNameNeedsSpacedText(name: string, target: Option<int>, text: string)
    requires ' ' in Normalize(name)
    requires forall k :: 0 <= k < |text| ==> !IsSpace(text[k])
    ensures CheckProductMatch(name, target, text).None?
  {
    UnspacedNormal(text);
    SpacedNotContained(Normalize(text), Normalize(name));
  }

  // ---------------------------------------------------------------------
  // _build_message_link

  const PublicLinkBase: string := "https://t.me/"
  const PrivateLinkBase: string := "https://t.me/c/"

  /** `str(channel_id)` without the "-100" Telegram puts before the ids of
      channels. */
  function CleanId(id: int): (r: string)
    ensures StartsWith(IntToString(id), "-100") ==> "-100" + r == IntToString(id)
    ensures !StartsWith(IntToString(id), "-100") ==> r == IntToString(id)
  {
    var s := IntToString(id);
    if StartsWith(s, "-100") then s[4..] else s
  }

  /** Putting the prefix back gives the channel id again. */
  lemma CleanIdRoundTrip(id: int)
    ensures ParseInt((if StartsWith(IntToString(id), "-100") then "-100" else "") + CleanId(id)) == Some(id)
  {
    var restored := (if StartsWith(IntToString(id), "-100") then "-100" else "") + CleanId(id);
    assert restored == IntToString(id) by {
      if !StartsWith(IntToString(id), "-100") {
        assert "" + CleanId(id) == IntToString(id);
      }
    }
    ParseIntOfToString(id);
  }

  /** An id that `str` writes without a sign, as every positive one, is used
      as it is. */
  lemma PositiveIdKept(id: int)
    requires id > 0
    ensures CleanId(id) == NatToString(id)
  {
    assert IntToString(id)[0] != '-' by {
      assert AllDigits(IntToString(id));
    }
  }

  /** `_build_message_link(channel_username, channel_id, message_id)` */
  function BuildMessageLink(username: Option<string>, channelId: Option<int>, messageId: int): (r: Option<string>)
    ensures r.Some? <==> Truthy(username) || (channelId.Some? && channelId.value != 0)
    ensures Truthy(username) ==> r == Some(PublicLinkBase + username.value + "/" + IntToString(messageId))
    ensures !Truthy(username) && r.Some? ==>
      r == Some(PrivateLinkBase + CleanId(channelId.value) + "/" + IntToString(messageId))
  {
    if Truthy(username) then Some(PublicLinkBase + username.value + "/" + IntToString(messageId))
    else if channelId.Some? && channelId.value != 0 then
      Some(PrivateLinkBase + CleanId(channelId.value) + "/" + IntToString(messageId))
    else None
  }

  /** `str(n)` holds no slash. */
  lemma NoSlashInNumber(n: int)
    ensures '/' !in IntToString(n)
  {
    if n < 0 {
      assert IntToString(n) == "-" + NatToString(-n);
      assert AllDigits(NatToString(-n));
    } else {
      assert AllDigits(IntToString(n));
    }
  }

  /** The segment after the last slash of `head/n` reads back as n. */
  lemma LastSegmentIsNumber(head: string, n: int)
    ensures var parts := Split(head + ['/'] + IntToString(n), '/');
            |parts| >= 2 && ParseInt(parts[|parts| - 1]) == Some(n)
  {
    NoSlashInNumber(n);
    SplitLastPiece(head, IntToString(n), '/');
    ParseIntOfToString(n);
  }

  /** Whatever the channel, the last path segment of a link is the message
      id, which reads back as that id. */
  lemma LinkNamesMessage(username: Option<string>, channelId: Option<int>, messageId: int)
    requires BuildMessageLink(username, channelId, messageId).Some?
    ensures var parts := Split(BuildMessageLink(username, channelId, messageId).value, '/');
            |parts| >= 2 && ParseInt(parts[|parts| - 1]) == Some(messageId)
  {
    var link := BuildMessageLink(username, channelId, messageId).value;
    var head := if Truthy(username) then PublicLinkBase + username.value
                else PrivateLinkBase + CleanId(channelId.value);
    assert link == head + ['/'] + IntToString(messageId);
    LastSegmentIsNumber(head, messageId);
  }

  /** A username decides the link whatever the id. */
  lemma UsernameWins(username: string, id1: Option<int>, id2: Option<int>, messageId: int)
    requires username != ""
    ensures BuildMessageLink(Some(username), id1, messageId) == BuildMessageLink(Some(username), id2, messageId)
  {
  }

  // ---------------------------------------------------------------------
  // on_channel_message

  /** What `event.get_chat()` tells of the channel: each attribute may be
      missing. */
  datatype Chat = Chat(title: Option<string>, username: Option<string>, id: Option<int>)

  const UnknownChannel: string := "Unknown channel"
  const HistoryTextLimit: nat := 500

  /** `chat.title or chat.username or "Unknown channel"` */
  function ChannelName(chat: Chat): (r: string)
    ensures r != ""
    ensures Truthy(chat.title) ==> r == chat.title.value
    ensures !Truthy(chat.title) && Truthy(chat.username) ==> r == chat.username.value
    ensures !Truthy(chat.title) && !Truthy(chat.username) ==> r == UnknownChannel
  {
    if Truthy(chat.title) then chat.title.value
    else if Truthy(chat.username) then chat.username.value
    else UnknownChannel
  }

  predicate HasId(chat: Chat) {
    chat.id.Some? && chat.id.value != 0
  }

  /** `possible_ids`: the username, then `str(id)`, each when truthy. */
  function PossibleIds(chat: Chat): (r: seq<string>)
    ensures |r| <= 2
    ensures r == [] <==> !Truthy(chat.username) && !HasId(chat)
    ensures forall x :: x in r <==>
      (Truthy(chat.username) && x == chat.username.value) || (HasId(chat) && x == IntToString(chat.id.value))
  {
    (if Truthy(chat.username) then [chat.username.value] else [])
    + (if HasId(chat) then [IntToString(chat.id.value)] else [])
  }

  /** A row of the handler's query: a product and its owner's language,
      `user.lang_code or "en"`. */
  datatype Candidate = Candidate(product: Product, lang: string)

  function LangOr(langCode: string): (r: string)
    ensures r != ""
    ensures langCode != "" ==> r == langCode
    ensures langCode == "" ==> r == DefaultLanguage
  {
    if langCode == "" then DefaultLanguage else langCode
  }

  /** The membership joins the user to a channel row whose identifier is
      one of `ids`. */
  predicate FollowsVia(m: Membership, channels: seq<Channel>, userId: int, ids: seq<string>) {
    m.userId == userId
    && ChannelById(channels, m.channelId).Some?
    && ChannelById(channels, m.channelId).value.identifier in ids
  }

  /** How many memberships join the user to a channel named by `ids`: the
      join yields one row per such membership. */
  function FollowCount(memberships: seq<Membership>, channels: seq<Channel>, userId: int,
                       ids: seq<string>): (n: nat)
    ensures n <= |memberships|
  {
    if memberships == [] then 0
    else (if FollowsVia(memberships[0], channels, userId, ids) then 1 else 0)
         + FollowCount(memberships[1..], channels, userId, ids)
  }

  lemma {:induction false} FollowCountPositive(memberships: seq<Membership>, channels: seq<Channel>,
                                               userId: int, ids: seq<string>)
    ensures FollowCount(memberships, channels, userId, ids) > 0 <==>
            exists m :: m in memberships && FollowsVia(m, channels, userId, ids)
    decreases |memberships|
  {
    if memberships != [] {
      FollowCountPositive(memberships[1..], channels, userId, ids);
      assert forall m :: m in memberships <==> m == memberships[0] || m in memberships[1..];
    }
  }

  /** The rows the query yields for one product. */
  function RowsFor(p: Product, users: seq<User>, channels: seq<Channel>,
                   memberships: seq<Membership>, ids: seq<string>): (r: seq<Candidate>)
    ensures forall c :: c in r ==> c.product == p
  {
    var u := UserById(users, p.userId);
    if u.None? || u.value.paused then []
    else seq(FollowCount(memberships, channels, p.userId, ids), _ => Candidate(p, LangOr(u.value.langCode)))
  }

  /** The query of products whose owner follows the channel and is not
      paused, product by product. */
  function Candidates(products: seq<Product>, users: seq<User>, channels: seq<Channel>,
                      memberships: seq<Membership>, ids: seq<string>): (r: seq<Candidate>)
  {
    if products == [] then []
    else RowsFor(products[0], users, channels, memberships, ids)
         + Candidates(products[1..], users, channels, memberships, ids)
  }

  /** The owner of a row exists, is not paused, follows the channel through
      a membership, and the row carries the owner's language. */
  predicate Eligible(c: Candidate, products: seq<Product>, users: seq<User>, channels: seq<Channel>,
                     memberships: seq<Membership>, ids: seq<string>) {
    && c.product in products
    && UserById(users, c.product.userId).Some?
    && !UserById(users, c.product.userId).value.paused
    && c.lang == LangOr(UserById(users, c.product.userId).value.langCode)
    && exists m :: m in memberships && FollowsVia(m, channels, c.product.userId, ids)
  }

  /** Exactly the products of unpaused followers are examined. */
  lemma {:induction false} CandidatesExact(products: seq<Product>, users: seq<User>, channels: seq<Channel>,
                                           memberships: seq<Membership>, ids: seq<string>)
    ensures forall c :: c in Candidates(products, users, channels, memberships, ids) ==>
              Eligible(c, products, users, channels, memberships, ids)
    ensures forall p :: (p in products && UserById(users, p.userId).Some?
              && !UserById(users, p.userId).value.paused
              && exists m :: m in memberships && FollowsVia(m, channels, p.userId, ids)) ==>
              Candidate(p, LangOr(UserById(users, p.userId).value.langCode))
                in Candidates(products, users, channels, memberships, ids)
    decreases |products|
  {
    if products != [] {
      var p := products[0];
      var rows := RowsFor(p, users, channels, memberships, ids);
      var rest := Candidates(products[1..], users, channels, memberships, ids);
      CandidatesExact(products[1..], users, channels, memberships, ids);
      FollowCountPositive(memberships, channels, p.userId, ids);
      assert forall q :: q in products <==> q == p || q in products[1..];
      forall c | c in rows ensures Eligible(c, products, users, channels, memberships, ids) {
        var k :| 0 <= k < |rows| && rows[k] == c;
      }
      if UserById(users, p.userId).Some? && !UserById(users, p.userId).value.paused
         && (exists m :: m in memberships && FollowsVia(m, channels, p.userId, ids)) {
        assert rows[0] == Candidate(p, LangOr(UserById(users, p.userId).value.langCode));
      }
    }
  }

  /** The rows the handler goes through: none when the message has no text
      or the channel has neither username nor id. */
  function Examined(text: string, chat: Chat, products: seq<Product>, users: seq<User>,
                    channels: seq<Channel>, memberships: seq<Membership>): seq<Candidate>
  {
    if text == [] || PossibleIds(chat) == [] then []
    else Candidates(products, users, channels, memberships, PossibleIds(chat))
  }

  /** The match decision for one row. */
  function Outcome(c: Candidate, text: string): Option<MatchResult> {
    CheckProductMatch(c.product.name, c.product.targetPrice, text)
  }

  /** The `price_history` row the handler adds for a match. */
  function RecordOf(c: Candidate, r: MatchResult, text: string, chat: Chat,
                    messageId: int, now: string): (h: PriceHistory)
    ensures h.productId == c.product.id && h.userId == c.product.userId
    ensures h.price == PriceFound(r) && h.source == RealtimeSource
    ensures |h.messageText| <= HistoryTextLimit && |h.messageText| <= |text|
    ensures h.messageText == text[..|h.messageText|]
    ensures h.channel == ChannelName(chat)
    ensures h.messageLink == BuildMessageLink(chat.username, chat.id, messageId)
  {
    NewHistory(c.product.id, c.product.userId, PriceFound(r), ChannelName(chat),
               Take(text, HistoryTextLimit), BuildMessageLink(chat.username, chat.id, messageId),
               Some(RealtimeSource), now)
  }

  /** The row added for one examined row: one if it matches. */
  function RecordStep(c: Candidate, text: string, chat: Chat, messageId: int, now: string): (r: seq<PriceHistory>)
    ensures |r| <= 1
  {
    match Outcome(c, text)
    case None => []
    case Some(m) => [RecordOf(c, m, text, chat, messageId, now)]
  }

  /** The rows added for the examined rows, in order: one per match. */
  function Records(cs: seq<Candidate>, text: string, chat: Chat, messageId: int,
                   now: string): (r: seq<PriceHistory>)
    ensures |r| <= |cs|
  {
    if cs == [] then []
    else Records(cs[..|cs| - 1], text, chat, messageId, now)
         + RecordStep(cs[|cs| - 1], text, chat, messageId, now)
  }

  /** A message for the bot to send: the recipient and the text. */
  datatype Notice = Notice(chatId: int, text: string)

  /** The notification for a match, in the row's language. */
  function MatchNotice(c: Candidate, r: MatchResult, text: string, chat: Chat, messageId: int,
                       cat: Catalogue): (n: Notice)
    ensures n.chatId == c.product.userId
  {
    var link := BuildMessageLink(chat.username, chat.id, messageId);
    var priceLine :=
      if r.WithinTarget? then
        T(Catalogued(NotifyPriceLine), c.lang, [("price", Cents(r.priceFound)), ("target", Cents(r.targetPrice))], cat)
      else "";
    var linkLine :=
      if link.Some? then T(Catalogued(NotifyLinkLine), c.lang, [("link", Text(link.value))], cat)
      else "";
    Notice(c.product.userId,
           T(Catalogued(NotifyMatch), c.lang,
             [("product", Text(c.product.name)), ("channel", Text(ChannelName(chat))),
              ("price_line", Text(priceLine)), ("text", Text(text)), ("link_line", Text(linkLine))],
             cat))
  }

  /** The notification delivered for the examined row at position `k`:
      one if it matches and its send does not fail. */
  function NoticeStep(c: Candidate, k: nat, text: string, chat: Chat, messageId: int, cat: Catalogue,
                      sendFails: set<nat>): (r: seq<Notice>)
    ensures |r| <= 1
  {
    match Outcome(c, text)
    case None => []
    case Some(m) => if k in sendFails then [] else [MatchNotice(c, m, text, chat, messageId, cat)]
  }

  /** The notifications delivered for the examined rows; the send for the
      row at a position in `sendFails` raises and is only logged. */
  function Notices(cs: seq<Candidate>, text: string, chat: Chat, messageId: int, cat: Catalogue,
                   sendFails: set<nat>): (r: seq<Notice>)
    ensures |r| <= |cs|
  {
    if cs == [] then []
    else Notices(cs[..|cs| - 1], text, chat, messageId, cat, sendFails)
         + NoticeStep(cs[|cs| - 1], |cs| - 1, text, chat, messageId, cat, sendFails)
  }

  /** Every row added is a match of an examined product, tagged "realtime",
      with at most 500 characters of the message. */
  lemma {:induction false} RecordsSound(cs: seq<Candidate>, text: string, chat: Chat, messageId: int, now: string)
    ensures forall h :: h in Records(cs, text, chat, messageId, now) ==>
      && h.source == RealtimeSource
      && |h.messageText| <= HistoryTextLimit
      && exists c :: c in cs && Outcome(c, text).Some? && h.productId == c.product.id
                     && h.userId == c.product.userId && h.price == PriceFound(Outcome(c, text).value)
    decreases |cs|
  {
    if cs != [] {
      var init := cs[..|cs| - 1];
      RecordsSound(init, text, chat, messageId, now);
      assert forall c :: c in init ==> c in cs;
      assert cs[|cs| - 1] in cs;
    }
  }

  /** Every match is recorded, whether or not its notification goes out. */
  lemma {:induction false} EveryMatchRecorded(cs: seq<Candidate>, text: string, chat: Chat, messageId: int, now: string)
    ensures forall c :: c in cs && Outcome(c, text).Some? ==>
      RecordOf(c, Outcome(c, text).value, text, chat, messageId, now) in Records(cs, text, chat, messageId, now)
    decreases |cs|
  {
    if cs != [] {
      var init := cs[..|cs| - 1];
      EveryMatchRecorded(init, text, chat, messageId, now);
      assert forall c :: c in cs ==> c in init || c == cs[|cs| - 1];
    }
  }

  /** Without failed sends, every recorded match is announced to the owner
      of its product, one notification per row, in the same order. */
  lemma {:induction false} NoFailuresNotifyEveryMatch(cs: seq<Candidate>, text: string, chat: Chat, messageId: int,
                                                      now: string, cat: Catalogue)
    ensures var rs := Records(cs, text, chat, messageId, now);
            var ns := Notices(cs, text, chat, messageId, cat, {});
            |ns| == |rs| && forall k :: 0 <= k < |ns| ==> ns[k].chatId == rs[k].userId
    decreases |cs|
  {
    if cs != [] {
      var init, c := cs[..|cs| - 1], cs[|cs| - 1];
      NoFailuresNotifyEveryMatch(init, text, chat, messageId, now, cat);
      var ri, ni := Records(init, text, chat, messageId, now), Notices(init, text, chat, messageId, cat, {});
      var rc := RecordStep(c, text, chat, messageId, now);
      var nc := NoticeStep(c, |cs| - 1, text, chat, messageId, cat, {});
      StepsAgree(c, |cs| - 1, text, chat, messageId, now, cat);
      AddressedAlike(ni, nc, ri, rc);
    }
  }

  /** Notices addressed like the rows, one to one, stay so when both are
      extended alike. */
  lemma AddressedAlike(ni: seq<Notice>, nc: seq<Notice>, ri: seq<PriceHistory>, rc: seq<PriceHistory>)
    requires |ni| == |ri| && forall k :: 0 <= k < |ni| ==> ni[k].chatId == ri[k].userId
    requires |nc| == |rc| && forall k :: 0 <= k < |nc| ==> nc[k].chatId == rc[k].userId
    ensures |ni + nc| == |ri + rc|
    ensures forall k :: 0 <= k < |ni + nc| ==> (ni + nc)[k].chatId == (ri + rc)[k].userId
  {
    forall k | 0 <= k < |ni + nc| ensures (ni + nc)[k].chatId == (ri + rc)[k].userId {
      if k >= |ni| {
        assert (ni + nc)[k] == nc[k - |ni|] && (ri + rc)[k] == rc[k - |ri|];
      }
    }
  }

  /** One examined row gives a notification exactly when it gives a row,
      addressed to that row's user, when no send fails. */
  lemma StepsAgree(c: Candidate, k: nat, text: string, chat: Chat, messageId: int, now: string, cat: Catalogue)
    ensures var rc := RecordStep(c, text, chat, messageId, now);
            var nc := NoticeStep(c, k, text, chat, messageId, cat, {});
            |nc| == |rc| && forall k :: 0 <= k < |nc| ==> nc[k].chatId == rc[k].userId
  {
  }

  /** Each failed send loses one notification and nothing else. */
  lemma {:induction false} FailuresOnlyDropNotices(cs: seq<Candidate>, text: string, chat: Chat, messageId: int,
                                                   cat: Catalogue, sendFails: set<nat>)
    ensures |Notices(cs, text, chat, messageId, cat, sendFails)| <= |Notices(cs, text, chat, messageId, cat, {})|
    ensures (forall k :: 0 <= k < |cs| ==> k !in sendFails) ==>
      Notices(cs, text, chat, messageId, cat, sendFails) == Notices(cs, text, chat, messageId, cat, {})
    decreases |cs|
  {
    if cs != [] {
      FailuresOnlyDropNotices(cs[..|cs| - 1], text, chat, messageId, cat, sendFails);
    }
  }

  /** A paused user, or one that follows neither the channel's username
      nor its id, gets no row and no notification. */
  lemma OnlyUnpausedFollowersRecorded(text: string, chat: Chat, products: seq<Product>, users: seq<User>,
                                      channels: seq<Channel>, memberships: seq<Membership>,
                                      messageId: int, now: string)
    ensures forall h :: h in Records(Examined(text, chat, products, users, channels, memberships),
                                     text, chat, messageId, now) ==>
      && UserById(users, h.userId).Some? && !UserById(users, h.userId).value.paused
      && exists m :: m in memberships && FollowsVia(m, channels, h.userId, PossibleIds(chat))
  {
    var cs := Examined(text, chat, products, users, channels, memberships);
    RecordsSound(cs, text, chat, messageId, now);
    if cs != [] {
      CandidatesExact(products, users, channels, memberships, PossibleIds(chat));
    }
  }

  lemma RecordsSnoc(cs: seq<Candidate>, i: nat, text: string, chat: Chat, messageId: int, now: string)
    requires i < |cs|
    ensures Records(cs[..i + 1], text, chat, messageId, now)
            == Records(cs[..i], text, chat, messageId, now) + RecordStep(cs[i], text, chat, messageId, now)
  {
    assert cs[..i + 1][..i] == cs[..i];
  }

  lemma NoticesSnoc(cs: seq<Candidate>, i: nat, text: string, chat: Chat, messageId: int, cat: Catalogue,
                    sendFails: set<nat>)
    requires i < |cs|
    ensures Notices(cs[..i + 1], text, chat, messageId, cat, sendFails)
            == Notices(cs[..i], text, chat, messageId, cat, sendFails)
               + NoticeStep(cs[i], i, text, chat, messageId, cat, sendFails)
  {
    assert cs[..i + 1][..i] == cs[..i];
  }

  /** The loop of `on_channel_message` over the examined rows, in order:
      each match gives a history row, and its notification is sent unless
      that send fails. Returns the rows to add and the notifications sent. */
  method HandleRows(cs: seq<Candidate>, text: string, chat: Chat, messageId: int,
                    now: string, cat: Catalogue, sendFails: set<nat>)
    returns (added: seq<PriceHistory>, sent: seq<Notice>)
    ensures added == Records(cs, text, chat, messageId, now)
    ensures sent == Notices(cs, text, chat, messageId, cat, sendFails)
  {
    added, sent := [], [];
    var i := 0;
    while i < |cs|
      invariant 0 <= i <= |cs|
      invariant added == Records(cs[..i], text, chat, messageId, now)
      invariant sent == Notices(cs[..i], text, chat, messageId, cat, sendFails)
    {
      RecordsSnoc(cs, i, text, chat, messageId, now);
      NoticesSnoc(cs, i, text, chat, messageId, cat, sendFails);
      var result := CheckProductMatch(cs[i].product.name, cs[i].product.targetPrice, text);
      if result.Some? {
        added := added + [RecordOf(cs[i], result.value, text, chat, messageId, now)];
        if i !in sendFails {
          sent := sent + [MatchNotice(cs[i], result.value, text, chat, messageId, cat)];
        }
      }
      i := i + 1;
    }
    assert cs[..i] == cs;
  }

  /** `on_channel_message(event)`: a message without text is ignored; the
      rows examined are those of the query, and only the history table
      changes. Returns the notifications sent. */
  method OnChannelMessage(db: Database, text: string, chat: Chat, messageId: int, now: string,
                          cat: Catalogue, sendFails: set<nat>) returns (sent: seq<Notice>)
    modifies db
    ensures db.users == old(db.users) && db.channels == old(db.channels)
    ensures db.memberships == old(db.memberships) && db.products == old(db.products)
    ensures db.history == old(db.history)
      + Records(Examined(text, chat, db.products, db.users, db.channels, db.memberships),
                text, chat, messageId, now)
    ensures sent == Notices(Examined(text, chat, db.products, db.users, db.channels, db.memberships),
                            text, chat, messageId, cat, sendFails)
  {
    if text == [] {
      assert db.history == old(db.history) + [];
      return [];
    }
    var cs := Examined(text, chat, db.products, db.users, db.channels, db.memberships);
    var added;
    added, sent := HandleRows(cs, text, chat, messageId, now, cat, sendFails);
    db.history := db.history + added;
  }
}
