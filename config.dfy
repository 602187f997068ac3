/**
 * Settings read from the environment (src/config.py): the allow-list of
 * user ids and the daily summary's defaults. A variable is `None` when it
 * is not set.
 */
module Config {
  import opened Wrappers
  import opened Strings

  const DefaultSummaryHour: nat := 21
  const DefaultTimezone: string := "UTC"

  /** `os.getenv(name, default)`: the value when the variable is set, even
      to the empty string, else the default. */
  function GetEnv(value: Option<string>, default: string): string {
    if value.Some? then value.value else default
  }

  /** The id one token stands for, if any: `t.strip().isdigit()`. */
  function TokenId(token: string): (r: seq<nat>)
    ensures |r| <= 1
  {
    var t := Strip(token);
    if IsDigitString(t) then [DigitsValue(t)] else []
  }

  /** The ids of the tokens whose stripped form is all digits, in order. */
  function KeepIds(tokens: seq<string>): (r: seq<nat>)
    ensures |r| <= |tokens|
  {
    if tokens == [] then [] else TokenId(tokens[0]) + KeepIds(tokens[1..])
  }

  /** `ALLOWED_USERS`: the comma-separated tokens that are user ids. */
  function ParseAllowedUsers(s: string): seq<nat> {
    KeepIds(Split(s, ','))
  }

  /** `Config.ALLOWED_USERS` for the value of the variable. */
  function AllowedUsers(env: Option<string>): seq<nat> {
    ParseAllowedUsers(GetEnv(env, ""))
  }

  /** `Config.DAILY_SUMMARY_HOUR`; `None` where `int()` raises. */
  function SummaryHour(env: Option<string>): Option<int> {
    ParseInt(GetEnv(env, "21"))
  }

  /** `Config.TIMEZONE` */
  function Timezone(env: Option<string>): string {
    GetEnv(env, DefaultTimezone)
  }

  /** Tokens are filtered one by one: the ids keep the order of the tokens,
      and a repeated token gives a repeated id. */
  lemma {:induction false} KeepIdsAppend(a: seq<string>, b: seq<string>)
    ensures KeepIds(a + b) == KeepIds(a) + KeepIds(b)
    decreases |a|
  {
    if a == [] {
      assert a + b == b;
    } else {
      var ab := a + b;
      assert ab[0] == a[0] && ab[1..] == a[1..] + b;
      var t, ka, kb := TokenId(a[0]), KeepIds(a[1..]), KeepIds(b);
      KeepIdsAppend(a[1..], b);
      assert KeepIds(ab) == t + (ka + kb);
      assert KeepIds(a) == t + ka;
      AppendAssoc(t, ka, kb);
    }
  }

  /** Writing ids with `str` and joining them with commas gives them back. */
  lemma AllowedUsersRoundTrip(ids: seq<nat>)
    ensures ParseAllowedUsers(Join(IdTexts(ids), ',')) == ids
  {
    var texts := IdTexts(ids);
    if ids == [] {
      assert Split("", ',') == [""];
      assert Strip("") == "";
    } else {
      assert forall k :: 0 <= k < |texts| ==> ',' !in texts[k] by {
        forall k | 0 <= k < |texts| ensures ',' !in texts[k] {
          assert AllDigits(texts[k]);
        }
      }
      SplitJoin(texts, ',');
      KeepIdTexts(ids);
    }
  }

  /** `str(id)` of every id. */
  function IdTexts(ids: seq<nat>): (r: seq<string>)
    ensures |r| == |ids|
    ensures forall k :: 0 <= k < |ids| ==> r[k] == NatToString(ids[k])
  {
    seq(|ids|, k requires 0 <= k < |ids| => NatToString(ids[k]))
  }

  lemma KeepIdTexts(ids: seq<nat>)
    ensures KeepIds(IdTexts(ids)) == ids
  {
    var texts := IdTexts(ids);
    forall k | 0 <= k < |ids| ensures TokenId(texts[k]) == [ids[k]] {
      IdTextIsId(ids[k]);
    }
    KeepIdsOfTokens(texts, ids);
  }

  /** Tokens that are one id each give those ids, in order. */
  lemma {:induction false} KeepIdsOfTokens(tokens: seq<string>, ids: seq<nat>)
    requires |tokens| == |ids| && forall k :: 0 <= k < |ids| ==> TokenId(tokens[k]) == [ids[k]]
    ensures KeepIds(tokens) == ids
    decreases |ids|
  {
    if ids != [] {
      var rest, tl := tokens[1..], ids[1..];
      assert KeepIds(tokens) == TokenId(tokens[0]) + KeepIds(rest);
      assert KeepIds(rest) == tl by {
        assert forall k :: 0 <= k < |tl| ==> rest[k] == tokens[k + 1] && tl[k] == ids[k + 1];
        KeepIdsOfTokens(rest, tl);
      }
      HeadTail(ids);
    }
  }

  /** `str(n)` is the token of the id n. */
  lemma IdTextIsId(n: nat)
    ensures TokenId(NatToString(n)) == [n]
  {
    var t := NatToString(n);
    assert !IsSpace(t[0]) && !IsSpace(t[|t| - 1]) by {
      assert AllDigits(t);
    }
    assert Strip(t) == t;
  }

  /** A token with a sign is not an id: "-5" and "+5" are dropped. */
  lemma SignedTokenDropped(token: string)
    requires |Strip(token)| > 0 && (Strip(token)[0] == '-' || Strip(token)[0] == '+')
    ensures TokenId(token) == []
  {
  }

  /** Spaces around a token are ignored: " 42 " is the id 42. */
  lemma PaddedToken(d: string)
    requires IsDigitString(d)
    ensures ParseAllowedUsers(" " + d + " ") == [DigitsValue(d)]
  {
    var s := " " + d + " ";
    assert ',' !in s by {
      assert forall k :: 0 <= k < |s| ==> s[k] == ' ' || IsDigit(s[k]);
    }
    assert Strip(s) == d by {
      StripPadded(d, ' ');
    }
    SingleToken(s);
  }

  /** Text without a comma is one token. */
  lemma SingleToken(s: string)
    requires ',' !in s && IsDigitString(Strip(s))
    ensures ParseAllowedUsers(s) == [DigitsValue(Strip(s))]
  {
    SplitNoSeparator(s, ',');
    assert KeepIds([s]) == TokenId(s) + KeepIds([s][1..]);
  }

  /** An unset or empty variable gives the empty allow-list. */
  lemma NoAllowList()
    ensures AllowedUsers(None) == [] && AllowedUsers(Some("")) == []
  {
    assert Split("", ',') == [""];
    assert Strip("") == "";
    assert KeepIds([""]) == TokenId("") + KeepIds([]);
  }

  /** The summary is at 21:00 UTC unless the environment says otherwise. */
  lemma Defaults()
    ensures SummaryHour(None) == Some(21)
    ensures Timezone(None) == "UTC"
  {
    assert IsDigitString("21");
    assert DigitsValue("21") == 21 by {
      assert "21"[..1] == "2";
      assert "2"[..0] == "";
    }
  }
}
