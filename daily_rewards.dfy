/** Daily reward claims: a map from "player:merchant" (shared cooldown) or
    "player:merchant:entity" (per-entity cooldown) to the epoch day of the last
    claim. The current day and the time left until midnight are parameters. */
module DailyRewards {
  import opened Common

  /** `createKey`: the entity id is appended only when there is one. */
  function ClaimKey(player: Uuid, merchantId: string, entity: Option<Uuid>): (key: string)
    ensures StartsWith(key, player + ":" + merchantId)
    ensures entity.None? ==> key == player + ":" + merchantId
    ensures entity.Some? ==> key == player + ":" + merchantId + ":" + entity.value
  {
    var shared := player + ":" + merchantId;
    match entity
    case None => shared
    case Some(e) =>
      assert (shared + ":" + e)[..|shared|] == shared;
      shared + ":" + e
  }

  /** The prefix `resetClaims` removes: every key of the player, or the
      per-entity keys of one merchant. */
  function ResetPrefix(player: Uuid, merchantId: Option<string>): string
  {
    match merchantId
    case None => player + ":"
    case Some(m) => player + ":" + m + ":"
  }

  /** Resetting all of a player's claims touches exactly that player's keys. */
  lemma ResetAllIsPlayerExact(p: Uuid, q: Uuid, merchantId: string, entity: Option<Uuid>)
    requires NoColon(p) && NoColon(q)
    ensures StartsWith(ClaimKey(q, merchantId, entity), ResetPrefix(p, None)) <==> p == q
  {
    var rest := if entity.None? then merchantId else merchantId + ":" + entity.value;
    assert ClaimKey(q, merchantId, entity) == q + ":" + rest;
    PlayerPrefixExact(p, q, rest);
  }

  /** Resetting one merchant clears its per-entity keys but not the shared
      key of the same player and merchant. */
  lemma ResetMerchantSparesSharedKey(p: Uuid, merchantId: string, e: Uuid)
    ensures StartsWith(ClaimKey(p, merchantId, Some(e)), ResetPrefix(p, Some(merchantId)))
    ensures !StartsWith(ClaimKey(p, merchantId, None), ResetPrefix(p, Some(merchantId)))
  {
    var key := ClaimKey(p, merchantId, Some(e));
    assert key[..|ResetPrefix(p, Some(merchantId))|] == ResetPrefix(p, Some(merchantId));
  }

  /** `getFormattedTimeUntilReset` for a remaining duration of `seconds`:
      "Hh Mm" with whole hours and the minutes part, or "Mm" under an hour. */
  function FormattedTimeUntilReset(seconds: nat): string
  {
    var hours := seconds / 3600;
    var minutes := seconds / 60 % 60;
    if hours > 0 then IntToString(hours) + "h " + IntToString(minutes) + "m"
    else IntToString(minutes) + "m"
  }

  /** Reads back the whole minutes a reset text shows. */
  function ReadMinutes(text: string): Option<int>
  {
    if |text| == 0 || text[|text| - 1] != 'm' then None
    else
      var body := text[..|text| - 1];
      if ' ' in body then
        var k := FirstIndex(body, ' ');
        var hoursPart := body[..k];
        if |hoursPart| == 0 || hoursPart[|hoursPart| - 1] != 'h' then None
        else
          match (ParseInt(hoursPart[..|hoursPart| - 1]), ParseInt(body[k + 1..]))
          case (Some(h), Some(m)) => Some(h * 60 + m)
          case _ => None
      else ParseInt(body)
  }

  /** A text whose body splits at its first space into "<hours>h" and
      "<minutes>" reads back as hours * 60 + minutes. */
  lemma ReadSplitText(text: string, body: string, hs: string, ms: string, h: int, m: int)
    requires ParseInt(hs) == Some(h) && ParseInt(ms) == Some(m)
    requires text == body + "m" && ' ' in body && FirstIndex(body, ' ') == |hs| + 1
    requires body[..|hs| + 1] == hs + "h" && body[|hs| + 2..] == ms
    ensures ReadMinutes(text) == Some(h * 60 + m)
  {
    assert text[..|text| - 1] == body;
    assert (hs + "h")[..|hs|] == hs;
  }

  lemma ReadHoursAndMinutes(hs: string, ms: string, h: int, m: int)
    requires ParseInt(hs) == Some(h) && ParseInt(ms) == Some(m) && ' ' !in hs
    ensures ReadMinutes(hs + "h " + ms + "m") == Some(h * 60 + m)
  {
    var front := hs + "h";
    var body := front + " " + ms;
    assert hs + "h " + ms + "m" == body + "m";
    SplitAtFirst(front, ' ', ms);
    ReadSplitText(body + "m", body, hs, ms, h, m);
  }

  lemma ReadMinutesOnly(ms: string, m: int)
    requires ParseInt(ms) == Some(m) && ' ' !in ms
    ensures ReadMinutes(ms + "m") == Some(m)
  {
    var text := ms + "m";
    assert text[..|text| - 1] == ms;
  }

  /** A number's decimal text has neither spaces nor an 'h'. */
  lemma NumberTextPlain(i: int)
    ensures ' ' !in IntToString(i) && 'h' !in IntToString(i)
  {
    IntToStringCharset(i);
  }

  /** The reset text reads back as the whole minutes left. */
  lemma FormattedTimeReadsBack(seconds: nat)
    ensures ReadMinutes(FormattedTimeUntilReset(seconds)) == Some(seconds / 60)
  {
    var hours := seconds / 3600;
    var minutes := seconds / 60 % 60;
    NumberTextPlain(hours);
    NumberTextPlain(minutes);
    IntToStringRoundTrip(hours);
    IntToStringRoundTrip(minutes);
    assert seconds / 60 == hours * 60 + minutes;
    if hours > 0 {
      ReadHoursAndMinutes(IntToString(hours), IntToString(minutes), hours, minutes);
    } else {
      ReadMinutesOnly(IntToString(minutes), minutes);
    }
  }

  /** The reset text has an hours part exactly when at least an hour is
      left. */
  lemma FormattedTimeShowsHours(seconds: nat)
    ensures 'h' in FormattedTimeUntilReset(seconds) <==> seconds >= 3600
  {
    var hours := seconds / 3600;
    var minutes := seconds / 60 % 60;
    NumberTextPlain(minutes);
    if hours > 0 {
      var hs := IntToString(hours);
      assert (hs + "h " + IntToString(minutes) + "m")[|hs|] == 'h';
    }
  }

  class DailyRewardManager {
    /** Key to epoch day of the last claim. */
    var claims: map<string, int>

    constructor ()
      ensures claims == map[]
    {
      claims := map[];
    }

    /** `load`: one `put` per saved entry. */
    constructor Load(entries: seq<(string, int)>)
      ensures claims == LoadEntries(entries)
    {
      claims := LoadEntries(entries);
    }

    /** `hasClaimedToday`: a claim is stored for the key and it was made today. */
    function HasClaimedToday(player: Uuid, merchantId: string, entity: Option<Uuid>, today: int): (claimed: bool)
      reads this
      ensures claimed ==> ClaimKey(player, merchantId, entity) in claims
      ensures ClaimKey(player, merchantId, entity) !in claims ==> !claimed
    {
      var key := ClaimKey(player, merchantId, entity);
      key in claims && claims[key] == today
    }

    /** `getDaysSinceLastClaim`: -1 without a claim, otherwise the days since
        it, narrowed to a Java int. */
    function DaysSinceLastClaim(player: Uuid, merchantId: string, entity: Option<Uuid>, today: int): (days: int)
      reads this
      ensures ClaimKey(player, merchantId, entity) !in claims ==> days == -1
      ensures var key := ClaimKey(player, merchantId, entity);
        key in claims && -0x8000_0000 <= today - claims[key] < 0x8000_0000 ==> days == today - claims[key]
      ensures HasClaimedToday(player, merchantId, entity, today) ==> days == 0
    {
      var key := ClaimKey(player, merchantId, entity);
      if key !in claims then -1 else ToInt32(today - claims[key])
    }

    /** `recordClaim`: today's day under the key, nothing else changes. */
    method RecordClaim(player: Uuid, merchantId: string, entity: Option<Uuid>, today: int)
      modifies this
      ensures claims == old(claims)[ClaimKey(player, merchantId, entity) := today]
      ensures HasClaimedToday(player, merchantId, entity, today)
      ensures DaysSinceLastClaim(player, merchantId, entity, today) == 0
    {
      claims := claims[ClaimKey(player, merchantId, entity) := today];
    }

    /** `resetClaims`: removes exactly the keys that start with the prefix. */
    method ResetClaims(player: Uuid, merchantId: Option<string>)
      modifies this
      ensures claims == map k | k in old(claims) && !StartsWith(k, ResetPrefix(player, merchantId)) :: old(claims)[k]
    {
      var prefix := ResetPrefix(player, merchantId);
      claims := map k | k in claims && !StartsWith(k, prefix) :: claims[k];
    }

    /** `save`: one entry per key, in the map's iteration order. */
    method Save() returns (entries: seq<(string, int)>)
      ensures Lists(entries, claims)
      ensures LoadEntries(entries) == claims
    {
      entries := SaveEntries(claims);
      SaveLoadRoundTrip(entries, claims);
    }
  }
}
