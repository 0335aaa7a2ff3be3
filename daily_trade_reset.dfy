/** Per-player daily use counts of limited trades: a map from
    "player:merchant:tradeIndex" to the day of the last use and the number of
    uses that day. The current epoch day is a parameter. */
module DailyTradeReset {
  import opened Common

  /** `TradeUsageRecord`. */
  datatype Usage = Usage(lastUseDay: int, usesToday: int)

  /** `createKey`: the key starts with "player:merchant:", and the text after
      that prefix reads back as the trade index. */
  function UsageKey(player: Uuid, merchantId: string, tradeIndex: int): (key: string)
    ensures StartsWith(key, player + ":")
    ensures var pre := player + ":" + merchantId + ":";
      StartsWith(key, pre) && ParseInt(key[|pre|..]) == Some(tradeIndex)
  {
    var pre := player + ":" + merchantId + ":";
    var key := pre + IntToString(tradeIndex);
    assert key[..|player| + 1] == player + ":";
    assert key[..|pre|] == pre && key[|pre|..] == IntToString(tradeIndex);
    IntToStringRoundTrip(tradeIndex);
    key
  }

  /** Uses counted for today: none without a record or when the record is
      from another day. */
  function UsesToday(records: map<string, Usage>, key: string, today: int): int
  {
    if key !in records then 0
    else if records[key].lastUseDay != today then 0
    else records[key].usesToday
  }

  /** The record `recordTradeUse` stores: a fresh count of one on a new key
      or a new day, otherwise one more than today's count. */
  function NextUsage(records: map<string, Usage>, key: string, today: int): (u: Usage)
    ensures u.lastUseDay == today
    ensures u.usesToday == UsesToday(records, key, today) + 1
  {
    if key !in records || records[key].lastUseDay != today then Usage(today, 1)
    else Usage(today, records[key].usesToday + 1)
  }

  /** The records `cleanupOldRecords` keeps: those not from an earlier day. */
  function Cleaned(records: map<string, Usage>, today: int): map<string, Usage>
  {
    map k | k in records && records[k].lastUseDay >= today :: records[k]
  }

  /** Cleaning removes exactly the records from before today and never
      changes any key's count for today. */
  lemma CleanupKeepsTodaysCounts(records: map<string, Usage>, today: int, key: string)
    ensures key in Cleaned(records, today) <==> key in records && records[key].lastUseDay >= today
    ensures UsesToday(Cleaned(records, today), key, today) == UsesToday(records, key, today)
  {
  }

  /** Resetting a player touches exactly that player's keys. */
  lemma ResetIsPlayerExact(p: Uuid, q: Uuid, merchantId: string, tradeIndex: int)
    requires NoColon(p) && NoColon(q)
    ensures StartsWith(UsageKey(q, merchantId, tradeIndex), p + ":") <==> p == q
  {
    PlayerPrefixExact(p, q, merchantId + ":" + IntToString(tradeIndex));
  }

  /** Different trades of one merchant for one player have different keys. */
  lemma KeysTellTradesApart(p: Uuid, merchantId: string, i: int, j: int)
    requires i != j
    ensures UsageKey(p, merchantId, i) != UsageKey(p, merchantId, j)
  {
    var pre := p + ":" + merchantId + ":";
    assert ParseInt(UsageKey(p, merchantId, i)[|pre|..]) == Some(i);
    assert ParseInt(UsageKey(p, merchantId, j)[|pre|..]) == Some(j);
  }

  class DailyTradeResetManager {
    var records: map<string, Usage>

    constructor ()
      ensures records == map[]
    {
      records := map[];
    }

    /** `load`: one `put` per saved entry, then the cleanup. */
    constructor Load(entries: seq<(string, Usage)>, today: int)
      ensures records == Cleaned(LoadEntries(entries), today)
    {
      records := LoadEntries(entries);
      new;
      var _ := CleanupOldRecords(today);
    }

    /** `getUsesToday`. */
    function GetUsesToday(player: Uuid, merchantId: string, tradeIndex: int, today: int): int
      reads this
    {
      UsesToday(records, UsageKey(player, merchantId, tradeIndex), today)
    }

    /** `canUseTrade`: fewer uses today than the daily maximum. */
    function CanUseTrade(player: Uuid, merchantId: string, tradeIndex: int, maxUses: int, today: int): (ok: bool)
      reads this
      ensures ok <==> GetRemainingUses(player, merchantId, tradeIndex, maxUses, today) > 0
    {
      GetUsesToday(player, merchantId, tradeIndex, today) < maxUses
    }

    /** `getRemainingUses`: never negative. */
    function GetRemainingUses(player: Uuid, merchantId: string, tradeIndex: int, maxUses: int, today: int): (n: int)
      reads this
      ensures n >= 0
      ensures n + GetUsesToday(player, merchantId, tradeIndex, today) >= maxUses
      ensures n > 0 ==> n + GetUsesToday(player, merchantId, tradeIndex, today) == maxUses
    {
      Max(0, maxUses - GetUsesToday(player, merchantId, tradeIndex, today))
    }

    /** `recordTradeUse`: today's count of that trade goes up by one, every
        other record stays. */
    method RecordTradeUse(player: Uuid, merchantId: string, tradeIndex: int, today: int)
      modifies this
      ensures var key := UsageKey(player, merchantId, tradeIndex);
        records == old(records)[key := NextUsage(old(records), key, today)]
      ensures GetUsesToday(player, merchantId, tradeIndex, today)
           == old(GetUsesToday(player, merchantId, tradeIndex, today)) + 1
    {
      var key := UsageKey(player, merchantId, tradeIndex);
      if key !in records || records[key].lastUseDay != today {
        records := records[key := Usage(today, 1)];
      } else {
        records := records[key := Usage(today, records[key].usesToday + 1)];
      }
    }

    /** `resetPlayerUsage`: removes exactly the keys starting "player:". */
    method ResetPlayerUsage(player: Uuid)
      modifies this
      ensures records == map k | k in old(records) && !StartsWith(k, player + ":") :: old(records)[k]
    {
      var prefix := player + ":";
      records := map k | k in records && !StartsWith(k, prefix) :: records[k];
    }

    /** `cleanupOldRecords`: walks the entries in the map's order and removes
        those from an earlier day; returns how many it removed. */
    method CleanupOldRecords(today: int) returns (removed: nat)
      modifies this
      ensures records == Cleaned(old(records), today)
      ensures removed == |old(records)| - |records|
    {
      var start := records;
      var remaining := records.Keys;
      removed := 0;
      while remaining != {}
        invariant remaining <= start.Keys
        invariant records == map k | k in start && (k in remaining || start[k].lastUseDay >= today) :: start[k]
        invariant removed == |start| - |records|
        decreases remaining
      {
        var k :| k in remaining;
        if records[k].lastUseDay < today {
          records := records - {k};
          removed := removed + 1;
        }
        remaining := remaining - {k};
      }
    }

    /** `save`: one entry per key, in the map's iteration order. */
    method Save() returns (entries: seq<(string, Usage)>)
      ensures Lists(entries, records)
      ensures LoadEntries(entries) == records
    {
      entries := SaveEntries(records);
      SaveLoadRoundTrip(entries, records);
    }
  }
}
