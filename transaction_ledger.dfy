/** The ledger of merchant trades: per-player bundling of identical trades
    that arrive within ten seconds of each other, finalisation into an
    append-only list, five statistics maps kept in step with that list, the
    coin queries, and what a save keeps. */
module TransactionLedgers {
  import opened Common
  import opened TransactionRecords

  /** Two trades at most this many milliseconds apart may be bundled. */
  const BundleWindowMs := 10000

  /** A save keeps at most this many of the newest transactions. */
  const SaveLimit := 10000

  // ---------------------------------------------------------------- statistics

  /** `Map.getOrDefault(k, 0)`. */
  function Get(m: map<string, int>, k: string): int
  {
    if k in m then m[k] else 0
  }

  /** `Map.merge(k, v, Integer::sum)`: `v` is added to what `k` held, or stored. */
  function Merge(m: map<string, int>, k: string, v: int): (m': map<string, int>)
    ensures m'.Keys == m.Keys + {k}
    ensures Get(m', k) == Get(m, k) + v
    ensures forall j :: j != k ==> Get(m', j) == Get(m, j)
  {
    m[k := Get(m, k) + v]
  }

  function MerchantKey(t: TransactionRecord): string { t.merchantId }

  function PlayerKey(t: TransactionRecord): string { t.player }

  function OutputKey(t: TransactionRecord): string { t.outputItem }

  function Quantity(t: TransactionRecord): int { t.quantity }

  /** The statistics map `updateStatistics` builds from a list of records,
      one merge per record in list order. */
  function Tally(ts: seq<TransactionRecord>, key: TransactionRecord -> string,
                 weight: TransactionRecord -> int): map<string, int>
  {
    if ts == [] then map[]
    else
      var last := ts[|ts| - 1];
      Merge(Tally(ts[..|ts| - 1], key, weight), key(last), weight(last))
  }

  /** The sum of `weight` over the records whose key is `k`. */
  function SumFor(ts: seq<TransactionRecord>, key: TransactionRecord -> string,
                  weight: TransactionRecord -> int, k: string): int
  {
    if ts == [] then 0
    else (if key(ts[0]) == k then weight(ts[0]) else 0) + SumFor(ts[1..], key, weight, k)
  }

  lemma {:induction false} SumForAppend(ts: seq<TransactionRecord>, t: TransactionRecord,
                                        key: TransactionRecord -> string,
                                        weight: TransactionRecord -> int, k: string)
    ensures SumFor(ts + [t], key, weight, k)
         == SumFor(ts, key, weight, k) + (if key(t) == k then weight(t) else 0)
  {
    if ts != [] {
      assert (ts + [t])[1..] == ts[1..] + [t];
      SumForAppend(ts[1..], t, key, weight, k);
    }
  }

  /** Each statistics map holds, for every key, the sum of the weights of the
      records with that key. */
  lemma {:induction false} TallyIsSum(ts: seq<TransactionRecord>, key: TransactionRecord -> string,
                                      weight: TransactionRecord -> int, k: string)
    ensures Get(Tally(ts, key, weight), k) == SumFor(ts, key, weight, k)
  {
    if ts != [] {
      var init := ts[..|ts| - 1];
      var last := ts[|ts| - 1];
      assert ts == init + [last];
      TallyIsSum(init, key, weight, k);
      SumForAppend(init, last, key, weight, k);
    }
  }

  /** A key is in the tally exactly when some record has it. */
  lemma {:induction false} TallyKeys(ts: seq<TransactionRecord>, key: TransactionRecord -> string,
                                     weight: TransactionRecord -> int, k: string)
    ensures k in Tally(ts, key, weight) <==> exists i :: 0 <= i < |ts| && key(ts[i]) == k
  {
    if ts != [] {
      var init := ts[..|ts| - 1];
      var last := ts[|ts| - 1];
      TallyKeys(init, key, weight, k);
      if k in Tally(init, key, weight) {
        var i :| 0 <= i < |init| && key(init[i]) == k;
        assert key(ts[i]) == k;
      }
      if key(last) == k {
        assert key(ts[|ts| - 1]) == k;
      }
      if exists i :: 0 <= i < |ts| && key(ts[i]) == k {
        var i :| 0 <= i < |ts| && key(ts[i]) == k;
        if i < |init| {
          assert key(init[i]) == k;
        }
      }
    }
  }

  // ---------------------------------------------------------------- coin queries

  /** Coins gained on the records whose key is `k` (positive changes only). */
  function CoinsGained(ts: seq<TransactionRecord>, key: TransactionRecord -> string, k: string): (n: int)
    ensures n >= 0
  {
    if ts == [] then 0
    else (if key(ts[0]) == k then Max(0, CoinChange(ts[0])) else 0) + CoinsGained(ts[1..], key, k)
  }

  /** Coins spent on the records whose key is `k`, as a positive number. */
  function CoinsSpent(ts: seq<TransactionRecord>, key: TransactionRecord -> string, k: string): (n: int)
    ensures n >= 0
  {
    if ts == [] then 0
    else (if key(ts[0]) == k then Abs(Min(0, CoinChange(ts[0]))) else 0) + CoinsSpent(ts[1..], key, k)
  }

  /** Gains minus losses is the net coin change of those records. */
  lemma {:induction false} GainedMinusSpent(ts: seq<TransactionRecord>, key: TransactionRecord -> string, k: string)
    ensures CoinsGained(ts, key, k) - CoinsSpent(ts, key, k) == SumFor(ts, key, CoinChange, k)
  {
    if ts != [] {
      GainedMinusSpent(ts[1..], key, k);
    }
  }

  /** The sum of `weight` over every record. */
  function Total(ts: seq<TransactionRecord>, weight: TransactionRecord -> int): int
  {
    if ts == [] then 0 else weight(ts[0]) + Total(ts[1..], weight)
  }

  /** Counting every record under one key gives the grand total. */
  lemma {:induction false} TotalIsSumForConstantKey(ts: seq<TransactionRecord>, weight: TransactionRecord -> int)
    ensures Total(ts, weight) == SumFor(ts, t => "", weight, "")
  {
    if ts != [] {
      TotalIsSumForConstantKey(ts[1..], weight);
    }
  }

  // ---------------------------------------------------------------- webhook sync counts

  /** The number of records whose id has not been synced. */
  function Unsynced(ts: seq<TransactionRecord>, synced: set<Uuid>): (n: nat)
    ensures n <= |ts|
  {
    if ts == [] then 0
    else (if ts[0].transactionId in synced then 0 else 1) + Unsynced(ts[1..], synced)
  }

  /** No record is unsynced exactly when every id is in the synced set, and
      all are unsynced when none is. */
  lemma {:induction false} UnsyncedBounds(ts: seq<TransactionRecord>, synced: set<Uuid>)
    ensures Unsynced(ts, synced) == 0 <==> forall i :: 0 <= i < |ts| ==> ts[i].transactionId in synced
    ensures Unsynced(ts, synced) == |ts| <==> forall i :: 0 <= i < |ts| ==> ts[i].transactionId !in synced
  {
    if ts != [] {
      UnsyncedBounds(ts[1..], synced);
      assert forall i :: 1 <= i < |ts| ==> ts[i] == ts[1..][i - 1];
    }
  }

  // ---------------------------------------------------------------- saving

  /** The newest `SaveLimit` records, which is what a save writes. */
  function Trimmed(ts: seq<TransactionRecord>): (kept: seq<TransactionRecord>)
    ensures |kept| == Min(|ts|, SaveLimit)
    ensures kept == ts[|ts| - |kept|..]
  {
    ts[Max(0, |ts| - SaveLimit)..]
  }

  function Ids(ts: seq<TransactionRecord>): set<Uuid>
  {
    set t | t in ts :: t.transactionId
  }

  /** What a save writes: the webhook settings, the synced ids and the
      newest transactions. */
  datatype SavedLedger = SavedLedger(
    webhookUrl: Option<string>,
    webhookEnabled: bool,
    synced: set<Uuid>,
    transactions: seq<TransactionRecord>)

  /** The player, merchant and items a trade is recorded with. */
  predicate Bundles(pending: map<Uuid, TransactionRecord>, lastTime: map<Uuid, int>,
                    r: TransactionRecord, now: int)
  {
    r.player in pending && r.player in lastTime
    && now - lastTime[r.player] <= BundleWindowMs
    && CanBundleWith(pending[r.player], r)
  }

  /** The players whose last trade is more than the bundle window old. */
  function Expired(lastTime: map<Uuid, int>, now: int): set<Uuid>
  {
    set p | p in lastTime && now - lastTime[p] > BundleWindowMs
  }

  /** `m` with the entries of the players in `gone` removed. */
  function Without<V>(m: map<Uuid, V>, gone: set<Uuid>): (r: map<Uuid, V>)
    ensures r.Keys == m.Keys - gone
    ensures forall p :: p in r ==> r[p] == m[p]
  {
    map p | p in m && p !in gone :: m[p]
  }

  ghost predicate Distinct(order: seq<Uuid>)
  {
    forall i, j :: 0 <= i < j < |order| ==> order[i] != order[j]
  }

  /** `order` lists every element of `keys` once. */
  ghost predicate Enumerates(order: seq<Uuid>, keys: set<Uuid>)
  {
    |order| == |keys| && (set p | p in order) == keys && Distinct(order)
  }

  /** Part way through visiting `keys`: `order` is what was visited, once
      each, and `remaining` what is left. */
  ghost predicate Progress(order: seq<Uuid>, remaining: set<Uuid>, keys: set<Uuid>)
  {
    remaining <= keys
    && (forall p :: p in order ==> p in keys && p !in remaining)
    && (set p | p in order) + remaining == keys
    && Distinct(order)
  }

  lemma ProgressStep(order: seq<Uuid>, remaining: set<Uuid>, keys: set<Uuid>, p: Uuid)
    requires Progress(order, remaining, keys) && p in remaining
    ensures Progress(order + [p], remaining - {p}, keys)
  {
    assert (set q | q in order + [p]) == (set q | q in order) + {p};
  }

  lemma ProgressDone(order: seq<Uuid>, keys: set<Uuid>)
    requires Progress(order, {}, keys)
    ensures Enumerates(order, keys)
  {
    DistinctCount(order);
  }

  /** The records of `m` in the order `order` lists their players. */
  function InOrder(m: map<Uuid, TransactionRecord>, order: seq<Uuid>): seq<TransactionRecord>
    requires forall p :: p in order ==> p in m
  {
    if order == [] then [] else [m[order[0]]] + InOrder(m, order[1..])
  }

  lemma ConcatAssoc(a: seq<TransactionRecord>, b: seq<TransactionRecord>, c: seq<TransactionRecord>)
    ensures (a + b) + c == a + (b + c)
  {
  }

  lemma InOrderAppend(m: map<Uuid, TransactionRecord>, order: seq<Uuid>, p: Uuid)
    requires forall q :: q in order ==> q in m
    requires p in m
    ensures InOrder(m, order + [p]) == InOrder(m, order) + [m[p]]
  {
    if order != [] {
      assert (order + [p])[1..] == order[1..] + [p];
      InOrderAppend(m, order[1..], p);
    }
  }

  lemma DistinctCount(order: seq<Uuid>)
    requires Distinct(order)
    ensures |set p | p in order| == |order|
  {
    if order != [] {
      var rest := order[1..];
      DistinctCount(rest);
      assert (set p | p in order) == {order[0]} + (set p | p in rest);
      assert order[0] !in rest;
    }
  }

  /** The five statistics caches: trade counts per merchant, player and
      output item, and net coin change per player and merchant. */
  datatype Stats = Stats(
    countByMerchant: map<string, int>,
    countByPlayer: map<Uuid, int>,
    countByOutputItem: map<string, int>,
    coinsByPlayer: map<Uuid, int>,
    coinsByMerchant: map<string, int>)

  const NoStats := Stats(map[], map[], map[], map[], map[])

  /** `updateStatistics`: one merge into each of the five maps. */
  function AddToStats(s: Stats, r: TransactionRecord): Stats
  {
    var change := CoinChange(r);
    Stats(Merge(s.countByMerchant, r.merchantId, r.quantity),
          Merge(s.countByPlayer, r.player, r.quantity),
          Merge(s.countByOutputItem, r.outputItem, r.quantity),
          Merge(s.coinsByPlayer, r.player, change),
          Merge(s.coinsByMerchant, r.merchantId, change))
  }

  /** The caches as tallies of a list of records. */
  lemma StatsOfEmpty()
    ensures StatsOf([]) == NoStats
  {
  }

  function StatsOf(ts: seq<TransactionRecord>): Stats
  {
    Stats(Tally(ts, MerchantKey, Quantity), Tally(ts, PlayerKey, Quantity),
          Tally(ts, OutputKey, Quantity), Tally(ts, PlayerKey, CoinChange),
          Tally(ts, MerchantKey, CoinChange))
  }

  /** Updating the caches with one more record keeps them the tallies of the
      longer list. */
  lemma StatsOfAppend(ts: seq<TransactionRecord>, r: TransactionRecord)
    ensures StatsOf(ts + [r]) == AddToStats(StatsOf(ts), r)
  {
    assert (ts + [r])[..|ts|] == ts;
  }

  /** Pending records and last times are held for the same players, and
      each pending record is filed under its own player. */
  predicate Filed(pending: map<Uuid, TransactionRecord>, lastTime: map<Uuid, int>)
  {
    pending.Keys == lastTime.Keys && forall p :: p in pending ==> pending[p].player == p
  }

  /** Filing a player's record and stamping its time keeps the maps filed. */
  lemma FiledPut(pending: map<Uuid, TransactionRecord>, lastTime: map<Uuid, int>, r: TransactionRecord, now: int)
    requires Filed(pending, lastTime)
    ensures Filed(pending[r.player := r], lastTime[r.player := now])
  {
  }

  /** Forgetting some players keeps the maps filed. */
  lemma FiledRemove(pending: map<Uuid, TransactionRecord>, lastTime: map<Uuid, int>, gone: set<Uuid>)
    requires Filed(pending, lastTime)
    ensures Filed(Without(pending, gone), Without(lastTime, gone))
  {
  }

  class TransactionLedger {
    var pending: map<Uuid, TransactionRecord>
    var lastTime: map<Uuid, int>
    var transactions: seq<TransactionRecord>
    var synced: set<Uuid>
    var webhookUrl: Option<string>
    var webhookEnabled: bool
    var stats: Stats

    /** The five statistics maps are the tallies of the finalised list. */
    predicate StatsAgree()
      reads this
    {
      stats == StatsOf(transactions)
    }

    /** Pending records and last times are held for the same players, and
        each pending record is filed under its own player. */
    predicate Valid()
      reads this
    {
      Filed(pending, lastTime) && StatsAgree()
    }

    constructor ()
      ensures Valid()
      ensures pending == map[] && lastTime == map[] && transactions == [] && synced == {}
      ensures webhookUrl == None && !webhookEnabled
    {
      pending := map[];
      lastTime := map[];
      transactions := [];
      synced := {};
      webhookUrl := None;
      webhookEnabled := false;
      stats := NoStats;
    }

    /** Rebuilds a ledger from a save: the list is replayed through the
        statistics, nothing is pending. */
    constructor Load(saved: SavedLedger)
      ensures Valid()
      ensures transactions == saved.transactions && synced == saved.synced
      ensures webhookUrl == saved.webhookUrl && webhookEnabled == saved.webhookEnabled
      ensures pending == map[] && lastTime == map[]
    {
      pending := map[];
      lastTime := map[];
      transactions := [];
      synced := saved.synced;
      webhookUrl := saved.webhookUrl;
      webhookEnabled := saved.webhookEnabled;
      stats := NoStats;
      new;
      StatsOfEmpty();
      var i := 0;
      while i < |saved.transactions|
        invariant 0 <= i <= |saved.transactions|
        invariant transactions == saved.transactions[..i]
        invariant pending == map[] && lastTime == map[]
        invariant synced == saved.synced
        invariant webhookUrl == saved.webhookUrl && webhookEnabled == saved.webhookEnabled
        invariant StatsAgree()
      {
        TakeOneMore(saved.transactions, i);
        Finalize(saved.transactions[i]);
        i := i + 1;
      }
      assert saved.transactions[..i] == saved.transactions;
    }

    /** `updateStatistics`: one merge into each of the five maps. */
    method UpdateStatistics(r: TransactionRecord)
      modifies this
      ensures stats == AddToStats(old(stats), r)
      ensures pending == old(pending) && lastTime == old(lastTime)
      ensures transactions == old(transactions) && synced == old(synced)
      ensures webhookUrl == old(webhookUrl) && webhookEnabled == old(webhookEnabled)
    {
      var change := CoinChange(r);
      stats := stats.(countByMerchant := Merge(stats.countByMerchant, r.merchantId, r.quantity));
      stats := stats.(countByPlayer := Merge(stats.countByPlayer, r.player, r.quantity));
      stats := stats.(countByOutputItem := Merge(stats.countByOutputItem, r.outputItem, r.quantity));
      stats := stats.(coinsByPlayer := Merge(stats.coinsByPlayer, r.player, change));
      stats := stats.(coinsByMerchant := Merge(stats.coinsByMerchant, r.merchantId, change));
    }

    /** `finalizeTransaction`: the record joins the list and the statistics. */
    method Finalize(r: TransactionRecord)
      modifies this
      requires StatsAgree()
      ensures StatsAgree()
      ensures transactions == old(transactions) + [r]
      ensures pending == old(pending) && lastTime == old(lastTime) && synced == old(synced)
      ensures webhookUrl == old(webhookUrl) && webhookEnabled == old(webhookEnabled)
    {
      StatsOfAppend(transactions, r);
      transactions := transactions + [r];
      UpdateStatistics(r);
    }

    /** `recordTransaction` at time `now` (milliseconds), for a new trade
        whose fresh id is `transactionId`. */
    method RecordTransaction(transactionId: Uuid, player: Uuid, playerName: string,
                             merchantId: string, merchantName: string, inputItem: string,
                             inputCount: int, outputItem: string, outputCount: int, now: int)
      modifies this
      requires Valid()
      ensures Valid()
      ensures var r := NewRecord(transactionId, player, playerName, merchantId, merchantName,
                                 inputItem, inputCount, outputItem, outputCount, now);
        if Bundles(old(pending), old(lastTime), r, now) then
          pending == old(pending)[player := IncrementQuantity(old(pending)[player])]
          && transactions == old(transactions)
        else
          pending == old(pending)[player := r]
          && transactions == old(transactions)
                             + (if player in old(pending) then [old(pending)[player]] else [])
      ensures lastTime == old(lastTime)[player := now]
      ensures synced == old(synced)
      ensures webhookUrl == old(webhookUrl) && webhookEnabled == old(webhookEnabled)
    {
      var r := NewRecord(transactionId, player, playerName, merchantId, merchantName,
                         inputItem, inputCount, outputItem, outputCount, now);
      var filed := r;
      if player in pending && player in lastTime && now - lastTime[player] <= BundleWindowMs {
        var current := pending[player];
        if CanBundleWith(current, r) {
          filed := IncrementQuantity(current);
        } else {
          Finalize(current);
        }
      } else if player in pending {
        Finalize(pending[player]);
      }
      FiledPut(pending, lastTime, filed, now);
      pending := pending[player := filed];
      lastTime := lastTime[player := now];
    }

    /** Finalises the records `m` holds for `keys`, one at a time in an
        order the map's iteration chooses. */
    method FinalizeEach(m: map<Uuid, TransactionRecord>, keys: set<Uuid>) returns (ghost order: seq<Uuid>)
      modifies this
      requires keys <= m.Keys && StatsAgree()
      ensures StatsAgree()
      ensures Enumerates(order, keys) && forall p :: p in order ==> p in keys
      ensures transactions == old(transactions) + InOrder(m, order)
      ensures pending == old(pending) && lastTime == old(lastTime) && synced == old(synced)
      ensures webhookUrl == old(webhookUrl) && webhookEnabled == old(webhookEnabled)
    {
      order := [];
      var remaining := keys;
      while remaining != {}
        invariant Progress(order, remaining, keys)
        invariant transactions == old(transactions) + InOrder(m, order)
        invariant pending == old(pending) && lastTime == old(lastTime) && synced == old(synced)
        invariant webhookUrl == old(webhookUrl) && webhookEnabled == old(webhookEnabled)
        invariant StatsAgree()
        decreases remaining
      {
        var p :| p in remaining;
        ghost var before := transactions;
        Finalize(m[p]);
        InOrderAppend(m, order, p);
        ConcatAssoc(old(transactions), InOrder(m, order), [m[p]]);
        ProgressStep(order, remaining, keys, p);
        order := order + [p];
        remaining := remaining - {p};
      }
      ProgressDone(order, keys);
    }

    /** `finalizeAllPending`: every pending record is finalised, in the map's
        iteration order, and both pending maps are emptied. */
    method FinalizeAllPending() returns (ghost order: seq<Uuid>)
      modifies this
      requires Valid()
      ensures Valid()
      ensures Enumerates(order, old(pending).Keys) && forall p :: p in order ==> p in old(pending)
      ensures transactions == old(transactions) + InOrder(old(pending), order)
      ensures pending == map[] && lastTime == map[] && synced == old(synced)
      ensures webhookUrl == old(webhookUrl) && webhookEnabled == old(webhookEnabled)
    {
      order := FinalizeEach(pending, pending.Keys);
      pending := map[];
      lastTime := map[];
    }

    /** `finalizeExpiredPending` at time `now`: exactly the players whose last
        trade is more than the window old are finalised and forgotten. */
    method FinalizeExpiredPending(now: int) returns (ghost order: seq<Uuid>)
      modifies this
      requires Valid()
      ensures Valid()
      ensures Enumerates(order, if old(pending) == map[] then {} else Expired(old(lastTime), now))
      ensures forall p :: p in order ==> p in old(pending)
      ensures transactions == old(transactions) + InOrder(old(pending), order)
      ensures old(pending) != map[] ==>
        pending == Without(old(pending), Expired(old(lastTime), now))
        && lastTime == Without(old(lastTime), Expired(old(lastTime), now))
      ensures old(pending) == map[] ==> pending == old(pending) && lastTime == old(lastTime)
      ensures synced == old(synced)
      ensures webhookUrl == old(webhookUrl) && webhookEnabled == old(webhookEnabled)
    {
      order := [];
      if pending != map[] {
        order := FinalizeAndForget(Expired(lastTime, now));
      }
    }

    /** Finalises the pending records of the players in `gone` and forgets
        them. */
    method FinalizeAndForget(gone: set<Uuid>) returns (ghost order: seq<Uuid>)
      modifies this
      requires Valid() && gone <= pending.Keys
      ensures Valid()
      ensures Enumerates(order, gone) && forall p :: p in order ==> p in old(pending)
      ensures transactions == old(transactions) + InOrder(old(pending), order)
      ensures pending == Without(old(pending), gone) && lastTime == Without(old(lastTime), gone)
      ensures synced == old(synced)
      ensures webhookUrl == old(webhookUrl) && webhookEnabled == old(webhookEnabled)
    {
      order := FinalizeEach(pending, gone);
      FiledRemove(pending, lastTime, gone);
      pending := Without(pending, gone);
      lastTime := Without(lastTime, gone);
    }

    /** `clearAllData`. */
    method ClearAllData()
      modifies this
      ensures Valid()
      ensures transactions == [] && pending == map[] && lastTime == map[] && synced == {}
      ensures webhookUrl == old(webhookUrl) && webhookEnabled == old(webhookEnabled)
    {
      transactions := [];
      pending := map[];
      lastTime := map[];
      stats := NoStats;
      synced := {};
    }

    /** `clearWebhookSyncedTransactions`: forgets every synced id and says how
        many there were. */
    method ClearWebhookSynced() returns (count: nat)
      modifies this
      ensures old(Valid()) ==> Valid()
      ensures count == |old(synced)| && synced == {}
      ensures transactions == old(transactions) && pending == old(pending) && lastTime == old(lastTime)
      ensures stats == old(stats)
      ensures webhookUrl == old(webhookUrl) && webhookEnabled == old(webhookEnabled)
    {
      count := |synced|;
      synced := {};
    }

    /** `save`: the synced ids that belong to some held transaction, and the
        newest `SaveLimit` transactions in order. */
    method Save() returns (saved: SavedLedger)
      ensures saved.transactions == Trimmed(transactions)
      ensures saved.synced == synced * Ids(transactions)
      ensures saved.webhookUrl == webhookUrl && saved.webhookEnabled == webhookEnabled
    {
      var ids := Ids(transactions);
      var keptIds: set<Uuid> := {};
      var remaining := synced;
      while remaining != {}
        invariant remaining <= synced
        invariant keptIds == (synced - remaining) * ids
        decreases remaining
      {
        var id :| id in remaining;
        if id in ids {
          keptIds := keptIds + {id};
        }
        remaining := remaining - {id};
      }
      var start := Max(0, |transactions| - SaveLimit);
      var kept: seq<TransactionRecord> := [];
      var i := start;
      while i < |transactions|
        invariant start <= i <= |transactions|
        invariant kept == transactions[start..i]
      {
        kept := kept + [transactions[i]];
        i := i + 1;
      }
      saved := SavedLedger(webhookUrl, webhookEnabled, keptIds, kept);
    }

    /** `getUnsyncedCount`. */
    function UnsyncedCount(): int
      reads this
    {
      Unsynced(transactions, synced)
    }

    /** `syncAllToWebhook`'s reply: [total, already synced, to sync], or
        zeros when no webhook is configured. */
    method SyncSummary() returns (counts: seq<int>)
      ensures |counts| == 3
      ensures !webhookEnabled || webhookUrl.None? ==> counts == [0, 0, 0]
      ensures webhookEnabled && webhookUrl.Some? ==>
        counts[0] == |transactions| && counts[1] + counts[2] == counts[0]
        && counts[2] == Unsynced(transactions, synced)
      ensures counts[1] >= 0 && counts[2] >= 0
    {
      if !webhookEnabled || webhookUrl.None? {
        return [0, 0, 0];
      }
      var total := |transactions|;
      var toSync := Unsynced(transactions, synced);
      counts := [total, total - toSync, toSync];
    }

    /** `getPlayerCoinChange`: the cached net coin change of a player. */
    function PlayerCoinChange(p: Uuid): (n: int)
      reads this
      requires Valid()
      ensures n == SumFor(transactions, PlayerKey, CoinChange, p)
    {
      TallyIsSum(transactions, PlayerKey, CoinChange, p);
      Get(stats.coinsByPlayer, p)
    }

    /** `getMerchantCoinChange`. */
    function MerchantCoinChange(m: string): (n: int)
      reads this
      requires Valid()
      ensures n == SumFor(transactions, MerchantKey, CoinChange, m)
    {
      TallyIsSum(transactions, MerchantKey, CoinChange, m);
      Get(stats.coinsByMerchant, m)
    }

    /** The cached trade count of a merchant, player or output item. */
    function MerchantTradeCount(m: string): (n: int)
      reads this
      requires Valid()
      ensures n == SumFor(transactions, MerchantKey, Quantity, m)
    {
      TallyIsSum(transactions, MerchantKey, Quantity, m);
      Get(stats.countByMerchant, m)
    }

    function PlayerTradeCount(p: Uuid): (n: int)
      reads this
      requires Valid()
      ensures n == SumFor(transactions, PlayerKey, Quantity, p)
    {
      TallyIsSum(transactions, PlayerKey, Quantity, p);
      Get(stats.countByPlayer, p)
    }

    function OutputItemTradeCount(item: string): (n: int)
      reads this
      requires Valid()
      ensures n == SumFor(transactions, OutputKey, Quantity, item)
    {
      TallyIsSum(transactions, OutputKey, Quantity, item);
      Get(stats.countByOutputItem, item)
    }

    /** The coins a player gained, less those spent, is the cached net change. */
    lemma PlayerGainedMinusSpent(p: Uuid)
      requires Valid()
      ensures CoinsGained(transactions, PlayerKey, p) - CoinsSpent(transactions, PlayerKey, p)
           == PlayerCoinChange(p)
    {
      GainedMinusSpent(transactions, PlayerKey, p);
    }

    /** Likewise for a merchant: coins given out less coins collected. */
    lemma MerchantGivenMinusCollected(m: string)
      requires Valid()
      ensures CoinsGained(transactions, MerchantKey, m) - CoinsSpent(transactions, MerchantKey, m)
           == MerchantCoinChange(m)
    {
      GainedMinusSpent(transactions, MerchantKey, m);
    }
  }
}
