/** One ledger entry: a trade, or several identical trades bundled together,
    with the relic-coin arithmetic and the CSV form the ledger writes. */
module TransactionRecords {
  import opened Common

  const RelicCoinId := "cobblemon:relic_coin"

  /** `quantity` is the only field the source changes after construction; the
      ledger replaces the record value when it increments it. */
  datatype TransactionRecord = TransactionRecord(
    transactionId: Uuid,
    player: Uuid,
    playerName: string,
    merchantId: string,
    merchantName: string,
    inputItem: string,
    inputCount: int,
    outputItem: string,
    outputCount: int,
    timestamp: int,
    quantity: int)

  /** The constructor used for a new trade: a single trade, stamped `now`. */
  function NewRecord(transactionId: Uuid, player: Uuid, playerName: string, merchantId: string,
                     merchantName: string, inputItem: string, inputCount: int,
                     outputItem: string, outputCount: int, now: int): (r: TransactionRecord)
    ensures r.quantity == 1 && r.timestamp == now && r.transactionId == transactionId
    ensures r.player == player && r.merchantId == merchantId
    ensures r.playerName == playerName && r.merchantName == merchantName
    ensures r.inputItem == inputItem && r.inputCount == inputCount
    ensures r.outputItem == outputItem && r.outputCount == outputCount
  {
    TransactionRecord(transactionId, player, playerName, merchantId, merchantName,
                      inputItem, inputCount, outputItem, outputCount, now, 1)
  }

  /** Same player, merchant and items: names, id, time and quantity are ignored. */
  predicate CanBundleWith(a: TransactionRecord, b: TransactionRecord)
  {
    a.player == b.player && a.merchantId == b.merchantId
    && a.inputItem == b.inputItem && a.inputCount == b.inputCount
    && a.outputItem == b.outputItem && a.outputCount == b.outputCount
  }

  lemma BundlingIsAnEquivalence(a: TransactionRecord, b: TransactionRecord, c: TransactionRecord)
    ensures CanBundleWith(a, a)
    ensures CanBundleWith(a, b) ==> CanBundleWith(b, a)
    ensures CanBundleWith(a, b) && CanBundleWith(b, c) ==> CanBundleWith(a, c)
  {
  }

  function IncrementQuantity(r: TransactionRecord): (r': TransactionRecord)
    ensures r'.quantity == r.quantity + 1
    ensures r' == r.(quantity := r'.quantity)
    ensures CanBundleWith(r, r')
  {
    r.(quantity := r.quantity + 1)
  }

  function TotalInputCost(r: TransactionRecord): int
  {
    r.inputCount * r.quantity
  }

  function TotalOutputReceived(r: TransactionRecord): int
  {
    r.outputCount * r.quantity
  }

  /** Coins the player gained (positive) or spent (negative). */
  function CoinChange(r: TransactionRecord): int
  {
    var gained := if r.outputItem == RelicCoinId then r.outputCount * r.quantity else 0;
    var spent := if r.inputItem == RelicCoinId then r.inputCount * r.quantity else 0;
    gained - spent
  }

  /** The coin change is the coin side of the totals, and zero when no side
      of the trade is relic coins. */
  lemma CoinChangeFromTotals(r: TransactionRecord)
    ensures CoinChange(r) == (if r.outputItem == RelicCoinId then TotalOutputReceived(r) else 0)
                           - (if r.inputItem == RelicCoinId then TotalInputCost(r) else 0)
    ensures r.inputItem != RelicCoinId && r.outputItem != RelicCoinId ==> CoinChange(r) == 0
  {
  }

  /** Bundled trades change coins in proportion to their number. */
  lemma CoinChangeIsPerTrade(r: TransactionRecord)
    ensures CoinChange(r) == r.quantity * CoinChange(r.(quantity := 1))
    ensures CoinChange(IncrementQuantity(r)) == CoinChange(r) + CoinChange(r.(quantity := 1))
  {
    var unit := r.(quantity := 1);
    var g := if r.outputItem == RelicCoinId then r.outputCount else 0;
    var s := if r.inputItem == RelicCoinId then r.inputCount else 0;
    assert CoinChange(unit) == g - s;
    assert CoinChange(r) == g * r.quantity - s * r.quantity;
    assert r.quantity * (g - s) == g * r.quantity - s * r.quantity;
    assert CoinChange(IncrementQuantity(r)) == g * (r.quantity + 1) - s * (r.quantity + 1);
  }

  /** `+n` for a gain, `-n` for a loss, `0` otherwise. */
  function CoinChangeString(r: TransactionRecord): string
  {
    var change := CoinChange(r);
    if change > 0 then "+" + IntToString(change)
    else if change < 0 then IntToString(change)
    else "0"
  }

  /** Reads a number printed with an optional leading sign. */
  function ParseSigned(s: string): Option<int>
  {
    if |s| >= 1 && s[0] == '+' then ParseInt(s[1..]) else ParseInt(s)
  }

  lemma CoinChangeStringRoundTrip(r: TransactionRecord)
    ensures ParseSigned(CoinChangeString(r)) == Some(CoinChange(r))
    ensures CoinChangeString(r)[0] == '+' <==> CoinChange(r) > 0
    ensures CoinChangeString(r)[0] == '-' <==> CoinChange(r) < 0
  {
    var change := CoinChange(r);
    IntToStringRoundTrip(change);
    if change > 0 {
      assert CoinChangeString(r)[1..] == IntToString(change);
    } else if change == 0 {
      assert IntToString(0) == "0";
    }
  }

  // ---------------------------------------------------------------- CSV helpers

  /** The id without its namespace: the text after the first `:`, unless there
      is none after it. A missing id gives "". */
  function ShortName(id: Option<string>): (r: string)
    ensures id.None? ==> r == ""
    ensures id.Some? ==> |r| <= |id.value| && r == id.value[|id.value| - |r|..]
  {
    match id
    case None => ""
    case Some(v) =>
      if ':' in v && FirstIndex(v, ':') < |v| - 1 then v[FirstIndex(v, ':') + 1..] else v
  }

  /** When the name is shortened, what was cut is everything through the
      first colon and something is left; otherwise there is no colon or only
      one at the very end. */
  lemma ShortNameCut(v: string)
    ensures var r := ShortName(Some(v));
      (r != v ==> var cut := |v| - |r| - 1;
                  0 <= cut && v[cut] == ':' && ':' !in v[..cut] && r != "")
      && (r == v ==> ':' !in v || FirstIndex(v, ':') == |v| - 1)
  {
  }

  lemma ShortNameOfNamespacedId(namespace: string, path: string)
    requires ':' !in namespace && path != []
    ensures ShortName(Some(namespace + ":" + path)) == path
  {
    var v := namespace + ":" + path;
    assert v[|namespace|] == ':';
    var k := FirstIndex(v, ':');
    assert k == |namespace|;
    assert v[k + 1..] == path;
  }

  predicate NeedsQuoting(v: string)
  {
    ',' in v || '"' in v || '\n' in v
  }

  /** Every `"` doubled. */
  function DoubleQuotes(v: string): (r: string)
    ensures |r| >= |v|
  {
    if v == [] then []
    else (if v[0] == '"' then "\"\"" else [v[0]]) + DoubleQuotes(v[1..])
  }

  /** Undoes `DoubleQuotes`: a doubled `"` reads as one. */
  function UndoubleQuotes(s: string): string
  {
    if |s| >= 2 && s[0] == '"' && s[1] == '"' then "\"" + UndoubleQuotes(s[2..])
    else if s == [] then []
    else [s[0]] + UndoubleQuotes(s[1..])
  }

  lemma {:induction false} UndoubleDouble(v: string)
    ensures UndoubleQuotes(DoubleQuotes(v)) == v
  {
    if v != [] {
      UndoubleDouble(v[1..]);
      if v[0] == '"' {
        assert DoubleQuotes(v) == "\"\"" + DoubleQuotes(v[1..]);
        assert DoubleQuotes(v)[2..] == DoubleQuotes(v[1..]);
      } else {
        assert DoubleQuotes(v) == [v[0]] + DoubleQuotes(v[1..]);
        assert DoubleQuotes(v)[1..] == DoubleQuotes(v[1..]);
      }
    }
  }

  /** A field as RFC 4180 writes it: quoted, with quotes doubled, exactly when
      it holds a comma, a quote or a line feed. A missing value gives "". */
  function EscapeCsv(value: Option<string>): (r: string)
    ensures value.None? ==> r == ""
    ensures value.Some? && !NeedsQuoting(value.value) ==> r == value.value
    ensures value.Some? && NeedsQuoting(value.value) ==> |r| >= 2 && r[0] == '"' && r[|r| - 1] == '"'
  {
    match value
    case None => ""
    case Some(v) => if NeedsQuoting(v) then "\"" + DoubleQuotes(v) + "\"" else v
  }

  /** Reads back one field written by `EscapeCsv`. */
  function UnescapeCsv(s: string): string
  {
    if |s| >= 2 && s[0] == '"' && s[|s| - 1] == '"' then UndoubleQuotes(s[1..|s| - 1]) else s
  }

  lemma EscapeCsvRoundTrip(v: string)
    ensures UnescapeCsv(EscapeCsv(Some(v))) == v
  {
    if NeedsQuoting(v) {
      var e := EscapeCsv(Some(v));
      assert e[1..|e| - 1] == DoubleQuotes(v);
      UndoubleDouble(v);
    }
  }

  // ---------------------------------------------------------------- CSV rows

  const HeaderColumns: seq<string> := [
    "transaction_id", "timestamp", "player_uuid", "player_name", "merchant_id", "merchant_name",
    "quantity", "input_item", "input_count", "output_item", "output_count", "coin_change"]

  function CsvHeader(): string
  {
    Join(',', HeaderColumns)
  }

  /** Twelve cells in the order of `HeaderColumns`. */
  function Cells(id: string, time: string, player: string, playerName: string,
                 merchant: string, merchantName: string, quantity: string, input: string,
                 inputCount: string, output: string, outputCount: string, coinChange: string)
    : (cells: seq<string>)
    ensures |cells| == |HeaderColumns|
    ensures cells[6] == quantity && cells[8] == inputCount && cells[10] == outputCount && cells[11] == coinChange
  {
    [id, time, player, playerName, merchant, merchantName, quantity, input, inputCount,
     output, outputCount, coinChange]
  }

  /** The twelve fields of a row, in header order; the timestamp text comes
      from the system clock's time zone and is given. */
  function CsvFields(r: TransactionRecord, formattedTimestamp: string): seq<string>
  {
    Cells(r.transactionId, formattedTimestamp, r.player,
          EscapeCsv(Some(r.playerName)), EscapeCsv(Some(ShortName(Some(r.merchantId)))),
          EscapeCsv(Some(r.merchantName)), IntToString(r.quantity),
          EscapeCsv(Some(ShortName(Some(r.inputItem)))), IntToString(r.inputCount),
          EscapeCsv(Some(ShortName(Some(r.outputItem)))), IntToString(r.outputCount),
          CoinChangeString(r))
  }

  function CsvRow(r: TransactionRecord, formattedTimestamp: string): string
  {
    Join(',', CsvFields(r, formattedTimestamp))
  }

  /** The header line splits back into its twelve column names. */
  lemma HeaderHasTwelveColumns()
    ensures Split(CsvHeader(), ',') == HeaderColumns
    ensures |Split(CsvHeader(), ',')| == 12
  {
    HeaderColumnsCommaFree();
    SplitJoin(',', HeaderColumns);
  }

  lemma HeaderColumnsCommaFree()
    ensures forall i :: 0 <= i < |HeaderColumns| ==> ',' !in HeaderColumns[i]
  {
    forall i | 0 <= i < |HeaderColumns|
      ensures ',' !in HeaderColumns[i]
    {
    }
  }

  /** Twelve comma-free cells joined with commas split back into themselves. */
  lemma CellsSplitBack(id: string, time: string, player: string, playerName: string,
                       merchant: string, merchantName: string, quantity: string, input: string,
                       inputCount: string, output: string, outputCount: string, coinChange: string)
    requires ',' !in id && ',' !in time && ',' !in player && ',' !in playerName
    requires ',' !in merchant && ',' !in merchantName && ',' !in quantity && ',' !in input
    requires ',' !in inputCount && ',' !in output && ',' !in outputCount && ',' !in coinChange
    ensures var cells := Cells(id, time, player, playerName, merchant, merchantName, quantity,
                               input, inputCount, output, outputCount, coinChange);
      Split(Join(',', cells), ',') == cells
  {
    var cells := Cells(id, time, player, playerName, merchant, merchantName, quantity,
                       input, inputCount, output, outputCount, coinChange);
    forall i | 0 <= i < |cells|
      ensures ',' !in cells[i]
    {
    }
    SplitJoin(',', cells);
  }

  /** A row whose text fields hold no comma splits back into its twelve
      fields, which line up with the header: quantity, counts and coin change
      sit in their columns as numbers. */
  lemma RowMatchesHeader(r: TransactionRecord, formattedTimestamp: string)
    requires ',' !in r.transactionId && ',' !in formattedTimestamp && ',' !in r.player
    requires ',' !in r.playerName && ',' !in r.merchantId && ',' !in r.merchantName
    requires ',' !in r.inputItem && ',' !in r.outputItem
    ensures var cells := Split(CsvRow(r, formattedTimestamp), ',');
      |cells| == |HeaderColumns|
      && ParseInt(cells[6]) == Some(r.quantity)
      && ParseInt(cells[8]) == Some(r.inputCount)
      && ParseInt(cells[10]) == Some(r.outputCount)
      && ParseSigned(cells[11]) == Some(CoinChange(r))
  {
    RowSplitsIntoFields(r, formattedTimestamp);
    NumberFieldsReadBack(r, formattedTimestamp);
  }

  /** With no comma in the text fields, a row splits back into its fields. */
  lemma RowSplitsIntoFields(r: TransactionRecord, formattedTimestamp: string)
    requires ',' !in r.transactionId && ',' !in formattedTimestamp && ',' !in r.player
    requires ',' !in r.playerName && ',' !in r.merchantId && ',' !in r.merchantName
    requires ',' !in r.inputItem && ',' !in r.outputItem
    ensures Split(CsvRow(r, formattedTimestamp), ',') == CsvFields(r, formattedTimestamp)
  {
    var playerName := EscapeCsv(Some(r.playerName));
    var merchant := EscapeCsv(Some(ShortName(Some(r.merchantId))));
    var merchantName := EscapeCsv(Some(r.merchantName));
    var input := EscapeCsv(Some(ShortName(Some(r.inputItem))));
    var output := EscapeCsv(Some(ShortName(Some(r.outputItem))));
    var quantity := IntToString(r.quantity);
    var inputCount := IntToString(r.inputCount);
    var outputCount := IntToString(r.outputCount);
    var coinChange := CoinChangeString(r);
    TextCellsHaveNoComma(r);
    NumberHasNoComma(r.quantity);
    NumberHasNoComma(r.inputCount);
    NumberHasNoComma(r.outputCount);
    CoinChangeStringHasNoComma(r);
    CellsSplitBack(r.transactionId, formattedTimestamp, r.player, playerName, merchant,
                   merchantName, quantity, input, inputCount, output, outputCount, coinChange);
  }

  /** The quantity, the counts and the coin change read back from their
      fields. */
  lemma NumberFieldsReadBack(r: TransactionRecord, formattedTimestamp: string)
    ensures var fields := CsvFields(r, formattedTimestamp);
      |fields| == |HeaderColumns|
      && ParseInt(fields[6]) == Some(r.quantity)
      && ParseInt(fields[8]) == Some(r.inputCount)
      && ParseInt(fields[10]) == Some(r.outputCount)
      && ParseSigned(fields[11]) == Some(CoinChange(r))
  {
    NumberCellsReadBack(CsvFields(r, formattedTimestamp), r);
  }

  lemma NumberCellsReadBack(cells: seq<string>, r: TransactionRecord)
    requires |cells| == 12
    requires cells[6] == IntToString(r.quantity) && cells[8] == IntToString(r.inputCount)
    requires cells[10] == IntToString(r.outputCount) && cells[11] == CoinChangeString(r)
    ensures ParseInt(cells[6]) == Some(r.quantity) && ParseInt(cells[8]) == Some(r.inputCount)
    ensures ParseInt(cells[10]) == Some(r.outputCount) && ParseSigned(cells[11]) == Some(CoinChange(r))
  {
    IntToStringRoundTrip(r.quantity);
    IntToStringRoundTrip(r.inputCount);
    IntToStringRoundTrip(r.outputCount);
    CoinChangeStringRoundTrip(r);
  }

  lemma TextCellsHaveNoComma(r: TransactionRecord)
    requires ',' !in r.playerName && ',' !in r.merchantId && ',' !in r.merchantName
    requires ',' !in r.inputItem && ',' !in r.outputItem
    ensures ',' !in EscapeCsv(Some(r.playerName)) && ',' !in EscapeCsv(Some(r.merchantName))
    ensures ',' !in EscapeCsv(Some(ShortName(Some(r.merchantId))))
    ensures ',' !in EscapeCsv(Some(ShortName(Some(r.inputItem))))
    ensures ',' !in EscapeCsv(Some(ShortName(Some(r.outputItem))))
  {
    ShortNameKeepsNoComma(r.merchantId);
    ShortNameKeepsNoComma(r.inputItem);
    ShortNameKeepsNoComma(r.outputItem);
    NoCommaInCell(r.playerName);
    NoCommaInCell(r.merchantName);
    NoCommaInCell(ShortName(Some(r.merchantId)));
    NoCommaInCell(ShortName(Some(r.inputItem)));
    NoCommaInCell(ShortName(Some(r.outputItem)));
  }

  lemma ShortNameKeepsNoComma(v: string)
    requires ',' !in v
    ensures ',' !in ShortName(Some(v))
  {
  }

  lemma NoCommaInCell(v: string)
    requires ',' !in v
    ensures ',' !in EscapeCsv(Some(v))
  {
    if NeedsQuoting(v) {
      DoubleQuotesKeepsCommas(v);
    }
  }

  lemma {:induction false} DoubleQuotesKeepsCommas(v: string)
    requires ',' !in v
    ensures ',' !in DoubleQuotes(v)
  {
    if v != [] {
      DoubleQuotesKeepsCommas(v[1..]);
    }
  }

  lemma NumberHasNoComma(n: int)
    ensures ',' !in IntToString(n)
  {
    IntToStringCharset(n);
  }

  lemma CoinChangeStringHasNoComma(r: TransactionRecord)
    ensures ',' !in CoinChangeString(r)
  {
    NumberHasNoComma(CoinChange(r));
  }
}
