/** The compact coin count drawn on a relic coin bag: exact below 1000, one
    decimal of thousands below 10000, whole thousands above. */
module CoinCountRenderer {
  import opened Common

  /** `formatCoinCount`. Digits are cut off, never rounded. */
  function FormatCoinCount(count: int): string
  {
    if count < 1000 then IntToString(count)
    else if count < 10000 then
      var thousands := count / 1000;
      var hundreds := count % 1000 / 100;
      if hundreds == 0 then IntToString(thousands) + "k"
      else IntToString(thousands) + "." + IntToString(hundreds) + "k"
    else IntToString(count / 1000) + "k"
  }

  /** The amount a compact text stands for: "T.Hk" is T thousand and H
      hundred, "Tk" is T thousand, anything else a plain number. */
  function ReadCoinCount(text: string): Option<int>
  {
    if |text| > 0 && text[|text| - 1] == 'k' then
      var body := text[..|text| - 1];
      if '.' in body then
        var k := FirstIndex(body, '.');
        match (ParseInt(body[..k]), ParseInt(body[k + 1..]))
        case (Some(t), Some(h)) => Some(t * 1000 + h * 100)
        case _ => None
      else
        match ParseInt(body)
        case Some(t) => Some(t * 1000)
        case None => None
    else ParseInt(text)
  }

  /** The amount the display keeps: the count itself below 1000, the count
      cut down to hundreds below 10000, and to thousands above. */
  function Shown(count: int): int
  {
    if count < 1000 then count
    else if count < 10000 then count / 100 * 100
    else count / 1000 * 1000
  }

  /** The step the display rounds down to. */
  function Precision(count: int): int
  {
    if count < 1000 then 1 else if count < 10000 then 100 else 1000
  }

  /** Cutting off digits never overstates the count and loses less than
      one step of the shown precision. */
  lemma ShownTruncates(count: int)
    ensures Shown(count) <= count < Shown(count) + Precision(count)
    ensures count >= 1000 ==> Shown(count) % Precision(count) == 0
  {
  }

  lemma NoDotInNumber(i: int)
    ensures '.' !in IntToString(i)
  {
    IntToStringCharset(i);
  }

  lemma ReadThousands(t: int)
    ensures ReadCoinCount(IntToString(t) + "k") == Some(t * 1000)
  {
    var text := IntToString(t) + "k";
    assert text[..|text| - 1] == IntToString(t);
    NoDotInNumber(t);
    IntToStringRoundTrip(t);
  }

  lemma ReadThousandsAndHundreds(t: int, h: int)
    ensures ReadCoinCount(IntToString(t) + "." + IntToString(h) + "k") == Some(t * 1000 + h * 100)
  {
    var ts, hs := IntToString(t), IntToString(h);
    var text := ts + "." + hs + "k";
    assert text[..|text| - 1] == ts + "." + hs;
    NoDotInNumber(t);
    SplitAtFirst(ts, '.', hs);
    IntToStringRoundTrip(t);
    IntToStringRoundTrip(h);
  }

  /** Reading the display back gives exactly the truncated amount. */
  lemma FormatReadsBack(count: int)
    ensures ReadCoinCount(FormatCoinCount(count)) == Some(Shown(count))
  {
    if count < 1000 {
      SmallReadsBack(count);
    } else if count < 10000 {
      HundredsReadBack(count);
    } else {
      assert FormatCoinCount(count) == IntToString(count / 1000) + "k";
      ReadThousands(count / 1000);
    }
  }

  lemma SmallReadsBack(count: int)
    requires count < 1000
    ensures ReadCoinCount(FormatCoinCount(count)) == Some(count)
  {
    var s := IntToString(count);
    assert FormatCoinCount(count) == s;
    IntToStringRoundTrip(count);
    IntToStringCharset(count);
    assert s[|s| - 1] != 'k';
  }

  lemma HundredsReadBack(count: int)
    requires 1000 <= count < 10000
    ensures ReadCoinCount(FormatCoinCount(count)) == Some(count / 100 * 100)
  {
    var t := count / 1000;
    var h := count % 1000 / 100;
    assert count / 100 * 100 == t * 1000 + h * 100 by {
      assert count / 100 == t * 10 + h;
    }
    if h == 0 {
      assert FormatCoinCount(count) == IntToString(t) + "k";
      ReadThousands(t);
    } else {
      assert FormatCoinCount(count) == IntToString(t) + "." + IntToString(h) + "k";
      ReadThousandsAndHundreds(t, h);
    }
  }

  /** The text ends in 'k' exactly when the count is at least 1000. */
  lemma EndsInK(count: int)
    ensures var s := FormatCoinCount(count); |s| > 0 && (s[|s| - 1] == 'k' <==> count >= 1000)
  {
  }
}
