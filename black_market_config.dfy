/** Black Market rotation arithmetic: world time in ticks, rotations of a
    fixed number of Minecraft days, and the "Dd Hh Mm" rendering of a tick
    count. Java's `long` division and remainder truncate toward zero. */
module BlackMarketConfig {
  import opened Common

  /** `ROTATION_DAYS`. */
  const RotationDays := 14
  /** Ticks in one Minecraft day. */
  const TicksPerDay := 24000
  /** `MAX_TRADE_USES`. */
  const MaxTradeUses := 3

  /** `getRotationTicks`. */
  function RotationTicks(): (t: int)
    ensures t > 0 && t % TicksPerDay == 0 && t / TicksPerDay == RotationDays
  {
    RotationDays * TicksPerDay
  }

  /** `getCurrentRotationId`. */
  function RotationId(worldTime: int): int
  {
    JavaDiv(worldTime, RotationTicks())
  }

  /** `getTicksUntilRotation`. */
  function TicksUntilRotation(worldTime: int): int
  {
    RotationTicks() - JavaRem(worldTime, RotationTicks())
  }

  /** The next rotation starts exactly `TicksUntilRotation` ticks from now,
      for every world time. */
  lemma NextRotationBoundary(worldTime: int)
    ensures worldTime + TicksUntilRotation(worldTime) == (RotationId(worldTime) + 1) * RotationTicks()
  {
  }

  /** For a non-negative world time the countdown lies in 1..length, is a
      full period exactly on a rotation boundary, and the rotation id is the
      number of whole periods elapsed. */
  lemma CountdownRange(worldTime: int)
    requires worldTime >= 0
    ensures 1 <= TicksUntilRotation(worldTime) <= RotationTicks()
    ensures TicksUntilRotation(worldTime) == RotationTicks() <==> worldTime % RotationTicks() == 0
    ensures RotationId(worldTime) * RotationTicks() <= worldTime < (RotationId(worldTime) + 1) * RotationTicks()
  {
    JavaDivNonNegative(worldTime, RotationTicks());
  }

  /** The rotation id does not change until the countdown runs out. */
  lemma SameRotationUntilCountdown(worldTime: int, later: int)
    requires 0 <= worldTime <= later < worldTime + TicksUntilRotation(worldTime)
    ensures RotationId(later) == RotationId(worldTime)
  {
    JavaDivNonNegative(worldTime, RotationTicks());
    JavaDivNonNegative(later, RotationTicks());
    NextRotationBoundary(worldTime);
    var L := RotationTicks();
    UniqueQuotient(later, L, worldTime / L, later / L);
  }

  /** Only one quotient puts `x` between consecutive multiples of `L`. */
  lemma UniqueQuotient(x: int, L: int, q1: int, q2: int)
    requires L > 0 && q1 * L <= x < (q1 + 1) * L && q2 * L <= x < (q2 + 1) * L
    ensures q1 == q2
  {
    if q1 < q2 {
      MulMonotone(q1 + 1, q2, L);
    } else if q2 < q1 {
      MulMonotone(q2 + 1, q1, L);
    }
  }

  lemma MulMonotone(a: int, b: int, L: int)
    requires a <= b && L > 0
    ensures a * L <= b * L
  {
    var k := b - a;
    assert b * L == a * L + k * L;
  }

  /** The parts `formatTicksAsTime` prints: minutes = ticks / 1000,
      days = minutes / 1440, hours = (minutes mod 1440) / 60, and
      minutes mod 60. */
  function TimeParts(ticks: int): (int, int, int)
  {
    var totalMinutes := JavaDiv(ticks, 1000);
    (JavaDiv(totalMinutes, 1440), JavaDiv(JavaRem(totalMinutes, 1440), 60), JavaRem(totalMinutes, 60))
  }

  /** `formatTicksAsTime`: "%dd %dh %dm", three space-separated parts. */
  function FormatTicksAsTime(ticks: int): string
  {
    var (d, h, m) := TimeParts(ticks);
    Join(' ', [IntToString(d) + "d", IntToString(h) + "h", IntToString(m) + "m"])
  }

  /** For a non-negative tick count the hours are below 24, the minutes below
      60, and together with the days they add up to ticks / 1000. */
  lemma TimePartsBounds(ticks: int)
    requires ticks >= 0
    ensures var (d, h, m) := TimeParts(ticks);
      0 <= h < 24 && 0 <= m < 60 && d >= 0 && d * 1440 + h * 60 + m == ticks / 1000
  {
    JavaDivNonNegative(ticks, 1000);
    var t := ticks / 1000;
    JavaDivNonNegative(t, 1440);
    JavaDivNonNegative(t % 1440, 60);
    JavaDivNonNegative(t, 60);
    assert t % 1440 == (t % 1440) / 60 * 60 + t % 1440 % 60;
    ModOfMod(t);
  }

  lemma ModOfMod(t: nat)
    ensures t % 1440 % 60 == t % 60
  {
    var q, r := t / 1440, t % 1440;
    assert t == q * 1440 + r && 0 <= r < 1440;
    var h, m := r / 60, r % 60;
    assert r == h * 60 + m && 0 <= m < 60;
    var q', m' := t / 60, t % 60;
    assert t == q' * 60 + m' && 0 <= m' < 60;
    assert (q * 24 + h - q') * 60 == m' - m;
  }

  /** Reads "Dd Hh Mm" back into its three numbers. */
  function ReadTime(text: string): Option<(int, int, int)>
  {
    var parts := Split(text, ' ');
    if |parts| != 3 then None
    else
      match (ReadUnit(parts[0], 'd'), ReadUnit(parts[1], 'h'), ReadUnit(parts[2], 'm'))
      case (Some(d), Some(h), Some(m)) => Some((d, h, m))
      case _ => None
  }

  /** A number followed by the unit letter. */
  function ReadUnit(part: string, unit: char): Option<int>
  {
    if |part| == 0 || part[|part| - 1] != unit then None
    else ParseInt(part[..|part| - 1])
  }

  lemma ReadUnitBack(i: int, unit: char)
    requires unit != ' '
    ensures ReadUnit(IntToString(i) + [unit], unit) == Some(i)
    ensures ' ' !in IntToString(i) + [unit]
  {
    var s := IntToString(i) + [unit];
    assert s[..|s| - 1] == IntToString(i);
    IntToStringRoundTrip(i);
    IntToStringCharset(i);
    assert forall k :: 0 <= k < |s| - 1 ==> s[k] == IntToString(i)[k];
  }

  /** The printed time reads back as the three parts it was made from. */
  lemma FormatTicksReadsBack(ticks: int)
    ensures ReadTime(FormatTicksAsTime(ticks)) == Some(TimeParts(ticks))
  {
    var (d, h, m) := TimeParts(ticks);
    ReadPartsBack(d, h, m);
  }

  lemma ReadPartsBack(d: int, h: int, m: int)
    ensures ReadTime(Join(' ', [IntToString(d) + "d", IntToString(h) + "h", IntToString(m) + "m"])) == Some((d, h, m))
  {
    var parts := [IntToString(d) + "d", IntToString(h) + "h", IntToString(m) + "m"];
    ReadUnitBack(d, 'd');
    ReadUnitBack(h, 'h');
    ReadUnitBack(m, 'm');
    SplitJoin(' ', parts);
  }
}
