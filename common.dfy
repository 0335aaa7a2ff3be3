/** Helpers shared by every module of the model: optional values, the string
    operations the source takes from its standard libraries (substring search,
    trimming, lower-casing, decimal printing, joining), and Java's truncating
    integer division. */
module Common {

  datatype Option<T> = None | Some(value: T)

  datatype Result<T> = Ok(value: T) | Err(reason: string)

  /** UUIDs are carried as their canonical text, which has no colon. */
  type Uuid = string

  predicate NoColon(s: string) { ':' !in s }

  function Min(a: int, b: int): int { if a <= b then a else b }

  function Max(a: int, b: int): int { if a >= b then a else b }

  function Abs(a: int): nat { if a < 0 then -a else a }

  // ---------------------------------------------------------------- Java arithmetic

  /** Java's `/` on int and long: the quotient truncated toward zero, so its
      magnitude is the quotient of the magnitudes. */
  function JavaDiv(a: int, b: int): (q: int)
    requires b != 0
    ensures Abs(q) == Abs(a) / Abs(b)
    ensures q != 0 ==> (q > 0 <==> (a > 0) == (b > 0))
  {
    var n := Abs(a) / Abs(b);
    DivBounds(Abs(a), Abs(b));
    if (a >= 0) == (b > 0) then n else -n
  }

  /** Euclidean division of naturals brackets the dividend. */
  lemma DivBounds(x: nat, y: nat)
    requires y > 0
    ensures x / y >= 0
    ensures (x / y) * y <= x < (x / y + 1) * y
  {
    var q, r := x / y, x % y;
    assert x == q * y + r && 0 <= r < y;
    assert (q + 1) * y == q * y + y;
  }

  /** The truncated quotient brackets the dividend's magnitude. */
  lemma JavaDivBounds(a: int, b: int)
    requires b != 0
    ensures Abs(JavaDiv(a, b)) * Abs(b) <= Abs(a) < (Abs(JavaDiv(a, b)) + 1) * Abs(b)
  {
    DivBounds(Abs(a), Abs(b));
  }

  /** What is left after the truncated quotient lies between zero and the
      divisor's magnitude, on the dividend's side of zero. */
  lemma JavaRemBounds(a: int, b: int)
    requires b != 0
    ensures a >= 0 ==> 0 <= a - JavaDiv(a, b) * b < Abs(b)
    ensures a < 0 ==> 0 <= JavaDiv(a, b) * b - a < Abs(b)
  {
    var q, n := JavaDiv(a, b), Abs(a) / Abs(b);
    DivBounds(Abs(a), Abs(b));
    if (a >= 0) == (b > 0) {
      assert q == n;
      if b > 0 {
        assert q * b == n * Abs(b);
      } else {
        assert Abs(b) == -b;
        assert q * b == -(n * Abs(b));
      }
    } else {
      assert q == -n;
      if b > 0 {
        assert q * b == -(n * Abs(b));
      } else {
        assert Abs(b) == -b;
        assert q * b == n * Abs(b);
      }
    }
  }

  /** Java's `%`: the remainder whose sign follows the dividend. */
  function JavaRem(a: int, b: int): (r: int)
    requires b != 0
    ensures a == JavaDiv(a, b) * b + r
    ensures a >= 0 ==> 0 <= r < Abs(b)
    ensures a < 0 ==> 0 <= -r < Abs(b)
  {
    JavaRemBounds(a, b);
    a - JavaDiv(a, b) * b
  }

  /** The images of a sequence's elements under `f`, one after another. */
  function Concat<T, U>(xs: seq<T>, f: T -> seq<U>): seq<U>
  {
    if xs == [] then [] else Concat(xs[..|xs| - 1], f) + f(xs[|xs| - 1])
  }

  /** The same images also split after the first element. */
  lemma {:induction false} ConcatFront<T, U>(xs: seq<T>, f: T -> seq<U>)
    requires xs != []
    ensures Concat(xs, f) == f(xs[0]) + Concat(xs[1..], f)
  {
    var n := |xs| - 1;
    var init, tail := xs[..n], xs[1..];
    assert Concat(xs, f) == Concat(init, f) + f(xs[n]);
    if n == 0 {
      assert init == [] && tail == [];
    } else {
      ConcatFront(init, f);
      assert init[0] == xs[0];
      assert tail[..n - 1] == init[1..] && tail[n - 1] == xs[n];
      assert Concat(tail, f) == Concat(init[1..], f) + f(xs[n]);
    }
  }

  /** One more element of a prefix appends its image. */
  lemma ConcatOneMore<T, U>(xs: seq<T>, i: nat, f: T -> seq<U>)
    requires i < |xs|
    ensures Concat(xs[..i + 1], f) == Concat(xs[..i], f) + f(xs[i])
  {
    assert xs[..i + 1][..i] == xs[..i];
  }

  /** A prefix one longer is the prefix with the next element appended. */
  lemma TakeOneMore<T>(s: seq<T>, i: nat)
    requires i < |s|
    ensures s[..i + 1] == s[..i] + [s[i]]
  {
  }

  /** On a non-negative dividend and a positive divisor Java and Dafny agree. */
  lemma JavaDivNonNegative(a: int, b: int)
    requires a >= 0 && b > 0
    ensures JavaDiv(a, b) == a / b && JavaRem(a, b) == a % b
  {
  }

  /** Java's narrowing cast `(int)` from `long`: the low 32 bits, as a
      signed number. */
  function ToInt32(x: int): (r: int)
    ensures -0x8000_0000 <= r < 0x8000_0000
    ensures -0x8000_0000 <= x < 0x8000_0000 ==> r == x
    ensures (r - x) % 0x1_0000_0000 == 0
  {
    (x + 0x8000_0000) % 0x1_0000_0000 - 0x8000_0000
  }

  // ---------------------------------------------------------------- substrings

  predicate StartsWith(s: string, prefix: string)
  {
    |prefix| <= |s| && s[..|prefix|] == prefix
  }

  predicate OccursAt(s: string, sub: string, j: nat)
  {
    j + |sub| <= |s| && s[j..j + |sub|] == sub
  }

  /** The first index at or after `from` where `sub` occurs in `s`. */
  function IndexOfFrom(s: string, sub: string, from: nat): (r: Option<nat>)
    requires from <= |s|
    decreases |s| - from
    ensures r.Some? ==> from <= r.value && OccursAt(s, sub, r.value)
    ensures r.Some? ==> forall j :: from <= j < r.value ==> !OccursAt(s, sub, j)
    ensures r.None? ==> forall j :: from <= j ==> !OccursAt(s, sub, j)
  {
    if OccursAt(s, sub, from) then Some(from)
    else if from == |s| then None
    else IndexOfFrom(s, sub, from + 1)
  }

  /** `s.indexOf(sub)` / Python's `str.find`, as an option. */
  function IndexOf(s: string, sub: string): Option<nat>
  {
    IndexOfFrom(s, sub, 0)
  }

  /** Python's `sub in s`, Java's `s.contains(sub)`. */
  predicate Contains(s: string, sub: string)
  {
    IndexOf(s, sub).Some?
  }

  lemma ContainsIff(s: string, sub: string)
    ensures Contains(s, sub) <==> exists j: nat :: OccursAt(s, sub, j)
  {
  }

  lemma ContainsSelfPrefix(s: string, prefix: string)
    requires StartsWith(s, prefix)
    ensures Contains(s, prefix)
  {
    assert OccursAt(s, prefix, 0);
  }

  /** A string that contains a single character `c` has it at some index. */
  lemma ContainsChar(s: string, c: char)
    ensures Contains(s, [c]) <==> c in s
  {
    if c in s {
      var k :| 0 <= k < |s| && s[k] == c;
      assert OccursAt(s, [c], k);
    }
    if Contains(s, [c]) {
      var k := IndexOf(s, [c]).value;
      assert s[k..k + 1] == [c];
      assert s[k] == c;
    }
  }

  /** The text after the first occurrence of `sep`: Python's `s.split(sep, 1)[1]`. */
  function AfterFirst(s: string, sep: string): (r: string)
    requires Contains(s, sep)
    ensures |r| + |sep| <= |s| && r == s[|s| - |r|..] && OccursAt(s, sep, |s| - |r| - |sep|)
  {
    var j := IndexOf(s, sep).value;
    s[j + |sep|..]
  }

  // ---------------------------------------------------------------- trimming, case

  /** Python's `str.isspace` on the ASCII range. */
  predicate IsSpace(c: char)
  {
    // space, tab, line feed, vertical tab, form feed, carriage return, and
    // the file, group, record and unit separators
    c == ' ' || '\t' <= c <= '\r' || '\U{1C}' <= c <= '\U{1F}'
  }

  function TrimLeft(s: string): (r: string)
    ensures |r| <= |s| && r == s[|s| - |r|..]
    ensures forall i :: 0 <= i < |s| - |r| ==> IsSpace(s[i])
    ensures r == [] || !IsSpace(r[0])
  {
    if s != [] && IsSpace(s[0]) then TrimLeft(s[1..]) else s
  }

  function TrimRight(s: string): (r: string)
    ensures |r| <= |s| && r == s[..|r|]
    ensures forall i :: |r| <= i < |s| ==> IsSpace(s[i])
    ensures r == [] || !IsSpace(r[|r| - 1])
  {
    if s != [] && IsSpace(s[|s| - 1]) then TrimRight(s[..|s| - 1]) else s
  }

  /** Python's `str.strip()`. */
  function Strip(s: string): (r: string)
    ensures |r| <= |s|
    ensures r == [] || (!IsSpace(r[0]) && !IsSpace(r[|r| - 1]))
  {
    TrimRight(TrimLeft(s))
  }

  function LowerChar(c: char): char
  {
    if 'A' <= c <= 'Z' then (c as int + 32) as char else c
  }

  /** Python's `str.lower()` on the ASCII range. */
  function Lower(s: string): (r: string)
    ensures |r| == |s| && forall i :: 0 <= i < |s| ==> r[i] == LowerChar(s[i])
  {
    if s == [] then [] else [LowerChar(s[0])] + Lower(s[1..])
  }

  // ---------------------------------------------------------------- decimal numbers

  predicate IsDigit(c: char) { '0' <= c <= '9' }

  predicate AllDigits(s: string) { forall i :: 0 <= i < |s| ==> IsDigit(s[i]) }

  function DigitChar(d: nat): (c: char)
    requires d < 10
    ensures IsDigit(c) && c as int - '0' as int == d
  {
    ('0' as int + d) as char
  }

  function DigitValue(c: char): nat
    requires IsDigit(c)
  {
    c as int - '0' as int
  }

  /** `String.valueOf(n)` for a non-negative n. */
  function NatToString(n: nat): (s: string)
    ensures |s| >= 1 && AllDigits(s)
    ensures s[0] == '0' ==> n == 0
  {
    if n < 10 then [DigitChar(n)] else NatToString(n / 10) + [DigitChar(n % 10)]
  }

  /** The value of a string of decimal digits. */
  function DigitsValue(s: string): nat
    requires AllDigits(s)
  {
    if s == [] then 0 else DigitsValue(s[..|s| - 1]) * 10 + DigitValue(s[|s| - 1])
  }

  lemma {:induction false} NatToStringValue(n: nat)
    ensures DigitsValue(NatToString(n)) == n
  {
    if n >= 10 {
      var s := NatToString(n);
      NatToStringValue(n / 10);
      assert s[..|s| - 1] == NatToString(n / 10);
    }
  }

  /** `String.valueOf(i)` / `Integer.toString(i)` / Python's `str(i)`. */
  function IntToString(i: int): (s: string)
    ensures |s| >= 1 && (IsDigit(s[|s| - 1]))
    ensures (s[0] == '-') == (i < 0)
  {
    if i < 0 then "-" + NatToString(-i) else NatToString(i)
  }

  /** Reads back an integer printed by `IntToString`: an optional minus sign
      followed by at least one digit. */
  function ParseInt(s: string): Option<int>
  {
    if |s| >= 2 && s[0] == '-' && AllDigits(s[1..]) then Some(-(DigitsValue(s[1..]) as int))
    else if |s| >= 1 && AllDigits(s) then Some(DigitsValue(s))
    else None
  }

  lemma IntToStringRoundTrip(i: int)
    ensures ParseInt(IntToString(i)) == Some(i)
  {
    if i < 0 {
      NatToStringValue(-i);
      ParseNegative(NatToString(-i));
      assert IntToString(i) == "-" + NatToString(-i);
    } else {
      NatToStringValue(i);
      ParseDigits(NatToString(i));
      assert IntToString(i) == NatToString(i);
    }
  }

  /** A minus sign and digits read back as the negated digits' value. */
  lemma ParseNegative(t: string)
    requires |t| >= 1 && AllDigits(t)
    ensures ParseInt("-" + t) == Some(-(DigitsValue(t) as int))
  {
    assert ("-" + t)[1..] == t;
  }

  /** Digits alone read back as their value. */
  lemma ParseDigits(t: string)
    requires |t| >= 1 && AllDigits(t)
    ensures ParseInt(t) == Some(DigitsValue(t))
  {
    assert IsDigit(t[0]);
  }

  /** A printed number holds only digits and a minus sign. */
  lemma IntToStringCharset(i: int)
    ensures forall k :: 0 <= k < |IntToString(i)| ==> IntToString(i)[k] == '-' || IsDigit(IntToString(i)[k])
  {
    var s := IntToString(i);
    if i < 0 {
      assert s == "-" + NatToString(-i);
      assert forall k :: 1 <= k < |s| ==> s[k] == NatToString(-i)[k - 1];
    }
  }

  lemma IntToStringInjective(a: int, b: int)
    requires IntToString(a) == IntToString(b)
    ensures a == b
  {
    IntToStringRoundTrip(a);
    IntToStringRoundTrip(b);
  }

  // ---------------------------------------------------------------- joining

  /** `String.join` with a one-character separator. */
  function Join(sep: char, fields: seq<string>): string
  {
    if fields == [] then ""
    else if |fields| == 1 then fields[0]
    else fields[0] + [sep] + Join(sep, fields[1..])
  }

  /** Splits on every occurrence of `sep`, the inverse of `Join`. */
  function Split(s: string, sep: char): (r: seq<string>)
    ensures |r| >= 1
    decreases |s|
  {
    if sep !in s then [s]
    else
      var k := FirstIndex(s, sep);
      [s[..k]] + Split(s[k + 1..], sep)
  }

  function FirstIndex(s: string, c: char): (k: nat)
    requires c in s
    ensures k < |s| && s[k] == c && c !in s[..k]
  {
    if s[0] == c then 0 else 1 + FirstIndex(s[1..], c)
  }

  /** In `front`, a separator and `back`, with no separator in `front`, the
      first separator is the one between them. */
  lemma SplitAtFirst(front: string, sep: char, back: string)
    requires sep !in front
    ensures var body := front + [sep] + back;
      sep in body && FirstIndex(body, sep) == |front| && body[..|front|] == front && body[|front| + 1..] == back
  {
    var body := front + [sep] + back;
    assert body[|front|] == sep;
    assert body[..|front|] == front;
    assert body[|front| + 1..] == back;
  }

  lemma {:induction false} SplitJoin(sep: char, fields: seq<string>)
    requires fields != []
    requires forall i :: 0 <= i < |fields| ==> sep !in fields[i]
    ensures Split(Join(sep, fields), sep) == fields
  {
    if |fields| > 1 {
      var rest := Join(sep, fields[1..]);
      var s := fields[0] + [sep] + rest;
      assert s[|fields[0]|] == sep;
      assert s[..|fields[0]|] == fields[0];
      assert FirstIndex(s, sep) == |fields[0]|;
      assert s[|fields[0]| + 1..] == rest;
      SplitJoin(sep, fields[1..]);
    }
  }

  // ---------------------------------------------------------------- keys "player:..."

  /** A key that starts with a colon-free player id and a colon belongs to
      exactly that player: no other colon-free id is a prefix of it. */
  lemma {:induction false} PlayerPrefixExact(p: Uuid, q: Uuid, rest: string)
    requires NoColon(p) && NoColon(q)
    ensures StartsWith(q + ":" + rest, p + ":") <==> p == q
  {
    var key := q + ":" + rest;
    if StartsWith(key, p + ":") {
      assert key[..|p| + 1] == p + ":";
      assert forall i :: 0 <= i < |p| ==> key[i] == p[i] && key[i] != ':';
      assert forall i :: 0 <= i < |q| ==> key[i] == q[i] && key[i] != ':';
      assert key[|p|] == ':' && key[|q|] == ':';
      assert |p| == |q|;
      assert p == key[..|p|] == q;
    }
    if p == q {
      assert key[..|p| + 1] == p + ":";
    }
  }

  // ---------------------------------------------------------------- map save/load

  /** The entries a save writes for a map: one per key, each with its value. */
  ghost predicate Lists<V>(entries: seq<(string, V)>, m: map<string, V>)
  {
    (forall i :: 0 <= i < |entries| ==> entries[i].0 in m && m[entries[i].0] == entries[i].1)
    && (forall k :: k in m ==> exists i :: 0 <= i < |entries| && entries[i].0 == k)
    && |entries| == |m|
  }

  /** Writes a map as a list of entries, in the map's iteration order. */
  method SaveEntries<V>(m: map<string, V>) returns (entries: seq<(string, V)>)
    ensures Lists(entries, m)
  {
    entries := [];
    var remaining := m.Keys;
    while remaining != {}
      invariant remaining <= m.Keys
      invariant forall i :: 0 <= i < |entries| ==>
        entries[i].0 in m && entries[i].0 !in remaining && m[entries[i].0] == entries[i].1
      invariant forall k :: k in m && k !in remaining ==> exists i :: 0 <= i < |entries| && entries[i].0 == k
      invariant |entries| + |remaining| == |m|
      decreases remaining
    {
      var k :| k in remaining;
      ghost var before := entries;
      entries := entries + [(k, m[k])];
      assert forall i :: 0 <= i < |before| ==> entries[i] == before[i];
      assert entries[|before|].0 == k;
      remaining := remaining - {k};
    }
  }

  /** Reads the entries back, one `put` per entry in list order. */
  function LoadEntries<V>(entries: seq<(string, V)>): (m: map<string, V>)
    ensures forall k :: k in m <==> exists i :: 0 <= i < |entries| && entries[i].0 == k
  {
    if entries == [] then map[]
    else
      var last := entries[|entries| - 1];
      var m := LoadEntries(entries[..|entries| - 1]);
      assert forall i :: 0 <= i < |entries| - 1 ==> entries[..|entries| - 1][i] == entries[i];
      m[last.0 := last.1]
  }

  lemma {:induction false} LoadAgreeing<V>(entries: seq<(string, V)>, m: map<string, V>)
    requires forall i :: 0 <= i < |entries| ==> entries[i].0 in m && m[entries[i].0] == entries[i].1
    ensures forall k :: k in LoadEntries(entries) ==> k in m && LoadEntries(entries)[k] == m[k]
  {
    if entries != [] {
      var init := entries[..|entries| - 1];
      assert forall i :: 0 <= i < |init| ==> init[i] == entries[i];
      LoadAgreeing(init, m);
    }
  }

  /** Loading what a save wrote gives back the map. */
  lemma SaveLoadRoundTrip<V>(entries: seq<(string, V)>, m: map<string, V>)
    requires Lists(entries, m)
    ensures LoadEntries(entries) == m
  {
    LoadAgreeing(entries, m);
  }
}
