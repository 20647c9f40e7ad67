/** Decoding a PostgreSQL binary `numeric` into its exact decimal string. */
module Numeric {
  import opened Digits
  import opened Wrappers
  import Wire

  // ---------- the wire layout -------------------------------------------------------

  /** A big-endian signed 16-bit field at byte `o`. */
  function I16(b: seq<Byte>, o: nat): int
    requires o + 2 <= |b|
  {
    var raw := U16(b, o);
    if raw >= 0x8000 then raw - 0x1_0000 else raw
  }

  function U16(b: seq<Byte>, o: nat): nat
    requires o + 2 <= |b|
  {
    b[o] as int * 256 + b[o + 1] as int
  }

  /** The fallback for a buffer that cannot be read. */
  function Hex(b: seq<Byte>): string {
    if b == [] then "" else [HexChar(b[0] as int / 16), HexChar(b[0] as int % 16)] + Hex(b[1..])
  }

  /** Header and digits are both present. */
  predicate Complete(b: seq<Byte>) {
    |b| >= 8 && I16(b, 0) >= 0 && |b| >= 8 + 2 * I16(b, 0)
  }

  /** Every base-10000 group is in range. */
  predicate InRange(b: seq<Byte>)
    requires Complete(b)
  {
    forall i | 0 <= i < I16(b, 0) :: 0 <= I16(b, 8 + 2 * i) < 10000
  }

  /** The first `n` groups as one number in base 10000. */
  function Groups(b: seq<Byte>, n: nat): nat
    requires Complete(b) && InRange(b) && n <= I16(b, 0)
  {
    if n == 0 then 0 else 10000 * Groups(b, n - 1) + I16(b, 8 + 2 * (n - 1))
  }

  function Scale(b: seq<Byte>): nat
    requires |b| >= 8
  {
    if I16(b, 6) > 0 then I16(b, 6) else 0
  }

  /** How many of the groups' decimal digits lie right of the point. */
  function PointFromRight(b: seq<Byte>): int
    requires |b| >= 8
  {
    4 * (I16(b, 0) - 1 - I16(b, 2))
  }

  // ---------- what the server means -------------------------------------------------

  /** A number's sign word. PostgreSQL sends infinities, without digits, from version 14 on. */
  datatype Sign = Finite(negative: bool) | NotANumber | Infinity(negative: bool) | Unassigned

  function SignOf(b: seq<Byte>): Sign
    requires |b| >= 8
  {
    var word := U16(b, 4);
    if word == 0x0000 then Finite(false)
    else if word == 0x4000 then Finite(true)
    else if word == 0xC000 then NotANumber
    else if word == 0xD000 then Infinity(false)
    else if word == 0xF000 then Infinity(true)
    else Unassigned
  }

  /** A numeric as the server holds it: base-10000 groups, the power of 10000 the first one counts,
      a sign, and how many fraction digits to show. */
  datatype Number = Number(groups: seq<nat>, weight: int, sign: Sign, scale: nat)
  {
    predicate Sendable() {
      && |groups| < 0x8000 && (forall i | 0 <= i < |groups| :: groups[i] < 10000)
      && -0x8000 <= weight < 0x8000 && scale < 0x8000 && !sign.Unassigned?
    }

    /** The groups' worth: each its digits times its own power of 10000. */
    function Worth(): real { WorthOf(groups, weight) }
  }

  function Power(n: int): real
    decreases if n < 0 then -n else n
  {
    if n == 0 then 1.0 else if n > 0 then 10000.0 * Power(n - 1) else Power(n + 1) / 10000.0
  }

  function WorthOf(groups: seq<nat>, weight: int): real {
    if groups == [] then 0.0
    else Count(groups[0], Power(weight)) + WorthOf(groups[1..], weight - 1)
  }

  function Count(n: nat, unit: real): real { n as real * unit }

  /** `out` is the number to its display scale, truncated toward zero. */
  ghost predicate Shows(out: string, num: Number, negative: bool) {
    exists units: nat ::
      && units as real <= Count(Pow10(num.scale), num.Worth()) < units as real + 1.0
      && Spells(out, negative, units, num.scale)
  }

  /** `out` is what the server means by `num`. */
  ghost predicate MeansNumber(out: string, num: Number) {
    match num.sign
    case Finite(negative) => Shows(out, num, negative)
    case NotANumber => out == "NaN"
    case Infinity(negative) => out == if negative then "-Infinity" else "Infinity"
    case Unassigned => false
  }

  /** The number a buffer holds. */
  function NumberOf(b: seq<Byte>): Number
    requires Complete(b) && InRange(b)
  {
    Number(seq(I16(b, 0), i requires 0 <= i < I16(b, 0) => I16(b, 8 + 2 * i)), I16(b, 2), SignOf(b), Scale(b))
  }

  /** `out` is what the server means. */
  ghost predicate Means(out: string, b: seq<Byte>)
    requires Complete(b) && InRange(b)
  {
    MeansNumber(out, NumberOf(b))
  }

  /** `out` is the decimal string of the buffer's digits, negative under the one sign word that says so. */
  ghost predicate Reads(out: string, b: seq<Byte>)
    requires Complete(b) && InRange(b)
  {
    Shows(out, NumberOf(b), U16(b, 4) == 0x4000)
  }

  // ---------- how the server sends it -----------------------------------------------

  function WordOf(sign: Sign): int {
    match sign
    case Finite(negative) => if negative then 0x4000 else 0
    case NotANumber => 0xC000
    case Infinity(negative) => if negative then 0xF000 else 0xD000
    case Unassigned => 0x1
  }

  function Flat(groups: seq<nat>): (b: seq<Byte>)
    ensures |b| == 2 * |groups|
  {
    if groups == [] then [] else Wire.BigEndian(groups[0], 2) + Flat(groups[1..])
  }

  /** The count of groups, the weight, the sign word, the scale and the groups, two bytes each. */
  function Sent(num: Number): seq<Byte> {
    Wire.BigEndian(|num.groups|, 2) + Wire.BigEndian(num.weight, 2) + Wire.BigEndian(WordOf(num.sign), 2)
    + Wire.BigEndian(num.scale, 2) + Flat(num.groups)
  }

  lemma TwoBytes(n: int)
    ensures Wire.BigEndian(n, 2) == [(n / 256 % 256) as Byte, (n % 256) as Byte]
  {
    assert Wire.BigEndian(n, 2) == Wire.BigEndian(n / 256, 1) + [(n % 256) as Byte];
    assert Wire.BigEndian(n / 256, 1) == Wire.BigEndian(n / 256 / 256, 0) + [(n / 256 % 256) as Byte];
  }

  lemma FieldReadsBack(b: seq<Byte>, o: nat, n: int)
    requires o + 2 <= |b| && b[o..o + 2] == Wire.BigEndian(n, 2)
    ensures -0x8000 <= n < 0x8000 ==> I16(b, o) == n
    ensures 0 <= n < 0x1_0000 ==> U16(b, o) == n
  {
    TwoBytes(n);
    assert b[o] == b[o..o + 2][0] && b[o + 1] == b[o..o + 2][1];
  }

  lemma {:induction false} GroupAt(groups: seq<nat>, i: nat)
    requires i < |groups|
    ensures Flat(groups)[2 * i..2 * i + 2] == Wire.BigEndian(groups[i], 2)
  {
    var head, rest := Wire.BigEndian(groups[0], 2), Flat(groups[1..]);
    assert Flat(groups) == head + rest;
    hide Flat, Wire.BigEndian;
    if i > 0 {
      GroupAt(groups[1..], i - 1);
      Behind(head, rest, 2 * (i - 1), 2);
    } else {
      assert (head + rest)[0..2] == head;
    }
  }

  lemma Behind(head: seq<Byte>, rest: seq<Byte>, at: nat, n: nat)
    requires at + n <= |rest|
    ensures (head + rest)[|head| + at..|head| + at + n] == rest[at..at + n]
  {
  }

  lemma HeaderIsRead(num: Number)
    requires num.Sendable()
    ensures var b := Sent(num);
            && |b| == 8 + 2 * |num.groups| && b[8..] == Flat(num.groups)
            && I16(b, 0) == |num.groups| && I16(b, 2) == num.weight && SignOf(b) == num.sign && Scale(b) == num.scale
  {
    hide Wire.BigEndian, I16, Flat;
    var b := Sent(num);
    assert b[0..2] == Wire.BigEndian(|num.groups|, 2) && b[2..4] == Wire.BigEndian(num.weight, 2);
    assert b[4..6] == Wire.BigEndian(WordOf(num.sign), 2) && b[6..8] == Wire.BigEndian(num.scale, 2);
    FieldReadsBack(b, 0, |num.groups|);
    FieldReadsBack(b, 2, num.weight);
    FieldReadsBack(b, 4, WordOf(num.sign));
    FieldReadsBack(b, 6, num.scale);
    hide U16;
  }

  lemma Within(b: seq<Byte>, from: nat, at: nat, n: nat)
    requires from + at + n <= |b|
    ensures b[from + at..from + at + n] == b[from..][at..at + n]
  {
  }

  lemma GroupsAreRead(b: seq<Byte>, groups: seq<nat>)
    requires |b| == 8 + 2 * |groups| && b[8..] == Flat(groups) && forall i | 0 <= i < |groups| :: groups[i] < 10000
    ensures forall i | 0 <= i < |groups| :: I16(b, 8 + 2 * i) == groups[i]
  {
    hide Wire.BigEndian, I16, Flat;
    forall i | 0 <= i < |groups|
      ensures I16(b, 8 + 2 * i) == groups[i]
    {
      GroupAt(groups, i);
      Within(b, 8, 2 * i, 2);
      FieldReadsBack(b, 8 + 2 * i, groups[i]);
    }
  }

  lemma ReadAs(b: seq<Byte>, num: Number)
    requires |b| == 8 + 2 * |num.groups| && I16(b, 0) == |num.groups| && I16(b, 2) == num.weight
    requires SignOf(b) == num.sign && Scale(b) == num.scale
    requires forall i | 0 <= i < |num.groups| :: I16(b, 8 + 2 * i) == num.groups[i] < 10000
    ensures Complete(b) && InRange(b) && NumberOf(b) == num
  {
    hide I16, SignOf, Scale;
    forall i | 0 <= i < I16(b, 0)
      ensures 0 <= I16(b, 8 + 2 * i) < 10000
    {
      assert num.groups[i] < 10000;
    }
    assert NumberOf(b).groups == num.groups;
  }

  /** Whatever number the server sends, the buffer's fields are that number. */
  lemma SentIsRead(num: Number)
    requires num.Sendable()
    ensures Complete(Sent(num)) && InRange(Sent(num)) && NumberOf(Sent(num)) == num
  {
    HeaderIsRead(num);
    GroupsAreRead(Sent(num), num.groups);
    hide I16, Flat, Sent, SignOf, Scale, Complete, InRange, NumberOf;
    ReadAs(Sent(num), num);
  }

  // ---------- the groups' worth, as digits and a point ------------------------------

  /** The first groups as one base-10000 number, counted in the last one's power. */
  function Whole(groups: seq<nat>): nat {
    if groups == [] then 0 else 10000 * Whole(groups[..|groups| - 1]) + groups[|groups| - 1]
  }

  lemma {:induction false} WorthAppends(groups: seq<nat>, last: nat, weight: int)
    ensures WorthOf(groups + [last], weight) == WorthOf(groups, weight) + Count(last, Power(weight - |groups|))
    decreases |groups|
  {
    hide Count, Power;
    if groups == [] {
      assert [last][1..] == [];
    } else {
      assert (groups + [last])[1..] == groups[1..] + [last];
      WorthAppends(groups[1..], last, weight - 1);
    }
  }

  lemma PowerStep(n: int)
    ensures Power(n + 1) == 10000.0 * Power(n)
  {
  }

  lemma Shift(whole: nat, last: nat, p: real)
    ensures Count(10000 * whole + last, p) == Count(whole, 10000.0 * p) + Count(last, p)
  {
    var w, l := whole as real, last as real;
    assert (10000 * whole + last) as real == 10000.0 * w + l;
    assert (10000.0 * w + l) * p == w * (10000.0 * p) + l * p;
  }

  lemma {:induction false} WorthIsWhole(groups: seq<nat>, weight: int)
    ensures WorthOf(groups, weight) == Count(Whole(groups), Power(weight + 1 - |groups|))
    decreases |groups|
  {
    if groups == [] {
      assert WorthOf(groups, weight) == 0.0 && Whole(groups) == 0;
    } else {
      var init, last := groups[..|groups| - 1], groups[|groups| - 1];
      assert groups == init + [last];
      assert Whole(groups) == 10000 * Whole(init) + last;
      PowerStep(weight - |init|);
      hide Power, WorthOf, Whole, Count;
      WorthAppends(init, last, weight);
      WorthIsWhole(init, weight);
      Shift(Whole(init), last, Power(weight - |init|));
    }
  }

  /** A power of 10000 and its inverse. */
  lemma {:induction false} PowerOfTen(k: nat)
    ensures Power(k) == Pow10(4 * k) as real
    ensures Count(Pow10(4 * k), Power(0 - k)) == 1.0
  {
    if k > 0 {
      PowerOfTen(k - 1);
      FourMore(k);
      PowerStep(k - 1);
      PowerStep(0 - k);
      hide Power, Pow10;
      Shrink(Pow10(4 * (k - 1)), Power(0 - k));
    }
  }

  lemma Shrink(n: nat, p: real)
    ensures Count(10000 * n, p) == Count(n, 10000.0 * p)
  {
    assert (10000 * n) as real * p == n as real * (10000.0 * p);
  }

  lemma FourMore(k: nat)
    requires k > 0
    ensures Pow10(4 * k) == 10000 * Pow10(4 * (k - 1))
  {
    PowSum(4, 4 * (k - 1));
    assert Pow10(4) == 10000;
  }

  lemma CountTwice(a: nat, b: nat, unit: real)
    ensures Count(a, Count(b, unit)) == Count(a * b, unit)
    ensures Count(a, Count(b, unit)) == Count(b, Count(a, unit))
  {
    RealProduct(a, b);
    var x, y := a as real, b as real;
    assert x * (y * unit) == x * y * unit && y * (x * unit) == x * y * unit;
  }

  lemma {:induction false} RealProduct(a: nat, b: nat)
    ensures a as real * b as real == (a * b) as real
  {
    if a > 0 {
      RealProduct(a - 1, b);
      assert a * b == (a - 1) * b + b;
      assert a as real == (a - 1) as real + 1.0;
      var x, y := (a - 1) as real, b as real;
      assert (x + 1.0) * y == x * y + y;
    }
  }

  /** Truncating the worth is truncating the digits at their point. */
  lemma TruncatesWorth(n: nat, point: int, scale: nat, units: nat, worth: real)
    requires point % 4 == 0 && worth == Count(n, Power(0 - point / 4))
    ensures Truncates(n, point, scale, units) <==> units as real <= Count(Pow10(scale), worth) < units as real + 1.0
  {
    hide Power, Pow10, Truncates, Count;
    if point <= 0 {
      var k: nat := 0 - point / 4;
      assert 4 * k == -point;
      PowerOfTen(k);
      PointAtTheRight(n, -point, scale, units, worth);
    } else {
      var k: nat := point / 4;
      assert 4 * k == point;
      PowerOfTen(k);
      CountTwice(Pow10(point), n, Power(0 - k));
      PointInside(n, point, scale, units, worth);
    }
  }

  lemma PointAtTheRight(n: nat, zeros: nat, scale: nat, units: nat, worth: real)
    requires worth == Count(n, Pow10(zeros) as real)
    ensures Truncates(n, 0 - zeros, scale, units) <==> units as real <= Count(Pow10(scale), worth) < units as real + 1.0
  {
    PowSum(scale, zeros);
    hide Pow10;
    RealProduct(n, Pow10(zeros));
    RealProduct(Pow10(scale), n * Pow10(zeros));
    Associates3(Pow10(scale), n, Pow10(zeros));
    assert Count(Pow10(scale), worth) == (n * Pow10(scale + zeros)) as real;
    hide Count;
  }

  lemma Associates3(a: nat, b: nat, c: nat)
    ensures a * (b * c) == b * (a * c)
  {
  }

  lemma PointInside(n: nat, point: nat, scale: nat, units: nat, worth: real)
    requires point > 0 && Count(Pow10(point), worth) == Count(n, 1.0)
    ensures Truncates(n, point, scale, units) <==> units as real <= Count(Pow10(scale), worth) < units as real + 1.0
  {
    hide Pow10, Count;
    var p, s := Pow10(point), Pow10(scale);
    CountTwice(p, s, worth);
    CountTwice(s, n, 1.0);
    Product(n, s);
    var x := Count(s, worth);
    assert Count(p, x) == Count(s, Count(n, 1.0)) == (n * s) as real;
    Bound(units, x, p);
    Bound(units + 1, x, p);
    assert (units + 1) as real == units as real + 1.0;
  }

  lemma Product(n: nat, s: nat)
    ensures Count(s * n, 1.0) == (n * s) as real
  {
    assert s * n == n * s;
  }

  /** A bound, multiplied by a positive number. */
  lemma Bound(bound: nat, x: real, p: nat)
    requires p > 0
    ensures bound as real <= x <==> (bound * p) as real <= Count(p, x)
  {
    RealProduct(bound, p);
    var b, q := bound as real, p as real;
    assert (x - b) * q == q * x - b * q;
    if b <= x {
      assert (x - b) * q >= 0.0;
    } else {
      assert (b - x) * q > 0.0;
      assert (b - x) * q == b * q - q * x;
    }
  }

  lemma {:induction false} GroupsAreWhole(b: seq<Byte>, n: nat)
    requires Complete(b) && InRange(b) && n <= I16(b, 0)
    ensures Groups(b, n) == Whole(NumberOf(b).groups[..n])
  {
    if n > 0 {
      GroupsAreWhole(b, n - 1);
      assert NumberOf(b).groups[..n][..n - 1] == NumberOf(b).groups[..n - 1];
    }
  }

  lemma PointIsExponent(b: seq<Byte>)
    requires Complete(b)
    ensures 0 - PointFromRight(b) / 4 == I16(b, 2) + 1 - I16(b, 0) && PointFromRight(b) % 4 == 0
  {
    hide I16;
  }

  lemma DigitsWorth(b: seq<Byte>)
    requires Complete(b) && InRange(b)
    ensures NumberOf(b).Worth() == Count(Groups(b, I16(b, 0)), Power(0 - PointFromRight(b) / 4))
  {
    hide Groups, WorthOf, Power, Whole, I16, Count, PointFromRight;
    var num := NumberOf(b);
    assert num.groups[..I16(b, 0)] == num.groups;
    GroupsAreWhole(b, I16(b, 0));
    WorthIsWhole(num.groups, num.weight);
    PointIsExponent(b);
  }

  /** Showing the number is decoding its run of digits with the point where the weight puts it. */
  lemma ShowsExactly(out: string, b: seq<Byte>, negative: bool)
    requires Complete(b) && InRange(b)
    ensures Shows(out, NumberOf(b), negative) <==> Decodes(out, negative, Groups(b, I16(b, 0)), PointFromRight(b), Scale(b))
  {
    var num, n, point := NumberOf(b), Groups(b, I16(b, 0)), PointFromRight(b);
    PointIsExponent(b);
    DigitsWorth(b);
    assert num.scale == Scale(b);
    hide Spells, WorthOf, Power, Groups, NumberOf, Truncates, PointFromRight, I16, Number.Worth, Shows, Decodes, Complete, InRange, Pow10, Count, Scale;
    SameUnits(out, num, negative, n, point);
  }

  lemma SameUnits(out: string, num: Number, negative: bool, n: nat, point: int)
    requires point % 4 == 0 && num.Worth() == Count(n, Power(0 - point / 4))
    ensures Shows(out, num, negative) <==> Decodes(out, negative, n, point, num.scale)
  {
    hide Spells, Truncates, Pow10, Count, Number.Worth, Power;
    forall units: nat
      ensures Truncates(n, point, num.scale, units) <==>
              units as real <= Count(Pow10(num.scale), num.Worth()) < units as real + 1.0
    {
      TruncatesWorth(n, point, num.scale, units, num.Worth());
    }
  }

  /** A decimal string starts with a digit or a minus sign and a digit. */
  lemma DecimalIsNoWord(out: string, negative: bool, n: nat, point: int, scale: nat)
    requires Decodes(out, negative, n, point, scale)
    ensures out != "Infinity" && out != "-Infinity" && out != "NaN"
  {
    var units: nat :| Truncates(n, point, scale, units) && Spells(out, negative, units, scale);
    var whole, fraction :| SpellsAs(out, negative, units, scale, whole, fraction);
    if negative && units != 0 {
      assert out[1] == whole[0];
    } else {
      assert out[0] == whole[0];
    }
  }

  lemma ReadsIsNoInfinity(out: string, b: seq<Byte>)
    requires Complete(b) && InRange(b) && Reads(out, b) && U16(b, 4) != 0xC000
    ensures Means(out, b) <==> SignOf(b).Finite?
  {
    ShowsExactly(out, b, U16(b, 4) == 0x4000);
    DecimalIsNoWord(out, U16(b, 4) == 0x4000, Groups(b, I16(b, 0)), PointFromRight(b), Scale(b));
    hide Decodes, Shows;
  }

  /** Both infinities are read as zero. */
  lemma InfinityReadsAsZero(out: string, b: seq<Byte>)
    requires Complete(b) && I16(b, 0) == 0 && Scale(b) == 0 && SignOf(b).Infinity?
    ensures Reads(out, b) ==> out == "0"
  {
    if Reads(out, b) {
      var point := PointFromRight(b);
      ShowsExactly(out, b, false);
      hide Shows;
      assert Truncates(0, point, 0, 0);
      assert "0"[..0] == "" && "0" + "" == "0" && Value("0") == 0;
      assert SpellsAs("0", false, 0, 0, "0", "");
      DecodingIsUnique(out, "0", false, 0, point, 0);
    }
  }

  // ---------- the value -------------------------------------------------------------

  /** `units` is `n / 10^point` in units of `10^-scale`, truncated toward zero. */
  predicate Truncates(n: nat, point: int, scale: nat, units: nat) {
    if point <= 0 then units == n * Pow10(scale - point)
    else units * Pow10(point) <= n * Pow10(scale) < (units + 1) * Pow10(point)
  }

  /** `out` spells `units` units of `10^-scale`: exactly `scale` fraction digits, no superfluous
      leading zero, and a sign only on a non-zero number. */
  ghost predicate Spells(out: string, negative: bool, units: nat, scale: nat) {
    exists whole: string, fraction: string :: SpellsAs(out, negative, units, scale, whole, fraction)
  }

  predicate SpellsAs(out: string, negative: bool, units: nat, scale: nat, whole: string, fraction: string) {
    && AllDigits(whole) && AllDigits(fraction) && |fraction| == scale
    && whole != "" && (|whole| > 1 ==> whole[0] != '0')
    && AllDigits(whole + fraction) && Value(whole + fraction) == units
    && out == (if negative && units != 0 then "-" else "") + whole + (if scale > 0 then "." + fraction else "")
  }

  /** `out` is the decimal string of `n / 10^point` at a display scale. */
  ghost predicate Decodes(out: string, negative: bool, n: nat, point: int, scale: nat) {
    exists units: nat :: Truncates(n, point, scale, units) && Spells(out, negative, units, scale)
  }

  /** Only one string spells a number at a scale. */
  lemma SpellingIsUnique(a: string, b: string, negative: bool, units: nat, scale: nat)
    requires Spells(a, negative, units, scale) && Spells(b, negative, units, scale)
    ensures a == b
  {
    var wa, fa :| SpellsAs(a, negative, units, scale, wa, fa);
    var wb, fb :| SpellsAs(b, negative, units, scale, wb, fb);
    if |wa| < |wb| {
      LongerIsGreater(wa, fa, wb, fb);
    } else if |wb| < |wa| {
      LongerIsGreater(wb, fb, wa, fa);
    } else {
      ValueInjective(wa + fa, wb + fb);
      assert wa == (wa + fa)[..|wa|] && fa == (wa + fa)[|wa|..];
      assert wb == (wb + fb)[..|wb|] && fb == (wb + fb)[|wb|..];
    }
  }

  lemma LongerIsGreater(wa: string, fa: string, wb: string, fb: string)
    requires AllDigits(wa + fa) && AllDigits(wb + fb) && |fa| == |fb| && |wa| < |wb|
    requires wa != "" && wb[0] != '0'
    ensures Value(wa + fa) < Value(wb + fb)
  {
    var a, b := wa + fa, wb + fb;
    assert b[0] == wb[0] && |a| <= |b| - 1;
    ShorterIsSmaller(a, b);
  }

  lemma ShorterIsSmaller(a: string, b: string)
    requires AllDigits(a) && AllDigits(b) && |a| < |b| && b[0] != '0'
    ensures Value(a) < Value(b)
  {
    ValueBound(a);
    ValueBound(b);
    if |a| < |b| - 1 {
      PowIncreases(|a|, |b| - 1);
    }
  }

  lemma TruncationIsUnique(n: nat, point: int, scale: nat, u: nat, v: nat)
    requires Truncates(n, point, scale, u) && Truncates(n, point, scale, v)
    ensures u == v
  {
    if point > 0 {
      Between(u, v, Pow10(point), n * Pow10(scale));
      Between(v, u, Pow10(point), n * Pow10(scale));
    }
  }

  lemma Between(u: nat, v: nat, m: nat, x: nat)
    requires m > 0 && u * m <= x < (v + 1) * m
    ensures u <= v
  {
    if u > v {
      Times(v + 1, u, m);
    }
  }

  /** The decoded string is determined by the number, its sign and its scale. */
  lemma DecodingIsUnique(a: string, b: string, negative: bool, n: nat, point: int, scale: nat)
    requires Decodes(a, negative, n, point, scale) && Decodes(b, negative, n, point, scale)
    ensures a == b
  {
    var u: nat :| Truncates(n, point, scale, u) && Spells(a, negative, u, scale);
    var v: nat :| Truncates(n, point, scale, v) && Spells(b, negative, v, scale);
    TruncationIsUnique(n, point, scale, u, v);
    SpellingIsUnique(a, b, negative, u, scale);
  }

  /** A trailing zero group (four more digits, four more right of the point) changes nothing. */
  lemma TrailingZeroGroup(out: string, negative: bool, n: nat, point: int, scale: nat)
    requires Decodes(out, negative, n, point, scale)
    ensures Decodes(out, negative, 10000 * n, point + 4, scale)
  {
    var u: nat :| Truncates(n, point, scale, u) && Spells(out, negative, u, scale);
    hide Truncates, Spells;
    ZeroGroupTruncates(n, point, scale, u);
  }

  lemma ZeroGroupTruncates(n: nat, point: int, scale: nat, u: nat)
    requires Truncates(n, point, scale, u)
    ensures Truncates(10000 * n, point + 4, scale, u)
  {
    assert Pow10(4) == 10000;
    hide Pow10;
    if point > 0 {
      PowSum(point, 4);
      Scaled(u, n, Pow10(point), Pow10(scale));
    } else if point + 4 > 0 {
      PowSum(point + 4, scale - point);
      PowSum(scale, 4);
      assert Pow10(scale + 4) == Pow10(point + 4) * Pow10(scale - point);
      Exactly(n, u, Pow10(scale - point), Pow10(point + 4), Pow10(scale));
    } else {
      PowSum(scale - point - 4, 4);
      Moved(n, Pow10(scale - point - 4));
    }
  }

  lemma Scaled(u: nat, n: nat, p: nat, s: nat)
    requires u * p <= n * s < (u + 1) * p
    ensures u * (p * 10000) <= 10000 * n * s < (u + 1) * (p * 10000)
  {
    assert u * (p * 10000) == 10000 * (u * p);
    assert (u + 1) * (p * 10000) == 10000 * ((u + 1) * p);
    assert 10000 * n * s == 10000 * (n * s);
  }

  lemma Exactly(n: nat, u: nat, a: nat, p: nat, s: nat)
    requires u == n * a && p > 0 && s * 10000 == p * a
    ensures u * p <= 10000 * n * s < (u + 1) * p
  {
    assert 10000 * n * s == n * (s * 10000);
    assert n * (p * a) == n * a * p;
    assert (u + 1) * p == u * p + p;
  }

  lemma Moved(n: nat, q: nat)
    ensures 10000 * n * q == n * (q * 10000)
  {
  }

  // ---------- decoding --------------------------------------------------------------

  function TrimZeros(s: string): string {
    if s != "" && s[0] == '0' then TrimZeros(s[1..]) else s
  }

  lemma {:induction false} TrimKeepsValue(s: string)
    requires AllDigits(s)
    ensures AllDigits(TrimZeros(s)) && Value(TrimZeros(s)) == Value(s)
    ensures TrimZeros(s) != "" ==> TrimZeros(s)[0] != '0'
  {
    if s != "" && s[0] == '0' {
      TrimKeepsValue(s[1..]);
      ValueConcat([s[0]], s[1..]);
      assert s == [s[0]] + s[1..] && Value([s[0]]) == 0 by {
        ValueOfZeros([s[0]]);
      }
    }
  }

  /** The whole and fraction digits before either is normalised. */
  method Split(run: string, point: int) returns (whole: string, fraction: string)
    ensures point <= 0 ==> whole == run + Zeros(-point) && fraction == ""
    ensures point > 0 ==> |fraction| == point && whole + fraction == Zeros(if |run| < point then point - |run| else 0) + run
  {
    if point <= 0 {
      return run + Zeros(-point), "";
    }
    var padded := if |run| < point then Zeros(point - |run|) + run else run;
    var split := |padded| - point;
    return padded[..split], padded[split..];
  }

  /** Pad or cut the fraction to the display scale. */
  function Rescale(fraction: string, scale: nat): (s: string)
    ensures |s| == scale
  {
    if |fraction| < scale then fraction + Zeros(scale - |fraction|) else fraction[..scale]
  }

  lemma RescaledWhole(run: string, n: nat, scale: nat)
    requires AllDigits(run)
    ensures var all := run + Zeros(n) + Zeros(scale);
            AllDigits(all) && Value(all) == Value(run) * Pow10(n + scale)
  {
    ValueConcat(run, Zeros(n));
    ValueOfZeros(Zeros(n));
    ValueConcat(run + Zeros(n), Zeros(scale));
    ValueOfZeros(Zeros(scale));
    PowSum(n, scale);
    Associates(Value(run), Pow10(n), Pow10(scale));
  }

  lemma Associates(a: nat, b: nat, c: nat)
    ensures a * b * c == a * (b * c)
  {
  }

  lemma PaddedFraction(digits: string, point: nat, scale: nat)
    requires AllDigits(digits) && 0 < point <= scale
    ensures var all := digits + Zeros(scale - point);
            AllDigits(all) && Truncates(Value(digits), point, scale, Value(all))
  {
    var v, p := Value(digits), Pow10(scale - point);
    ValueConcat(digits, Zeros(scale - point));
    ValueOfZeros(Zeros(scale - point));
    PowSum(scale - point, point);
    Associates(v, p, Pow10(point));
    OneMore(v * p, Pow10(point));
  }

  lemma CutFraction(kept: string, cut: string, scale: nat)
    requires AllDigits(kept) && AllDigits(cut) && |cut| + scale > 0
    ensures AllDigits(kept + cut) && Truncates(Value(kept + cut), |cut| + scale, scale, Value(kept))
  {
    ValueConcat(kept, cut);
    ValueBound(cut);
    PowSum(|cut|, scale);
    CutOff(Value(kept), Value(cut), Pow10(|cut|), Pow10(scale));
  }

  lemma Part(s: string, t: string)
    ensures AllDigits(s + t) <==> AllDigits(s) && AllDigits(t)
  {
    assert forall i | 0 <= i < |s| :: (s + t)[i] == s[i];
    assert forall i | 0 <= i < |t| :: (s + t)[|s| + i] == t[i];
  }

  lemma RescaledSplit(digits: string, point: nat, scale: nat, whole: string, fraction: string)
    requires AllDigits(digits) && digits == whole + fraction && |fraction| == point > 0
    ensures AllDigits(whole + Rescale(fraction, scale))
    ensures Truncates(Value(digits), point, scale, Value(whole + Rescale(fraction, scale)))
  {
    hide Truncates, AllDigits, Value;
    if point < scale {
      PaddedFraction(digits, point, scale);
      assert whole + Rescale(fraction, scale) == digits + Zeros(scale - point);
    } else {
      var kept, cut := whole + fraction[..scale], fraction[scale..];
      assert digits == kept + cut;
      Part(kept, cut);
      CutFraction(kept, cut, scale);
    }
  }

  lemma OneMore(a: nat, m: nat)
    requires m > 0
    ensures a * m < (a + 1) * m
  {
    assert (a + 1) * m == a * m + m;
  }

  lemma CutOff(q: nat, r: nat, m: nat, k: nat)
    requires r < m && k > 0
    ensures q * (m * k) <= (q * m + r) * k < (q + 1) * (m * k)
  {
    assert (q * m + r) * k == q * (m * k) + r * k;
    assert (q + 1) * (m * k) == q * (m * k) + m * k;
    OneMore(r, k);
    Times(r + 1, m, k);
  }

  lemma Times(a: nat, b: nat, k: nat)
    requires a <= b
    ensures a * k <= b * k
  {
    assert b * k == a * k + (b - a) * k;
  }

  lemma GroupAppends(run: string, group: int)
    requires AllDigits(run) && 0 <= group < 10000
    ensures AllDigits(run + PaddedInt(group, 4)) && Value(run + PaddedInt(group, 4)) == 10000 * Value(run) + group
  {
    assert Pow10(4) == 10000;
    ValueConcat(run, PaddedInt(group, 4));
  }

  lemma GroupsStep(b: seq<Byte>)
    requires Complete(b)
    ensures InRange(b) ==> Groups(b, 0) == 0
    ensures InRange(b) ==> forall i | 0 <= i < I16(b, 0) :: Groups(b, i + 1) == 10000 * Groups(b, i) + I16(b, 8 + 2 * i)
  {
    hide I16;
  }

  /** The digit groups, each spelled with four digits. */
  method DigitRun(b: seq<Byte>, ndigits: nat) returns (run: string)
    requires Complete(b) && ndigits == I16(b, 0)
    ensures InRange(b) ==> AllDigits(run) && Value(run) == Groups(b, ndigits)
  {
    hide I16, PaddedInt, Groups;
    run := "";
    var i := 0;
    GroupsStep(b);
    while i < ndigits
      invariant 0 <= i <= ndigits
      invariant InRange(b) ==> AllDigits(run) && Value(run) == Groups(b, i)
    {
      if InRange(b) {
        assert i * 2 == 2 * i && 0 <= I16(b, 8 + 2 * i) < 10000;
        GroupAppends(run, I16(b, 8 + i * 2));
      }
      run := run + PaddedInt(I16(b, 8 + i * 2), 4);
      i := i + 1;
    }
  }

  /** The text of a binary numeric; a malformed buffer is shown in hexadecimal. It is right exactly
      for finite numbers and NaN: any other sign word is read as that of a positive number. */
  method PgNumeric(b: seq<Byte>) returns (out: string)
    ensures |b| < 8 ==> out == Hex(b)
    ensures |b| >= 8 && U16(b, 4) == 0xC000 ==> out == "NaN"
    ensures |b| >= 8 && U16(b, 4) != 0xC000 && !Complete(b) ==> out == Hex(b)
    ensures Complete(b) && InRange(b) && U16(b, 4) != 0xC000 ==> Reads(out, b)
    ensures Complete(b) && InRange(b) ==> (Means(out, b) <==> SignOf(b).Finite? || SignOf(b).NotANumber?)
  {
    if |b| < 8 {
      return Hex(b);
    }
    var ndigits := I16(b, 0);
    var sign := U16(b, 4);
    var dscale := Scale(b);
    if sign == 0xC000 {
      return "NaN";
    }
    if ndigits < 0 || |b| < 8 + ndigits * 2 {
      return Hex(b);
    }
    var run := DigitRun(b, ndigits);
    var point := PointFromRight(b);
    var whole, fraction := Split(run, point);
    var trimmed := TrimZeros(whole);
    var final := if trimmed == "" then "0" else trimmed;
    var scaled := Rescale(fraction, dscale);
    var zero := final == "0" && forall j | 0 <= j < |scaled| :: scaled[j] == '0';
    out := (if sign == 0x4000 && !zero then "-" else "") + final + (if dscale > 0 then "." + scaled else "");
    if InRange(b) {
      Normalised(run, point, dscale, whole, fraction);
      assert SpellsAs(out, sign == 0x4000, Value(final + scaled), dscale, final, scaled);
      assert Decodes(out, sign == 0x4000, Groups(b, I16(b, 0)), point, dscale);
      ShowsExactly(out, b, sign == 0x4000);
      ReadsIsNoInfinity(out, b);
    }
  }

  lemma Normalised(run: string, point: int, scale: nat, whole: string, fraction: string)
    requires AllDigits(run)
    requires point <= 0 ==> whole == run + Zeros(-point) && fraction == ""
    requires point > 0 ==> |fraction| == point && whole + fraction == Zeros(if |run| < point then point - |run| else 0) + run
    ensures AllDigits(whole) && AllDigits(Rescale(fraction, scale))
    ensures var trimmed := TrimZeros(whole);
            var final := if trimmed == "" then "0" else trimmed;
            var scaled := Rescale(fraction, scale);
            && AllDigits(final) && (|final| > 1 ==> final[0] != '0')
            && AllDigits(final + scaled) && Truncates(Value(run), point, scale, Value(final + scaled))
            && (final == "0" && (forall j | 0 <= j < |scaled| :: scaled[j] == '0') <==> Value(final + scaled) == 0)
  {
    var scaled := Rescale(fraction, scale);
    WholeAndScaled(run, point, scale, whole, fraction);
    TrimKeepsValue(whole);
    var trimmed := TrimZeros(whole);
    var final := if trimmed == "" then "0" else trimmed;
    assert AllDigits(final) && Value(final) == Value(whole);
    ValueConcat(whole, scaled);
    ValueConcat(final, scaled);
    ValueOfZeros(scaled);
    ValueOfZeros(final);
    ZeroSum(Value(final), Pow10(|scaled|), Value(scaled));
  }

  lemma ZeroSum(a: nat, p: nat, b: nat)
    requires p > 0
    ensures a * p + b == 0 <==> a == 0 && b == 0
  {
    if a > 0 {
      Times(1, a, p);
    }
  }

  lemma WholeAndScaled(run: string, point: int, scale: nat, whole: string, fraction: string)
    requires AllDigits(run)
    requires point <= 0 ==> whole == run + Zeros(-point) && fraction == ""
    requires point > 0 ==> |fraction| == point && whole + fraction == Zeros(if |run| < point then point - |run| else 0) + run
    ensures AllDigits(whole) && AllDigits(Rescale(fraction, scale)) && AllDigits(whole + Rescale(fraction, scale))
    ensures Truncates(Value(run), point, scale, Value(whole + Rescale(fraction, scale)))
  {
    hide AllDigits, Value;
    if point <= 0 {
      RescaledWhole(run, -point, scale);
      assert whole + Rescale(fraction, scale) == run + Zeros(-point) + Zeros(scale);
    } else {
      var zeros := Zeros(if |run| < point then point - |run| else 0);
      ValueConcat(zeros, run);
      ValueOfZeros(zeros);
      Part(whole, fraction);
      RescaledSplit(zeros + run, point, scale, whole, fraction);
    }
    Part(whole, Rescale(fraction, scale));
  }

  /** The buffers agree on sign and scale, and `c` has one group more. */
  predicate OneGroupMore(b: seq<Byte>, c: seq<Byte>) {
    && Complete(b) && Complete(c) && InRange(b) && InRange(c)
    && I16(c, 0) == I16(b, 0) + 1 && U16(c, 4) == U16(b, 4) && Scale(c) == Scale(b)
  }

  predicate ZeroInFront(b: seq<Byte>, c: seq<Byte>)
    requires OneGroupMore(b, c)
  {
    I16(c, 2) == I16(b, 2) + 1 && I16(c, 8) == 0 && forall i | 0 <= i < I16(b, 0) :: I16(c, 10 + 2 * i) == I16(b, 8 + 2 * i)
  }

  predicate ZeroAtEnd(b: seq<Byte>, c: seq<Byte>)
    requires OneGroupMore(b, c)
  {
    && I16(c, 2) == I16(b, 2) && I16(c, 8 + 2 * I16(b, 0)) == 0
    && forall i | 0 <= i < I16(b, 0) :: I16(c, 8 + 2 * i) == I16(b, 8 + 2 * i)
  }

  /** A zero group put in front or at the end does not change the decoded string. */
  lemma PaddingChangesNothing(b: seq<Byte>, c: seq<Byte>, shorter: string, longer: string)
    requires OneGroupMore(b, c) && (ZeroInFront(b, c) || ZeroAtEnd(b, c))
    ensures Reads(shorter, b) && Reads(longer, c) ==> shorter == longer
  {
    var n := I16(b, 0);
    var negative := U16(b, 4) == 0x4000;
    ShowsExactly(shorter, b, negative);
    ShowsExactly(longer, c, negative);
    hide Shows;
    if Reads(shorter, b) && Reads(longer, c) {
      if ZeroInFront(b, c) {
        GroupsInFront(b, c, n);
      } else {
        GroupsAtEnd(b, c);
        TrailingZeroGroup(shorter, negative, Groups(b, n), PointFromRight(b), Scale(b));
      }
      hide Decodes, Groups, InRange;
      DecodingIsUnique(shorter, longer, negative, Groups(c, n + 1), PointFromRight(c), Scale(c));
    }
  }

  lemma GroupsAtEnd(b: seq<Byte>, c: seq<Byte>)
    requires OneGroupMore(b, c) && ZeroAtEnd(b, c)
    ensures Groups(c, I16(b, 0) + 1) == 10000 * Groups(b, I16(b, 0))
  {
    GroupsSame(b, c, I16(b, 0));
  }

  lemma {:induction false} GroupsInFront(b: seq<Byte>, c: seq<Byte>, n: nat)
    requires OneGroupMore(b, c) && n <= I16(b, 0) && I16(c, 8) == 0
    requires forall i | 0 <= i < I16(b, 0) :: I16(c, 10 + 2 * i) == I16(b, 8 + 2 * i)
    ensures Groups(c, n + 1) == Groups(b, n)
  {
    if n > 0 {
      GroupsInFront(b, c, n - 1);
      assert I16(c, 10 + 2 * (n - 1)) == I16(b, 8 + 2 * (n - 1));
    }
  }

  lemma {:induction false} GroupsSame(b: seq<Byte>, c: seq<Byte>, n: nat)
    requires OneGroupMore(b, c) && n <= I16(b, 0)
    requires forall i | 0 <= i < I16(b, 0) :: I16(c, 8 + 2 * i) == I16(b, 8 + 2 * i)
    ensures Groups(c, n) == Groups(b, n)
  {
    if n > 0 {
      GroupsSame(b, c, n - 1);
      assert I16(c, 8 + 2 * (n - 1)) == I16(b, 8 + 2 * (n - 1));
    }
  }
}
