/** The report printed at the end of a run: `print_time` writes an unsigned
    64-bit nanosecond count in decimal, with a comma between each group of
    three digits.

    `Grouped` is the reference definition of that text, `Dec` the reference
    decimal expansion. `PrintTime` is the report loop with its upward scan
    corrected so that the divisor never wraps, proved against `Grouped`;
    `PrintTimeAsWritten` is the loop exactly as `print_time` in pbd.c has
    it, with the 64-bit wrap-around of its divisor, and agrees with
    `Grouped` only below 10^18. */
module TimeFormat {

  /** Values of `cl_ulong` in pbd.c lie below 2^64. */
  const U64: nat := 0x1_0000_0000_0000_0000

  /** The bound below which the divisor of `print_time` never wraps around. */
  const E18: nat := 1_000_000_000_000_000_000

  datatype Option<T> = None | Some(value: T)

  // ---------------------------------------------------------------------
  // Decimal text

  predicate IsDigit(c: char) {
    '0' <= c <= '9'
  }

  predicate AllDigits(s: string) {
    forall i :: 0 <= i < |s| ==> IsDigit(s[i])
  }

  function DigitChar(d: nat): char
    requires d < 10
  {
    (48 + d) as char
  }

  function DigitValue(c: char): nat
    requires IsDigit(c)
  {
    c as int - 48
  }

  /** The number a string of decimal digits denotes. */
  function ValueOf(s: string): nat
    requires AllDigits(s)
  {
    if s == [] then 0 else ValueOf(s[..|s| - 1]) * 10 + DigitValue(s[|s| - 1])
  }

  /** The unsigned decimal conversion of x: its decimal expansion. */
  function Dec(x: nat): string
  {
    if x < 10 then [DigitChar(x)] else Dec(x / 10) + [DigitChar(x % 10)]
  }

  /** A group v below 1000 printed zero-padded to three digits. */
  function Pad3(v: nat): (s: string)
    requires v < 1000
    ensures |s| == 3 && AllDigits(s) && ValueOf(s) == v
  {
    var s := [DigitChar(v / 100), DigitChar(v / 10 % 10), DigitChar(v % 10)];
    assert DigitValue(s[0]) == v / 100 && DigitValue(s[1]) == v / 10 % 10;
    assert DigitValue(s[2]) == v % 10;
    assert s[..2][..1] == [s[0]] && s[..3] == s && s[..2] == [s[0], s[1]];
    assert ValueOf([s[0]]) == v / 100 by {
      assert [s[0]][..0] == [];
    }
    assert ValueOf(s) == (v / 100 * 10 + v / 10 % 10) * 10 + v % 10;
    s
  }

  /** The digits of x in groups of three, most significant group first,
      separated by commas; the leading group is not padded. */
  function Grouped(x: nat): string
  {
    if x < 1000 then Dec(x) else Grouped(x / 1000) + "," + Pad3(x % 1000)
  }

  /** s with every comma taken out. */
  function RemoveCommas(s: string): string
  {
    if s == [] then []
    else RemoveCommas(s[..|s| - 1]) + (if s[|s| - 1] == ',' then [] else [s[|s| - 1]])
  }

  /** One report line: the message, a colon and a space, the number, then
      " ns" and a newline. */
  function Line(msg: string, body: string): string
  {
    msg + ": " + body + " ns\n"
  }

  // ---------------------------------------------------------------------
  // Facts about the decimal text

  lemma {:induction false} ValueOfLeading(s: string)
    requires AllDigits(s) && s != []
    ensures ValueOf(s) >= DigitValue(s[0])
  {
    if |s| > 1 {
      ValueOfLeading(s[..|s| - 1]);
    }
  }

  /** Dec(x) is the decimal expansion of x: it is made of digits, reads back
      as x, and starts with a zero only when x is 0, which it writes as "0". */
  lemma {:induction false} DecIsDecimal(x: nat)
    ensures AllDigits(Dec(x)) && ValueOf(Dec(x)) == x
    ensures x == 0 <==> Dec(x)[0] == '0'
    ensures Dec(0) == "0"
    decreases x
  {
    if x >= 10 {
      DecIsDecimal(x / 10);
      var s := Dec(x);
      assert s[..|s| - 1] == Dec(x / 10);
      assert s[0] == Dec(x / 10)[0];
    }
  }

  /** The decimal expansion is unique: any digit string without a leading
      zero (other than "0" itself) that denotes x is Dec(x). */
  lemma {:induction false} DecUnique(s: string)
    requires s != [] && AllDigits(s)
    requires s[0] == '0' ==> s == "0"
    ensures s == Dec(ValueOf(s))
    decreases |s|
  {
    var last := s[|s| - 1];
    if |s| == 1 {
      assert s == [last];
    } else {
      var front := s[..|s| - 1];
      assert front[0] == s[0];
      DecUnique(front);
      ValueOfLeading(front);
      var x := ValueOf(s);
      assert x == ValueOf(front) * 10 + DigitValue(last);
      assert x / 10 == ValueOf(front) && x % 10 == DigitValue(last);
      assert s == front + [last];
    }
  }

  lemma DecSmall(x: nat)
    requires x < 1000
    ensures 1 <= |Dec(x)| <= 3
  {
    if x >= 10 {
      assert |Dec(x)| == |Dec(x / 10)| + 1;
      if x >= 100 {
        assert |Dec(x / 10)| == |Dec(x / 10 / 10)| + 1;
      }
    }
  }

  /** Appending one more digit d after a nonzero prefix a. */
  lemma DecShift(a: nat, d: nat)
    requires a >= 1 && d < 10
    ensures Dec(a * 10 + d) == Dec(a) + [DigitChar(d)]
  {
    assert (a * 10 + d) / 10 == a && (a * 10 + d) % 10 == d;
  }

  /** The decimal expansion of a * 1000 + b ends in the three digits of b. */
  lemma DecSplit(a: nat, b: nat)
    requires a >= 1 && b < 1000
    ensures Dec(a * 1000 + b) == Dec(a) + Pad3(b)
  {
    var d0, d1, d2 := b / 100, b / 10 % 10, b % 10;
    assert b == d0 * 100 + d1 * 10 + d2;
    var a1 := a * 10 + d0;
    var a2 := a1 * 10 + d1;
    DecShift(a, d0);
    DecShift(a1, d1);
    DecShift(a2, d2);
    assert a2 * 10 + d2 == a * 1000 + b;
    assert Pad3(b) == [DigitChar(d0), DigitChar(d1), DigitChar(d2)];
  }

  lemma {:induction false} RemoveCommasAppend(a: string, b: string)
    ensures RemoveCommas(a + b) == RemoveCommas(a) + RemoveCommas(b)
    decreases |b|
  {
    if b == [] {
      assert a + b == a;
    } else {
      var b' := b[..|b| - 1];
      assert (a + b)[..|a + b| - 1] == a + b';
      RemoveCommasAppend(a, b');
    }
  }

  lemma {:induction false} RemoveCommasDigits(s: string)
    requires AllDigits(s)
    ensures RemoveCommas(s) == s
    decreases |s|
  {
    if s != [] {
      RemoveCommasDigits(s[..|s| - 1]);
      assert s == s[..|s| - 1] + [s[|s| - 1]];
    }
  }

  /** Round trip: taking the commas out of Grouped(x) gives back exactly the
      decimal expansion of x. */
  lemma {:induction false} GroupedRoundTrip(x: nat)
    ensures RemoveCommas(Grouped(x)) == Dec(x)
    decreases x
  {
    DecIsDecimal(x);
    if x < 1000 {
      RemoveCommasDigits(Dec(x));
    } else {
      GroupedRoundTrip(x / 1000);
      RemoveCommasAppend(Grouped(x / 1000) + ",", Pad3(x % 1000));
      RemoveCommasAppend(Grouped(x / 1000), ",");
      RemoveCommasDigits(Pad3(x % 1000));
      assert RemoveCommas(",") == RemoveCommas([]) + [];
      DecSplit(x / 1000, x % 1000);
      assert x / 1000 * 1000 + x % 1000 == x;
    }
  }

  /** Digits and commas, the commas exactly at the positions i > 0 that
      have a multiple of four characters from i to the end, and a length
      that is not a multiple of four: a leading group of one to three
      digits, then groups of a comma and three digits. */
  predicate CommaShape(s: string) {
    |s| % 4 != 0 &&
    (forall i :: 0 <= i < |s| ==> (s[i] == ',' <==> i > 0 && (|s| - i) % 4 == 0)) &&
    (forall i :: 0 <= i < |s| ==> s[i] == ',' || IsDigit(s[i]))
  }

  lemma CommaShapeDigits(s: string)
    requires AllDigits(s) && 1 <= |s| <= 3
    ensures CommaShape(s)
  {
  }

  lemma CommaShapeAppend(t: string, p: string)
    requires CommaShape(t) && AllDigits(p) && |p| == 3
    ensures CommaShape(t + "," + p)
  {
    var s := t + "," + p;
    forall i | 0 <= i < |s|
      ensures (s[i] == ',' <==> i > 0 && (|s| - i) % 4 == 0)
      ensures s[i] == ',' || IsDigit(s[i])
    {
      if i < |t| {
        assert s[i] == t[i];
      } else if i > |t| {
        assert s[i] == p[i - |t| - 1];
      }
    }
  }

  /** The shape of Grouped(x): a leading group of one to three digits, then
      comma-separated groups of exactly three (CommaShape); it starts with
      '0' only for x == 0, which it writes as "0". */
  lemma {:induction false} GroupedShape(x: nat)
    ensures CommaShape(Grouped(x))
    ensures Grouped(x)[0] == '0' <==> x == 0
    ensures Grouped(0) == "0"
    decreases x
  {
    DecIsDecimal(x);
    if x < 1000 {
      DecSmall(x);
      CommaShapeDigits(Dec(x));
    } else {
      GroupedShape(x / 1000);
      CommaShapeAppend(Grouped(x / 1000), Pad3(x % 1000));
      assert Grouped(x)[0] == Grouped(x / 1000)[0];
    }
  }

  // ---------------------------------------------------------------------
  // Powers of 1000 and the leading group

  function Pow1000(k: nat): (r: nat)
    ensures r >= 1
  {
    if k == 0 then 1 else 1000 * Pow1000(k - 1)
  }

  lemma DivUnique(x: nat, d: nat, q: nat, r: nat)
    requires d > 0 && r < d && x == d * q + r
    ensures x / d == q && x % d == r
  {
    var q', r' := x / d, x % d;
    assert x == d * q' + r';
    if q' > q {
      assert d * q' >= d * (q + 1) by { MulMono(d, q + 1, q'); }
      assert false;
    } else if q' < q {
      assert d * q >= d * (q' + 1) by { MulMono(d, q' + 1, q); }
      assert false;
    }
  }

  lemma MulMono(d: nat, a: nat, b: nat)
    requires a <= b
    ensures d * a <= d * b
  {
  }

  /** Dividing by a and then by b is dividing by a * b. */
  lemma DivDiv(x: nat, a: nat, b: nat)
    requires a > 0 && b > 0
    ensures x / (a * b) == x / a / b
  {
    var q1, r1 := x / a, x % a;
    var q2, r2 := q1 / b, q1 % b;
    var ab := a * b;
    assert x == a * q1 + r1;
    assert a * q1 == ab * q2 + a * r2 by {
      assert q1 == b * q2 + r2;
      assert a * (b * q2 + r2) == a * (b * q2) + a * r2;
      assert a * (b * q2) == ab * q2;
    }
    assert a * r2 + r1 < ab by {
      MulMono(a, r2, b - 1);
      assert a * (b - 1) == ab - a;
    }
    DivUnique(x, ab, q2, a * r2 + r1);
  }

  /** The comma groups below divisor n: for each smaller power of 1000
      down to 1, a comma and the group of ul at that power, padded to three
      digits. */
  function CommaGroups(ul: nat, n: nat): string
    decreases n
  {
    if n == 0 then "" else "," + Pad3(ul / n % 1000) + CommaGroups(ul, n / 1000)
  }

  /** The report's number text when the walk down starts at divisor n:
      the group of ul at n, unpadded, then the comma groups below n. */
  function DigitsFrom(ul: nat, n: nat): string
    requires n > 0
  {
    Dec(ul / n % 1000) + CommaGroups(ul, n / 1000)
  }

  /** One more group: the groups of q / 1000 followed by a comma and the
      last three digits of q are the groups of q. */
  lemma GroupedStep(q: nat, rest: string)
    requires q >= 1000
    ensures Grouped(q / 1000) + ("," + Pad3(q % 1000) + rest) == Grouped(q) + rest
  {
  }

  /** Walking down from the divisor Pow1000(k) completes the groups above it
      to the whole grouped number. */
  lemma {:induction false} CommaGroupsComplete(ul: nat, k: nat)
    requires k == 0 || ul / Pow1000(k) >= 1
    ensures Grouped(ul / Pow1000(k)) + CommaGroups(ul, Pow1000(k) / 1000) == Grouped(ul)
    decreases k
  {
    if k == 0 {
      assert Pow1000(0) / 1000 == 0;
    } else {
      var n := Pow1000(k);
      var m := Pow1000(k - 1);
      assert n == m * 1000 && n / 1000 == m;
      var q := ul / m;
      assert ul / n == q / 1000 by {
        DivDiv(ul, m, 1000);
      }
      CommaGroupsComplete(ul, k - 1);
      assert CommaGroups(ul, m) == "," + Pad3(q % 1000) + CommaGroups(ul, m / 1000);
      GroupedStep(q, CommaGroups(ul, m / 1000));
    }
  }

  /** Starting from the largest power of 1000 not above ul (1 when ul is 0),
      the two printing steps of `print_time` write exactly Grouped(ul). */
  lemma DigitsFromLead(ul: nat, k: nat)
    requires ul / Pow1000(k) < 1000
    requires k == 0 || ul / Pow1000(k) >= 1
    ensures DigitsFrom(ul, Pow1000(k)) == Grouped(ul)
  {
    var q := ul / Pow1000(k);
    assert q % 1000 == q && Grouped(q) == Dec(q);
    CommaGroupsComplete(ul, k);
  }

  // ---------------------------------------------------------------------
  // The downward walk shared by both versions of the report

  /** The two printing steps of the report: the leading group unpadded,
      then, while the divisor divided by 1000 is still nonzero, a comma and
      the next group padded to three digits. */
  method WalkDown(ul: nat, lead: nat) returns (s: string)
    requires lead > 0
    ensures s == DigitsFrom(ul, lead)
  {
    var n := lead;
    s := Dec(ul / n % 1000);
    n := n / 1000;
    while n != 0
      invariant s + CommaGroups(ul, n) == DigitsFrom(ul, lead)
    {
      s := s + "," + Pad3(ul / n % 1000);
      n := n / 1000;
    }
  }

  // ---------------------------------------------------------------------
  // The report without the wrap-around

  /** `print_time` with the divisor scaled up only while another group
      remains above it, so that it never exceeds ul and never wraps: the
      text is msg, ": ", the grouped decimal of ul, " ns\n", for every
      64-bit ul. */
  method PrintTime(msg: string, ul: nat) returns (out: string)
    requires ul < U64
    ensures out == Line(msg, Grouped(ul))
  {
    var n := 1;
    ghost var k := 0;
    while ul / n >= 1000
      invariant n == Pow1000(k) && n <= ul + 1
      invariant k == 0 || ul / n >= 1
      decreases ul / n
    {
      DivDiv(ul, n, 1000);
      assert ul / (n * 1000) == ul / n / 1000;
      MulMono(n, 1000, ul / n);
      assert n * 1000 <= n * (ul / n) <= ul < U64;
      n := n * 1000;
      k := k + 1;
    }
    DigitsFromLead(ul, k);
    var body := WalkDown(ul, n);
    out := Line(msg, body);
  }

  // ---------------------------------------------------------------------
  // The report as `print_time` in pbd.c writes it

  /** The divisor after k multiplications by 1000 in 64-bit unsigned
      arithmetic. */
  function WrappedPow(k: nat): (r: nat)
    ensures r < U64
  {
    if k == 0 then 1 else WrappedPow(k - 1) * 1000 % U64
  }

  /** The first 23 values of the wrapped n; the 22nd step reaches 0. */
  lemma WrappedPowTable()
    ensures WrappedPow(0) == 1
    ensures WrappedPow(1) == 1000
    ensures WrappedPow(2) == 1000000
    ensures WrappedPow(3) == 1000000000
    ensures WrappedPow(4) == 1000000000000
    ensures WrappedPow(5) == 1000000000000000
    ensures WrappedPow(6) == 1000000000000000000
    ensures WrappedPow(7) == 3875820019684212736
    ensures WrappedPow(8) == 2003764205206896640
    ensures WrappedPow(9) == 11515845246265065472
    ensures WrappedPow(10) == 5076944270305263616
    ensures WrappedPow(11) == 4089650035136921600
    ensures WrappedPow(12) == 12919594847110692864
    ensures WrappedPow(13) == 6873995514006732800
    ensures WrappedPow(14) == 11806718586779598848
    ensures WrappedPow(15) == 802379605485813760
    ensures WrappedPow(16) == 9169610316303040512
    ensures WrappedPow(17) == 1578511669393358848
    ensures WrappedPow(18) == 10538423128046960640
    ensures WrappedPow(19) == 5332261958806667264
    ensures WrappedPow(20) == 1152921504606846976
    ensures WrappedPow(21) == 9223372036854775808
    ensures WrappedPow(22) == 0
  {
    assert WrappedPow(0) == 1;
    assert WrappedPow(1) == 1000;
    assert WrappedPow(2) == 1000000;
    assert WrappedPow(3) == 1000000000;
    assert WrappedPow(4) == 1000000000000;
    assert WrappedPow(5) == 1000000000000000;
    assert WrappedPow(6) == 1000000000000000000;
    assert WrappedPow(7) == 3875820019684212736;
    assert WrappedPow(8) == 2003764205206896640;
    assert WrappedPow(9) == 11515845246265065472;
    assert WrappedPow(10) == 5076944270305263616;
    assert WrappedPow(11) == 4089650035136921600;
    assert WrappedPow(12) == 12919594847110692864;
    assert WrappedPow(13) == 6873995514006732800;
    assert WrappedPow(14) == 11806718586779598848;
    assert WrappedPow(15) == 802379605485813760;
    assert WrappedPow(16) == 9169610316303040512;
    assert WrappedPow(17) == 1578511669393358848;
    assert WrappedPow(18) == 10538423128046960640;
    assert WrappedPow(19) == 5332261958806667264;
    assert WrappedPow(20) == 1152921504606846976;
    assert WrappedPow(21) == 9223372036854775808;
    assert WrappedPow(22) == 0;
  }

  /** 1000^22 is a multiple of 2^64, so from the 22nd step on n is 0. */
  lemma {:induction false} WrappedPowVanishes(k: nat)
    requires k >= 22
    ensures WrappedPow(k) == 0
  {
    if k > 22 {
      WrappedPowVanishes(k - 1);
    } else {
      WrappedPowTable();
    }
  }

  /** Up to 1000^6 = 10^18 the wrapped n is the true power. */
  lemma WrappedPowExact(k: nat)
    requires k <= 6
    ensures WrappedPow(k) == Pow1000(k) && Pow1000(k) <= E18
  {
    if k == 0 {
    } else if k == 1 {
    } else if k == 2 {
    } else if k == 3 {
    } else if k == 4 {
    } else if k == 5 {
    } else {
      assert WrappedPow(6) == Pow1000(6) == E18;
    }
  }

  /** Where the upward scan of the divisor stops, once it has multiplied
      it k times: Some(n) at the first wrapped power that exceeds ul, None
      when the divisor has wrapped to 0 first, so that the scan's test
      divides by zero (WrappedPowVanishes: from k = 22 on the
      wrapped n is 0). */
  function ScaleUpWrapped(ul: nat, k: nat): Option<nat>
    decreases 22 - k
  {
    if k >= 22 || WrappedPow(k) == 0 then None
    else if ul / WrappedPow(k) == 0 then Some(WrappedPow(k))
    else ScaleUpWrapped(ul, k + 1)
  }

  /** One more pass of the scan: while ul / n is nonzero the scan goes on
      to the next wrapped power, and stops there without a result if that
      power is 0. */
  lemma ScaleUpStep(ul: nat, k: nat)
    requires k < 22 && WrappedPow(k) != 0 && ul / WrappedPow(k) != 0
    ensures WrappedPow(k + 1) == WrappedPow(k) * 1000 % U64
    ensures ScaleUpWrapped(ul, k) == ScaleUpWrapped(ul, k + 1)
    ensures WrappedPow(k + 1) == 0 ==> ScaleUpWrapped(ul, k + 1) == None
  {
  }

  /** The whole number text `print_time` writes for ul, None where it
      divides by zero. */
  function AsWrittenText(ul: nat): Option<string>
  {
    match ScaleUpWrapped(ul, 0)
    case None => None
    case Some(n) =>
      var lead := if ul != 0 then n / 1000 else n;
      if lead == 0 then None else Some(DigitsFrom(ul, lead))
  }

  /** `print_time` exactly as written, with the divisor a 64-bit unsigned value
      whose multiplication by 1000 wraps around; None is the division by zero that follows
      when the wrapped n reaches 0. Below 10^18 the text is the grouped
      decimal of ul. */
  method PrintTimeAsWritten(msg: string, ul: nat) returns (out: Option<string>)
    requires ul < U64
    ensures out.None? <==> AsWrittenText(ul).None?
    ensures out.Some? ==> out.value == Line(msg, AsWrittenText(ul).value)
    ensures ul < E18 ==> out == Some(Line(msg, Grouped(ul)))
  {
    if ul < E18 {
      AsWrittenBelowE18(ul);
    }
    WrappedPowVanishes(22);
    var n := 1;
    ghost var k := 0;
    while ul / n != 0
      invariant k < 22 && n == WrappedPow(k) && n != 0
      invariant ScaleUpWrapped(ul, k) == ScaleUpWrapped(ul, 0)
      decreases 22 - k
    {
      ScaleUpStep(ul, k);
      n := n * 1000 % U64;
      k := k + 1;
      if n == 0 {
        // the loop test divides by zero next
        return None;
      }
    }
    if ul != 0 {
      n := n / 1000;
    }
    if n == 0 {
      // printing the leading group divides by zero
      return None;
    }
    var body := WalkDown(ul, n);
    out := Some(Line(msg, body));
  }


  /** A nonzero quotient of natural numbers is at least 1. */
  lemma QuotientPositive(x: nat, d: nat)
    requires d > 0 && x / d != 0
    ensures x / d >= 1
  {
  }

  /** Scanning up from the k-th power below 10^18 stops at the first power
      of 1000 above ul, before anything wraps. */
  lemma {:induction false} ScaleUpBelowE18(ul: nat, k: nat) returns (j: nat)
    requires ul < E18 && k <= 6
    requires k == 0 || ul / Pow1000(k - 1) >= 1
    ensures k <= j <= 6 && ScaleUpWrapped(ul, k) == Some(Pow1000(j))
    ensures ul / Pow1000(j) == 0 && (j == 0 || ul / Pow1000(j - 1) >= 1)
    decreases 6 - k
  {
    WrappedPowExact(k);
    var n := Pow1000(k);
    assert WrappedPow(k) == n && n >= 1;
    assert k == 6 ==> n == E18 && ul / n == 0;
    if ul / n == 0 {
      j := k;
      assert ScaleUpWrapped(ul, k) == Some(n);
    } else {
      assert ScaleUpWrapped(ul, k) == ScaleUpWrapped(ul, k + 1);
      QuotientPositive(ul, n);
      var k' := k + 1;
      assert k' - 1 == k && ul / Pow1000(k' - 1) >= 1;
      j := ScaleUpBelowE18(ul, k');
    }
  }

  /** Below 10^18 the text of `print_time` is the grouped decimal of ul. */
  lemma AsWrittenBelowE18(ul: nat)
    requires ul < E18
    ensures AsWrittenText(ul) == Some(Grouped(ul))
  {
    var j := ScaleUpBelowE18(ul, 0);
    if ul == 0 {
      assert j == 0;
      DigitsFromLead(ul, 0);
    } else {
      assert j >= 1;
      var n := Pow1000(j);
      var m := Pow1000(j - 1);
      assert n / 1000 == m;
      DivDiv(ul, m, 1000);
      assert ul / m / 1000 == 0;
      DigitsFromLead(ul, j - 1);
    }
  }

  lemma ScaleUpAtE18()
    ensures ScaleUpWrapped(E18, 0) == Some(3875820019684212736)
  {
    WrappedPowTable();
    assert ScaleUpWrapped(E18, 7) == Some(3875820019684212736);
    assert ScaleUpWrapped(E18, 6) == ScaleUpWrapped(E18, 7);
    assert ScaleUpWrapped(E18, 5) == ScaleUpWrapped(E18, 6);
    assert ScaleUpWrapped(E18, 4) == ScaleUpWrapped(E18, 5);
    assert ScaleUpWrapped(E18, 3) == ScaleUpWrapped(E18, 4);
    assert ScaleUpWrapped(E18, 2) == ScaleUpWrapped(E18, 3);
    assert ScaleUpWrapped(E18, 1) == ScaleUpWrapped(E18, 2);
    assert ScaleUpWrapped(E18, 0) == ScaleUpWrapped(E18, 1);
  }

  lemma GroupedE18()
    ensures Grouped(E18)[0] == '1'
  {
    var x := E18;
    assert Grouped(x)[0] == Grouped(x / 1000)[0];
    assert Grouped(x / 1000)[0] == Grouped(x / 1000 / 1000)[0];
    assert Grouped(x / 1000 / 1000)[0] == Grouped(x / 1000 / 1000 / 1000)[0];
    assert Grouped(1000000000)[0] == Grouped(1000000)[0] == Grouped(1000)[0] == Grouped(1)[0];
  }

  /** At ul = 10^18 the divisor wraps to 3875820019684212736, which is not a
      power of 1000: the text of `print_time` then starts with the group
      258, where the grouped decimal of 10^18 starts with 1. */
  lemma AsWrittenMisprintsE18()
    ensures ScaleUpWrapped(E18, 0) == Some(3875820019684212736)
    ensures AsWrittenText(E18).Some? && AsWrittenText(E18).value[..3] == "258"
    ensures Grouped(E18)[0] == '1'
  {
    ScaleUpAtE18();
    var lead := 3875820019684212;
    assert E18 / lead % 1000 == 258;
    assert Dec(258) == "258";
    assert DigitsFrom(E18, lead)[..3] == Dec(258);
    GroupedE18();
  }

  /** At ul = 2^64 - 1 every wrapped divisor up to the 21st is at most ul, the
      22nd is 0, and the loop condition divides by zero. */
  lemma AsWrittenDividesByZero()
    ensures AsWrittenText(U64 - 1) == None
  {
    WrappedPowTable();
    var ul := U64 - 1;
    assert ul == 18446744073709551615;
    assert ScaleUpWrapped(ul, 22) == None;
    assert ul / 9223372036854775808 == 1;
    assert ScaleUpWrapped(ul, 21) == ScaleUpWrapped(ul, 22);
    assert ul / 1152921504606846976 == 15;
    assert ScaleUpWrapped(ul, 20) == ScaleUpWrapped(ul, 21);
    assert ul / 5332261958806667264 == 3;
    assert ScaleUpWrapped(ul, 19) == ScaleUpWrapped(ul, 20);
    assert ul / 10538423128046960640 == 1;
    assert ScaleUpWrapped(ul, 18) == ScaleUpWrapped(ul, 19);
    assert ul / 1578511669393358848 == 11;
    assert ScaleUpWrapped(ul, 17) == ScaleUpWrapped(ul, 18);
    assert ul / 9169610316303040512 == 2;
    assert ScaleUpWrapped(ul, 16) == ScaleUpWrapped(ul, 17);
    assert ul / 802379605485813760 == 22;
    assert ScaleUpWrapped(ul, 15) == ScaleUpWrapped(ul, 16);
    assert ul / 11806718586779598848 == 1;
    assert ScaleUpWrapped(ul, 14) == ScaleUpWrapped(ul, 15);
    assert ul / 6873995514006732800 == 2;
    assert ScaleUpWrapped(ul, 13) == ScaleUpWrapped(ul, 14);
    assert ul / 12919594847110692864 == 1;
    assert ScaleUpWrapped(ul, 12) == ScaleUpWrapped(ul, 13);
    assert ul / 4089650035136921600 == 4;
    assert ScaleUpWrapped(ul, 11) == ScaleUpWrapped(ul, 12);
    assert ul / 5076944270305263616 == 3;
    assert ScaleUpWrapped(ul, 10) == ScaleUpWrapped(ul, 11);
    assert ul / 11515845246265065472 == 1;
    assert ScaleUpWrapped(ul, 9) == ScaleUpWrapped(ul, 10);
    assert ul / 2003764205206896640 == 9;
    assert ScaleUpWrapped(ul, 8) == ScaleUpWrapped(ul, 9);
    assert ul / 3875820019684212736 == 4;
    assert ScaleUpWrapped(ul, 7) == ScaleUpWrapped(ul, 8);
    assert ul / 1000000000000000000 == 18;
    assert ScaleUpWrapped(ul, 6) == ScaleUpWrapped(ul, 7);
    assert ul / 1000000000000000 == 18446;
    assert ScaleUpWrapped(ul, 5) == ScaleUpWrapped(ul, 6);
    assert ul / 1000000000000 == 18446744;
    assert ScaleUpWrapped(ul, 4) == ScaleUpWrapped(ul, 5);
    assert ul / 1000000000 == 18446744073;
    assert ScaleUpWrapped(ul, 3) == ScaleUpWrapped(ul, 4);
    assert ul / 1000000 == 18446744073709;
    assert ScaleUpWrapped(ul, 2) == ScaleUpWrapped(ul, 3);
    assert ul / 1000 == 18446744073709551;
    assert ScaleUpWrapped(ul, 1) == ScaleUpWrapped(ul, 2);
    assert ul / 1 == 18446744073709551615;
    assert ScaleUpWrapped(ul, 0) == ScaleUpWrapped(ul, 1);
  }
}
