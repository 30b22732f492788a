/** src/shared/money/money.ts */
module Moneys {
  import opened Wrappers
  import opened Text
  import opened Totals

  datatype MoneyError =
    | UnsafeAmount
    | InvalidCurrency
    | InvalidDigits
    | InvalidDecimal
    | TooPrecise
    | NoRatios
    | NegativeRatio
    | ZeroRatios

  const MAX_SAFE_INTEGER := 9_007_199_254_740_991

  /** An amount in integer minor units. */
  datatype Money = Money(amount: int, currency: string, digits: nat) {
    ghost predicate Valid() {
      SafeInteger(amount) && CurrencyCode(currency)
    }
  }

  predicate SafeInteger(n: int) {
    -MAX_SAFE_INTEGER <= n <= MAX_SAFE_INTEGER
  }

  /** `/^[A-Z]{3}$/` */
  predicate CurrencyCode(s: string) {
    |s| == 3 && forall i :: 0 <= i < 3 ==> 'A' <= s[i] <= 'Z'
  }

  function Of(amount: int, currency: string, digits: int): (r: Result<Money, MoneyError>)
    ensures r.Success? ==> r.value.Valid()
    ensures r.Success? <==> SafeInteger(amount) && CurrencyCode(currency) && digits >= 0
  {
    if !SafeInteger(amount) then Failure(UnsafeAmount)
    else if !CurrencyCode(currency) then Failure(InvalidCurrency)
    else if digits < 0 then Failure(InvalidDigits)
    else Success(Money(amount, currency, digits))
  }

  predicate Capital(c: char) {
    c in "ABCDEFGHIJKLMNOPQRSTUVWXYZ"
  }

  lemma CapitalExactly(c: char)
    ensures Capital(c) <==> 'A' <= c <= 'Z'
  {
    assert 'A' <= c <= 'Z' ==> c == "ABCDEFGHIJKLMNOPQRSTUVWXYZ"[c as int - 'A' as int];
  }

  /** What is tested, in which order, and that the money is what was given. */
  lemma OfMeaning(amount: int, currency: string, digits: int)
    ensures Of(amount, currency, digits) ==
            if amount <= -9_007_199_254_740_992 || amount >= 9_007_199_254_740_992 then Failure(UnsafeAmount)
            else if |currency| != 3 || !Capital(currency[0]) || !Capital(currency[1]) || !Capital(currency[2])
            then Failure(InvalidCurrency)
            else if digits < 0 then Failure(InvalidDigits)
            else Success(Money(amount, currency, digits))
  {
    hide Capital;
    if |currency| == 3 {
      CapitalExactly(currency[0]);
      CapitalExactly(currency[1]);
      CapitalExactly(currency[2]);
    }
  }

  // ----- Decimal strings -----------------------------------------------------------------------

  function Zeros(n: nat): (s: string)
    ensures |s| == n && forall i :: 0 <= i < n ==> s[i] == '0'
  {
    seq(n, _ => '0')
  }

  function Abs(n: int): nat {
    if n < 0 then -n else n
  }

  function PadStart(s: string, n: nat): string {
    if |s| < n then Zeros(n - |s|) + s else s
  }

  /** `padEnd(n, '0')` */
  function PadEnd(s: string, n: int): string {
    if |s| < n then s + Zeros(n - |s|) else s
  }

  function ToDecimalString(m: Money): string {
    if m.digits == 0 then (if m.amount < 0 then "-" else "") + Numeral(Abs(m.amount))
    else
      var absolute := PadStart(Numeral(Abs(m.amount)), m.digits + 1);
      var cut := |absolute| - m.digits;
      (if m.amount < 0 then "-" else "") + absolute[..cut] + "." + absolute[cut..]
  }

  /** The parts of a string of the form `/^-?\d+(\.\d+)?$/`; `fraction` is empty when it is absent. */
  datatype Decimal = Decimal(negative: bool, whole: string, fraction: string) {
    ghost predicate Valid() {
      IsNumeral(whole) && (fraction != "" ==> IsNumeral(fraction))
    }
  }

  function ParseDecimal(s: string): (d: Option<Decimal>)
    ensures d.Some? ==> d.value.Valid()
  {
    var negative := s != "" && s[0] == '-';
    var body := if negative then s[1..] else s;
    var dot := IndexOf(body, '.');
    if dot == |body| then
      if IsNumeral(body) then Some(Decimal(negative, body, "")) else None
    else if IsNumeral(body[..dot]) && IsNumeral(body[dot + 1..])
    then Some(Decimal(negative, body[..dot], body[dot + 1..]))
    else None
  }

  function FromDecimalString(value: string, currency: string, digits: int): Result<Money, MoneyError> {
    var parsed := ParseDecimal(Trim(value));
    if parsed.None? then Failure(InvalidDecimal)
    else
      var d := parsed.value;
      var fraction := PadEnd(d.fraction, digits);
      if |fraction| > digits then Failure(TooPrecise)
      else Of((if d.negative then -1 else 1) * NumberOf(d.whole + fraction), currency, digits)
  }

  function Power10(n: nat): nat {
    if n == 0 then 1 else 10 * Power10(n - 1)
  }

  lemma {:induction false} PowersAdd(m: nat, n: nat)
    ensures Power10(m + n) == Power10(m) * Power10(n)
  {
    if m > 0 {
      PowersAdd(m - 1, n);
    }
  }

  lemma ShiftedDigits(a: int, p: int, b: int, d: int)
    ensures 10 * (a * p + b) + d == a * (10 * p) + (10 * b + d)
  {
    assert a * (10 * p) == 10 * (a * p);
  }

  lemma {:induction false} NumberOfAppended(s: string, t: string)
    requires forall i :: 0 <= i < |s| ==> IsDigit(s[i])
    requires forall i :: 0 <= i < |t| ==> IsDigit(t[i])
    ensures forall i :: 0 <= i < |s + t| ==> IsDigit((s + t)[i])
    ensures NumberOf(s + t) == NumberOf(s) * Power10(|t|) + NumberOf(t)
  {
    hide IsDigit, DigitValue;
    if t == "" {
      assert s + t == s;
    } else {
      var init := t[..|t| - 1];
      NumberOfAppended(s, init);
      assert (s + t)[..|s + t| - 1] == s + init;
      ShiftedDigits(NumberOf(s), Power10(|init|), NumberOf(init), DigitValue(t[|t| - 1]));
    }
  }

  lemma {:induction false} NumberOfZeros(n: nat)
    ensures NumberOf(Zeros(n)) == 0
  {
    if n > 0 {
      assert Zeros(n)[..n - 1] == Zeros(n - 1);
      NumberOfZeros(n - 1);
    }
  }

  /** The digits an accepted decimal is read from, padded with zeros to `digits` fraction digits. */
  lemma PaddedValue(d: Decimal, digits: nat)
    requires d.Valid() && |d.fraction| <= digits
    ensures IsNumeral(d.whole + PadEnd(d.fraction, digits)) && IsNumeral(d.whole + d.fraction)
    ensures |PadEnd(d.fraction, digits)| == digits
    ensures NumberOf(d.whole + PadEnd(d.fraction, digits)) ==
            NumberOf(d.whole + d.fraction) * Power10(digits - |d.fraction|)
  {
    var missing := digits - |d.fraction|;
    assert PadEnd(d.fraction, digits) == d.fraction + Zeros(missing);
    assert d.whole + PadEnd(d.fraction, digits) == (d.whole + d.fraction) + Zeros(missing);
    NumberOfAppended(d.whole + d.fraction, Zeros(missing));
    NumberOfZeros(missing);
  }

  /** The trimmed string is this decimal, written out. */
  ghost predicate Denotes(value: string, d: Decimal) {
    d.Valid() && Printed(d) == Trim(value)
  }

  /** The string is this decimal, with at most `digits` fraction digits and a safe amount. */
  ghost predicate Fits(value: string, digits: int, d: Decimal) {
    && Denotes(value, d) && |d.fraction| <= digits
    && NumberOf(d.whole + d.fraction) * Power10(digits - |d.fraction|) <= MAX_SAFE_INTEGER
  }

  /**
   * A string is accepted exactly when it is a decimal with at most `digits` fraction digits whose amount
   * is safe, and the currency is valid.
   */
  lemma FromDecimalStringAccepts(value: string, currency: string, digits: int)
    ensures FromDecimalString(value, currency, digits).Success? <==>
            CurrencyCode(currency) && exists d :: Fits(value, digits, d)
  {
    hide ParseDecimal, Trim, NumberOf, Power10, CurrencyCode, Printed;
    var parsed := ParseDecimal(Trim(value));
    if parsed.Some? {
      ParsedExactly(Trim(value), parsed.value);
      if |parsed.value.fraction| <= digits {
        PaddedValue(parsed.value, digits);
        assert FromDecimalString(value, currency, digits).Success? <==>
               CurrencyCode(currency) && Fits(value, digits, parsed.value);
      }
    }
    forall d | Fits(value, digits, d)
      ensures parsed == Some(d)
    {
      ParsedExactly(Trim(value), d);
    }
  }

  /**
   * An accepted string denotes exactly amount / 10^digits: with `f` fraction digits its own value is
   * sign * (whole ++ fraction) / 10^f.
   */
  lemma FromDecimalStringMeaning(value: string, currency: string, digits: int, d: Decimal)
    requires FromDecimalString(value, currency, digits).Success? && Denotes(value, d)
    ensures var m := FromDecimalString(value, currency, digits).value;
            && m.currency == currency && m.digits == digits
            && m.amount * Power10(|d.fraction|) ==
               (if d.negative then -1 else 1) * NumberOf(d.whole + d.fraction) * Power10(digits)
  {
    hide Power10, NumberOf, ParseDecimal, Trim, Printed;
    ParsedExactly(Trim(value), d);
    var m := FromDecimalString(value, currency, digits).value;
    PaddedValue(d, digits);
    PowersAdd(digits - |d.fraction|, |d.fraction|);
    ScaledPower(m.amount, if d.negative then -1 else 1, NumberOf(d.whole + d.fraction),
                Power10(digits - |d.fraction|), Power10(|d.fraction|), Power10(digits));
  }

  lemma ScaledPower(amount: int, sign: int, n: nat, a: nat, b: nat, c: nat)
    requires c == a * b && amount == sign * (n * a)
    ensures amount * b == sign * n * c
  {
    assert sign * (n * a) * b == sign * n * (a * b);
  }

  lemma {:induction false} IndexOfDot(s: string, t: string)
    requires forall i :: 0 <= i < |s| ==> s[i] != '.'
    ensures IndexOf(s + "." + t, '.') == |s|
    ensures IndexOf(s, '.') == |s|
  {
    if s != "" {
      IndexOfDot(s[1..], t);
      assert (s + "." + t)[1..] == s[1..] + "." + t;
    }
  }

  function Printed(d: Decimal): string {
    (if d.negative then "-" else "") + if d.fraction == "" then d.whole else d.whole + "." + d.fraction
  }

  lemma PrintedTrimmed(d: Decimal)
    requires d.Valid()
    ensures Trim(Printed(d)) == Printed(d)
  {
    hide Trim, IsSpace;
    var s := Printed(d);
    assert s[0] == '-' || IsDigit(s[0]);
    assert IsDigit(s[|s| - 1]);
    DigitNotSpace(s[0]);
    DigitNotSpace(s[|s| - 1]);
    TrimmedUnchanged(s);
  }

  lemma DigitNotSpace(c: char)
    ensures c == '-' || IsDigit(c) ==> !IsSpace(c)
  {
  }

  lemma NumeralChars(s: string)
    requires IsNumeral(s)
    ensures s != "" && s[0] != '-' && forall i :: 0 <= i < |s| ==> s[i] != '.'
  {
  }

  lemma ParseOfPrinted(d: Decimal)
    requires d.Valid()
    ensures ParseDecimal(Printed(d)) == Some(d)
  {
    hide NumberOf, IsNumeral, IndexOf;
    NumeralChars(d.whole);
    IndexOfDot(d.whole, d.fraction);
    var body := if d.fraction == "" then d.whole else d.whole + "." + d.fraction;
    assert Printed(d) == (if d.negative then "-" else "") + body;
    assert d.negative ==> Printed(d)[1..] == body;
    assert !d.negative ==> Printed(d) == body && body[0] == d.whole[0];
    if d.fraction != "" {
      assert body[..|d.whole|] == d.whole;
      assert body[|d.whole| + 1..] == d.fraction;
    }
  }

  lemma PrintedOfParsed(s: string)
    ensures ParseDecimal(s).Some? ==> Printed(ParseDecimal(s).value) == s
  {
    hide NumberOf, IsNumeral;
    var body := if s != "" && s[0] == '-' then s[1..] else s;
    var dot := IndexOf(body, '.');
    if dot < |body| {
      assert body == body[..dot] + "." + body[dot + 1..];
      assert IsNumeral(body[dot + 1..]) ==> body[dot + 1..] != "" by {
        if IsNumeral(body[dot + 1..]) {
          NumeralChars(body[dot + 1..]);
        }
      }
    }
    assert s != "" && s[0] == '-' ==> s == "-" + body;
  }

  /** A string parses as a decimal exactly when it is that decimal written out. */
  lemma ParsedExactly(s: string, d: Decimal)
    ensures ParseDecimal(s) == Some(d) <==> d.Valid() && Printed(d) == s
  {
    hide ParseDecimal, Printed;
    PrintedOfParsed(s);
    if d.Valid() {
      ParseOfPrinted(d);
    }
  }

  /** The decimal that money prints as. */
  function DecimalOf(m: Money): (d: Decimal)
    ensures Printed(d) == ToDecimalString(m)
  {
    if m.digits == 0 then Decimal(m.amount < 0, Numeral(Abs(m.amount)), "")
    else
      var absolute := PadStart(Numeral(Abs(m.amount)), m.digits + 1);
      var cut := |absolute| - m.digits;
      var d := Decimal(m.amount < 0, absolute[..cut], absolute[cut..]);
      assert Printed(d) == (if m.amount < 0 then "-" else "") + absolute[..cut] + "." + absolute[cut..];
      d
  }

  lemma DecimalOfMoney(m: Money)
    ensures var d := DecimalOf(m);
            && d.Valid() && |d.fraction| == m.digits && d.negative == (m.amount < 0)
            && NumberOf(d.whole + d.fraction) == Abs(m.amount)
  {
    hide NumberOf, PadStart, Numeral, IsNumeral;
    PaddedNumeral(Abs(m.amount), m.digits + 1);
    var numeral := Numeral(Abs(m.amount));
    if m.digits == 0 {
      assert numeral + "" == numeral;
    } else {
      var absolute := PadStart(numeral, m.digits + 1);
      CutNumeral(absolute, |absolute| - m.digits);
    }
  }

  lemma CutNumeral(s: string, cut: nat)
    requires IsNumeral(s) && 0 < cut < |s|
    ensures IsNumeral(s[..cut]) && IsNumeral(s[cut..]) && s[..cut] + s[cut..] == s
  {
  }

  /** Printing and parsing back gives the same money, for every safe amount and digit count. */
  lemma DecimalRoundTrip(m: Money)
    requires m.Valid()
    ensures FromDecimalString(ToDecimalString(m), m.currency, m.digits) == Success(m)
  {
    hide DecimalOf, ToDecimalString, Printed, ParseDecimal, Trim, NumberOf;
    DecimalOfMoney(m);
    var d := DecimalOf(m);
    PrintedTrimmed(d);
    ParseOfPrinted(d);
    assert PadEnd(d.fraction, m.digits) == d.fraction;
  }

  lemma PaddedNumeral(n: nat, width: nat)
    ensures IsNumeral(PadStart(Numeral(n), width)) && |PadStart(Numeral(n), width)| >= width
    ensures NumberOf(PadStart(Numeral(n), width)) == n
  {
    hide NumberOf, Numeral;
    var numeral := Numeral(n);
    if |numeral| < width {
      NumberOfAppended(Zeros(width - |numeral|), numeral);
      NumberOfZeros(width - |numeral|);
    }
  }

  // ----- Allocation ----------------------------------------------------------------------------

  const SELF: int -> int := (n: int) => n

  function Total(s: seq<int>): int {
    Sum(s, SELF)
  }

  /** The floor of the exact share of part `i`. */
  function Share(amount: nat, ratios: seq<nat>, total: nat, i: nat): nat
    requires i < |ratios| && total > 0
  {
    amount * ratios[i] / total
  }

  function Shares(amount: nat, ratios: seq<nat>, total: nat): (s: seq<int>)
    requires total > 0
    ensures |s| == |ratios| && forall i :: 0 <= i < |s| ==> s[i] == Share(amount, ratios, total, i)
  {
    seq(|ratios|, i requires 0 <= i < |ratios| => Share(amount, ratios, total, i))
  }

  /** The floors of the first `n` shares fall short of their exact sum by less than `n` units. */
  lemma {:induction false} LeftoverSmall(amount: nat, ratios: seq<nat>, total: nat, shares: seq<int>, n: nat)
    requires total > 0 && n <= |ratios| && shares == Shares(amount, ratios, total)
    ensures Total(shares[..n]) * total <= amount * Total(ratios[..n]) <= Total(shares[..n]) * total + n * total
    ensures n > 0 ==> amount * Total(ratios[..n]) < Total(shares[..n]) * total + n * total
  {
    hide Share;
    if n > 0 {
      LeftoverSmall(amount, ratios, total, shares, n - 1);
      assert shares[..n][..n - 1] == shares[..n - 1] && ratios[..n][..n - 1] == ratios[..n - 1];
      ShareBounds(amount, ratios, total, n - 1);
      AddBounds(amount, Total(ratios[..n - 1]), ratios[n - 1], Total(shares[..n - 1]), shares[n - 1], total, n - 1);
    }
  }

  lemma ShareBounds(amount: nat, ratios: seq<nat>, total: nat, i: nat)
    requires i < |ratios| && total > 0
    ensures Share(amount, ratios, total, i) * total <= amount * ratios[i] <
            Share(amount, ratios, total, i) * total + total
  {
  }

  lemma AddBounds(a: int, s: int, r: int, f: int, q: int, t: int, n: int)
    requires f * t <= a * s <= f * t + n * t && q * t <= a * r < q * t + t
    ensures (f + q) * t <= a * (s + r) < (f + q) * t + (n + 1) * t
  {
    assert (f + q) * t == f * t + q * t && a * (s + r) == a * s + a * r && (n + 1) * t == n * t + t;
  }

  /** Splits an amount in proportion to exact ratios. */
  method Allocate(m: Money, ratios: seq<int>) returns (r: Result<seq<Money>, MoneyError>)
    requires m.Valid()
    ensures r.Failure? <==> ratios == [] || (exists i :: 0 <= i < |ratios| && ratios[i] < 0) || Total(ratios) <= 0
    ensures ratios == [] ==> r == Failure(NoRatios)
    ensures ratios != [] && (exists i :: 0 <= i < |ratios| && ratios[i] < 0) ==> r == Failure(NegativeRatio)
    ensures ratios != [] && (forall i :: 0 <= i < |ratios| ==> ratios[i] >= 0) && Total(ratios) <= 0 ==>
              r == Failure(ZeroRatios)
    ensures r.Success? ==> IsAllocation(m, ratios, r.value)
  {
    hide Share, Sum, CurrencyCode;
    if |ratios| == 0 {
      return Failure(NoRatios);
    }
    if exists i :: 0 <= i < |ratios| && ratios[i] < 0 {
      return Failure(NegativeRatio);
    }
    var totalRatio := Total(ratios);
    if totalRatio <= 0 {
      return Failure(ZeroRatios);
    }
    var isNegative, absoluteAmount := m.amount < 0, Abs(m.amount);
    var floors := Shares(absoluteAmount, ratios, totalRatio);
    LeftoverBounds(absoluteAmount, ratios, totalRatio);
    var shares := HandOut(floors, absoluteAmount - Total(floors));
    var parts: seq<Money> := [];
    for i := 0 to |shares|
      invariant |parts| == i
      invariant forall j :: 0 <= j < i ==>
                  parts[j] == Money(if isNegative then -shares[j] else shares[j], m.currency, m.digits)
      invariant forall j :: 0 <= j < i ==> shares[j] <= absoluteAmount
    {
      SumNonNegative(shares, SELF);
      var part := Of(if isNegative then -shares[i] else shares[i], m.currency, m.digits);
      parts := parts + [part.value];
    }
    SignedSum(shares, Amounts(parts), isNegative);
    return Success(parts);
  }

  /** Adds the leftover units one at a time, in order and going round. */
  method HandOut(floors: seq<int>, leftover: nat) returns (shares: seq<int>)
    requires leftover < |floors|
    ensures |shares| == |floors| && Total(shares) == Total(floors) + leftover
    ensures forall i :: 0 <= i < |shares| ==> shares[i] == floors[i] + if i < leftover then 1 else 0
  {
    hide Sum;
    shares := floors;
    var remainder, index := leftover, 0;
    while remainder > 0
      invariant 0 <= remainder <= leftover && index == leftover - remainder
      invariant |shares| == |floors| && Total(shares) == Total(floors) + leftover - remainder
      invariant forall i :: 0 <= i < |shares| ==> shares[i] == floors[i] + if i < index then 1 else 0
    {
      SumUpdated(shares, index, shares[index] + 1, SELF);
      shares := shares[index := shares[index] + 1];
      remainder := remainder - 1;
      index := (index + 1) % |shares|;
    }
  }

  lemma LeftoverBounds(amount: nat, ratios: seq<nat>, total: nat)
    requires ratios != [] && total == Total(ratios) > 0
    ensures 0 <= amount - Total(Shares(amount, ratios, total)) < |ratios|
  {
    hide Share;
    var shares := Shares(amount, ratios, total);
    LeftoverSmall(amount, ratios, total, shares, |ratios|);
    assert shares[..|ratios|] == shares && ratios[..|ratios|] == ratios;
    CancelFactor(Total(shares), amount, |ratios|, total);
  }

  lemma CancelFactor(x: int, y: int, n: int, t: int)
    requires t > 0 && x * t <= y * t < x * t + n * t
    ensures 0 <= y - x < n
  {
    assert (y - x) * t == y * t - x * t;
  }

  function Amounts(parts: seq<Money>): (s: seq<int>)
    ensures |s| == |parts| && forall i :: 0 <= i < |s| ==> s[i] == parts[i].amount
  {
    seq(|parts|, i requires 0 <= i < |parts| => parts[i].amount)
  }

  lemma {:induction false} SignedSum(s: seq<int>, t: seq<int>, negate: bool)
    requires |s| == |t| && forall i :: 0 <= i < |s| ==> t[i] == if negate then -s[i] else s[i]
    ensures Total(t) == if negate then -Total(s) else Total(s)
  {
    if s != [] {
      SignedSum(s[..|s| - 1], t[..|t| - 1], negate);
    }
  }

  /**
   * The parts are of the money's currency and sum to it exactly; each has its sign, and is in absolute
   * terms the floor of its exact share or one unit more. The leftover units, fewer than the parts, go
   * to the first parts.
   */
  ghost predicate IsAllocation(m: Money, ratios: seq<int>, parts: seq<Money>)
    requires ratios != [] && Total(ratios) > 0 && forall i :: 0 <= i < |ratios| ==> ratios[i] >= 0
  {
    var floors := Shares(Abs(m.amount), ratios, Total(ratios));
    var leftover := Abs(m.amount) - Total(floors);
    && |parts| == |ratios| && Total(Amounts(parts)) == m.amount
    && 0 <= leftover < |ratios|
    && forall i :: 0 <= i < |parts| ==>
         && parts[i].Valid() && parts[i].currency == m.currency && parts[i].digits == m.digits
         && Abs(parts[i].amount) == floors[i] + (if i < leftover then 1 else 0)
         && (m.amount >= 0 ==> parts[i].amount >= 0) && (m.amount <= 0 ==> parts[i].amount <= 0)
  }

  /** A part of ratio zero nevertheless receives a unit, exactly when it is among the first `leftover`. */
  lemma ZeroRatioPart(m: Money, ratios: seq<int>, parts: seq<Money>, i: nat)
    requires ratios != [] && Total(ratios) > 0 && forall j :: 0 <= j < |ratios| ==> ratios[j] >= 0
    requires IsAllocation(m, ratios, parts) && i < |ratios| && ratios[i] == 0
    ensures parts[i].amount != 0 <==> i < Abs(m.amount) - Total(Shares(Abs(m.amount), ratios, Total(ratios)))
  {
    hide Share;
    ZeroShare(Abs(m.amount), ratios, Total(ratios), i);
  }

  lemma ZeroShare(amount: nat, ratios: seq<nat>, total: nat, i: nat)
    requires i < |ratios| && total > 0 && ratios[i] == 0
    ensures Share(amount, ratios, total, i) == 0
  {
    assert amount * 0 == 0;
  }

  /** What the floor leaves of the exact share, in units of 1/total. */
  function Remainder(m: Money, ratios: seq<nat>, i: nat): nat
    requires i < |ratios| && Total(ratios) > 0
  {
    Abs(m.amount) * ratios[i] % Total(ratios)
  }

  /** The part has a unit more than the floor of its exact share. */
  predicate RoundedUp(m: Money, ratios: seq<nat>, parts: seq<Money>, i: nat)
    requires i < |ratios| && i < |parts| && Total(ratios) > 0
  {
    Abs(parts[i].amount) * Total(ratios) > Abs(m.amount) * ratios[i]
  }

  /** Largest-remainder apportionment: no part is rounded up before one with a larger remainder. */
  ghost predicate LargestRemainder(m: Money, ratios: seq<nat>, parts: seq<Money>)
    requires |parts| == |ratios| && Total(ratios) > 0
  {
    forall i, j ::
      0 <= i < |parts| && 0 <= j < |parts| && RoundedUp(m, ratios, parts, i) && !RoundedUp(m, ratios, parts, j) ==>
      Remainder(m, ratios, i) >= Remainder(m, ratios, j)
  }

  ghost predicate Allocatable(ratios: seq<int>) {
    ratios != [] && Total(ratios) > 0 && forall i :: 0 <= i < |ratios| ==> ratios[i] >= 0
  }

  ghost function Leftover(m: Money, ratios: seq<nat>): int
    requires Total(ratios) > 0
  {
    Abs(m.amount) - Total(Shares(Abs(m.amount), ratios, Total(ratios)))
  }

  /** The parts that exceed their exact share are the first ones. */
  lemma FirstRoundedUp(m: Money, ratios: seq<int>, parts: seq<Money>, i: nat)
    requires Allocatable(ratios) && IsAllocation(m, ratios, parts) && i < |ratios|
    ensures RoundedUp(m, ratios, parts, i) <==> i < Leftover(m, ratios)
  {
    hide Share, Total;
    var floor := Share(Abs(m.amount), ratios, Total(ratios), i);
    ShareBounds(Abs(m.amount), ratios, Total(ratios), i);
    if i < Leftover(m, ratios) {
      assert Abs(parts[i].amount) * Total(ratios) == floor * Total(ratios) + Total(ratios);
    }
  }

  /**
   * The allocation is by largest remainders exactly when the first `leftover` ratios happen to leave remainders
   * at least as large as all the others.
   */
  lemma LargestRemainderExactly(m: Money, ratios: seq<int>, parts: seq<Money>)
    requires Allocatable(ratios) && IsAllocation(m, ratios, parts)
    ensures LargestRemainder(m, ratios, parts) <==>
            forall i, j :: 0 <= i < Leftover(m, ratios) <= j < |ratios| ==>
              Remainder(m, ratios, i) >= Remainder(m, ratios, j)
  {
    hide Remainder, RoundedUp, Leftover, Total;
    assert |parts| == |ratios|;
    forall i | 0 <= i < |ratios|
      ensures RoundedUp(m, ratios, parts, i) <==> i < Leftover(m, ratios)
    {
      FirstRoundedUp(m, ratios, parts, i);
    }
    LeftoverWithin(m, ratios, parts);
  }

  lemma LeftoverWithin(m: Money, ratios: seq<int>, parts: seq<Money>)
    requires Allocatable(ratios) && IsAllocation(m, ratios, parts)
    ensures 0 <= Leftover(m, ratios) < |ratios|
  {
  }

  /** 10 in the ratio 1 : 2 becomes 4 and 6, where largest remainders give 3 and 7. */
  lemma TenInThirds(m: Money, parts: seq<Money>)
    requires m.amount == 10 && Allocatable([1, 2]) && IsAllocation(m, [1, 2], parts)
    ensures |parts| == 2 && parts[0].amount == 4 && parts[1].amount == 6
    ensures !LargestRemainder(m, [1, 2], parts)
  {
    TotalOfTwo(1, 2);
    var floors := Shares(10, [1, 2], 3);
    assert floors == [3, 6];
    TotalOfTwo(3, 6);
    LargestRemainderExactly(m, [1, 2], parts);
    assert Remainder(m, [1, 2], 0) == 1 && Remainder(m, [1, 2], 1) == 2;
  }

  /** One unit in the ratio 0 : 1 : 1 goes to the part of ratio zero. */
  lemma UnitForNothing(m: Money, parts: seq<Money>)
    requires m.amount == 1 && Allocatable([0, 1, 1]) && IsAllocation(m, [0, 1, 1], parts)
    ensures |parts| == 3 && parts[0].amount == 1 && parts[1].amount == 0 && parts[2].amount == 0
    ensures !LargestRemainder(m, [0, 1, 1], parts)
  {
    TotalOfThree(0, 1, 1);
    var floors := Shares(1, [0, 1, 1], 2);
    assert floors == [0, 0, 0];
    TotalOfThree(0, 0, 0);
    LargestRemainderExactly(m, [0, 1, 1], parts);
    assert Remainder(m, [0, 1, 1], 0) == 0 && Remainder(m, [0, 1, 1], 1) == 1;
  }

  lemma TotalOfTwo(a: int, b: int)
    ensures Total([a, b]) == a + b
  {
    SumOfTwo(a, b, SELF);
  }

  lemma TotalOfThree(a: int, b: int, c: int)
    ensures Total([a, b, c]) == a + b + c
  {
    assert [a, b, c] == [a, b] + [c];
    SumAppended([a, b], c, SELF);
    SumOfTwo(a, b, SELF);
  }
}
