/** What written cron expressions mean, stated without the parser's own functions. */
module CronRules {
  import opened Wrappers
  import opened Text
  import opened Calendar
  import opened CalendarRules
  import opened Search
  import opened Cron

  // ----- Items ---------------------------------------------------------------------------------

  /** Decimal numerals are read by place value. */
  lemma PlaceValue(s: string, c: char)
    requires (s == "" || IsNumeral(s)) && IsDigit(c)
    ensures NumberOf(s + [c]) == 10 * NumberOf(s) + (c as int - '0' as int)
  {
    assert (s + [c])[..|s|] == s;
  }

  lemma FieldOfOne(item: string, def: FieldDefinition)
    ensures FieldOf([item], def) ==
            match ParseItem(item).Check(def)
            case Pass => Success(ParseItem(item).Values(def))
            case Fail(error) => Failure(error)
  {
    assert [item][..0] == [];
    var parsed := ParseItem(item);
    if parsed.Check(def).Pass? {
      assert {} + parsed.Values(def) == parsed.Values(def);
    }
  }

  /** Value `v` as a field holds it: in the field for the day of the week 7 is Sunday as well. */
  function Held(v: nat, def: FieldDefinition): nat {
    if v == 7 && def.sundayAlias then 0 else v
  }

  /** The progression is the set of what its members are held as. */
  lemma ProgressionHeld(start: nat, end: nat, step: nat, def: FieldDefinition)
    requires step > 0
    ensures Progression(start, end, step, def) ==
            set v: nat | start <= v <= end && (v - start) % step == 0 :: Held(v, def)
  {
    var held := set v: nat | start <= v <= end && (v - start) % step == 0 :: Held(v, def);
    forall w | w in Progression(start, end, step, def)
      ensures w in held
    {
      var v: nat :| v <= end && Steps(start, v, step) && Normalize(v, def) == w;
      assert w == Held(v, def);
    }
    forall w | w in held
      ensures w in Progression(start, end, step, def)
    {
      var v: nat :| start <= v <= end && (v - start) % step == 0 && Held(v, def) == w;
      assert Steps(start, v, step) && w == Normalize(v, def);
    }
  }

  lemma DashPlace(a: string, b: string)
    requires IsNumeral(a) && IsNumeral(b)
    ensures IndexOf(a + "-" + b, '-') == |a|
    ensures (a + "-" + b)[..|a|] == a && (a + "-" + b)[|a| + 1..] == b
  {
    var s := a + "-" + b;
    assert s[|a|] == '-';
    assert forall i :: 0 <= i < |a| ==> s[i] == a[i] && IsDigit(a[i]);
  }

  /** `a-b` stands for the values from `a` to `b`; both must be in range, and `a` no greater than `b`. */
  lemma RangeItem(a: string, b: string, def: FieldDefinition)
    requires IsNumeral(a) && IsNumeral(b)
    ensures var low, high := NumberOf(a), NumberOf(b);
            FieldOf([a + "-" + b], def) ==
            if low < def.minimum || low > def.maximum || high < def.minimum || high > def.maximum
            then Failure(ValueOutOfRange)
            else if low > high then Failure(RangeReversed)
            else Success(set v: nat | low <= v <= high :: Held(v, def))
  {
    hide NumberOf, IndexOf;
    var item := a + "-" + b;
    DashPlace(a, b);
    assert IsDigit(item[0]);
    assert ParseItem(item) == Item.Range(NumberOf(a), NumberOf(b));
    FieldOfOne(item, def);
    var low, high := NumberOf(a), NumberOf(b);
    if def.minimum <= low <= high <= def.maximum {
      ProgressionHeld(low, high, 1, def);
      assert (set v: nat | low <= v <= high && (v - low) % 1 == 0 :: Held(v, def)) ==
             set v: nat | low <= v <= high :: Held(v, def);
    }
  }

  /** `*` followed by `/n` stands for the least value of the range and every n-th one after it; `n` is not zero. */
  lemma StepItem(n: string, def: FieldDefinition)
    requires IsNumeral(n)
    ensures FieldOf(["*/" + n], def) ==
            if NumberOf(n) == 0 then Failure(StepNotPositive)
            else Success(set v: nat | def.minimum <= v <= def.maximum && (v - def.minimum) % NumberOf(n) == 0 ::
                           Held(v, def))
  {
    hide NumberOf, IndexOf;
    var item := "*/" + n;
    assert item[..2] == "*/" && item[2..] == n;
    FieldOfOne(item, def);
    var step := NumberOf(n);
    if step > 0 {
      ProgressionHeld(def.minimum, def.maximum, step, def);
    }
  }

  /** `*` stands for every value of the range. */
  lemma StarItem(def: FieldDefinition)
    ensures FieldOf(["*"], def) == Success(set v: nat | def.minimum <= v <= def.maximum :: Held(v, def))
  {
    FieldOfOne("*", def);
    ProgressionHeld(def.minimum, def.maximum, 1, def);
    assert (set v: nat | def.minimum <= v <= def.maximum && (v - def.minimum) % 1 == 0 :: Held(v, def)) ==
           set v: nat | def.minimum <= v <= def.maximum :: Held(v, def);
  }

  lemma NoDash(n: string)
    requires IsNumeral(n)
    ensures IndexOf(n, '-') == |n|
  {
    assert forall i :: 0 <= i < |n| ==> IsDigit(n[i]);
  }

  /** `n` stands for that value, which must be in range. */
  lemma SingleItem(n: string, def: FieldDefinition)
    requires IsNumeral(n)
    ensures FieldOf([n], def) ==
            if def.minimum <= NumberOf(n) <= def.maximum then Success({Held(NumberOf(n), def)})
            else Failure(ValueOutOfRange)
  {
    hide NumberOf, IndexOf;
    NoDash(n);
    assert IsDigit(n[0]);
    FieldOfOne(n, def);
  }

  /** Anything that has none of the four forms is refused. */
  lemma OtherItem(item: string, def: FieldDefinition)
    requires item != "*" && !IsNumeral(item)
    requires forall n :: IsNumeral(n) ==> item != "*/" + n
    requires forall a, b :: IsNumeral(a) && IsNumeral(b) ==> item != a + "-" + b
    ensures FieldOf([item], def) == Failure(InvalidItem)
  {
    var dash := IndexOf(item, '-');
    if |item| > 2 && item[..2] == "*/" {
      assert item == "*/" + item[2..];
    }
    if dash < |item| {
      assert item == item[..dash] + "-" + item[dash + 1..];
    }
    FieldOfOne(item, def);
  }

  /** A list holds what its items hold one by one, and is refused with the error of its first bad item. */
  lemma ListOfItems(items: seq<string>, item: string, def: FieldDefinition)
    ensures FieldOf([], def) == Success({})
    ensures FieldOf(items + [item], def) ==
            if FieldOf(items, def).Failure? then FieldOf(items, def)
            else if FieldOf([item], def).Failure? then FieldOf([item], def)
            else Success(FieldOf(items, def).value + FieldOf([item], def).value)
  {
    hide ParseItem, Item.Check, Item.Values;
    FieldOfOne(item, def);
    assert (items + [item])[..|items|] == items;
  }

  // ----- Expressions ---------------------------------------------------------------------------

  predicate Word(s: string) {
    s != "" && forall i :: 0 <= i < |s| ==> !IsSpace(s[i])
  }

  predicate Gap(s: string) {
    s != "" && forall i :: 0 <= i < |s| ==> s[i] in " \t\n\r"
  }

  lemma {:induction false} GapSkipped(gap: string, s: string)
    requires gap == "" || Gap(gap)
    requires s == "" || !IsSpace(s[0])
    ensures SkipSpaces(gap + s) == s
  {
    if gap == "" {
      assert gap + s == s;
    } else {
      assert (gap + s)[1..] == gap[1..] + s;
      GapSkipped(gap[1..], s);
    }
  }

  lemma {:induction false} WordSplit(w: string, gap: string, s: string)
    requires (w == "" || Word(w)) && Gap(gap)
    requires s == "" || !IsSpace(s[0])
    ensures SplitSpaces(w + gap + s) == [w] + SplitSpaces(s)
  {
    var whole := w + gap + s;
    if w == "" {
      assert whole[1..] == gap[1..] + s;
      GapSkipped(gap[1..], s);
    } else {
      assert whole[1..] == w[1..] + gap + s;
      WordSplit(w[1..], gap, s);
      assert [w[0]] + w[1..] == w;
    }
  }

  lemma {:induction false} LastWord(w: string)
    requires w == "" || Word(w)
    ensures SplitSpaces(w) == [w]
  {
    if w != "" {
      LastWord(w[1..]);
      assert [w[0]] + w[1..] == w;
    }
  }

  lemma {:induction false} TrimStartGap(gap: string, s: string)
    requires gap == "" || Gap(gap)
    ensures TrimStart(gap + s) == TrimStart(s)
  {
    if gap == "" {
      assert gap + s == s;
    } else {
      assert (gap + s)[1..] == gap[1..] + s;
      TrimStartGap(gap[1..], s);
    }
  }

  lemma {:induction false} TrimEndGap(s: string, gap: string)
    requires gap == "" || Gap(gap)
    ensures TrimEnd(s + gap) == TrimEnd(s)
  {
    if gap == "" {
      assert s + gap == s;
    } else {
      var n := |gap| - 1;
      assert (s + gap)[..|s| + n] == s + gap[..n];
      TrimEndGap(s, gap[..n]);
    }
  }

  /** Space around a text that neither starts nor ends with one is cut off. */
  lemma TrimSpaced(before: string, s: string, after: string)
    requires (before == "" || Gap(before)) && (after == "" || Gap(after))
    requires s != "" && !IsSpace(s[0]) && !IsSpace(s[|s| - 1])
    ensures Trim(before + s + after) == s
  {
    hide IsSpace;
    assert before + s + after == before + (s + after);
    TrimStartGap(before, s + after);
    assert TrimStart(s + after) == s + after;
    TrimEndGap(s, after);
  }

  function Spaced(words: seq<string>, gaps: seq<string>): string
    requires |words| == |gaps| + 1
  {
    if gaps == [] then words[0] else words[0] + gaps[0] + Spaced(words[1..], gaps[1..])
  }

  lemma {:induction false} SpacedEnds(words: seq<string>, gaps: seq<string>)
    requires |words| == |gaps| + 1
    requires forall i :: 0 <= i < |words| ==> Word(words[i])
    ensures var s := Spaced(words, gaps); s != "" && !IsSpace(s[0]) && !IsSpace(s[|s| - 1])
  {
    hide IsSpace;
    assert Word(words[0]);
    if gaps != [] {
      SpacedEnds(words[1..], gaps[1..]);
      var rest := Spaced(words[1..], gaps[1..]);
      var s := Spaced(words, gaps);
      assert s[|s| - 1] == rest[|rest| - 1] && s[0] == words[0][0];
    }
  }

  lemma {:induction false} SpacedSplit(words: seq<string>, gaps: seq<string>)
    requires |words| == |gaps| + 1
    requires forall i :: 0 <= i < |words| ==> Word(words[i])
    requires forall i :: 0 <= i < |gaps| ==> Gap(gaps[i])
    ensures SplitSpaces(Spaced(words, gaps)) == words
  {
    hide Gap, IsSpace, SplitSpaces;
    assert Word(words[0]);
    if gaps == [] {
      LastWord(words[0]);
    } else {
      SpacedSplit(words[1..], gaps[1..]);
      SpacedEnds(words[1..], gaps[1..]);
      WordSplit(words[0], gaps[0], Spaced(words[1..], gaps[1..]));
    }
  }

  /** The result for the field that is written as `source`. */
  function Field(source: string, minimum: nat, maximum: nat, sundayAlias: bool): Result<set<nat>, CronError> {
    FieldOf(Split(source, ','), FieldDefinition(minimum, maximum, sundayAlias))
  }

  /** Words in any spacing are an expression exactly when there are five of them and each one is a field. */
  lemma ExpressionMeaning(before: string, words: seq<string>, gaps: seq<string>, after: string)
    requires (before == "" || Gap(before)) && (after == "" || Gap(after))
    requires |words| == |gaps| + 1
    requires forall i :: 0 <= i < |words| ==> Word(words[i])
    requires forall i :: 0 <= i < |gaps| ==> Gap(gaps[i])
    ensures var expression := before + Spaced(words, gaps) + after;
            Accepts(expression) <==>
            && |words| == 5
            && Field(words[0], 0, 59, false).Success? && Field(words[1], 0, 23, false).Success?
            && Field(words[2], 1, 31, false).Success? && Field(words[3], 1, 12, false).Success?
            && Field(words[4], 0, 7, true).Success?
    ensures var expression := before + Spaced(words, gaps) + after;
            Accepts(expression) ==>
            ParserOf(expression) ==
            CronParser(Field(words[0], 0, 59, false).value, Field(words[1], 0, 23, false).value,
                       Field(words[2], 1, 31, false).value, Field(words[3], 1, 12, false).value,
                       Field(words[4], 0, 7, true).value)
  {
    hide Split, FieldOf, SplitSpaces, Trim, Spaced, IsSpace;
    SpacedEnds(words, gaps);
    TrimSpaced(before, Spaced(words, gaps), after);
    SpacedSplit(words, gaps);
  }

  /** A star in the fifth field allows each of the seven days, and only these. */
  lemma StarIsAnyWeekDay(p: CronParser)
    requires Field("*", 0, 7, true) == Success(p.weekDays)
    ensures p.weekDays == {0, 1, 2, 3, 4, 5, 6} && AnyWeekDay(p)
  {
    var def := FieldDefinition(0, 7, true);
    SplitWhole("*", ',');
    StarItem(def);
    var days: set<nat> := {0, 1, 2, 3, 4, 5, 6};
    assert forall v: nat :: v in days ==> v == Held(v, def);
  }

  // ----- Matching ------------------------------------------------------------------------------

  /** The time value of a UTC date and time of day, `rest` being the seconds and milliseconds. */
  function TimeValue(y: int, month: nat, date: int, hour: int, minute: int, rest: int): int
    requires 1 <= month <= 12
  {
    86_400_000 * DayNumber(y, month, date) + 3_600_000 * hour + 60_000 * minute + rest
  }

  /** A moment matches when its minute, hour, date, month and day of the week are all allowed. */
  lemma MatchesMeaning(p: CronParser, y: int, month: nat, date: int, hour: int, minute: int, rest: int)
    requires 1 <= month <= 12 && 1 <= date <= GregorianLength(y, month)
    requires 0 <= hour < 24 && 0 <= minute < 60 && 0 <= rest < 60_000
    ensures p.MatchesMinute(MinuteIndex(TimeValue(y, month, date, hour, minute, rest))) <==>
            && minute in p.minutes && hour in p.hours && date in p.dates && month in p.months
            && WeekDayRule(y, month, date) in p.weekDays
  {
    hide DayNumber, MonthOf, DateOf, LeapYear, WeekDay, DaysInMonth, MinuteOf, HourOf, DayOf, WeekDayRule;
    var day := DayNumber(y, month, date);
    MonthLengths(y, month);
    FieldsOfDayNumber(y, month, date);
    WeekDayOfDate(y, month, date);
    MinuteFields(day, hour, minute);
  }

  /** The minutes the search covers: those after the start, up to 8 * 366 days on, that a Date can hold. */
  predicate Searched(from: Date, m: int)
    requires from.At?
  {
    from.ms < 60_000 * m <= from.ms + 8 * 366 * 86_400_000 && 60_000 * m <= 8_640_000_000_000_000
  }

  lemma SearchedWindow(from: Date, m: int)
    requires from.At? && from.Valid()
    ensures CronParser.FirstMinute(from) <= m < CronParser.FirstMinute(from) + CronParser.Window(from) <==>
            Searched(from, m)
  {
  }

  /** The run found is a matching minute after the start with no other in between. */
  lemma RunMeaning(p: CronParser, from: Date, m: int)
    requires from.At? && from.Valid()
    ensures Least(p.MatchesMinute, CronParser.FirstMinute(from), CronParser.Window(from), m) <==>
            && Searched(from, m) && p.MatchesMinute(m)
            && forall k :: from.ms < 60_000 * k < 60_000 * m ==> !p.MatchesMinute(k)
  {
    hide CronParser.MatchesMinute, Searched, CronParser.Window;
    SearchedWindow(from, m);
    assert forall k :: CronParser.FirstMinute(from) <= k < m <==> from.ms < 60_000 * k < 60_000 * m;
  }

  /** The search fails when no minute it covers matches. */
  lemma NoRunMeaning(p: CronParser, from: Date)
    requires from.At? && from.Valid()
    ensures p.NoMatch(CronParser.FirstMinute(from), CronParser.Window(from)) <==>
            forall m :: Searched(from, m) ==> !p.MatchesMinute(m)
  {
    hide CronParser.MatchesMinute;
    forall m
      ensures CronParser.FirstMinute(from) <= m < CronParser.FirstMinute(from) + CronParser.Window(from) <==>
              Searched(from, m)
    {
      SearchedWindow(from, m);
    }
  }
}
