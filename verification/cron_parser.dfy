/** src/platform/scheduling/cron.parser.ts */
module Cron {
  import opened Wrappers
  import opened Text
  import opened Calendar
  import opened Search

  datatype CronError =
    | WrongFieldCount
    | StepNotPositive
    | RangeReversed
    | InvalidItem
    | ValueOutOfRange
    | InvalidDate
    | NoRunWithinEightYears

  datatype FieldDefinition = FieldDefinition(minimum: nat, maximum: nat, sundayAlias: bool)

  const FIELD_DEFINITIONS := [
    FieldDefinition(0, 59, false),
    FieldDefinition(0, 23, false),
    FieldDefinition(1, 31, false),
    FieldDefinition(1, 12, false),
    FieldDefinition(0, 7, true)
  ]

  // ----- Field items ---------------------------------------------------------------------------

  /** One comma-separated item of a field, told apart as by the parser's regular expressions. */
  datatype Item = Star | Every(step: nat) | Range(start: nat, end: nat) | Single(value: nat) | Malformed {

    predicate InRange(value: nat, def: FieldDefinition) {
      def.minimum <= value <= def.maximum
    }

    /** The error the item raises, tests in the parser's order. */
    function Check(def: FieldDefinition): Outcome<CronError> {
      match this
      case Star => Pass
      case Every(step) => if step < 1 then Fail(StepNotPositive) else Pass
      case Range(start, end) =>
        if !InRange(start, def) || !InRange(end, def) then Fail(ValueOutOfRange)
        else if start > end then Fail(RangeReversed)
        else Pass
      case Single(value) => if InRange(value, def) then Pass else Fail(ValueOutOfRange)
      case Malformed => Fail(InvalidItem)
    }

    /** The field values a well-formed item stands for. */
    function Values(def: FieldDefinition): set<nat>
      requires Check(def).Pass?
    {
      match this
      case Star => Progression(def.minimum, def.maximum, 1, def)
      case Every(step) => Progression(def.minimum, def.maximum, step, def)
      case Range(start, end) => Progression(start, end, 1, def)
      case Single(value) => {Normalize(value, def)}
    }
  }

  function ParseItem(s: string): Item {
    var dash := IndexOf(s, '-');
    if s == "*" then Star
    else if |s| > 2 && s[..2] == "*/" && IsNumeral(s[2..]) then Every(NumberOf(s[2..]))
    else if dash < |s| && IsNumeral(s[..dash]) && IsNumeral(s[dash + 1..])
    then Range(NumberOf(s[..dash]), NumberOf(s[dash + 1..]))
    else if IsNumeral(s) then Single(NumberOf(s))
    else Malformed
  }

  /** Sunday may be written 7. */
  function Normalize(value: nat, def: FieldDefinition): nat {
    if def.sundayAlias && value == 7 then 0 else value
  }

  predicate Steps(start: nat, v: nat, step: nat)
    requires step > 0
  {
    start <= v && (v - start) % step == 0
  }

  /** The normalized values `start`, `start + step`, ... that do not exceed `end`. */
  function Progression(start: nat, end: nat, step: nat, def: FieldDefinition): set<nat>
    requires step > 0
  {
    set v: nat | v <= end && Steps(start, v, step) :: Normalize(v, def)
  }

  // ----- Parsing -------------------------------------------------------------------------------

  /** The mutable set a field is collected in. */
  class ValueSet {
    var values: set<nat>

    constructor ()
      ensures values == {}
    {
      values := {};
    }
  }

  method AddRange(target: ValueSet, start: nat, end: nat, step: nat, def: FieldDefinition)
    requires step > 0
    modifies target
    ensures target.values == old(target.values) + Progression(start, end, step, def)
  {
    var value := start;
    while value <= end
      invariant Steps(start, value, step)
      invariant target.values == old(target.values) + ProgressionBelow(start, end, value, step, def)
      decreases end + step - value
    {
      ProgressionStep(start, end, value, step, def);
      target.values := target.values + {Normalize(value, def)};
      value := value + step;
    }
  }

  /** The part of a progression below `bound`. */
  ghost function ProgressionBelow(start: nat, end: nat, bound: nat, step: nat, def: FieldDefinition): set<nat>
    requires step > 0
  {
    set v: nat | v <= end && v < bound && Steps(start, v, step) :: Normalize(v, def)
  }

  lemma ProgressionStep(start: nat, end: nat, value: nat, step: nat, def: FieldDefinition)
    requires step > 0 && value <= end && Steps(start, value, step)
    ensures Steps(start, value + step, step)
    ensures ProgressionBelow(start, end, value + step, step, def) ==
            ProgressionBelow(start, end, value, step, def) + {Normalize(value, def)}
  {
    BetweenMultiples(value - start, value + step - start, step);
    forall v: nat | value < v < value + step
      ensures !Steps(start, v, step)
    {
      BetweenMultiples(value - start, v - start, step);
    }
  }

  lemma BetweenMultiples(a: nat, b: nat, d: nat)
    requires d > 0 && a % d == 0 && a < b <= a + d
    ensures b % d == 0 <==> b == a + d
  {
    var q := a / d;
    if b == a + d {
      RemainderUnique(b, d, q + 1, 0);
    } else {
      RemainderUnique(b, d, q, b - a);
    }
  }

  lemma RemainderUnique(n: int, d: int, q: int, r: int)
    requires d > 0 && 0 <= r < d && n == d * q + r
    ensures n % d == r
  {
    var k := n / d - q;
    assert d * k == r - n % d;
  }

  method AddItem(target: ValueSet, item: string, def: FieldDefinition) returns (r: Outcome<CronError>)
    modifies target
    ensures r == ParseItem(item).Check(def)
    ensures r.Pass? ==> target.values == old(target.values) + ParseItem(item).Values(def)
    ensures r.Fail? ==> target.values == old(target.values)
  {
    var parsed := ParseItem(item);
    match parsed {
      case Star =>
        AddRange(target, def.minimum, def.maximum, 1, def);
      case Every(step) =>
        if step < 1 {
          return Fail(StepNotPositive);
        }
        AddRange(target, def.minimum, def.maximum, step, def);
      case Range(start, end) =>
        if !parsed.InRange(start, def) || !parsed.InRange(end, def) {
          return Fail(ValueOutOfRange);
        }
        if start > end {
          return Fail(RangeReversed);
        }
        AddRange(target, start, end, 1, def);
      case Single(value) =>
        if !parsed.InRange(value, def) {
          return Fail(ValueOutOfRange);
        }
        target.values := target.values + {Normalize(value, def)};
      case Malformed =>
        return Fail(InvalidItem);
    }
    return Pass;
  }

  /** What a list of items parses to: the union of what they stand for, or the first error. */
  function FieldOf(items: seq<string>, def: FieldDefinition): Result<set<nat>, CronError> {
    if items == [] then Success({})
    else
      var values :- FieldOf(items[..|items| - 1], def);
      var last := ParseItem(items[|items| - 1]);
      match last.Check(def)
      case Pass => Success(values + last.Values(def))
      case Fail(error) => Failure(error)
  }

  method ParseField(source: string, def: FieldDefinition) returns (r: Result<set<nat>, CronError>)
    ensures r == FieldOf(Split(source, ','), def)
  {
    var target := new ValueSet();
    var items := Split(source, ',');
    for i := 0 to |items|
      invariant FieldOf(items[..i], def) == Success(target.values)
    {
      assert items[..i + 1][..i] == items[..i];
      var added := AddItem(target, items[i], def);
      if added.Fail? {
        FieldStopsAtFirstError(items, i + 1, def);
        return Failure(added.error);
      }
    }
    assert items[..|items|] == items;
    return Success(target.values);
  }

  lemma {:induction false} FieldStopsAtFirstError(items: seq<string>, n: nat, def: FieldDefinition)
    requires n <= |items| && FieldOf(items[..n], def).Failure?
    ensures FieldOf(items, def) == FieldOf(items[..n], def)
  {
    if n == |items| {
      assert items[..n] == items;
    } else {
      assert items[..|items| - 1][..n] == items[..n];
      FieldStopsAtFirstError(items[..|items| - 1], n, def);
    }
  }

  /** A field is accepted exactly when every item is. */
  lemma {:induction false} FieldAccepted(items: seq<string>, def: FieldDefinition)
    ensures FieldOf(items, def).Success? <==>
            forall i :: 0 <= i < |items| ==> ParseItem(items[i]).Check(def).Pass?
  {
    hide ParseItem, Item.Check, Item.Values;
    if items != [] {
      var init := items[..|items| - 1];
      FieldAccepted(init, def);
      assert forall i :: 0 <= i < |init| ==> init[i] == items[i];
    }
  }

  /** An accepted field holds a value exactly when some item stands for it. */
  lemma {:induction false} FieldMeaning(items: seq<string>, def: FieldDefinition, v: nat)
    requires FieldOf(items, def).Success?
    requires forall i :: 0 <= i < |items| ==> ParseItem(items[i]).Check(def).Pass?
    ensures v in FieldOf(items, def).value <==>
            exists i :: 0 <= i < |items| && v in ParseItem(items[i]).Values(def)
  {
    hide ParseItem, Item.Values, Item.Check;
    if items != [] {
      var init := items[..|items| - 1];
      assert forall i :: 0 <= i < |init| ==> init[i] == items[i];
      FieldMeaning(init, def, v);
      if v in FieldOf(init, def).value {
        var i :| 0 <= i < |init| && v in ParseItem(init[i]).Values(def);
        assert v in ParseItem(items[i]).Values(def);
      }
    }
  }

  predicate ProperField(values: set<nat>, def: FieldDefinition) {
    && values != {}
    && forall v :: v in values ==>
         def.minimum <= v <= def.maximum && (def.sundayAlias ==> v != 7)
  }

  /** Every item stands for at least one value of the field, and for no other number. */
  lemma ItemValuesProper(item: Item, def: FieldDefinition)
    requires def in FIELD_DEFINITIONS && item.Check(def).Pass?
    ensures ProperField(item.Values(def), def)
  {
    match item
    case Star => assert Normalize(def.minimum, def) in item.Values(def);
    case Every(step) => assert Normalize(def.minimum, def) in item.Values(def);
    case Range(start, end) => assert Normalize(start, def) in item.Values(def);
    case Single(value) => assert Normalize(value, def) in item.Values(def);
  }

  lemma {:induction false} FieldProper(items: seq<string>, def: FieldDefinition)
    requires def in FIELD_DEFINITIONS && items != [] && FieldOf(items, def).Success?
    ensures ProperField(FieldOf(items, def).value, def)
  {
    var last := ParseItem(items[|items| - 1]);
    ItemValuesProper(last, def);
    if |items| > 1 {
      FieldProper(items[..|items| - 1], def);
    }
  }

  /** Item `*` alone leaves a field unrestricted. */
  lemma StarIsUnrestricted(def: FieldDefinition, v: nat)
    requires def in FIELD_DEFINITIONS
    ensures FieldOf(Split("*", ','), def).Success?
    ensures v in FieldOf(Split("*", ','), def).value <==>
            def.minimum <= v <= def.maximum && (def.sundayAlias ==> v != 7)
  {
    SplitWhole("*", ',');
    assert ["*"][..0] == [];
    if def.minimum <= v <= def.maximum && (def.sundayAlias ==> v != 7) {
      assert v == Normalize(v, def);
    }
  }

  // ----- Matching and searching ----------------------------------------------------------------

  /** A Date object: its time value in milliseconds, or NaN. */
  datatype Date = Invalid | At(ms: int) {
    predicate Valid() {
      At? ==> -MAX_MS <= ms <= MAX_MS
    }
  }

  const MAX_MS := 8_640_000_000_000_000
  const MAX_MINUTE := 144_000_000_000

  /** TimeClip of ECMA-262: a time value out of range becomes NaN. */
  function TimeClip(ms: int): Date {
    if -MAX_MS <= ms <= MAX_MS then At(ms) else Invalid
  }

  /** The whole minute `m` as a Date. */
  function MinuteDate(m: int): Date {
    TimeClip(60_000 * m)
  }

  lemma MinuteDateFacts(m: int)
    ensures MinuteDate(m) == if -MAX_MINUTE <= m <= MAX_MINUTE then At(60_000 * m) else Invalid
    ensures MinuteIndex(60_000 * m) == m
    ensures TimeClip(60_000 * m + 60_000) == MinuteDate(m + 1)
  {
  }

  const SEARCH_LIMIT := 8 * 366 * 24 * 60

  /** The whole minute that time value `ms` lies in. */
  function MinuteIndex(ms: int): int { ms / 60_000 }
  function MinuteOf(m: int): int { m % 60 }
  function HourOf(m: int): int { m / 60 % 24 }
  function DayOf(m: int): int { m / 1440 }

  datatype CronParser = CronParser(minutes: set<nat>, hours: set<nat>, dates: set<nat>, months: set<nat>,
                                   weekDays: set<nat>)
  {
    predicate Valid() {
      && ProperField(minutes, FIELD_DEFINITIONS[0])
      && ProperField(hours, FIELD_DEFINITIONS[1])
      && ProperField(dates, FIELD_DEFINITIONS[2])
      && ProperField(months, FIELD_DEFINITIONS[3])
      && ProperField(weekDays, FIELD_DEFINITIONS[4])
    }

    /** Whether the UTC minute `m`, counted from the epoch, satisfies all five fields. */
    predicate MatchesMinute(m: int) {
      && MinuteOf(m) in minutes
      && HourOf(m) in hours
      && DateOf(DayOf(m)) in dates
      && MonthOf(DayOf(m)) in months
      && WeekDay(DayOf(m)) in weekDays
    }

    method Matches(date: Date) returns (r: Result<bool, CronError>)
      ensures r == if date.Invalid? then Failure(InvalidDate) else Success(MatchesMinute(MinuteIndex(date.ms)))
    {
      if date.Invalid? {
        return Failure(InvalidDate);
      }
      var minute := MinuteIndex(date.ms);
      return Success(MinuteOf(minute) in minutes && HourOf(minute) in hours && DateOf(DayOf(minute)) in dates &&
                     MonthOf(DayOf(minute)) in months && WeekDay(DayOf(minute)) in weekDays);
    }

    /** The minute the search starts at: the first whole minute strictly after `from`. */
    static function FirstMinute(from: Date): int
      requires from.At?
    {
      MinuteIndex(from.ms) + 1
    }

    /** How many of the `SEARCH_LIMIT` minutes from the first one a Date can hold. */
    static function Window(from: Date): (window: int)
      requires from.At? && from.Valid()
      ensures 0 <= window <= SEARCH_LIMIT
    {
      if FirstMinute(from) + SEARCH_LIMIT - 1 <= MAX_MINUTE then SEARCH_LIMIT else MAX_MINUTE + 1 - FirstMinute(from)
    }

    /** The two assignments that set the first candidate. */
    static lemma FirstCandidate(from: Date)
      requires from.At? && from.Valid()
      ensures TimeClip(60_000 * MinuteIndex(from.ms)).At?
      ensures TimeClip(TimeClip(60_000 * MinuteIndex(from.ms)).ms + 60_000) == MinuteDate(FirstMinute(from))
    {
    }

    static lemma CandidateFacts(from: Date, checked: nat)
      requires from.At? && from.Valid() && checked <= Window(from) && checked < SEARCH_LIMIT
      ensures var m := FirstMinute(from) + checked;
              if checked < Window(from) then
                && MinuteDate(m) == At(60_000 * m) && MinuteIndex(60_000 * m) == m
                && TimeClip(60_000 * m + 60_000) == MinuteDate(m + 1)
              else MinuteDate(m) == Invalid
    {
      MinuteDateFacts(FirstMinute(from) + checked);
    }

    /** None of the `count` minutes from `first` matches. */
    ghost predicate NoMatch(first: int, count: int) {
      forall m :: first <= m < first + count ==> !MatchesMinute(m)
    }

    lemma NoMatchNext(first: int, checked: nat, window: int)
      requires NoMatch(first, checked)
      ensures if MatchesMinute(first + checked) then
                checked < window ==> Least(MatchesMinute, first, window, first + checked)
              else NoMatch(first, checked + 1)
    {
    }

    method NextRun(from: Date) returns (r: Result<Date, CronError>)
      requires from.Valid()
      ensures from.Invalid? ==> r == Failure(InvalidDate)
      ensures from.At? && r.Success? ==>
                exists m :: r.value == At(60_000 * m) && Least(MatchesMinute, FirstMinute(from), Window(from), m)
      ensures from.At? && r.Failure? ==>
                && NoMatch(FirstMinute(from), Window(from))
                && r.error == if Window(from) == SEARCH_LIMIT then NoRunWithinEightYears else InvalidDate
    {
      hide TimeClip, MinuteDate, MatchesMinute, Least, NoMatch, FirstMinute, Window, MinuteIndex;
      if from.Invalid? {
        return Failure(InvalidDate);
      }
      FirstCandidate(from);
      var candidate := TimeClip(60_000 * MinuteIndex(from.ms));
      candidate := TimeClip(candidate.ms + 60_000);
      ghost var first, window := FirstMinute(from), Window(from);
      NothingChecked(first);
      for checked := 0 to SEARCH_LIMIT
        invariant checked <= window
        invariant candidate == MinuteDate(first + checked)
        invariant NoMatch(first, checked)
      {
        CandidateFacts(from, checked);
        NoMatchNext(first, checked, window);
        var matched := Matches(candidate);
        if matched.Failure? {
          return Failure(matched.error);
        }
        if matched.value {
          return Success(candidate);
        }
        candidate := TimeClip(candidate.ms + 60_000);
      }
      return Failure(NoRunWithinEightYears);
    }

    lemma NothingChecked(first: int)
      ensures NoMatch(first, 0)
    {
    }
  }

  /** Five fields, each of them accepted. */
  predicate Accepts(expression: string) {
    var parts := SplitSpaces(Trim(expression));
    |parts| == 5 && forall i :: 0 <= i < 5 ==> FieldOf(Split(parts[i], ','), FIELD_DEFINITIONS[i]).Success?
  }

  function FieldSet(expression: string, i: nat): set<nat>
    requires Accepts(expression) && i < 5
  {
    FieldOf(Split(SplitSpaces(Trim(expression))[i], ','), FIELD_DEFINITIONS[i]).value
  }

  function ParserOf(expression: string): CronParser
    requires Accepts(expression)
  {
    CronParser(FieldSet(expression, 0), FieldSet(expression, 1), FieldSet(expression, 2), FieldSet(expression, 3),
               FieldSet(expression, 4))
  }

  predicate FirstBadField(parts: seq<string>, i: nat, error: CronError)
    requires |parts| == 5 && i < 5
  {
    && FieldOf(Split(parts[i], ','), FIELD_DEFINITIONS[i]) == Failure(error)
    && forall j :: 0 <= j < i ==> FieldOf(Split(parts[j], ','), FIELD_DEFINITIONS[j]).Success?
  }

  method Parse(expression: string) returns (r: Result<CronParser, CronError>)
    ensures r.Success? <==> Accepts(expression)
    ensures r.Success? ==> r.value.Valid() && r.value == ParserOf(expression)
    ensures var parts := SplitSpaces(Trim(expression));
            if |parts| != 5 then r == Failure(WrongFieldCount)
            else r.Failure? ==> exists i :: 0 <= i < 5 && FirstBadField(parts, i, r.error)
  {
    hide FieldOf, ProperField, SplitSpaces, Split, Trim;
    var parts := SplitSpaces(Trim(expression));
    if |parts| != |FIELD_DEFINITIONS| {
      return Failure(WrongFieldCount);
    }
    var fields: seq<set<nat>> := [];
    for i := 0 to 5
      invariant |fields| == i
      invariant forall j :: 0 <= j < i ==>
                  && FieldOf(Split(parts[j], ','), FIELD_DEFINITIONS[j]) == Success(fields[j])
                  && ProperField(fields[j], FIELD_DEFINITIONS[j])
    {
      var field := ParseField(parts[i], FIELD_DEFINITIONS[i]);
      if field.Failure? {
        assert FirstBadField(parts, i, field.error);
        return Failure(field.error);
      }
      FieldProper(Split(parts[i], ','), FIELD_DEFINITIONS[i]);
      fields := fields + [field.value];
    }
    return Success(CronParser(fields[0], fields[1], fields[2], fields[3], fields[4]));
  }

  // ----- Completeness --------------------------------------------------------------------------

  predicate AnyWeekDay(p: CronParser) {
    forall w: nat :: w <= 6 ==> w in p.weekDays
  }

  predicate SomeYearHas(month: nat, date: nat) {
    1 <= month <= 12 && 1 <= date <= LongestMonth(month)
  }

  /** Some allowed month has some allowed day, 29 February counting. */
  ghost predicate Satisfiable(p: CronParser) {
    exists month, date :: month in p.months && date in p.dates && SomeYearHas(month, date)
  }

  lemma MinuteFields(day: int, hour: int, minute: int)
    requires 0 <= hour < 24 && 0 <= minute < 60
    ensures var m := 1440 * day + 60 * hour + minute;
            MinuteOf(m) == minute && HourOf(m) == hour && DayOf(m) == day
  {
    var m := 1440 * day + 60 * hour + minute;
    assert m == 60 * (24 * day + hour) + minute;
    assert m / 60 == 24 * day + hour;
  }

  lemma MatchWithinLimit(p: CronParser, first: int) returns (m: int)
    requires p.Valid() && AnyWeekDay(p) && Satisfiable(p)
    ensures first <= m < first + SEARCH_LIMIT && p.MatchesMinute(m)
  {
    hide YearOf, MonthOf, DateOf, LongestMonth;
    var month, date :| month in p.months && date in p.dates && SomeYearHas(month, date);
    var hour :| hour in p.hours;
    var minute :| minute in p.minutes;
    var day := DateGap(DayOf(first), month, date);
    m := 1440 * day + 60 * hour + minute;
    MinuteFields(day, hour, minute);
  }

  lemma MatchMeansSatisfiable(p: CronParser, m: int)
    requires p.Valid() && p.MatchesMinute(m)
    ensures Satisfiable(p)
  {
    DayNumberOfFields(DayOf(m));
    assert SomeYearHas(MonthOf(DayOf(m)), DateOf(DayOf(m)));
  }

  /**
   * With an unrestricted day of the week the eight-year search finds a run from every start whose
   * search window stays inside the range of Date exactly when some allowed month has an allowed day.
   */
  lemma SearchLimitSuffices(p: CronParser, first: int)
    requires p.Valid() && AnyWeekDay(p)
    ensures Satisfiable(p) <==> exists m :: first <= m < first + SEARCH_LIMIT && p.MatchesMinute(m)
  {
    if Satisfiable(p) {
      var m := MatchWithinLimit(p, first);
    }
    if m :| first <= m < first + SEARCH_LIMIT && p.MatchesMinute(m) {
      MatchMeansSatisfiable(p, m);
    }
  }

  lemma SatisfiableRuns(p: CronParser, from: Date)
    requires p.Valid() && AnyWeekDay(p) && Satisfiable(p) && from.Valid() && from.At?
    requires CronParser.Window(from) == SEARCH_LIMIT
    ensures !p.NoMatch(CronParser.FirstMinute(from), CronParser.Window(from))
  {
    hide CronParser.MatchesMinute, AnyWeekDay, Satisfiable, CronParser.Valid;
    var m := MatchWithinLimit(p, CronParser.FirstMinute(from));
  }

  /** For such an expression `nextRun` only ever fails where the range of Date cuts the search window short. */
  method NextRunOfSatisfiable(p: CronParser, from: Date) returns (r: Result<Date, CronError>)
    requires p.Valid() && AnyWeekDay(p) && Satisfiable(p) && from.Valid()
    ensures from.Invalid? ==> r == Failure(InvalidDate)
    ensures from.At? && r.Failure? ==>
              && r.error == InvalidDate && CronParser.Window(from) < SEARCH_LIMIT
              && p.NoMatch(CronParser.FirstMinute(from), CronParser.Window(from))
    ensures from.At? && r.Success? ==>
              exists m :: r.value == At(60_000 * m) &&
                Least(p.MatchesMinute, CronParser.FirstMinute(from), CronParser.Window(from), m)
  {
    hide CronParser.MatchesMinute, AnyWeekDay, Satisfiable, CronParser.Valid, CronParser.NoMatch, Least;
    r := p.NextRun(from);
    if from.At? && CronParser.Window(from) == SEARCH_LIMIT {
      SatisfiableRuns(p, from);
    }
  }

  /** Calling `nextRun` again and again, up to `count` times. */
  method NextRuns(p: CronParser, from: Date, count: nat) returns (runs: seq<int>, end: Option<CronError>)
    requires from.Valid() && from.At?
    ensures end.None? ==> |runs| == count
    ensures forall i, j :: 0 <= i < j < |runs| ==> runs[i] < runs[j]
    ensures forall i :: 0 <= i < |runs| ==> runs[i] > MinuteIndex(from.ms) && p.MatchesMinute(runs[i])
    ensures runs != [] ==>
              forall m :: MinuteIndex(from.ms) < m <= runs[|runs| - 1] && p.MatchesMinute(m) ==> m in runs
    ensures Iterated(p.MatchesMinute, MinuteIndex(from.ms), SEARCH_LIMIT, runs)
  {
    hide CronParser.MatchesMinute, Iterated, CronParser.NoMatch;
    runs, end := NextRunsFrom(p, from, count);
    IterationComplete(p.MatchesMinute, MinuteIndex(from.ms), SEARCH_LIMIT, runs);
  }

  method NextRunsFrom(p: CronParser, from: Date, count: nat) returns (runs: seq<int>, end: Option<CronError>)
    requires from.Valid() && from.At?
    ensures end.None? ==> |runs| == count
    ensures Iterated(p.MatchesMinute, MinuteIndex(from.ms), SEARCH_LIMIT, runs)
    decreases count
  {
    hide CronParser.MatchesMinute, CronParser.NoMatch;
    if count == 0 {
      return [], None;
    }
    var next := p.NextRun(from);
    if next.Failure? {
      return [], Some(next.error);
    }
    ghost var m :| next.value == At(60_000 * m) &&
      Least(p.MatchesMinute, CronParser.FirstMinute(from), CronParser.Window(from), m);
    var minute := MinuteIndex(next.value.ms);
    MinuteDateFacts(m);
    var rest, stop := NextRunsFrom(p, next.value, count - 1);
    runs, end := [minute] + rest, stop;
    assert runs[1..] == rest;
  }
}
