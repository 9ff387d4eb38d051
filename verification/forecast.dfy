/** The inference side of the demand-forecast model in
    scripts/demand_forecast_train.py: the weather multiplier read from a
    free-text forecast, and the per-row feature encoding with its fallbacks
    for unknown customers, products and distribution centres, the weekday
    shift and the clamp to non-negative units. The trained regressor, the
    label encoders' fitting and the date parser are parameters. */
module Forecast {
  import opened Wrappers
  import opened Text

  // ---------------------------------------------------------------- Weather multiplier

  /** The keyword groups `_weather_multiplier` tries, in order, each with
      its multiplier in hundredths. */
  const KeywordGroups: seq<(seq<string>, int)> := [
    (["blizzard", "hurricane", "tornado"], 55),
    (["snow", "ice", "sleet"], 70),
    (["storm", "thunderstorm", "heavy rain"], 80),
    (["rain", "drizzle", "shower"], 90),
    (["cold", "freeze", "frost", "freezing"], 85),
    (["hot", "heat", "heatwave", "heat wave"], 115),
    (["sunny", "clear", "fair", "warm"], 110),
    (["cloudy", "overcast", "fog"], 97)
  ]

  /** The multiplier, in hundredths, of a forecast that names no keyword. */
  const NeutralMultiplier: int := 100

  /** The multipliers the function can return. */
  const Multipliers: set<int> := {55, 70, 80, 90, 85, 115, 110, 97, 100}

  /** Python's `any(k in w for k in keys)`. */
  predicate AnyIn(keys: seq<string>, w: string) {
    exists k :: 0 <= k < |keys| && Contains(w, keys[k])
  }

  /** `_weather_multiplier`, in hundredths: the lower-cased forecast is
      matched against each keyword group in turn and the first group with a
      keyword occurring in it decides. */
  function WeatherMultiplier(text: string): (r: int)
    ensures r in Multipliers
  {
    var w := Lower(text);
    if AnyIn(["blizzard", "hurricane", "tornado"], w) then 55
    else if AnyIn(["snow", "ice", "sleet"], w) then 70
    else if AnyIn(["storm", "thunderstorm", "heavy rain"], w) then 80
    else if AnyIn(["rain", "drizzle", "shower"], w) then 90
    else if AnyIn(["cold", "freeze", "frost", "freezing"], w) then 85
    else if AnyIn(["hot", "heat", "heatwave", "heat wave"], w) then 115
    else if AnyIn(["sunny", "clear", "fair", "warm"], w) then 110
    else if AnyIn(["cloudy", "overcast", "fog"], w) then 97
    else NeutralMultiplier
  }

  /** The table reading of the rule: the multiplier of the first group, from
      index `g` on, that has a keyword in `w`; neutral when none has. */
  function TableMultiplier(groups: seq<(seq<string>, int)>, g: nat, w: string): int
    requires g <= |groups|
    decreases |groups| - g
  {
    if g == |groups| then NeutralMultiplier
    else if AnyIn(groups[g].0, w) then groups[g].1
    else TableMultiplier(groups, g + 1, w)
  }

  /** In the table reading the first matching group wins. */
  lemma {:induction false} FirstMatchingGroupWins(groups: seq<(seq<string>, int)>, g: nat, w: string, m: nat)
    requires g <= m < |groups| && AnyIn(groups[m].0, w)
    requires forall h :: g <= h < m ==> !AnyIn(groups[h].0, w)
    ensures TableMultiplier(groups, g, w) == groups[m].1
    decreases m - g
  {
    if g < m {
      FirstMatchingGroupWins(groups, g + 1, w, m);
    }
  }

  /** In the table reading a text matching no group is neutral. */
  lemma {:induction false} NoMatchingGroupIsNeutral(groups: seq<(seq<string>, int)>, g: nat, w: string)
    requires g <= |groups|
    requires forall h :: g <= h < |groups| ==> !AnyIn(groups[h].0, w)
    ensures TableMultiplier(groups, g, w) == NeutralMultiplier
    decreases |groups| - g
  {
    if g < |groups| {
      NoMatchingGroupIsNeutral(groups, g + 1, w);
    }
  }

  /** The chain of tests in the function is the table read in order. */
  lemma WeatherMultiplierFollowsTable(text: string)
    ensures WeatherMultiplier(text) == TableMultiplier(KeywordGroups, 0, Lower(text))
  {
    var w := Lower(text);
    var G := KeywordGroups;
    assert TableMultiplier(G, 8, w) == 100;
    assert TableMultiplier(G, 7, w) == if AnyIn(["cloudy", "overcast", "fog"], w) then 97 else 100;
    assert TableMultiplier(G, 6, w) == if AnyIn(["sunny", "clear", "fair", "warm"], w) then 110 else TableMultiplier(G, 7, w);
    assert TableMultiplier(G, 5, w) == if AnyIn(["hot", "heat", "heatwave", "heat wave"], w) then 115 else TableMultiplier(G, 6, w);
    assert TableMultiplier(G, 4, w) == if AnyIn(["cold", "freeze", "frost", "freezing"], w) then 85 else TableMultiplier(G, 5, w);
    assert TableMultiplier(G, 3, w) == if AnyIn(["rain", "drizzle", "shower"], w) then 90 else TableMultiplier(G, 4, w);
    assert TableMultiplier(G, 2, w) == if AnyIn(["storm", "thunderstorm", "heavy rain"], w) then 80 else TableMultiplier(G, 3, w);
    assert TableMultiplier(G, 1, w) == if AnyIn(["snow", "ice", "sleet"], w) then 70 else TableMultiplier(G, 2, w);
  }

  /** The multiplier ignores the case the forecast is written in. */
  lemma WeatherMultiplierIgnoresCase(text: string)
    ensures WeatherMultiplier(Upper(text)) == WeatherMultiplier(text)
    ensures WeatherMultiplier(Lower(text)) == WeatherMultiplier(text)
  {
    LowerForgetsCase(text);
  }

  /** A keyword group none of whose keywords can occur in `w`: every
      character of `w` is among `letters`, and each keyword has a character
      (at the given position) that is not. */
  lemma GroupRuledOut(w: string, letters: set<char>, keys: seq<string>, at: seq<nat>)
    requires forall i :: 0 <= i < |w| ==> w[i] in letters
    requires |at| == |keys|
    requires forall k :: 0 <= k < |keys| ==> at[k] < |keys[k]| && keys[k][at[k]] !in letters
    ensures !AnyIn(keys, w)
  {
    forall k | 0 <= k < |keys|
      ensures !Contains(w, keys[k])
    {
      MissingCharRulesOut(w, keys[k], at[k]);
    }
  }

  /** The first keyword group with a keyword in the lower-cased forecast
      decides the multiplier. */
  lemma MultiplierOfFirstMatch(text: string, m: nat)
    requires m < |KeywordGroups| && AnyIn(KeywordGroups[m].0, Lower(text))
    requires forall h :: 0 <= h < m ==> !AnyIn(KeywordGroups[h].0, Lower(text))
    ensures WeatherMultiplier(text) == KeywordGroups[m].1
  {
    WeatherMultiplierFollowsTable(text);
    FirstMatchingGroupWins(KeywordGroups, 0, Lower(text), m);
  }

  /** A snow storm counts as snow, in whatever case it is written: the snow
      group comes before the storm group. */
  lemma SnowStormIsSnow(text: string)
    requires Lower(text) == "snow storm"
    ensures WeatherMultiplier(text) == 70
  {
    var w := Lower(text);
    assert !AnyIn(KeywordGroups[0].0, w) by {
      GroupRuledOut(w, {'s', 'n', 'o', 'w', ' ', 't', 'r', 'm'}, KeywordGroups[0].0, [0, 0, 5]);
    }
    assert AnyIn(KeywordGroups[1].0, w) by {
      assert StartsWith(w, KeywordGroups[1].0[0]);
    }
    MultiplierOfFirstMatch(text, 1);
  }

  /** "heavy rain expected" names none of the severe or frozen keywords; it
      has every letter of "ice", but never in a row. */
  lemma HeavyRainNotFrozen(w: string)
    requires w == "heavy ra" + ['i'] + "n expected"
    ensures !AnyIn(KeywordGroups[0].0, w) && !AnyIn(KeywordGroups[1].0, w)
  {
    var letters := {'h', 'e', 'a', 'v', 'y', ' ', 'r', 'i', 'n', 'x', 'p', 'c', 't', 'd'};
    GroupRuledOut(w, letters, KeywordGroups[0].0, [0, 1, 1]);
    var frozen := KeywordGroups[1].0;
    MissingCharRulesOut(w, frozen[0], 0);
    FalseStartRulesOut("heavy ra", "n expected", frozen[1]);
    MissingCharRulesOut(w, frozen[2], 0);
  }

  /** "heavy rain expected" counts as a storm, in whatever case it is
      written: the storm group, which lists "heavy rain", comes before the
      rain group. */
  lemma HeavyRainIsStorm(text: string)
    requires Lower(text) == "heavy rain expected"
    ensures WeatherMultiplier(text) == 80
  {
    var w := Lower(text);
    assert w == "heavy ra" + ['i'] + "n expected";
    HeavyRainNotFrozen(w);
    assert AnyIn(KeywordGroups[2].0, w) by {
      assert StartsWith(w, KeywordGroups[2].0[2]);
    }
    MultiplierOfFirstMatch(text, 2);
  }

  // ---------------------------------------------------------------- Encodings

  /** `LabelEncoder.transform` for a fitted class list, with the fallback
      `predict` applies: a known name encodes as its position, an unknown
      one as 0. */
  function EncodeLabel(classes: seq<string>, name: string): (r: nat)
    ensures name in classes ==> r < |classes| && classes[r] == name
    ensures name !in classes ==> r == 0
  {
    if |classes| == 0 then 0
    else if classes[0] == name then 0
    else
      var r := EncodeLabel(classes[1..], name);
      if name in classes[1..] then r + 1 else 0
  }

  /** An unknown name cannot be told apart from the first known class. */
  lemma UnknownLooksLikeFirstClass(classes: seq<string>, name: string)
    requires |classes| > 0 && name !in classes
    ensures EncodeLabel(classes, name) == EncodeLabel(classes, classes[0])
  {
  }

  // ---------------------------------------------------------------- Dates

  predicate IsLeapYear(y: int) {
    y % 4 == 0 && (y % 100 != 0 || y % 400 == 0)
  }

  function DaysInMonth(y: int, m: int): int
    requires 1 <= m <= 12
  {
    if m == 2 then (if IsLeapYear(y) then 29 else 28)
    else if m in {4, 6, 9, 11} then 30
    else 31
  }

  /** A calendar date as pandas parses it. */
  datatype CalendarDate = CalendarDate(year: int, month: int, day: int)

  predicate ValidDate(d: CalendarDate) {
    1 <= d.month <= 12 && 1 <= d.day <= DaysInMonth(d.year, d.month)
  }

  /** Days from 1970-01-01 to 1 March of year `y` in the proleptic Gregorian
      calendar. Years are counted from March, so that the leap day ends a
      year, and grouped in eras of 400 years (146097 days); `/` and `%` are
      floor division and its remainder, so this holds for years before 1970,
      and before year 0, too. */
  function MarchYearStart(y: int): int {
    EraDays(y / 400, y % 400)
  }

  /** Days from 1970-01-01 to 1 March of year `yoe` of era `era`. */
  function EraDays(era: int, yoe: int): int {
    era * 146097 + yoe * 365 + yoe / 4 - yoe / 100 - 719468
  }

  /** Days from 1 March to the first of each month, January and February
      counting as the last months of the March-based year. */
  const MonthOffsets: seq<int> := [306, 337, 0, 31, 61, 92, 122, 153, 184, 214, 245, 275]

  /** Days from 1970-01-01 to the first of month `m` of year `y`. */
  function MonthStart(y: int, m: int): int
    requires 1 <= m <= 12
  {
    MarchYearStart(if m <= 2 then y - 1 else y) + MonthOffsets[m - 1]
  }

  /** Days from 1970-01-01 to the date. */
  function DayNumber(d: CalendarDate): int
    requires ValidDate(d)
  {
    MonthStart(d.year, d.month) + d.day - 1
  }

  /** pandas' `dayofweek`: Monday is 0 and Sunday is 6; 1970-01-01 was a Thursday. */
  function PandasDayOfWeek(d: CalendarDate): (r: int)
    requires ValidDate(d)
    ensures 0 <= r < 7
  {
    (DayNumber(d) + 3) % 7
  }

  /** The day-of-week feature: pandas' weekday shifted to Spark's 1..7 range. */
  function DayOfWeekFeature(d: CalendarDate): (r: int)
    requires ValidDate(d)
    ensures 1 <= r <= 7
    ensures r - 1 == PandasDayOfWeek(d)
  {
    PandasDayOfWeek(d) + 1
  }

  /** The calendar date after `d`. */
  function NextDay(d: CalendarDate): (r: CalendarDate)
    requires ValidDate(d)
    ensures ValidDate(r)
  {
    if d.day < DaysInMonth(d.year, d.month) then d.(day := d.day + 1)
    else if d.month < 12 then CalendarDate(d.year, d.month + 1, 1)
    else CalendarDate(d.year + 1, 1, 1)
  }

  /** Floor division by a positive constant is determined by quotient and remainder. */
  lemma DivMod400(x: int, q: int, rem: int)
    requires x == q * 400 + rem && 0 <= rem < 400
    ensures x / 400 == q && x % 400 == rem
  {
  }

  lemma DivMod4(x: int, q: int, rem: int)
    requires x == q * 4 + rem && 0 <= rem < 4
    ensures x % 4 == rem
  {
  }

  lemma DivMod100(x: int, q: int, rem: int)
    requires x == q * 100 + rem && 0 <= rem < 100
    ensures x % 100 == rem
  {
  }

  /** Shifting by whole eras keeps the remainders by 4 and by 100. */
  lemma Mod4And100(x: int, q: int, rem: int)
    requires x == q * 400 + rem && 0 <= rem < 400
    ensures x % 4 == rem % 4 && x % 100 == rem % 100
  {
    var a := rem / 4;
    assert rem == a * 4 + rem % 4;
    DivMod4(x, q * 100 + a, rem % 4);
    var b := rem / 100;
    assert rem == b * 100 + rem % 100;
    DivMod100(x, q * 4 + b, rem % 100);
  }

  /** The remainder by seven steps round by one. */
  lemma Mod7Step(k: int)
    ensures (k + 1) % 7 == (k % 7 + 1) % 7
  {
    var q := k / 7;
    assert k == q * 7 + k % 7;
    if k % 7 < 6 {
      assert k + 1 == q * 7 + (k % 7 + 1);
    } else {
      assert k + 1 == (q + 1) * 7;
    }
  }

  /** Within an era, a March-based year has one day more than 365 for each
      multiple of 4 it ends on, less one for each multiple of 100. */
  lemma EraYearLength(era: int, yoe: int)
    requires 0 <= yoe < 399
    ensures EraDays(era, yoe + 1) - EraDays(era, yoe)
            == 365 + (if (yoe + 1) % 4 == 0 then 1 else 0) - (if (yoe + 1) % 100 == 0 then 1 else 0)
  {
    var q4, q100 := yoe / 4, yoe / 100;
    assert yoe == q4 * 4 + yoe % 4;
    assert yoe == q100 * 100 + yoe % 100;
    if (yoe + 1) % 4 == 0 {
      assert (yoe + 1) / 4 == q4 + 1;
    } else {
      assert (yoe + 1) / 4 == q4;
    }
    if (yoe + 1) % 100 == 0 {
      assert (yoe + 1) / 100 == q100 + 1;
    } else {
      assert (yoe + 1) / 100 == q100;
    }
  }

  /** A year that is not the last of its era. */
  lemma YearLengthWithinEra(y: int, era: int, yoe: int)
    requires y == era * 400 + yoe && 0 <= yoe < 399
    ensures MarchYearStart(y + 1) - MarchYearStart(y) == if IsLeapYear(y + 1) then 366 else 365
  {
    DivMod400(y, era, yoe);
    DivMod400(y + 1, era, yoe + 1);
    assert MarchYearStart(y) == EraDays(era, yoe) && MarchYearStart(y + 1) == EraDays(era, yoe + 1);
    Mod4And100(y + 1, era, yoe + 1);
    EraYearLength(era, yoe);
  }

  /** The last year of an era ends on a multiple of 400, a leap year. */
  lemma YearLengthAcrossEras(y: int, era: int)
    requires y == era * 400 + 399
    ensures MarchYearStart(y + 1) - MarchYearStart(y) == 366 && IsLeapYear(y + 1)
  {
    DivMod400(y, era, 399);
    DivMod400(y + 1, era + 1, 0);
    Mod4And100(y + 1, era + 1, 0);
    assert EraDays(era + 1, 0) - EraDays(era, 399) == 366;
  }

  /** A March-based year has 366 days exactly when its February is a leap February. */
  lemma MarchYearLength(y: int)
    ensures MarchYearStart(y + 1) - MarchYearStart(y) == if IsLeapYear(y + 1) then 366 else 365
  {
    var era, yoe := y / 400, y % 400;
    if yoe < 399 {
      YearLengthWithinEra(y, era, yoe);
    } else {
      YearLengthAcrossEras(y, era);
    }
  }

  /** Each month starts where the previous one ends. */
  lemma MonthLength(y: int, m: int)
    requires 1 <= m < 12
    ensures MonthStart(y, m + 1) == MonthStart(y, m) + DaysInMonth(y, m)
  {
    if m == 2 {
      MarchYearLength(y - 1);
    }
  }

  /** The day after `d` is numbered one higher. */
  lemma DayNumberNext(d: CalendarDate)
    requires ValidDate(d)
    ensures DayNumber(NextDay(d)) == DayNumber(d) + 1
  {
    if d.day == DaysInMonth(d.year, d.month) {
      if d.month < 12 {
        MonthLength(d.year, d.month);
      } else {
      }
    }
  }

  /** The weekday advances by one every day, Sunday wrapping round to Monday. */
  lemma WeekdayAdvances(d: CalendarDate)
    requires ValidDate(d)
    ensures PandasDayOfWeek(NextDay(d)) == (PandasDayOfWeek(d) + 1) % 7
    ensures DayOfWeekFeature(NextDay(d)) == DayOfWeekFeature(d) % 7 + 1
  {
    DayNumberNext(d);
    Mod7Step(DayNumber(d) + 3);
  }

  /** The dates of the sample inputs, 19 to 21 February 2026, fall on Thursday to Saturday. */
  lemma SampleDates()
    ensures DayOfWeekFeature(CalendarDate(2026, 2, 19)) == 4
    ensures DayOfWeekFeature(CalendarDate(2026, 2, 20)) == 5
    ensures DayOfWeekFeature(CalendarDate(2026, 2, 21)) == 6
  {
    assert MarchYearStart(2025) == EraDays(5, 25) == 20148;
    assert MonthStart(2026, 2) == 20485;
  }

  // ---------------------------------------------------------------- Prediction

  /** What the model carries besides the regressor: the encoders' classes
      and the lookup tables built from the training data. */
  datatype ForecastModel = ForecastModel(
    customerNames: seq<string>,
    productNames: seq<string>,
    dcIds: seq<string>,
    customerDc: map<string, string>,
    productCost: map<string, real>)

  /** The cost per unit of a product missing from the table. */
  const DefaultCost: real := 3.0

  /** One input row; a field is None when the column is missing. */
  datatype InputRow = InputRow(
    customerName: Option<string>, productName: Option<string>,
    date: Option<string>, weather: Option<string>)

  /** The feature vector handed to the regressor. */
  datatype Features = Features(
    customer: int, product: int, dc: int,
    dayOfWeek: int, month: int, dayOfMonth: int,
    costPerUnit: real)

  /** Why `predict` raised. */
  datatype ForecastError = NoDcIds   // `self.dc_ids[0]` on an empty list

  /** The distribution centre of a customer, falling back to the first known
      one. The fallback is evaluated before the lookup, so an empty DC list
      raises even for mapped customers. */
  function DcFor(model: ForecastModel, customer: string): (r: Result<string, ForecastError>)
    ensures r.Failure? <==> |model.dcIds| == 0
    ensures r.Success? && customer in model.customerDc ==> r.value == model.customerDc[customer]
    ensures r.Success? && customer !in model.customerDc ==> r.value == model.dcIds[0]
  {
    if |model.dcIds| == 0 then Failure(NoDcIds)
    else Success(if customer in model.customerDc then model.customerDc[customer] else model.dcIds[0])
  }

  /** The features of one row. `parsed` is the date parser's reading of the
      date text, `today` the date used when it cannot be parsed. */
  function RowFeatures(model: ForecastModel, row: InputRow, parsed: Option<CalendarDate>,
                       today: CalendarDate): (r: Result<Features, ForecastError>)
    requires ValidDate(today) && (parsed.Some? ==> ValidDate(parsed.value))
    ensures r.Failure? <==> |model.dcIds| == 0
    ensures r.Success? ==> 1 <= r.value.dayOfWeek <= 7 && 1 <= r.value.month <= 12
    ensures r.Success? ==> r.value.customer == EncodeLabel(model.customerNames, row.customerName.GetOr(""))
    ensures r.Success? ==> r.value.product == EncodeLabel(model.productNames, row.productName.GetOr(""))
    ensures r.Success? ==> r.value.dc == EncodeLabel(model.dcIds, DcFor(model, row.customerName.GetOr("")).value)
    ensures r.Success? && row.customerName.GetOr("") !in model.customerNames ==> r.value.customer == 0
    ensures r.Success? && row.productName.GetOr("") !in model.productNames ==> r.value.product == 0
    ensures r.Success? ==> var date := parsed.GetOr(today);
                           && r.value.dayOfWeek == DayOfWeekFeature(date)
                           && r.value.month == date.month && r.value.dayOfMonth == date.day
    ensures r.Success? && row.productName.GetOr("") in model.productCost
            ==> r.value.costPerUnit == model.productCost[row.productName.GetOr("")]
    ensures r.Success? && row.productName.GetOr("") !in model.productCost ==> r.value.costPerUnit == DefaultCost
  {
    var customer := row.customerName.GetOr("");
    var product := row.productName.GetOr("");
    var date := parsed.GetOr(today);
    match DcFor(model, customer)
    case Failure(e) => Failure(e)
    case Success(dc) =>
      Success(Features(
        EncodeLabel(model.customerNames, customer),
        EncodeLabel(model.productNames, product),
        EncodeLabel(model.dcIds, dc),
        DayOfWeekFeature(date), date.month, date.day,
        if product in model.productCost then model.productCost[product] else DefaultCost))
  }

  /** Python's `round` on a number: to the nearest integer, halves to the even neighbour. */
  function RoundHalfEven(x: real): (r: int)
    ensures -(1.0 / 2.0) <= r as real - x <= 1.0 / 2.0
    ensures (r as real - x == 1.0 / 2.0 || x - r as real == 1.0 / 2.0) ==> r % 2 == 0
  {
    var f := x.Floor;
    var frac := x - f as real;
    if frac < 1.0 / 2.0 then f
    else if frac > 1.0 / 2.0 then f + 1
    else if f % 2 == 0 then f else f + 1
  }

  /** The units predicted for one row: the regressor's base demand scaled by
      the weather multiplier, rounded, and clamped at zero. */
  function AdjustedDemand(base: real, multiplier: int): (r: int)
    ensures r >= 0
    ensures base * multiplier as real / 100.0 >= 0.0 ==> r == RoundHalfEven(base * multiplier as real / 100.0)
    ensures base <= 0.0 && multiplier >= 0 ==> r == 0
  {
    var rounded := RoundHalfEven(base * multiplier as real / 100.0);
    if rounded > 0 then rounded else 0
  }

  /** The weather text of a row, "clear" when the column is missing. */
  function WeatherText(row: InputRow): string {
    row.weather.GetOr("clear")
  }

  /** "clear" names no severe, frozen or stormy keyword. */
  lemma ClearIsNotSevere(w: string)
    requires w == "clear"
    ensures forall h :: 0 <= h < 3 ==> !AnyIn(KeywordGroups[h].0, w)
  {
    var letters := {'c', 'l', 'e', 'a', 'r'};
    GroupRuledOut(w, letters, KeywordGroups[0].0, [0, 0, 0]);
    GroupRuledOut(w, letters, KeywordGroups[1].0, [0, 0, 0]);
    GroupRuledOut(w, letters, KeywordGroups[2].0, [0, 0, 0]);
  }

  /** "clear" names no rain, cold or hot keyword. */
  lemma ClearIsNotRainColdOrHot(w: string)
    requires w == "clear"
    ensures forall h :: 3 <= h < 6 ==> !AnyIn(KeywordGroups[h].0, w)
  {
    var letters := {'c', 'l', 'e', 'a', 'r'};
    GroupRuledOut(w, letters, KeywordGroups[3].0, [2, 0, 0]);
    GroupRuledOut(w, letters, KeywordGroups[4].0, [1, 0, 0, 0]);
    GroupRuledOut(w, letters, KeywordGroups[5].0, [0, 0, 0, 0]);
  }

  /** A row without a weather column is treated as clear weather. */
  lemma MissingWeatherIsClear(row: InputRow)
    requires row.weather.None?
    ensures WeatherMultiplier(WeatherText(row)) == 110
  {
    var w := WeatherText(row);
    assert Lower(w) == w by { LowerOfLowercase(w); }
    ClearIsNotSevere(w);
    ClearIsNotRainColdOrHot(w);
    assert AnyIn(KeywordGroups[6].0, w) by { assert StartsWith(w, KeywordGroups[6].0[1]); }
    MultiplierOfFirstMatch(w, 6);
  }

  /** The prediction for one row, given the regressor and the date readings. */
  function PredictRow(model: ForecastModel, regressor: Features -> real, row: InputRow,
                      parsed: Option<CalendarDate>, today: CalendarDate): (r: Result<int, ForecastError>)
    requires ValidDate(today) && (parsed.Some? ==> ValidDate(parsed.value))
    ensures r.Failure? <==> |model.dcIds| == 0
    ensures r.Success? ==> r.value >= 0
    ensures r.Success? ==> r.value == AdjustedDemand(regressor(RowFeatures(model, row, parsed, today).value),
                                                     WeatherMultiplier(WeatherText(row)))
  {
    match RowFeatures(model, row, parsed, today)
    case Failure(e) => Failure(e)
    case Success(features) =>
      Success(AdjustedDemand(regressor(features), WeatherMultiplier(WeatherText(row))))
  }

  /** A row without a weather column is predicted as under clear weather:
      the regressor's base demand scaled by 1.10. */
  lemma MissingWeatherPrediction(model: ForecastModel, regressor: Features -> real, row: InputRow,
                                 parsed: Option<CalendarDate>, today: CalendarDate)
    requires ValidDate(today) && (parsed.Some? ==> ValidDate(parsed.value))
    requires row.weather.None? && |model.dcIds| > 0
    ensures PredictRow(model, regressor, row, parsed, today)
            == Success(AdjustedDemand(regressor(RowFeatures(model, row, parsed, today).value), 110))
  {
    MissingWeatherIsClear(row);
  }

  /** `DemandForecastModel.predict`: one prediction per row, in row order,
      every one non-negative; with no DC ids the first row raises.
      `parsed[i]` is the date parser's reading of row `i`'s date text (None
      when it raised), `today` the current date. */
  method Predict(model: ForecastModel, regressor: Features -> real, rows: seq<InputRow>,
                 parsed: seq<Option<CalendarDate>>, today: CalendarDate)
    returns (r: Result<seq<int>, ForecastError>)
    requires ValidDate(today)
    requires |parsed| == |rows| && forall i :: 0 <= i < |parsed| && parsed[i].Some? ==> ValidDate(parsed[i].value)
    ensures r.Failure? <==> |rows| > 0 && |model.dcIds| == 0
    ensures r.Success? ==> |r.value| == |rows|
    ensures r.Success? ==> forall i :: 0 <= i < |rows| ==> r.value[i] >= 0
    ensures r.Success? ==> forall i :: 0 <= i < |rows| ==>
              Success(r.value[i]) == PredictRow(model, regressor, rows[i], parsed[i], today)
  {
    ghost var expected := seq(|rows|, j requires 0 <= j < |rows| => PredictRow(model, regressor, rows[j], parsed[j], today));
    var results: seq<int> := [];
    var i := 0;
    while i < |rows|
      invariant 0 <= i <= |rows|
      invariant |results| == i
      invariant i > 0 ==> |model.dcIds| > 0
      invariant forall j :: 0 <= j < i ==> Success(results[j]) == expected[j]
    {
      var predicted := PredictRow(model, regressor, rows[i], parsed[i], today);
      assert predicted == expected[i];
      if predicted.Failure? {
        return Failure(predicted.error);
      }
      results := results + [predicted.value];
      i := i + 1;
    }
    r := Success(results);
  }
}
