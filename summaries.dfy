/**
 * The summary generator: the multi-day overview (`generate_summary`) and the
 * per-day breakdown (`generate_daily_summary`). Date rendering is the
 * `convertDate` parameter, standing for `convert_date`.
 */
module Summaries {
  import opened Wrappers
  import opened Decimal
  import opened Rounding
  import opened Units
  import opened Aggregates
  import opened Loader

  /** `generate_summary` never binds its result when there are no records. */
  datatype SummaryError = NoDays

  /** The figures the overview text reports. */
  datatype Overview = Overview(
    dayCount: nat,
    lowest: real,
    lowestDate: string,
    highest: real,
    highestDate: string,
    averageLow: real,
    averageHigh: real)

  /** The converted lows, in record order. */
  function Lows(days: seq<Day>): (cs: seq<real>)
    ensures |cs| == |days|
  {
    seq(|days|, j requires 0 <= j < |days| => ConvertFToC(days[j].low as real))
  }

  /** The converted highs, in record order. */
  function Highs(days: seq<Day>): (cs: seq<real>)
    ensures |cs| == |days|
  {
    seq(|days|, j requires 0 <= j < |days| => ConvertFToC(days[j].high as real))
  }

  /** The rendered dates, in record order. */
  function Dates(days: seq<Day>, convertDate: string -> string): (ds: seq<string>)
    ensures |ds| == |days|
  {
    seq(|days|, j requires 0 <= j < |days| => convertDate(days[j].date))
  }

  /**
   * The figures after the last pass of the accumulation loop: one per record
   * counted, every temperature rounded to one decimal.
   */
  function OverviewOf(days: seq<Day>, convertDate: string -> string): (o: Overview)
    requires |days| > 0
    ensures o.dayCount == |days|
    ensures OnGrid(o.lowest, 1) && OnGrid(o.highest, 1)
    ensures OnGrid(o.averageLow, 1) && OnGrid(o.averageHigh, 1)
  {
    var dates, lows, highs := Dates(days, convertDate), Lows(days), Highs(days);
    var lo, hi := MinOf(lows), MaxOf(highs);
    Overview(
      |dates|,
      RoundTo(lo, 1), dates[FirstIndex(lows, lo)],
      RoundTo(hi, 1), dates[FirstIndex(highs, hi)],
      RoundTo(RoundTo(Mean(lows), 5), 1),
      RoundTo(RoundTo(Mean(highs), 5), 1))
  }

  /** `line` appears in `text` starting at position `p`. */
  predicate OccursAt(line: string, text: string, p: int) {
    0 <= p && p + |line| <= |text| && text[p..p + |line|] == line
  }

  /** `text` ends with `tail`. */
  predicate EndsIn(text: string, tail: string) {
    |tail| <= |text| && text[|text| - |tail|..] == tail
  }

  /** `line` appears somewhere in `text`. */
  ghost predicate Occurs(line: string, text: string) {
    exists p :: OccursAt(line, text, p)
  }

  /** The overview line for the lowest temperature, already formatted, and its date. */
  function LowestLine(temperature: string, date: string): string {
    "  The lowest temperature will be " + temperature + ", and will occur on " + date + ".\n"
  }

  function HighestLine(temperature: string, date: string): string {
    "  The highest temperature will be " + temperature + ", and will occur on " + date + ".\n"
  }

  function AverageLowLine(temperature: string): string {
    "  The average low this week is " + temperature + ".\n"
  }

  function AverageHighLine(temperature: string): (line: string)
    ensures |line| >= 2 && line[|line| - 2..] == ".\n"
  {
    "  The average high this week is " + temperature + ".\n"
  }

  /**
   * The overview template filled with texts: it opens with the count, holds
   * each of the four lines, and ends with a full stop and a newline.
   */
  function OverviewText(count: string, lowest: string, lowestDate: string, highest: string,
                        highestDate: string, averageLow: string, averageHigh: string): (text: string)
    ensures |text| > |count| + 2 && text[..|count|] == count
    ensures EndsIn(text, ".\n")
    ensures Occurs(LowestLine(lowest, lowestDate), text)
    ensures Occurs(HighestLine(highest, highestDate), text)
    ensures Occurs(AverageLowLine(averageLow), text)
    ensures Occurs(AverageHighLine(averageHigh), text)
  {
    var l1 := LowestLine(lowest, lowestDate);
    var l2 := HighestLine(highest, highestDate);
    var l3 := AverageLowLine(averageLow);
    var l4 := AverageHighLine(averageHigh);
    Stacked(count, " Day Overview\n", l1, l2, l3, l4, ".\n");
    count + " Day Overview\n" + l1 + l2 + l3 + l4
  }

  /**
   * The overview template; every temperature goes through `format_temperature`.
   * The text opens with the record count, which reads back as that count,
   * holds the line for the lowest and the highest temperature, each with its
   * date, and the lines for the two averages, and ends with a full stop and
   * a newline.
   */
  function Render(o: Overview): (text: string)
    ensures |text| > |IntText(o.dayCount)| + 2
    ensures ParseInt(text[..|IntText(o.dayCount)|]) == Some(o.dayCount as int)
    ensures EndsIn(text, ".\n")
    ensures Occurs(LowestLine(FormatTemperature(o.lowest), o.lowestDate), text)
    ensures Occurs(HighestLine(FormatTemperature(o.highest), o.highestDate), text)
    ensures Occurs(AverageLowLine(FormatTemperature(o.averageLow)), text)
    ensures Occurs(AverageHighLine(FormatTemperature(o.averageHigh)), text)
  {
    ParseIntText(o.dayCount);
    OverviewText(IntText(o.dayCount),
                 FormatTemperature(o.lowest), o.lowestDate,
                 FormatTemperature(o.highest), o.highestDate,
                 FormatTemperature(o.averageLow), FormatTemperature(o.averageHigh))
  }

  /**
   * Where each part of a text made of a head and five more parts sits in it;
   * the text ends as its last part does.
   */
  lemma Stacked(head: string, a: string, b: string, c: string, d: string, e: string, tail: string)
    requires |tail| <= |e| && e[|e| - |tail|..] == tail
    ensures var text := head + a + b + c + d + e;
      && text[..|head|] == head
      && OccursAt(b, text, |head| + |a|)
      && OccursAt(c, text, |head| + |a| + |b|)
      && OccursAt(d, text, |head| + |a| + |b| + |c|)
      && OccursAt(e, text, |head| + |a| + |b| + |c| + |d|)
      && text[|text| - |tail|..] == tail
  {
    var t0 := head + a;
    var t1 := t0 + b;
    var t2 := t1 + c;
    var t3 := t2 + d;
    Leading(head, a);
    Extended(head, t0, 0, b);
    Extended(head, t1, 0, c);
    Extended(head, t2, 0, d);
    Extended(head, t3, 0, e);
    assert (t3 + e)[..|head|] == head;
    Appended(t0, b);
    Extended(b, t1, |t0|, c);
    Extended(b, t2, |t0|, d);
    Extended(b, t3, |t0|, e);
    Appended(t1, c);
    Extended(c, t2, |t1|, d);
    Extended(c, t3, |t1|, e);
    Appended(t2, d);
    Extended(d, t3, |t2|, e);
    Appended(t3, e);
    EndsWith(t3 + e, e, |tail|);
  }

  /** A text that opens a longer one sits at its start. */
  lemma Leading(line: string, rest: string)
    ensures OccursAt(line, line + rest, 0)
  {
    assert (line + rest)[..|line|] == line;
  }

  /** A text appended to another sits right after it. */
  lemma Appended(t: string, line: string)
    ensures OccursAt(line, t + line, |t|)
  {
    assert (t + line)[|t|..] == line;
  }

  /** Appending more text keeps a line where it was. */
  lemma Extended(line: string, t: string, p: int, more: string)
    requires OccursAt(line, t, p)
    ensures OccursAt(line, t + more, p)
  {
    assert (t + more)[p..p + |line|] == t[p..p + |line|];
  }

  /** A text that ends in `last` ends in every ending of `last`. */
  lemma EndsWith(text: string, last: string, k: nat)
    requires |last| <= |text| && text[|text| - |last|..|text|] == last && k <= |last|
    ensures text[|text| - k..] == last[|last| - k..]
  {
    assert forall i :: |text| - k <= i < |text| ==> text[i] == last[i - (|text| - |last|)];
  }

  /** `generate_summary` */
  method GenerateSummary(days: seq<Day>, convertDate: string -> string)
    returns (r: Result<string, SummaryError>)
    ensures |days| == 0 ==> r == Failure(NoDays)
    ensures |days| > 0 ==> r == Success(Render(OverviewOf(days, convertDate)))
  {
    var dateData: seq<string> := [];
    var minData: seq<real> := [];
    var maxData: seq<real> := [];
    for i := 0 to |days|
      invariant |dateData| == |minData| == |maxData| == i
      invariant forall j :: 0 <= j < i ==> dateData[j] == convertDate(days[j].date)
      invariant forall j :: 0 <= j < i ==> minData[j] == ConvertFToC(days[j].low as real)
      invariant forall j :: 0 <= j < i ==> maxData[j] == ConvertFToC(days[j].high as real)
    {
      dateData := dateData + [convertDate(days[i].date)];
      minData := minData + [ConvertFToC(days[i].low as real)];
      maxData := maxData + [ConvertFToC(days[i].high as real)];
    }
    if |days| == 0 {
      return Failure(NoDays);
    }
    assert dateData == Dates(days, convertDate);
    assert minData == Lows(days);
    assert maxData == Highs(days);

    var minCells := new Number[|minData|](j requires 0 <= j < |minData| => Float(minData[j]));
    assert Floats(minCells[..]) == minData;
    var minMean := CalculateMean(minCells);
    var maxCells := new Number[|maxData|](j requires 0 <= j < |maxData| => Float(maxData[j]));
    assert Floats(maxCells[..]) == maxData;
    var maxMean := CalculateMean(maxCells);

    var coldest := MinOf(minData);
    var warmest := MaxOf(maxData);
    var o := Overview(
      |dateData|,
      RoundTo(coldest, 1), dateData[FirstIndex(minData, coldest)],
      RoundTo(warmest, 1), dateData[FirstIndex(maxData, warmest)],
      RoundTo(minMean.value, 1),
      RoundTo(maxMean.value, 1));
    r := Success(Render(o));
  }

  /**
   * The reported lowest temperature is the minimum of the converted lows,
   * dated by the FIRST record that has it.
   */
  lemma OverviewLowest(days: seq<Day>, convertDate: string -> string)
    requires |days| > 0
    ensures OverviewOf(days, convertDate).dayCount == |days|
    ensures var o := OverviewOf(days, convertDate);
      exists i :: IsFirstMinAt(Lows(days), i)
        && o.lowest == Lows(days)[i] && o.lowestDate == convertDate(days[i].date)
  {
    var lows := Lows(days);
    var i := FirstIndex(lows, MinOf(lows));
    FirstIndexOfMin(lows);
    RoundOnGrid(lows[i], 1);
    assert IsFirstMinAt(lows, i);
  }

  /**
   * The reported highest temperature is the maximum of the converted highs,
   * dated by the FIRST record that has it.
   */
  lemma OverviewHighest(days: seq<Day>, convertDate: string -> string)
    requires |days| > 0
    ensures var o := OverviewOf(days, convertDate);
      exists i :: IsFirstMaxAt(Highs(days), i)
        && o.highest == Highs(days)[i] && o.highestDate == convertDate(days[i].date)
  {
    var highs := Highs(days);
    var i := FirstIndex(highs, MaxOf(highs));
    FirstIndexOfMax(highs);
    RoundOnGrid(highs[i], 1);
    assert IsFirstMaxAt(highs, i);
  }

  /** The Fahrenheit lows and highs as read. */
  function FahrenheitLows(days: seq<Day>): (fs: seq<real>)
    ensures |fs| == |days|
  {
    seq(|days|, j requires 0 <= j < |days| => days[j].low as real)
  }

  function FahrenheitHighs(days: seq<Day>): (fs: seq<real>)
    ensures |fs| == |days|
  {
    seq(|days|, j requires 0 <= j < |days| => days[j].high as real)
  }

  /**
   * Converting then taking the extreme is the same as taking the extreme of
   * the Fahrenheit readings then converting.
   */
  lemma ExtremesConvertReadings(days: seq<Day>, convertDate: string -> string)
    requires |days| > 0
    ensures OverviewOf(days, convertDate).lowest == ConvertFToC(MinOf(FahrenheitLows(days)))
    ensures OverviewOf(days, convertDate).highest == ConvertFToC(MaxOf(FahrenheitHighs(days)))
  {
    LowestConvertsMin(days, convertDate);
    HighestConvertsMax(days, convertDate);
  }

  lemma LowestConvertsMin(days: seq<Day>, convertDate: string -> string)
    requires |days| > 0
    ensures OverviewOf(days, convertDate).lowest == ConvertFToC(MinOf(FahrenheitLows(days)))
  {
    var o := OverviewOf(days, convertDate);
    OverviewLowest(days, convertDate);
    var fLow := FahrenheitLows(days);
    var a := FirstIndex(fLow, MinOf(fLow));
    forall j | 0 <= j < |days|
      ensures ConvertFToC(fLow[a]) <= Lows(days)[j]
    {
      ConvertMonotone(fLow[a], fLow[j]);
    }
    var i :| IsFirstMinAt(Lows(days), i) && o.lowest == Lows(days)[i];
    assert Lows(days)[a] == ConvertFToC(fLow[a]);
  }

  lemma HighestConvertsMax(days: seq<Day>, convertDate: string -> string)
    requires |days| > 0
    ensures OverviewOf(days, convertDate).highest == ConvertFToC(MaxOf(FahrenheitHighs(days)))
  {
    var o := OverviewOf(days, convertDate);
    OverviewHighest(days, convertDate);
    var fHigh := FahrenheitHighs(days);
    var b := FirstIndex(fHigh, MaxOf(fHigh));
    forall j | 0 <= j < |days|
      ensures Highs(days)[j] <= ConvertFToC(fHigh[b])
    {
      ConvertMonotone(fHigh[j], fHigh[b]);
    }
    var k :| IsFirstMaxAt(Highs(days), k) && o.highest == Highs(days)[k];
    assert Highs(days)[b] == ConvertFToC(fHigh[b]);
  }

  /**
   * The reported average low is never below the reported lowest temperature,
   * and the average high never above the highest.
   */
  lemma AveragesWithinExtremes(days: seq<Day>, convertDate: string -> string)
    requires |days| > 0
    ensures var o := OverviewOf(days, convertDate);
      o.lowest <= o.averageLow && o.averageHigh <= o.highest
  {
    var o := OverviewOf(days, convertDate);
    var lows, highs := Lows(days), Highs(days);
    var lo, hi := MinOf(lows), MaxOf(highs);
    MeanBetween(lows);
    MeanBetween(highs);
    OnGridWiden(lo, 1, 5);
    OnGridWiden(hi, 1, 5);
    RoundOnGrid(lo, 5);
    RoundOnGrid(hi, 5);
    RoundOnGrid(lo, 1);
    RoundOnGrid(hi, 1);
    RoundMonotone(lo, Mean(lows), 5);
    RoundMonotone(Mean(highs), hi, 5);
    RoundMonotone(lo, RoundTo(Mean(lows), 5), 1);
    RoundMonotone(RoundTo(Mean(highs), 5), hi, 1);
  }

  /**
   * Two records, 32/86 F on the first day and 50/104 F on the second: the
   * lowest is 0 on the first day and the highest 40 on the second.
   */
  lemma TwoDayOverview(convertDate: string -> string)
    ensures var days := [Day("2021-07-06", 32, 86), Day("2021-07-07", 50, 104)];
      var o := OverviewOf(days, convertDate);
      && o.dayCount == 2
      && o.lowest == 0.0 && o.lowestDate == convertDate("2021-07-06")
      && o.highest == 40.0 && o.highestDate == convertDate("2021-07-07")
  {
    var days := [Day("2021-07-06", 32, 86), Day("2021-07-07", 50, 104)];
    ConvertFixedPoints();
    assert Scale(10.0, 1) == 100.0;
    RoundOnGrid(10.0, 1);
    assert Scale(30.0, 1) == 300.0;
    RoundOnGrid(30.0, 1);
    assert Scale(40.0, 1) == 400.0;
    RoundOnGrid(40.0, 1);
    assert Lows(days) == [0.0, 10.0];
    assert Highs(days) == [30.0, 40.0];
    OverviewLowest(days, convertDate);
    OverviewHighest(days, convertDate);
  }

  function MinimumLine(d: Day): string {
    "  Minimum Temperature: " + FormatTemperature(ConvertFToC(d.low as real))
  }

  function MaximumLine(d: Day): string {
    "  Maximum Temperature: " + FormatTemperature(ConvertFToC(d.high as real))
  }

  /**
   * One block of the daily breakdown: it opens with "---- " and the rendered
   * date, holds the day's minimum and maximum in Celsius on their own lines,
   * and ends with a blank line.
   */
  function DayBlock(d: Day, convertDate: string -> string): (block: string)
    ensures |block| >= 7 + |convertDate(d.date)|
    ensures block[..5 + |convertDate(d.date)|] == "---- " + convertDate(d.date)
    ensures block[|block| - 2..] == "\n\n"
    ensures Occurs(MinimumLine(d), block)
    ensures Occurs(MaximumLine(d), block)
  {
    var dated := "---- " + convertDate(d.date);
    var head := dated + " ----\n";
    var minimum := MinimumLine(d);
    var maximum := MaximumLine(d);
    var t1 := head + minimum;
    var t2 := t1 + "\n";
    var t3 := t2 + maximum;
    var block := t3 + "\n\n";
    Leading(dated, " ----\n");
    Extended(dated, head, 0, minimum);
    Extended(dated, t1, 0, "\n");
    Extended(dated, t2, 0, maximum);
    Extended(dated, t3, 0, "\n\n");
    assert block[..|dated|] == dated;
    Appended(head, minimum);
    Extended(minimum, t1, |head|, "\n");
    Extended(minimum, t2, |head|, maximum);
    Extended(minimum, t3, |head|, "\n\n");
    Appended(t2, maximum);
    Extended(maximum, t3, |t2|, "\n\n");
    Appended(t3, "\n\n");
    block
  }

  /** The texts of the elements, concatenated in order. */
  function Concat<T>(xs: seq<T>, render: T -> string): string {
    if |xs| == 0 then "" else Concat(xs[..|xs| - 1], render) + render(xs[|xs| - 1])
  }

  /** The blocks of all records, concatenated in record order. */
  function DailyText(days: seq<Day>, convertDate: string -> string): string {
    Concat(days, (d: Day) => DayBlock(d, convertDate))
  }

  /** `generate_daily_summary` */
  method GenerateDailySummary(days: seq<Day>, convertDate: string -> string) returns (dailySummary: string)
    ensures dailySummary == DailyText(days, convertDate)
    ensures |days| == 0 ==> dailySummary == ""
  {
    dailySummary := "";
    for i := 0 to |days|
      invariant dailySummary == DailyText(days[..i], convertDate)
    {
      var dt := convertDate(days[i].date);
      var mnTemp := FormatTemperature(ConvertFToC(days[i].low as real));
      var mxTemp := FormatTemperature(ConvertFToC(days[i].high as real));
      var block := "---- " + dt + " ----\n"
        + ("  Minimum Temperature: " + mnTemp) + "\n"
        + ("  Maximum Temperature: " + mxTemp) + "\n\n";
      assert block == DayBlock(days[i], convertDate);
      assert days[..i + 1][..i] == days[..i];
      dailySummary := dailySummary + block;
    }
    assert days[..|days|] == days;
  }

  lemma ConcatAssociative(a: string, b: string, c: string)
    ensures (a + b) + c == a + (b + c)
  {
  }

  lemma {:induction false} ConcatAppend<T>(xs: seq<T>, ys: seq<T>, render: T -> string)
    ensures Concat(xs + ys, render) == Concat(xs, render) + Concat(ys, render)
    decreases |ys|
  {
    if |ys| == 0 {
      assert xs + ys == xs;
      assert Concat(xs, render) + "" == Concat(xs, render);
    } else {
      var all := xs + ys;
      var n := |ys| - 1;
      assert all[..|all| - 1] == xs + ys[..n] && all[|all| - 1] == ys[n];
      ConcatAppend(xs, ys[..n], render);
      ConcatAssociative(Concat(xs, render), Concat(ys[..n], render), render(ys[n]));
    }
  }

  lemma ConcatSingle<T>(x: T, render: T -> string)
    ensures Concat([x], render) == render(x)
  {
    assert [x][..0] == [];
    assert "" + render(x) == render(x);
  }

  /** The breakdown of two runs of records is the breakdown of each, one after the other. */
  lemma DailyTextAppend(first: seq<Day>, second: seq<Day>, convertDate: string -> string)
    ensures DailyText(first + second, convertDate)
      == DailyText(first, convertDate) + DailyText(second, convertDate)
  {
    ConcatAppend(first, second, (d: Day) => DayBlock(d, convertDate));
  }

  /** The breakdown starts with the first record's block, followed by the rest in order. */
  lemma DailyTextFirst(days: seq<Day>, convertDate: string -> string)
    requires |days| > 0
    ensures DailyText(days, convertDate)
      == DayBlock(days[0], convertDate) + DailyText(days[1..], convertDate)
  {
    var render := (d: Day) => DayBlock(d, convertDate);
    assert days == [days[0]] + days[1..];
    ConcatAppend([days[0]], days[1..], render);
    ConcatSingle(days[0], render);
  }
}
