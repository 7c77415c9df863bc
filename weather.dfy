/**
 * `Journal::Weather` after construction: the snapshot it holds and the ways it
 * is rendered. Temperatures are kept as the strings Ruby's interpolation would
 * produce for them; fetching and parsing the snapshot is not modelled.
 */
module JournalWeather {
  import opened Strings
  import opened Wrappers
  import OrderedHash

  /** One hourly sample of `@data[:temps]`. */
  datatype Hourly = Hourly(temp: string, condition: string)

  /** `@data` of a Weather object. */
  datatype WeatherData = WeatherData(
    day: string,
    high: string,
    low: string,
    temp: string,
    condition: string,
    currentCondition: string,
    temps: seq<Hourly>,
    moonPhase: string)

  /** `Weather#to_data`: the persisted summary; its condition is the CURRENT condition. */
  function ToData(w: WeatherData): OrderedHash.Hash<string> {
    [("high", w.high), ("low", w.low), ("condition", w.currentCondition), ("moon_phase", w.moonPhase)]
  }

  /** `to_data` has exactly the keys high, low, condition and moon_phase; the condition is the current one. */
  lemma ToDataSpec(w: WeatherData)
    ensures OrderedHash.Keys(ToData(w)) == ["high", "low", "condition", "moon_phase"]
    ensures OrderedHash.Get(ToData(w), "high") == Some(w.high)
    ensures OrderedHash.Get(ToData(w), "low") == Some(w.low)
    ensures OrderedHash.Get(ToData(w), "condition") == Some(w.currentCondition)
    ensures OrderedHash.Get(ToData(w), "moon_phase") == Some(w.moonPhase)
  {
    var r := ToData(w);
    var r1, r2, r3 := r[1..], r[2..], r[3..];
    assert r3[1..] == [];
    assert r2[1..] == r3 && r1[1..] == r2 && r[1..] == r1;
    assert OrderedHash.Keys(r3) == ["moon_phase"];
    assert OrderedHash.Keys(r2) == ["condition", "moon_phase"];
    assert OrderedHash.Keys(r1) == ["low", "condition", "moon_phase"];
    assert OrderedHash.Get(r3, "moon_phase") == Some(w.moonPhase);
    assert OrderedHash.Get(r2, "moon_phase") == Some(w.moonPhase);
    assert OrderedHash.Get(r2, "condition") == Some(w.currentCondition);
    assert OrderedHash.Get(r1, "moon_phase") == Some(w.moonPhase);
    assert OrderedHash.Get(r1, "condition") == Some(w.currentCondition);
  }

  /** `Weather#moon`. */
  function Moon(w: WeatherData): string {
    w.moonPhase
  }

  /** `Weather#current`, e.g. "54 and Sunny". */
  function Current(w: WeatherData): string {
    w.temp + " and " + w.currentCondition
  }

  /** `Weather#forecast`, e.g. "Sunny 80/65": the DAILY condition, then high/low. */
  function Forecast(w: WeatherData): string {
    w.condition + " " + w.high + "/" + w.low
  }

  // ---------------------------------------------------------------------------
  // to_markdown

  /** `hours_text`; an index past its end reads nil, which `format` renders as "". */
  const HoursText: seq<string> := ["8am", "10am", "12pm", "2pm", "4pm", "6pm", "8pm"]

  /** The label of column `i` taken from the hour table `hours`. */
  function Label(hours: seq<string>, i: nat): string {
    if i < |hours| then hours[i] else ""
  }

  /** The column width: the sample's condition length plus one. */
  function Width(h: Hourly): nat {
    |h.condition| + 1
  }

  /** The four table rows. */
  datatype Row = Labels | Rule | Conditions | Temps

  /** The cell of sample `h` (at index `i`) in row `row`. */
  function Cell(hours: seq<string>, row: Row, i: nat, h: Hourly): string {
    match row
    case Labels => PadLeft(Label(hours, i), Width(h)) + " |"
    case Rule => Repeat('-', Width(h)) + "-|"
    case Conditions => " " + h.condition + " |"
    case Temps => PadLeft(h.temp, Width(h)) + " |"
  }

  /** The text a cell shows: the hour label, nothing, the condition, or the temperature. */
  function Content(hours: seq<string>, row: Row, i: nat, h: Hourly): string {
    match row
    case Labels => Label(hours, i)
    case Rule => ""
    case Conditions => h.condition
    case Temps => h.temp
  }

  /**
   * Every cell ends in " |" after its content, which is right-aligned to the
   * column width (padded on the left with spaces) and never cut; the separator
   * cell is width + 1 dashes and a "|".
   */
  lemma CellShape(hours: seq<string>, row: Row, i: nat, h: Hourly)
    ensures row == Rule ==> Cell(hours, row, i, h) == Repeat('-', Width(h) + 1) + "|"
    ensures row == Conditions ==> Cell(hours, row, i, h) == " " + h.condition + " |"
    ensures row in {Labels, Temps} ==>
      var c, r := Content(hours, row, i, h), Cell(hours, row, i, h);
      && |r| == (if |c| >= Width(h) then |c| else Width(h)) + 2
      && r[|r| - 2 - |c|..] == c + " |"
      && forall j :: 0 <= j < |r| - 2 - |c| ==> r[j] == ' '
  {
    var w := Width(h);
    if row == Rule {
      RepeatChars('-', w);
      RepeatChars('-', w + 1);
      assert Repeat('-', w) + "-|" == Repeat('-', w + 1) + "|";
    } else if row in {Labels, Temps} {
      var c := Content(hours, row, i, h);
      var p := PadLeft(c, w);
      PadLeftShape(c, w);
      assert Cell(hours, row, i, h) == p + " |";
      assert (p + " |")[|p| - |c|..] == p[|p| - |c|..] + " |";
    }
  }

  /** The cells of row `row`, as a function of the column index and the sample. */
  function CellsOf(hours: seq<string>, row: Row): (nat, Hourly) -> string {
    (i: nat, h: Hourly) => Cell(hours, row, i, h)
  }

  /** The row so far: "|" and the cells `cell` gives the first `n` samples. */
  function RowUpTo(cell: (nat, Hourly) -> string, ts: seq<Hourly>, n: nat): string
    requires n <= |ts|
  {
    if n == 0 then "|" else RowUpTo(cell, ts, n - 1) + cell(n - 1, ts[n - 1])
  }

  /** A whole table row: "|" and then one cell per sample. */
  function RowText(hours: seq<string>, row: Row, ts: seq<Hourly>): string {
    RowUpTo(CellsOf(hours, row), ts, |ts|)
  }

  function ForecastLine(w: WeatherData): string {
    "Forecast for " + w.day + ": " + Forecast(w) + "  "
  }

  function CurrentLine(w: WeatherData): string {
    "Currently: " + Current(w) + "  "
  }

  function MoonLine(w: WeatherData): string {
    "Moon Phase: " + Moon(w) + "  "
  }

  /** The lines of `to_markdown`, before they are joined with newlines. */
  function MarkdownLines(w: WeatherData): seq<string> {
    [ ForecastLine(w),
      CurrentLine(w),
      MoonLine(w),
      "",
      RowText(HoursText, Labels, w.temps),
      RowText(HoursText, Rule, w.temps),
      RowText(HoursText, Conditions, w.temps),
      RowText(HoursText, Temps, w.temps) ]
  }

  function Markdown(w: WeatherData): string {
    JoinWith(MarkdownLines(w), "\n")
  }

  /** One of the four loops of `to_markdown`: builds a row cell by cell. */
  method BuildRow(hours: seq<string>, row: Row, ts: seq<Hourly>) returns (s: string)
    ensures s == RowText(hours, row, ts)
  {
    s := "|";
    var i := 0;
    while i < |ts|
      invariant 0 <= i <= |ts|
      invariant s == RowUpTo(CellsOf(hours, row), ts, i)
    {
      RowStep(hours, row, ts, i, s);
      s := s + Cell(hours, row, i, ts[i]);
      i := i + 1;
    }
  }

  lemma RowStep(hours: seq<string>, row: Row, ts: seq<Hourly>, i: nat, s: string)
    requires i < |ts| && s == RowUpTo(CellsOf(hours, row), ts, i)
    ensures s + Cell(hours, row, i, ts[i]) == RowUpTo(CellsOf(hours, row), ts, i + 1)
  {
  }

  /** `Weather#to_markdown`. */
  method ToMarkdown(w: WeatherData) returns (md: string)
    ensures md == Markdown(w)
  {
    var hours := HoursText;
    var output := [];
    output := output + [ForecastLine(w)];
    output := output + [CurrentLine(w)];
    output := output + [MoonLine(w)];
    output := output + [""];
    var hoursRow := BuildRow(hours, Labels, w.temps);
    output := output + [hoursRow];
    var ruleRow := BuildRow(hours, Rule, w.temps);
    output := output + [ruleRow];
    var conditionsRow := BuildRow(hours, Conditions, w.temps);
    output := output + [conditionsRow];
    var tempsRow := BuildRow(hours, Temps, w.temps);
    output := output + [tempsRow];
    EightPushes(ForecastLine(w), CurrentLine(w), MoonLine(w), "", hoursRow, ruleRow, conditionsRow, tempsRow);
    md := JoinWith(output, "\n");
  }

  /** Pushing eight lines one by one onto an empty list gives those lines in order. */
  lemma EightPushes<T>(a: T, b: T, c: T, d: T, e: T, f: T, g: T, h: T)
    ensures [] + [a] + [b] + [c] + [d] + [e] + [f] + [g] + [h] == [a, b, c, d, e, f, g, h]
  {
  }

  // ---------------------------------------------------------------------------
  // Properties of the rendering

  lemma JoinCons(a: string, rest: seq<string>, sep: string)
    requires rest != []
    ensures JoinWith([a] + rest, sep) == a + sep + JoinWith(rest, sep)
  {
    assert ([a] + rest)[1..] == rest;
  }

  /**
   * The rendering opens with the forecast, current-conditions and moon-phase
   * lines, then an empty line, then the four table rows.
   */
  lemma MarkdownHead(w: WeatherData)
    ensures MarkdownLines(w)[4..] ==
      [RowText(HoursText, Labels, w.temps), RowText(HoursText, Rule, w.temps), RowText(HoursText, Conditions, w.temps), RowText(HoursText, Temps, w.temps)]
    ensures Markdown(w) ==
      ForecastLine(w) + "\n" + (CurrentLine(w) + "\n" + (MoonLine(w) + "\n" + ("\n" +
      JoinWith(MarkdownLines(w)[4..], "\n"))))
  {
    var rows := [RowText(HoursText, Labels, w.temps), RowText(HoursText, Rule, w.temps), RowText(HoursText, Conditions, w.temps), RowText(HoursText, Temps, w.temps)];
    EightSplit(ForecastLine(w), CurrentLine(w), MoonLine(w), "", rows[0], rows[1], rows[2], rows[3]);
    JoinHead(ForecastLine(w), CurrentLine(w), MoonLine(w), rows);
  }

  lemma EightSplit<T>(a: T, b: T, c: T, d: T, e: T, f: T, g: T, h: T)
    ensures [a, b, c, d, e, f, g, h] == [a, b, c, d] + [e, f, g, h]
  {
  }

  /** Joining three lines, an empty line and then `rows` puts a newline after each of the first four. */
  lemma JoinHead(a: string, b: string, c: string, rows: seq<string>)
    requires rows != []
    ensures ([a, b, c, ""] + rows)[4..] == rows
    ensures JoinWith([a, b, c, ""] + rows, "\n") == a + "\n" + (b + "\n" + (c + "\n" + ("\n" + JoinWith(rows, "\n"))))
  {
    var ls := [a, b, c, ""] + rows;
    assert ls[3..] == [""] + rows;
    JoinCons("", rows, "\n");
    assert ls[2..] == [c] + ls[3..];
    JoinCons(c, ls[3..], "\n");
    assert ls[1..] == [b] + ls[2..];
    JoinCons(b, ls[2..], "\n");
    assert ls == [a] + ls[1..];
    JoinCons(a, ls[1..], "\n");
  }

  /** Label and temperature strings fit their columns. */
  predicate Fits(hours: seq<string>, ts: seq<Hourly>) {
    forall i {:trigger HourFits(hours, i, ts[i])} :: 0 <= i < |ts| ==> HourFits(hours, i, ts[i])
  }

  /** The label of column `i` and the temperature of `h` fit the column's width. */
  predicate HourFits(hours: seq<string>, i: nat, h: Hourly) {
    |Label(hours, i)| <= Width(h) && |h.temp| <= Width(h)
  }

  /** The characters of the first `n` columns: each is its width plus the two border characters. */
  function TableWidth(ts: seq<Hourly>, n: nat): nat
    requires n <= |ts|
  {
    if n == 0 then 0 else TableWidth(ts, n - 1) + Width(ts[n - 1]) + 2
  }

  lemma CellLength(hours: seq<string>, row: Row, i: nat, h: Hourly)
    requires HourFits(hours, i, h)
    ensures |Cell(hours, row, i, h)| == Width(h) + 2
  {
  }

  /** A row whose cells are each two characters wider than their column is as wide as the table. */
  lemma {:induction false} RowLength(cell: (nat, Hourly) -> string, ts: seq<Hourly>, n: nat)
    requires n <= |ts|
    requires forall i :: 0 <= i < n ==> |cell(i, ts[i])| == Width(ts[i]) + 2
    ensures |RowUpTo(cell, ts, n)| == 1 + TableWidth(ts, n)
  {
    if n > 0 {
      RowLength(cell, ts, n - 1);
    }
  }

  /** When every label and temperature fits its column, the four table rows have the same length. */
  lemma RowsAligned(hours: seq<string>, ts: seq<Hourly>, row: Row, other: Row)
    requires Fits(hours, ts)
    ensures |RowText(hours, row, ts)| == |RowText(hours, other, ts)| == 1 + TableWidth(ts, |ts|)
  {
    forall i | 0 <= i < |ts|
      ensures |CellsOf(hours, row)(i, ts[i])| == |CellsOf(hours, other)(i, ts[i])| == Width(ts[i]) + 2
    {
      CellLength(hours, row, i, ts[i]);
      CellLength(hours, other, i, ts[i]);
    }
    RowLength(CellsOf(hours, row), ts, |ts|);
    RowLength(CellsOf(hours, other), ts, |ts|);
  }
}
