/**
 * The text report of the wttr.in weather script.
 *
 * The script reads the first entry of `current_condition` from the JSON the
 * service returns, the first `weatherDesc` of that entry, and six values,
 * and prints them as six labelled lines. A missing key falls back to a
 * one-element list holding an empty object; a missing value prints as
 * `None`, except the condition, which prints as the empty string; an empty
 * list raises IndexError.
 *
 * The JSON is modelled by the keys the script reads, each value a string
 * (as the service sends them) or absent.
 */
module Weather {
  import opened Wrappers

  datatype Desc = Desc(value: Option<string>)

  /** One entry of `current_condition`, by the keys the script reads. */
  datatype Current = Current(
    tempC: Option<string>,
    tempF: Option<string>,
    weatherDesc: Option<seq<Desc>>,
    humidity: Option<string>,
    feelsLikeC: Option<string>,
    windKmph: Option<string>,
    precipMM: Option<string>)

  datatype WeatherData = WeatherData(currentCondition: Option<seq<Current>>)

  /** The object `{}`: no key present. */
  const EmptyCurrent := Current(None, None, None, None, None, None, None)

  /** Python raises IndexError on `[0]` of an empty list; these say which list it was. */
  datatype IndexError = EmptyCurrentCondition | EmptyWeatherDesc

  /** The seven values of the report as they are printed. */
  datatype Report = Report(
    condition: string,
    tempC: string,
    tempF: string,
    feelsLikeC: string,
    humidity: string,
    windKmph: string,
    precipMM: string)

  /** How an f-string prints a value that may be `None`. */
  function Show(v: Option<string>): (s: string)
    ensures v.Some? ==> s == v.value
    ensures v.None? ==> s == "None"
  {
    match v
    case Some(x) => x
    case None => "None"
  }

  /**
   * Picking the values out of the JSON, with the script's fallbacks: the
   * values of the entry the script reads, as printed, and the first
   * `weatherDesc` value as the condition (empty when it is missing).
   */
  function ReadValues(data: WeatherData): (r: Result<Report, IndexError>)
    ensures r == Err(EmptyCurrentCondition) <==> data.currentCondition == Some([])
    ensures r == Err(EmptyWeatherDesc) <==>
              data.currentCondition != Some([]) && Current0(data).weatherDesc == Some([])
    ensures r.Ok? && Current0(data).weatherDesc.None? ==> r.value.condition == ""
    ensures r.Ok? && Current0(data).weatherDesc.Some? ==>
              Current0(data).weatherDesc.value != [] &&
              r.value.condition == Current0(data).weatherDesc.value[0].value.GetOr("")
    ensures r.Ok? ==> r.value.tempC == Show(Current0(data).tempC) && r.value.tempF == Show(Current0(data).tempF)
    ensures r.Ok? ==> r.value.feelsLikeC == Show(Current0(data).feelsLikeC)
    ensures r.Ok? ==> r.value.humidity == Show(Current0(data).humidity)
    ensures r.Ok? ==> r.value.windKmph == Show(Current0(data).windKmph)
    ensures r.Ok? ==> r.value.precipMM == Show(Current0(data).precipMM)
  {
    var currents := data.currentCondition.GetOr([EmptyCurrent]);
    if currents == [] then Err(EmptyCurrentCondition)
    else
      var current := currents[0];
      var descs := current.weatherDesc.GetOr([Desc(None)]);
      if descs == [] then Err(EmptyWeatherDesc)
      else
        Ok(Report(descs[0].value.GetOr(""), Show(current.tempC), Show(current.tempF), Show(current.feelsLikeC),
                  Show(current.humidity), Show(current.windKmph), Show(current.precipMM)))
  }

  /** The entry the script reads: the first one, or `{}` when the key is missing. */
  function Current0(data: WeatherData): Current {
    match data.currentCondition
    case None => EmptyCurrent
    case Some(cs) => if cs == [] then EmptyCurrent else cs[0]
  }

  // ---------------------------------------------------------------------
  // The text
  // ---------------------------------------------------------------------

  const Degree: char := '\U{B0}'
  const Celsius: string := [' ', Degree, 'C']
  const Fahrenheit: string := [' ', Degree, 'F']
  const Between: string := Celsius + " / "

  /** The six lines of the report, without their line breaks. */
  function ReportLines(r: Report): (ls: seq<string>)
    ensures |ls| == 6
  {
    [ "Condition: " + r.condition,
      "Temperature: " + r.tempC + Between + r.tempF + Fahrenheit,
      "Feels like: " + r.feelsLikeC + Celsius,
      "Humidity: " + r.humidity + "%",
      "Wind: " + r.windKmph + " km/h",
      "Precipitation: " + r.precipMM + " mm" ]
  }

  /** Each line followed by a line break. */
  function JoinLines(ls: seq<string>): string {
    if ls == [] then "" else ls[0] + "\n" + JoinLines(ls[1..])
  }

  /**
   * `format_wttr`: the report text, or the IndexError it raises when
   * `current_condition` or the entry's `weatherDesc` is an empty list. The
   * text opens with the condition line, and the values can be read back
   * from it whenever each prints on one line.
   */
  function FormatWttr(data: WeatherData): (r: Result<string, IndexError>)
    ensures r.Err? <==> data.currentCondition == Some([]) || Current0(data).weatherDesc == Some([])
    ensures r.Err? <==> ReadValues(data).Err?
    ensures r.Err? ==> r.error == ReadValues(data).error
    ensures r.Ok? ==> "Condition: " <= r.value
    ensures r.Ok? && Readable(ReadValues(data).value) ==> ReadReport(r.value) == Some(ReadValues(data).value)
  {
    match ReadValues(data)
    case Ok(values) =>
      var text := JoinLines(ReportLines(values));
      assert text == ReportLines(values)[0] + "\n" + JoinLines(ReportLines(values)[1..]);
      if Readable(values) then ReadFormatted(values); Ok(text) else Ok(text)
    case Err(e) => Err(e)
  }

  // ---------------------------------------------------------------------
  // Reading a report back
  // ---------------------------------------------------------------------

  /** The position of the first `c` in `s`, or `|s|` when there is none. */
  function FirstIndex(s: string, c: char): (i: nat)
    ensures i <= |s| && c !in s[..i]
    ensures i < |s| ==> s[i] == c
  {
    if s == [] then 0 else if s[0] == c then 0 else 1 + FirstIndex(s[1..], c)
  }

  /** `s.split('\n')`. */
  function SplitLines(s: string): seq<string>
    decreases |s|
  {
    var i := FirstIndex(s, '\n');
    if i == |s| then [s] else [s[..i]] + SplitLines(s[i + 1..])
  }

  /** The text between a known prefix and a known suffix of `line`. */
  function StripAround(line: string, prefix: string, suffix: string): (v: Option<string>)
    ensures v.Some? ==> line == prefix + v.value + suffix
  {
    if |prefix| + |suffix| <= |line| && line[..|prefix|] == prefix && line[|line| - |suffix|..] == suffix
    then
      var v := line[|prefix|..|line| - |suffix|];
      assert line == line[..|prefix|] + v + line[|line| - |suffix|..];
      Some(v)
    else None
  }

  /** Splits `T °C / F` at the first degree sign. */
  function SplitTemperatures(t: string): Option<(string, string)> {
    var i := FirstIndex(t, Degree);
    if 1 <= i && i - 1 + |Between| <= |t| && t[i - 1..i - 1 + |Between|] == Between
    then Some((t[..i - 1], t[i - 1 + |Between|..]))
    else None
  }

  /** Recovers the printed values from the lines of a report, when they have the report's shape. */
  function ReadLines(ls: seq<string>): Option<Report> {
    if |ls| != 7 || ls[6] != "" then None
    else
      var condition := StripAround(ls[0], "Condition: ", "");
      var temps := StripAround(ls[1], "Temperature: ", Fahrenheit);
      var split := if temps.Some? then SplitTemperatures(temps.value) else None;
      var feels := StripAround(ls[2], "Feels like: ", Celsius);
      var humidity := StripAround(ls[3], "Humidity: ", "%");
      var wind := StripAround(ls[4], "Wind: ", " km/h");
      var precip := StripAround(ls[5], "Precipitation: ", " mm");
      if condition.Some? && split.Some? && feels.Some? && humidity.Some? && wind.Some? && precip.Some?
      then Some(Report(condition.value, split.value.0, split.value.1, feels.value,
                       humidity.value, wind.value, precip.value))
      else None
  }

  /** Recovers the printed values from a report text. */
  function ReadReport(text: string): Option<Report> {
    ReadLines(SplitLines(text))
  }

  predicate OneLine(s: string) {
    '\n' !in s
  }

  /** Values that print on one line each, with no degree sign in the Celsius temperature. */
  predicate Readable(r: Report) {
    OneLine(r.condition) && OneLine(r.tempC) && OneLine(r.tempF) && OneLine(r.feelsLikeC)
    && OneLine(r.humidity) && OneLine(r.windKmph) && OneLine(r.precipMM) && Degree !in r.tempC
  }

  lemma {:induction false} FirstIndexAfter(a: string, c: char, b: string)
    requires c !in a
    ensures FirstIndex(a + [c] + b, c) == |a|
    decreases |a|
  {
    if a != [] {
      assert (a + [c] + b)[1..] == a[1..] + [c] + b;
      assert c !in a[1..];
      FirstIndexAfter(a[1..], c, b);
    }
  }

  /** The first line break of the text ends its first line. */
  lemma SplitStep(line: string, rest: string)
    requires OneLine(line)
    ensures SplitLines(line + "\n" + rest) == [line] + SplitLines(rest)
  {
    var s := line + "\n" + rest;
    FirstIndexAfter(line, '\n', rest);
    assert s[..|line|] == line && s[|line| + 1..] == rest;
  }

  /** Splitting the joined lines gives the lines back, and the empty text after the last break. */
  lemma {:induction false} SplitJoin(ls: seq<string>)
    requires forall k :: 0 <= k < |ls| ==> OneLine(ls[k])
    ensures SplitLines(JoinLines(ls)) == ls + [""]
    decreases |ls|
  {
    if ls == [] {
      assert SplitLines("") == [""];
    } else {
      var tail := ls[1..];
      assert JoinLines(ls) == ls[0] + "\n" + JoinLines(tail);
      SplitStep(ls[0], JoinLines(tail));
      assert forall k :: 0 <= k < |tail| ==> tail[k] == ls[k + 1];
      SplitJoin(tail);
      assert [ls[0]] + (tail + [""]) == ls + [""];
    }
  }

  lemma StripWrapped(prefix: string, v: string, suffix: string)
    ensures StripAround(prefix + v + suffix, prefix, suffix) == Some(v)
  {
    var line := prefix + v + suffix;
    assert line[..|prefix|] == prefix && line[|line| - |suffix|..] == suffix;
    assert line[|prefix|..|line| - |suffix|] == v;
  }

  lemma SplitJoinedTemperatures(c: string, f: string)
    requires Degree !in c
    ensures SplitTemperatures(c + Between + f) == Some((c, f))
  {
    var t := c + Between + f;
    assert t == (c + [' ']) + [Degree] + ("C / " + f);
    assert Degree !in c + [' '];
    FirstIndexAfter(c + [' '], Degree, "C / " + f);
    assert t[..|c|] == c && t[|c|..|c| + |Between|] == Between && t[|c| + |Between|..] == f;
  }

  /** Each of the six lines gives its values back. */
  lemma ReadReportLines(r: Report)
    requires Degree !in r.tempC
    ensures ReadLines(ReportLines(r) + [""]) == Some(r)
  {
    var ls := ReportLines(r) + [""];
    StripWrapped("Condition: ", r.condition, "");
    assert "Condition: " + r.condition + "" == ls[0];
    StripWrapped("Temperature: ", r.tempC + Between + r.tempF, Fahrenheit);
    assert "Temperature: " + (r.tempC + Between + r.tempF) + Fahrenheit == ls[1];
    SplitJoinedTemperatures(r.tempC, r.tempF);
    StripWrapped("Feels like: ", r.feelsLikeC, Celsius);
    StripWrapped("Humidity: ", r.humidity, "%");
    StripWrapped("Wind: ", r.windKmph, " km/h");
    StripWrapped("Precipitation: ", r.precipMM, " mm");
  }

  /** The printed report can be read back: every value is recovered from its line. */
  lemma ReadFormatted(r: Report)
    requires Readable(r)
    ensures ReadReport(JoinLines(ReportLines(r))) == Some(r)
  {
    var ls := ReportLines(r);
    assert OneLine(Between) && OneLine(Fahrenheit) && OneLine(Celsius);
    forall k | 0 <= k < |ls| ensures OneLine(ls[k]) {
    }
    SplitJoin(ls);
    ReadReportLines(r);
  }

  // ---------------------------------------------------------------------
  // Fallbacks and errors
  // ---------------------------------------------------------------------

  /** Without `current_condition` every value prints as `None` and the condition as empty. */
  lemma MissingCurrentCondition()
    ensures FormatWttr(WeatherData(None)) ==
              Ok(JoinLines(ReportLines(Report("", "None", "None", "None", "None", "None", "None"))))
  {
  }

  /** Only the first entry of `current_condition` is read. */
  lemma OnlyFirstEntry(c: Current, rest: seq<Current>)
    ensures FormatWttr(WeatherData(Some([c] + rest))) == FormatWttr(WeatherData(Some([c])))
  {
  }
}
