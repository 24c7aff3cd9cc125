/**
 * Credibility-score extraction of the ERP trend dashboard.
 *
 * The fact-checking agent answers in free text; the dashboard looks in that
 * text for four labelled numbers (`Factual Accuracy: 92%`, a table row
 * `| Timeliness | 95% |`, ...) and keeps a default for every label it cannot
 * find. Each label is searched with the pattern `<Label>[:\s|]*(\d+)%?`,
 * case-insensitively, and the leftmost match wins.
 *
 * The text may hold any character. Only the character classes are taken
 * over ASCII: `\d` is an ASCII digit, `\s` an ASCII character that Python
 * counts as whitespace, and case-insensitivity is ASCII letter folding.
 */
module TrendScores {
  import opened Wrappers
  import opened Chars

  /** The four score keys, in the order the patterns are tried. */
  datatype Key = FactualAccuracy | SourceCredibility | ContentQuality | Timeliness

  const Keys: seq<Key> := [FactualAccuracy, SourceCredibility, ContentQuality, Timeliness]

  /** The position of a key in `Keys`. */
  function KeyIndex(k: Key): (m: nat)
    ensures m < |Keys| && Keys[m] == k
  {
    match k
    case FactualAccuracy => 0
    case SourceCredibility => 1
    case ContentQuality => 2
    case Timeliness => 3
  }

  /** The label searched for a key; it is also the key's name in the score table. */
  function Label(k: Key): string {
    match k
    case FactualAccuracy => "Factual Accuracy"
    case SourceCredibility => "Source Credibility"
    case ContentQuality => "Content Quality"
    case Timeliness => "Timeliness"
  }

  /** The score a key keeps when its label is not found. */
  function Default(k: Key): nat {
    match k
    case FactualAccuracy => 85
    case SourceCredibility => 80
    case ContentQuality => 88
    case Timeliness => 90
  }

  // ---------------------------------------------------------------------
  // Character classes
  // ---------------------------------------------------------------------

  predicate IsDigit(c: char) {
    '0' <= c <= '9'
  }

  /** Every character of `ds` is a decimal digit. */
  predicate AllDigits(ds: string) {
    forall k :: 0 <= k < |ds| ==> IsDigit(ds[k])
  }

  /** The characters of the class `[:\s|]` between a label and its number. */
  predicate IsSeparator(c: char) {
    c == ':' || c == '|' || IsSpace(c)
  }

  /** ASCII case folding. */
  function Fold(c: char): char {
    if 'A' <= c <= 'Z' then (c as int + 32) as char else c
  }

  /** The label occurs, ignoring case, at position `i` of `s`. */
  predicate LabelAt(s: string, i: nat, tag: string) {
    i + |tag| <= |s| && forall k :: 0 <= k < |tag| ==> Fold(s[i + k]) == Fold(tag[k])
  }

  // ---------------------------------------------------------------------
  // Scanning
  // ---------------------------------------------------------------------

  /** The end of the maximal run of separators starting at `i`. */
  function SkipSeparators(s: string, i: nat): (j: nat)
    requires i <= |s|
    ensures i <= j <= |s|
    ensures forall k :: i <= k < j ==> IsSeparator(s[k])
    ensures j == |s| || !IsSeparator(s[j])
    decreases |s| - i
  {
    if i < |s| && IsSeparator(s[i]) then SkipSeparators(s, i + 1) else i
  }

  /** The end of the maximal run of digits starting at `i`. */
  function DigitRunEnd(s: string, i: nat): (j: nat)
    requires i <= |s|
    ensures i <= j <= |s|
    ensures forall k :: i <= k < j ==> IsDigit(s[k])
    ensures j == |s| || !IsDigit(s[j])
    decreases |s| - i
  {
    if i < |s| && IsDigit(s[i]) then DigitRunEnd(s, i + 1) else i
  }

  function DigitValue(c: char): (d: nat)
    requires IsDigit(c)
    ensures d < 10
  {
    c as int - '0' as int
  }

  /** The value of a run of decimal digits, as Python's `int` reads it. */
  function DigitsValue(ds: string): (v: nat)
    requires AllDigits(ds)
    ensures (forall k :: 0 <= k < |ds| ==> ds[k] == '0') ==> v == 0
  {
    if |ds| == 0 then 0
    else DigitsValue(ds[..|ds| - 1]) * 10 + DigitValue(ds[|ds| - 1])
  }

  /**
   * The most digits `int` converts from a string: CPython (3.11 and later)
   * raises ValueError for a longer run under its default setting.
   */
  const MaxStrDigits: nat := 4300

  function Pow10(n: nat): (p: nat)
    ensures p >= 1
  {
    if n == 0 then 1 else 10 * Pow10(n - 1)
  }

  /** A run of n digits reads as a value below 10^n. */
  lemma {:induction false} DigitsValueBound(ds: string)
    requires AllDigits(ds)
    ensures DigitsValue(ds) < Pow10(|ds|)
    decreases |ds|
  {
    if |ds| > 0 {
      DigitsValueBound(ds[..|ds| - 1]);
    }
  }

  /** The n-digit decimal numeral of `v`, with leading zeros (its last n digits when `v` has more). */
  function Digits(v: nat, n: nat): (ds: string)
    ensures |ds| == n && AllDigits(ds)
  {
    if n == 0 then "" else Digits(v / 10, n - 1) + [('0' as int + v % 10) as char]
  }

  /** Conversely, every value below 10^n is read from some run of n digits. */
  lemma {:induction false} DigitsRoundTrip(v: nat, n: nat)
    requires v < Pow10(n)
    ensures DigitsValue(Digits(v, n)) == v
  {
    if n > 0 {
      var ds := Digits(v, n);
      assert v / 10 < Pow10(n - 1);
      DigitsRoundTrip(v / 10, n - 1);
      assert ds[..n - 1] == Digits(v / 10, n - 1);
      assert DigitValue(ds[n - 1]) == v % 10;
    }
  }

  /** Leading zeros of a digit run do not change its value. */
  lemma {:induction false} LeadingZeroDropped(ds: string)
    requires AllDigits(ds)
    ensures DigitsValue(['0'] + ds) == DigitsValue(ds)
    decreases |ds|
  {
    if |ds| > 0 {
      var init := ds[..|ds| - 1];
      assert (['0'] + ds)[..|ds|] == ['0'] + init;
      LeadingZeroDropped(init);
    }
  }

  /**
   * What the pattern `<label>[:\s|]*(\d+)%?` captures when the match starts
   * at position `i`: the maximal digit run that follows the label and the
   * maximal run of separators, or None when no digit follows.
   */
  function MatchAt(s: string, i: nat, tag: string): (r: Option<string>)
    ensures r.Some? ==> LabelAt(s, i, tag) && r.value != [] && AllDigits(r.value)
    ensures !LabelAt(s, i, tag) ==> r.None?
  {
    if !LabelAt(s, i, tag) then None
    else
      var j := SkipSeparators(s, i + |tag|);
      var e := DigitRunEnd(s, j);
      if j < e then Some(s[j..e]) else None
  }

  /** The leftmost position at or after `from` where the pattern matches. */
  function FirstMatch(s: string, tag: string, from: nat): (r: Option<nat>)
    ensures r.Some? ==> from <= r.value <= |s| && MatchAt(s, r.value, tag).Some?
    ensures r.Some? ==> forall j :: from <= j < r.value ==> MatchAt(s, j, tag).None?
    ensures r.None? ==> forall j :: from <= j <= |s| ==> MatchAt(s, j, tag).None?
    decreases |s| + 1 - from
  {
    if from > |s| then None
    else if MatchAt(s, from, tag).Some? then Some(from)
    else FirstMatch(s, tag, from + 1)
  }

  /** `re.search(pattern, s, re.IGNORECASE).group(1)`: the digits captured by the leftmost match. */
  function Search(s: string, tag: string): (r: Option<string>)
    ensures r.Some? ==> r.value != [] && AllDigits(r.value)
  {
    match FirstMatch(s, tag, 0)
    case Some(i) => MatchAt(s, i, tag)
    case None => None
  }

  /** Search finds the leftmost position that matches, and nothing when none does. */
  lemma SearchIsLeftmost(s: string, tag: string)
    ensures Search(s, tag).Some? <==> exists i :: 0 <= i <= |s| && MatchAt(s, i, tag).Some?
    ensures forall i :: 0 <= i <= |s| && MatchAt(s, i, tag).Some? &&
                        (forall j :: 0 <= j < i ==> MatchAt(s, j, tag).None?) ==>
                          Search(s, tag) == MatchAt(s, i, tag)
  {
    var r := FirstMatch(s, tag, 0);
    if r.Some? {
      assert Search(s, tag) == MatchAt(s, r.value, tag);
    }
    forall i | 0 <= i <= |s| && MatchAt(s, i, tag).Some? && (forall j :: 0 <= j < i ==> MatchAt(s, j, tag).None?)
      ensures Search(s, tag) == MatchAt(s, i, tag)
    {
      assert r.Some?;
      assert !(r.value < i);
      assert !(i < r.value);
    }
  }

  /** No label can be found in a text shorter than the label. */
  lemma {:induction false} NoMatchWhenTooShort(s: string, tag: string, from: nat)
    requires |s| < from + |tag|
    requires |tag| > 0
    ensures FirstMatch(s, tag, from) == None
    decreases |s| + 1 - from
  {
    if from <= |s| {
      NoMatchWhenTooShort(s, tag, from + 1);
    }
  }

  /** Positions that do not match can be skipped. */
  lemma {:induction false} SkipNonMatches(s: string, tag: string, from: nat, stop: nat)
    requires from <= stop
    requires forall j :: from <= j < stop ==> MatchAt(s, j, tag).None?
    ensures FirstMatch(s, tag, from) == FirstMatch(s, tag, stop)
    decreases stop - from
  {
    if from < stop {
      assert MatchAt(s, from, tag).None?;
      assert FirstMatch(s, tag, from) == FirstMatch(s, tag, from + 1);
      SkipNonMatches(s, tag, from + 1, stop);
    }
  }

  // ---------------------------------------------------------------------
  // The score table
  // ---------------------------------------------------------------------

  /**
   * The score of one key: the value of the digits after its leftmost label,
   * or its default when the label is not found or `int` refuses the digits.
   */
  function ScoreFor(response: string, k: Key): (v: nat)
    ensures Search(response, Label(k)).None? ==> v == Default(k)
    ensures Search(response, Label(k)).Some? && |Search(response, Label(k)).value| <= MaxStrDigits ==>
              v == DigitsValue(Search(response, Label(k)).value)
    ensures Search(response, Label(k)).Some? && |Search(response, Label(k)).value| > MaxStrDigits ==>
              v == Default(k)
  {
    match Search(response, Label(k))
    case None => Default(k)
    case Some(ds) => if |ds| <= MaxStrDigits then DigitsValue(ds) else Default(k)
  }

  /** The score table: every key, each scored on its own. */
  function Scores(response: string): (m: map<Key, nat>)
    ensures forall k: Key :: k in m
  {
    assert forall k: Key :: k in Keys by {
      forall k: Key ensures k in Keys { assert Keys[KeyIndex(k)] == k; }
    }
    map k: Key | k in Keys :: ScoreFor(response, k)
  }

  /**
   * The loop of `extract_scores_from_response`: start from the defaults and
   * let each pattern, in turn, overwrite its own key when it matches.
   */
  method ExtractScores(response: string) returns (scores: map<Key, nat>)
    ensures scores.Keys == {FactualAccuracy, SourceCredibility, ContentQuality, Timeliness}
    ensures forall k :: k in scores ==> scores[k] == ScoreFor(response, k)
  {
    scores := map[FactualAccuracy := 85, SourceCredibility := 80, ContentQuality := 88, Timeliness := 90];
    for n := 0 to |Keys|
      invariant scores.Keys == {FactualAccuracy, SourceCredibility, ContentQuality, Timeliness}
      invariant forall m :: 0 <= m < |Keys| ==>
                  scores[Keys[m]] == if m < n then ScoreFor(response, Keys[m]) else Default(Keys[m])
    {
      var key := Keys[n];
      assert forall m :: 0 <= m < |Keys| && m != n ==> Keys[m] != key;
      var found := Search(response, Label(key));
      if found.Some? {
        var digits := found.value;
        // `int` raises ValueError past the digit limit; the handler keeps the default.
        if |digits| <= MaxStrDigits {
          scores := scores[key := DigitsValue(digits)];
        }
      }
      assert scores[key] == ScoreFor(response, key);
    }
    forall k | k in scores ensures scores[k] == ScoreFor(response, k) {
      assert Keys[KeyIndex(k)] == k;
    }
  }

  /** The loop's table is the table of independently scored keys. */
  lemma ExtractScoresIsScores(response: string, scores: map<Key, nat>)
    requires scores.Keys == {FactualAccuracy, SourceCredibility, ContentQuality, Timeliness}
    requires forall k :: k in scores ==> scores[k] == ScoreFor(response, k)
    ensures scores == Scores(response)
  {
  }

  /** An empty response, such as a missing FactChecker output, scores every key at its default. */
  lemma {:induction false} EmptyResponseDefaults(k: Key)
    ensures ScoreFor("", k) == Default(k)
  {
    NoMatchWhenTooShort("", Label(k), 0);
  }

  /** The scores shown after a run: those of the FactChecker output, or of `''` when there is none. */
  function DashboardScores(outputs: map<string, string>): (m: map<Key, nat>)
    ensures "FactChecker" in outputs ==> m == Scores(outputs["FactChecker"])
    ensures "FactChecker" !in outputs ==> forall k :: k in m ==> m[k] == Default(k)
    ensures m.Keys == {FactualAccuracy, SourceCredibility, ContentQuality, Timeliness}
  {
    forall k: Key ensures ScoreFor("", k) == Default(k) { EmptyResponseDefaults(k); }
    Scores(if "FactChecker" in outputs then outputs["FactChecker"] else "")
  }

  // ---------------------------------------------------------------------
  // Scores are read whole, up to the digit limit
  // ---------------------------------------------------------------------

  /**
   * A label followed by `: ` and a digit run is found at the start, and the
   * whole run is captured whatever follows it, as long as that is not a digit.
   */
  lemma LabelledRunFound(k: Key, ds: string, rest: string)
    requires ds != [] && AllDigits(ds)
    requires rest == [] || !IsDigit(rest[0])
    ensures Search(Label(k) + ": " + ds + rest, Label(k)) == Some(ds)
  {
    SeparatedRunCaptured(Label(k), ": ", ds, rest);
  }

  /** A run of separators on [i, j) followed by a non-separator (or the end) is exactly what is skipped. */
  lemma SkipRun(s: string, i: nat, j: nat)
    requires i <= j <= |s|
    requires forall k :: i <= k < j ==> IsSeparator(s[k])
    requires j == |s| || !IsSeparator(s[j])
    ensures SkipSeparators(s, i) == j
  {
    var r := SkipSeparators(s, i);
    assert !(r < j) && !(j < r);
  }

  /**
   * At any position where the label occurs, in any case: when separators
   * fill [i + |tag|, j) and the maximal digit run is [j, e), the match
   * captures exactly that run.
   */
  lemma CapturedAt(s: string, i: nat, tag: string, j: nat, e: nat)
    requires LabelAt(s, i, tag) && i + |tag| <= j < e <= |s|
    requires forall k :: i + |tag| <= k < j ==> IsSeparator(s[k])
    requires forall k :: j <= k < e ==> IsDigit(s[k])
    requires e == |s| || !IsDigit(s[e])
    ensures MatchAt(s, i, tag) == Some(s[j..e])
  {
    SkipRun(s, i + |tag|, j);
    var r := DigitRunEnd(s, j);
    assert !(r < e) && !(e < r);
  }

  /**
   * After the label, any run of separators (none, colons, bars, whitespace)
   * followed by digits: the match captures the whole digit run, whatever
   * non-digit follows it.
   */
  lemma SeparatedRunCaptured(tag: string, sep: string, ds: string, rest: string)
    requires forall k :: 0 <= k < |sep| ==> IsSeparator(sep[k])
    requires ds != [] && AllDigits(ds)
    requires rest == [] || !IsDigit(rest[0])
    ensures MatchAt(tag + sep + ds + rest, 0, tag) == Some(ds)
  {
    var s := tag + sep + ds + rest;
    var n, m, e := |tag|, |tag| + |sep|, |tag| + |sep| + |ds|;
    assert forall k :: 0 <= k < n ==> s[k] == tag[k];
    assert LabelAt(s, 0, tag);
    assert forall k :: n <= k < m ==> s[k] == sep[k - n];
    assert forall k :: m <= k < e ==> s[k] == ds[k - m];
    assert rest != [] ==> s[e] == rest[0];
    CapturedAt(s, 0, tag, m, e);
    assert s[m..e] == ds;
  }

  /**
   * The score of a key when its label first matches at `i`, anywhere in the
   * text and in any case: the value of the digit run after the separators,
   * for a run `int` accepts.
   */
  lemma LeftmostCaptureScored(s: string, k: Key, i: nat, j: nat, e: nat)
    requires LabelAt(s, i, Label(k)) && i + |Label(k)| <= j < e <= |s|
    requires forall p :: i + |Label(k)| <= p < j ==> IsSeparator(s[p])
    requires forall p :: j <= p < e ==> IsDigit(s[p])
    requires e == |s| || !IsDigit(s[e])
    requires forall p :: 0 <= p < i ==> MatchAt(s, p, Label(k)).None?
    requires e - j <= MaxStrDigits
    ensures ScoreFor(s, k) == DigitsValue(s[j..e])
  {
    CapturedAt(s, i, Label(k), j, e);
    SearchIsLeftmost(s, Label(k));
  }

  /**
   * Conversely, when the separators after the label end at the end of the
   * text or at a character that is not a digit, nothing matches there.
   */
  lemma NoDigitNoMatch(s: string, i: nat, tag: string, j: nat)
    requires LabelAt(s, i, tag)
    requires i + |tag| <= j <= |s|
    requires forall k :: i + |tag| <= k < j ==> IsSeparator(s[k])
    requires j == |s| || (!IsSeparator(s[j]) && !IsDigit(s[j]))
    ensures MatchAt(s, i, tag).None?
  {
    SkipRun(s, i + |tag|, j);
  }

  /** In `pre + ds + rest`, the digit run starting after `pre` is exactly `ds`. */
  lemma DigitRunOf(pre: string, ds: string, rest: string)
    requires AllDigits(ds)
    requires rest == [] || !IsDigit(rest[0])
    ensures DigitRunEnd(pre + ds + rest, |pre|) == |pre| + |ds|
  {
    var s := pre + ds + rest;
    var e := DigitRunEnd(s, |pre|);
    assert forall i :: |pre| <= i < |pre| + |ds| ==> s[i] == ds[i - |pre|];
    assert rest != [] ==> s[|pre| + |ds|] == rest[0];
    assert !(e < |pre| + |ds|);
  }

  /** Any value written with at most 4300 digits is scored as it is: scores are not clamped. */
  lemma AnyValueScored(k: Key, v: nat, n: nat)
    requires 1 <= n <= MaxStrDigits && v < Pow10(n)
    ensures ScoreFor(Label(k) + ": " + Digits(v, n), k) == v
  {
    assert Label(k) + ": " + Digits(v, n) + "" == Label(k) + ": " + Digits(v, n);
    LabelledRunFound(k, Digits(v, n), "");
    DigitsRoundTrip(v, n);
  }

  /**
   * A leftmost run longer than the limit keeps the default, even when the
   * label occurs again later with a number `int` would accept.
   */
  lemma OverlongRunKeepsDefault(k: Key, ds: string, rest: string)
    requires AllDigits(ds) && |ds| > MaxStrDigits
    requires rest == [] || !IsDigit(rest[0])
    ensures ScoreFor(Label(k) + ": " + ds + rest, k) == Default(k)
  {
    LabelledRunFound(k, ds, rest);
  }

  // ---------------------------------------------------------------------
  // Worked cases
  // ---------------------------------------------------------------------

  /** A table row `| Factual Accuracy | 92% |` yields 92. */
  lemma TableRowYieldsValue()
    ensures ScoreFor("| Factual Accuracy | 92% |", FactualAccuracy) == 92
  {
    TableRowMatch();
    assert "92"[..1] == "9" && "9"[..0] == "";
  }

  /** In the table row the label is found at position 2, and `92` is captured. */
  lemma TableRowMatch()
    ensures Search("| Factual Accuracy | 92% |", "Factual Accuracy") == Some("92")
  {
    var tag := "Factual Accuracy";
    var s := "| Factual Accuracy | 92% |";
    assert Fold(s[0]) != Fold(tag[0]);
    assert Fold(s[1]) != Fold(tag[0]);
    TableRowCapture();
    assert FirstMatch(s, tag, 2) == Some(2);
  }

  /** At position 2 of the table row the separators ` | ` are skipped and `92` is captured. */
  lemma TableRowCapture()
    ensures MatchAt("| Factual Accuracy | 92% |", 2, "Factual Accuracy") == Some("92")
  {
    var tag := "Factual Accuracy";
    var s := "| Factual Accuracy | 92% |";
    assert forall k :: 0 <= k < |tag| ==> s[2 + k] == tag[k];
    assert LabelAt(s, 2, tag);
    assert s[18] == ' ' && s[19] == '|' && s[20] == ' ' && s[21] == '9' && s[22] == '2' && s[23] == '%';
    assert SkipSeparators(s, 21) == 21;
    assert SkipSeparators(s, 18) == 21;
    assert DigitRunEnd(s, 21) == 23;
    assert s[21..23] == "92";
  }

  /** The case of the label does not matter, and values are not clamped. */
  lemma UnclampedAnyCase()
    ensures ScoreFor("TIMELINESS: 150", Timeliness) == 150
  {
    var s, tag := "TIMELINESS: 150", "Timeliness";
    assert forall k :: 0 <= k < |tag| ==> Fold(s[k]) == Fold(tag[k]);
    assert LabelAt(s, 0, tag);
    assert SkipSeparators(s, 10) == 12;
    assert DigitRunEnd(s, 12) == 15;
    assert s[12..15] == "150";
    assert MatchAt(s, 0, tag) == Some("150");
    assert "150"[..2] == "15" && "15"[..1] == "1" && "1"[..0] == "";
  }

  /** An upper-case label after a first line is found, and its value scored. */
  lemma MidTextUpperCase()
    ensures ScoreFor("Summary\nTIMELINESS: 92%", Timeliness) == 92
  {
    var s := "Summary\nTIMELINESS: 92%";
    MidTextNoEarlierMatch();
    MidTextCapture();
    SearchIsLeftmost(s, "Timeliness");
    assert "92"[..1] == "9" && "9"[..0] == "";
  }

  /** After the label, `: ` is skipped and `92` is captured. */
  lemma MidTextCapture()
    ensures MatchAt("Summary\nTIMELINESS: 92%", 8, "Timeliness") == Some("92")
  {
    var s := "Summary\nTIMELINESS: 92%";
    MidTextLabel();
    assert s[18] == ':' && s[19] == ' ' && s[20] == '9' && s[21] == '2' && s[22] == '%';
    CapturedAt(s, 8, "Timeliness", 20, 22);
    assert s[20..22] == "92";
  }

  /** No character of the first line starts the label. */
  lemma MidTextNoEarlierMatch()
    ensures forall p :: 0 <= p < 8 ==> MatchAt("Summary\nTIMELINESS: 92%", p, "Timeliness").None?
  {
    var s, tag := "Summary\nTIMELINESS: 92%", "Timeliness";
    forall p | 0 <= p < 8 ensures !LabelAt(s, p, tag) {
      assert Fold(s[p]) != Fold(tag[0]);
    }
  }

  /** The label, in upper case, starts the second line. */
  lemma MidTextLabel()
    ensures LabelAt("Summary\nTIMELINESS: 92%", 8, "Timeliness")
  {
    var s, tag := "Summary\nTIMELINESS: 92%", "Timeliness";
    assert forall q :: 0 <= q < |tag| ==> Fold(s[8 + q]) == Fold(tag[q]);
  }

  /** An occurrence followed by anything but separators and digits is skipped. */
  lemma TrailingWordSkipped()
    ensures ScoreFor("Factual Accuracy Score: 90", FactualAccuracy) == 85
  {
    var tag := "Factual Accuracy";
    var s := "Factual Accuracy Score: 90";
    TrailingWordNoCapture();
    NoLabelInside();
    SkipNonMatches(s, tag, 0, 11);
    NoMatchWhenTooShort(s, tag, 11);
    assert Search(s, tag) == None;
  }

  /** The label does not start again inside the first eleven characters. */
  lemma NoLabelInside()
    ensures forall j :: 1 <= j < 11 ==> MatchAt("Factual Accuracy Score: 90", j, "Factual Accuracy").None?
  {
    var tag := "Factual Accuracy";
    var s := "Factual Accuracy Score: 90";
    forall j | 1 <= j < 11 ensures !LabelAt(s, j, tag) {
      assert Fold(s[j]) != Fold(tag[0]);
    }
  }

  /** After the label come a space and a letter, so nothing is captured at position 0. */
  lemma TrailingWordNoCapture()
    ensures MatchAt("Factual Accuracy Score: 90", 0, "Factual Accuracy").None?
  {
    var tag := "Factual Accuracy";
    var s := "Factual Accuracy Score: 90";
    assert s[16] == ' ' && s[17] == 'S';
    assert SkipSeparators(s, 16) == 17;
    assert DigitRunEnd(s, 17) == 17;
  }
}
