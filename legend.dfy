/**
  The map legend: six colour swatches with depth labels, built by appending
  one HTML row per depth band to the legend's initially empty `innerHTML`.
  Besides the builder, this module gives a reader that recovers the band
  table from the HTML, and proves that the bands the legend advertises are
  the bands the marker colour ladder uses.
 */
module Legend {
  import opened Numerals
  import Styling

  datatype Option<T> = None | Some(value: T)

  /** Lower bounds (km) of the six bands, as listed in `legend.onAdd`. */
  const Intervals: seq<int> := [-10, 10, 30, 50, 70, 90]

  /** Swatch colours of the six bands, parallel to `Intervals`. */
  const Colors: seq<string> := ["green", "#cafc03", "#fcad03", "#fc8403", "#fc4903", "red"]

  const SwatchOpen: string := "<i style= 'background:"
  const SwatchClose: string := "'></i>"
  const RangeSep: string := "km - "
  const RangeEnd: string := "km<br>"
  const OpenEnd: string := "+"

  /** One legend entry: its colour, its lower bound, and its upper bound unless open-ended. */
  datatype Band = Band(color: string, lower: int, upper: Option<int>)

  /** `colors[i]` in JavaScript: an index past the end reads `undefined`, which renders as "undefined". */
  function ColorAt(colors: seq<string>, i: nat): string {
    if i < |colors| then colors[i] else "undefined"
  }

  /** Truthiness of `intervals[j]`: defined (in range) and not 0. */
  predicate HasUpper(intervals: seq<int>, j: nat) {
    j < |intervals| && intervals[j] != 0
  }

  /** The band that row `i` of the legend advertises. */
  function BandAt(intervals: seq<int>, colors: seq<string>, i: nat): Band
    requires i < |intervals|
  {
    Band(ColorAt(colors, i), intervals[i], if HasUpper(intervals, i + 1) then Some(intervals[i + 1]) else None)
  }

  /** The band table the legend advertises, one band per interval. */
  function Bands(intervals: seq<int>, colors: seq<string>): seq<Band> {
    seq(|intervals|, i requires 0 <= i < |intervals| => BandAt(intervals, colors, i))
  }

  function Suffix(upper: Option<int>): string {
    match upper
    case Some(u) => RangeSep + IntToString(u) + RangeEnd
    case None => OpenEnd
  }

  /** The coloured square that opens a row. */
  function Swatch(color: string): string {
    SwatchOpen + color + SwatchClose
  }

  /** The HTML of one legend row. */
  function RowText(b: Band): string {
    Swatch(b.color) + (IntToString(b.lower) + Suffix(b.upper))
  }

  /** The HTML of consecutive rows. */
  function Render(bs: seq<Band>): string {
    if bs == [] then "" else RowText(bs[0]) + Render(bs[1..])
  }

  /** The legend's `innerHTML` after `onAdd` has run. */
  function LegendHtml(intervals: seq<int>, colors: seq<string>): string {
    Render(Bands(intervals, colors))
  }

  lemma {:induction false} RenderSnoc(bs: seq<Band>, b: Band)
    ensures Render(bs + [b]) == Render(bs) + RowText(b)
  {
    if bs == [] {
      assert bs + [b] == [b];
      assert Render([b]) == RowText(b) + Render([]);
    } else {
      assert (bs + [b])[1..] == bs[1..] + [b];
      RenderSnoc(bs[1..], b);
    }
  }

  /** Appending row `i`, written as `onAdd` writes it, extends the rendered prefix by band `i`. */
  lemma RenderStep(intervals: seq<int>, colors: seq<string>, i: nat)
    requires i < |intervals| <= |colors|
    ensures Render(Bands(intervals, colors)[..i + 1]) ==
      Render(Bands(intervals, colors)[..i])
      + (SwatchOpen + colors[i] + SwatchClose + IntToString(intervals[i])
         + (if i + 1 < |intervals| && intervals[i + 1] != 0 then RangeSep + IntToString(intervals[i + 1]) + RangeEnd else OpenEnd))
  {
    var bs := Bands(intervals, colors);
    assert bs[..i + 1] == bs[..i] + [BandAt(intervals, colors, i)];
    RenderSnoc(bs[..i], BandAt(intervals, colors, i));
  }

  /** `legend.onAdd`: the loop over the parallel `intervals` and `colors` arrays. */
  method OnAdd() returns (html: string)
    ensures html == LegendHtml(Intervals, Colors)
    ensures ReadLegend(html) == Some(Bands(Intervals, Colors))
  {
    var intervals := Intervals;
    var colors := Colors;
    html := "";
    var i := 0;
    while i < |intervals|
      invariant 0 <= i <= |intervals|
      invariant html == Render(Bands(intervals, colors)[..i])
    {
      var row := SwatchOpen + colors[i] + SwatchClose + IntToString(intervals[i])
        + (if i + 1 < |intervals| && intervals[i + 1] != 0 then RangeSep + IntToString(intervals[i + 1]) + RangeEnd else OpenEnd);
      RenderStep(intervals, colors, i);
      html := html + row;
      i := i + 1;
    }
    assert Bands(intervals, colors)[..i] == Bands(intervals, colors);
    LegendReadsBack();
  }

  // ---------------------------------------------------------------------
  // Reading the legend back

  predicate StartsWith(s: string, p: string) {
    |p| <= |s| && s[..|p|] == p
  }

  /** Position of the first `c` in `s`, or `|s|` when there is none. */
  function IndexOf(s: string, c: char): (k: nat)
    ensures k <= |s|
    ensures forall j :: 0 <= j < k ==> s[j] != c
    ensures k < |s| ==> s[k] == c
  {
    if s == [] then 0 else if s[0] == c then 0 else 1 + IndexOf(s[1..], c)
  }

  /** Length of the longest prefix of `s` made of numeral characters. */
  function NumeralLength(s: string): (k: nat)
    ensures k <= |s|
    ensures forall j :: 0 <= j < k ==> IsNumeralChar(s[j])
    ensures k < |s| ==> !IsNumeralChar(s[k])
  {
    if s == [] || !IsNumeralChar(s[0]) then 0 else 1 + NumeralLength(s[1..])
  }

  /** Reads a leading integer, returning it with the rest of the input. */
  function ReadInt(s: string): (r: Option<(int, string)>)
    ensures r.Some? ==> |r.value.1| < |s|
  {
    var n := NumeralLength(s);
    if IsNumeral(s[..n]) then Some((ParseInt(s[..n]), s[n..])) else None
  }

  /** Reads a swatch, returning its colour with the rest of the input. */
  function ReadSwatch(s: string): (r: Option<(string, string)>)
    ensures r.Some? ==> |r.value.1| < |s|
  {
    if !StartsWith(s, SwatchOpen) then None
    else
      var s1 := s[|SwatchOpen|..];
      var k := IndexOf(s1, '\'');
      if StartsWith(s1[k..], SwatchClose) then Some((s1[..k], s1[k..][|SwatchClose|..])) else None
  }

  /** Reads the end of a label: "+" for an open band, or the upper bound. */
  function ReadSuffix(s: string): (r: Option<(Option<int>, string)>)
    ensures r.Some? ==> |r.value.1| < |s|
  {
    if StartsWith(s, OpenEnd) then Some((None, s[|OpenEnd|..]))
    else if !StartsWith(s, RangeSep) then None
    else
      match ReadInt(s[|RangeSep|..])
      case None => None
      case Some((hi, s2)) =>
        if StartsWith(s2, RangeEnd) then Some((Some(hi), s2[|RangeEnd|..])) else None
  }

  /** Reads one legend row, returning its band with the rest of the input. */
  function ReadRow(s: string): (r: Option<(Band, string)>)
    ensures r.Some? ==> |r.value.1| < |s|
  {
    match ReadSwatch(s)
    case None => None
    case Some((c, s1)) =>
      match ReadInt(s1)
      case None => None
      case Some((lo, s2)) =>
        match ReadSuffix(s2)
        case None => None
        case Some((up, s3)) => Some((Band(c, lo, up), s3))
  }

  /** Splits legend HTML into its rows' bands; None when the text is not a legend. */
  function ReadLegend(s: string): Option<seq<Band>>
    decreases |s|
  {
    if s == [] then Some([])
    else
      match ReadRow(s)
      case None => None
      case Some((b, rest)) =>
        match ReadLegend(rest)
        case None => None
        case Some(bs) => Some([b] + bs)
  }

  /** A colour that can sit inside the single-quoted style attribute. */
  predicate QuoteFree(c: string) {
    '\'' !in c
  }

  lemma ReadIntOf(n: int, x: string)
    requires x == [] || !IsNumeralChar(x[0])
    ensures ReadInt(IntToString(n) + x) == Some((n, x))
  {
    var t := IntToString(n);
    var s := t + x;
    NumeralLengthOf(t, x);
    assert s[..|t|] == t;
    assert s[|t|..] == x;
    IntRoundTrip(n);
  }

  lemma {:induction false} NumeralLengthOf(t: string, x: string)
    requires forall j :: 0 <= j < |t| ==> IsNumeralChar(t[j])
    requires x == [] || !IsNumeralChar(x[0])
    ensures NumeralLength(t + x) == |t|
  {
    if t != [] {
      assert (t + x)[1..] == t[1..] + x;
      NumeralLengthOf(t[1..], x);
    }
  }

  lemma {:induction false} IndexOfAfter(c: string, q: char, x: string)
    requires q !in c
    ensures IndexOf(c + ([q] + x), q) == |c|
  {
    if c != [] {
      assert (c + ([q] + x))[1..] == c[1..] + ([q] + x);
      IndexOfAfter(c[1..], q, x);
    }
  }

  lemma ReadSwatchOf(c: string, x: string)
    requires QuoteFree(c)
    ensures ReadSwatch(Swatch(c) + x) == Some((c, x))
  {
    var s := Swatch(c) + x;
    assert s == SwatchOpen + (c + (SwatchClose + x));
    var s1 := s[|SwatchOpen|..];
    assert s1 == c + (SwatchClose + x);
    assert SwatchClose + x == ['\''] + (SwatchClose[1..] + x);
    IndexOfAfter(c, '\'', SwatchClose[1..] + x);
    assert s1[..|c|] == c;
    assert s1[|c|..] == SwatchClose + x;
  }

  lemma ReadSuffixOf(up: Option<int>, x: string)
    ensures ReadSuffix(Suffix(up) + x) == Some((up, x))
  {
    match up
    case None =>
    case Some(u) =>
      var s := Suffix(up) + x;
      assert s == RangeSep + (IntToString(u) + (RangeEnd + x));
      assert s[0] == 'k';
      assert !StartsWith(s, OpenEnd);
      assert s[..|RangeSep|] == RangeSep;
      assert s[|RangeSep|..] == IntToString(u) + (RangeEnd + x);
      ReadIntOf(u, RangeEnd + x);
      assert (RangeEnd + x)[..|RangeEnd|] == RangeEnd;
      assert (RangeEnd + x)[|RangeEnd|..] == x;
  }

  lemma ReadRowOf(b: Band, x: string)
    requires QuoteFree(b.color)
    ensures ReadRow(RowText(b) + x) == Some((b, x))
  {
    var tail := IntToString(b.lower) + (Suffix(b.upper) + x);
    assert RowText(b) + x == Swatch(b.color) + tail;
    ReadSwatchOf(b.color, tail);
    assert (Suffix(b.upper) + x)[0] == Suffix(b.upper)[0];
    ReadIntOf(b.lower, Suffix(b.upper) + x);
    ReadSuffixOf(b.upper, x);
  }

  /** Reading a legend that starts with a well-formed row yields that row's band, then the rest. */
  lemma ReadLegendCons(b: Band, rest: string)
    requires QuoteFree(b.color)
    ensures ReadLegend(RowText(b) + rest) ==
      match ReadLegend(rest)
      case None => None
      case Some(bs) => Some([b] + bs)
  {
    ReadRowOf(b, rest);
    assert RowText(b) + rest != [];
  }

  lemma {:induction false} ReadRender(bs: seq<Band>)
    requires forall i :: 0 <= i < |bs| ==> QuoteFree(bs[i].color)
    ensures ReadLegend(Render(bs)) == Some(bs)
  {
    if bs != [] {
      var rest := Render(bs[1..]);
      ReadRender(bs[1..]);
      assert ReadLegend(rest) == Some(bs[1..]);
      ReadLegendCons(bs[0], rest);
      assert ReadLegend(RowText(bs[0]) + rest) == Some([bs[0]] + bs[1..]);
      assert [bs[0]] + bs[1..] == bs;
      assert Render(bs) == RowText(bs[0]) + rest;
    }
  }

  /** Reading the built legend gives back exactly the band table it was built from. */
  lemma LegendRoundTrip(intervals: seq<int>, colors: seq<string>)
    requires forall i :: 0 <= i < |colors| ==> QuoteFree(colors[i])
    ensures ReadLegend(LegendHtml(intervals, colors)) == Some(Bands(intervals, colors))
  {
    var bs := Bands(intervals, colors);
    forall i | 0 <= i < |bs|
      ensures QuoteFree(bs[i].color)
    {
      assert bs[i].color == ColorAt(colors, i);
    }
    ReadRender(bs);
  }

  // ---------------------------------------------------------------------
  // What the legend says

  predicate EndsWith(s: string, p: string) {
    |p| <= |s| && s[|s| - |p|..] == p
  }

  /** Row `i` ends in "+" exactly when `intervals[i + 1]` is falsy; otherwise it ends with the next bound. */
  lemma LabelEnding(intervals: seq<int>, colors: seq<string>, i: nat)
    requires i < |intervals|
    ensures var row := RowText(BandAt(intervals, colors, i));
      |row| > 0 && (row[|row| - 1] == '+' <==> !HasUpper(intervals, i + 1))
    ensures HasUpper(intervals, i + 1) ==>
      EndsWith(RowText(BandAt(intervals, colors, i)), RangeSep + IntToString(intervals[i + 1]) + RangeEnd)
  {
  }

  /** The band table of the legend as rendered on the map. */
  lemma LegendBandTable()
    ensures Bands(Intervals, Colors) == [
      Band("green", -10, Some(10)),
      Band("#cafc03", 10, Some(30)),
      Band("#fcad03", 30, Some(50)),
      Band("#fc8403", 50, Some(70)),
      Band("#fc4903", 70, Some(90)),
      Band("red", 90, None)]
  {
  }

  /** How the legend's bounds are rendered. */
  lemma LegendNumerals()
    ensures IntToString(-10) == "-10" && IntToString(10) == "10" && IntToString(30) == "30"
    ensures IntToString(50) == "50" && IntToString(70) == "70" && IntToString(90) == "90"
  {
  }

  /** Rows 0 to 4 show a closed range up to the next bound; only the last row is open-ended with "+". */
  lemma LegendRowShapes(i: nat)
    requires i < |Intervals|
    ensures i < 5 ==> (RowText(Bands(Intervals, Colors)[i]) ==
      Swatch(Colors[i]) + (IntToString(Intervals[i]) + (RangeSep + IntToString(Intervals[i + 1]) + RangeEnd)))
    ensures i == 5 ==> RowText(Bands(Intervals, Colors)[i]) == Swatch(Colors[i]) + (IntToString(Intervals[i]) + OpenEnd)
  {
  }

  /** A depth lies in a band: above its lower bound, and at or below its upper bound if any. */
  predicate InBand(b: Band, d: real) {
    (b.lower as real) < d && (b.upper.Some? ==> d <= b.upper.value as real)
  }

  /** Each band of the legend's table is coloured with that band's colour by the ladder. */
  lemma BandColorsMatchMarkers(d: real)
    ensures forall i :: 0 <= i < |Intervals| && InBand(Bands(Intervals, Colors)[i], d) ==>
      Styling.DataColor(d) == Bands(Intervals, Colors)[i].color
  {
  }

  /** The page's legend can be read back into its band table. */
  lemma LegendReadsBack()
    ensures ReadLegend(LegendHtml(Intervals, Colors)) == Some(Bands(Intervals, Colors))
  {
    ColorsQuoteFree();
    LegendRoundTrip(Intervals, Colors);
  }

  lemma ColorsQuoteFree()
    ensures forall i :: 0 <= i < |Colors| ==> QuoteFree(Colors[i])
  {
  }

  /** Every band the legend's HTML advertises is coloured with that band's colour by the ladder. */
  lemma LegendMatchesMarkers(d: real)
    ensures ReadLegend(LegendHtml(Intervals, Colors)) == Some(Bands(Intervals, Colors))
    ensures forall i :: 0 <= i < |Intervals| && InBand(Bands(Intervals, Colors)[i], d) ==>
      Styling.DataColor(d) == Bands(Intervals, Colors)[i].color
  {
    LegendReadsBack();
    BandColorsMatchMarkers(d);
  }

  /** Above the lowest advertised bound, each depth lies in exactly one band. */
  lemma BandsPartitionDepths(d: real)
    requires d > -10.0
    ensures exists i :: 0 <= i < |Intervals| && InBand(Bands(Intervals, Colors)[i], d)
    ensures forall i, j ::
      (0 <= i < |Intervals| && 0 <= j < |Intervals|
       && InBand(Bands(Intervals, Colors)[i], d) && InBand(Bands(Intervals, Colors)[j], d)) ==> i == j
  {
    LegendBandTable();
    var bs := Bands(Intervals, Colors);
    var i := Styling.Rank(d);
    Styling.DataColorByRank(d);
    Styling.DataColorBands(d);
    assert InBand(bs[i], d);
  }

  /** Depths at or below -10 km fall in no advertised band, yet are still drawn in the lowest band's colour. */
  lemma DepthsBelowLegend(d: real)
    requires d <= -10.0
    ensures forall i :: 0 <= i < |Intervals| ==> !InBand(Bands(Intervals, Colors)[i], d)
    ensures Styling.DataColor(d) == Bands(Intervals, Colors)[0].color
  {
  }

  /** The legend lists the ladder's colours in order, and its bounds above the first are the ladder's thresholds. */
  lemma LegendFollowsLadder()
    ensures Colors == Styling.Ladder
    ensures |Intervals| == |Styling.Thresholds| + 1
    ensures forall k :: 0 <= k < |Styling.Thresholds| ==> Intervals[k + 1] as real == Styling.Thresholds[k]
  {
  }
}
