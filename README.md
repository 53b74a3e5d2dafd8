# Earthquake map styling and legend, in Dafny

The web map plots the week's earthquakes from the USGS feed over a choice of
basemaps, together with tectonic plate boundaries. Almost all of `logic.js`
is configuration for the mapping library. The part with behaviour of its own
is modelled here:

- **Marker styling** (`styling.dfy`, module `Styling`).
  - `DataColor` colours a marker by depth. It is a six-step ladder, tested from the deepest band down with strict `>`.
  - `RadiusSize` scales magnitude by 5. A magnitude of exactly 0 gets radius 1 so that it stays visible.
  - `DataStyle` builds the path options record: fill colour and radius from the two functions above, every other field constant.
  - An earthquake is a `Feature` with named fields. `depth` is GeoJSON `geometry.coordinates[2]`, `mag` is `properties.mag`.
- **Legend** (`legend.dfy`, module `Legend`).
  - `OnAdd` is `legend.onAdd`. Its `while` loop runs over the parallel `intervals` and `colors` arrays and appends one HTML row per band to a string that stands for the legend `div`'s `innerHTML`. That string starts empty.
  - `OnAdd` is proved equal to the specification function `LegendHtml`.
  - `ReadLegend` is a reader for legend HTML. It is proved to recover exactly the band table the legend was built from.
  - The JavaScript test `intervals[i+1] ? … : "+"` is modelled as `HasUpper`: the index is in range and the value is not 0.
  - A `colors[i]` past the end of the array reads as `undefined` in JavaScript (`ColorAt`).
- **Numerals** (`numerals.dfy`, module `Numerals`). This is plain decimal rendering of integers. For integers of magnitude below 10^21, which includes all six legend bounds, it is what JavaScript writes when the number is concatenated to a string. It comes with a parser, and the two are proved to round-trip.

The main theorem is `Legend.LegendMatchesMarkers`. The legend's HTML reads back as six bands. For every depth inside an advertised band `(lower, upper]`, `DataColor` gives that band's colour. For the open top band `(90, ∞)` it gives `red`.

Two more facts about the legend's coverage:

- `BandsPartitionDepths`: above -10 km, each depth lies in exactly one band.
- `DepthsBelowLegend`: a depth of -10 km or less lies in no advertised band, yet it is still drawn green, the colour of the lowest band.

Depth and magnitude are Dafny `real`s. The depth comparisons against the integer thresholds are exact in floating point too, so the colour ladder is modelled exactly. The radius `mag * 5` is computed exactly here, whereas the program rounds it to a double (see "## Left out").

## Model

| member | source | states |
|---|---|---|
| `Styling.DataColor` | logic.js:83-99 | the colour is always one of the six ladder colours |
| `Styling.LadderDistinct` | logic.js:86-97 | the six colours are pairwise distinct, so a colour names exactly one band |
| `Styling.DataColorBands` | logic.js:86-97 | each colour is returned if and only if the depth is in its band; lower bounds are exclusive (depth 90 is `#fc4903`, anything above 90 is `red`, 10 and below, negatives included, is `green`) |
| `Styling.Rank` | logic.js:86-97 | the band index (count of thresholds strictly exceeded) is below six |
| `Styling.DataColorByRank` | logic.js:86-97 | the top-down ladder, first match winning, agrees with the independent threshold count |
| `Styling.ExceededMonotone` | logic.js:86-97 | the number of thresholds exceeded never decreases as depth grows |
| `Styling.DataColorMonotone` | logic.js:86-97 | if `d1 <= d2`, the band of `d1` is at most the band of `d2` |
| `Styling.RadiusSize` | logic.js:102-107 | the radius is never 0 |
| `Styling.RadiusSizeScale` | logic.js:102-107 | magnitude 0 gives radius 1; any other magnitude is recovered as radius / 5 |
| `Styling.RadiusSizeSign` | logic.js:102-107 | the radius is positive exactly for non-negative magnitudes; negative magnitudes pass through unclamped |
| `Styling.RadiusSizeCollisions` | logic.js:102-107 | two magnitudes share a radius iff they are equal or are 0 and 0.2 |
| `Styling.DataStyle` | logic.js:110-120 | fill colour is the depth colour, radius is the magnitude radius; opacity 5, fill opacity 0.5, colour "000000", weight 0.5, stroke on |
| `Styling.DataStyleDependsOnDepthAndMagnitude` | logic.js:110-120 | two features get the same style iff their colours and radii agree; equal depth and magnitude give equal styles |
| `Styling.DataStyleExamples` | logic.js:110-120 | magnitude 0 at 5 km is green with radius 1; 6.1 at 95 km is red with radius 30.5; 4.0 at 90 km is `#fc4903` with radius 20 |
| `Numerals.NatToString` | logic.js:177-178 | decimal digits only, never empty, no leading zero |
| `Numerals.IntToString` | logic.js:177-178 | a numeral that starts with '-' exactly for negative values |
| `Numerals.NatRoundTrip` | logic.js:177-178 | parsing the digits of `n` gives `n` |
| `Numerals.IntRoundTrip` | logic.js:177-178 | parsing the rendering of any integer gives it back |
| `Numerals.IntToStringInjective` | logic.js:177-178 | distinct bounds are rendered as distinct labels |
| `Legend.ColorAt` | logic.js:175 | definition of `colors[i]`, "undefined" past the end; pinned by `RenderStep` and `LegendRoundTrip` |
| `Legend.HasUpper` | logic.js:178 | definition of the truthiness of `intervals[i+1]` (in range and not 0); pinned by `LabelEnding` |
| `Legend.Swatch` | logic.js:174-176 | definition of the coloured square at the start of a row; pinned by `ReadSwatchOf` |
| `Legend.Suffix` | logic.js:178 | definition of the two label endings; pinned by `ReadSuffixOf` and `LabelEnding` |
| `Legend.RowText` | logic.js:174-178 | definition of one row's text; pinned by `RenderStep`, `ReadRowOf` and `LegendRowShapes` |
| `Legend.LegendHtml` | logic.js:171-179 | definition of `innerHTML` after the loop; pinned by `OnAdd` and `LegendRoundTrip` |
| `Legend.RenderSnoc` | logic.js:174-178 | appending a row to the rendered prefix is appending that row's text |
| `Legend.RenderStep` | logic.js:174-178 | the row expression of the loop body extends the HTML built so far by band `i` |
| `Legend.OnAdd` | logic.js:160-182 | the loop leaves the legend HTML, and reading that HTML back gives the six-band table: one band per interval, band `i` with colour `colors[i]`, lower bound `intervals[i]`, and upper bound `intervals[i+1]` exactly when that value is truthy |
| `Legend.IndexOf` | logic.js:174-176 | position of the first quote ending the swatch colour |
| `Legend.NumeralLength` | logic.js:177-178 | length of the leading numeral of a label |
| `Legend.ReadIntOf` | logic.js:177-178 | a rendered bound followed by a non-numeral reads back as that bound |
| `Legend.NumeralLengthOf` | logic.js:177-178 | a rendered bound ends where the next non-numeral character starts |
| `Legend.IndexOfAfter` | logic.js:174-176 | a quote-free colour ends at the first quote |
| `Legend.ReadSwatchOf` | logic.js:174-176 | a swatch reads back as its colour when the colour holds no quote |
| `Legend.ReadSuffixOf` | logic.js:178 | both label endings, "km - Nkm<br>" and "+", followed by any text, read back as the upper bound or its absence |
| `Legend.ReadRowOf` | logic.js:174-178 | one legend row, followed by any text, reads back as its band and leaves that text unread |
| `Legend.ReadLegendCons` | logic.js:174-178 | reading a row then the rest of the legend gives that band before the rest |
| `Legend.ReadRender` | logic.js:171-179 | any sequence of rows with quote-free colours reads back as exactly its bands |
| `Legend.LegendRoundTrip` | logic.js:165-179 | for any interval and colour arrays with quote-free colours, the built legend reads back as its band table: one band per interval, band `i` with colour `colors[i]` (or "undefined"), lower bound `intervals[i]`, and upper bound `intervals[i+1]` exactly when that value is truthy |
| `Legend.LabelEnding` | logic.js:178 | row `i` ends in "+" iff `intervals[i+1]` is out of range or 0; otherwise it ends in "km - " + next bound + "km<br>" |
| `Legend.LegendBandTable` | logic.js:165-178 | the legend's six bands: -10 to 10 green, 10 to 30 `#cafc03`, 30 to 50 `#fcad03`, 50 to 70 `#fc8403`, 70 to 90 `#fc4903`, 90 and up red |
| `Legend.LegendNumerals` | logic.js:165 | the bounds are rendered "-10", "10", "30", "50", "70", "90" |
| `Legend.LegendRowShapes` | logic.js:174-178 | rows 0 to 4 end with a closed range up to the next bound; only row 5 ends in "+" |
| `Legend.ColorsQuoteFree` | logic.js:167 | no legend colour contains a quote |
| `Legend.LegendReadsBack` | logic.js:165-179 | the page's legend reads back as its six-band table |
| `Legend.BandColorsMatchMarkers` | logic.js:86-167 | a depth in band `i` of the legend is given band `i`'s colour by the marker ladder |
| `Legend.LegendMatchesMarkers` | logic.js:86-179 | every band read from the legend's HTML is coloured with that band's colour by the marker ladder |
| `Legend.BandsPartitionDepths` | logic.js:86-167 | every depth above -10 km lies in exactly one legend band |
| `Legend.DepthsBelowLegend` | logic.js:86-167 | a depth of -10 km or less lies in no band but is drawn in the lowest band's colour |
| `Legend.LegendFollowsLadder` | logic.js:86-167 | the legend's colours are the ladder's colours in order, and its bounds above the first are the ladder's thresholds |

## Left out

- Basemap tile layers, their dictionary, and the map object (logic.js:1-45): static configuration handed to Leaflet.
- The two `d3.json` fetches and their `.then` callbacks (logic.js:53-64, 75-139): network I/O and asynchronous completion.
- `L.geoJson`, `pointToLayer`/`L.circleMarker`, layer groups, `addTo` and the layer control (logic.js:59-63, 122-152, 185): calls into the mapping library, whose behaviour cannot be seen here.
- Popup binding (logic.js:130-134): a DOM call, plus rendering of arbitrary real numbers as text.
- `L.DomUtil.create` and the real DOM (logic.js:162): only the string built by plain concatenation is modelled, starting empty as a fresh `div` does.
- The browser's re-serialisation of `innerHTML`: each `+=` reads `innerHTML` back before appending, and the browser returns it normalised (for example `style="background:green"` with double quotes). From row 1 on, the real DOM text therefore differs from the model's raw concatenation, and `ReadLegend` reads the raw concatenation, not the DOM's text.
- Numerals.IntToString: matches JavaScript's number-to-string only for integers of magnitude below 10^21 (JavaScript uses exponent form above that, and cannot represent every integer above 2^53). `LegendHtml` and the round-trip lemmas are stated for arbitrary integer arrays and so describe text the program would not produce for such bounds; the program's own bounds are all small.
- Styling.RadiusSizeCollisions: the model computes `mag * 5` exactly, while the program rounds the product to a double. "Only 0 and 0.2 collide" is a fact about the model; in the program, neighbouring doubles can share a rounded radius.
- Styling.RadiusSizeScale: for the same reason, "recovered as radius / 5" holds for the exact product of the model, not for the program's rounded one.
- Malformed features with a missing magnitude or missing coordinates: the code has no handling for them. A `Feature` always has all its fields.
- How Leaflet and the browser interpret the style's `opacity: 5` and outline colour `"000000"` (written without `#`): both values are kept exactly as written.
- The legend loop runs over the two constant arrays written in `onAdd`, as the source does. `LegendHtml` and the round-trip lemmas are stated for arbitrary arrays.
