# scorescan, modelled in Dafny

scorescan reads hand-filled score sheets of FIRST Tech Challenge matches. Each
sheet carries a QR code.

The C++ scanner (`src/scorescan.cpp`) works in these steps:

- It finds each QR code in a photograph.
- It warps the picture roughly onto the page template, using the QR code.
- It looks for the largest quadrilateral that could be the paper's edge.
- It warps again so that this edge fills the page.
- It prints, for every shape of the SVG template, the fraction of the shape
  that is inked.

The two Python scripts (`src/parseRelicRecovery.py`, `src/parseRoverRuckus.py`)
read one JSON record of those fill ratios per line. They turn it into one
comma-separated result line for the season's game.

The model has eight modules:

- `Outcomes`: the Option and Result types. `Result` works with `:-`.
- `Geometry`: points and rectangles. It also defines `CornerOrder`, the
  order "top-left, top-right, bottom-right, bottom-left" that both
  homographies rely on.
- `CornerSort`: `sortPointsCW`, as three sorts in place on an `array`. They
  are specified by what `std::sort` promises: sorted by the comparator,
  a permutation of the range, and nothing else touched. That sort is
  unstable, so the contracts do not fix the order of equal keys.
- `PageFinder`: the contour-selection loop of `tryFindPage`. The loop is
  proved against a function that names the chosen contour. One lemma shows
  that breaking at the first quadrilateral loses nothing when the contours
  come sorted by area.
- `MarkScorer`: the fill ratio of one shape on the binarised page, main's
  loop over the shapes, and main's loop over the scanned symbols.
- `SheetParser`: `parseOption`, `parseOptionOrDefault`,
  `parseNumberOrDefault`, `parseVector`. It also holds Python's `int()` and
  `str()` on the values involved, and the comma join of the output lines.
  Both scripts define these functions identically; the table cites the copy
  in `parseRelicRecovery.py`.
- `RelicRecovery`: the cryptobox counts, the relic zones, and the
  sixteen-column result record.
- `RoverRuckus`: the twenty-one-column result record. Its dictionary
  literal is a table of columns that are read left to right.

Images, OpenCV and zbar do not appear. Where the code calls them, the model
takes their results as inputs:

- the contours with their approximations and areas;
- the binarised page as a sequence of bytes;
- every shape's filled mask as a sequence of booleans;
- the scanned symbols.

An exception of a script is an `Err` value of `SheetParser.Error`:

- `EmptyGroup`: `max()` of an empty group;
- `MissingKey`: `KeyError`;
- `NotAnInteger`: `int()` of a non-number.

When several could occur, the model gives the first one in Python's order of
evaluation.

## Model

| member | source | states |
|---|---|---|
| Geometry.RectCorners | src/scorescan.cpp:26-34 | Four corners from the top-left one. For non-negative sides they are in corner order. For positive sides no two coincide. |
| Geometry.RectFromCorners | src/scorescan.cpp:36-39 | The rectangle's first corner is the bounds' minimum and its third corner the bounds' maximum. For well-formed bounds its corners are in corner order. |
| Geometry.RectFromCornersRoundTrip | src/scorescan.cpp:26-39 | Bounds to rectangle to corners gives exactly the four corners of the bounding box. |
| Geometry.Truncate | src/scorescan.cpp:147 | `static_cast<int>` truncates toward zero: the floor for non-negative values, the ceiling for negative ones. |
| Geometry.PageSizeFromBounds | src/scorescan.cpp:145-148 | The page size is the truncated maximum x and y of the `page` shape's bounds, within one unit below each. |
| Geometry.RectCornerOrderUnique | src/scorescan.cpp:19-34 | For a rectangle with positive sides, the only arrangement of its four corners that is in corner order is `RectCorners`. So for template rectangles, corner order fixes which corner is which. |
| CornerSort.SortRange | src/scorescan.cpp:21-23 | One `std::sort` call on a sub-range: afterwards sorted by the comparator's key, a permutation of the old sub-range, and the rest of the array unchanged. |
| CornerSort.ThreePasses | src/scorescan.cpp:19-24 | The three sorts together: a permutation of the input. Both top points lie no lower than both bottom points. The top pair runs left to right and the bottom pair right to left. |
| CornerSort.SortPointsCW | src/scorescan.cpp:19-24 | `sortPointsCW` permutes the points. The two first are the upper ones, ordered left to right. The rest run right to left. Four points end in corner order. |
| PageFinder.TooSmallThreshold | src/scorescan.cpp:102-103 | With a positive page area, the rejection test holds exactly when the contour area is below 0.35 of the page area. The area is divided by 0.7 once. |
| PageFinder.TooSmallMonotone | src/scorescan.cpp:102-105 | A contour no larger than a rejected one is rejected as well, for every page area. |
| PageFinder.FirstQuad | src/scorescan.cpp:91-96 | The first contour whose approximation has four vertices, or none when no contour has four. |
| PageFinder.PageChoice | src/scorescan.cpp:91-118 | The accepted contour is the first quadrilateral and is not too small. There is no result exactly when that first quadrilateral, if any, is too small. |
| PageFinder.OrderCorners | src/scorescan.cpp:98-100 | `sortPointsCW` on a four-vertex approximation, then conversion to float corners, gives the same four points in corner order. |
| PageFinder.TryFindPage | src/scorescan.cpp:91-118 | The loop succeeds exactly when `PageChoice` names a contour. It then returns that contour's four vertices, permuted into corner order. Otherwise it returns no corners. |
| PageFinder.BreakLosesNothing | src/scorescan.cpp:88-105 | For contours sorted by decreasing area, failing at the first quadrilateral (the `break`) happens exactly when every quadrilateral is too small. |
| PageFinder.ChosenIsLargestQuad | src/scorescan.cpp:88-114 | For contours sorted by decreasing area, the accepted contour has the largest area among all quadrilaterals. |
| MarkScorer.MaskCount | src/scorescan.cpp:231-232 | The mask selects at most as many pixels as it has. |
| MarkScorer.MaskedSum | src/scorescan.cpp:240 | The sum under the mask is at most 255 per selected pixel. |
| MarkScorer.InkCount | src/scorescan.cpp:224-240 | No more ink pixels than selected pixels. |
| MarkScorer.FillRatio | src/scorescan.cpp:240 | `cv::mean` under the mask divided by 255, and 0 for an empty mask. It always lies in [0, 1]. |
| MarkScorer.BinaryFillRatio | src/scorescan.cpp:224-240 | On the Otsu-binarised page, the fill ratio is the share of the shape's pixels that are ink. |
| MarkScorer.HalfInkScoresHalf | src/scorescan.cpp:224-240 | A shape whose pixels are half ink scores exactly 0.5. |
| MarkScorer.FillRatioMonotone | src/scorescan.cpp:240 | A page inked at least as much pixel by pixel scores at least as high under the same mask. |
| MarkScorer.FillRatioExtremes | src/scorescan.cpp:240 | The score is 1 if and only if the mask is non-empty and fully inked. It is 0 if and only if the mask is empty or holds no ink. |
| MarkScorer.ScoresOf | src/scorescan.cpp:229-251 | One score per shape, in shape order, with the shape's id and a fill in [0, 1]. |
| MarkScorer.ScoreShapes | src/scorescan.cpp:229-251 | The loop computes `ScoresOf`. The shapes it outlines are those whose fill exceeds 0.3, in increasing order. |
| MarkScorer.CountQr | src/scorescan.cpp:203-216 | The QR count is at most the number of symbols. |
| MarkScorer.Records | src/scorescan.cpp:204-257 | Every score record has one score per shape. |
| MarkScorer.Found | src/scorescan.cpp:204-221 | The positions of the QR symbols whose page is found, in increasing order, and every such position. |
| MarkScorer.RecordsOfFound | src/scorescan.cpp:204-257 | The records are, one for one and in scanner order, the score records of the pages of the QR symbols whose page is found. |
| MarkScorer.RecordsAtMostQr | src/scorescan.cpp:203-257 | There are never more score records than QR codes. |
| MarkScorer.ScanSymbols | src/scorescan.cpp:203-259 | The symbol loop counts exactly the QR symbols and produces exactly `Records`. |
| SheetParser.BestInGroup | src/parseRelicRecovery.py:9-10 | There is no result exactly when no mark id starts with `key.`. Otherwise the result is a largest mark of the group, and the first largest, as Python's `max` returns. |
| SheetParser.ParseOption | src/parseRelicRecovery.py:8-12 | It raises `EmptyGroup` exactly when the group has no mark. It gives an option exactly when some mark of the group exceeds 0.3. That option is the id suffix of the first most-filled mark. |
| SheetParser.OptionOrDefault | src/parseRelicRecovery.py:14-16 | It raises exactly as `ParseOption` does. It gives the default when nothing is filled above 0.3, and otherwise the chosen option as text. |
| SheetParser.ChosenDigits | src/parseRelicRecovery.py:18-23 | It raises exactly when some digit group has no mark. It yields at most one digit per group. It yields no digit exactly when no group is marked. |
| SheetParser.AppendChoice | src/parseRelicRecovery.py:20-23 | One loop iteration keeps an earlier exception. It raises `EmptyGroup` for a group without marks. It adds nothing for a present but unmarked group. For a marked group it appends the id suffix of the first most-filled mark. |
| SheetParser.ParseOptionChooses | src/parseRelicRecovery.py:8-12 | For a marked group, `parseOption` returns `FirstMaxOption`: the suffix after `key.` of the first most-filled mark. |
| SheetParser.ChosenDigitsSelected | src/parseRelicRecovery.py:18-23 | With every digit group present, the collected digits are exactly the `FirstMaxOption` of each marked group, in key order, with unmarked groups skipped. |
| SheetParser.NumberFromSelected | src/parseRelicRecovery.py:18-24 | With every digit group present and the chosen options single digits, the result is the integer those digits spell in key order. |
| SheetParser.NumberOrDefault | src/parseRelicRecovery.py:18-24 | The result is the default when every group is present and unmarked. When it succeeds and some group is marked, it is an integer. It is an error when some group is missing. With every group present, the only possible error is `NotAnInteger`. |
| SheetParser.NumberOfSelected | src/parseRelicRecovery.py:18-24 | With every group present and some group marked, the call raises `NotAnInteger` of the joined options exactly when they are not an integer literal, and otherwise gives their value as an integer. |
| SheetParser.ChosenDigitsErrorPersists | src/parseRelicRecovery.py:20-23 | An exception raised on a prefix of the digit groups is the exception of the whole loop. |
| SheetParser.ParseNumberOrDefault | src/parseRelicRecovery.py:18-24 | The appending loop followed by `int(''.join(digits))` computes `NumberOrDefault`. |
| SheetParser.ConcatSingleDigits | src/parseRelicRecovery.py:24 | Joining one-digit options gives a digit string whose value is those digits read left to right. |
| SheetParser.NumberFromDigits | src/parseRelicRecovery.py:18-24 | When the chosen options are single digits, the number is those digits read in key order. |
| SheetParser.UnmarkedDigitSkipped | src/parseRelicRecovery.py:20-24 | A present but unmarked digit group is dropped, not read as 0. |
| SheetParser.Lookup | src/parseRelicRecovery.py:27 | `data[k]` is absent exactly when no entry has that id, and is otherwise the value of such an entry. |
| SheetParser.ParseVector | src/parseRelicRecovery.py:26-27 | It raises exactly when some key is absent. Otherwise it gives one flag per key, in order, true exactly when that mark exceeds 0.3. |
| SheetParser.ParseInt | src/parseRelicRecovery.py:44 | `int()` succeeds exactly on an optional sign followed by at least one digit. Its value is the digits' decimal value, negated after a minus sign. Every failure is `NotAnInteger` of that string. |
| SheetParser.NatToString | src/parseRelicRecovery.py:38 | `str()` of a natural number is a non-empty digit string without a leading zero. |
| SheetParser.ParseShowsInt | src/parseRelicRecovery.py:70 | `int()` undoes `str()` on every integer. |
| SheetParser.IntHasNoComma | src/parseRelicRecovery.py:70 | A printed integer never contains a comma. |
| SheetParser.SplitJoin | src/parseRelicRecovery.py:69-70 | Splitting a comma-joined line at its commas gives back the fields, when no field holds a comma. |
| SheetParser.CsvColumnsAlign | src/parseRelicRecovery.py:69-70 | The header line and the data line split into as many columns as the record has, column i being key i and value i. |
| RelicRecovery.CountGlyphs | src/parseRelicRecovery.py:35-36 | At most one glyph per cell, and every cell counted exactly when all are filled. |
| RelicRecovery.RowCells | src/parseRelicRecovery.py:29-30 | A row counts (`countRows`) exactly when its three cells are filled. |
| RelicRecovery.ColumnCells | src/parseRelicRecovery.py:32-33 | A column counts (`countColumns`) exactly when its four cells are filled. |
| RelicRecovery.CountBounds | src/parseRelicRecovery.py:29-36 | At most 4 rows, 3 columns and 12 glyphs per cryptobox. |
| RelicRecovery.RowsNeedGlyphs | src/parseRelicRecovery.py:29-36 | Every complete row holds three glyphs: glyphs are at least three times the rows. |
| RelicRecovery.ColumnsNeedGlyphs | src/parseRelicRecovery.py:32-36 | Every complete column holds four glyphs: glyphs are at least four times the columns. |
| RelicRecovery.FullBox | src/parseRelicRecovery.py:29-36 | 4 rows, 3 columns and 12 glyphs each hold exactly when the cryptobox is full. |
| RelicRecovery.BoxIdsNumbered | src/parseRelicRecovery.py:38-39 | Each of the twelve ids lies in the cryptobox group, its suffix reads as its position 1 to 12, and no two ids are equal. |
| RelicRecovery.RelicZones | src/parseRelicRecovery.py:63-65 | The three zone counts together count each relic whose position is 1, 2 or 3 once. |
| RelicRecovery.ZonesAtMostTwo | src/parseRelicRecovery.py:63-65 | At most two relics are counted across the zones. |
| RelicRecovery.IntOption | src/parseRelicRecovery.py:55 | 0 for a present but unmarked group, `EmptyGroup` for a missing one. For a marked group, `int()` of the id suffix of the first most-filled mark. |
| RelicRecovery.Results | src/parseRelicRecovery.py:41-67 | It raises exactly when one of the sixteen reads raises. A missing relic1 group raises first. A missing cryptobox cell raises. Otherwise, rows, columns and glyphs are the two boxes' counts added. The zones count the two relic positions. Match and team are `parseNumberOrDefault` of their digit groups. Color and autoglyphs are read by `parseOptionOrDefault`. Every other column is `int()` of its group's option, and cipher and standingRelics are sums of two. Also rows ≤ 8, columns ≤ 6, glyphs ≤ 24, glyphs ≥ 3·rows and ≥ 4·columns, and at most two relics in the zones. |
| RelicRecovery.Row | src/parseRelicRecovery.py:50-67 | The dictionary's keys in their order: the sixteen headers. |
| RelicRecovery.HeaderColumns | src/parseRelicRecovery.py:69 | The header line splits back into the sixteen header names. |
| RelicRecovery.DataColumns | src/parseRelicRecovery.py:70 | The data line has sixteen columns, when no option read as text holds a comma. |
| RoverRuckus.Read | src/parseRoverRuckus.py:34-53 | Each column is read by `parseOptionOrDefault` or `parseNumberOrDefault` and keeps that function's promise. For a number column whose groups are all present and whose chosen options are single digits, that is the integer those digits spell left to right. |
| RoverRuckus.ReadFields | src/parseRoverRuckus.py:32-54 | The columns, read left to right, fail exactly when some column's read fails. Otherwise each column has its name and keeps its reader's promise. |
| RoverRuckus.Results | src/parseRoverRuckus.py:29-54 | A record without `qr_data` raises `KeyError` first. Otherwise it raises exactly when some column does. The record has the twenty-one headers in order. Competition is the QR text. Every other column keeps its reader's promise. So match, team, lander and depot, when all their digit groups are present and the chosen options are single digits, hold the number those digits spell. |
| RoverRuckus.HeadersName | src/parseRoverRuckus.py:32-56 | The header list is "competition" followed by the columns' names. |
| RoverRuckus.UnmarkedMatchTypeIsQual | src/parseRoverRuckus.py:36 | A sheet whose match-type group is blank is recorded as a qualification match ("Qual"). |
| RoverRuckus.CompetitionNeedsQr | src/parseRoverRuckus.py:33 | A line exists only for a sheet whose QR text was read, and its competition column is that text. |
| RoverRuckus.LineColumns | src/parseRoverRuckus.py:56-57 | The header line splits back into the twenty-one names. The data line has one column per header when no value holds a comma. |

## Left out

- Image work is not modelled: reading the image, thresholding, Gaussian blur, Canny edges, contour
  extraction, `approxPolyDP`, `contourArea`, `drawContours`, both homographies (`getPerspectiveTransform`,
  `getRotationMatrix2D`, `warpPerspective`) and Otsu binarisation are OpenCV calls. Their results are inputs.
- The barcode scanner (zbar) is not modelled. Symbols are inputs. The `assert` that a QR symbol has four
  location points, and the order in which main lists them, are left out. Main passes the QR corners
  unsorted.
- SVG loading (nanosvg) is modelled only as far as `page` and `qr` bounds go (`PageSizeFromBounds`,
  `RectFromCorners`). Flattening path points into shapes is left out; shapes enter as masks.
- `CornerSort.SortPointsCW` of an image quadrilateral with two corners of equal y, such as a tilted
  square, can admit two arrangements in corner order. Which one `std::sort` returns depends on its
  tie-breaking. The model proves only that the result is some arrangement in corner order.
- The area sort of the contours (`src/scorescan.cpp:88-89`) is an input order. `BreakLosesNothing` and
  `ChosenIsLargestQuad` assume its result.
- All printing, window display, file appends and stdin reading are left out. The header line is written
  only when the output file is new; this depends on the file system.
- Floating point: `float` and `double` values are exact reals. Rounding in the division by 0.7, in
  `cv::mean` and in the JSON numbers is not modelled. A zero page area follows IEEE: the rejection test
  is false, so the contour is accepted.
- The rejection test divides the contour area by the zoom factor 0.7 once. A zoom of 0.7 on lengths
  scales areas by 0.49, but the code divides by 0.7, so the threshold is 0.35 of the page area. The
  model follows the code and records the threshold in `PageFinder.TooSmallThreshold`.
- Main scores every template shape, the `page` and `qr` shapes included, although only marks are meant
  to be scored. The model follows the code.
- The dilated mask main builds (`src/scorescan.cpp:234-238`) is never read. It is not modelled.
- `SheetParser.ParseInt` accepts an optional sign and ASCII digits only. Python's `int()` also
  accepts surrounding whitespace, underscores between digits and non-ASCII digits; no mark id of the
  templates produces those.
- `RelicRecovery.Results` compares relic positions with `==`, where the script uses `is`. They agree for
  the small integers involved in CPython.
- A JSON record is modelled as its numeric entries plus an optional `qr_data` string. Other non-numeric
  entries, and duplicate keys (JSON keeps the last one), are left out.
- `RelicRecovery.Results` states exactly when it raises, but names the exception only for a missing
  relic1 group. Which exception comes first follows the script's evaluation order in the body, and the
  contract does not list it case by case.
