/** Mark scoring in scorescan.cpp's main: for every template shape, the mean
    of the Otsu-binarised rectified page under the shape's filled mask, divided
    by 255, and the loop over detected QR symbols that drives it. Rasterising a
    shape (drawContours), warping and thresholding are OpenCV calls; their
    results enter the model as flat pixel sequences of equal length. */
module MarkScorer {
  import opened PageFinder

  /** An 8-bit grey value. */
  type Byte = v: int | 0 <= v < 256

  /** The value THRESH_BINARY_INV gives foreground ("ink") pixels. */
  const Ink: Byte := 255

  /** A shape is outlined on the preview when its fill ratio exceeds this. */
  const HighlightThreshold: real := 0.3

  /** The number of pixels the mask selects. */
  function MaskCount(mask: seq<bool>): (n: nat)
    ensures n <= |mask|
  {
    if mask == [] then 0 else (if mask[0] then 1 else 0) + MaskCount(mask[1..])
  }

  /** The sum of the pixel values the mask selects; at most 255 per selected
      pixel. */
  function MaskedSum(page: seq<Byte>, mask: seq<bool>): (s: nat)
    requires |page| == |mask|
    ensures s <= 255 * MaskCount(mask)
  {
    if page == [] then 0
    else (if mask[0] then page[0] else 0) + MaskedSum(page[1..], mask[1..])
  }

  /** The number of ink pixels the mask selects. */
  function InkCount(page: seq<Byte>, mask: seq<bool>): (n: nat)
    requires |page| == |mask|
    ensures n <= MaskCount(mask)
  {
    if page == [] then 0
    else (if mask[0] && page[0] == Ink then 1 else 0) + InkCount(page[1..], mask[1..])
  }

  /** `cv::mean(thresholded, mask).val[0] / 255.0`; cv::mean yields 0 for an
      empty mask. The ratio always lies in [0, 1]. */
  function FillRatio(page: seq<Byte>, mask: seq<bool>): (r: real)
    requires |page| == |mask|
    ensures 0.0 <= r <= 1.0
  {
    var n := MaskCount(mask);
    if n == 0 then 0.0
    else
      var mean := MaskedSum(page, mask) as real / n as real;
      RatioBounds(MaskedSum(page, mask) as real, n as real);
      mean / 255.0
  }

  /** Arithmetic of the ratio (s / n) / 255 for a sum s of n bytes. */
  lemma RatioBounds(s: real, n: real)
    requires n > 0.0 && 0.0 <= s <= 255.0 * n
    ensures 0.0 <= s / n / 255.0 <= 1.0
    ensures s / n / 255.0 == 1.0 <==> s == 255.0 * n
    ensures s / n / 255.0 == 0.0 <==> s == 0.0
  {
  }

  lemma RatioMonotone(a: real, b: real, n: real)
    requires n > 0.0 && a <= b
    ensures a / n / 255.0 <= b / n / 255.0
  {
  }

  lemma HalfShare(k: real, n: real)
    requires n > 0.0 && 2.0 * k == n
    ensures k / n == 0.5
  {
  }

  lemma RatioOfBinary(k: real, n: real)
    requires n > 0.0
    ensures (255.0 * k) / n / 255.0 == k / n
  {
  }

  predicate Highlighted(fill: real) {
    fill > HighlightThreshold
  }

  /** Every pixel of the binarised page is background (0) or ink (255). */
  predicate IsBinary(page: seq<Byte>) {
    forall i :: 0 <= i < |page| ==> page[i] == 0 || page[i] == Ink
  }

  lemma {:induction false} BinarySum(page: seq<Byte>, mask: seq<bool>)
    requires |page| == |mask| && IsBinary(page)
    ensures MaskedSum(page, mask) == 255 * InkCount(page, mask)
  {
    if page != [] {
      BinarySum(page[1..], mask[1..]);
    }
  }

  /** On a binary page the fill ratio is the share of the mask's pixels that
      are ink. */
  lemma BinaryFillRatio(page: seq<Byte>, mask: seq<bool>)
    requires |page| == |mask| && IsBinary(page)
    requires MaskCount(mask) > 0
    ensures FillRatio(page, mask) == InkCount(page, mask) as real / MaskCount(mask) as real
  {
    BinarySum(page, mask);
    var k := InkCount(page, mask) as real;
    var n := MaskCount(mask) as real;
    assert MaskedSum(page, mask) as real == 255.0 * k;
    RatioOfBinary(k, n);
  }

  /** A binary mark whose mask is exactly half ink scores one half. */
  lemma HalfInkScoresHalf(page: seq<Byte>, mask: seq<bool>)
    requires |page| == |mask| && IsBinary(page)
    requires MaskCount(mask) > 0 && 2 * InkCount(page, mask) == MaskCount(mask)
    ensures FillRatio(page, mask) == 0.5
  {
    BinaryFillRatio(page, mask);
    HalfShare(InkCount(page, mask) as real, MaskCount(mask) as real);
  }

  lemma {:induction false} SumMonotone(lighter: seq<Byte>, darker: seq<Byte>, mask: seq<bool>)
    requires |lighter| == |darker| == |mask|
    requires forall i :: 0 <= i < |mask| ==> lighter[i] <= darker[i]
    ensures MaskedSum(lighter, mask) <= MaskedSum(darker, mask)
  {
    if mask != [] {
      SumMonotone(lighter[1..], darker[1..], mask[1..]);
    }
  }

  /** More ink never lowers a score: a page that is pixelwise at least as
      inked scores at least as high under the same mask. */
  lemma FillRatioMonotone(lighter: seq<Byte>, darker: seq<Byte>, mask: seq<bool>)
    requires |lighter| == |darker| == |mask|
    requires forall i :: 0 <= i < |mask| ==> lighter[i] <= darker[i]
    ensures FillRatio(lighter, mask) <= FillRatio(darker, mask)
  {
    SumMonotone(lighter, darker, mask);
    if MaskCount(mask) > 0 {
      RatioMonotone(MaskedSum(lighter, mask) as real, MaskedSum(darker, mask) as real, MaskCount(mask) as real);
    }
  }

  /** Every pixel the mask selects is ink. */
  predicate AllInk(page: seq<Byte>, mask: seq<bool>)
    requires |page| == |mask|
  {
    forall i :: 0 <= i < |mask| && mask[i] ==> page[i] == Ink
  }

  /** No pixel the mask selects has any ink. */
  predicate NoInk(page: seq<Byte>, mask: seq<bool>)
    requires |page| == |mask|
  {
    forall i :: 0 <= i < |mask| && mask[i] ==> page[i] == 0
  }

  lemma {:induction false} FullSum(page: seq<Byte>, mask: seq<bool>)
    requires |page| == |mask|
    ensures MaskedSum(page, mask) == 255 * MaskCount(mask) <==> AllInk(page, mask)
  {
    if page != [] {
      FullSum(page[1..], mask[1..]);
      if AllInk(page[1..], mask[1..]) && (!mask[0] || page[0] == Ink) {
        forall i | 0 <= i < |mask| && mask[i] ensures page[i] == Ink {
          if i > 0 { assert mask[1..][i - 1] == mask[i]; }
        }
      }
      if AllInk(page, mask) {
        forall i | 0 <= i < |mask| - 1 && mask[1..][i] ensures page[1..][i] == Ink {
          assert mask[i + 1] == mask[1..][i];
        }
      }
    }
  }

  lemma {:induction false} ZeroSum(page: seq<Byte>, mask: seq<bool>)
    requires |page| == |mask|
    ensures MaskedSum(page, mask) == 0 <==> NoInk(page, mask)
  {
    if page != [] {
      ZeroSum(page[1..], mask[1..]);
      if NoInk(page[1..], mask[1..]) && (!mask[0] || page[0] == 0) {
        forall i | 0 <= i < |mask| && mask[i] ensures page[i] == 0 {
          if i > 0 { assert mask[1..][i - 1] == mask[i]; }
        }
      }
      if NoInk(page, mask) {
        forall i | 0 <= i < |mask| - 1 && mask[1..][i] ensures page[1..][i] == 0 {
          assert mask[i + 1] == mask[1..][i];
        }
      }
    }
  }

  /** A mark scores exactly 1 if and only if its mask is non-empty and fully
      inked, and exactly 0 if and only if its mask is empty or has no ink. */
  lemma FillRatioExtremes(page: seq<Byte>, mask: seq<bool>)
    requires |page| == |mask|
    ensures FillRatio(page, mask) == 1.0 <==> MaskCount(mask) > 0 && AllInk(page, mask)
    ensures FillRatio(page, mask) == 0.0 <==> MaskCount(mask) == 0 || NoInk(page, mask)
  {
    FullSum(page, mask);
    ZeroSum(page, mask);
    if MaskCount(mask) > 0 {
      RatioBounds(MaskedSum(page, mask) as real, MaskCount(mask) as real);
    }
  }

  /** One line of main's output: a shape's id and its fill ratio. */
  datatype Score = Score(id: string, fill: real)

  /** The score record of one rectified page, shape by shape. */
  function ScoresOf(ids: seq<string>, masks: seq<seq<bool>>, page: seq<Byte>): (r: seq<Score>)
    requires |ids| == |masks|
    requires forall m :: m in masks ==> |m| == |page|
    ensures |r| == |ids|
    ensures forall i :: 0 <= i < |r| ==> r[i].id == ids[i] && 0.0 <= r[i].fill <= 1.0
  {
    seq(|ids|, i requires 0 <= i < |ids| => Score(ids[i], FillRatio(page, masks[i])))
  }

  /** The loop over shapes in main: score every shape (the page and qr
      shapes included) and outline, in shape order, those that exceed the
      highlight threshold. The dilated mask main computes is never used. */
  method ScoreShapes(ids: seq<string>, masks: seq<seq<bool>>, page: seq<Byte>)
    returns (scores: seq<Score>, outlined: seq<nat>)
    requires |ids| == |masks|
    requires forall m :: m in masks ==> |m| == |page|
    ensures scores == ScoresOf(ids, masks, page)
    ensures forall k :: 0 <= k < |outlined| ==> outlined[k] < |ids|
    ensures forall k, l :: 0 <= k < l < |outlined| ==> outlined[k] < outlined[l]
    ensures forall i :: 0 <= i < |ids| ==>
      (i in outlined <==> Highlighted(FillRatio(page, masks[i])))
  {
    scores, outlined := [], [];
    for i := 0 to |ids|
      invariant |scores| == i
      invariant forall j :: 0 <= j < i ==> scores[j] == Score(ids[j], FillRatio(page, masks[j]))
      invariant forall k :: 0 <= k < |outlined| ==> outlined[k] < i
      invariant forall k, l :: 0 <= k < l < |outlined| ==> outlined[k] < outlined[l]
      invariant forall j :: 0 <= j < i ==> (j in outlined <==> Highlighted(FillRatio(page, masks[j])))
    {
      var filled := FillRatio(page, masks[i]);
      if filled > HighlightThreshold {
        outlined := outlined + [i];
      }
      scores := scores + [Score(ids[i], filled)];
    }
  }

  /** A symbol the barcode scanner reported, with what the foreign steps make
      of it: whether it is a QR code, its payload, the contours found in its
      rough warp, and the binarised page its final warp produces. */
  datatype Symbol = Symbol(isQr: bool, payload: string, contours: seq<Contour>, page: seq<Byte>)

  /** The number of QR symbols. */
  function CountQr(symbols: seq<Symbol>): (n: nat)
    ensures n <= |symbols|
  {
    if symbols == [] then 0
    else CountQr(symbols[..|symbols| - 1]) + (if symbols[|symbols| - 1].isQr then 1 else 0)
  }

  /** Pages fit the masks: every shape mask is as large as every page. */
  predicate MasksFitPages(symbols: seq<Symbol>, masks: seq<seq<bool>>) {
    forall s, m :: s in symbols && m in masks ==> |m| == |s.page|
  }

  /** One score record per QR symbol whose page was found, in scanner order;
      each record depends only on its own symbol. */
  function Records(symbols: seq<Symbol>, pageArea: int, ids: seq<string>, masks: seq<seq<bool>>)
    : (r: seq<seq<Score>>)
    requires |ids| == |masks| && MasksFitPages(symbols, masks)
    ensures forall k :: 0 <= k < |r| ==> |r[k]| == |ids|
  {
    if symbols == [] then []
    else
      var s := symbols[|symbols| - 1];
      assert s in symbols;
      Records(symbols[..|symbols| - 1], pageArea, ids, masks) +
      (if Accepted(s, pageArea) then [ScoresOf(ids, masks, s.page)] else [])
  }

  /** A symbol main scores: a QR code whose page was found. */
  predicate Accepted(s: Symbol, pageArea: int) {
    s.isQr && PageChoice(s.contours, pageArea).Some?
  }

  /** The positions holding true, in increasing order. */
  function Indices(flags: seq<bool>): (idx: seq<nat>)
    ensures forall k :: 0 <= k < |idx| ==> idx[k] < |flags| && flags[idx[k]]
    ensures forall k, l :: 0 <= k < l < |idx| ==> idx[k] < idx[l]
    ensures forall i :: 0 <= i < |flags| && flags[i] ==> i in idx
  {
    if flags == [] then []
    else
      var front := flags[..|flags| - 1];
      var rest := Indices(front);
      var last := if flags[|flags| - 1] then [|flags| - 1] else [];
      assert forall i :: 0 <= i < |front| ==> front[i] == flags[i];
      assert forall i :: i in rest ==> i in rest + last;
      rest + last
  }

  function AcceptedFlags(symbols: seq<Symbol>, pageArea: int): (flags: seq<bool>)
    ensures |flags| == |symbols|
    ensures forall i :: 0 <= i < |symbols| ==> flags[i] == Accepted(symbols[i], pageArea)
  {
    seq(|symbols|, i requires 0 <= i < |symbols| => Accepted(symbols[i], pageArea))
  }

  /** The positions of the accepted symbols, in increasing order. */
  function Found(symbols: seq<Symbol>, pageArea: int): (idx: seq<nat>)
    ensures forall k :: 0 <= k < |idx| ==> idx[k] < |symbols| && Accepted(symbols[idx[k]], pageArea)
    ensures forall k, l :: 0 <= k < l < |idx| ==> idx[k] < idx[l]
    ensures forall i :: 0 <= i < |symbols| && Accepted(symbols[i], pageArea) ==> i in idx
  {
    Indices(AcceptedFlags(symbols, pageArea))
  }

  /** The score records of the pages of the symbols at the given positions. */
  ghost function PagesScored(symbols: seq<Symbol>, idx: seq<nat>, ids: seq<string>, masks: seq<seq<bool>>)
    : seq<seq<Score>>
    requires |ids| == |masks| && MasksFitPages(symbols, masks)
    requires forall k :: 0 <= k < |idx| ==> idx[k] < |symbols|
  {
    if idx == [] then []
    else
      var s := symbols[idx[|idx| - 1]];
      assert s in symbols;
      PagesScored(symbols, idx[..|idx| - 1], ids, masks) + [ScoresOf(ids, masks, s.page)]
  }

  /** Positions inside a prefix score the same in the prefix and the whole. */
  lemma {:induction false} PagesScoredPrefix(symbols: seq<Symbol>, n: nat, idx: seq<nat>, ids: seq<string>, masks: seq<seq<bool>>)
    requires |ids| == |masks| && MasksFitPages(symbols, masks) && n <= |symbols|
    requires forall k :: 0 <= k < |idx| ==> idx[k] < n
    ensures MasksFitPages(symbols[..n], masks)
    ensures PagesScored(symbols[..n], idx, ids, masks) == PagesScored(symbols, idx, ids, masks)
  {
    assert forall t :: t in symbols[..n] ==> t in symbols;
    if idx != [] {
      PagesScoredPrefix(symbols, n, idx[..|idx| - 1], ids, masks);
      assert symbols[..n][idx[|idx| - 1]] == symbols[idx[|idx| - 1]];
    }
  }

  /** The records are, one for one and in scanner order, the score records
      of the accepted symbols' pages. */
  lemma {:induction false} RecordsOfFound(symbols: seq<Symbol>, pageArea: int, ids: seq<string>, masks: seq<seq<bool>>)
    requires |ids| == |masks| && MasksFitPages(symbols, masks)
    ensures Records(symbols, pageArea, ids, masks) == PagesScored(symbols, Found(symbols, pageArea), ids, masks)
  {
    if symbols != [] {
      var n := |symbols| - 1;
      var flags := AcceptedFlags(symbols, pageArea);
      assert AcceptedFlags(symbols[..n], pageArea) == flags[..n];
      var found := Found(symbols[..n], pageArea);
      PagesScoredPrefix(symbols, n, found, ids, masks);
      RecordsOfFound(symbols[..n], pageArea, ids, masks);
      if flags[n] {
        assert Found(symbols, pageArea) == found + [n];
        assert (found + [n])[..|found|] == found;
      } else {
        assert Found(symbols, pageArea) == found;
      }
    }
  }

  /** No more records than QR codes; in particular, no QR code, no record. */
  lemma {:induction false} RecordsAtMostQr(symbols: seq<Symbol>, pageArea: int, ids: seq<string>, masks: seq<seq<bool>>)
    requires |ids| == |masks| && MasksFitPages(symbols, masks)
    ensures |Records(symbols, pageArea, ids, masks)| <= CountQr(symbols)
  {
    if symbols != [] {
      RecordsAtMostQr(symbols[..|symbols| - 1], pageArea, ids, masks);
    }
  }

  /** The loop over scanned symbols in main: count the QR codes, try to find
      the page for each, and score the shapes on every page found. */
  method ScanSymbols(symbols: seq<Symbol>, pageArea: int, ids: seq<string>, masks: seq<seq<bool>>)
    returns (qrCount: nat, records: seq<seq<Score>>)
    requires |ids| == |masks| && MasksFitPages(symbols, masks)
    ensures qrCount == CountQr(symbols)
    ensures records == Records(symbols, pageArea, ids, masks)
  {
    qrCount, records := 0, [];
    for i := 0 to |symbols|
      invariant qrCount == CountQr(symbols[..i])
      invariant records == Records(symbols[..i], pageArea, ids, masks)
    {
      assert symbols[..i + 1][..i] == symbols[..i];
      var symbol := symbols[i];
      if symbol.isQr {
        qrCount := qrCount + 1;
        var found, corners := TryFindPage(symbol.contours, pageArea);
        if found {
          var scores, outlined := ScoreShapes(ids, masks, symbol.page);
          records := records + [scores];
        }
      }
    }
    assert symbols[..|symbols|] == symbols;
  }
}
