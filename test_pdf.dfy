/** The page-slicing of src/app/test-pdf/page.tsx. The rendered page is
    one tall image; `generatePDF` scales it to 210 mm wide and places it on
    as many pages as it needs, shifted up by 295 mm on each further page.
    The PDF document is the list of operations made on it; measures are
    exact reals. */
module TestPdf {
  import opened QuranTypes

  const ImageWidth: real := 210.0
  const PageHeight: real := 295.0

  /** An operation on the PDF document. */
  datatype PdfOp = AddImage(x: real, y: real, width: real, height: real) | AddPage | SavePdf(fileName: string)

  /** `canvas.height * imgWidth / canvas.width`: the image's height once its
      width is 210 mm. */
  function ScaledHeight(canvasWidth: nat, canvasHeight: nat): (h: real)
    requires canvasWidth > 0
    ensures h * canvasWidth as real == canvasHeight as real * ImageWidth
    ensures h >= 0.0
  {
    canvasHeight as real * ImageWidth / canvasWidth as real
  }

  /** The pages added after the first for an image taller than a page:
      the whole page heights below its first page. */
  function ExtraPages(h: real): (k: int)
    requires h > PageHeight
    ensures k >= 1
    ensures k as real * PageHeight <= h < (k + 1) as real * PageHeight
  {
    (h / PageHeight).Floor
  }

  /** The image placed on page `k` (counting from 0) at offset `-k * 295`. */
  function PlacedAt(k: nat, h: real): PdfOp {
    AddImage(0.0, -(k as real) * PageHeight, ImageWidth, h)
  }

  /** The document's operations for an image of height `h`: the image on the
      first page; if it is taller than a page, then for each further page
      a new page and the image again, moved one page further up. */
  function Layout(h: real): seq<PdfOp> {
    if h <= PageHeight then [AddImage(0.0, 0.0, ImageWidth, h)]
    else
      var n := 1 + 2 * ExtraPages(h);
      seq(n, i requires 0 <= i < n => if i % 2 == 1 then AddPage else PlacedAt(i / 2, h))
  }

  /** The slicing loop of `generatePDF`. */
  method Slice(imgHeight: real) returns (ops: seq<PdfOp>)
    requires imgHeight >= 0.0
    ensures ops == Layout(imgHeight)
  {
    if imgHeight > PageHeight {
      var heightLeft := imgHeight;
      var position := 0.0;
      ops := [AddImage(0.0, position, ImageWidth, imgHeight)];
      heightLeft := heightLeft - PageHeight;
      ghost var extra := ExtraPages(imgHeight);
      ghost var k: nat := 0;
      while heightLeft >= 0.0
        invariant 0 <= k <= extra
        invariant heightLeft == imgHeight - (k + 1) as real * PageHeight
        invariant ops == Layout(imgHeight)[..1 + 2 * k]
        decreases extra - k
      {
        position := heightLeft - imgHeight;
        ops := ops + [AddPage, AddImage(0.0, position, ImageWidth, imgHeight)];
        heightLeft := heightLeft - PageHeight;
        k := k + 1;
        assert Layout(imgHeight)[..1 + 2 * k] == Layout(imgHeight)[..1 + 2 * (k - 1)] + [AddPage, PlacedAt(k, imgHeight)];
      }
      assert k == extra;
    } else {
      ops := [AddImage(0.0, 0.0, ImageWidth, imgHeight)];
    }
  }

  /** `generatePDF`: nothing without the content element or loaded data;
      otherwise the sliced image, saved as `surah-<id>.pdf`. */
  method GeneratePdf(hasContent: bool, hasData: bool, surahId: string, canvasWidth: nat, canvasHeight: nat)
    returns (doc: Option<seq<PdfOp>>)
    requires canvasWidth > 0
    ensures !hasContent || !hasData ==> doc.None?
    ensures hasContent && hasData ==>
      doc == Some(Layout(ScaledHeight(canvasWidth, canvasHeight)) + [SavePdf("surah-" + surahId + ".pdf")])
  {
    if !hasContent || !hasData {
      return None;
    }
    var imgHeight := ScaledHeight(canvasWidth, canvasHeight);
    var ops := Slice(imgHeight);
    ops := ops + [SavePdf("surah-" + surahId + ".pdf")];
    return Some(ops);
  }

  /** The number of pages a list of operations makes: the first page and
      one per added page. */
  function PageTotal(ops: seq<PdfOp>): (n: int)
    ensures n >= 1
  {
    if ops == [] then 1
    else PageTotal(ops[..|ops| - 1]) + (if ops[|ops| - 1] == AddPage then 1 else 0)
  }

  lemma {:induction false} PageTotalAppend(a: seq<PdfOp>, b: seq<PdfOp>)
    ensures PageTotal(a + b) == PageTotal(a) + PageTotal(b) - 1
  {
    if b != [] {
      assert (a + b)[..|a + b| - 1] == a + b[..|b| - 1];
      PageTotalAppend(a, b[..|b| - 1]);
    } else {
      assert a + b == a;
    }
  }

  /** The first `1 + 2 * k` operations of an overflowing layout make
      `k + 1` pages. */
  lemma {:induction false} LayoutPrefixPages(h: real, k: nat)
    requires h > PageHeight && k <= ExtraPages(h)
    ensures PageTotal(Layout(h)[..1 + 2 * k]) == k + 1
  {
    var l := Layout(h);
    if k == 0 {
      assert l[..1] == [l[0]];
    } else {
      assert l[..1 + 2 * k] == l[..1 + 2 * (k - 1)] + [AddPage, PlacedAt(k, h)];
      LayoutPrefixPages(h, k - 1);
      PageTotalAppend(l[..1 + 2 * (k - 1)], [AddPage, PlacedAt(k, h)]);
      assert [AddPage, PlacedAt(k, h)][..1] == [AddPage];
      assert [AddPage][..0] == [];
    }
  }

  /** An image no taller than a page gets one page; a taller one gets
      `1 + floor(h / 295)` pages. */
  lemma LayoutPages(h: real)
    ensures h <= 295.0 ==> PageTotal(Layout(h)) == 1
    ensures h > 295.0 ==> PageTotal(Layout(h)) == 1 + (h / 295.0).Floor
  {
    if h > PageHeight {
      var l := Layout(h);
      LayoutPrefixPages(h, ExtraPages(h));
      assert l[..|l|] == l;
    } else {
      assert Layout(h)[..0] == [];
    }
  }

  /** Every placement is the whole image at the left edge, 210 mm wide and
      `h` high; on page `k` it is moved up by `k * 295`. */
  lemma Placements(h: real)
    ensures forall i :: 0 <= i < |Layout(h)| && Layout(h)[i].AddImage? ==>
      && Layout(h)[i].x == 0.0 && Layout(h)[i].width == 210.0 && Layout(h)[i].height == h
      && PageTotal(Layout(h)[..i + 1]) >= 1
      && Layout(h)[i].y == -((PageTotal(Layout(h)[..i + 1]) - 1) as real) * 295.0
  {
    var l := Layout(h);
    forall i | 0 <= i < |l| && l[i].AddImage?
      ensures l[i].y == -((PageTotal(l[..i + 1]) - 1) as real) * 295.0
    {
      if h > PageHeight {
        LayoutPrefixPages(h, i / 2);
      } else {
        assert l[..1] == l;
        assert l[..0] == [];
      }
    }
  }

  /** The pages of an overflowing layout show the image in successive
      page-high strips down to its bottom edge, which falls on the last
      page. */
  lemma BottomOnLastPage(h: real)
    requires h > 295.0
    ensures var l := Layout(h);
      && l[|l| - 1].AddImage?
      && 0.0 <= l[|l| - 1].y + h < 295.0
  {
  }

  /** An image exactly `m` pages high, `m >= 2`, gets `m + 1` pages; the last
      image ends at the top edge of its page, which stays blank. */
  lemma ExactMultipleTrailingPage(h: real, m: int)
    requires m >= 2 && h == m as real * 295.0
    ensures PageTotal(Layout(h)) == m + 1
    ensures var l := Layout(h); l[|l| - 1].AddImage? && l[|l| - 1].y + h == 0.0
  {
    assert ExtraPages(h) == m by {
      var e := ExtraPages(h);
      assert e as real * PageHeight <= m as real * PageHeight < (e + 1) as real * PageHeight;
    }
    LayoutPages(h);
  }
}
