/**
 * The DOCX to PDF endpoint (convert_docx_to_pdf, POST
 * /api/v1/files/convert/docx-to-pdf): check the extension, read the
 * paragraphs, and lay their stripped text out line by line on fixed-size
 * pages, starting a new page when the cursor has passed the bottom margin.
 *
 * Reading the document and writing the PDF belong to libraries: parsing is a
 * parameter, and the canvas is reduced to its page number and the list of
 * strings drawn, each with its page and position. The page height is an
 * integer parameter.
 */
module DocxToPdf {
  import opened Wrappers
  import opened Text
  import opened Http

  const Margin: int := 40
  const LineStep: int := 14

  /** One canvas.drawString call and the page it lands on. */
  datatype Draw = Draw(page: nat, x: int, y: int, text: string)

  /** What the canvas holds at the end: the number of the last page started, and every string drawn. */
  datatype Pdf = Pdf(pages: nat, draws: seq<Draw>)

  /** The state of the layout loop: the cursor y, the current page, and the strings drawn so far. */
  datatype Cursor = Cursor(y: int, page: nat, draws: seq<Draw>)

  /**
   * file.filename.lower().endswith(".docx"): the name passes exactly when its
   * last five characters spell ".docx" in some letter case.
   */
  predicate IsDocxName(filename: string)
    ensures IsDocxName(filename) <==> |filename| >= 5 && Lower(filename[|filename| - 5..]) == ".docx"
  {
    assert |filename| >= 5 ==> Lower(filename)[|filename| - 5..] == Lower(filename[|filename| - 5..]);
    EndsWith(Lower(filename), ".docx")
  }

  /** The extension check ignores letter case: any name ending in a spelling of ".docx" passes. */
  lemma DocxExtensionAnyCase(stem: string, ext: string)
    requires Lower(ext) == ".docx"
    ensures IsDocxName(stem + ext)
  {
    var name := stem + ext;
    assert name[|name| - 5..] == ext;
  }

  /** The state before the first paragraph: on page 1, one margin below the top, nothing drawn. */
  function Start(pageH: int): Cursor {
    Cursor(pageH - Margin, 1, [])
  }

  /**
   * One turn of the loop. A paragraph that strips to nothing only lowers the
   * cursor by one line. Any other paragraph first starts a new page if the
   * cursor is below the bottom margin, then is drawn stripped at the left
   * margin, and the cursor moves down one line.
   */
  function Step(c: Cursor, para: string, pageH: int): Cursor {
    var text := Strip(para);
    if text == [] then c.(y := c.y - LineStep) else DrawLine(c, text, pageH)
  }

  /**
   * The turn for a paragraph that is not blank, once stripped to text: the
   * text is appended to what is drawn, and a new page is started only when
   * the cursor is below the bottom margin.
   */
  function DrawLine(c: Cursor, text: string, pageH: int): Cursor {
    var top := if c.y < Margin then Cursor(pageH - Margin, c.page + 1, c.draws) else c;
    Cursor(top.y - LineStep, top.page, top.draws + [Draw(top.page, Margin, top.y, text)])
  }

  /**
   * The state after the loop has visited every paragraph of paras, in order:
   * at most one string per paragraph, and at most one page per paragraph
   * beyond the first.
   */
  function Layout(paras: seq<string>, pageH: int): (c: Cursor)
    ensures |c.draws| <= |paras|
    ensures 1 <= c.page <= |paras| + 1
    decreases |paras|
  {
    if paras == [] then Start(pageH)
    else Step(Layout(paras[..|paras| - 1], pageH), paras[|paras| - 1], pageH)
  }

  /**
   * convert_docx_to_pdf: a name without the .docx extension (in any case) is
   * refused before the upload is read, bytes the document library cannot open
   * give 400, and otherwise the canvas holds exactly the layout of the
   * paragraphs.
   */
  method ConvertDocxToPdf(filename: string, data: Bytes, parse: Bytes -> Option<seq<string>>, pageH: int)
    returns (r: Result<Pdf, Reason>)
    requires pageH >= 2 * Margin
    ensures !IsDocxName(filename) ==> r == Failure(NotDocx)
    ensures IsDocxName(filename) && parse(data).None? ==> r == Failure(DocxUnreadable)
    ensures IsDocxName(filename) && parse(data).Some? ==>
      var done := Layout(parse(data).value, pageH);
      r == Success(Pdf(done.page, done.draws))
  {
    if !IsDocxName(filename) {
      return Failure(NotDocx);
    }
    var doc := parse(data);
    if doc.None? {
      return Failure(DocxUnreadable);
    }
    var paras := doc.value;
    var page: nat := 1;
    var draws: seq<Draw> := [];
    var y := pageH - Margin;
    for i := 0 to |paras|
      invariant Cursor(y, page, draws) == Layout(paras[..i], pageH)
    {
      ghost var before := Cursor(y, page, draws);
      LayoutOneMore(paras, i, pageH);
      var text := Strip(paras[i]);
      if text == [] {
        y := y - LineStep;
        assert Cursor(y, page, draws) == Step(before, paras[i], pageH);
        continue;
      }
      if y < Margin {
        page := page + 1;
        y := pageH - Margin;
      }
      ghost var top := Cursor(y, page, draws);
      assert top == if before.y < Margin then Cursor(pageH - Margin, before.page + 1, before.draws) else before;
      draws := draws + [Draw(page, Margin, y, text)];
      y := y - LineStep;
      assert Cursor(y, page, draws) == DrawLine(before, text, pageH) == Step(before, paras[i], pageH);
    }
    assert paras[..|paras|] == paras;
    r := Success(Pdf(page, draws));
  }

  /** The layout of one more paragraph is one more turn of the loop. */
  lemma LayoutOneMore(paras: seq<string>, i: nat, pageH: int)
    requires i < |paras|
    ensures Layout(paras[..i + 1], pageH) == Step(Layout(paras[..i], pageH), paras[i], pageH)
  {
    assert paras[..i + 1][..i] == paras[..i];
  }

  // ---------------------------------------------------------------------------
  // Properties of the layout
  // ---------------------------------------------------------------------------

  /**
   * What every state of the loop satisfies: every string is drawn at the left
   * margin, between the bottom margin and one margin below the top, on a page
   * already started; consecutive strings are either on the same page at least
   * one line apart, or on the next page at the top line; the cursor is at least
   * one line below the last string, which is on the current page; and a page
   * is started only to draw a string on it.
   */
  ghost predicate WellLaidOut(c: Cursor, pageH: int) {
    && 1 <= c.page <= |c.draws| + 1
    && c.y <= pageH - Margin
    && (forall i :: 0 <= i < |c.draws| ==> OnPage(c.draws[i], c.page, pageH))
    && (forall i :: 0 < i < |c.draws| ==> Follows(c.draws[i - 1], c.draws[i], pageH))
    && (c.draws != [] ==>
          && c.draws[|c.draws| - 1].page == c.page
          && c.y <= c.draws[|c.draws| - 1].y - LineStep)
  }

  /** A string drawn at the left margin, inside the vertical margins, on a page no later than page. */
  ghost predicate OnPage(d: Draw, page: nat, pageH: int) {
    d.x == Margin && Margin <= d.y <= pageH - Margin && 1 <= d.page <= page
  }

  /** next is at least one line below prev on the same page, or at the top line of the next page. */
  ghost predicate Follows(prev: Draw, next: Draw, pageH: int) {
    || (next.page == prev.page && next.y <= prev.y - LineStep)
    || (next.page == prev.page + 1 && next.y == pageH - Margin)
  }

  /** Drawing one line keeps the layout well formed. */
  lemma DrawLineKeepsLayout(c: Cursor, text: string, pageH: int)
    requires pageH >= 2 * Margin
    requires WellLaidOut(c, pageH)
    ensures WellLaidOut(DrawLine(c, text, pageH), pageH)
  {
    var d := DrawLine(c, text, pageH);
    var top := if c.y < Margin then Cursor(pageH - Margin, c.page + 1, c.draws) else c;
    var last := Draw(top.page, Margin, top.y, text);
    var n := |c.draws|;
    assert d == Cursor(top.y - LineStep, top.page, c.draws + [last]);
    assert OnPage(last, d.page, pageH);
    assert n > 0 ==> Follows(c.draws[n - 1], last, pageH);
    forall i | 0 <= i < |d.draws|
      ensures OnPage(d.draws[i], d.page, pageH)
    {
      if i < n {
        assert d.draws[i] == c.draws[i];
        assert OnPage(c.draws[i], c.page, pageH);
      }
    }
    forall i | 0 < i < |d.draws|
      ensures Follows(d.draws[i - 1], d.draws[i], pageH)
    {
      assert d.draws[i - 1] == c.draws[i - 1];
      if i < n {
        assert d.draws[i] == c.draws[i];
      }
    }
  }

  /** One turn of the loop keeps the layout well formed. */
  lemma StepKeepsLayout(c: Cursor, para: string, pageH: int)
    requires pageH >= 2 * Margin
    requires WellLaidOut(c, pageH)
    ensures WellLaidOut(Step(c, para, pageH), pageH)
  {
    if Strip(para) != [] {
      DrawLineKeepsLayout(c, Strip(para), pageH);
    }
  }

  /** Every state the loop reaches is well formed. */
  lemma {:induction false} LayoutIsWellLaidOut(paras: seq<string>, pageH: int)
    requires pageH >= 2 * Margin
    ensures WellLaidOut(Layout(paras, pageH), pageH)
    decreases |paras|
  {
    if paras != [] {
      LayoutIsWellLaidOut(paras[..|paras| - 1], pageH);
      StepKeepsLayout(Layout(paras[..|paras| - 1], pageH), paras[|paras| - 1], pageH);
    }
  }

  /** The stripped text of each paragraph that is not blank, in document order. */
  function NonBlankTexts(paras: seq<string>): seq<string>
    decreases |paras|
  {
    if paras == [] then []
    else
      var before := NonBlankTexts(paras[..|paras| - 1]);
      var text := Strip(paras[|paras| - 1]);
      if text == [] then before else before + [text]
  }

  function DrawnTexts(draws: seq<Draw>): (texts: seq<string>)
    ensures |texts| == |draws|
    ensures forall i :: 0 <= i < |draws| ==> texts[i] == draws[i].text
  {
    seq(|draws|, i requires 0 <= i < |draws| => draws[i].text)
  }

  /** Every paragraph that is not blank is drawn exactly once, stripped, in document order, and nothing else is drawn. */
  lemma {:induction false} DrawsAreNonBlankParagraphs(paras: seq<string>, pageH: int)
    ensures DrawnTexts(Layout(paras, pageH).draws) == NonBlankTexts(paras)
    decreases |paras|
  {
    if paras != [] {
      var init := paras[..|paras| - 1];
      DrawsAreNonBlankParagraphs(init, pageH);
      var c := Layout(init, pageH);
      var text := Strip(paras[|paras| - 1]);
      if text != [] {
        assert Layout(paras, pageH) == DrawLine(c, text, pageH);
        DrawLineAddsText(c, text, pageH);
      }
    }
  }

  lemma DrawLineAddsText(c: Cursor, text: string, pageH: int)
    ensures DrawnTexts(DrawLine(c, text, pageH).draws) == DrawnTexts(c.draws) + [text]
  {
    var d := DrawLine(c, text, pageH).draws;
    assert |d| == |c.draws| + 1;
    assert d[|c.draws|].text == text;
    forall i | 0 <= i < |c.draws|
      ensures d[i] == c.draws[i]
    {
    }
  }

  /** A blank paragraph draws nothing and never starts a page: it only lowers the cursor by one line. */
  lemma BlankParagraphOnlyMovesCursor(paras: seq<string>, blank: string, pageH: int)
    requires Strip(blank) == []
    ensures
      var before := Layout(paras, pageH);
      Layout(paras + [blank], pageH) == Cursor(before.y - LineStep, before.page, before.draws)
  {
    var longer := paras + [blank];
    assert longer[..|longer| - 1] == paras;
    assert longer[|longer| - 1] == blank;
    assert Layout(longer, pageH) == Step(Layout(paras, pageH), blank, pageH);
  }

  /**
   * A paragraph drawn when the cursor is below the bottom margin goes on a new
   * page, at one margin below the top; otherwise it goes on the current page at
   * the cursor.
   */
  lemma NewPageResetsCursor(paras: seq<string>, para: string, pageH: int)
    requires Strip(para) != []
    ensures
      var before := Layout(paras, pageH);
      var after := Layout(paras + [para], pageH);
      && |after.draws| == |before.draws| + 1
      && after.draws[|before.draws|] ==
           (if before.y < Margin then Draw(before.page + 1, Margin, pageH - Margin, Strip(para))
            else Draw(before.page, Margin, before.y, Strip(para)))
      && after.page == (if before.y < Margin then before.page + 1 else before.page)
  {
    var longer := paras + [para];
    assert longer[..|longer| - 1] == paras;
    assert longer[|longer| - 1] == para;
    assert Layout(longer, pageH) == Step(Layout(paras, pageH), para, pageH);
  }

  /** A document with a single paragraph that is not blank gives one page holding that one line. */
  lemma OneParagraphOnePage(para: string, pageH: int)
    requires pageH >= 2 * Margin
    requires Strip(para) != []
    ensures Layout([para], pageH) == Cursor(pageH - Margin - LineStep, 1, [Draw(1, Margin, pageH - Margin, Strip(para))])
  {
    assert [para][..0] == [];
  }
}
