/** Text extraction from an uploaded PDF. The PDF library is replaced by the
    outcome of opening the byte stream: the list of pages, each of which either
    yields its text (or `None` when it has no text layer) or raises. */
module PdfService {
  import opened Wrappers
  import opened Text
  import opened Errors

  datatype PageResult = PageText(text: Option<string>) | PageRaises(reason: string)

  /** What opening the byte stream gives: its pages, or the message of the
      exception the opener raised. */
  type Opened = Result<seq<PageResult>, string>

  const ErrorPrefix := "Error procesando PDF: "
  const NoPagesMessage := "El PDF no contiene páginas"
  const NoTextMessage := "No se pudo extraer texto del PDF"

  /** The heading written before the text of the page numbered `pageNumber` (1-based). */
  function Marker(pageNumber: nat): string {
    "\n--- Página " + NatToString(pageNumber) + " ---\n"
  }

  /** `page.extract_text() or ""` is non-blank: only such a page is written out. */
  predicate Contributes(p: PageResult) {
    p.PageText? && Strip(p.text.GetOr("")) != []
  }

  /** A page's text under its marker, for the page at 0-based position `index`. */
  function Segment(index: nat, text: string): string {
    Marker(index + 1) + text
  }

  /** What the page at 0-based position `index` adds to the running text. */
  function Contribution(p: PageResult, index: nat): string {
    if Contributes(p) then Segment(index, p.text.value) else ""
  }

  /** The page loop: `acc` is the text gathered from pages before `i`. */
  function AssembleFrom(pages: seq<PageResult>, i: nat, acc: string): string
    requires i <= |pages|
    decreases |pages| - i
  {
    if i == |pages| then acc else AssembleFrom(pages, i + 1, acc + Contribution(pages[i], i))
  }

  /** `extract_text_from_pdf`: every failure is a `PDFProcessingError` whose
      message is prefixed by the outer handler; success is the stripped
      concatenation, which is never empty. */
  function ExtractTextFromPdf(doc: Opened): (r: Result<string, AppError>)
    ensures r.Failure? ==> r.error.kind == PDFProcessingError && StartsWith(r.error.message, ErrorPrefix)
    ensures r.Success? ==> |r.value| > 0 && !IsSpace(r.value[0]) && !IsSpace(r.value[|r.value| - 1])
    ensures doc.Failure? ==> r == Fail(doc.error)
    ensures doc.Success? && |doc.value| == 0 ==> r == Fail(NoPagesMessage)
    ensures doc.Success? && |doc.value| > 0 && r.Failure? ==> r == Fail(NoTextMessage)
  {
    match doc
    case Failure(e) => Fail(e)
    case Success(pages) =>
      if |pages| == 0 then Fail(NoPagesMessage)
      else
        var text := AssembleFrom(pages, 0, "");
        if Strip(text) == [] then Fail(NoTextMessage) else Success(Strip(text))
  }

  /** The error the outer handler raises for an inner failure described by `detail`. */
  function Fail(detail: string): (r: Result<string, AppError>)
    ensures r.Failure? && r.error.kind == PDFProcessingError && StartsWith(r.error.message, ErrorPrefix)
  {
    var m := ErrorPrefix + detail;
    assert m[..|ErrorPrefix|] == ErrorPrefix;
    Failure(AppError(PDFProcessingError, m))
  }

  /** What callers report when `validate_pdf` rejects a document. */
  const InvalidPdfMessage := "El archivo no es un PDF válido"

  /** `validate_pdf`: true exactly when the byte stream opens; it never raises.
      A document it rejects cannot be extracted either. */
  function ValidatePdf(doc: Opened): (ok: bool)
    ensures ok <==> doc.Success?
    ensures !ok ==> doc.Failure? && ExtractTextFromPdf(doc) == Fail(doc.error)
  {
    doc.Success?
  }

  /** The pages that contribute, from position `i` on, with their text, in page order. */
  function ContributorsFrom(pages: seq<PageResult>, i: nat): (cs: seq<(nat, string)>)
    requires i <= |pages|
    decreases |pages| - i
  {
    if i == |pages| then []
    else
      var rest := ContributorsFrom(pages, i + 1);
      if Contributes(pages[i]) then [(i, pages[i].text.value)] + rest else rest
  }

  /** The contributing pages of the whole document. */
  function Contributors(pages: seq<PageResult>): seq<(nat, string)> {
    ContributorsFrom(pages, 0)
  }

  /** Reference rendering: each contributing page's 1-based marker, then its text. */
  function Render(cs: seq<(nat, string)>): string {
    if |cs| == 0 then "" else Segment(cs[0].0, cs[0].1) + Render(cs[1..])
  }

  /** `c` names a contributing page at or after position `i`, with that page's text. */
  predicate IsContributor(pages: seq<PageResult>, i: nat, c: (nat, string)) {
    i <= c.0 < |pages| && Contributes(pages[c.0]) && c.1 == pages[c.0].text.value
  }

  /** The contributors are exactly the non-blank pages from `i` on, each with
      its own text, in strictly increasing page order. */
  lemma ContributorsFromSpec(pages: seq<PageResult>, i: nat, cs: seq<(nat, string)>)
    requires i <= |pages| && cs == ContributorsFrom(pages, i)
    ensures forall k :: 0 <= k < |cs| ==> IsContributor(pages, i, cs[k])
    ensures forall k, l :: 0 <= k < l < |cs| ==> cs[k].0 < cs[l].0
    ensures forall j :: i <= j < |pages| && Contributes(pages[j]) ==> (j, pages[j].text.value) in cs
  {
    ContributorsSound(pages, i, cs);
    ContributorsOrdered(pages, i, cs);
    ContributorsComplete(pages, i, cs);
  }

  /** Every contributor is a non-blank page from `i` on, with its own text. */
  lemma {:induction false} ContributorsSound(pages: seq<PageResult>, i: nat, cs: seq<(nat, string)>)
    requires i <= |pages| && cs == ContributorsFrom(pages, i)
    ensures forall k :: 0 <= k < |cs| ==> IsContributor(pages, i, cs[k])
    decreases |pages| - i
  {
    if i < |pages| {
      var rest := ContributorsFrom(pages, i + 1);
      ContributorsSound(pages, i + 1, rest);
      if Contributes(pages[i]) {
        assert cs == [(i, pages[i].text.value)] + rest;
        forall k | 1 <= k < |cs|
          ensures IsContributor(pages, i, cs[k])
        {
          assert cs[k] == rest[k - 1];
        }
      } else {
        assert cs == rest;
      }
    }
  }

  /** Contributors come in strictly increasing page order. */
  lemma {:induction false} ContributorsOrdered(pages: seq<PageResult>, i: nat, cs: seq<(nat, string)>)
    requires i <= |pages| && cs == ContributorsFrom(pages, i)
    ensures forall k, l :: 0 <= k < l < |cs| ==> cs[k].0 < cs[l].0
    decreases |pages| - i
  {
    if i < |pages| {
      var rest := ContributorsFrom(pages, i + 1);
      ContributorsOrdered(pages, i + 1, rest);
      if Contributes(pages[i]) {
        ContributorsSound(pages, i + 1, rest);
        assert cs == [(i, pages[i].text.value)] + rest;
        forall k, l | 0 <= k < l < |cs|
          ensures cs[k].0 < cs[l].0
        {
          assert cs[l] == rest[l - 1];
          if k > 0 {
            assert cs[k] == rest[k - 1];
          }
        }
      } else {
        assert cs == rest;
      }
    }
  }

  /** Every non-blank page from `i` on is a contributor. */
  lemma {:induction false} ContributorsComplete(pages: seq<PageResult>, i: nat, cs: seq<(nat, string)>)
    requires i <= |pages| && cs == ContributorsFrom(pages, i)
    ensures forall j :: i <= j < |pages| && Contributes(pages[j]) ==> (j, pages[j].text.value) in cs
    decreases |pages| - i
  {
    if i < |pages| {
      var rest := ContributorsFrom(pages, i + 1);
      ContributorsComplete(pages, i + 1, rest);
      if Contributes(pages[i]) {
        assert cs == [(i, pages[i].text.value)] + rest;
        assert cs[0] == (i, pages[i].text.value);
        assert forall c :: c in rest ==> c in cs;
      } else {
        assert cs == rest;
      }
    }
  }

  /** The page loop writes exactly the contributing pages, in order, each after its marker. */
  lemma {:induction false} AssembleIsRender(pages: seq<PageResult>, i: nat, acc: string)
    requires i <= |pages|
    ensures AssembleFrom(pages, i, acc) == acc + Render(ContributorsFrom(pages, i))
    decreases |pages| - i
  {
    if i < |pages| {
      var c := Contribution(pages[i], i);
      AssembleIsRender(pages, i + 1, acc + c);
      var rest := ContributorsFrom(pages, i + 1);
      assert Render(ContributorsFrom(pages, i)) == c + Render(rest) by {
        if Contributes(pages[i]) {
          var cs := [(i, pages[i].text.value)] + rest;
          assert cs[1..] == rest;
        } else {
          assert c == "";
        }
      }
      Regroup(acc, c, Render(rest));
    }
  }

  /** The rendered text is blank exactly when no page contributes: every
      marker holds a non-space character. */
  lemma RenderBlankIff(pages: seq<PageResult>)
    ensures Strip(Render(Contributors(pages))) == [] <==> forall i :: 0 <= i < |pages| ==> !Contributes(pages[i])
  {
    var cs := ContributorsFrom(pages, 0);
    ContributorsFromSpec(pages, 0, cs);
    if |cs| > 0 {
      var c := cs[0];
      assert IsContributor(pages, 0, c);
      var s := Render(cs);
      assert s[1] == Marker(c.0 + 1)[1] == '-';
      assert !Blank(s);
    }
  }

  /** Extraction from an opened document succeeds exactly when some page has
      non-blank text, and then yields the stripped rendering of the
      contributing pages in page order. */
  lemma ExtractTextMeaning(pages: seq<PageResult>)
    requires |pages| > 0
    ensures var r := ExtractTextFromPdf(Success(pages));
            && (r.Success? <==> exists i :: 0 <= i < |pages| && Contributes(pages[i]))
            && (r.Success? ==> r.value == Strip(Render(Contributors(pages))))
  {
    var text := AssembleFrom(pages, 0, "");
    AssembleIsRender(pages, 0, "");
    assert text == Render(Contributors(pages));
    RenderBlankIff(pages);
    assert ExtractTextFromPdf(Success(pages))
        == if Strip(text) == [] then Fail(NoTextMessage) else Success(Strip(text));
  }

  /** Two documents whose pages contribute the same text at every position assemble alike. */
  lemma {:induction false} AssembleCongruent(a: seq<PageResult>, b: seq<PageResult>, i: nat, acc: string)
    requires |a| == |b| && i <= |a|
    requires forall j :: i <= j < |a| ==> Contribution(a[j], j) == Contribution(b[j], j)
    ensures AssembleFrom(a, i, acc) == AssembleFrom(b, i, acc)
    decreases |a| - i
  {
    if i < |a| {
      AssembleCongruent(a, b, i + 1, acc + Contribution(a[i], i));
    }
  }

  /** A page whose extraction raises is skipped: the document extracts exactly
      as if that page had no text layer. */
  lemma RaisingPageIsSkipped(pages: seq<PageResult>, i: nat, reason: string)
    requires i < |pages|
    ensures ExtractTextFromPdf(Success(pages[i := PageRaises(reason)]))
         == ExtractTextFromPdf(Success(pages[i := PageText(None)]))
  {
    var a, b := pages[i := PageRaises(reason)], pages[i := PageText(None)];
    assert Strip("") == [];
    AssembleCongruent(a, b, 0, "");
  }

  /** The extracted text opens with the 1-based marker of the first
      contributing page, its leading newline stripped away. */
  lemma FirstMarkerLeads(pages: seq<PageResult>)
    requires ExtractTextFromPdf(Success(pages)).Success?
    ensures |Contributors(pages)| > 0
    ensures StartsWith(ExtractTextFromPdf(Success(pages)).value, MarkerHead(Contributors(pages)[0].0 + 1))
  {
    ExtractTextMeaning(pages);
    RenderBlankIff(pages);
    var cs := Contributors(pages);
    RenderHead(cs);
    StripAfterNewline(MarkerHead(cs[0].0 + 1), "\n" + cs[0].1 + Render(cs[1..]));
  }

  /** A non-empty rendering starts with a newline and the first marker's visible part. */
  lemma RenderHead(cs: seq<(nat, string)>)
    requires |cs| > 0
    ensures Render(cs) == "\n" + MarkerHead(cs[0].0 + 1) + ("\n" + cs[0].1 + Render(cs[1..]))
  {
    var head, text, rest := MarkerHead(cs[0].0 + 1), cs[0].1, Render(cs[1..]);
    MarkerAroundHead(cs[0].0 + 1);
    assert Render(cs) == Marker(cs[0].0 + 1) + text + rest;
    ConcatRegroup("\n", head, "\n", text, rest);
  }

  /** The visible part of a page marker. */
  function MarkerHead(pageNumber: nat): (h: string)
    ensures |h| > 0 && h[0] == '-' && h[|h| - 1] == '-'
  {
    "--- Página " + NatToString(pageNumber) + " ---"
  }

  lemma MarkerAroundHead(pageNumber: nat)
    ensures Marker(pageNumber) == "\n" + MarkerHead(pageNumber) + "\n"
  {
  }

  /** Stripping a newline-led string whose next part has non-space ends keeps that part whole. */
  lemma StripAfterNewline(head: string, tail: string)
    requires |head| > 0 && !IsSpace(head[0]) && !IsSpace(head[|head| - 1])
    ensures StartsWith(Strip("\n" + head + tail), head)
  {
    var s := "\n" + head + tail;
    assert s[0] == '\n' && s[1] == head[0];
    assert SkipSpaces(s, 1) == 1;
    assert StripStart(s) == 1;
    assert s[|head|] == head[|head| - 1];
    assert StripEnd(s) > |head|;
    assert s[1..|head| + 1] == head;
  }
}
