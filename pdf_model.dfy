/** The PDF as the document views see it: the interactive form's field list
    and, page by page, the annotation arrays. Bytes, object numbers and
    incremental revisions are not represented. */
module PdfModel {
  import opened Wrappers

  /** Four PDF numbers: lower-left and upper-right corners. */
  datatype Box = Box(x1: int, y1: int, x2: int, y2: int)

  /** An entry of a page's /Annots array: a stamp carrying /NM and /Rect, or anything else. */
  datatype Annotation =
    | Stamp(name: string, rect: Box)
    | OtherAnnotation(kind: string)

  /** A page: its content (opaque here) and its /Annots array, None when the key is absent. */
  datatype Page = Page(contents: string, annots: Option<seq<Annotation>>)

  /** An entry of the form's /Fields array: a signature field placed on a page, or another field. */
  datatype FormField =
    | SigField(name: string, onPage: int, box: Box)
    | OtherField(name: string)

  /** The catalog's /AcroForm: absent, or present with or without a /Fields array. */
  datatype AcroForm = NoAcroForm | AcroForm(fields: Option<seq<FormField>>)

  datatype Pdf = Pdf(form: AcroForm, pages: seq<Page>)

  /** The form fields of a document, none when there is no form or no /Fields array. */
  function FormFields(pdf: Pdf): seq<FormField>
  {
    match pdf.form
    case NoAcroForm => []
    case AcroForm(fields) => fields.GetOr([])
  }

  predicate HasFieldsArray(pdf: Pdf)
  {
    pdf.form.AcroForm? && pdf.form.fields.Some?
  }

  /** The two guarded steps before signature fields are added: create the
      /AcroForm if it is absent, then its /Fields array if that is absent. */
  function EnsureFieldsArray(pdf: Pdf): (r: Pdf)
    ensures HasFieldsArray(r)
    ensures FormFields(r) == FormFields(pdf) && r.pages == pdf.pages
    ensures HasFieldsArray(pdf) ==> r == pdf
  {
    match pdf.form
    case NoAcroForm => Pdf(AcroForm(Some([])), pdf.pages)
    case AcroForm(fields) =>
      if fields.None? then Pdf(AcroForm(Some([])), pdf.pages) else pdf
  }

  /** The page lookup of append_signature_field finds a page for the zero-based
      index: one counted from the front, or a negative one counted from the back. */
  predicate HasPage(pdf: Pdf, onPage: int)
  {
    -|pdf.pages| <= onPage < |pdf.pages|
  }

  /** append_signature_field, as far as the form is concerned: one more signature field. */
  function AppendSignatureField(pdf: Pdf, name: string, onPage: int, box: Box): (r: Pdf)
    requires HasFieldsArray(pdf)
    ensures HasFieldsArray(r)
    ensures FormFields(r) == FormFields(pdf) + [SigField(name, onPage, box)]
    ensures r.pages == pdf.pages
  {
    Pdf(AcroForm(Some(pdf.form.fields.value + [SigField(name, onPage, box)])), pdf.pages)
  }

  /** The names of the signature fields, in form order: what enumerate_sig_fields yields. */
  function SigFieldNames(fields: seq<FormField>): (r: seq<string>)
    ensures forall i :: 0 <= i < |fields| && fields[i].SigField? ==> fields[i].name in r
    ensures forall n :: n in r ==> exists i :: 0 <= i < |fields| && fields[i].SigField? && fields[i].name == n
  {
    if fields == [] then []
    else
      var init := SigFieldNames(fields[..|fields| - 1]);
      var last := fields[|fields| - 1];
      assert forall i :: 0 <= i < |fields| - 1 ==> fields[..|fields| - 1][i] == fields[i];
      if last.SigField? then init + [last.name] else init
  }

  /** The /Annots array of a page as a list, empty when the key is absent. */
  function ExistingAnnots(page: Page): seq<Annotation>
  {
    page.annots.GetOr([])
  }

  /** Adding one annotation: appended to /Annots when the page has it,
      otherwise /Annots is created holding just this one. */
  function AppendAnnotation(page: Page, a: Annotation): (r: Page)
    ensures r.annots == Some(ExistingAnnots(page) + [a])
    ensures r.contents == page.contents
  {
    match page.annots
    case Some(existing) => Page(page.contents, Some(existing + [a]))
    case None =>
      assert ExistingAnnots(page) + [a] == [a];
      Page(page.contents, Some([a]))
  }

  /** A page after a run of annotations has been added one by one: untouched
      when the run is empty, else the existing entries followed by the run. */
  function AddAnnotations(page: Page, run: seq<Annotation>): (r: Page)
    ensures r.contents == page.contents
    ensures run == [] ==> r == page
    ensures run != [] ==> r.annots == Some(ExistingAnnots(page) + run)
  {
    if run == [] then page else Page(page.contents, Some(ExistingAnnots(page) + run))
  }

  /** Adding one more annotation extends the run. */
  lemma AddOneMore(page: Page, run: seq<Annotation>, a: Annotation)
    ensures AppendAnnotation(AddAnnotations(page, run), a) == AddAnnotations(page, run + [a])
  {
    if run != [] {
      assert ExistingAnnots(page) + run + [a] == ExistingAnnots(page) + (run + [a]);
    } else {
      assert run + [a] == [a];
    }
  }

  /** pypdf's NumberObject stores int(value): the value truncated toward zero. */
  function NumberObject(v: real): (r: int)
    ensures v >= 0.0 ==> r as real <= v < r as real + 1.0
    ensures v < 0.0 ==> r as real - 1.0 < v <= r as real
  {
    if v >= 0.0 then v.Floor else -((-v).Floor)
  }

  /** An integer survives NumberObject unchanged. */
  lemma NumberObjectOfInt(i: int)
    ensures NumberObject(i as real) == i
  {
  }
}
