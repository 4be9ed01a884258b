/** The processing pipeline behind `process_file`: PDF check, text extraction,
    structured extraction, and the result record. The structured-extraction
    stage is a parameter (the service with its own dependencies bound), the
    clock reading is an opaque float, and each stage entered is recorded in a
    trace. The spreadsheet stage is disabled in the source and never runs. */
module Orchestrator {
  import opened Wrappers
  import opened Json
  import opened Errors
  import PdfService
  import OpenAiService
  import Config

  /** A stage of the pipeline, with the arguments it was given. */
  datatype Call =
    | ValidatePdfCall
    | ExtractTextCall
    | ExtractStructuredCall(text: string, schema: Option<JsonValue>)
    | GenerateExcelCall(templateName: Option<string>)

  /** What one run produced, and the stages it entered, in order. */
  datatype Pipeline = Pipeline(outcome: Result<JsonValue, AppError>, trace: seq<Call>)

  /** The result record: the structured data, and the processing time with the filename. */
  function ResultRecord(structured: JsonValue, filename: Option<string>, elapsed: Float): JsonValue {
    JObject([
      ("data", structured),
      ("metadata", JObject([
        ("processing_time", JFloat(elapsed)),
        ("filename", if filename.Some? then JString(filename.value) else JNull)]))])
  }

  /** `process_file`. `templateName` and `outputFormat` are accepted and, with
      the spreadsheet stage commented out, unused. */
  function ProcessFile(
    doc: PdfService.Opened,
    filename: Option<string>,
    templateName: Option<string>,
    outputFormat: string,
    ai: OpenAiService.Extractor,
    elapsed: Float): (run: Pipeline)
    ensures 1 <= |run.trace| <= 3 && run.trace[0] == ValidatePdfCall
    ensures forall k :: 0 <= k < |run.trace| ==> !run.trace[k].GenerateExcelCall?
    ensures run.outcome.Success? ==> |run.trace| == 3
  {
    if !PdfService.ValidatePdf(doc) then
      Pipeline(Failure(AppError(PDFProcessingError, PdfService.InvalidPdfMessage)), [ValidatePdfCall])
    else match PdfService.ExtractTextFromPdf(doc)
      case Failure(e) => Pipeline(Failure(e), [ValidatePdfCall, ExtractTextCall])
      case Success(text) =>
        var trace := [ValidatePdfCall, ExtractTextCall, ExtractStructuredCall(text, None)];
        match ai(text, None)
        case Failure(e) => Pipeline(Failure(e), trace)
        case Success(structured) => Pipeline(Success(ResultRecord(structured, filename, elapsed)), trace)
  }

  /** A document that does not open fails with a `PDFProcessingError` before
      text extraction or the structured-extraction stage is entered. */
  lemma InvalidPdfStopsEarly(
    doc: PdfService.Opened, filename: Option<string>, templateName: Option<string>,
    outputFormat: string, ai: OpenAiService.Extractor, elapsed: Float)
    requires doc.Failure?
    ensures var run := ProcessFile(doc, filename, templateName, outputFormat, ai, elapsed);
            && run.outcome == Failure(AppError(PDFProcessingError, PdfService.InvalidPdfMessage))
            && run.trace == [ValidatePdfCall]
  {
  }

  /** A text-extraction failure is passed on unchanged, and the
      structured-extraction stage is never entered. */
  lemma TextFailurePropagates(
    doc: PdfService.Opened, filename: Option<string>, templateName: Option<string>,
    outputFormat: string, ai: OpenAiService.Extractor, elapsed: Float)
    requires doc.Success? && PdfService.ExtractTextFromPdf(doc).Failure?
    ensures var run := ProcessFile(doc, filename, templateName, outputFormat, ai, elapsed);
            && run.outcome == Failure(PdfService.ExtractTextFromPdf(doc).error)
            && run.trace == [ValidatePdfCall, ExtractTextCall]
            && forall k :: 0 <= k < |run.trace| ==> !run.trace[k].ExtractStructuredCall?
  {
  }

  /** Once text is extracted, the structured-extraction stage is entered
      exactly once, with exactly that text and no schema; its failure is passed
      on unchanged, and its success becomes the `data` entry of a record whose
      only keys are `data` and `metadata`, the latter echoing the filename. */
  lemma ExtractionStage(
    doc: PdfService.Opened, filename: Option<string>, templateName: Option<string>,
    outputFormat: string, ai: OpenAiService.Extractor, elapsed: Float)
    requires PdfService.ExtractTextFromPdf(doc).Success?
    ensures var text := PdfService.ExtractTextFromPdf(doc).value;
            var run := ProcessFile(doc, filename, templateName, outputFormat, ai, elapsed);
            && run.trace == [ValidatePdfCall, ExtractTextCall, ExtractStructuredCall(text, None)]
            && (ai(text, None).Failure? ==> run.outcome == Failure(ai(text, None).error))
            && (ai(text, None).Success? ==>
                  && run.outcome.Success? && run.outcome.value.JObject?
                  && Keys(run.outcome.value.fields) == ["data", "metadata"]
                  && Lookup(run.outcome.value.fields, "data") == Some(ai(text, None).value)
                  && Lookup(MetadataOf(run.outcome.value), "filename")
                       == Some(if filename.Some? then JString(filename.value) else JNull))
  {
    assert doc.Success?;
    var text := PdfService.ExtractTextFromPdf(doc).value;
    if ai(text, None).Success? {
      RecordShape(ai(text, None).value, filename, elapsed);
    }
  }

  /** The result record holds the structured data under `data` and the
      filename (or null) under `metadata`. */
  lemma RecordShape(structured: JsonValue, filename: Option<string>, elapsed: Float)
    ensures var r := ResultRecord(structured, filename, elapsed);
            && r.JObject?
            && Keys(r.fields) == ["data", "metadata"]
            && Lookup(r.fields, "data") == Some(structured)
            && Lookup(MetadataOf(r), "filename") == Some(if filename.Some? then JString(filename.value) else JNull)
  {
    var r := ResultRecord(structured, filename, elapsed);
    assert Keys(r.fields) == ["data", "metadata"];
    assert Keys(MetadataOf(r)) == ["processing_time", "filename"];
  }

  /** The `metadata` entry's fields of a result record. */
  function MetadataOf(record: JsonValue): seq<(string, JsonValue)> {
    if record.JObject? && |record.fields| == 2 && record.fields[1].1.JObject? then record.fields[1].1.fields else []
  }

  /** Neither the template name nor the output format changes anything the
      pipeline does. */
  lemma TemplateAndFormatIgnored(
    doc: PdfService.Opened, filename: Option<string>,
    t1: Option<string>, f1: string, t2: Option<string>, f2: string, ai: OpenAiService.Extractor, elapsed: Float)
    ensures ProcessFile(doc, filename, t1, f1, ai, elapsed) == ProcessFile(doc, filename, t2, f2, ai, elapsed)
  {
  }

  /** With the chat-completion service as the extraction stage, a successful
      run's data is the parsed reply stamped with the configured model. */
  lemma WithOpenAiService(
    doc: PdfService.Opened, filename: Option<string>, templateName: Option<string>, outputFormat: string,
    settings: Config.Settings,
    service: OpenAiService.Request -> OpenAiService.Reply,
    loads: string -> Result<JsonValue, string>,
    dumps: JsonValue -> string,
    aiElapsed: Float, elapsed: Float)
    requires ProcessFile(doc, filename, templateName, outputFormat,
                         (t, s) => OpenAiService.ExtractStructuredData(t, s, settings, service, loads, dumps, aiElapsed).outcome,
                         elapsed).outcome.Success?
    ensures var ai := (t, s) => OpenAiService.ExtractStructuredData(t, s, settings, service, loads, dumps, aiElapsed).outcome;
            var run := ProcessFile(doc, filename, templateName, outputFormat, ai, elapsed);
            var data := Lookup(run.outcome.value.fields, "data");
            && data.Some? && data.value.JObject?
            && Lookup(data.value.fields, "_metadata").Some?
            && Lookup(data.value.fields, "_metadata").value.JObject?
            && Lookup(Lookup(data.value.fields, "_metadata").value.fields, "model_used")
                 == Some(JString(settings.openaiModel))
  {
    var ai := (t, s) => OpenAiService.ExtractStructuredData(t, s, settings, service, loads, dumps, aiElapsed).outcome;
    var text := PdfService.ExtractTextFromPdf(doc).value;
    ExtractionStage(doc, filename, templateName, outputFormat, ai, elapsed);
    var call := OpenAiService.ExtractStructuredData(text, None, settings, service, loads, dumps, aiElapsed);
    OpenAiService.MetadataNamesModel(aiElapsed, settings.openaiModel, service(call.request).totalTokens);
  }
}
