/** The HTTP handlers of the API: which stages each runs, in which order, and
    how each exception escaping its `try` body becomes an HTTP status and
    detail. An exception is a `CertiflowException` subclass, an
    `HTTPException` raised inside the body, or anything else. The services
    the handlers call are the ones modelled in the other modules; the OpenAI
    client, the template directory, the clock and the disk are parameters.

    Every handler ends in a catch-all `except Exception` that also catches the
    `HTTPException`s its own body raises. Each such handler is modelled as
    written, and also with those exceptions let through, which is what the
    raised status codes evidently intend. */
module Routes {
  import opened Wrappers
  import opened Text
  import opened Json
  import opened Errors
  import Config
  import FileUtils
  import PdfService
  import OpenAiService
  import ExcelService

  /** An exception escaping a handler's `try` body. */
  datatype Raised =
    | AppRaised(error: AppError)
    | HttpRaised(status: int, detail: string)
    | OtherRaised(reason: string)

  /** The `HTTPException` a handler ends with. */
  datatype HttpError = HttpError(status: int, detail: string)

  datatype Response<T> = Ok(body: T) | Err(error: HttpError)

  /** A stage a handler entered. */
  datatype Stage =
    | ValidateFileStage
    | ValidatePdfStage
    | ExtractTextStage
    | ExtractStructuredStage(text: string)
    | GenerateExcelStage(templateName: Option<string>)
    | SaveUploadStage

  /** What the `try` body produced, and the stages it entered, in order. */
  datatype Attempt<T> = Attempt(outcome: Result<T, Raised>, trace: seq<Stage>)

  /** What the handler answered, and the stages it entered, in order. */
  datatype Handled<T> = Handled(response: Response<T>, trace: seq<Stage>)

  const InternalErrorDetail := "Error interno del servidor"
  const PdfErrorPrefix := "Error procesando PDF: "
  const AiErrorPrefix := "Error procesando con IA: "
  const SpreadsheetErrorPrefix := "Error generando Excel: "
  const UploadedMessage := "Archivo PDF subido exitosamente"
  const SaveErrorPrefix := "Error guardando archivo: "
  const NotFoundDetail := "Archivo no encontrado"
  const DownloadErrorDetail := "Error descargando archivo"
  const TemplatesErrorDetail := "Error listando plantillas"
  const SpreadsheetMediaType := "application/vnd.openxmlformats-officedocument.spreadsheetml.sheet"

  /** Why building the response record fails when the extracted data is not a dict. */
  const RecordValidationError := "extracted_fields: Input should be a valid dictionary"

  /** The catch clause a corrected handler puts first: an `HTTPException` is
      re-raised as it is, anything else goes to the handler's own clauses. */
  function PassHttp(r: Raised, otherwise: HttpError): (e: HttpError)
    ensures r.HttpRaised? ==> e == HttpError(r.status, r.detail)
    ensures !r.HttpRaised? ==> e == otherwise
  {
    if r.HttpRaised? then HttpError(r.status, r.detail) else otherwise
  }

  // ------------------------------------------------------------------ extract_data

  /** The services and outside world `extract_data` depends on: the settings,
      the structured-extraction service, the template directory, the clock
      reading that names the report, and whether saving the report fails. */
  datatype Environment = Environment(
    settings: Config.Settings,
    ai: OpenAiService.Extractor,
    templates: map<string, ExcelService.TemplateFile>,
    timestamp: string,
    saveError: Option<string>)

  /** A successful `extract_data` response: the extracted fields and the
      report path, present only when a spreadsheet was generated. */
  datatype Processing = Processing(fields: seq<(string, JsonValue)>, excelPath: Option<string>)

  /** Whether the requested output format asks for a spreadsheet. */
  predicate WantsSpreadsheet(outputFormat: string) {
    Lower(outputFormat) == "excel"
  }

  /** The position each stage of `extract_data` must hold in its trace. */
  function ExtractRank(s: Stage): int {
    match s
    case ValidateFileStage => 0
    case ValidatePdfStage => 1
    case ExtractTextStage => 2
    case ExtractStructuredStage(_) => 3
    case GenerateExcelStage(_) => 4
    case SaveUploadStage => -1
  }

  /** The trace runs the stages in their fixed order, none skipped. */
  predicate InExtractOrder(trace: seq<Stage>) {
    forall k :: 0 <= k < |trace| ==> ExtractRank(trace[k]) == k
  }

  /** The `try` body of `extract_data`. */
  function ExtractAttempt(
    file: FileUtils.Upload, doc: PdfService.Opened, outputFormat: string, templateName: Option<string>,
    env: Environment): (a: Attempt<Processing>)
    ensures 1 <= |a.trace| <= 5 && InExtractOrder(a.trace)
  {
    ShortTracesOrdered();
    match FileUtils.ValidateFile(Some(file), env.settings)
    case Failure(e) => Attempt(Failure(AppRaised(e)), [ValidateFileStage])
    case Success(_) =>
      if !PdfService.ValidatePdf(doc) then
        Attempt(Failure(HttpRaised(400, PdfService.InvalidPdfMessage)), [ValidateFileStage, ValidatePdfStage])
      else match PdfService.ExtractTextFromPdf(doc)
        case Failure(e) => Attempt(Failure(AppRaised(e)), [ValidateFileStage, ValidatePdfStage, ExtractTextStage])
        case Success(text) => AiStage(text, outputFormat, templateName, env)
  }

  /** The stages of `extract_data` from the OpenAI call on, once `text` is extracted. */
  function AiStage(text: string, outputFormat: string, templateName: Option<string>, env: Environment)
    : (a: Attempt<Processing>)
    ensures 4 <= |a.trace| <= 5 && InExtractOrder(a.trace)
    ensures a.trace[3] == ExtractStructuredStage(text)
  {
    var trace := [ValidateFileStage, ValidatePdfStage, ExtractTextStage, ExtractStructuredStage(text)];
    FullTraceOrdered(text, templateName);
    match env.ai(text, None)
    case Failure(e) => Attempt(Failure(AppRaised(e)), trace)
    case Success(structured) =>
      if !structured.JObject? then Attempt(Failure(OtherRaised(RecordValidationError)), trace)
      else if !WantsSpreadsheet(outputFormat) then Attempt(Success(Processing(structured.fields, None)), trace)
      else
        var run := ExcelService.GenerateExcelReport(
          structured.fields, templateName, env.templates, env.timestamp, env.saveError);
        var full := trace + [GenerateExcelStage(templateName)];
        match run.outcome
        case Failure(e) => Attempt(Failure(AppRaised(e)), full)
        case Success(report) => Attempt(Success(Processing(structured.fields, Some(report.path))), full)
  }

  /** The traces of a run that stops before OpenAI run their stages in order. */
  lemma ShortTracesOrdered()
    ensures InExtractOrder([ValidateFileStage])
    ensures InExtractOrder([ValidateFileStage, ValidatePdfStage])
    ensures InExtractOrder([ValidateFileStage, ValidatePdfStage, ExtractTextStage])
  {
  }

  /** The traces of a run that reaches OpenAI run their stages in order. */
  lemma FullTraceOrdered(text: string, templateName: Option<string>)
    ensures InExtractOrder([ValidateFileStage, ValidatePdfStage, ExtractTextStage, ExtractStructuredStage(text)])
    ensures InExtractOrder([ValidateFileStage, ValidatePdfStage, ExtractTextStage, ExtractStructuredStage(text)]
                           + [GenerateExcelStage(templateName)])
  {
  }

  /** The `except` clauses of `extract_data`: a PDF error is the client's
      fault (400), an OpenAI or spreadsheet error the server's (500), each
      with its own prefix; anything else, a file-validation error or an
      `HTTPException` included, is a bare 500. */
  function ExtractDataHandler(r: Raised): (e: HttpError)
    ensures e.status == 400 || e.status == 500
    ensures e.status == 400 <==> r.AppRaised? && r.error.kind == PDFProcessingError
    ensures r.AppRaised? && r.error.kind in {PDFProcessingError, OpenAIError, ExcelGenerationError} ==>
              EndsWith(e.detail, r.error.message) && |e.detail| > |r.error.message|
    ensures !(r.AppRaised? && r.error.kind in {PDFProcessingError, OpenAIError, ExcelGenerationError}) ==>
              e == HttpError(500, InternalErrorDetail)
  {
    if r.AppRaised? && r.error.kind == PDFProcessingError then
      HttpError(400, Prefixed(PdfErrorPrefix, r.error.message))
    else if r.AppRaised? && r.error.kind == OpenAIError then
      HttpError(500, Prefixed(AiErrorPrefix, r.error.message))
    else if r.AppRaised? && r.error.kind == ExcelGenerationError then
      HttpError(500, Prefixed(SpreadsheetErrorPrefix, r.error.message))
    else HttpError(500, InternalErrorDetail)
  }

  /** A non-empty prefix in front of a message. */
  function Prefixed(prefix: string, message: string): (d: string)
    requires |prefix| > 0
    ensures EndsWith(d, message) && StartsWith(d, prefix) && |d| > |message|
  {
    var d := prefix + message;
    assert d[|d| - |message|..] == message;
    assert d[..|prefix|] == prefix;
    d
  }

  /** `extract_data` as written. */
  function ExtractData(
    file: FileUtils.Upload, doc: PdfService.Opened, outputFormat: string, templateName: Option<string>,
    env: Environment): (h: Handled<Processing>)
    ensures 1 <= |h.trace| <= 5 && InExtractOrder(h.trace)
    ensures h.response.Err? ==> h.response.error.status == 400 || h.response.error.status == 500
    ensures h.response.Ok? ==>
              && |h.trace| == (if WantsSpreadsheet(outputFormat) then 5 else 4)
              && (h.response.body.excelPath.Some? <==> WantsSpreadsheet(outputFormat))
              && (h.response.body.excelPath.Some? ==>
                    h.response.body.excelPath.value == ExcelService.ReportPath(env.timestamp))
  {
    var a := ExtractAttempt(file, doc, outputFormat, templateName, env);
    match a.outcome
    case Success(p) => Handled(Ok(p), a.trace)
    case Failure(r) => Handled(Err(ExtractDataHandler(r)), a.trace)
  }

  /** `extract_data` with its `HTTPException` let through. */
  function ExtractDataIntended(
    file: FileUtils.Upload, doc: PdfService.Opened, outputFormat: string, templateName: Option<string>,
    env: Environment): (h: Handled<Processing>)
    ensures h.trace == ExtractData(file, doc, outputFormat, templateName, env).trace
    ensures h.response != ExtractData(file, doc, outputFormat, templateName, env).response ==>
              var a := ExtractAttempt(file, doc, outputFormat, templateName, env);
              a.outcome.Failure? && a.outcome.error.HttpRaised?
  {
    var a := ExtractAttempt(file, doc, outputFormat, templateName, env);
    match a.outcome
    case Success(p) => Handled(Ok(p), a.trace)
    case Failure(r) => Handled(Err(PassHttp(r, ExtractDataHandler(r))), a.trace)
  }

  /** A rejected upload is a `FileValidationError`, which no specific clause
      catches: it becomes a bare 500 and nothing else runs. */
  lemma RejectedUploadIsInternalError(
    file: FileUtils.Upload, doc: PdfService.Opened, outputFormat: string, templateName: Option<string>,
    env: Environment)
    requires !FileUtils.Acceptable(Some(file), env.settings)
    ensures ExtractData(file, doc, outputFormat, templateName, env)
            == Handled(Err(HttpError(500, InternalErrorDetail)), [ValidateFileStage])
  {
  }

  /** An accepted upload that is not a PDF raises a 400 that the catch-all
      turns into a bare 500; let through, it stays a 400. */
  lemma InvalidPdfStatus(
    file: FileUtils.Upload, doc: PdfService.Opened, outputFormat: string, templateName: Option<string>,
    env: Environment)
    requires FileUtils.Acceptable(Some(file), env.settings) && !PdfService.ValidatePdf(doc)
    ensures ExtractData(file, doc, outputFormat, templateName, env)
            == Handled(Err(HttpError(500, InternalErrorDetail)), [ValidateFileStage, ValidatePdfStage])
    ensures ExtractDataIntended(file, doc, outputFormat, templateName, env)
            == Handled(Err(HttpError(400, PdfService.InvalidPdfMessage)), [ValidateFileStage, ValidatePdfStage])
  {
  }

  /** A text-extraction failure is a 400 carrying the service's message, and
      neither OpenAI nor the spreadsheet stage runs. */
  lemma TextFailureIsBadRequest(
    file: FileUtils.Upload, doc: PdfService.Opened, outputFormat: string, templateName: Option<string>,
    env: Environment)
    requires FileUtils.Acceptable(Some(file), env.settings) && PdfService.ValidatePdf(doc)
    requires PdfService.ExtractTextFromPdf(doc).Failure?
    ensures ExtractData(file, doc, outputFormat, templateName, env)
            == Handled(Err(HttpError(400, PdfErrorPrefix + PdfService.ExtractTextFromPdf(doc).error.message)),
                       [ValidateFileStage, ValidatePdfStage, ExtractTextStage])
  {
  }

  /** OpenAI sees exactly the extracted text; an `OpenAIError` it raises is a
      500 carrying its message, and no spreadsheet is generated. */
  lemma AiFailureIsServerError(
    file: FileUtils.Upload, doc: PdfService.Opened, outputFormat: string, templateName: Option<string>,
    env: Environment)
    requires FileUtils.Acceptable(Some(file), env.settings)
    requires PdfService.ExtractTextFromPdf(doc).Success?
    requires var text := PdfService.ExtractTextFromPdf(doc).value;
             env.ai(text, None).Failure? && env.ai(text, None).error.kind == OpenAIError
    ensures var text := PdfService.ExtractTextFromPdf(doc).value;
            ExtractData(file, doc, outputFormat, templateName, env)
            == Handled(Err(HttpError(500, AiErrorPrefix + env.ai(text, None).error.message)),
                       [ValidateFileStage, ValidatePdfStage, ExtractTextStage, ExtractStructuredStage(text)])
  {
  }

  /** When a spreadsheet is asked for and its generation fails, the response
      is a 500 whose detail carries both prefixes; the data is lost. */
  lemma SpreadsheetFailureIsServerError(
    file: FileUtils.Upload, doc: PdfService.Opened, outputFormat: string, templateName: Option<string>,
    env: Environment)
    requires FileUtils.Acceptable(Some(file), env.settings)
    requires PdfService.ExtractTextFromPdf(doc).Success?
    requires var text := PdfService.ExtractTextFromPdf(doc).value;
             env.ai(text, None).Success? && env.ai(text, None).value.JObject?
    requires WantsSpreadsheet(outputFormat)
    requires var text := PdfService.ExtractTextFromPdf(doc).value;
             ExcelService.GenerateExcelReport(env.ai(text, None).value.fields, templateName, env.templates,
                                              env.timestamp, env.saveError).outcome.Failure?
    ensures var h := ExtractData(file, doc, outputFormat, templateName, env);
            && h.response.Err?
            && h.response.error.status == 500
            && StartsWith(h.response.error.detail, SpreadsheetErrorPrefix + ExcelService.ExcelErrorPrefix)
            && |h.trace| == 5
  {
    var text := PdfService.ExtractTextFromPdf(doc).value;
    var run := ExcelService.GenerateExcelReport(env.ai(text, None).value.fields, templateName, env.templates,
                                                env.timestamp, env.saveError);
    PrefixBeforePrefix(SpreadsheetErrorPrefix, ExcelService.ExcelErrorPrefix, run.outcome.error.message);
  }

  /** A prefix put in front of a message that starts with another prefix. */
  lemma PrefixBeforePrefix(p: string, q: string, m: string)
    requires StartsWith(m, q)
    ensures StartsWith(p + m, p + q)
  {
    assert (p + m)[..|p + q|] == p + m[..|q|];
  }

  /** Once OpenAI returns a record, the response succeeds when no spreadsheet
      is asked for, whatever the template name, and carries the record's
      fields unchanged with no report path. */
  lemma JsonOutputSucceeds(
    file: FileUtils.Upload, doc: PdfService.Opened, outputFormat: string, templateName: Option<string>,
    env: Environment)
    requires FileUtils.Acceptable(Some(file), env.settings)
    requires PdfService.ExtractTextFromPdf(doc).Success?
    requires var text := PdfService.ExtractTextFromPdf(doc).value;
             env.ai(text, None).Success? && env.ai(text, None).value.JObject?
    requires !WantsSpreadsheet(outputFormat)
    ensures var text := PdfService.ExtractTextFromPdf(doc).value;
            ExtractData(file, doc, outputFormat, templateName, env).response
            == Ok(Processing(env.ai(text, None).value.fields, None))
  {
  }

  /** Data that is not a dict fails the response record's validation, a bare 500. */
  lemma NonDictDataIsInternalError(
    file: FileUtils.Upload, doc: PdfService.Opened, outputFormat: string, templateName: Option<string>,
    env: Environment)
    requires FileUtils.Acceptable(Some(file), env.settings)
    requires PdfService.ExtractTextFromPdf(doc).Success?
    requires var text := PdfService.ExtractTextFromPdf(doc).value;
             env.ai(text, None).Success? && !env.ai(text, None).value.JObject?
    ensures ExtractData(file, doc, outputFormat, templateName, env).response
            == Err(HttpError(500, InternalErrorDetail))
  {
  }

  // ------------------------------------------------------------------ upload_pdf

  /** A successful `upload_pdf` response. */
  datatype Uploaded = Uploaded(message: string, filename: string, fileSize: nat)

  /** The `try` body of `upload_pdf`; `saveError` is the failure, if any, of
      writing the content to the upload directory. */
  function UploadAttempt(
    file: FileUtils.Upload, doc: PdfService.Opened, settings: Config.Settings, saveError: Option<string>)
    : (a: Attempt<Uploaded>)
    ensures a.outcome.Success? <==>
              FileUtils.Acceptable(Some(file), settings) && PdfService.ValidatePdf(doc) && saveError.None?
  {
    match FileUtils.ValidateFile(Some(file), settings)
    case Failure(e) => Attempt(Failure(AppRaised(e)), [ValidateFileStage])
    case Success(_) =>
      if !PdfService.ValidatePdf(doc) then
        Attempt(Failure(HttpRaised(400, PdfService.InvalidPdfMessage)), [ValidateFileStage, ValidatePdfStage])
      else
        var trace := [ValidateFileStage, ValidatePdfStage, SaveUploadStage];
        match saveError
        case Some(e) => Attempt(Failure(AppRaised(AppError(FileValidationError, SaveErrorPrefix + e))), trace)
        case None => Attempt(Success(Uploaded(UploadedMessage, file.filename.value, file.size)), trace)
  }

  /** The `except` clauses of `upload_pdf`: any application error is a 400
      carrying its message, anything else a bare 500. */
  function UploadHandler(r: Raised): (e: HttpError)
    ensures e.status == 400 <==> r.AppRaised?
    ensures r.AppRaised? ==> e.detail == r.error.message
    ensures !r.AppRaised? ==> e == HttpError(500, InternalErrorDetail)
  {
    if r.AppRaised? then HttpError(400, r.error.message) else HttpError(500, InternalErrorDetail)
  }

  /** `upload_pdf` as written. */
  function UploadPdf(
    file: FileUtils.Upload, doc: PdfService.Opened, settings: Config.Settings, saveError: Option<string>)
    : (h: Handled<Uploaded>)
    ensures h.response.Ok? <==>
              FileUtils.Acceptable(Some(file), settings) && PdfService.ValidatePdf(doc) && saveError.None?
    ensures h.response.Ok? ==>
              h.response.body == Uploaded(UploadedMessage, file.filename.value, file.size)
              && h.trace == [ValidateFileStage, ValidatePdfStage, SaveUploadStage]
    ensures SaveUploadStage in h.trace <==> FileUtils.Acceptable(Some(file), settings) && PdfService.ValidatePdf(doc)
  {
    var a := UploadAttempt(file, doc, settings, saveError);
    match a.outcome
    case Success(u) => Handled(Ok(u), a.trace)
    case Failure(r) => Handled(Err(UploadHandler(r)), a.trace)
  }

  /** `upload_pdf` with its `HTTPException` let through. */
  function UploadPdfIntended(
    file: FileUtils.Upload, doc: PdfService.Opened, settings: Config.Settings, saveError: Option<string>)
    : (h: Handled<Uploaded>)
    ensures h.trace == UploadPdf(file, doc, settings, saveError).trace
    ensures h.response != UploadPdf(file, doc, settings, saveError).response ==>
              var a := UploadAttempt(file, doc, settings, saveError);
              a.outcome.Failure? && a.outcome.error.HttpRaised?
  {
    var a := UploadAttempt(file, doc, settings, saveError);
    match a.outcome
    case Success(u) => Handled(Ok(u), a.trace)
    case Failure(r) => Handled(Err(PassHttp(r, UploadHandler(r))), a.trace)
  }

  /** A rejected upload is a 400 with the validator's message. */
  lemma UploadRejectionIsBadRequest(
    file: FileUtils.Upload, doc: PdfService.Opened, settings: Config.Settings, saveError: Option<string>)
    requires !FileUtils.Acceptable(Some(file), settings)
    ensures UploadPdf(file, doc, settings, saveError)
            == Handled(Err(HttpError(400, FileUtils.ValidateFile(Some(file), settings).error.message)),
                       [ValidateFileStage])
  {
  }

  /** An accepted upload that is not a PDF raises a 400 that the catch-all
      turns into a bare 500; let through, it stays a 400. Nothing is saved. */
  lemma UploadInvalidPdfStatus(
    file: FileUtils.Upload, doc: PdfService.Opened, settings: Config.Settings, saveError: Option<string>)
    requires FileUtils.Acceptable(Some(file), settings) && !PdfService.ValidatePdf(doc)
    ensures UploadPdf(file, doc, settings, saveError)
            == Handled(Err(HttpError(500, InternalErrorDetail)), [ValidateFileStage, ValidatePdfStage])
    ensures UploadPdfIntended(file, doc, settings, saveError)
            == Handled(Err(HttpError(400, PdfService.InvalidPdfMessage)), [ValidateFileStage, ValidatePdfStage])
  {
  }

  /** A failed save is reported as a file-validation error, hence a 400. */
  lemma SaveFailureIsBadRequest(
    file: FileUtils.Upload, doc: PdfService.Opened, settings: Config.Settings, reason: string)
    requires FileUtils.Acceptable(Some(file), settings) && PdfService.ValidatePdf(doc)
    ensures UploadPdf(file, doc, settings, Some(reason)).response
            == Err(HttpError(400, SaveErrorPrefix + reason))
  {
  }

  // ------------------------------------------------------------------ download_excel

  /** A file response: where the file is, the name it is offered under, and its media type. */
  datatype Download = Download(path: string, filename: string, mediaType: string)

  /** `download_excel` as written; `existing` holds the paths that exist. */
  function DownloadExcel(filename: string, existing: set<string>): (r: Response<Download>)
    ensures r.Ok? <==> ExcelService.OutputDir + filename in existing
    ensures r.Ok? ==> r.body == Download(ExcelService.OutputDir + filename, filename, SpreadsheetMediaType)
    ensures r.Err? ==> r.error == HttpError(500, DownloadErrorDetail)
  {
    var path := ExcelService.OutputDir + filename;
    if path !in existing then Err(DownloadHandler(HttpRaised(404, NotFoundDetail)))
    else Ok(Download(path, filename, SpreadsheetMediaType))
  }

  /** The one `except` clause of `download_excel`. */
  function DownloadHandler(r: Raised): (e: HttpError)
    ensures e.status == 500
  {
    HttpError(500, DownloadErrorDetail)
  }

  /** `download_excel` with its `HTTPException` let through. */
  function DownloadExcelIntended(filename: string, existing: set<string>): (r: Response<Download>)
    ensures r.Ok? <==> ExcelService.OutputDir + filename in existing
    ensures r.Ok? ==> r == DownloadExcel(filename, existing)
  {
    var path := ExcelService.OutputDir + filename;
    if path !in existing then
      var raised := HttpRaised(404, NotFoundDetail);
      Err(PassHttp(raised, DownloadHandler(raised)))
    else Ok(Download(path, filename, SpreadsheetMediaType))
  }

  /** A missing file raises a 404 that the catch-all turns into a 500; let
      through, it stays a 404. */
  lemma MissingDownloadStatus(filename: string, existing: set<string>)
    requires ExcelService.OutputDir + filename !in existing
    ensures DownloadExcel(filename, existing) == Err(HttpError(500, DownloadErrorDetail))
    ensures DownloadExcelIntended(filename, existing) == Err(HttpError(404, NotFoundDetail))
  {
  }

  // ------------------------------------------------------------------ list_templates

  /** `list_templates`: the names the template directory yields, or the
      reason listing it failed. */
  function ListTemplates(listing: Result<seq<string>, string>): (r: Response<JsonValue>)
    ensures r.Ok? <==> listing.Success?
    ensures r.Err? ==> r.error == HttpError(500, TemplatesErrorDetail)
    ensures r.Ok? ==>
              && r.body.JObject?
              && Keys(r.body.fields) == ["templates", "count"]
              && Lookup(r.body.fields, "count") == Some(JInt(|listing.value|))
              && Lookup(r.body.fields, "templates").Some?
              && Lookup(r.body.fields, "templates").value.JList?
              && |Lookup(r.body.fields, "templates").value.items| == |listing.value|
              && forall i :: 0 <= i < |listing.value| ==>
                   Lookup(r.body.fields, "templates").value.items[i] == JString(listing.value[i])
  {
    match listing
    case Failure(_) => Err(HttpError(500, TemplatesErrorDetail))
    case Success(names) =>
      var items := seq(|names|, i requires 0 <= i < |names| => JString(names[i]));
      var fields := [("templates", JList(items)), ("count", JInt(|names|))];
      assert Keys(fields) == ["templates", "count"];
      assert KeyIndex(fields, "count") == 1;
      Ok(JObject(fields))
  }
}
