# certiflow worker — a Dafny model of its decision logic

The certiflow worker is a web service that takes an uploaded PDF and extracts its text page by page. It asks an OpenAI chat model to turn that text into a JSON record and can write the record into an Excel workbook. This project models the parts of the worker that make decisions and proves what they promise:

- the upload check (`validate_file`);
- PDF text assembly (`extract_text_from_pdf`, `validate_pdf`);
- the prompt, request and reply handling of the OpenAI service;
- the processing pipeline (`process_file`);
- the spreadsheet layout (`generate_excel_report` and its helpers);
- the pure validators (e-mail, phone, `clean_text`, `sanitize_filename`, dotted-path lookup);
- the API handlers' stage order and the mapping from exceptions to HTTP status codes.

External libraries and effects are parameters of the model:

| Outside dependency | Modelled as |
|---|---|
| pdfplumber | The outcome of opening the document: its pages, each yielding text, yielding none, or raising. |
| The OpenAI client | A function from the request record to a reply. |
| `json.loads` / `json.dumps` | Uninterpreted functions. |
| openpyxl | A worksheet as a map from (row, column) to cell value. A template directory as a map from name to workbook. |
| Saving a file | An optional error. |
| The clock | A timestamp string and opaque floats. |

Python dicts are insertion-ordered sequences of (key, value) pairs. Strings are over ASCII: `\s`, `\d`, `isspace` and `lower` classify ASCII only.

Files:

| File | Module | Contents |
|---|---|---|
| `wrappers.dfy` | `Wrappers` | `Option` and `Result`. |
| `text.dfy` | `Text` | `strip`, `lower`, `split`, `rfind` and `str(int)`. |
| `json.dfy` | `Json` | JSON values, `type(v).__name__`, truthiness, dict lookup and assignment. |
| `errors.dfy` | `Errors` | The exception hierarchy (app/models/exceptions.py). |
| `config.dfy` | `Config` | The settings record and its defaults (app/core/config.py:24-29). |
| `pdf_service.dfy` | `PdfService` | |
| `openai_service.dfy` | `OpenAiService` | |
| `orchestrator.dfy` | `Orchestrator` | |
| `excel_service.dfy` | `ExcelService` | |
| `validators.dfy` | `Validators` | |
| `file_utils.dfy` | `FileUtils` | |
| `routes.dfy` | `Routes` | |

## Model

| member | source | states |
|---|---|---|
| Text.Strip | app/utils/validators.py:123 | `str.strip()`: the result is the slice of the input between a whitespace-only prefix and a whitespace-only suffix. It is empty exactly when the input is all whitespace, and otherwise starts and ends with a non-space. |
| Text.Split | app/utils/validators.py:202 | `key_path.split('.')`: never an empty list, no part contains the separator, and a string without the separator is its own single part. |
| Text.SplitAppend | app/utils/validators.py:202 | Splitting `p + "." + q` gives the parts of `p` followed by the parts of `q`. With the single-part case this fixes the split of every string. |
| Text.NatToString | app/services/pdf_service.py:51 | `str(n)` for the 1-based page number (and the list index at app/services/excel_service.py:189): a non-empty run of decimal digits whose value, read left to right, is `n`, with no leading zero. |
| Text.NatToStringInjective | app/services/pdf_service.py:51 | Two numbers are written the same exactly when they are equal, so distinct pages get distinct markers. |
| Json.Put | app/services/openai_service.py:72-76 | `d[key] = v`: afterwards `key` maps to `v` and every other key to what it mapped to before. An existing key keeps its position and a new one is appended. Distinct keys stay distinct. |
| Json.Lookup | app/services/excel_service.py:131 | `d.get(key)` finds a value exactly when `key` is one of the dict's keys, and that (key, value) pair is an entry of the dict. |
| PdfService.ExtractTextFromPdf | app/services/pdf_service.py:37-65 | Every failure is a `PDFProcessingError` whose message starts with "Error procesando PDF: ". An unopenable document, a document without pages and a document without text each fail with their own message. A success is non-empty and stripped at both ends. |
| PdfService.ValidatePdf | app/services/pdf_service.py:67-82 | A document passes exactly when it opens. A rejected document also fails text extraction with the opener's message. |
| PdfService.ContributorsFromSpec | app/services/pdf_service.py:47-52 | The contributing pages are exactly the pages whose text is non-blank, each with its own text and index, in strictly increasing page order. |
| PdfService.AssembleIsRender | app/services/pdf_service.py:46-55 | The page loop produces exactly the rendering of the contributing pages: each page's 1-based marker followed by its text, in page order. |
| PdfService.RenderBlankIff | app/services/pdf_service.py:57-58 | The assembled text is blank exactly when no page contributes. |
| PdfService.ExtractTextMeaning | app/services/pdf_service.py:43-61 | A document with pages extracts successfully exactly when some page has non-blank text. The result is then the stripped rendering of the contributing pages. |
| PdfService.RaisingPageIsSkipped | app/services/pdf_service.py:53-55 | A page whose extraction raises gives the same result as a page with no text. It never fails the document. |
| PdfService.FirstMarkerLeads | app/services/pdf_service.py:51-61 | A successful extraction starts with the marker of the first contributing page, without its leading newline. |
| OpenAiService.BuildExtractionPrompt | app/services/openai_service.py:98-116 | The prompt is built in this order: the fixed opening, the text verbatim, the instructions, the schema block and the closing sentence. The schema block is present only for a truthy schema. The opening, the text, the instructions and the closing sentence each sit verbatim at fixed offsets. |
| OpenAiService.PromptDeterminesText | app/services/openai_service.py:98-102 | Two texts that give the same prompt, with the same schema, are equal. |
| OpenAiService.MetadataNamesModel | app/services/openai_service.py:72-76 | The `_metadata` record names the configured model under `model_used`. |
| OpenAiService.AttachMetadata | app/services/openai_service.py:72-85 | Setting `_metadata` succeeds exactly on a dict. It sets `_metadata`, keeps every other key's value, and keeps or extends the key order. On any other value it fails with an `OpenAIError`. |
| OpenAiService.ExtractStructuredData | app/services/openai_service.py:37-85 | The request always carries the configured model, the configured max tokens, temperature 0.1, the json_object format, the system instruction and the prompt. The call succeeds exactly when the reply has content that parses to a dict. On success `_metadata` names the model and the token count, and every other key keeps its parsed value. Every failure is an `OpenAIError`. |
| OpenAiService.UnparseableContentIsInvalidResponse | app/services/openai_service.py:80-82 | Content that does not parse gives "Respuesta inválida de OpenAI: " followed by the decoder's message. |
| Orchestrator.ProcessFile | app/services/orchestrator.py:28-69 | The pipeline always starts with PDF validation, enters at most three stages and never generates a spreadsheet. A success has gone through all three stages. |
| Orchestrator.InvalidPdfStopsEarly | app/services/orchestrator.py:43-44 | An invalid PDF fails with `PDFProcessingError` "El archivo no es un PDF válido". Only validation runs. |
| Orchestrator.TextFailurePropagates | app/services/orchestrator.py:47-52 | A text-extraction failure is passed on unchanged, and the OpenAI stage is never entered. |
| Orchestrator.ExtractionStage | app/services/orchestrator.py:52-69 | The OpenAI stage runs once, with exactly the extracted text and no schema. Its failure is passed on unchanged. Its success becomes `data` in a record keyed exactly `data`, `metadata`, where `metadata.filename` echoes the filename. |
| Orchestrator.RecordShape | app/services/orchestrator.py:60-69 | The result record has exactly the keys `data` and `metadata`. `data` holds the structured record and `metadata.filename` holds the filename or null. |
| Orchestrator.TemplateAndFormatIgnored | app/services/orchestrator.py:54-56 | The template name and the output format change nothing in the result. |
| Orchestrator.WithOpenAiService | app/services/orchestrator.py:52-68 | With the real service bound in, a successful result's `data._metadata.model_used` is the configured model. |
| ExcelService.SelectSheet | app/services/excel_service.py:122-128 | The target sheet is the one titled "Datos" if there is one, else "Sheet1" if there is one, else the active sheet. |
| ExcelService.AddMetadata | app/services/excel_service.py:153-165 | Falsy metadata writes nothing. A truthy non-dict fails (no `.items()`). |
| ExcelService.MetadataLayout | app/services/excel_service.py:158-165 | A non-empty metadata dict writes its title at (1, 5) and entry k at row k+2, with the key in column 5 and the value in column 6. No other cell changes. |
| ExcelService.StartRowIgnoresMetadata | app/services/excel_service.py:131-134 | Writing the metadata block never moves the start row, because cell (1, 1) lies outside that block. |
| ExcelService.FindStartRow | app/services/excel_service.py:167-172 | Data starts at row 2 exactly when cell (1, 1) holds "Campo", "Dato" or "Key", and at row 1 otherwise. |
| ExcelService.AddDictDataWritesRows | app/services/excel_service.py:174-183 | A dict value writes one row per child, labelled `parent.child`, in order. It returns the row after the last one written. |
| ExcelService.AddListDataWritesRows | app/services/excel_service.py:185-194 | A list value writes one row per item, labelled `parent[i]` with i counted from 0. It returns the row after the last one written. |
| ExcelService.PopulateRowsWritesFlatten | app/services/excel_service.py:137-151 | The data loop writes exactly the flattened record, contiguously from the start row. It returns the row after the last one written. |
| ExcelService.WriteRowsPlacement | app/services/excel_service.py:148-151 | Row k of the block holds the label, the shown value and the type name of the k-th flattened entry in columns 1 to 3. No other cell changes. |
| ExcelService.FlattenLength | app/services/excel_service.py:138-151 | The number of data rows is the sum over visible keys of the dict's size, the list's length, or 1. |
| ExcelService.NoHiddenLabel | app/services/excel_service.py:138-140 | No data row's label starts with `_`. |
| ExcelService.HiddenEntryWritesNothing | app/services/excel_service.py:139-140 | An entry whose key starts with `_` adds no rows, wherever it sits in the record. |
| ExcelService.PopulateWorkbook | app/services/excel_service.py:114-151 | Filling a workbook fails when there is no sheet to fill. Otherwise it keeps every sheet's title and replaces only the chosen sheet. |
| ExcelService.PopulateLayout | app/services/excel_service.py:131-151 | The filled sheet holds the flattened rows from the start row onward. Every cell outside that block is as the metadata stage left it. |
| ExcelService.MetadataSurvivesData | app/services/excel_service.py:131-151 | After the whole fill, a non-empty metadata dict is still at (1, 5) and below. The data rows never overwrite it. |
| ExcelService.DefaultSheetLayout | app/services/excel_service.py:96-111 | The default workbook's one sheet keeps its title and its four headers in row 1, and gets the flattened rows from row 2. |
| ExcelService.LoadTemplate | app/services/excel_service.py:66-87 | A missing template fails with `TemplateNotFoundError` "Plantilla no encontrada: name". Loading succeeds exactly when the file exists and reads. |
| ExcelService.GenerateExcelReport | app/services/excel_service.py:40-64 | Every failure is an `ExcelGenerationError` starting with "Error generando archivo Excel: ". A report with no failing template load, no failing fill and no failing save succeeds. Cell-write failures inside openpyxl are not modelled. A failed save comes out wrapped. A successful report's path is `output/certiflow_report_<timestamp>.xlsx`. |
| ExcelService.MissingTemplateIsExcelError | app/services/excel_service.py:43-64 | A missing template comes out as an `ExcelGenerationError` that wraps the not-found message. No save is attempted. |
| ExcelService.DefaultReportLayout | app/services/excel_service.py:43-49 | With no template name, or an empty one, and metadata that is falsy or a dict, the report is the default workbook filled with the record. This assumes openpyxl accepts every written string. |
| ExcelService.TemplateReportLayout | app/services/excel_service.py:43-57 | A readable template is filled in place of the default workbook. The saved report holds exactly the filled template, and a failed fill is wrapped with no save attempted. |
| Validators.CollapseRuns | app/utils/validators.py:121 | The result is empty exactly when nothing is left to read. A leading whitespace run becomes the fill character, and a leading other character is kept. Every output character is the fill or a non-space character of the input. No two fill characters are adjacent when the fill is whitespace. |
| Validators.CollapseRunsAppend | app/utils/validators.py:121 | Run-collapsing two strings that do not meet inside a whitespace run gives the two collapsed strings one after the other. |
| Validators.CollapseRunsRun | app/utils/validators.py:121 | A maximal whitespace run of any length becomes exactly one fill character, and the text on either side is collapsed on its own. |
| Validators.CollapseRunsKeepsWords | app/utils/validators.py:121 | With a whitespace fill, the non-whitespace characters are kept exactly and in order. |
| Validators.CleanText | app/utils/validators.py:117-125 | The result has no newline, no whitespace other than single spaces between words, and none at either end. |
| Validators.CleanTextFixes | app/utils/validators.py:117-125 | A text already in that form is returned unchanged. |
| Validators.CleanTextIdempotent | app/utils/validators.py:117-125 | Cleaning twice is the same as cleaning once. |
| Validators.CleanTextKeepsWords | app/utils/validators.py:117-125 | Cleaning loses no word. The non-whitespace characters of the result are those of the input, in order. |
| Validators.CleanTextSeparates | app/utils/validators.py:117-125 | Two non-empty stretches separated by any whitespace run come out separated by exactly one space, each cleaned on its own. |
| Validators.RemoveSeparators | app/utils/validators.py:44 | No separator (whitespace, `-`, `(`, `)`, `+`) is left. Every non-separator character of the input is still there. |
| Validators.RemoveSeparatorsChar | app/utils/validators.py:44 | A separator is deleted and any other character kept. With `RemoveSeparatorsAppend`, this fixes the result on every string. |
| Validators.IsValidPhone | app/utils/validators.py:40-47 | An accepted number has at least 7 characters, and each is a digit or a separator. |
| Validators.NonDigitRejects | app/utils/validators.py:44-47 | A character that is neither a digit nor a separator rejects the number wherever it sits. |
| Validators.SeparatorIrrelevant | app/utils/validators.py:44-47 | Inserting or removing a separator anywhere never changes the phone verdict. |
| Validators.DigitsArePhone | app/utils/validators.py:40-47 | A bare digit string is a valid phone number exactly when it has 7 to 15 digits. |
| Validators.ScanRebuilds | app/utils/validators.py:26-27 | The split the e-mail pattern uses puts the address back together. |
| Validators.Decompose | app/utils/validators.py:23-27 | Every accepted address is a non-empty local part over `[A-Za-z0-9._%+-]`, then `@`, then a non-empty domain over `[A-Za-z0-9.-]`, then `.`, then two or more letters, optionally followed by one newline. |
| Validators.EmailComplete | app/utils/validators.py:23-27 | Every address of that shape is accepted, and splits back into exactly those parts. |
| Validators.Substituted | app/utils/validators.py:158-162 | After both substitutions, no forbidden character and no whitespace is left, and a non-empty name stays non-empty. |
| Validators.SubstitutedChar | app/utils/validators.py:158-162 | A forbidden character or a whitespace character becomes `_`, and any other character stays. |
| Validators.SubstitutedAppend | app/utils/validators.py:158-162 | Substitution works piece by piece wherever no whitespace run straddles the seam. |
| Validators.SubstitutedRun | app/utils/validators.py:162 | Each whitespace run, however long, becomes a single `_`, and the text on either side is substituted on its own. |
| Validators.SanitizeFilename | app/utils/validators.py:155-169 | An empty name gives "unnamed_file". Every result is non-empty and contains only safe characters. |
| Validators.SafeNameKept | app/utils/validators.py:164-169 | A safe name of at most 100 characters is returned unchanged. |
| Validators.LongNameKeepsExtension | app/utils/validators.py:164-167 | A long name with a dot becomes its stem cut to 95 characters, plus `.` and the text after its last dot when that text is non-empty. When that text is empty, the dot is dropped. |
| Validators.LongExtensionSurvives | app/utils/validators.py:164-167 | The result is not bounded by 100 characters: a long dotless extension is kept whole. |
| Validators.TruncateSafe | app/utils/validators.py:164-167 | Truncation keeps a safe name safe. |
| Validators.SanitizeIdempotent | app/utils/validators.py:155-169 | Sanitising a sanitised name changes nothing. |
| Validators.Walk | app/utils/validators.py:201-214 | The loop returns the value reached by following every key through dicts. It returns the default as soon as a step is not a dict or lacks its key. |
| Validators.GetNested | app/utils/validators.py:201-214 | `safe_get_nested_value` resolves the `.`-separated path in that way. |
| Validators.GetNestedCompose | app/utils/validators.py:202-211 | Looking up `p.q` is looking up `q` in what `p` leads to, or gives the default when `p` leads nowhere. |
| FileUtils.Suffix | app/utils/file_utils.py:35 | `Path(name).suffix` is empty or a dot followed by at least one non-dot character. It is a proper ending of the path's last component. |
| FileUtils.ValidateFile | app/utils/file_utils.py:16-52 | An upload is accepted exactly when it is present, has a non-empty name, has an allowed lower-cased suffix, and is non-empty and within the size limit. Every rejection is a `FileValidationError`. |
| FileUtils.PresenceCheckedFirst | app/utils/file_utils.py:27-32 | A missing file or a missing or empty name is rejected before the extension or size is looked at. |
| FileUtils.ExtensionBeforeSize | app/utils/file_utils.py:35-50 | A wrong extension is reported whatever the size. |
| FileUtils.SizeBoundary | app/utils/file_utils.py:45-50 | The size limit is inclusive. An oversized upload gets the oversize message, and an empty upload gets the empty message. |
| FileUtils.ExtensionDecides | app/utils/file_utils.py:35-39 | With a name present and the size within bounds, the extension alone decides. |
| FileUtils.DefaultsAcceptPdfInAnyCase | app/utils/file_utils.py:35-39 | Under the default settings, `stem.ext` of 1 byte to 10 MiB is accepted exactly when `ext` lower-cases to `pdf`. |
| FileUtils.DefaultsRejectDotName | app/utils/file_utils.py:35-39 | Under the default settings, a name such as `.pdf` has no suffix. It is rejected with the list of allowed extensions. |
| Routes.ExtractAttempt | app/api/routes.py:96-128 | The stages run in their fixed order (file check, PDF check, text, OpenAI, spreadsheet). The run stops at the first failure. |
| Routes.ExtractDataHandler | app/api/routes.py:141-152 | Only a PDF error gives 400. OpenAI and spreadsheet errors give 500. The detail of each of these three ends with the service's message after a non-empty prefix. Everything else is a bare 500 "Error interno del servidor". |
| Routes.ExtractData | app/api/routes.py:75-152 | A success has run four stages, or five when a spreadsheet is asked for (`output_format.lower() == "excel"`). It carries a report path exactly then, and that path is the timestamped report path. |
| Routes.ExtractDataIntended | app/api/routes.py:96-152 | Letting the `HTTPException` through changes the response only for a raised `HTTPException`. The trace never changes. |
| Routes.RejectedUploadIsInternalError | app/api/routes.py:100-152 | A rejected upload is a bare 500, and only the file check runs. |
| Routes.InvalidPdfStatus | app/api/routes.py:103-152 | An invalid PDF comes out as 500 as written, and as 400 with the intended pass-through. |
| Routes.TextFailureIsBadRequest | app/api/routes.py:108-143 | A text-extraction failure is a 400 with the prefixed service message. OpenAI never runs. |
| Routes.AiFailureIsServerError | app/api/routes.py:112-146 | An OpenAI failure is a 500 with the prefixed message. No spreadsheet is generated. |
| Routes.SpreadsheetFailureIsServerError | app/api/routes.py:123-149 | A spreadsheet failure is a 500 whose detail carries both prefixes, after all five stages. |
| Routes.JsonOutputSucceeds | app/api/routes.py:115-139 | Without a spreadsheet request, the response carries the record's fields unchanged and no report path. |
| Routes.NonDictDataIsInternalError | app/api/routes.py:115-152 | Structured data that is not a dict fails the response record's validation, giving a bare 500. |
| Routes.UploadAttempt | app/api/routes.py:44-65 | The upload body succeeds exactly when the file is acceptable, the PDF opens and the save succeeds. |
| Routes.UploadHandler | app/api/routes.py:67-72 | Application errors give 400 with their message. Everything else gives a bare 500. |
| Routes.UploadPdf | app/api/routes.py:33-72 | The response is a success exactly when the body succeeds, and then echoes the filename and size. The save runs exactly when both checks pass. |
| Routes.UploadPdfIntended | app/api/routes.py:44-72 | Letting the `HTTPException` through changes the response only for a raised `HTTPException`. The trace never changes. |
| Routes.UploadRejectionIsBadRequest | app/api/routes.py:48-69 | A rejected upload is a 400 carrying the validator's message. |
| Routes.UploadInvalidPdfStatus | app/api/routes.py:54-72 | An invalid PDF comes out as 500 as written, and as 400 with the intended pass-through. Nothing is saved. |
| Routes.SaveFailureIsBadRequest | app/api/routes.py:58-69 | A failed save is a `FileValidationError`, hence a 400 with "Error guardando archivo: ". |
| Routes.DownloadExcel | app/api/routes.py:166-182 | The download succeeds exactly when `output/<filename>` exists, and is then offered with the spreadsheet media type. Every failure is a 500 "Error descargando archivo". |
| Routes.DownloadExcelIntended | app/api/routes.py:166-182 | The intended download succeeds on exactly the same inputs as the original, with the same response. |
| Routes.MissingDownloadStatus | app/api/routes.py:171-182 | A missing file comes out as 500 as written, and as 404 with the intended pass-through. |
| Routes.ListTemplates | app/api/routes.py:193-201 | The response has exactly the keys `templates` and `count`, and `count` is the number of templates. The list holds the names in order. A failed listing gives 500 "Error listando plantillas". |

## Left out

- **I/O and external libraries.** Reading the uploaded bytes, pdfplumber, openpyxl loading, styling and saving, the OpenAI HTTP client, `json.loads` and `json.dumps` are all parameters. So are the upload, template and output directories. The model proves nothing about what these libraries compute.
- **`str()` of non-string values in cells** is kept symbolic, because Python's rendering of dicts, lists and floats is not part of the decision logic.
- **Time, floats and concurrency.** `time.time()`, `datetime.now()`, the `processing_time` values and async/await are left out, because they are clock-dependent floating point. Floats are opaque values whose only observable property is truthiness. The report timestamp is a parameter.
- **Other validators and file helpers.** These are out of scope:
  - `extract_dates_from_text`, because its result order is unspecified;
  - `extract_numbers_from_text`, because it needs the full regex engine;
  - `validate_json_string`, because it needs a JSON parser;
  - `format_confidence_score`, `calculate_processing_stats` and `create_error_context`, because they are floating point or clock-dependent;
  - `save_uploaded_file` (except its error message), `cleanup_old_files`, `get_file_info`, `ensure_directory_exists` and `list_files_in_directory`, because they are file-system work.
- **`ExcelService.list_templates`** directory globbing: `Routes.ListTemplates` takes the listing, or its failure, as input.
- **Application wiring.** app/main.py, main.py, settings loading from the environment, logging and the Pydantic schemas are out of scope. Pydantic appears only as the one validation failure a non-dict record causes.
- **Unicode.** `\s`, `\d`, `isspace()`, `lower()` and `[a-zA-Z]` are over ASCII only. Non-ASCII characters count as non-space, non-digit and non-letter, and are left alone by lower-casing.
- **Path suffix rule.** `Path.suffix` follows the rule under which a name ending in a dot has no suffix. The last component is taken the POSIX way, so backslashes are ordinary characters.
- **Spreadsheet stage in the pipeline.** `Orchestrator.ProcessFile` has no spreadsheet stage, because that code is commented out at app/services/orchestrator.py:54-56. The routes generate the spreadsheet themselves.
- FileUtils.ListRepr: `str(list)` is modelled as single-quoted items. It ignores how Python's `repr` escapes quotes and backslashes inside an extension.
- FileUtils.NameBefore: carries no contract of its own. That the name contains no `/` is not proved.
- Config.Defaults: `maxFileSizeMb` is a separate string field ("10.0") holding the float rendering of `max_file_size / (1024 * 1024)`; it is not derived from the size.
- ExcelService.GenerateExcelReport: openpyxl's own cell checks are not modelled. A cell string holding a control character in \x00-\x08, \x0b, \x0c or \x0e-\x1f makes openpyxl raise, which the source reports as an `ExcelGenerationError`. openpyxl also cuts strings to 32767 characters. The model writes every string whole and lets such reports succeed, because openpyxl's internals are outside the model.
- ExcelService.DefaultReportLayout: states success and layout on the assumption above. A record whose keys or values contain those control characters fails in the source.
- OpenAiService.ExtractStructuredData: an empty `choices` list and an exception raised while reading `usage` are folded into a raising reply.

## Findings

| source | as written | input that shows it | evidently intended | confidence | as-written member | corrected member |
|---|---|---|---|---|---|---|
| app/api/routes.py:103-104 | The `HTTPException(400)` raised for an invalid PDF inside the `try` is caught by `except Exception` at lines 150-152 and answered with 500 "Error interno del servidor". | An acceptable upload whose bytes do not open as a PDF. | 400 "El archivo no es un PDF válido". | not executed | Routes.ExtractData (Routes.InvalidPdfStatus) | Routes.ExtractDataIntended (Routes.InvalidPdfStatus) |
| app/api/routes.py:54-55 | The invalid-PDF `HTTPException(400)` in `upload_pdf` is caught by `except Exception` at lines 70-72 and answered with 500. | An acceptable upload whose bytes do not open as a PDF. | 400 "El archivo no es un PDF válido". | not executed | Routes.UploadPdf (Routes.UploadInvalidPdfStatus) | Routes.UploadPdfIntended (Routes.UploadInvalidPdfStatus) |
| app/api/routes.py:171-172 | The `HTTPException(404)` for a missing file is caught by `except Exception` at lines 180-182 and answered with 500 "Error descargando archivo". | A filename with no file under `output/`. | 404 "Archivo no encontrado". | not executed | Routes.DownloadExcel (Routes.MissingDownloadStatus) | Routes.DownloadExcelIntended (Routes.MissingDownloadStatus) |
