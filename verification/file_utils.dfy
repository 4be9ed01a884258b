/** The upload check `validate_file`: an ordered chain of rejections over the
    uploaded file's presence, name, extension and size. The upload is reduced
    to its optional filename and the length of its content; reading the
    content is not modelled. Path names follow POSIX `pathlib` rules. */
module FileUtils {
  import opened Wrappers
  import opened Text
  import opened Errors
  import Config

  /** An uploaded file: the client's filename, if it sent one, and the number
      of bytes its content holds. */
  datatype Upload = Upload(filename: Option<string>, size: nat)

  const NoFileMessage := "No se proporcionó ningún archivo"
  const NoNameMessage := "El archivo no tiene nombre"
  const ExtensionPrefix := "Extensión no permitida. Extensiones permitidas: "
  const OversizePrefix := "El archivo excede el tamaño máximo de "
  const EmptyMessage := "El archivo está vacío"

  /** `PurePosixPath(path[..j]).name`: the last component that is neither
      empty nor `.`, or the empty string when there is none. */
  function NameBefore(path: string, j: nat): string
    requires j <= |path|
    decreases j
  {
    var slash := LastIndexBefore(path, '/', j);
    var part := path[slash + 1..j];
    if |part| > 0 && !IsDot(part) then part
    else if slash < 0 then ""
    else NameBefore(path, slash)
  }

  /** The path component `.`, which names the directory itself. */
  predicate IsDot(s: string) {
    |s| == 1 && s[0] == '.'
  }

  function Name(path: string): string {
    NameBefore(path, |path|)
  }

  /** A path without slashes that is not `.` is its own name. */
  lemma NameOfPlain(path: string)
    requires forall k :: 0 <= k < |path| ==> path[k] != '/'
    requires !IsDot(path)
    ensures Name(path) == path
  {
    var slash := LastIndexBefore(path, '/', |path|);
    assert slash == -1;
    assert path[0..|path|] == path;
  }

  /** `PurePosixPath(path).suffix`: from the last dot of the name, provided that
      dot neither starts nor ends the name; otherwise empty. */
  function Suffix(path: string): (r: string)
    ensures r == "" || (|r| >= 2 && r[0] == '.' && |r| < |Name(path)| && EndsWith(Name(path), r))
    ensures forall k :: 1 <= k < |r| ==> r[k] != '.'
  {
    var name := Name(path);
    var dot := LastIndexBefore(name, '.', |name|);
    if 0 < dot < |name| - 1 then
      assert forall k :: 1 <= k < |name[dot..]| ==> name[dot..][k] == name[dot + k];
      name[dot..]
    else ""
  }

  /** A single-quoted Python `repr` of each string, joined by `", "`. */
  function QuotedItems(items: seq<string>): string {
    if |items| == 0 then ""
    else if |items| == 1 then "'" + items[0] + "'"
    else "'" + items[0] + "', " + QuotedItems(items[1..])
  }

  /** `str(list_of_strings)`. */
  function ListRepr(items: seq<string>): string {
    "[" + QuotedItems(items) + "]"
  }

  /** The extension the check compares: the lower-cased suffix of the name. */
  function Extension(filename: string): string {
    Lower(Suffix(filename))
  }

  /** Everything `validate_file` asks of an upload, as one condition. */
  predicate Acceptable(file: Option<Upload>, settings: Config.Settings) {
    && file.Some?
    && file.value.filename.Some? && file.value.filename.value != ""
    && Extension(file.value.filename.value) in settings.allowedExtensions
    && 0 < file.value.size <= settings.maxFileSize
  }

  /** `validate_file`: the first failed check, in order, raises a
      `FileValidationError`; an upload that passes them all is accepted. */
  function ValidateFile(file: Option<Upload>, settings: Config.Settings): (r: Result<(), AppError>)
    ensures r.Success? <==> Acceptable(file, settings)
    ensures r.Failure? ==> r.error.kind == FileValidationError
  {
    if file.None? then Failure(AppError(FileValidationError, NoFileMessage))
    else if file.value.filename.None? || file.value.filename.value == "" then
      Failure(AppError(FileValidationError, NoNameMessage))
    else if Extension(file.value.filename.value) !in settings.allowedExtensions then
      Failure(AppError(FileValidationError, ExtensionPrefix + ListRepr(settings.allowedExtensions)))
    else if file.value.size > settings.maxFileSize then
      Failure(AppError(FileValidationError, OversizePrefix + settings.maxFileSizeMb + "MB"))
    else if file.value.size == 0 then
      Failure(AppError(FileValidationError, EmptyMessage))
    else Success(())
  }

  /** A missing file, or one without a name, is rejected before its extension
      or size is looked at. */
  lemma PresenceCheckedFirst(file: Option<Upload>, settings: Config.Settings)
    requires file.None? || file.value.filename.None? || file.value.filename == Some("")
    ensures ValidateFile(file, settings) ==
              Failure(AppError(FileValidationError, if file.None? then NoFileMessage else NoNameMessage))
  {
  }

  /** An extension outside the allowed list is reported whatever the size. */
  lemma ExtensionBeforeSize(name: string, size1: nat, size2: nat, settings: Config.Settings)
    requires name != "" && Extension(name) !in settings.allowedExtensions
    ensures ValidateFile(Some(Upload(Some(name), size1)), settings)
            == ValidateFile(Some(Upload(Some(name), size2)), settings)
            == Failure(AppError(FileValidationError, ExtensionPrefix + ListRepr(settings.allowedExtensions)))
  {
  }

  /** The size limit is inclusive, and an oversized upload is reported as
      such even when it is also empty (a negative limit). */
  lemma SizeBoundary(name: string, size: nat, settings: Config.Settings)
    requires name != "" && Extension(name) in settings.allowedExtensions
    ensures size == settings.maxFileSize && size > 0 ==> ValidateFile(Some(Upload(Some(name), size)), settings).Success?
    ensures size > settings.maxFileSize ==>
              ValidateFile(Some(Upload(Some(name), size)), settings)
              == Failure(AppError(FileValidationError, OversizePrefix + settings.maxFileSizeMb + "MB"))
    ensures size == 0 && settings.maxFileSize >= 0 ==>
              ValidateFile(Some(Upload(Some(name), size)), settings) == Failure(AppError(FileValidationError, EmptyMessage))
  {
  }

  /** A name made of a non-empty stem, a dot and a non-empty extension
      without dots has that dotted extension as its suffix. */
  lemma SuffixOfSimpleName(stem: string, ext: string)
    requires stem != "" && ext != ""
    requires forall k :: 0 <= k < |stem| ==> stem[k] != '/'
    requires forall k :: 0 <= k < |ext| ==> ext[k] != '/' && ext[k] != '.'
    ensures Suffix(stem + "." + ext) == "." + ext
  {
    var path := stem + ['.'] + ext;
    assert forall k :: 0 <= k < |path| ==> path[k] != '/' by {
      assert forall k :: |stem| < k < |path| ==> path[k] == ext[k - |stem| - 1];
    }
    assert !IsDot(path) by { assert |path| >= 3; }
    NameOfPlain(path);
    LastOccurrence(path, stem, '.', ext);
    assert path[|stem|..] == ['.'] + ext;
  }

  /** The compared extension of such a name is its dotted extension, lower-cased. */
  lemma ExtensionOfSimpleName(stem: string, ext: string)
    requires stem != "" && ext != ""
    requires forall k :: 0 <= k < |stem| ==> stem[k] != '/'
    requires forall k :: 0 <= k < |ext| ==> ext[k] != '/' && ext[k] != '.'
    ensures Extension(stem + "." + ext) == "." + Lower(ext)
  {
    SuffixOfSimpleName(stem, ext);
    LowerDotted(ext);
  }

  lemma LowerDotted(x: string)
    ensures Lower("." + x) == "." + Lower(x)
  {
    var low := Lower("." + x);
    assert forall k :: 1 <= k < |low| ==> low[k] == Lower(x)[k - 1];
  }

  /** Once the name is present and the size within bounds, the extension alone decides. */
  lemma ExtensionDecides(name: string, size: nat, settings: Config.Settings)
    requires name != "" && 0 < size <= settings.maxFileSize
    ensures ValidateFile(Some(Upload(Some(name), size)), settings).Success?
            <==> Extension(name) in settings.allowedExtensions
  {
  }

  lemma DottedIsPdf(x: string)
    ensures "." + x == ".pdf" <==> x == "pdf"
  {
    if "." + x == ".pdf" {
      assert x == ("." + x)[1..];
    }
  }

  /** With the default settings an upload of 1 byte to 10 MiB is accepted
      exactly when its extension reads `pdf` in any case: `report.PDF` passes. */
  lemma DefaultsAcceptPdfInAnyCase(stem: string, ext: string, size: nat)
    requires stem != "" && ext != ""
    requires forall k :: 0 <= k < |stem| ==> stem[k] != '/'
    requires forall k :: 0 <= k < |ext| ==> ext[k] != '/' && ext[k] != '.'
    requires 0 < size <= 10 * 1024 * 1024
    ensures ValidateFile(Some(Upload(Some(stem + "." + ext), size)), Config.Defaults).Success?
            <==> Lower(ext) == "pdf"
  {
    ExtensionOfSimpleName(stem, ext);
    ExtensionDecides(stem + "." + ext, size, Config.Defaults);
    DottedIsPdf(Lower(ext));
  }

  /** A name that is a dot followed by an extension, such as `.pdf`, is a
      hidden file's name and has no suffix. */
  lemma DotNameHasNoSuffix(ext: string)
    requires ext != ""
    requires forall k :: 0 <= k < |ext| ==> ext[k] != '/' && ext[k] != '.'
    ensures Extension("." + ext) == ""
  {
    var path := [] + ['.'] + ext;
    assert path == "." + ext;
    assert forall k :: 1 <= k < |path| ==> path[k] == ext[k - 1];
    NameOfPlain(path);
    LastOccurrence(path, [], '.', ext);
  }

  /** With the default settings such a name (`.pdf` itself included) is
      rejected, whatever its size, with the list of allowed extensions. */
  lemma DefaultsRejectDotName(ext: string, size: nat)
    requires ext != ""
    requires forall k :: 0 <= k < |ext| ==> ext[k] != '/' && ext[k] != '.'
    ensures ValidateFile(Some(Upload(Some("." + ext), size)), Config.Defaults)
            == Failure(AppError(FileValidationError, ExtensionPrefix + "['.pdf']"))
  {
    DotNameHasNoSuffix(ext);
    ExtensionBeforeSize("." + ext, size, size, Config.Defaults);
    assert ListRepr([".pdf"]) == "['.pdf']";
  }
}
