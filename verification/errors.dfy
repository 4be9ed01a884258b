/** The application's exception hierarchy. Every class derives from
    `CertiflowException` and carries a human-readable message. */
module Errors {

  datatype ErrorKind =
    | PDFProcessingError
    | OpenAIError
    | ExcelGenerationError
    | FileValidationError
    | TemplateNotFoundError

  /** One raised `CertiflowException` subclass instance: its class and `message`. */
  datatype AppError = AppError(kind: ErrorKind, message: string)
}
