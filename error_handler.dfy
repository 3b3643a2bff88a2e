/** The application's last Express middleware: the response for an error
    that reached it. */
module ErrorHandler {
  import opened Prelude
  import FileUpload

  const FileTooLargeMessage := "File size is too large. Max size is 10MB."
  const FallbackMessage := "Something went wrong!"

  /** `err.message`, with a missing message read as the empty string. */
  function MessageOf(err: AppError): string
  {
    match err
    case MulterError(_, reason) => reason
    case PlainError(message) => if message.Some? then message.value else ""
  }

  /** `errorHandler`: 400 for a multer upload over the size limit; any other
      error, from multer or not, is a 500 carrying the error's own message,
      or a fixed fallback when that message is missing or empty. */
  function HandleError(err: AppError): (r: Response)
    ensures r.status == 400 <==> err.MulterError? && err.code == "LIMIT_FILE_SIZE"
    ensures r.status == 400 || r.status == 500
    ensures r.status == 400 ==> r.body == ErrorBody(FileTooLargeMessage)
    ensures r.status == 500 && MessageOf(err) != "" ==> r.body == ErrorBody(MessageOf(err))
    ensures r.status == 500 && MessageOf(err) == "" ==> r.body == ErrorBody(FallbackMessage)
  {
    if err.MulterError? && err.code == "LIMIT_FILE_SIZE" then
      Response(400, ErrorBody(FileTooLargeMessage))
    else
      Response(500, ErrorBody(if MessageOf(err) != "" then MessageOf(err) else FallbackMessage))
  }

  /** A multer error with any other code falls through to the generic 500. */
  lemma OtherMulterErrors(code: string, message: string)
    requires code != "LIMIT_FILE_SIZE" && message != ""
    ensures HandleError(MulterError(code, message)) == Response(500, ErrorBody(message))
  {
  }

  /** An error without a message gets the fallback text. */
  lemma MissingMessage(message: Option<string>)
    requires message.None? || message == Some("")
    ensures HandleError(PlainError(message)) == Response(500, ErrorBody(FallbackMessage))
  {
  }

  /** The response to the errors of the `upload` middleware, assuming it is
      the one mounted in front of the analyse route: a file of the wrong type
      gets a 500 with the filter's message (the filter is consulted before the
      size); a file of an allowed type over the limit gets 400. */
  lemma UploadErrorResponse(originalName: string, size: nat)
    ensures FileUpload.FileFilter(originalName).Reject? ==>
      HandleError(FileUpload.UploadError(originalName, size).value) == Response(500, ErrorBody(FileUpload.InvalidTypeMessage))
    ensures FileUpload.FileFilter(originalName).Accept? && size > FileUpload.MaxFileSize ==>
      HandleError(FileUpload.UploadError(originalName, size).value) == Response(400, ErrorBody(FileTooLargeMessage))
  {
  }
}
