/** The result of parsing a mail (pkg/mime/types.go). */
module MimeTypes {
  import opened Text

  datatype EmailAddress = EmailAddress(email: Bytes, name: Bytes)

  /** A part that is neither the text nor the HTML body. */
  datatype Part = Part(contentType: Bytes, filename: Bytes, contentId: Bytes, isInline: bool, data: Bytes)
}
