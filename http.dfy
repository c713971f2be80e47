/**
 * Request payloads and the HTTP errors the handlers raise.
 */
module Http {

  newtype Byte = x: int | 0 <= x < 256

  type Bytes = seq<Byte>

  /** Why a handler refused a request; each reason has the status code its HTTPException carries. */
  datatype Reason =
    | UnsupportedFormat(fmt: string)  // batch conversion: target format not in the allow-list
    | TooManyFiles                    // batch conversion: more than 50 uploads
    | PayloadTooLarge                 // batch conversion: declared sizes add up to more than 100 MiB
    | UnsupportedResizeFormat         // resize: file extension not accepted
    | ImageUnreadable                 // resize: the image library cannot open the bytes
    | NotDocx                         // DOCX to PDF: file name does not end in .docx
    | DocxUnreadable                  // DOCX to PDF: the document library cannot open the bytes
    | RatesUnavailable                // currency: the rate service could not be reached
    | RatesServiceError               // currency: the rate service answered with a status other than 200
    | RatesMalformed                  // currency: the answer lacks result == "success" or the rates table
    | UnknownCurrency(code: string)   // currency: the target code is not in the rates table
    | Unhandled                       // an exception no handler catches; the framework answers 500
  {
    function Status(): (code: int)
      ensures code in {400, 413, 500, 502}
      ensures code == 413 <==> (TooManyFiles? || PayloadTooLarge?)
      ensures code == 502 <==> (RatesUnavailable? || RatesServiceError? || RatesMalformed?)
    {
      match this
      case TooManyFiles | PayloadTooLarge => 413
      case RatesUnavailable | RatesServiceError | RatesMalformed => 502
      case Unhandled => 500
      case _ => 400
    }
  }
}
