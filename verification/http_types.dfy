/** Types shared by requests and answers (`src/http.h`). */
module HttpTypes {
  import opened Toolbox

  datatype HttpVersion = Http10 | Http11 | Http20 | UnknownVersion

  datatype HttpMethod =
    Get | Head | Post | Put | Delete | Connect | Options | Trace | UnknownMethod | NoMethod

  datatype HttpCode =
    | Http200 | Http400 | Http401 | Http404 | Http405 | Http411
    | Http414 | Http500 | Http501 | Http503 | Http505 | NoCode

  datatype RequestType = OriginForm | AbsoluteForm | AuthorityForm | AsteriskForm | NoRequestType

  /** The fields of a message header that the server reads or writes. */
  datatype HttpHeader = HttpHeader(
    version: HttpVersion,
    httpMethod: HttpMethod,
    code: HttpCode,
    requestType: RequestType,
    requestTarget: Option<string>,
    contentLength: int,
    contentType: Option<string>,
    contentEncoding: Option<string>,
    date: Option<string>,
    server: Option<string>)

  /** The body of a message, in memory or in a file. */
  datatype HttpContent = HttpContent(
    length: int,
    offset: int,
    body: Option<string>,
    contentIsLoaded: bool,
    filePath: Option<string>)

  const EMPTY_CONTENT := HttpContent(0, 0, None, false, None)

  const EMPTY_REQUEST_HEADER :=
    HttpHeader(UnknownVersion, UnknownMethod, NoCode, NoRequestType, None, 0, None, None, None, None)

  function AnswerHeader(version: HttpVersion, code: HttpCode): HttpHeader {
    HttpHeader(version, NoMethod, code, NoRequestType, None, 0, None, None, None, None)
  }

  class HttpMessage {
    var header: HttpHeader
    var content: HttpContent

    constructor ()
      ensures header == EMPTY_REQUEST_HEADER && content == EMPTY_CONTENT
    {
      header, content := EMPTY_REQUEST_HEADER, EMPTY_CONTENT;
    }

    method InitRequest()
      modifies this
      ensures header == EMPTY_REQUEST_HEADER && content == EMPTY_CONTENT
    {
      header, content := EMPTY_REQUEST_HEADER, EMPTY_CONTENT;
    }

    method InitAnswer(version: HttpVersion, code: HttpCode)
      modifies this
      ensures header == AnswerHeader(version, code) && content == EMPTY_CONTENT
    {
      header, content := AnswerHeader(version, code), EMPTY_CONTENT;
    }
  }
}
