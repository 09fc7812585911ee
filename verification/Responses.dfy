/**
 * The plain-text replies of `backend/mux.go`: `writeResponse` and
 * `raiseError`. A reply is the status code and the body the client receives;
 * `http.Error` answers with the given code and the message followed by a
 * newline, and a bare `Write` answers 200.
 */
module Responses {
  import opened Wrappers

  const StatusOK: int := 200
  const StatusInternalServerError: int := 500

  datatype Response = Response(status: int, body: string)

  /** `http.Error(w, msg, code)`. */
  function HttpError(msg: string, code: int): Response {
    Response(code, msg + "\n")
  }

  /**
   * `writeResponse(w, status, msg)`: "success" sends `msg` as it is; "error"
   * with a message sends that message as a server error; anything else,
   * including "error" with an empty message, sends "unknown error".
   */
  function WriteResponse(status: string, msg: string): (r: Response)
    ensures r.status == StatusOK <==> status == "success"
    ensures r.status != StatusOK ==> r.status == StatusInternalServerError
    ensures status == "success" ==> r.body == msg
    ensures status == "error" && msg != "" ==> r.body == msg + "\n"
    ensures status != "success" && (status != "error" || msg == "") ==> r.body == "unknown error\n"
  {
    if status == "error" && msg != "" then HttpError(msg, StatusInternalServerError)
    else if status == "success" then Response(StatusOK, msg)
    else HttpError("unknown error", StatusInternalServerError)
  }

  /**
   * `raiseError(msg, err)`: always a server error; the body carries
   * `msg + " / " + err` when there is an error, and `msg` alone otherwise,
   * unless `msg` is empty, which falls back to "unknown error".
   */
  function RaiseError(msg: string, err: Option<string>): (r: Response)
    ensures r.status == StatusInternalServerError
    ensures err.Some? ==> r.body == msg + " / " + err.value + "\n"
    ensures err.None? && msg != "" ==> r.body == msg + "\n"
    ensures err.None? && msg == "" ==> r.body == "unknown error\n"
  {
    match err
    case Some(e) => WriteResponse("error", msg + " / " + e)
    case None => WriteResponse("error", msg)
  }
}
