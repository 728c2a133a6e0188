/** What a handler hands back to the HTTP server, with the status codes and helpers of net/http it uses. */
module Http {

  const StatusOK := 200
  const StatusAccepted := 202
  const StatusSeeOther := 303
  const StatusBadRequest := 400
  const StatusUnauthorized := 401
  const StatusNotFound := 404
  const StatusMethodNotAllowed := 405
  const StatusInternalServerError := 500

  const MethodGet := "GET"
  const MethodPost := "POST"

  /**
   * A handler's reply: a page template rendered with view data, a redirect,
   * a plain-text error, or nothing written at all.
   */
  datatype Reply<+V> =
    | Render(template: string, data: V)
    | Redirect(location: string, code: int)
    | Fail(code: int, text: string)
    | Silent

  /** http.Error: the message followed by a newline, under the given status. */
  function Error<V>(message: string, code: int): (r: Reply<V>)
    ensures r.Fail? && r.code == code
    ensures |r.text| == |message| + 1 && r.text[..|message|] == message && r.text[|message|] == '\n'
  {
    Fail(code, message + "\n")
  }

  /** http.NotFound: http.Error with the fixed "404 page not found" text. */
  function NotFound<V>(): (r: Reply<V>)
    ensures r.Fail? && r.code == StatusNotFound && r.text == "404 page not found\n"
  {
    Error("404 page not found", StatusNotFound)
  }

  /**
   * How loading and executing a page template went. html/template writes to
   * the response while it executes, so an execution error may come after
   * output, and with it the implicit 200, has already been sent.
   */
  datatype TemplateRun = Executed | LoadFailed | ExecFailed(wroteOutput: bool)

  /** A template failure that the handler can still turn into an error status. */
  predicate FailsUnwritten(run: TemplateRun) {
    run == LoadFailed || run == ExecFailed(false)
  }

  /**
   * The status the client sees when the handler passes a template error on to
   * http.Error, as the current handlers do: 500 when the template failed
   * before writing anything, and otherwise the 200 already sent, since a
   * second WriteHeader is ignored.
   */
  function StatusOf<V>(r: Reply<V>, run: TemplateRun): (code: int)
    ensures r.Render? ==> (code == StatusInternalServerError <==> FailsUnwritten(run))
    ensures r.Render? ==> (code == StatusOK <==> !FailsUnwritten(run))
    ensures r.Redirect? || r.Fail? ==> code == r.code
    ensures r.Silent? ==> code == StatusOK
  {
    match r
    case Render(_, _) => if FailsUnwritten(run) then StatusInternalServerError else StatusOK
    case Redirect(_, c) => c
    case Fail(c, _) => c
    case Silent => StatusOK
  }
}
