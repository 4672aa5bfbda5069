/** The JSON responses the two handlers return, with their status codes. */
module Http {

  const Ok := 200
  const BadRequest := 400
  const InternalServerError := 500

  /** The JSON object of a response: `{"message": …}`, `{"error": …}` or
      `{"response": [line, …]}`. */
  datatype Body =
    | Message(message: string)
    | Error(error: string)
    | Lines(response: seq<string>)

  datatype Response = Response(status: int, body: Body)
}
