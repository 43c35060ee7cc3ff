/** The HTTP results the endpoints return (`Results` / `TypedResults`). */
module Http {
  datatype HttpResult<+B> =
    | Ok(body: B)                                  // 200, with a body (unit for none)
    | NoContent                                    // 204
    | NotFound                                     // 404
    | BadRequest(errors: map<string, seq<string>>) // 400 with `HttpValidationProblemDetails`
}
