/** The JSON responses the API routes send. */
module Http {
  import opened Wrappers

  /** `NextResponse.json(...)`: the status and, for an error, the `error` field
      of the body; a success body `{ success: true }` has no error. */
  datatype Response = Response(status: nat, error: Option<string>)

  const Ok := Response(200, None)
}
