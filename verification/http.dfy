/** The replies the API views send: a status code and a body. Tokens are
    abstracted to the account they were issued for. */
module Http {

  const StatusOk := 200
  const StatusCreated := 201
  const StatusNoContent := 204
  const StatusResetContent := 205
  const StatusBadRequest := 400
  const StatusUnauthorized := 401
  const StatusNotFound := 404
  const StatusServerError := 500

  datatype Body =
    | Message(text: string)                   // `{"message": ...}`
    | Failure(text: string)                   // `{"error": ...}`
    | ValidationErrors                        // a serializer's `errors`
    | Tokens(text: string, holder: string)    // a message with access and refresh tokens for `holder`
    | NotAuthenticated                        // the permission check's refusal, before the view runs

  datatype Reply = Reply(status: int, body: Body)
}
