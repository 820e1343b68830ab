/** A handler's reply: a status code and a JSON body that is either the payload or `{ error }`. */
module Http {
  datatype ReplyBody<T> = Payload(value: T) | ErrorBody(error: string)
  datatype Reply<T> = Reply(status: int, body: ReplyBody<T>)

  const Ok := 200
  const Created := 201
  const BadRequest := 400
  const Unauthorized := 401
  const ServerError := 500
}
