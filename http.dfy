/** The responses the handlers send: a status code and a JSON body. */
module Http {
  import opened Common
  import opened ClothingModel

  datatype Body =
    | Message(text: string)                         // { message }
    | UserCreated(message: string, userId: ObjectId) // { message, userId }
    | Token(token: string)                           // { token }
    | Item(item: ClothingItem)                       // one document
    | Items(items: seq<ClothingItem>)                // an array of documents
    | NoContent                                      // `send()` with no body

  datatype Response = Response(status: nat, body: Body)

  const OK: nat := 200
  const Created: nat := 201
  const NoContentStatus: nat := 204
  const BadRequest: nat := 400
  const Unauthorized: nat := 401
  const Forbidden: nat := 403
  const NotFound: nat := 404
  const Conflict: nat := 409
  const InternalError: nat := 500

  /** The answer every handler gives when a store call throws. */
  const ServerError: Response := Response(InternalError, Message("Internal server error"))
}
