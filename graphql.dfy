/** Values exchanged with the store's Admin GraphQL API, as the route handlers
    of server.js see them once the HTTP transport is taken away. Every remote
    call becomes an input value of type `Remote<T>`. */
module Graphql {

  datatype Option<+T> = None | Some(value: T)

  /** JavaScript truthiness of a value that is a string or absent:
      `undefined`, `null` and `""` are falsy. */
  predicate Truthy(s: Option<string>) {
    s.Some? && s.value != ""
  }

  /** One entry of the top-level GraphQL `errors` array. */
  datatype GqlError = GqlError(message: string)

  /** One entry of a mutation payload's `userErrors` list. */
  datatype UserError = UserError(field: seq<string>, message: string)

  /** The outcome of one `axios.post` to the GraphQL endpoint. Either the call
      threw (transport failure or a non-2xx status; `responseErrorMessage` is
      `error.response?.data?.errors?.[0]?.message`), or a body came back whose
      `errors` and `data` members may each be absent. An `errors` array that is
      present is truthy even when empty, so presence is what counts. */
  datatype Remote<+T> =
    | Thrown(message: string, responseErrorMessage: Option<string>)
    | Received(errors: Option<seq<GqlError>>, data: Option<T>)

  /** `data` of a `draftOrderUpdate` or `draftOrderComplete` response: the
      mutation's payload, which may be null. */
  datatype MutationData = MutationData(payload: Option<MutationPayload>)

  /** The payload: its `userErrors` list (null when absent) and the id of the
      returned `draftOrder` (null when absent). */
  datatype MutationPayload = MutationPayload(userErrors: Option<seq<UserError>>, draftOrder: Option<string>)

  /** The payload reports at least one user error; a null list reports none
      (server.js:269, 334, 753). */
  predicate HasUserErrors(p: MutationPayload) {
    p.userErrors.Some? && |p.userErrors.value| > 0
  }
}
