/** What a route handler receives besides the remote responses, what it
    sends back, and the log of remote requests it issues. */
module Requests {
  import opened LineItems

  /** `SHOPIFY_STORE_URL` and `SHOPIFY_ACCESS_TOKEN`; an unset variable is "". */
  datatype Config = Config(storeUrl: string, accessToken: string)

  /** Both the store URL and the access token are set (server.js:374, 593). */
  predicate Configured(c: Config) {
    c.storeUrl != "" && c.accessToken != ""
  }

  /** The JSON a handler answers with: `success: true` with status 200, or an
      error status with the body's `error` text. */
  datatype Reply = Done(message: string) | Failed(status: int, error: string)

  /** One remote GraphQL request, with the variables that matter. */
  datatype Call =
    | FetchLineItems(draftOrderId: string)
    | UpdateLineItems(draftOrderId: string, lineItems: seq<LineItemInput>)
    | FetchTemplates
    | SetPaymentTerms(draftOrderId: string, templateId: string)
    | CompleteDraft(draftOrderId: string)

  /** The `error` text of a reply built in a `catch` block that reports
      `'Internal server error'`. */
  const InternalError: string := "Internal server error"

  /** `error.message` of the TypeError raised by reading a property of null. */
  const NullAccess: string := "Cannot read properties of null"

  /** The mutations among the requests: calls that change the draft order. */
  predicate IsMutation(c: Call) {
    c.UpdateLineItems? || c.SetPaymentTerms? || c.CompleteDraft?
  }
}
