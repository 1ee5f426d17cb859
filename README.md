# Draft-order surcharge and completion handlers, modelled in Dafny

This project models the decision logic of the B2B order server in
`server.js`. The server sits in front of a store's Admin GraphQL API and
works on draft orders. Three route handlers are modelled:

- `POST /api/add-recargo-equivalencia` appends one "Recargo de Equivalencia"
  (equivalence surcharge) line to a draft order. It checks the request and
  fetches the first 50 line items. It refuses when a surcharge line is
  among those first 50 lines. Otherwise it replaces the whole line-item list
  with those first 50 items followed by the surcharge line; lines past the
  50th are dropped (`LineItems.ReplacementKeepsFirstPage`). The amount arrives already
  computed in the request.
- `POST /api/complete-draft-order` is used by the point-of-sale extension.
  It looks up the NET 30 payment-terms template and attaches it when one
  exists, then completes the draft order. GraphQL `errors` and `userErrors`
  of the terms update are only logged. A terms call that throws gives 500,
  and then no completion is sent.
- `POST /complete-draft-order` does the same steps but aborts with 400 when
  the terms update reports GraphQL `errors` or `userErrors`.

Every remote GraphQL call is an input value `Remote<T>` (module `Graphql`).
A call either threw, or returned a body whose `errors` and `data` may each be
absent. Each handler is a method over these stubbed responses. It returns
the reply and `calls`, the ordered list of remote requests it issued. So
"rejected before any mutation" reads as "no mutation in `calls`".
JavaScript details are kept where they change the outcome:

- an `errors` array that is present is truthy even when empty;
- an empty `draftOrderId` is falsy;
- reading a property of `null` throws, and the handler's `catch` turns that
  into a 500 reply.

Modules: `Graphql` (response values), `LineItems` (node mapping, surcharge
detection, replacement list), `PaymentTerms` (the NET 30 lookup),
`Requests` (configuration, replies, the call log), `AddRecargo` and
`CompleteDraftOrder` (the handlers).
`CompleteDraftOrder.PaymentTermsUserErrorsDiverge` runs both completion
routes on the same responses and shows where they diverge.

## Model

| member | source | states |
|---|---|---|
| `LineItems.QueryNodes` | server.js:605-616 | The query returns at most the first 50 stored items, in order, with their title, quantity and price. No node carries a `variantId`, because the selection set does not name it. |
| `LineItems.MapNodes` | server.js:646-663 | One input per fetched node, in the same order. Each input keeps the node's title, quantity, originalUnitPrice, requiresShipping and taxable. It carries `variantId` exactly when the node has a truthy one. |
| `LineItems.OccursImpliesIncludes` | server.js:669 | An occurrence of the label at any position makes `title.includes(label)` true. |
| `LineItems.IncludesImpliesOccurs` | server.js:669 | When `title.includes(label)` holds, the lemma returns a position where the label occurs. |
| `LineItems.IncludesIffOccurs` | server.js:669 | `includes` holds exactly when the substring occurs at some position. The match is case-sensitive. |
| `LineItems.RecargoExistsIff` | server.js:668-670 | `recargoExists` holds exactly when some existing item has a non-empty title containing "Recargo de Equivalencia". The `length > 0` guard changes nothing. |
| `LineItems.CountZeroIffNoRecargo` | server.js:668-670 | A list has no surcharge lines exactly when `recargoExists` is false for it. |
| `LineItems.CountAppend` | server.js:679-688 | Appending one item adds one to the surcharge-line count exactly when that item is a surcharge line. |
| `LineItems.SurchargeTitleIsLabelled` | server.js:669-682 | The appended title "Recargo de Equivalencia (5.2%)" satisfies the existence check. |
| `LineItems.WithSurcharge` | server.js:679-688 | The submitted list is the existing items, unchanged and in order, plus one line. That line has the surcharge title, quantity 1, price equal to the amount, no variant link, and is neither shipped nor taxable. The list is one longer than the existing items and always holds a surcharge line. It holds exactly one when the existing items held none. |
| `LineItems.VariantLinksDropped` | server.js:605-660 | Inputs built from queried nodes never carry a variant link. |
| `LineItems.ReplacementKeepsFirstPage` | server.js:605-723 | The replacement list holds min(n, 50) existing items, matching the stored ones by position, plus the surcharge line. So the lines of a draft after the 50th are dropped when this list replaces all its items. |
| `LineItems.RerunSeesSurcharge` | server.js:668-688 | Suppose a draft stores a replacement list built from fewer than 50 items. Then re-running the step on it is rejected by the existence check. |
| `LineItems.FullPageRerun` | server.js:605-688 | Suppose the replacement list was built from exactly 50 items. Then the surcharge line is 51st and the first page hides it, so a re-run is not rejected. The re-run's own list still holds exactly one surcharge line. |
| `PaymentTerms.FindNet30Index` | server.js:206-208 | `find` stops at the first template whose type is "NET" and whose dueInDays is 30. It finds none exactly when no template matches. |
| `PaymentTerms.FindNet30` | server.js:408-410 | The chosen template is NET 30 and is the first such template in the list. There is none exactly when no template matches. |
| `PaymentTerms.FindNet30Stable` | server.js:206-208 | Templates after the first NET 30 one do not change the choice. Neither do non-matching templates before it. |
| `AddRecargo.AddRecargoEquivalencia` | server.js:573-780 | The guards run in order before any remote call: a missing id gives 400, a missing or non-positive amount gives 400, and missing configuration gives 500. A fetch with GraphQL errors gives 400 with no update. A thrown fetch, or a null `data` or draft order, gives 500 with no update. An existing surcharge line gives 400 with no update. Otherwise exactly one update is sent, with the existing items plus the surcharge line, and that list holds exactly one surcharge line. Absent `edges` submit only the surcharge line. Success is reported exactly when the update has no `errors`, a payload and no `userErrors`. Update `errors` give 400, `userErrors` give 400, and a thrown update or a null payload gives 500. |
| `CompleteDraftOrder.ApiCompleteDraftOrder` | server.js:154-361 | A missing id gives 400 with no call. Payment terms are set exactly when a NET 30 template is found in an array-valued list. If the terms response is a received body, completion is then attempted whatever its `errors` or `userErrors`. A thrown terms call gives 500 and no completion. A missing completion payload gives 500. Completion `userErrors` give 400 with the first error's message. A clean completion payload with a null draft order gives 500. Success comes exactly when the completion payload has no `userErrors` and a draft order. |
| `CompleteDraftOrder.LegacyCompleteDraftOrder` | server.js:364-570 | A missing id gives 400 and missing configuration gives 500, both before any call. A null templates list gives 500. Payment terms are set exactly when a NET 30 template is found. If the terms update reports errors or user errors, the route answers 400 and never attempts completion. A thrown terms update, or a null terms payload or `userErrors` list, gives 500. Success comes exactly when the reached terms update and the completion have no `errors` and a non-null, empty `userErrors` list, and the completion returns a draft order. A thrown completion, or a null completion payload, list or draft order, gives 500. |
| `CompleteDraftOrder.PaymentTermsUserErrorsDiverge` | server.js:266-276 | Suppose a NET 30 template is found and the terms update comes back as a body with `userErrors`. Then the point-of-sale route still sends the completion, and its success depends only on the completion response. The other route answers 400 after the terms call and never sends the completion (server.js:473-479). |

## Left out

- HTTP routing, the axios transport, headers, API versions and URLs, and all
  console logging. Remote responses are inputs.
- The `try`/`catch` of the surcharge route and of `/complete-draft-order`
  adds `error.message` to the 500 body. The model keeps only the `error` text
  "Internal server error". A null dereference in `/api/complete-draft-order`
  is reported with a fixed stand-in message.
- Success bodies echo remote data (`draftOrder`, `financialStatus`,
  `recargoAmount`). Only the fixed `message` is modelled.
- `issuedAt: new Date().toISOString()` reads the clock. The payment-terms
  call records only the draft order and template ids.
- `recargoAmount.toString()`. The amount is whole cents (`Option<int>`), and
  a numeric string in the request is not modelled. Existing item prices are
  cents copied unchanged.
- The `subtotal` request field is only logged.
- Line titles are non-null strings. A null title behaves like the empty
  string, which the existence check already treats as "not a surcharge line".
- Error bodies are modelled by their status and `error` text only. The
  `details` field of the 400 bodies (server.js:641, 469, 477, 534, 542, 749,
  757) is not modelled. Neither is the `success: false` field that
  `/api/complete-draft-order` adds.
- `server.js` does not compute the 5.2% amount. It arrives in the request
  body (server.js:574).
- `server.js` has no code path that replaces or repairs a surcharge line. It
  refuses when one is among the first 50 lines (server.js:668-676). A
  surcharge line past the 50th is not seen, and the resubmitted list drops
  it (`LineItems.FullPageRerun`).
- `server.js` has no staged order edit for placed orders, no retry of
  remote reads and no order-paid webhook route.
- Health and test endpoints, draft-order listing and detail, and
  `verify-draft-order` only pass remote data through.
- The test scripts, the configuration toggles and `config.js` are not part
  of this model.
