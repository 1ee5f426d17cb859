/** `POST /api/add-recargo-equivalencia`: append one "Recargo de
    Equivalencia" line to a draft order by replacing its whole line-item
    list, unless a surcharge line is already there. The amount arrives
    already computed in the request. */
module AddRecargo {
  import opened Graphql
  import opened LineItems
  import opened Requests

  /** The request body fields the handler reads; the amount is in cents. */
  datatype AddRequest = AddRequest(draftOrderId: Option<string>, recargoAmount: Option<int>)

  /** `data` of the line-items query: `draftOrder` may be null, and
      `lineItems.edges` may be absent. */
  datatype QueryData = QueryData(draftOrder: Option<DraftOrderLines>)
  datatype DraftOrderLines = DraftOrderLines(edges: Option<seq<Node>>)

  const MissingId: string := "Draft order ID is required"
  const BadAmount: string := "Recargo amount must be greater than 0"
  const MissingConfig: string := "Shopify configuration is missing"
  const FetchFailed: string := "Error getting existing line items"
  const AlreadyPresent: string := "El recargo de equivalencia ya existe en este draft order"
  const UpdateGqlErrors: string := "GraphQL errors"
  const UpdateUserErrors: string := "Shopify user errors"
  const Added: string := "Recargo de equivalencia añadido exitosamente"

  /** The amount is present and greater than zero; the handler refuses any
      other amount (server.js:587). */
  predicate PositiveAmount(a: Option<int>) {
    a.Some? && a.value > 0
  }

  /** All three guards pass, so the handler goes on to the remote calls. */
  predicate GuardsPass(req: AddRequest, config: Config) {
    Truthy(req.draftOrderId) && PositiveAmount(req.recargoAmount) && Configured(config)
  }

  /** `existingLineItems` when the handler gets that far: no GraphQL errors,
      a non-null `data.draftOrder`; absent `edges` give the empty list. */
  function ExistingLineItems(get: Remote<QueryData>): Option<seq<LineItemInput>> {
    if get.Thrown? || get.errors.Some? || get.data.None? || get.data.value.draftOrder.None? then None
    else match get.data.value.draftOrder.value.edges
      case None => Some([])
      case Some(nodes) => Some(MapNodes(nodes))
  }

  /** The update response counts as success: no `errors`, a payload, and no
      `userErrors`. */
  predicate UpdateAccepted(update: Remote<MutationData>) {
    && update.Received?
    && update.errors.None?
    && update.data.Some?
    && update.data.value.payload.Some?
    && !HasUserErrors(update.data.value.payload.value)
  }

  /** The handler, over the responses the two remote calls would give.
      `calls` lists the remote requests it issues, in order. */
  method AddRecargoEquivalencia(req: AddRequest, config: Config, get: Remote<QueryData>, update: Remote<MutationData>)
    returns (reply: Reply, calls: seq<Call>)
    // The guards, in order, each before any remote call.
    ensures !Truthy(req.draftOrderId) ==> reply == Failed(400, MissingId) && calls == []
    ensures Truthy(req.draftOrderId) && !PositiveAmount(req.recargoAmount) ==>
      reply == Failed(400, BadAmount) && calls == []
    ensures Truthy(req.draftOrderId) && PositiveAmount(req.recargoAmount) && !Configured(config) ==>
      reply == Failed(500, MissingConfig) && calls == []
    ensures GuardsPass(req, config) ==> 1 <= |calls| <= 2 && calls[0] == FetchLineItems(req.draftOrderId.value)
    // A failed fetch stops the handler before any mutation.
    ensures GuardsPass(req, config) && get.Received? && get.errors.Some? ==>
      reply == Failed(400, FetchFailed) && |calls| == 1
    ensures GuardsPass(req, config) && ExistingLineItems(get).None? ==> reply.Failed? && |calls| == 1
    ensures GuardsPass(req, config) &&
            (get.Thrown? || (get.errors.None? && (get.data.None? || get.data.value.draftOrder.None?))) ==>
      reply == Failed(500, InternalError) && |calls| == 1
    // An existing surcharge line rejects the request before any mutation.
    ensures GuardsPass(req, config) && ExistingLineItems(get).Some? && RecargoExists(ExistingLineItems(get).value) ==>
      reply == Failed(400, AlreadyPresent) && |calls| == 1
    // Otherwise the whole list is replaced by the existing items plus one surcharge line.
    ensures forall k :: 0 <= k < |calls| && IsMutation(calls[k]) ==> k == 1
    ensures |calls| == 2 <==>
      GuardsPass(req, config) && ExistingLineItems(get).Some? && !RecargoExists(ExistingLineItems(get).value)
    ensures |calls| == 2 ==>
      calls[1] == UpdateLineItems(req.draftOrderId.value,
                                  WithSurcharge(ExistingLineItems(get).value, req.recargoAmount.value))
    ensures |calls| == 2 ==> CountSurchargeLines(calls[1].lineItems) == 1
    ensures GuardsPass(req, config) && get == Received(None, Some(QueryData(Some(DraftOrderLines(None))))) ==>
      calls == [FetchLineItems(req.draftOrderId.value),
                UpdateLineItems(req.draftOrderId.value, [SurchargeLine(req.recargoAmount.value)])]
    // Success only when the update came back clean.
    ensures reply.Done? <==> |calls| == 2 && UpdateAccepted(update)
    ensures reply.Done? ==> reply.message == Added
    ensures |calls| == 2 && update.Received? && update.errors.Some? ==> reply == Failed(400, UpdateGqlErrors)
    ensures |calls| == 2 &&
            (update.Thrown? || (update.errors.None? && (update.data.None? || update.data.value.payload.None?))) ==>
      reply == Failed(500, InternalError)
    ensures |calls| == 2 && update.Received? && update.errors.None? && update.data.Some? &&
            update.data.value.payload.Some? && HasUserErrors(update.data.value.payload.value) ==>
      reply == Failed(400, UpdateUserErrors)
  {
    calls := [];
    if !Truthy(req.draftOrderId) {
      return Failed(400, MissingId), calls;
    }
    if !PositiveAmount(req.recargoAmount) {
      return Failed(400, BadAmount), calls;
    }
    if !Configured(config) {
      return Failed(500, MissingConfig), calls;
    }
    var draftOrderId := req.draftOrderId.value;
    var recargoAmount := req.recargoAmount.value;

    calls := calls + [FetchLineItems(draftOrderId)];
    if get.Thrown? {
      return Failed(500, InternalError), calls;
    }
    if get.errors.Some? {
      return Failed(400, FetchFailed), calls;
    }
    if get.data.None? || get.data.value.draftOrder.None? {
      // `getResponse.data.data.draftOrder.lineItems` on null throws
      return Failed(500, InternalError), calls;
    }
    var existingLineItems := match get.data.value.draftOrder.value.edges
      case None => []
      case Some(nodes) => MapNodes(nodes);

    if RecargoExists(existingLineItems) {
      return Failed(400, AlreadyPresent), calls;
    }
    var allLineItems := WithSurcharge(existingLineItems, recargoAmount);
    calls := calls + [UpdateLineItems(draftOrderId, allLineItems)];

    if update.Thrown? {
      return Failed(500, InternalError), calls;
    }
    if update.errors.Some? {
      return Failed(400, UpdateGqlErrors), calls;
    }
    if update.data.None? || update.data.value.payload.None? {
      // `data.draftOrderUpdate.userErrors` on null throws
      return Failed(500, InternalError), calls;
    }
    if HasUserErrors(update.data.value.payload.value) {
      return Failed(400, UpdateUserErrors), calls;
    }
    reply := Done(Added);
  }
}
