/** The two draft-order completion routes. Both look up the NET 30 payment
    terms template, attach it when there is one, and then complete the draft
    order. `POST /api/complete-draft-order` (used by the point-of-sale
    extension) only logs GraphQL `errors` and `userErrors` of the terms
    update and completes anyway, though a terms call that throws still ends
    in 500 without completion; `POST /complete-draft-order` aborts with 400
    on either kind of error. */
module CompleteDraftOrder {
  import opened Graphql
  import opened PaymentTerms
  import opened Requests

  /** The `error` text the `/api/complete-draft-order` catch block reports:
      the first GraphQL error message of the failed response when there is a
      non-empty one, otherwise the exception's own message (server.js:358). */
  function CaughtText<T>(r: Remote<T>): string
    requires r.Thrown?
  {
    if Truthy(r.responseErrorMessage) then r.responseErrorMessage.value else r.message
  }

  /* ---------------- POST /api/complete-draft-order ---------------- */

  const ApiMissingId: string := "draftOrderId es requerido"
  const InvalidStructure: string := "Invalid response structure from Shopify API"
  const ApiCompleted: string := "Draft order completado exitosamente con términos NET_30"

  /** `net30Template` after the lookup: the templates list is searched only
      when `data.paymentTermsTemplates` is an array; GraphQL `errors` are
      only logged. */
  function ApiChosenTemplate(templates: Remote<TemplatesData>): Option<Template> {
    if templates.Received? && templates.data.Some? && templates.data.value.templates.Some?
    then FindNet30(templates.data.value.templates.value)
    else None
  }

  /** The completion response leads to success: a payload with no
      `userErrors` and a non-null `draftOrder`. Top-level `errors` are not
      looked at. */
  predicate ApiCompletionAccepted(complete: Remote<MutationData>) {
    && complete.Received?
    && complete.data.Some?
    && complete.data.value.payload.Some?
    && !HasUserErrors(complete.data.value.payload.value)
    && complete.data.value.payload.value.draftOrder.Some?
  }

  /** The handler reaches the completion mutation: nothing threw before it. */
  predicate ApiReachesCompletion(draftOrderId: Option<string>, templates: Remote<TemplatesData>, setTerms: Remote<MutationData>) {
    Truthy(draftOrderId) && templates.Received? && (ApiChosenTemplate(templates).None? || setTerms.Received?)
  }

  method ApiCompleteDraftOrder(draftOrderId: Option<string>, templates: Remote<TemplatesData>,
                               setTerms: Remote<MutationData>, complete: Remote<MutationData>)
    returns (reply: Reply, calls: seq<Call>)
    ensures !Truthy(draftOrderId) ==> reply == Failed(400, ApiMissingId) && calls == []
    ensures Truthy(draftOrderId) ==> calls != [] && calls[0] == FetchTemplates
    // The NET 30 template is attached exactly when one is found.
    ensures !(Truthy(draftOrderId) && templates.Received? && ApiChosenTemplate(templates).Some?) ==>
      forall k :: 0 <= k < |calls| ==> !calls[k].SetPaymentTerms?
    ensures Truthy(draftOrderId) && templates.Received? && ApiChosenTemplate(templates).Some? ==>
      |calls| >= 2 && calls[1] == SetPaymentTerms(draftOrderId.value, ApiChosenTemplate(templates).value.id)
    // Whatever a received payment-terms response holds, completion is attempted.
    ensures ApiReachesCompletion(draftOrderId, templates, setTerms) ==>
      |calls| == (if ApiChosenTemplate(templates).Some? then 3 else 2) &&
      calls[|calls| - 1] == CompleteDraft(draftOrderId.value)
    ensures !ApiReachesCompletion(draftOrderId, templates, setTerms) ==>
      forall k :: 0 <= k < |calls| ==> !calls[k].CompleteDraft?
    ensures Truthy(draftOrderId) && templates.Received? && ApiChosenTemplate(templates).Some? && setTerms.Thrown? ==>
      reply == Failed(500, CaughtText(setTerms)) && |calls| == 2
    // Outcome of the completion.
    ensures reply.Done? <==> ApiReachesCompletion(draftOrderId, templates, setTerms) && ApiCompletionAccepted(complete)
    ensures reply.Done? ==> reply.message == ApiCompleted
    ensures ApiReachesCompletion(draftOrderId, templates, setTerms) && complete.Received? &&
            (complete.data.None? || complete.data.value.payload.None?) ==>
      reply == Failed(500, InvalidStructure)
    ensures ApiReachesCompletion(draftOrderId, templates, setTerms) && complete.Received? &&
            complete.data.Some? && complete.data.value.payload.Some? &&
            HasUserErrors(complete.data.value.payload.value) ==>
      reply == Failed(400, complete.data.value.payload.value.userErrors.value[0].message)
    ensures ApiReachesCompletion(draftOrderId, templates, setTerms) && complete.Received? &&
            complete.data.Some? && complete.data.value.payload.Some? &&
            !HasUserErrors(complete.data.value.payload.value) &&
            complete.data.value.payload.value.draftOrder.None? ==>
      reply == Failed(500, NullAccess)
    ensures ApiReachesCompletion(draftOrderId, templates, setTerms) && complete.Thrown? ==>
      reply == Failed(500, CaughtText(complete))
    ensures Truthy(draftOrderId) && templates.Thrown? ==> reply == Failed(500, CaughtText(templates)) && |calls| == 1
  {
    calls := [];
    if !Truthy(draftOrderId) {
      return Failed(400, ApiMissingId), calls;
    }
    var id := draftOrderId.value;

    calls := calls + [FetchTemplates];
    if templates.Thrown? {
      return Failed(500, CaughtText(templates)), calls;
    }
    var net30Template: Option<Template> := None;
    if templates.data.Some? && templates.data.value.templates.Some? {
      net30Template := FindNet30(templates.data.value.templates.value);
    }
    if net30Template.Some? {
      calls := calls + [SetPaymentTerms(id, net30Template.value.id)];
      if setTerms.Thrown? {
        return Failed(500, CaughtText(setTerms)), calls;
      }
      // userErrors of the payment-terms update are only logged
    }

    calls := calls + [CompleteDraft(id)];
    if complete.Thrown? {
      return Failed(500, CaughtText(complete)), calls;
    }
    if complete.data.None? || complete.data.value.payload.None? {
      return Failed(500, InvalidStructure), calls;
    }
    var payload := complete.data.value.payload.value;
    if HasUserErrors(payload) {
      return Failed(400, payload.userErrors.value[0].message), calls;
    }
    if payload.draftOrder.None? {
      // `completedOrder.id` on null throws
      return Failed(500, NullAccess), calls;
    }
    reply := Done(ApiCompleted);
  }

  /* ---------------- POST /complete-draft-order ---------------- */

  const MissingId: string := "Draft order ID is required"
  const MissingConfig: string := "Shopify configuration is missing"
  const TermsFailed: string := "Error estableciendo términos de pago"
  const CompleteFailed: string := "Error completando draft order"
  const Completed: string := "Draft order completado exitosamente como no pagado"

  /** The templates list is read without checks, so a null `data` or a null
      list throws. */
  predicate TemplatesUsable(templates: Remote<TemplatesData>) {
    templates.Received? && templates.data.Some? && templates.data.value.templates.Some?
  }

  function ChosenTemplate(templates: Remote<TemplatesData>): Option<Template>
    requires TemplatesUsable(templates)
  {
    FindNet30(templates.data.value.templates.value)
  }

  /** A mutation response this handler treats as success: no `errors`, and
      an empty `userErrors` list that it can read (a null payload or list
      throws). */
  predicate MutationAccepted(r: Remote<MutationData>) {
    && r.Received?
    && r.errors.None?
    && r.data.Some?
    && r.data.value.payload.Some?
    && r.data.value.payload.value.userErrors.Some?
    && |r.data.value.payload.value.userErrors.value| == 0
  }

  /** A mutation response this handler answers with 400: GraphQL `errors`,
      or a non-empty `userErrors` list. */
  predicate MutationRejected(r: Remote<MutationData>) {
    r.Received? &&
    (r.errors.Some? || (r.data.Some? && r.data.value.payload.Some? && HasUserErrors(r.data.value.payload.value)))
  }

  predicate LegacyGuardsPass(draftOrderId: Option<string>, config: Config) {
    Truthy(draftOrderId) && Configured(config)
  }

  /** The handler reaches the completion mutation. */
  predicate LegacyReachesCompletion(draftOrderId: Option<string>, config: Config,
                                    templates: Remote<TemplatesData>, setTerms: Remote<MutationData>) {
    LegacyGuardsPass(draftOrderId, config) && TemplatesUsable(templates) &&
    (ChosenTemplate(templates).None? || MutationAccepted(setTerms))
  }

  method LegacyCompleteDraftOrder(draftOrderId: Option<string>, config: Config, templates: Remote<TemplatesData>,
                                  setTerms: Remote<MutationData>, complete: Remote<MutationData>)
    returns (reply: Reply, calls: seq<Call>)
    ensures !Truthy(draftOrderId) ==> reply == Failed(400, MissingId) && calls == []
    ensures Truthy(draftOrderId) && !Configured(config) ==> reply == Failed(500, MissingConfig) && calls == []
    ensures LegacyGuardsPass(draftOrderId, config) ==> calls != [] && calls[0] == FetchTemplates
    ensures LegacyGuardsPass(draftOrderId, config) && !TemplatesUsable(templates) ==>
      reply == Failed(500, InternalError) && |calls| == 1
    // The NET 30 template is attached exactly when one is found.
    ensures !(LegacyGuardsPass(draftOrderId, config) && TemplatesUsable(templates) && ChosenTemplate(templates).Some?) ==>
      forall k :: 0 <= k < |calls| ==> !calls[k].SetPaymentTerms?
    ensures LegacyGuardsPass(draftOrderId, config) && TemplatesUsable(templates) && ChosenTemplate(templates).Some? ==>
      |calls| >= 2 && calls[1] == SetPaymentTerms(draftOrderId.value, ChosenTemplate(templates).value.id)
    // A failed payment-terms update aborts before completion.
    ensures LegacyGuardsPass(draftOrderId, config) && TemplatesUsable(templates) && ChosenTemplate(templates).Some? &&
            MutationRejected(setTerms) ==>
      reply == Failed(400, TermsFailed) && |calls| == 2
    // A thrown update, or a null body, payload or `userErrors` list, throws into the catch.
    ensures LegacyGuardsPass(draftOrderId, config) && TemplatesUsable(templates) && ChosenTemplate(templates).Some? &&
            (setTerms.Thrown? ||
             (setTerms.errors.None? &&
              (setTerms.data.None? || setTerms.data.value.payload.None? ||
               setTerms.data.value.payload.value.userErrors.None?))) ==>
      reply == Failed(500, InternalError) && |calls| == 2
    ensures !LegacyReachesCompletion(draftOrderId, config, templates, setTerms) ==>
      forall k :: 0 <= k < |calls| ==> !calls[k].CompleteDraft?
    ensures LegacyReachesCompletion(draftOrderId, config, templates, setTerms) ==>
      |calls| == (if ChosenTemplate(templates).Some? then 3 else 2) &&
      calls[|calls| - 1] == CompleteDraft(draftOrderId.value)
    // Outcome of the completion.
    ensures reply.Done? <==>
      LegacyReachesCompletion(draftOrderId, config, templates, setTerms) &&
      MutationAccepted(complete) && complete.data.value.payload.value.draftOrder.Some?
    ensures reply.Done? ==> reply.message == Completed
    ensures LegacyReachesCompletion(draftOrderId, config, templates, setTerms) && MutationRejected(complete) ==>
      reply == Failed(400, CompleteFailed)
    ensures LegacyReachesCompletion(draftOrderId, config, templates, setTerms) &&
            (complete.Thrown? ||
             (complete.errors.None? && !MutationRejected(complete) &&
              !(MutationAccepted(complete) && complete.data.value.payload.value.draftOrder.Some?))) ==>
      reply == Failed(500, InternalError)
  {
    calls := [];
    if !Truthy(draftOrderId) {
      return Failed(400, MissingId), calls;
    }
    if !Configured(config) {
      return Failed(500, MissingConfig), calls;
    }
    var id := draftOrderId.value;

    calls := calls + [FetchTemplates];
    if templates.Thrown? || templates.data.None? || templates.data.value.templates.None? {
      // a transport failure, or `.paymentTermsTemplates.find` on null
      return Failed(500, InternalError), calls;
    }
    var net30Template := FindNet30(templates.data.value.templates.value);
    if net30Template.Some? {
      calls := calls + [SetPaymentTerms(id, net30Template.value.id)];
      if setTerms.Thrown? {
        return Failed(500, InternalError), calls;
      }
      if setTerms.errors.Some? {
        return Failed(400, TermsFailed), calls;
      }
      if setTerms.data.None? || setTerms.data.value.payload.None? || setTerms.data.value.payload.value.userErrors.None? {
        // `updateData.draftOrderUpdate.userErrors.length` on null throws
        return Failed(500, InternalError), calls;
      }
      if |setTerms.data.value.payload.value.userErrors.value| > 0 {
        return Failed(400, TermsFailed), calls;
      }
    }

    calls := calls + [CompleteDraft(id)];
    if complete.Thrown? {
      return Failed(500, InternalError), calls;
    }
    if complete.errors.Some? {
      return Failed(400, CompleteFailed), calls;
    }
    if complete.data.None? || complete.data.value.payload.None? || complete.data.value.payload.value.userErrors.None? {
      return Failed(500, InternalError), calls;
    }
    var payload := complete.data.value.payload.value;
    if |payload.userErrors.value| > 0 {
      return Failed(400, CompleteFailed), calls;
    }
    if payload.draftOrder.None? {
      // `draftOrder.order?.financialStatus` on null throws
      return Failed(500, InternalError), calls;
    }
    reply := Done(Completed);
  }

  /** The two routes on the same responses, whenever a NET 30 template is
      found and the payment-terms update comes back as a body reporting user
      errors: the point-of-sale route still sends the completion and its
      outcome depends on the completion alone, while the other route answers
      400 and never sends it. */
  method PaymentTermsUserErrorsDiverge(draftOrderId: Option<string>, config: Config, templates: Remote<TemplatesData>,
                                       setTerms: Remote<MutationData>, complete: Remote<MutationData>)
    returns (api: Reply, apiCalls: seq<Call>, legacy: Reply, legacyCalls: seq<Call>)
    requires Truthy(draftOrderId) && Configured(config)
    requires TemplatesUsable(templates) && ChosenTemplate(templates).Some?
    requires setTerms.Received? && setTerms.errors.None? && setTerms.data.Some?
    requires setTerms.data.value.payload.Some? && HasUserErrors(setTerms.data.value.payload.value)
    ensures apiCalls == [FetchTemplates, SetPaymentTerms(draftOrderId.value, ChosenTemplate(templates).value.id),
                         CompleteDraft(draftOrderId.value)]
    ensures api.Done? <==> ApiCompletionAccepted(complete)
    ensures legacyCalls == [FetchTemplates, SetPaymentTerms(draftOrderId.value, ChosenTemplate(templates).value.id)]
    ensures legacy == Failed(400, TermsFailed)
  {
    assert ApiChosenTemplate(templates) == ChosenTemplate(templates);
    api, apiCalls := ApiCompleteDraftOrder(draftOrderId, templates, setTerms, complete);
    legacy, legacyCalls := LegacyCompleteDraftOrder(draftOrderId, config, templates, setTerms, complete);
  }
}
