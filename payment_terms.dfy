/** Choice of the payment-terms template both completion handlers attach to
    a draft order before completing it: 30 days net. */
module PaymentTerms {
  import opened Graphql

  /** One entry of `paymentTermsTemplates`; `dueInDays` is null for
      templates that are not net terms. */
  datatype Template = Template(id: string, name: string, paymentTermsType: string, dueInDays: Option<int>)

  /** `data` of the templates query: the list may be null. */
  datatype TemplatesData = TemplatesData(templates: Option<seq<Template>>)

  /** A template of type "NET" that is due in exactly 30 days; the
      comparison is strict, so a null `dueInDays` never matches
      (server.js:207, 409). */
  predicate IsNet30(t: Template) {
    t.paymentTermsType == "NET" && t.dueInDays == Some(30)
  }

  /** The position `templates.find(…)` stops at: the first NET 30 template,
      or none when no template is NET 30. */
  function FindNet30Index(ts: seq<Template>): (r: Option<nat>)
    ensures r.Some? ==> r.value < |ts| && IsNet30(ts[r.value])
    ensures r.Some? ==> forall j :: 0 <= j < r.value ==> !IsNet30(ts[j])
    ensures r.None? <==> forall j :: 0 <= j < |ts| ==> !IsNet30(ts[j])
  {
    if ts == [] then None
    else if IsNet30(ts[0]) then Some(0)
    else match FindNet30Index(ts[1..])
      case None => None
      case Some(k) => Some(k + 1)
  }

  /** The template the handlers pick: the first NET 30 one, if any. */
  function FindNet30(ts: seq<Template>): (r: Option<Template>)
    ensures r.None? <==> forall j :: 0 <= j < |ts| ==> !IsNet30(ts[j])
    ensures r.Some? ==> IsNet30(r.value)
    ensures r.Some? ==> exists i :: 0 <= i < |ts| && ts[i] == r.value && forall j :: 0 <= j < i ==> !IsNet30(ts[j])
  {
    match FindNet30Index(ts)
    case None => None
    case Some(i) => Some(ts[i])
  }

  /** Templates placed before the first NET 30 one do not change the choice,
      and neither does anything after it. */
  lemma {:induction false} FindNet30Stable(before: seq<Template>, t: Template, after: seq<Template>)
    requires forall j :: 0 <= j < |before| ==> !IsNet30(before[j])
    requires IsNet30(t)
    ensures FindNet30(before + [t] + after) == Some(t)
  {
    var ts := before + [t] + after;
    assert ts[|before|] == t;
    assert forall j :: 0 <= j < |before| ==> ts[j] == before[j];
    var k := FindNet30Index(ts);
    assert k.Some? && k.value == |before|;
  }
}
