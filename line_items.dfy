/** Line items of a draft order: how the surcharge handler turns the fetched
    nodes into update inputs, detects an existing "Recargo de Equivalencia"
    line, and builds the replacement list with the surcharge appended. */
module LineItems {
  import opened Graphql

  /** The substring that marks a surcharge line. */
  const Label: string := "Recargo de Equivalencia"

  /** The title the handler gives the line it appends. */
  const SurchargeTitle: string := "Recargo de Equivalencia (5.2%)"

  /** The query asks for `lineItems(first: 50)`. */
  const PageSize: nat := 50

  /** A line item as the draft order holds it remotely. Prices are in cents. */
  datatype StoredLineItem = StoredLineItem(
    id: string, title: string, quantity: int, originalUnitPrice: int,
    requiresShipping: bool, taxable: bool, variantId: Option<string>)

  /** A `node` of `lineItems.edges` in the query response. `variantId` is the
      value of the property `node.variantId` as the handler reads it. */
  datatype Node = Node(
    id: string, title: string, quantity: int, originalUnitPrice: int,
    requiresShipping: bool, taxable: bool, variantId: Option<string>)

  /** One element of the `lineItems` input of `draftOrderUpdate`. */
  datatype LineItemInput = LineItemInput(
    title: string, quantity: int, originalUnitPrice: int,
    requiresShipping: bool, taxable: bool, variantId: Option<string>)

  /** The node the query returns for a stored item: the selection set names
      id, title, quantity, originalUnitPrice, requiresShipping and taxable, and
      not variantId, so that property reads as undefined. */
  function Selected(li: StoredLineItem): Node {
    Node(li.id, li.title, li.quantity, li.originalUnitPrice, li.requiresShipping, li.taxable, None)
  }

  /** The nodes `lineItems(first: 50) { edges { node { … } } }` returns. */
  function QueryNodes(stored: seq<StoredLineItem>): (r: seq<Node>)
    ensures |r| == if |stored| < PageSize then |stored| else PageSize
    ensures forall i :: 0 <= i < |r| ==>
      r[i].title == stored[i].title && r[i].quantity == stored[i].quantity &&
      r[i].originalUnitPrice == stored[i].originalUnitPrice && r[i].variantId.None?
  {
    var n := if |stored| < PageSize then |stored| else PageSize;
    seq(n, i requires 0 <= i < n => Selected(stored[i]))
  }

  /** The input object built for one node: the five fields copied, and
      `variantId` added only when the node has a truthy one. */
  function ToInput(n: Node): LineItemInput {
    var lineItem := LineItemInput(n.title, n.quantity, n.originalUnitPrice, n.requiresShipping, n.taxable, None);
    if Truthy(n.variantId) then lineItem.(variantId := n.variantId) else lineItem
  }

  /** `li` carries exactly what the handler copies from `n`. */
  predicate Keeps(n: Node, li: LineItemInput) {
    && li.title == n.title
    && li.quantity == n.quantity
    && li.originalUnitPrice == n.originalUnitPrice
    && li.requiresShipping == n.requiresShipping
    && li.taxable == n.taxable
    && li.variantId == (if Truthy(n.variantId) then n.variantId else None)
  }

  /** The inputs built from the fetched nodes: one per node, in the same order. */
  function MapNodes(nodes: seq<Node>): (r: seq<LineItemInput>)
    ensures |r| == |nodes|
    ensures forall i :: 0 <= i < |nodes| ==> Keeps(nodes[i], r[i])
  {
    if nodes == [] then [] else [ToInput(nodes[0])] + MapNodes(nodes[1..])
  }

  /** `sub` is a substring of `s`, as JavaScript's `includes` decides it;
      by recursion on `s`. */
  predicate Includes(s: string, sub: string)
    decreases |s|
  {
    sub <= s || (|s| > 0 && Includes(s[1..], sub))
  }

  /** `sub` occurs in `s` starting at position `k`. */
  predicate OccursAt(s: string, sub: string, k: int) {
    0 <= k && k + |sub| <= |s| && s[k..k + |sub|] == sub
  }

  /** An occurrence at any position makes `Includes` hold. */
  lemma {:induction false} OccursImpliesIncludes(s: string, sub: string, k: int)
    requires OccursAt(s, sub, k)
    ensures Includes(s, sub)
    decreases k
  {
    if k == 0 {
      assert s[..|sub|] == sub;
    } else {
      assert s[1..][k - 1..k - 1 + |sub|] == s[k..k + |sub|];
      OccursImpliesIncludes(s[1..], sub, k - 1);
    }
  }

  /** `Includes` finds an occurrence at some position. */
  lemma {:induction false} IncludesImpliesOccurs(s: string, sub: string) returns (k: int)
    requires Includes(s, sub)
    ensures OccursAt(s, sub, k)
    decreases |s|
  {
    if sub <= s {
      k := 0;
      assert s[0..|sub|] == sub;
    } else {
      var j := IncludesImpliesOccurs(s[1..], sub);
      k := j + 1;
      assert s[k..k + |sub|] == s[1..][j..j + |sub|];
    }
  }

  /** `Includes` agrees with the positional reading of a substring. */
  lemma IncludesIffOccurs(s: string, sub: string)
    ensures Includes(s, sub) <==> exists k :: OccursAt(s, sub, k)
  {
    if Includes(s, sub) {
      var k := IncludesImpliesOccurs(s, sub);
    }
    forall k | OccursAt(s, sub, k) ensures Includes(s, sub) {
      OccursImpliesIncludes(s, sub, k);
    }
  }

  /** An item counts as a surcharge line when its title is non-empty and
      contains the label, case-sensitively (server.js:669). */
  predicate IsSurchargeLine(li: LineItemInput) {
    li.title != "" && Includes(li.title, Label)
  }

  /** Some item of the list is a surcharge line, by recursion. */
  predicate AnySurchargeLine(items: seq<LineItemInput>) {
    items != [] && (IsSurchargeLine(items[0]) || AnySurchargeLine(items[1..]))
  }

  /** The handler's existence check: the list is non-empty and some item is
      a surcharge line (server.js:668-670). */
  predicate RecargoExists(items: seq<LineItemInput>) {
    |items| > 0 && AnySurchargeLine(items)
  }

  /** A surcharge line exists exactly when some item is one; the length
      guard in front of `some` changes nothing. */
  lemma {:induction false} RecargoExistsIff(items: seq<LineItemInput>)
    ensures RecargoExists(items) <==> exists i :: 0 <= i < |items| && IsSurchargeLine(items[i])
  {
    if items != [] {
      RecargoExistsIff(items[1..]);
      assert AnySurchargeLine(items) == (IsSurchargeLine(items[0]) || AnySurchargeLine(items[1..]));
      assert items[1..] == [] ==> !AnySurchargeLine(items[1..]);
      if !IsSurchargeLine(items[0]) {
        forall i | 0 <= i < |items| && IsSurchargeLine(items[i])
          ensures 0 <= i - 1 < |items[1..]| && IsSurchargeLine(items[1..][i - 1])
        {}
        forall i | 0 <= i < |items[1..]| && IsSurchargeLine(items[1..][i])
          ensures IsSurchargeLine(items[i + 1])
        {}
      } else {
        assert IsSurchargeLine(items[0]);
      }
    }
  }

  /** The number of surcharge lines in a list. */
  function CountSurchargeLines(items: seq<LineItemInput>): nat {
    if items == [] then 0
    else (if IsSurchargeLine(items[0]) then 1 else 0) + CountSurchargeLines(items[1..])
  }

  lemma {:induction false} CountZeroIffNoRecargo(items: seq<LineItemInput>)
    ensures CountSurchargeLines(items) == 0 <==> !RecargoExists(items)
  {
    if items != [] {
      CountZeroIffNoRecargo(items[1..]);
      assert AnySurchargeLine(items) == (IsSurchargeLine(items[0]) || AnySurchargeLine(items[1..]));
      assert items[1..] == [] ==> !AnySurchargeLine(items[1..]);
    }
  }

  lemma {:induction false} CountAppend(items: seq<LineItemInput>, x: LineItemInput)
    ensures CountSurchargeLines(items + [x]) == CountSurchargeLines(items) + (if IsSurchargeLine(x) then 1 else 0)
  {
    if items == [] {
      assert [] + [x] == [x];
    } else {
      assert (items + [x])[1..] == items[1..] + [x];
      CountAppend(items[1..], x);
    }
  }

  /** The appended title itself carries the label. */
  lemma SurchargeTitleIsLabelled()
    ensures Includes(SurchargeTitle, Label)
  {
    assert Label <= SurchargeTitle;
  }

  /** The line the handler appends, priced at `amount` cents. */
  function SurchargeLine(amount: int): LineItemInput {
    LineItemInput(SurchargeTitle, 1, amount, false, false, None)
  }

  /** The replacement list (server.js:679-688): the existing
      items unchanged and in order, followed by one surcharge line; the result
      always holds a surcharge line, and exactly one when `items` held none. */
  function WithSurcharge(items: seq<LineItemInput>, amount: int): (r: seq<LineItemInput>)
    ensures |r| == |items| + 1
    ensures r[..|items|] == items
    ensures r[|items|].title == SurchargeTitle && r[|items|].quantity == 1
    ensures r[|items|].originalUnitPrice == amount
    ensures !r[|items|].requiresShipping && !r[|items|].taxable && r[|items|].variantId.None?
    ensures RecargoExists(r)
    ensures !RecargoExists(items) ==> CountSurchargeLines(r) == 1
  {
    var r := items + [SurchargeLine(amount)];
    SurchargeTitleIsLabelled();
    CountAppend(items, SurchargeLine(amount));
    CountZeroIffNoRecargo(items);
    CountZeroIffNoRecargo(r);
    assert r[..|items|] == items;
    r
  }

  /** The fetched inputs never carry a variant link: the query does not
      select `variantId`, so the copy in `ToInput` never happens. */
  lemma VariantLinksDropped(stored: seq<StoredLineItem>)
    ensures forall i :: 0 <= i < |MapNodes(QueryNodes(stored))| ==> MapNodes(QueryNodes(stored))[i].variantId.None?
  {}

  /** Only the first 50 stored items reach the replacement list: it holds
      them in order and then the surcharge line, so a draft with more lines
      loses every line past the fiftieth when the list replaces its items. */
  lemma ReplacementKeepsFirstPage(stored: seq<StoredLineItem>, amount: int)
    ensures var r := WithSurcharge(MapNodes(QueryNodes(stored)), amount);
      && |r| == (if |stored| < PageSize then |stored| else PageSize) + 1
      && forall i :: 0 <= i < |r| - 1 ==> r[i].title == stored[i].title && r[i].quantity == stored[i].quantity
  {}

  /** The remote draft holds `submitted` in order (titles as submitted). */
  predicate StoredAs(stored: seq<StoredLineItem>, submitted: seq<LineItemInput>) {
    |stored| == |submitted| && forall i :: 0 <= i < |stored| ==> stored[i].title == submitted[i].title
  }

  /** Re-running on a draft that stored a replacement list built from fewer
      than 50 items is rejected: the surcharge line is on the first page. */
  lemma {:induction false} RerunSeesSurcharge(items: seq<LineItemInput>, amount: int, stored: seq<StoredLineItem>)
    requires |items| < PageSize
    requires StoredAs(stored, WithSurcharge(items, amount))
    ensures RecargoExists(MapNodes(QueryNodes(stored)))
  {
    var fetched := MapNodes(QueryNodes(stored));
    var k := |items|;
    assert WithSurcharge(items, amount)[k].title == SurchargeTitle;
    assert fetched[k].title == stored[k].title == SurchargeTitle by {
      assert Keeps(QueryNodes(stored)[k], fetched[k]);
    }
    SurchargeTitleIsLabelled();
    assert IsSurchargeLine(fetched[k]);
    RecargoExistsIff(fetched);
  }

  /** With exactly 50 items before the surcharge, the stored surcharge line
      is the 51st and the first page does not show it, so a re-run is not
      rejected; its replacement list (the first page plus a new surcharge)
      still holds exactly one surcharge line, the old one being dropped. */
  lemma {:induction false} FullPageRerun(items: seq<LineItemInput>, amount: int, stored: seq<StoredLineItem>, next: int)
    requires |items| == PageSize && !RecargoExists(items)
    requires StoredAs(stored, WithSurcharge(items, amount))
    ensures !RecargoExists(MapNodes(QueryNodes(stored)))
    ensures CountSurchargeLines(WithSurcharge(MapNodes(QueryNodes(stored)), next)) == 1
  {
    var nodes := QueryNodes(stored);
    var fetched := MapNodes(nodes);
    var r := WithSurcharge(items, amount);
    forall i | 0 <= i < |fetched| ensures fetched[i].title == items[i].title {
      assert Keeps(nodes[i], fetched[i]);
      assert r[i] == r[..|items|][i];
    }
    RecargoExistsIff(items);
    RecargoExistsIff(fetched);
  }
}
