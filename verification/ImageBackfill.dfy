/** The image backfill: a sweep of Shopify's pages, the plan it leaves, the gate, and the write. */
module ImageBackfill {
  import opened Wrappers

  // ---- the tables ----

  /** A product or a product variant; `rest` stands for every column the script never looks at. */
  datatype Row = Row(id: nat, shopifyId: Option<string>, image: Option<string>, rest: string)

  datatype Tables = Tables(products: seq<Row>, variants: seq<Row>)

  predicate IdsDistinct(rows: seq<Row>) {
    forall i, j :: 0 <= i < j < |rows| ==> rows[i].id != rows[j].id
  }

  // ---- what Shopify answers ----

  /** A normalised product or variant; without a Shopify image the image key is absent. */
  datatype Item = Item(shopifyId: Option<string>, image: Option<string>)

  datatype Node = Product(item: Item, variants: seq<Item>) | Malformed(error: string)

  datatype Answer = Page(nodes: seq<Node>, hasMore: bool, nextCursor: Option<string>) | Fails(error: string)

  predicate Stops(a: Answer) {
    a.Fails? || !a.hasMore || a.nextCursor.None?
  }

  /** The answers to a sweep that comes to an end. */
  predicate Ends(answers: seq<Answer>) {
    answers != [] && (Stops(answers[0]) || Ends(answers[1..]))
  }

  /** This is the cursor for fetch number k: none for the first page, then what the page before named. */
  predicate CursorFor(answers: seq<Answer>, k: nat, cursor: Option<string>)
    requires k <= |answers|
  {
    if k == 0 then cursor == None
    else answers[k - 1].Page? && cursor == answers[k - 1].nextCursor && cursor != None
  }

  // ---- the plan ----

  datatype Action = Unchanged | Update | NoShopifyImage | Missing | Duplicate

  datatype Record = Record(shopifyId: string, rowId: Option<nat>, current: Option<string>, image: Option<string>,
      action: Action)

  datatype Plan = Plan(products: seq<Record>, variants: seq<Record>, productsFetched: nat, variantsFetched: nat,
      apiError: Option<string>)

  const EMPTY := Plan([], [], 0, 0, None)

  predicate Imaged(image: Option<string>) {
    image.Some? && image.value != ""
  }

  function Classify(current: Option<string>, image: Option<string>): Action {
    if !Imaged(image) then NoShopifyImage else if current == image then Unchanged else Update
  }

  function Matching(rows: seq<Row>, shopifyId: string): seq<Row> {
    if rows == [] then []
    else if rows[0].shopifyId == Some(shopifyId) then [rows[0]] + Matching(rows[1..], shopifyId)
    else Matching(rows[1..], shopifyId)
  }

  function PlanRecord(rows: seq<Row>, item: Item): Record {
    var shopifyId := item.shopifyId.GetOr("");
    var found := Matching(rows, shopifyId);
    if |found| > 1 then Record(shopifyId, None, None, item.image, Duplicate)
    else if found == [] then Record(shopifyId, None, None, item.image, Missing)
    else Record(shopifyId, Some(found[0].id), found[0].image, item.image, Classify(found[0].image, item.image))
  }

  /** Queries for these Shopify ids raise; the text is the error's. */
  type Trouble = string -> Option<string>

  function AddVariants(t: Tables, trouble: Trouble, p: Plan, items: seq<Item>): Plan
    decreases |items|
  {
    if items == [] || p.apiError.Some? then p
    else
      var counted := p.(variantsFetched := p.variantsFetched + 1);
      var error := trouble(items[0].shopifyId.GetOr(""));
      if error.Some? then counted.(apiError := error)
      else AddVariants(t, trouble, counted.(variants := p.variants + [PlanRecord(t.variants, items[0])]), items[1..])
  }

  function AddNode(t: Tables, trouble: Trouble, p: Plan, node: Node): Plan {
    match node
    case Malformed(error) => p.(apiError := Some(error))
    case Product(item, variants) =>
      var counted := p.(productsFetched := p.productsFetched + 1);
      var error := trouble(item.shopifyId.GetOr(""));
      if error.Some? then counted.(apiError := error)
      else AddVariants(t, trouble, counted.(products := p.products + [PlanRecord(t.products, item)]), variants)
  }

  function AddNodes(t: Tables, trouble: Trouble, p: Plan, nodes: seq<Node>): Plan
    decreases |nodes|
  {
    if nodes == [] || p.apiError.Some? then p else AddNodes(t, trouble, AddNode(t, trouble, p, nodes[0]), nodes[1..])
  }

  /** The sweep: page after page until one fails or says it is the last. */
  function AddAnswers(t: Tables, trouble: Trouble, p: Plan, answers: seq<Answer>): Plan
    decreases |answers|
  {
    if answers == [] then p
    else if answers[0].Fails? then p.(apiError := Some(answers[0].error))
    else
      var next := AddNodes(t, trouble, p, answers[0].nodes);
      if next.apiError.Some? || Stops(answers[0]) then next else AddAnswers(t, trouble, next, answers[1..])
  }

  /** How many fetches the sweep makes of these answers. */
  function Fetches(t: Tables, trouble: Trouble, p: Plan, answers: seq<Answer>): nat
    decreases |answers|
  {
    if answers == [] then 0
    else if answers[0].Fails? then 1
    else
      var next := AddNodes(t, trouble, p, answers[0].nodes);
      if next.apiError.Some? || Stops(answers[0]) then 1 else 1 + Fetches(t, trouble, next, answers[1..])
  }

  /** The number of the first answer that ends a sweep, or of all answers when none does. */
  function UpToEnd(answers: seq<Answer>): nat {
    if answers == [] then 0 else if Stops(answers[0]) then 1 else 1 + UpToEnd(answers[1..])
  }

  function PlanOf(t: Tables, trouble: Trouble, answers: seq<Answer>): Plan {
    AddAnswers(t, trouble, EMPTY, answers)
  }

  // ---- the gate and the report ----

  function Count(records: seq<Record>, action: Action): nat {
    if records == [] then 0 else (if records[0].action == action then 1 else 0) + Count(records[1..], action)
  }

  function Matched(records: seq<Record>): nat {
    Count(records, Unchanged) + Count(records, Update) + Count(records, NoShopifyImage)
  }

  predicate Accounted(fetched: nat, records: seq<Record>) {
    fetched == Matched(records) + Count(records, Missing) + Count(records, Duplicate)
  }

  predicate Blocked(p: Plan) {
    || p.apiError.Some?
    || Count(p.products, Missing) > 0 || Count(p.variants, Missing) > 0
    || Count(p.products, Duplicate) > 0 || Count(p.variants, Duplicate) > 0
    || !Accounted(p.productsFetched, p.products) || !Accounted(p.variantsFetched, p.variants)
  }

  /** The number printed as BLOCKING PROBLEMS; it does not look at the two invariants. */
  function BlockingCount(p: Plan): nat {
    Count(p.products, Missing) + Count(p.variants, Missing)
    + Count(p.products, Duplicate) + Count(p.variants, Duplicate) + if p.apiError.Some? then 1 else 0
  }

  // ---- the write ----

  function SetImage(rows: seq<Row>, id: nat, image: Option<string>): seq<Row> {
    if rows == [] then []
    else [if rows[0].id == id then rows[0].(image := image) else rows[0]] + SetImage(rows[1..], id, image)
  }

  predicate HasRow(rows: seq<Row>, id: nat) {
    exists r :: r in rows && r.id == id
  }

  /** None when a row vanished. */
  function ApplyRecords(rows: seq<Row>, records: seq<Record>): Option<seq<Row>>
    decreases |records|
  {
    if records == [] then Some(rows)
    else if !records[0].action.Update? then ApplyRecords(rows, records[1..])
    else if records[0].rowId.None? || !HasRow(rows, records[0].rowId.value) then None
    else ApplyRecords(SetImage(rows, records[0].rowId.value, records[0].image), records[1..])
  }

  /** None is a refusal: nothing is committed. */
  function Apply(t: Tables, p: Plan): Option<Tables> {
    if Blocked(p) then None
    else
      var products :- ApplyRecords(t.products, p.products);
      var variants :- ApplyRecords(t.variants, p.variants);
      Some(Tables(products, variants))
  }

  // ---- what a sweep delivers ----

  function Delivered(answers: seq<Answer>): seq<Node> {
    if answers == [] || answers[0].Fails? then []
    else answers[0].nodes + if Stops(answers[0]) then [] else Delivered(answers[1..])
  }

  function ProductItems(nodes: seq<Node>): seq<Item> {
    if nodes == [] then []
    else if nodes[0].Product? then [nodes[0].item] + ProductItems(nodes[1..])
    else ProductItems(nodes[1..])
  }

  function VariantItems(nodes: seq<Node>): seq<Item> {
    if nodes == [] then []
    else if nodes[0].Product? then nodes[0].variants + VariantItems(nodes[1..])
    else VariantItems(nodes[1..])
  }

  /** No page failed, no node was malformed and no lookup raised. */
  predicate SweepClean(trouble: Trouble, answers: seq<Answer>) {
    && (forall n :: n in Delivered(answers) ==> NodeClean(trouble, n))
    && !ReachesFailure(answers)
  }

  predicate NodeClean(trouble: Trouble, n: Node) {
    n.Product? && ItemClean(trouble, n.item) && forall v :: v in n.variants ==> ItemClean(trouble, v)
  }

  predicate ItemClean(trouble: Trouble, item: Item) {
    trouble(item.shopifyId.GetOr("")).None?
  }

  predicate ReachesFailure(answers: seq<Answer>) {
    answers != [] && (answers[0].Fails? || (!Stops(answers[0]) && ReachesFailure(answers[1..])))
  }

  /** Every item classified, once and in order. */
  function Records(rows: seq<Row>, items: seq<Item>): seq<Record> {
    if items == [] then [] else [PlanRecord(rows, items[0])] + Records(rows, items[1..])
  }

  /** Plan q is p plus the classification of these items. */
  predicate Extends(t: Tables, p: Plan, q: Plan, products: seq<Item>, variants: seq<Item>) {
    q == Plan(p.products + Records(t.products, products), p.variants + Records(t.variants, variants),
              p.productsFetched + |products|, p.variantsFetched + |variants|, p.apiError)
  }

  lemma {:induction false} RecordsSplit(rows: seq<Row>, a: seq<Item>, b: seq<Item>)
    ensures Records(rows, a + b) == Records(rows, a) + Records(rows, b)
  {
    if a == [] { assert a + b == b; }
    else {
      assert (a + b)[1..] == a[1..] + b;
      RecordsSplit(rows, a[1..], b);
    }
  }

  lemma {:induction false} ItemsSplit(a: seq<Node>, b: seq<Node>)
    ensures ProductItems(a + b) == ProductItems(a) + ProductItems(b)
    ensures VariantItems(a + b) == VariantItems(a) + VariantItems(b)
  {
    if a == [] { assert a + b == b; }
    else {
      assert (a + b)[1..] == a[1..] + b;
      ItemsSplit(a[1..], b);
    }
  }

  lemma ExtendsBoth(t: Tables, p: Plan, q: Plan, r: Plan, ps: seq<Item>, vs: seq<Item>, ps': seq<Item>, vs': seq<Item>)
    requires Extends(t, p, q, ps, vs) && Extends(t, q, r, ps', vs')
    ensures Extends(t, p, r, ps + ps', vs + vs')
  {
    RecordsSplit(t.products, ps, ps');
    RecordsSplit(t.variants, vs, vs');
  }

  lemma {:induction false} VariantsAdded(t: Tables, trouble: Trouble, p: Plan, items: seq<Item>)
    requires p.apiError.None?
    ensures var q := AddVariants(t, trouble, p, items);
            && (q.apiError.None? <==> forall v :: v in items ==> ItemClean(trouble, v))
            && (q.apiError.None? ==> Extends(t, p, q, [], items))
    decreases |items|
  {
    if items != [] {
      assert items == [items[0]] + items[1..];
      if ItemClean(trouble, items[0]) {
        var next := p.(variantsFetched := p.variantsFetched + 1,
            variants := p.variants + [PlanRecord(t.variants, items[0])]);
        VariantsAdded(t, trouble, next, items[1..]);
        assert Records(t.variants, [items[0]]) == [PlanRecord(t.variants, items[0])];
        if AddVariants(t, trouble, p, items).apiError.None? {
          ExtendsBoth(t, p, next, AddVariants(t, trouble, p, items), [], [items[0]], [], items[1..]);
        }
      }
    }
  }

  lemma NodeAdded(t: Tables, trouble: Trouble, p: Plan, node: Node)
    requires p.apiError.None?
    ensures var q := AddNode(t, trouble, p, node);
            && (q.apiError.None? <==> NodeClean(trouble, node))
            && (q.apiError.None? ==> Extends(t, p, q, ProductItems([node]), VariantItems([node])))
  {
    if node.Product? && ItemClean(trouble, node.item) {
      var next := p.(productsFetched := p.productsFetched + 1,
          products := p.products + [PlanRecord(t.products, node.item)]);
      VariantsAdded(t, trouble, next, node.variants);
      assert Records(t.products, [node.item]) == [PlanRecord(t.products, node.item)];
      assert [node][1..] == [] && VariantItems([]) == [] && ProductItems([]) == [];
      assert ProductItems([node]) == [node.item] + []
          && VariantItems([node]) == node.variants + [] == [] + node.variants;
      if AddNode(t, trouble, p, node).apiError.None? {
        ExtendsBoth(t, p, next, AddNode(t, trouble, p, node), [node.item], [], [], node.variants);
      }
    }
  }

  lemma {:induction false} NodesAdded(t: Tables, trouble: Trouble, p: Plan, nodes: seq<Node>)
    requires p.apiError.None?
    ensures var q := AddNodes(t, trouble, p, nodes);
            && (q.apiError.None? <==> forall n :: n in nodes ==> NodeClean(trouble, n))
            && (q.apiError.None? ==> Extends(t, p, q, ProductItems(nodes), VariantItems(nodes)))
    decreases |nodes|
  {
    hide Extends, NodeClean, ProductItems, VariantItems, AddNode;
    if nodes == [] {
      NothingAdded(t, p);
    } else {
      assert nodes == [nodes[0]] + nodes[1..];
      NodeAdded(t, trouble, p, nodes[0]);
      var next := AddNode(t, trouble, p, nodes[0]);
      if next.apiError.None? {
        NodesAdded(t, trouble, next, nodes[1..]);
        ItemsSplit([nodes[0]], nodes[1..]);
        var last := AddNodes(t, trouble, next, nodes[1..]);
        if last.apiError.None? {
          ExtendsBoth(t, p, next, last, ProductItems([nodes[0]]), VariantItems([nodes[0]]), ProductItems(nodes[1..]),
              VariantItems(nodes[1..]));
        }
      }
    }
  }

  lemma NothingAdded(t: Tables, p: Plan)
    ensures ProductItems([]) == [] && VariantItems([]) == [] && Extends(t, p, p, [], [])
  {
  }

  lemma {:induction false} AnswersAdded(t: Tables, trouble: Trouble, p: Plan, answers: seq<Answer>)
    requires p.apiError.None?
    ensures var q := AddAnswers(t, trouble, p, answers);
            && (q.apiError.None? <==> SweepClean(trouble, answers))
            && (q.apiError.None? ==>
                   Extends(t, p, q, ProductItems(Delivered(answers)), VariantItems(Delivered(answers))))
    decreases |answers|
  {
    hide Extends, NodeClean, ProductItems, VariantItems;
    if answers == [] || answers[0].Fails? {
      NothingAdded(t, p);
    } else {
      var nodes := answers[0].nodes;
      NodesAdded(t, trouble, p, nodes);
      var next := AddNodes(t, trouble, p, nodes);
      if Stops(answers[0]) {
        assert Delivered(answers) == nodes + [] == nodes;
      } else {
        var more := Delivered(answers[1..]);
        assert Delivered(answers) == nodes + more;
        if next.apiError.None? {
          AnswersAdded(t, trouble, next, answers[1..]);
          ItemsSplit(nodes, more);
          var last := AddAnswers(t, trouble, next, answers[1..]);
          if last.apiError.None? {
            ExtendsBoth(t, p, next, last, ProductItems(nodes), VariantItems(nodes), ProductItems(more),
                VariantItems(more));
          }
        }
      }
    }
  }

  lemma {:induction false} EveryRecordCounted(records: seq<Record>)
    ensures Matched(records) + Count(records, Missing) + Count(records, Duplicate) == |records|
  {
    if records != [] { EveryRecordCounted(records[1..]); }
  }

  lemma {:induction false} RecordsAre(rows: seq<Row>, items: seq<Item>)
    ensures |Records(rows, items)| == |items|
    ensures forall i :: 0 <= i < |items| ==> Records(rows, items)[i] == PlanRecord(rows, items[i])
  {
    if items != [] { RecordsAre(rows, items[1..]); }
  }

  /** A sweep ends without error exactly when every page, node and lookup was fine; then it has
      classified each product and variant of all the pages once, in order, and both accounts add up. */
  lemma SweepExact(t: Tables, trouble: Trouble, answers: seq<Answer>)
    ensures var p, nodes := PlanOf(t, trouble, answers), Delivered(answers);
            && (p.apiError.None? <==> SweepClean(trouble, answers))
            && (p.apiError.None? ==>
                  && p.products == Records(t.products, ProductItems(nodes))
                      && p.productsFetched == |ProductItems(nodes)|
                  && p.variants == Records(t.variants, VariantItems(nodes))
                      && p.variantsFetched == |VariantItems(nodes)|
                  && Accounted(p.productsFetched, p.products) && Accounted(p.variantsFetched, p.variants))
  {
    hide SweepClean, Delivered, ProductItems, VariantItems;
    AnswersAdded(t, trouble, EMPTY, answers);
    var p, nodes := PlanOf(t, trouble, answers), Delivered(answers);
    EveryRecordCounted(p.products);
    EveryRecordCounted(p.variants);
    RecordsAre(t.products, ProductItems(nodes));
    RecordsAre(t.variants, VariantItems(nodes));
  }

  lemma {:induction false} FetchesFrom(t: Tables, trouble: Trouble, p: Plan, answers: seq<Answer>)
    requires p.apiError.None?
    ensures var n, q := Fetches(t, trouble, p, answers), AddAnswers(t, trouble, p, answers);
            && n <= UpToEnd(answers) && (answers != [] ==> n > 0)
            && (q.apiError.None? ==> n == UpToEnd(answers))
    decreases |answers|
  {
    if answers != [] && answers[0].Page? {
      var next := AddNodes(t, trouble, p, answers[0].nodes);
      if next.apiError.None? && !Stops(answers[0]) { FetchesFrom(t, trouble, next, answers[1..]); }
    }
  }

  /** Without an error a sweep fetches every page up to the last one and no more; an error stops it
      at the page where it happens. */
  lemma FetchesExact(t: Tables, trouble: Trouble, answers: seq<Answer>)
    ensures var n := Fetches(t, trouble, EMPTY, answers);
            && n <= UpToEnd(answers) <= |answers| && (answers != [] ==> n > 0)
            && (PlanOf(t, trouble, answers).apiError.None? ==> n == UpToEnd(answers))
            && PlanOf(t, trouble, answers[..n]) == PlanOf(t, trouble, answers)
  {
    FetchesFrom(t, trouble, EMPTY, answers);
    EndBound(answers);
    RestUnread(t, trouble, EMPTY, answers);
  }

  /** A sweep goes on past exactly those pages that say there is more and name where, and what it delivers
      is the nodes of the pages up to its end. */
  lemma {:induction false} EndExact(answers: seq<Answer>)
    ensures var n := UpToEnd(answers);
            && n <= |answers|
            && (forall k :: 0 <= k < n - 1 ==> answers[k].Page? && answers[k].hasMore && answers[k].nextCursor != None)
            && (Ends(answers) ==>
                  n > 0 && (answers[n - 1].Page? ==> !answers[n - 1].hasMore || answers[n - 1].nextCursor == None))
            && (!Ends(answers) ==>
                  n == |answers| && forall a :: a in answers ==> a.Page? && a.hasMore && a.nextCursor != None)
            && Delivered(answers) == NodesOf(answers[..n])
  {
    if answers != [] {
      var rest := answers[1..];
      EndExact(rest);
      assert forall k :: 0 < k < |answers| ==> answers[k] == rest[k - 1];
      if Stops(answers[0]) {
        assert answers[..1] == [answers[0]] && NodesOf([answers[0]][1..]) == [];
      } else {
        assert answers[..UpToEnd(answers)] == [answers[0]] + rest[..UpToEnd(rest)];
        assert answers == [answers[0]] + rest;
      }
    }
  }

  function NodesOf(answers: seq<Answer>): seq<Node> {
    if answers == [] then []
    else (if answers[0].Page? then answers[0].nodes else []) + NodesOf(answers[1..])
  }

  lemma {:induction false} EndBound(answers: seq<Answer>)
    ensures UpToEnd(answers) <= |answers|
  {
    if answers != [] { EndBound(answers[1..]); }
  }

  lemma {:induction false} RestUnread(t: Tables, trouble: Trouble, p: Plan, answers: seq<Answer>)
    ensures Fetches(t, trouble, p, answers) <= |answers|
    ensures AddAnswers(t, trouble, p, answers[..Fetches(t, trouble, p, answers)]) == AddAnswers(t, trouble, p, answers)
    decreases |answers|
  {
    if answers != [] {
      var n := Fetches(t, trouble, p, answers);
      if answers[0].Page? {
        var next := AddNodes(t, trouble, p, answers[0].nodes);
        if next.apiError.None? && !Stops(answers[0]) {
          RestUnread(t, trouble, next, answers[1..]);
          var rest := answers[1..];
          assert answers[..n] == [answers[0]] + rest[..n - 1];
          assert AddAnswers(t, trouble, next, rest[..n - 1]) == AddAnswers(t, trouble, next, rest);
        }
      }
    }
  }

  /** The printed number of blocking problems is zero exactly when the gate is open. */
  lemma BlockingCountExact(t: Tables, trouble: Trouble, answers: seq<Answer>)
    ensures BlockingCount(PlanOf(t, trouble, answers)) == 0 <==> !Blocked(PlanOf(t, trouble, answers))
  {
    SweepExact(t, trouble, answers);
  }

  // ---- what is written down about one item ----

  /** An item's record, told by the rows: missing when no row has its Shopify id, a duplicate when two do,
      and otherwise about the one row that has it, with nothing to do without a Shopify image or when the
      row has that image already, and an update when it has another or none. */
  lemma RecordExact(rows: seq<Row>, item: Item)
    ensures var r := PlanRecord(rows, item);
            var id := if item.shopifyId.Some? then item.shopifyId.value else "";
            && r.shopifyId == id && r.image == item.image
            && (r.action == Missing <==> forall j :: 0 <= j < |rows| ==> rows[j].shopifyId != Some(id))
            && (r.action == Duplicate <==>
                  exists j, k :: 0 <= j < k < |rows| && rows[j].shopifyId == rows[k].shopifyId == Some(id))
            && (r.action != Missing && r.action != Duplicate ==>
                  exists j :: 0 <= j < |rows| && rows[j].shopifyId == Some(id) && r.rowId == Some(rows[j].id)
                              && r.current == rows[j].image && r.action == ActionFor(rows[j].image, item.image))
  {
    hide Classify;
    var id := item.shopifyId.GetOr("");
    MatchingCount(rows, id);
    MatchingAre(rows, id);
    ClassifyExact(Matching(rows, id), item);
    if |Matching(rows, id)| == 1 {
      var row := Matching(rows, id)[0];
      var j :| 0 <= j < |rows| && rows[j] == row;
    }
  }

  function ActionFor(current: Option<string>, image: Option<string>): Action {
    match image
    case None => NoShopifyImage
    case Some(text) => if text == "" then NoShopifyImage else if current == Some(text) then Unchanged else Update
  }

  lemma ClassifyExact(found: seq<Row>, item: Item)
    ensures forall row :: row in found ==> Classify(row.image, item.image) == ActionFor(row.image, item.image)
    ensures forall row :: row in found ==>
              Classify(row.image, item.image) != Missing && Classify(row.image, item.image) != Duplicate
  {
  }

  lemma {:induction false} MatchingCount(rows: seq<Row>, id: string)
    ensures Matching(rows, id) == [] <==> forall j :: 0 <= j < |rows| ==> rows[j].shopifyId != Some(id)
    ensures |Matching(rows, id)| > 1 <==>
              exists j, k :: 0 <= j < k < |rows| && rows[j].shopifyId == rows[k].shopifyId == Some(id)
  {
    if rows != [] {
      var rest := rows[1..];
      MatchingCount(rest, id);
      assert forall j :: 0 < j < |rows| ==> rows[j] == rest[j - 1];
      if j, k :| 0 <= j < k < |rest| && rest[j].shopifyId == rest[k].shopifyId == Some(id) {
        assert rows[j + 1].shopifyId == rows[k + 1].shopifyId == Some(id);
      }
      if j :| 0 <= j < |rest| && rest[j].shopifyId == Some(id) { assert rows[j + 1].shopifyId == Some(id); }
    }
  }

  /** An image is a text with something in it. */
  lemma ImagedExact(image: Option<string>)
    ensures Imaged(image) <==> image != None && image != Some("")
  {
  }

  // ---- what the write does to one table ----

  predicate SameButImage(rows: seq<Row>, after: seq<Row>) {
    |after| == |rows| && forall j :: 0 <= j < |rows| ==> after[j] == rows[j].(image := after[j].image)
  }

  function FinalImage(records: seq<Record>, id: nat, current: Option<string>): Option<string> {
    if records == [] then current
    else if records[0].action.Update? && records[0].rowId == Some(id) then
      FinalImage(records[1..], id, records[0].image)
    else FinalImage(records[1..], id, current)
  }

  lemma {:induction false} FinalImageIs(records: seq<Record>, id: nat, current: Option<string>)
    ensures var final := FinalImage(records, id, current);
            || (final == current && forall r :: r in records && r.action.Update? ==> r.rowId != Some(id))
            || (exists r :: r in records && r.action.Update? && r.rowId == Some(id) && r.image == final)
    decreases |records|
  {
    if records != [] {
      var r := records[0];
      FinalImageIs(records[1..], id, if r.action.Update? && r.rowId == Some(id) then r.image else current);
      assert records == [r] + records[1..];
    }
  }

  lemma {:induction false} SetImageAt(rows: seq<Row>, id: nat, image: Option<string>)
    ensures var after := SetImage(rows, id, image);
            |after| == |rows| && forall j :: 0 <= j < |rows| ==>
              after[j] == if rows[j].id == id then rows[j].(image := image) else rows[j]
  {
    if rows != [] { SetImageAt(rows[1..], id, image); }
  }

  predicate Applicable(rows: seq<Row>, r: Record) {
    r.action.Update? ==> r.rowId.Some? && HasRow(rows, r.rowId.value)
  }

  lemma {:induction false} RecordsApplied(rows: seq<Row>, records: seq<Record>)
    requires forall r :: r in records ==> Applicable(rows, r)
    ensures var after := ApplyRecords(rows, records);
            && after.Some? && |after.value| == |rows|
            && forall j :: 0 <= j < |rows| ==>
                  after.value[j] == rows[j].(image := FinalImage(records, rows[j].id, rows[j].image))
    decreases |records|
  {
    if records != [] {
      var r, rest := records[0], records[1..];
      assert records == [r] + rest && Applicable(rows, r);
      var next := if r.action.Update? then SetImage(rows, r.rowId.value, r.image) else rows;
      if r.action.Update? { SetImageAt(rows, r.rowId.value, r.image); }
      forall q | q in rest && q.action.Update? ensures Applicable(next, q) {
        assert Applicable(rows, q);
        var row :| row in rows && row.id == q.rowId.value;
        var j :| 0 <= j < |rows| && rows[j] == row;
        assert next[j].id == q.rowId.value;
      }
      RecordsApplied(next, rest);
    }
  }

  lemma {:induction false} RecordsRefused(rows: seq<Row>, records: seq<Record>)
    ensures ApplyRecords(rows, records).None? <==> exists r :: r in records && !Applicable(rows, r)
    decreases |records|
  {
    hide HasRow;
    if records != [] {
      var r, rest := records[0], records[1..];
      assert records == [r] + rest;
      if Applicable(rows, r) {
        var next := if r.action.Update? then SetImage(rows, r.rowId.value, r.image) else rows;
        forall id ensures HasRow(next, id) <==> HasRow(rows, id) {
          if r.action.Update? { SetImageKeepsIds(rows, r.rowId.value, r.image, id); }
        }
        RecordsRefused(next, rest);
        assert forall q :: Applicable(next, q) <==> Applicable(rows, q);
      } else {
        assert r in records;
      }
    }
  }

  lemma SetImageKeepsIds(rows: seq<Row>, id: nat, image: Option<string>, other: nat)
    ensures HasRow(SetImage(rows, id, image), other) <==> HasRow(rows, other)
  {
    SetImageAt(rows, id, image);
    var after := SetImage(rows, id, image);
    if r :| r in rows && r.id == other {
      var j :| 0 <= j < |rows| && rows[j] == r;
      assert after[j].id == other;
    }
    if r :| r in after && r.id == other {
      var j :| 0 <= j < |after| && after[j] == r;
      assert rows[j].id == other;
    }
  }

  /** Whoever calls it, the write is refused exactly when the plan is blocked or a row to update is gone. */
  lemma RefusalExact(t: Tables, p: Plan)
    ensures Apply(t, p).None? <==>
              || Blocked(p)
              || (exists r :: r in p.products && !Applicable(t.products, r))
              || (exists r :: r in p.variants && !Applicable(t.variants, r))
  {
    hide Blocked, Applicable;
    RecordsRefused(t.products, p.products);
    RecordsRefused(t.variants, p.variants);
  }

  lemma {:induction false} MatchingAre(rows: seq<Row>, shopifyId: string)
    ensures forall r :: r in Matching(rows, shopifyId) <==> r in rows && r.shopifyId == Some(shopifyId)
  {
    if rows != [] { MatchingAre(rows[1..], shopifyId); }
  }

  lemma {:induction false} MatchingAfter(rows: seq<Row>, after: seq<Row>, shopifyId: string)
    requires SameButImage(rows, after)
    ensures SameButImage(Matching(rows, shopifyId), Matching(after, shopifyId))
  {
    if rows != [] {
      assert forall j :: 0 <= j < |rows| - 1 ==> rows[1..][j] == rows[j + 1] && after[1..][j] == after[j + 1];
      MatchingAfter(rows[1..], after[1..], shopifyId);
    }
  }

  lemma {:induction false} NoneCounted(records: seq<Record>, action: Action)
    ensures Count(records, action) == 0 <==> forall i :: 0 <= i < |records| ==> records[i].action != action
  {
    if records != [] {
      NoneCounted(records[1..], action);
      assert forall i :: 0 < i < |records| ==> records[i] == records[1..][i - 1];
    }
  }

  /** This item is for this row. */
  predicate For(item: Item, row: Row) {
    row.shopifyId == Some(item.shopifyId.GetOr(""))
  }

  /** Every item finds exactly one row. */
  predicate AllFound(rows: seq<Row>, items: seq<Item>) {
    Count(Records(rows, items), Missing) == 0 && Count(Records(rows, items), Duplicate) == 0
  }

  /** Items for the same Shopify id that have an image have the same image. */
  predicate Consistent(items: seq<Item>) {
    forall i, j :: (0 <= i < j < |items| && Imaged(items[i].image) && Imaged(items[j].image)
                    && items[i].shopifyId.GetOr("") == items[j].shopifyId.GetOr("")) ==>
                     items[i].image == items[j].image
  }

  lemma FoundOne(rows: seq<Row>, items: seq<Item>, i: nat)
    requires AllFound(rows, items) && i < |items|
    ensures |Matching(rows, items[i].shopifyId.GetOr(""))| == 1
  {
    RecordsAre(rows, items);
    NoneCounted(Records(rows, items), Missing);
    NoneCounted(Records(rows, items), Duplicate);
    assert Records(rows, items)[i] == PlanRecord(rows, items[i]);
  }

  /** What the planner writes down for an item and its row. */
  lemma ItemRecord(rows: seq<Row>, items: seq<Item>, i: nat, j: nat)
    requires AllFound(rows, items) && i < |items| && j < |rows| && For(items[i], rows[j])
    ensures var r := PlanRecord(rows, items[i]);
            r.rowId == Some(rows[j].id) && r.image == items[i].image
                && r.action == Classify(rows[j].image, items[i].image)
  {
    FoundOne(rows, items, i);
    MatchingAre(rows, items[i].shopifyId.GetOr(""));
    assert rows[j] in Matching(rows, items[i].shopifyId.GetOr(""));
  }

  lemma ItemRow(rows: seq<Row>, items: seq<Item>, i: nat) returns (j: nat)
    requires AllFound(rows, items) && i < |items|
    ensures j < |rows| && For(items[i], rows[j]) && PlanRecord(rows, items[i]).rowId == Some(rows[j].id)
  {
    FoundOne(rows, items, i);
    MatchingAre(rows, items[i].shopifyId.GetOr(""));
    var row := Matching(rows, items[i].shopifyId.GetOr(""))[0];
    j :| 0 <= j < |rows| && rows[j] == row;
    ItemRecord(rows, items, i, j);
  }

  /** A row that Shopify has no image for keeps its value; with consistent items every other row
      gets the image that Shopify has. */
  predicate ImageSettled(row: Row, after: Row, items: seq<Item>) {
    && ((forall i :: 0 <= i < |items| && Imaged(items[i].image) ==> !For(items[i], row)) ==> after == row)
    && (Consistent(items) ==>
          forall i :: 0 <= i < |items| && Imaged(items[i].image) && For(items[i], row) ==>
            after.image == items[i].image)
  }

  /** Where an update of this row comes from. */
  lemma UpdateComesFrom(rows: seq<Row>, items: seq<Item>, j: nat, r: Record) returns (k: nat)
    requires IdsDistinct(rows) && AllFound(rows, items) && j < |rows|
    requires r in Records(rows, items) && r.action.Update? && r.rowId == Some(rows[j].id)
    ensures k < |items| && Imaged(items[k].image) && For(items[k], rows[j]) && items[k].image == r.image
    ensures r.image != rows[j].image
  {
    hide Classify, PlanRecord, AllFound;
    var records := Records(rows, items);
    RecordsAre(rows, items);
    k :| 0 <= k < |records| && records[k] == r;
    var l := ItemRow(rows, items, k);
    ItemRecord(rows, items, k, l);
    UpdateIsImaged(rows[l].image, items[k].image);
    assert l == j;
  }

  lemma RowSettles(rows: seq<Row>, items: seq<Item>, j: nat)
    requires IdsDistinct(rows) && AllFound(rows, items) && j < |rows|
    ensures ImageSettled(rows[j], rows[j].(image := FinalImage(Records(rows, items), rows[j].id, rows[j].image)), items)
  {
    hide Classify, PlanRecord, AllFound, FinalImage, Imaged, IdsDistinct, Records;
    var row, records := rows[j], Records(rows, items);
    var final := FinalImage(records, row.id, row.image);
    RecordsAre(rows, items);
    FinalImageIs(records, row.id, row.image);
    var updated := exists r :: r in records && r.action.Update? && r.rowId == Some(row.id) && r.image == final;
    var k := 0;
    if updated {
      var r :| r in records && r.action.Update? && r.rowId == Some(row.id) && r.image == final;
      k := UpdateComesFrom(rows, items, j, r);
    }
    forall i | 0 <= i < |items| && Imaged(items[i].image) && For(items[i], row) && Consistent(items)
      ensures final == items[i].image
    {
      ItemRecord(rows, items, i, j);
      assert records[i] in records;
      UpdateIsImaged(row.image, items[i].image);
      assert updated ==> items[k].shopifyId.GetOr("") == items[i].shopifyId.GetOr("");
    }
  }

  lemma UpdateIsImaged(current: Option<string>, image: Option<string>)
    ensures Classify(current, image).Update? <==> Imaged(image) && current != image
  {
  }

  /** Writing one table: it succeeds, changes nothing but images, and settles every row; planning
      again finds every item, and has nothing to update and nothing to write, exactly when the items
      are consistent. */
  lemma TableWritten(rows: seq<Row>, items: seq<Item>)
    requires IdsDistinct(rows) && AllFound(rows, items)
    ensures var r := ApplyRecords(rows, Records(rows, items));
            && r.Some? && SameButImage(rows, r.value)
            && (forall j :: 0 <= j < |rows| ==> ImageSettled(rows[j], r.value[j], items))
            && AllFound(r.value, items)
            && (Count(Records(r.value, items), Update) == 0 <==> Consistent(items))
            && (ApplyRecords(r.value, Records(r.value, items)) == Some(r.value) <==> Consistent(items))
  {
    hide FinalImage, ImageSettled, AllFound, Consistent;
    var records := Records(rows, items);
    RecordsApplicable(rows, items);
    RecordsApplied(rows, records);
    var after := ApplyRecords(rows, records).value;
    forall j | 0 <= j < |rows| ensures ImageSettled(rows[j], after[j], items) { RowSettles(rows, items, j); }
    StillFound(rows, after, items);
    Replanned(rows, after, items);
    UpdatesChange(after, items);
  }

  lemma RecordsApplicable(rows: seq<Row>, items: seq<Item>)
    requires AllFound(rows, items)
    ensures forall r :: r in Records(rows, items) ==> Applicable(rows, r)
  {
    hide AllFound, PlanRecord;
    var records := Records(rows, items);
    RecordsAre(rows, items);
    forall r | r in records ensures Applicable(rows, r) {
      var i :| 0 <= i < |records| && records[i] == r;
      var j := ItemRow(rows, items, i);
    }
  }

  lemma StillFound(rows: seq<Row>, after: seq<Row>, items: seq<Item>)
    requires AllFound(rows, items) && SameButImage(rows, after)
    ensures AllFound(after, items)
  {
    RecordsAre(after, items);
    forall i | 0 <= i < |items|
      ensures Records(after, items)[i].action != Missing && Records(after, items)[i].action != Duplicate
    {
      FoundOne(rows, items, i);
      MatchingAfter(rows, after, items[i].shopifyId.GetOr(""));
    }
    NoneCounted(Records(after, items), Missing);
    NoneCounted(Records(after, items), Duplicate);
  }

  lemma Replanned(rows: seq<Row>, after: seq<Row>, items: seq<Item>)
    requires AllFound(rows, items) && AllFound(after, items) && SameButImage(rows, after)
    requires forall j :: 0 <= j < |rows| ==> ImageSettled(rows[j], after[j], items)
    ensures Count(Records(after, items), Update) == 0 <==> Consistent(items)
  {
    hide AllFound, Classify, PlanRecord;
    RecordsAre(after, items);
    NoneCounted(Records(after, items), Update);
    if Consistent(items) {
      forall i | 0 <= i < |items| ensures Records(after, items)[i].action != Update {
        var j := ItemRow(after, items, i);
        ItemRecord(after, items, i, j);
        UpdateIsImaged(after[j].image, items[i].image);
        assert ImageSettled(rows[j], after[j], items) && For(items[i], rows[j]);
      }
    }
    if forall i :: 0 <= i < |items| ==> Records(after, items)[i].action != Update {
      forall i, k | 0 <= i < k < |items| && Imaged(items[i].image) && Imaged(items[k].image)
                    && items[i].shopifyId.GetOr("") == items[k].shopifyId.GetOr("")
        ensures items[i].image == items[k].image
      {
        var j := ItemRow(after, items, i);
        ItemRecord(after, items, i, j);
        ItemRecord(after, items, k, j);
        UpdateIsImaged(after[j].image, items[i].image);
        UpdateIsImaged(after[j].image, items[k].image);
      }
    }
  }

  lemma {:induction false} NoUpdatesNoChange(rows: seq<Row>, records: seq<Record>)
    requires Count(records, Update) == 0
    ensures ApplyRecords(rows, records) == Some(rows)
    decreases |records|
  {
    if records != [] { NoUpdatesNoChange(rows, records[1..]); }
  }

  /** Every planned update is a change: writing the plan of a table leaves it as it is exactly when
      there is no update in it. */
  lemma UpdatesChange(rows: seq<Row>, items: seq<Item>)
    requires IdsDistinct(rows) && AllFound(rows, items)
    ensures ApplyRecords(rows, Records(rows, items)) == Some(rows) <==> Count(Records(rows, items), Update) == 0
  {
    hide AllFound, PlanRecord, Classify, FinalImage;
    var records := Records(rows, items);
    if Count(records, Update) == 0 {
      NoUpdatesNoChange(rows, records);
    } else {
      RecordsAre(rows, items);
      NoneCounted(records, Update);
      var i :| 0 <= i < |records| && records[i].action == Update;
      var j := ItemRow(rows, items, i);
      ItemRecord(rows, items, i, j);
      RecordsApplicable(rows, items);
      RecordsApplied(rows, records);
      UpdatedRowDiffers(rows, items, i, j);
    }
  }

  lemma UpdatedRowDiffers(rows: seq<Row>, items: seq<Item>, i: nat, j: nat)
    requires IdsDistinct(rows) && AllFound(rows, items) && i < |items| && j < |rows| && For(items[i], rows[j])
    requires PlanRecord(rows, items[i]).action.Update?
    ensures FinalImage(Records(rows, items), rows[j].id, rows[j].image) != rows[j].image
  {
    hide AllFound, PlanRecord, Classify, FinalImage;
    var records, row := Records(rows, items), rows[j];
    RecordsAre(rows, items);
    ItemRecord(rows, items, i, j);
    assert records[i] in records;
    FinalImageIs(records, row.id, row.image);
    forall r | r in records && r.action.Update? && r.rowId == Some(row.id) ensures r.image != row.image {
      var k := UpdateComesFrom(rows, items, j, r);
    }
  }

  // ---- the whole run ----

  /** An open plan is written in full. Only images change, a row without a Shopify image keeps its
      own, and planning again over the same pages finds an open gate. The second run has no update,
      and leaves the tables as they are, exactly when no Shopify id came with two different images. */
  lemma BackfillExact(t: Tables, trouble: Trouble, answers: seq<Answer>)
    requires IdsDistinct(t.products) && IdsDistinct(t.variants) && !Blocked(PlanOf(t, trouble, answers))
    ensures var ps, vs := ProductItems(Delivered(answers)), VariantItems(Delivered(answers));
            var r := Apply(t, PlanOf(t, trouble, answers));
            && r.Some?
            && SameButImage(t.products, r.value.products) && SameButImage(t.variants, r.value.variants)
            && (forall j :: 0 <= j < |t.products| ==> ImageSettled(t.products[j], r.value.products[j], ps))
            && (forall j :: 0 <= j < |t.variants| ==> ImageSettled(t.variants[j], r.value.variants[j], vs))
            && var again := PlanOf(r.value, trouble, answers);
            && !Blocked(again)
            && (Count(again.products, Update) == 0 && Count(again.variants, Update) == 0 <==>
                   Consistent(ps) && Consistent(vs))
            && (Apply(r.value, again) == Some(r.value) <==> Consistent(ps) && Consistent(vs))
  {
    hide ImageSettled, SameButImage, Consistent, SweepClean, PlanOf, ProductItems, VariantItems, Delivered;
    var ps, vs := ProductItems(Delivered(answers)), VariantItems(Delivered(answers));
    SweepExact(t, trouble, answers);
    TableWritten(t.products, ps);
    TableWritten(t.variants, vs);
    SweepExact(Apply(t, PlanOf(t, trouble, answers)).value, trouble, answers);
  }

  predicate ShopifyIdsDistinct(items: seq<Item>) {
    forall i, j :: 0 <= i < j < |items| ==> items[i].shopifyId.GetOr("") != items[j].shopifyId.GetOr("")
  }

  /** With distinct Shopify ids in the sweep a second `--apply` is a no-op: nothing to update, and
      the tables stay as the first one left them. */
  lemma SecondRunChangesNothing(t: Tables, trouble: Trouble, answers: seq<Answer>)
    requires IdsDistinct(t.products) && IdsDistinct(t.variants) && !Blocked(PlanOf(t, trouble, answers))
    requires ShopifyIdsDistinct(ProductItems(Delivered(answers)))
            && ShopifyIdsDistinct(VariantItems(Delivered(answers)))
    ensures var r := Apply(t, PlanOf(t, trouble, answers));
            && r.Some?
            && var again := PlanOf(r.value, trouble, answers);
            && Count(again.products, Update) == 0 && Count(again.variants, Update) == 0
            && Apply(r.value, again) == Some(r.value)
  {
    hide PlanOf, ProductItems, VariantItems, Delivered, Apply, Blocked;
    BackfillExact(t, trouble, answers);
  }

  // ---- the script ----

  class Session {
    var products: seq<Row>
    var variants: seq<Row>

    function State(): Tables
      reads this
    {
      Tables(products, variants)
    }

    constructor (t: Tables)
      ensures State() == t
    {
      products, variants := t.products, t.variants;
    }

    method PlanNode(trouble: Trouble, p: Plan, node: Node) returns (plan: Plan)
      requires p.apiError.None?
      ensures plan == AddNode(State(), trouble, p, node)
    {
      plan := p;
      if node.Malformed? {
        return plan.(apiError := Some(node.error));
      }
      plan := plan.(productsFetched := plan.productsFetched + 1);
      var error := trouble(node.item.shopifyId.GetOr(""));
      if error.Some? {
        return plan.(apiError := error);
      }
      plan := plan.(products := plan.products + [PlanRecord(products, node.item)]);
      ghost var start := plan;
      for i := 0 to |node.variants|
        invariant plan.apiError.None?
        invariant AddVariants(State(), trouble, plan, node.variants[i..])
                  == AddVariants(State(), trouble, start, node.variants)
      {
        assert node.variants[i..][1..] == node.variants[i + 1..];
        plan := plan.(variantsFetched := plan.variantsFetched + 1);
        error := trouble(node.variants[i].shopifyId.GetOr(""));
        if error.Some? {
          return plan.(apiError := error);
        }
        plan := plan.(variants := plan.variants + [PlanRecord(variants, node.variants[i])]);
      }
    }

    method PlanPage(trouble: Trouble, p: Plan, nodes: seq<Node>) returns (plan: Plan)
      requires p.apiError.None?
      ensures plan == AddNodes(State(), trouble, p, nodes)
    {
      hide AddNode;
      plan := p;
      for i := 0 to |nodes|
        invariant plan.apiError.None?
        invariant AddNodes(State(), trouble, plan, nodes[i..]) == AddNodes(State(), trouble, p, nodes)
      {
        assert nodes[i..][1..] == nodes[i + 1..];
        plan := PlanNode(trouble, plan, nodes[i]);
        if plan.apiError.Some? { return; }
      }
    }

    /** The sweep over these answers, the cursors it asked with, and whether it came to its end: by
        the last page or by an error. Without an end it would go on asking. */
    method BuildPlan(trouble: Trouble, answers: seq<Answer>)
        returns (plan: Plan, asked: seq<Option<string>>, ended: bool)
      ensures plan == PlanOf(State(), trouble, answers)
      ensures ended <==> plan.apiError.Some? || Ends(answers)
      ensures |asked| == Fetches(State(), trouble, EMPTY, answers) <= |answers|
      ensures forall k :: 0 <= k < |asked| ==> CursorFor(answers, k, asked[k])
    {
      hide AddNodes;
      plan := EMPTY;
      var cursor: Option<string> := None;
      asked := [];
      while |asked| < |answers|
        invariant |asked| <= |answers| && plan.apiError.None? && (Ends(answers) <==> Ends(answers[|asked|..]))
        invariant CursorFor(answers, |asked|, cursor)
        invariant forall k :: 0 <= k < |asked| ==> CursorFor(answers, k, asked[k])
        invariant AddAnswers(State(), trouble, plan, answers[|asked|..]) == PlanOf(State(), trouble, answers)
        invariant |asked| + Fetches(State(), trouble, plan, answers[|asked|..])
                  == Fetches(State(), trouble, EMPTY, answers)
      {
        var answer := answers[|asked|];
        assert answers[|asked|..][1..] == answers[|asked| + 1..];
        asked := asked + [cursor];
        if answer.Fails? {
          return plan.(apiError := Some(answer.error)), asked, true;
        }
        plan := PlanPage(trouble, plan, answer.nodes);
        if plan.apiError.Some? || !answer.hasMore || answer.nextCursor.None? {
          return plan, asked, true;
        }
        cursor := answer.nextCursor;
      }
      ended := false;
    }

    method WriteImages(plan: Plan) returns (written: Option<nat>)
      modifies this
      ensures written.Some? <==> Apply(old(State()), plan).Some?
      ensures State() == Apply(old(State()), plan).GetOr(old(State()))
      ensures written.Some? ==> written.value == Count(plan.products, Update) + Count(plan.variants, Update)
    {
      if Blocked(plan) {
        return None;
      }
      var before := State();
      var count := 0;
      for i := 0 to |plan.products|
        invariant variants == before.variants
        invariant ApplyRecords(products, plan.products[i..]) == ApplyRecords(before.products, plan.products)
        invariant count + Count(plan.products[i..], Update) == Count(plan.products, Update)
      {
        assert plan.products[i..][1..] == plan.products[i + 1..];
        var r := plan.products[i];
        if r.action.Update? {
          if r.rowId.None? || !HasRow(products, r.rowId.value) {
            products := before.products;
            return None;
          }
          products := SetImage(products, r.rowId.value, r.image);
          count := count + 1;
        }
      }
      for i := 0 to |plan.variants|
        invariant Some(products) == ApplyRecords(before.products, plan.products)
        invariant ApplyRecords(variants, plan.variants[i..]) == ApplyRecords(before.variants, plan.variants)
        invariant count + Count(plan.variants[i..], Update)
                  == Count(plan.products, Update) + Count(plan.variants, Update)
      {
        assert plan.variants[i..][1..] == plan.variants[i + 1..];
        var r := plan.variants[i];
        if r.action.Update? {
          if r.rowId.None? || !HasRow(variants, r.rowId.value) {
            products, variants := before.products, before.variants;
            return None;
          }
          variants := SetImage(variants, r.rowId.value, r.image);
          count := count + 1;
        }
      }
      written := Some(count);
    }

    /** Dry run unless `--apply`; an `--apply` run of an open plan always commits. While the sweep
        goes on nothing is written, however many pages the server names. */
    method Run(trouble: Trouble, answers: seq<Answer>, apply: bool)
        returns (plan: Plan, ended: bool, written: Option<nat>)
      modifies this
      ensures plan == PlanOf(old(State()), trouble, answers)
      ensures ended <==> plan.apiError.Some? || Ends(answers)
      ensures !apply || !ended || Blocked(plan) ==> written.None? && State() == old(State())
      ensures IdsDistinct(old(products)) && IdsDistinct(old(variants)) && apply && ended && !Blocked(plan) ==>
                written.Some? && Some(State()) == Apply(old(State()), plan)
    {
      var asked;
      plan, asked, ended := BuildPlan(trouble, answers);
      if !apply || !ended || Blocked(plan) {
        return plan, ended, None;
      }
      if IdsDistinct(products) && IdsDistinct(variants) { BackfillExact(State(), trouble, answers); }
      written := WriteImages(plan);
    }
  }
}
