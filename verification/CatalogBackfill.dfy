/** The manifest-driven backfill of OMS-visible groups (catalog variants): a read-only planner that
    classifies the database, the gate that blocks, the applier, and the report's final verdict. */
module CatalogBackfill {
  import opened Wrappers

  // ---- the tables ----

  datatype Product = Product(id: nat, spid: Option<string>, title: string)

  /** A product variant; the group is its catalog_variant_id. */
  datatype Variant = Variant(id: nat, productId: nat, sku: string, svid: Option<string>, quantity: int,
      group: Option<nat>)

  /** A catalog variant. */
  datatype Group = Group(id: nat, productId: nat, name: string, order: nat)

  datatype Tables = Tables(products: seq<Product>, variants: seq<Variant>, groups: seq<Group>, nextGroupId: nat)

  // ---- the manifest ----

  datatype Slot = Slot(sku: string, svid: string, groupName: string)

  datatype Entry = Entry(spid: string, title: string, variantCount: nat, groupCount: nat, names: seq<string>,
      roster: seq<Slot>)

  datatype Manifest = Manifest(entries: seq<Entry>, canonical: string, flavourOrder: map<string, nat>,
      pending: seq<string>)

  // ---- the plan ----

  /** A variant as the planner saw it, and whether it is already where it belongs. */
  datatype Assignment = Assignment(variant: Variant, alreadyCorrect: bool)

  datatype GroupPlan = GroupPlan(productId: nat, spid: string, name: string, order: nat, existing: Option<nat>,
      members: seq<Assignment>)

  datatype Plan = Plan(
    missingProducts: seq<Entry>,
    titleMismatches: seq<(string, string, string)>,
    unexpectedProducts: seq<Product>,
    countMismatches: seq<(string, nat, nat)>,
    missingVariants: seq<Slot>,
    unexpectedVariants: seq<Variant>,
    conflicts: seq<(Variant, Option<nat>)>,
    duplicateSkus: seq<(string, nat)>,
    duplicateSvids: seq<(string, nat)>,
    groups: seq<GroupPlan>
  )

  const NOTHING := Plan([], [], [], [], [], [], [], [], [], [])

  /** The lists of two plans, one after the other. */
  function Join(p: Plan, q: Plan): Plan {
    Plan(p.missingProducts + q.missingProducts, p.titleMismatches + q.titleMismatches,
         p.unexpectedProducts + q.unexpectedProducts, p.countMismatches + q.countMismatches,
         p.missingVariants + q.missingVariants, p.unexpectedVariants + q.unexpectedVariants,
         p.conflicts + q.conflicts, p.duplicateSkus + q.duplicateSkus,
         p.duplicateSvids + q.duplicateSvids, p.groups + q.groups)
  }

  /** The gate. */
  predicate Blocked(p: Plan) {
    || p.missingProducts != [] || p.titleMismatches != [] || p.unexpectedProducts != []
    || p.countMismatches != [] || p.missingVariants != [] || p.unexpectedVariants != []
    || p.conflicts != [] || p.duplicateSkus != [] || p.duplicateSvids != []
  }

  // ---- reading the tables ----

  function FindProduct(products: seq<Product>, spid: string): Option<Product> {
    if products == [] then None
    else if products[0].spid == Some(spid) then Some(products[0])
    else FindProduct(products[1..], spid)
  }

  function VariantsOf(variants: seq<Variant>, productId: nat): seq<Variant> {
    if variants == [] then []
    else if variants[0].productId == productId then [variants[0]] + VariantsOf(variants[1..], productId)
    else VariantsOf(variants[1..], productId)
  }

  function FindGroup(groups: seq<Group>, productId: nat, name: string): Option<nat> {
    if groups == [] then None
    else if groups[0].productId == productId && groups[0].name == name then Some(groups[0].id)
    else FindGroup(groups[1..], productId, name)
  }

  /** A dictionary keyed by sku, in insertion order: a second value for a key replaces the first. */
  function Put(bySku: seq<Variant>, v: Variant): seq<Variant> {
    if bySku == [] then [v]
    else if bySku[0].sku == v.sku then [v] + bySku[1..]
    else [bySku[0]] + Put(bySku[1..], v)
  }

  function BySku(variants: seq<Variant>): seq<Variant> {
    if variants == [] then [] else Put(BySku(variants[..|variants| - 1]), variants[|variants| - 1])
  }

  function Lookup(bySku: seq<Variant>, sku: string): Option<Variant> {
    if bySku == [] then None
    else if bySku[0].sku == sku then Some(bySku[0])
    else Lookup(bySku[1..], sku)
  }

  /** GROUP BY key HAVING count > 1. */
  function Duplicates(keys: seq<string>, n: nat): seq<(string, nat)>
    requires n <= |keys|
  {
    if n == 0 then []
    else if keys[n - 1] !in keys[..n - 1] && multiset(keys)[keys[n - 1]] > 1
    then Duplicates(keys, n - 1) + [(keys[n - 1], multiset(keys)[keys[n - 1]])]
    else Duplicates(keys, n - 1)
  }

  function Skus(variants: seq<Variant>): seq<string> {
    if variants == [] then [] else [variants[0].sku] + Skus(variants[1..])
  }

  function Svids(variants: seq<Variant>): seq<string> {
    if variants == [] then []
    else if variants[0].svid.Some? then [variants[0].svid.value] + Svids(variants[1..])
    else Svids(variants[1..])
  }

  // ---- the planner as a function ----

  predicate Fills(v: Variant, slot: Slot) {
    v.sku == slot.sku && v.svid == Some(slot.svid)
  }

  function MissingSlots(roster: seq<Slot>, bySku: seq<Variant>): seq<Slot> {
    if roster == [] then []
    else
      var actual := Lookup(bySku, roster[0].sku);
      if actual.None? || actual.value.svid != Some(roster[0].svid)
      then [roster[0]] + MissingSlots(roster[1..], bySku)
      else MissingSlots(roster[1..], bySku)
  }

  predicate Listed(roster: seq<Slot>, sku: string) {
    exists s :: s in roster && s.sku == sku
  }

  function Unlisted(bySku: seq<Variant>, roster: seq<Slot>): seq<Variant> {
    if bySku == [] then []
    else if !Listed(roster, bySku[0].sku) then [bySku[0]] + Unlisted(bySku[1..], roster)
    else Unlisted(bySku[1..], roster)
  }

  function Classified(v: Variant, existing: Option<nat>): Assignment {
    Assignment(v, existing.Some? && v.group == existing)
  }

  function Members(roster: seq<Slot>, bySku: seq<Variant>, name: string, existing: Option<nat>): seq<Assignment> {
    if roster == [] then []
    else
      var rest := Members(roster[1..], bySku, name, existing);
      var actual := Lookup(bySku, roster[0].sku);
      if roster[0].groupName == name && actual.Some? then [Classified(actual.value, existing)] + rest else rest
  }

  predicate Conflicts(v: Variant, existing: Option<nat>) {
    v.group.Some? && v.group != existing
  }

  function ConflictsIn(members: seq<Assignment>, existing: Option<nat>): seq<(Variant, Option<nat>)> {
    if members == [] then []
    else if Conflicts(members[0].variant, existing)
    then [(members[0].variant, existing)] + ConflictsIn(members[1..], existing)
    else ConflictsIn(members[1..], existing)
  }

  function OrderOf(m: Manifest, e: Entry, name: string): nat {
    if e.groupCount == 3 && name in m.flavourOrder then m.flavourOrder[name] else 0
  }

  function GroupPlanOf(t: Tables, m: Manifest, e: Entry, p: Product, name: string): GroupPlan {
    var existing := FindGroup(t.groups, p.id, name);
    GroupPlan(p.id, e.spid, name, OrderOf(m, e, name), existing,
              Members(e.roster, BySku(VariantsOf(t.variants, p.id)), name, existing))
  }

  function GroupsPlan(t: Tables, m: Manifest, e: Entry, p: Product, names: seq<string>): Plan {
    if names == [] then NOTHING
    else
      var g := GroupPlanOf(t, m, e, p, names[0]);
      Join(NOTHING.(groups := [g], conflicts := ConflictsIn(g.members, g.existing)), GroupsPlan(t, m, e, p, names[1..]))
  }

  function ProductProblems(t: Tables, e: Entry, p: Product): Plan {
    var actual := VariantsOf(t.variants, p.id);
    NOTHING.(
      titleMismatches := if p.title != e.title then [(e.spid, e.title, p.title)] else [],
      countMismatches := if |actual| != e.variantCount then [(e.title, e.variantCount, |actual|)] else [],
      missingVariants := if e.roster != [] then MissingSlots(e.roster, BySku(actual)) else [],
      unexpectedVariants := if e.roster != [] then Unlisted(BySku(actual), e.roster) else [])
  }

  function EntryPlan(t: Tables, m: Manifest, e: Entry): Plan {
    match FindProduct(t.products, e.spid)
    case None => NOTHING.(missingProducts := [e])
    case Some(p) => Join(ProductProblems(t, e, p), GroupsPlan(t, m, e, p, e.names))
  }

  function EntriesPlan(t: Tables, m: Manifest, entries: seq<Entry>): Plan {
    if entries == [] then NOTHING else Join(EntryPlan(t, m, entries[0]), EntriesPlan(t, m, entries[1..]))
  }

  predicate Known(m: Manifest, spid: Option<string>) {
    spid.Some? && ((exists e :: e in m.entries && e.spid == spid.value) || spid.value in m.pending)
  }

  function Unexpected(t: Tables, m: Manifest, products: seq<Product>): seq<Product> {
    if products == [] then []
    else if |VariantsOf(t.variants, products[0].id)| > 1 && !Known(m, products[0].spid)
    then [products[0]] + Unexpected(t, m, products[1..])
    else Unexpected(t, m, products[1..])
  }

  function DuplicatesPlan(t: Tables): Plan {
    var skus, svids := Skus(t.variants), Svids(t.variants);
    NOTHING.(duplicateSkus := Duplicates(skus, |skus|), duplicateSvids := Duplicates(svids, |svids|))
  }

  function PlanOf(t: Tables, m: Manifest): Plan {
    Join(Join(DuplicatesPlan(t), EntriesPlan(t, m, m.entries)),
        NOTHING.(unexpectedProducts := Unexpected(t, m, t.products)))
  }

  // ---- the applier as a function ----

  function SetGroup(variants: seq<Variant>, id: nat, group: nat): seq<Variant> {
    if variants == [] then []
    else if variants[0].id == id then [variants[0].(group := Some(group))] + SetGroup(variants[1..], id, group)
    else [variants[0]] + SetGroup(variants[1..], id, group)
  }

  predicate HasVariant(variants: seq<Variant>, id: nat) {
    exists v :: v in variants && v.id == id
  }

  /** None is the refusal to overwrite, or a variant that is gone. */
  function ApplyMembers(variants: seq<Variant>, members: seq<Assignment>, group: nat): Option<seq<Variant>>
    decreases |members|
  {
    if members == [] then Some(variants)
    else if members[0].alreadyCorrect then ApplyMembers(variants, members[1..], group)
    else if members[0].variant.group.Some? || !HasVariant(variants, members[0].variant.id) then None
    else ApplyMembers(SetGroup(variants, members[0].variant.id, group), members[1..], group)
  }

  function WithGroup(t: Tables, g: GroupPlan): Tables {
    if g.existing.Some? then t
    else t.(groups := t.groups + [Group(t.nextGroupId, g.productId, g.name, g.order)], nextGroupId := t.nextGroupId + 1)
  }

  function ApplyGroup(t: Tables, g: GroupPlan): Option<Tables> {
    var variants :- ApplyMembers(t.variants, g.members, g.existing.GetOr(t.nextGroupId));
    Some(WithGroup(t, g).(variants := variants))
  }

  function ApplyGroups(t: Tables, groups: seq<GroupPlan>): Option<Tables>
    decreases |groups|
  {
    if groups == [] then Some(t)
    else
      var next :- ApplyGroup(t, groups[0]);
      ApplyGroups(next, groups[1..])
  }

  // ---- the report's verdict ----

  function GroupsFor(groups: seq<GroupPlan>, spid: string): nat {
    if groups == [] then 0
    else (if groups[0].spid == spid then 1 else 0) + GroupsFor(groups[1..], spid)
  }

  predicate FinalInvariant(m: Manifest, p: Plan) {
    && GroupsFor(p.groups, m.canonical) == 3
    && (forall g :: g in p.groups && g.spid != m.canonical ==> GroupsFor(p.groups, g.spid) == 1)
    && (forall e :: e in m.entries && e.names == [] ==> GroupsFor(p.groups, e.spid) == 0)
    && (forall g :: g in p.groups ==> exists e :: e in m.entries && e.spid == g.spid)
    && (forall g :: g in p.groups ==> g.spid !in m.pending)
  }

  predicate Passes(m: Manifest, p: Plan) {
    !Blocked(p) && FinalInvariant(m, p)
  }

  // ---- what the schema and the manifest's authors promise ----

  predicate SchemaHolds(t: Tables) {
    && (forall i, j :: 0 <= i < j < |t.products| ==>
          t.products[i].id != t.products[j].id
              && (t.products[i].spid.Some? ==> t.products[i].spid != t.products[j].spid))
    && (forall i, j :: 0 <= i < j < |t.variants| ==> t.variants[i].id != t.variants[j].id)
    && (forall i, j :: 0 <= i < j < |t.groups| ==>
          t.groups[i].id != t.groups[j].id
              && (t.groups[i].productId, t.groups[i].name) != (t.groups[j].productId, t.groups[j].name))
    && (forall g :: g in t.groups ==> g.id < t.nextGroupId)
  }

  predicate EntryWellFormed(m: Manifest, e: Entry) {
    && (forall i, j :: 0 <= i < j < |e.roster| ==> e.roster[i].sku != e.roster[j].sku)
    && (forall i, j :: 0 <= i < j < |e.names| ==> e.names[i] != e.names[j])
    && (forall s :: s in e.roster ==> s.groupName in e.names)
    && (e.roster != [] ==> |e.roster| == e.variantCount)
    && (e.roster == [] ==> e.names == [])
    && |e.names| <= (if e.spid == m.canonical then 3 else 1)
    && e.spid !in m.pending
    && (e.groupCount == 3 ==> forall n :: n in e.names ==> n in m.flavourOrder)
  }

  predicate WellFormed(m: Manifest) {
    && (forall i, j :: 0 <= i < j < |m.entries| ==> m.entries[i].spid != m.entries[j].spid)
    && (forall e :: e in m.entries ==> EntryWellFormed(m, e))
    && (exists e :: e in m.entries && e.spid == m.canonical && |e.names| == 3)
  }
}
