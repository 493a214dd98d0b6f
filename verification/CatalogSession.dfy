/** The backfill script itself: the plan's lists filled step by step, and the write transaction. */
module CatalogSession {
  import opened Wrappers
  import opened CatalogBackfill
  import CatalogApply

  // ---- plans put together piece by piece ----

  lemma JoinNothing(p: Plan)
    ensures Join(p, NOTHING) == p && Join(NOTHING, p) == p
  {
  }

  lemma JoinAssociates(p: Plan, q: Plan, r: Plan)
    ensures Join(Join(p, q), r) == Join(p, Join(q, r))
  {
  }

  lemma JoinGroup(before: Plan, g: GroupPlan, after: Plan)
    requires after == before.(groups := before.groups + [g],
            conflicts := before.conflicts + ConflictsIn(g.members, g.existing))
    ensures after == Join(before, NOTHING.(groups := [g], conflicts := ConflictsIn(g.members, g.existing)))
  {
  }

  lemma {:induction false} ConflictsSplit(a: seq<Assignment>, b: seq<Assignment>, existing: Option<nat>)
    ensures ConflictsIn(a + b, existing) == ConflictsIn(a, existing) + ConflictsIn(b, existing)
  {
    if a == [] { assert a + b == b; }
    else {
      assert (a + b)[1..] == a[1..] + b;
      ConflictsSplit(a[1..], b, existing);
    }
  }

  /** The lists that the planner appends to. */
  class Draft {
    var missingProducts: seq<Entry>
    var titleMismatches: seq<(string, string, string)>
    var unexpectedProducts: seq<Product>
    var countMismatches: seq<(string, nat, nat)>
    var missingVariants: seq<Slot>
    var unexpectedVariants: seq<Variant>
    var conflicts: seq<(Variant, Option<nat>)>
    var duplicateSkus: seq<(string, nat)>
    var duplicateSvids: seq<(string, nat)>
    var groups: seq<GroupPlan>

    function Value(): Plan
      reads this
    {
      Plan(missingProducts, titleMismatches, unexpectedProducts, countMismatches, missingVariants,
           unexpectedVariants, conflicts, duplicateSkus, duplicateSvids, groups)
    }

    constructor ()
      ensures Value() == NOTHING
    {
      missingProducts, titleMismatches, unexpectedProducts, countMismatches := [], [], [], [];
      missingVariants, unexpectedVariants, conflicts := [], [], [];
      duplicateSkus, duplicateSvids, groups := [], [], [];
    }

    method ClassifyMember(v: Variant, existing: Option<nat>) returns (a: Assignment)
      modifies this`conflicts
      ensures a == Classified(v, existing)
      ensures conflicts == old(conflicts) + ConflictsIn([a], existing)
    {
      if v.group.Some? && v.group != existing {
        conflicts := conflicts + [(v, existing)];
      }
      a := Assignment(v, existing.Some? && v.group == existing);
    }

    method PlanGroup(t: Tables, m: Manifest, e: Entry, p: Product, bySku: seq<Variant>, name: string)
      requires bySku == BySku(VariantsOf(t.variants, p.id))
      modifies this`conflicts, this`groups
      ensures var g := GroupPlanOf(t, m, e, p, name);
              groups == old(groups) + [g] && conflicts == old(conflicts) + ConflictsIn(g.members, g.existing)
    {
      var existing := FindGroup(t.groups, p.id, name);
      var members := [];
      for i := 0 to |e.roster|
        invariant members + Members(e.roster[i..], bySku, name, existing) == Members(e.roster, bySku, name, existing)
        invariant conflicts == old(conflicts) + ConflictsIn(members, existing)
        invariant groups == old(groups)
      {
        assert e.roster[i..][1..] == e.roster[i + 1..];
        var slot := e.roster[i];
        if slot.groupName == name {
          var actual := Lookup(bySku, slot.sku);
          if actual.Some? {
            var a := ClassifyMember(actual.value, existing);
            ConflictsSplit(members, [a], existing);
            members := members + [a];
          }
        }
      }
      assert members == Members(e.roster, bySku, name, existing);
      groups := groups + [GroupPlan(p.id, e.spid, name, OrderOf(m, e, name), existing, members)];
    }

    method CheckMissing(roster: seq<Slot>, bySku: seq<Variant>)
      modifies this`missingVariants
      ensures missingVariants == old(missingVariants) + MissingSlots(roster, bySku)
    {
      for i := 0 to |roster|
        invariant missingVariants + MissingSlots(roster[i..], bySku)
                  == old(missingVariants) + MissingSlots(roster, bySku)
      {
        assert roster[i..][1..] == roster[i + 1..];
        var found := Lookup(bySku, roster[i].sku);
        if found.None? || found.value.svid != Some(roster[i].svid) { missingVariants := missingVariants + [roster[i]]; }
      }
      assert missingVariants + [] == missingVariants;
    }

    method CheckUnlisted(roster: seq<Slot>, bySku: seq<Variant>)
      modifies this`unexpectedVariants
      ensures unexpectedVariants == old(unexpectedVariants) + Unlisted(bySku, roster)
    {
      for i := 0 to |bySku|
        invariant unexpectedVariants + Unlisted(bySku[i..], roster) == old(unexpectedVariants) + Unlisted(bySku, roster)
      {
        assert bySku[i..][1..] == bySku[i + 1..];
        if !Listed(roster, bySku[i].sku) { unexpectedVariants := unexpectedVariants + [bySku[i]]; }
      }
      assert unexpectedVariants + [] == unexpectedVariants;
    }

    /** Title, variant count and roster of one product. */
    method CheckProduct(t: Tables, e: Entry, p: Product)
      modifies this`titleMismatches, this`countMismatches, this`missingVariants, this`unexpectedVariants
      ensures Value() == Join(old(Value()), ProductProblems(t, e, p))
    {
      var actual := VariantsOf(t.variants, p.id);
      if p.title != e.title { titleMismatches := titleMismatches + [(e.spid, e.title, p.title)]; }
      if |actual| != e.variantCount { countMismatches := countMismatches + [(e.title, e.variantCount, |actual|)]; }
      if e.roster != [] {
        CheckMissing(e.roster, BySku(actual));
        CheckUnlisted(e.roster, BySku(actual));
      }
    }

    /** The groups of one product. */
    method PlanGroups(t: Tables, m: Manifest, e: Entry, p: Product)
      modifies this
      ensures Value() == Join(old(Value()), GroupsPlan(t, m, e, p, e.names))
    {
      hide GroupPlanOf, Join;
      var bySku := BySku(VariantsOf(t.variants, p.id));
      ghost var start := Value();
      for i := 0 to |e.names|
        invariant Join(Value(), GroupsPlan(t, m, e, p, e.names[i..])) == Join(start, GroupsPlan(t, m, e, p, e.names))
      {
        assert e.names[i..][1..] == e.names[i + 1..];
        ghost var before := Value();
        PlanGroup(t, m, e, p, bySku, e.names[i]);
        ghost var g := GroupPlanOf(t, m, e, p, e.names[i]);
        ghost var piece := NOTHING.(groups := [g], conflicts := ConflictsIn(g.members, g.existing));
        JoinGroup(before, g, Value());
        JoinAssociates(before, piece, GroupsPlan(t, m, e, p, e.names[i + 1..]));
      }
      JoinNothing(Value());
    }

    method PlanEntry(t: Tables, m: Manifest, e: Entry)
      modifies this
      ensures Value() == Join(old(Value()), EntryPlan(t, m, e))
    {
      hide ProductProblems, GroupsPlan, FindProduct;
      var found := FindProduct(t.products, e.spid);
      if found.None? {
        missingProducts := missingProducts + [e];
        return;
      }
      ghost var start := Value();
      CheckProduct(t, e, found.value);
      PlanGroups(t, m, e, found.value);
      JoinAssociates(start, ProductProblems(t, e, found.value), GroupsPlan(t, m, e, found.value, e.names));
    }

    /** All manifest entries, in order. */
    method PlanEntries(t: Tables, m: Manifest)
      modifies this
      ensures Value() == Join(old(Value()), EntriesPlan(t, m, m.entries))
    {
      hide EntryPlan, Join;
      ghost var start := Value();
      for i := 0 to |m.entries|
        invariant Join(Value(), EntriesPlan(t, m, m.entries[i..])) == Join(start, EntriesPlan(t, m, m.entries))
      {
        assert m.entries[i..][1..] == m.entries[i + 1..];
        JoinAssociates(Value(), EntryPlan(t, m, m.entries[i]), EntriesPlan(t, m, m.entries[i + 1..]));
        PlanEntry(t, m, m.entries[i]);
      }
      JoinNothing(Value());
    }

    method FindUnexpected(t: Tables, m: Manifest)
      modifies this`unexpectedProducts
      ensures Value() == Join(old(Value()), NOTHING.(unexpectedProducts := Unexpected(t, m, t.products)))
    {
      hide Known, VariantsOf;
      for i := 0 to |t.products|
        invariant unexpectedProducts + Unexpected(t, m, t.products[i..])
                  == old(unexpectedProducts) + Unexpected(t, m, t.products)
      {
        assert t.products[i..][1..] == t.products[i + 1..];
        var p := t.products[i];
        if |VariantsOf(t.variants, p.id)| > 1 && !Known(m, p.spid) { unexpectedProducts := unexpectedProducts + [p]; }
      }
      assert unexpectedProducts + [] == unexpectedProducts;
    }

    method Build(t: Tables, m: Manifest)
      requires Value() == NOTHING
      modifies this
      ensures Value() == PlanOf(t, m)
    {
      hide Skus, Svids, EntriesPlan, Unexpected, Join;
      duplicateSkus := Duplicates(Skus(t.variants), |Skus(t.variants)|);
      duplicateSvids := Duplicates(Svids(t.variants), |Svids(t.variants)|);
      assert Value() == DuplicatesPlan(t);
      PlanEntries(t, m);
      FindUnexpected(t, m);
    }
  }

  /** The database the script is connected to. */
  class Session {
    var products: seq<Product>
    var variants: seq<Variant>
    var groups: seq<Group>
    var nextGroupId: nat

    function State(): Tables
      reads this
    {
      Tables(products, variants, groups, nextGroupId)
    }

    constructor (t: Tables)
      ensures State() == t
    {
      products, variants, groups, nextGroupId := t.products, t.variants, t.groups, t.nextGroupId;
    }

    /** One transaction: all writes of the plan, or none. */
    method ApplyPlan(plan: Plan) returns (committed: bool)
      modifies this`variants, this`groups, this`nextGroupId
      ensures committed <==> ApplyGroups(old(State()), plan.groups).Some?
      ensures State() == ApplyGroups(old(State()), plan.groups).GetOr(old(State()))
    {
      var before := State();
      for i := 0 to |plan.groups|
        invariant products == before.products
        invariant ApplyGroups(State(), plan.groups[i..]) == ApplyGroups(before, plan.groups)
      {
        assert plan.groups[i..][1..] == plan.groups[i + 1..];
        var g := plan.groups[i];
        ghost var start := State();
        var id := nextGroupId;
        if g.existing.Some? {
          id := g.existing.value;
        } else {
          groups := groups + [Group(id, g.productId, g.name, g.order)];
          nextGroupId := nextGroupId + 1;
        }
        for k := 0 to |g.members|
          invariant State() == WithGroup(start, g).(variants := variants)
          invariant ApplyMembers(variants, g.members[k..], id) == ApplyMembers(start.variants, g.members, id)
        {
          assert g.members[k..][1..] == g.members[k + 1..];
          var a := g.members[k];
          if !a.alreadyCorrect {
            if a.variant.group.Some? || !HasVariant(variants, a.variant.id) {
              variants, groups, nextGroupId := before.variants, before.groups, before.nextGroupId;
              return false;
            }
            variants := SetGroup(variants, a.variant.id, id);
          }
        }
      }
      committed := true;
    }

    /** The whole script: plan, then write only with `--apply` and an open gate. */
    method Run(m: Manifest, apply: bool) returns (plan: Plan, wrote: bool)
      modifies this
      ensures plan == PlanOf(old(State()), m)
      ensures wrote ==> apply && !Blocked(plan)
      ensures apply && !Blocked(plan) && SchemaHolds(old(State())) && WellFormed(m) ==> wrote
      ensures State() == if wrote then ApplyGroups(old(State()), plan.groups).GetOr(old(State())) else old(State())
    {
      var draft := new Draft();
      draft.Build(State(), m);
      plan := draft.Value();
      if !apply || Blocked(plan) {
        return plan, false;
      }
      ghost var t := State();
      wrote := ApplyPlan(plan);
      if SchemaHolds(t) && WellFormed(m) { CatalogApply.BackfillExact(t, m); }
    }
  }
}
