/** What applying an open plan does to the tables, and that doing it again does nothing. */
module CatalogApply {
  import opened Wrappers
  import opened CatalogBackfill
  import opened CatalogGate

  // ---- one group ----

  predicate Assigns(members: seq<Assignment>, id: nat) {
    exists a :: a in members && !a.alreadyCorrect && a.variant.id == id
  }

  predicate HasMember(members: seq<Assignment>, id: nat) {
    exists a :: a in members && a.variant.id == id
  }

  lemma {:induction false} SetGroupAt(variants: seq<Variant>, id: nat, group: nat)
    ensures var after := SetGroup(variants, id, group);
            |after| == |variants| && forall j :: 0 <= j < |variants| ==>
              after[j] == if variants[j].id == id then variants[j].(group := Some(group)) else variants[j]
  {
    if variants != [] { SetGroupAt(variants[1..], id, group); }
  }

  predicate MemberReady(variants: seq<Variant>, a: Assignment) {
    HasVariant(variants, a.variant.id) && (a.alreadyCorrect || a.variant.group.None?)
  }

  lemma {:induction false} MembersApplied(variants: seq<Variant>, members: seq<Assignment>, group: nat)
    requires forall a :: a in members ==> MemberReady(variants, a)
    ensures var after := ApplyMembers(variants, members, group);
            after.Some? && |after.value| == |variants| && forall j :: 0 <= j < |variants| ==>
              after.value[j] ==
              if Assigns(members, variants[j].id) then variants[j].(group := Some(group)) else variants[j]
    decreases |members|
  {
    if members != [] {
      var a, rest := members[0], members[1..];
      assert members == [a] + rest && MemberReady(variants, a);
      if a.alreadyCorrect {
        MembersApplied(variants, rest, group);
      } else {
        var next := SetGroup(variants, a.variant.id, group);
        SetGroupAt(variants, a.variant.id, group);
        forall b | b in rest ensures MemberReady(next, b) {
          assert MemberReady(variants, b);
          var v :| v in variants && v.id == b.variant.id;
          var j :| 0 <= j < |variants| && variants[j] == v;
          assert next[j].id == b.variant.id;
        }
        MembersApplied(next, rest, group);
      }
    }
  }

  lemma {:induction false} SetGroupKeepsIds(variants: seq<Variant>, id: nat, group: nat, other: nat)
    ensures HasVariant(SetGroup(variants, id, group), other) <==> HasVariant(variants, other)
  {
    SetGroupAt(variants, id, group);
    var after := SetGroup(variants, id, group);
    if v :| v in variants && v.id == other {
      var j :| 0 <= j < |variants| && variants[j] == v;
      assert after[j].id == other;
    }
    if v :| v in after && v.id == other {
      var j :| 0 <= j < |after| && after[j] == v;
      assert variants[j].id == other;
    }
  }

  /** Whoever calls it, the applier never overwrites: it refuses a group exactly when some member that is
      not yet where it belongs was seen in another group, or is gone. */
  lemma {:induction false} GuardExact(variants: seq<Variant>, members: seq<Assignment>, group: nat)
    ensures ApplyMembers(variants, members, group).None? <==>
              exists a :: a in members && !a.alreadyCorrect
                  && (a.variant.group.Some? || !HasVariant(variants, a.variant.id))
    decreases |members|
  {
    hide HasVariant;
    if members != [] {
      var a, rest := members[0], members[1..];
      assert members == [a] + rest;
      if a.alreadyCorrect {
        GuardExact(variants, rest, group);
      } else if a.variant.group.None? && HasVariant(variants, a.variant.id) {
        GuardExact(SetGroup(variants, a.variant.id, group), rest, group);
        forall id ensures HasVariant(SetGroup(variants, a.variant.id, group), id) <==> HasVariant(variants, id) {
          SetGroupKeepsIds(variants, a.variant.id, group, id);
        }
      }
    }
  }

  // ---- plans that are ready to be applied ----

  /** Nothing in the group plan contradicts the tables. */
  predicate GroupReady(t: Tables, g: GroupPlan) {
    && g.existing == FindGroup(t.groups, g.productId, g.name)
    && (forall a :: a in g.members ==>
          && a.variant in t.variants && a.variant.productId == g.productId
          && a == Classified(a.variant, g.existing) && !Conflicts(a.variant, g.existing))
  }

  /** No variant is a member of both. */
  predicate Apart(g: GroupPlan, h: GroupPlan) {
    (g.productId, g.name) != (h.productId, h.name)
    && forall a, b :: a in g.members && b in h.members ==> a.variant.id != b.variant.id
  }

  predicate Ready(t: Tables, groups: seq<GroupPlan>) {
    && (forall g :: g in groups ==> GroupReady(t, g))
    && (forall i, j :: 0 <= i < j < |groups| ==> Apart(groups[i], groups[j]))
  }

  /** The planned variant is in the group of this name of its product; unplanned ones are untouched. */
  predicate VariantSettled(t: Tables, after: Tables, groups: seq<GroupPlan>, j: nat)
    requires j < |t.variants| && |after.variants| == |t.variants|
  {
    && after.variants[j] == t.variants[j].(group := after.variants[j].group)
    && (forall g :: g in groups && HasMember(g.members, t.variants[j].id) ==> Belongs(after, after.variants[j], g.name))
    && ((forall g :: g in groups ==> !HasMember(g.members, t.variants[j].id)) ==> after.variants[j] == t.variants[j])
  }

  predicate Creates(groups: seq<GroupPlan>, row: Group) {
    exists g :: g in groups && g.existing.None? && row == Group(row.id, g.productId, g.name, g.order)
  }

  predicate GroupsSettled(t: Tables, after: Tables, groups: seq<GroupPlan>) {
    && |t.groups| <= |after.groups| && after.groups[..|t.groups|] == t.groups
    && (forall k :: |t.groups| <= k < |after.groups| ==> Creates(groups, after.groups[k]))
    && (forall g :: g in groups ==> FindGroup(after.groups, g.productId, g.name).Some?)
  }

  predicate Settled(t: Tables, after: Tables, groups: seq<GroupPlan>) {
    && SchemaHolds(after)
    && after.products == t.products && |after.variants| == |t.variants|
    && (forall j :: 0 <= j < |t.variants| ==> VariantSettled(t, after, groups, j))
    && GroupsSettled(t, after, groups)
  }

  lemma {:induction false} FindGroupAppend(groups: seq<Group>, more: seq<Group>, productId: nat, name: string)
    ensures var r := FindGroup(groups, productId, name);
            FindGroup(groups + more, productId, name) == if r.Some? then r else FindGroup(more, productId, name)
  {
    if groups == [] { assert groups + more == more; }
    else {
      assert (groups + more)[1..] == groups[1..] + more;
      FindGroupAppend(groups[1..], more, productId, name);
    }
  }

  /** FindGroup after the group is created where it is missing. */
  lemma GroupCreated(t: Tables, g: GroupPlan, productId: nat, name: string)
    requires g.existing == FindGroup(t.groups, g.productId, g.name)
    ensures FindGroup(WithGroup(t, g).groups, productId, name) ==
              if (productId, name) == (g.productId, g.name) then Some(g.existing.GetOr(t.nextGroupId))
              else FindGroup(t.groups, productId, name)
  {
    if g.existing.None? {
      FindGroupAppend(t.groups, [Group(t.nextGroupId, g.productId, g.name, g.order)], productId, name);
    }
  }

  lemma GroupCreatedSettles(t: Tables, g: GroupPlan)
    requires SchemaHolds(t) && g.existing == FindGroup(t.groups, g.productId, g.name)
    ensures SchemaHolds(WithGroup(t, g)) && GroupsSettled(t, WithGroup(t, g), [g])
  {
    hide FindGroup;
    FindGroupFinds(t.groups, g.productId, g.name);
    GroupCreated(t, g, g.productId, g.name);
    if g.existing.None? {
      assert Creates([g], Group(t.nextGroupId, g.productId, g.name, g.order)) by {
        assert g in [g];
      }
    }
  }

  lemma GroupApplied(t: Tables, g: GroupPlan)
    requires SchemaHolds(t) && GroupReady(t, g)
    ensures var after := ApplyGroup(t, g);
            && after.Some? && Settled(t, after.value, [g])
            && after.value.groups == WithGroup(t, g).groups
  {
    hide ApplyMembers, GroupsSettled;
    GroupCreatedSettles(t, g);
    GroupCreated(t, g, g.productId, g.name);
    var group := g.existing.GetOr(t.nextGroupId);
    forall a | a in g.members ensures MemberReady(t.variants, a) {}
    MembersApplied(t.variants, g.members, group);
    var after := ApplyGroup(t, g).value;
    SameRows(WithGroup(t, g), after);
    forall j | 0 <= j < |t.variants| ensures VariantSettled(t, after, [g], j) {
      OneVariantSettled(t, after, g, j);
    }
    SameGroupsSettled(t, WithGroup(t, g), after, [g]);
  }

  lemma SameGroupsSettled(t: Tables, mid: Tables, after: Tables, groups: seq<GroupPlan>)
    requires GroupsSettled(t, mid, groups) && after.groups == mid.groups
    ensures GroupsSettled(t, after, groups)
  {
  }

  lemma SameRows(mid: Tables, after: Tables)
    requires SchemaHolds(mid) && after == mid.(variants := after.variants) && |after.variants| == |mid.variants|
    requires forall j :: 0 <= j < |mid.variants| ==> after.variants[j].id == mid.variants[j].id
    ensures SchemaHolds(after)
  {
  }

  lemma OneVariantSettled(t: Tables, after: Tables, g: GroupPlan, j: nat)
    requires SchemaHolds(t) && SchemaHolds(after) && GroupReady(t, g) && j < |t.variants|
            && |after.variants| == |t.variants|
    requires FindGroup(after.groups, g.productId, g.name) == Some(g.existing.GetOr(t.nextGroupId))
    requires after.variants[j] == if Assigns(g.members, t.variants[j].id)
                                  then t.variants[j].(group := Some(g.existing.GetOr(t.nextGroupId))) else t.variants[j]
    ensures VariantSettled(t, after, [g], j)
  {
    hide FindGroup;
    var v := t.variants[j];
    BelongsIff(after, after.variants[j], g.name);
    forall a | a in g.members && a.variant.id == v.id ensures a.variant == v {}
  }

  // ---- all groups ----

  lemma OtherGroupStaysReady(t: Tables, next: Tables, g: GroupPlan, h: GroupPlan)
    requires GroupReady(t, g) && GroupReady(t, h) && Apart(g, h)
    requires |next.variants| == |t.variants| && next.groups == WithGroup(t, g).groups
    requires forall j :: 0 <= j < |t.variants| ==> VariantSettled(t, next, [g], j)
    ensures GroupReady(next, h)
  {
    hide FindGroup, WithGroup, Conflicts, Classified, Belongs;
    GroupCreated(t, g, h.productId, h.name);
    forall a | a in h.members ensures a.variant in next.variants {
      var j :| 0 <= j < |t.variants| && t.variants[j] == a.variant;
      assert VariantSettled(t, next, [g], j);
    }
  }

  lemma StaysReady(t: Tables, g: GroupPlan, rest: seq<GroupPlan>)
    requires SchemaHolds(t) && Ready(t, [g] + rest)
    ensures GroupReady(t, g) && ApplyGroup(t, g).Some? && Ready(ApplyGroup(t, g).value, rest)
  {
    hide SchemaHolds, GroupsSettled, GroupReady, Apart, ApplyGroup, VariantSettled;
    var groups := [g] + rest;
    assert groups[0] == g && forall i :: 0 <= i < |rest| ==> rest[i] == groups[i + 1];
    assert g in groups;
    GroupApplied(t, g);
    forall h | h in rest ensures GroupReady(ApplyGroup(t, g).value, h) {
      var i :| 0 <= i < |rest| && rest[i] == h;
      assert h in groups && Apart(groups[0], groups[i + 1]);
      OtherGroupStaysReady(t, ApplyGroup(t, g).value, g, h);
    }
    forall i, j | 0 <= i < j < |rest| ensures Apart(rest[i], rest[j]) {
      assert Apart(groups[i + 1], groups[j + 1]);
    }
  }

  lemma BelongsOn(mid: Tables, after: Tables, v: Variant, name: string)
    requires |mid.groups| <= |after.groups| && after.groups[..|mid.groups|] == mid.groups && Belongs(mid, v, name)
    ensures Belongs(after, v, name)
  {
    var g :| g in mid.groups && v.group == Some(g.id) && g.productId == v.productId && g.name == name;
    assert g in after.groups[..|mid.groups|];
  }

  lemma VariantComposes(t: Tables, mid: Tables, after: Tables, g: GroupPlan, rest: seq<GroupPlan>, j: nat)
    requires j < |t.variants| && |mid.variants| == |t.variants| && |after.variants| == |t.variants|
    requires VariantSettled(t, mid, [g], j) && VariantSettled(mid, after, rest, j)
    requires |mid.groups| <= |after.groups| && after.groups[..|mid.groups|] == mid.groups
    requires forall h :: h in rest ==> Apart(g, h)
    ensures VariantSettled(t, after, [g] + rest, j)
  {
    hide Belongs;
    var id := t.variants[j].id;
    if HasMember(g.members, id) {
      assert forall h :: h in rest ==> !HasMember(h.members, id);
      BelongsOn(mid, after, mid.variants[j], g.name);
    } else {
      assert forall h :: h in [g] ==> !HasMember(h.members, id);
    }
    assert forall h :: h in rest ==> h in [g] + rest;
  }

  lemma GroupsCompose(t: Tables, mid: Tables, after: Tables, g: GroupPlan, rest: seq<GroupPlan>)
    requires GroupsSettled(t, mid, [g]) && GroupsSettled(mid, after, rest)
    requires forall h :: h in rest ==> FindGroup(mid.groups, h.productId, h.name) == h.existing
    ensures GroupsSettled(t, after, [g] + rest)
  {
    var groups := [g] + rest;
    assert after.groups == mid.groups + after.groups[|mid.groups|..];
    FindGroupAppend(mid.groups, after.groups[|mid.groups|..], g.productId, g.name);
    assert after.groups[..|t.groups|] == mid.groups[..|t.groups|];
    forall k | |t.groups| <= k < |after.groups| ensures Creates(groups, after.groups[k]) {
      if k < |mid.groups| {
        assert after.groups[k] == after.groups[..|mid.groups|][k];
        assert Creates([g], mid.groups[k]);
      } else {
        assert Creates(rest, after.groups[k]);
      }
    }
  }

  /** A ready plan is applied without reaching the overwrite guard. */
  lemma {:induction false} Applied(t: Tables, groups: seq<GroupPlan>)
    requires SchemaHolds(t) && Ready(t, groups)
    ensures ApplyGroups(t, groups).Some? && Settled(t, ApplyGroups(t, groups).value, groups)
    decreases |groups|
  {
    hide SchemaHolds, ApplyGroup, GroupsSettled, VariantSettled, FindGroup, Apart;
    if groups == [] {
      NothingSettled(t);
    } else {
      var g, rest := groups[0], groups[1..];
      assert groups == [g] + rest;
      StaysReady(t, g, rest);
      GroupApplied(t, g);
      var mid := ApplyGroup(t, g).value;
      Applied(mid, rest);
      var after := ApplyGroups(mid, rest).value;
      GroupsCompose(t, mid, after, g, rest);
      Prefixed(mid, after, rest);
      forall h | h in rest ensures Apart(g, h) {
        var i :| 0 <= i < |rest| && rest[i] == h;
        assert Apart(groups[0], groups[i + 1]);
      }
      forall j | 0 <= j < |t.variants| ensures VariantSettled(t, after, groups, j) {
        VariantComposes(t, mid, after, g, rest, j);
      }
    }
  }

  lemma Prefixed(mid: Tables, after: Tables, groups: seq<GroupPlan>)
    requires GroupsSettled(mid, after, groups)
    ensures |mid.groups| <= |after.groups| && after.groups[..|mid.groups|] == mid.groups
  {
  }

  lemma NothingSettled(t: Tables)
    requires SchemaHolds(t)
    ensures Settled(t, t, [])
  {
  }

  /** A plan that finds every group there and every member in it changes nothing. */
  lemma {:induction false} NothingToApply(t: Tables, groups: seq<GroupPlan>)
    requires forall g :: g in groups ==> g.existing.Some? && forall a :: a in g.members ==> a.alreadyCorrect
    ensures ApplyGroups(t, groups) == Some(t)
    decreases |groups|
  {
    if groups != [] {
      assert groups == [groups[0]] + groups[1..];
      NoMembersToApply(t.variants, groups[0].members, groups[0].existing.GetOr(t.nextGroupId));
      assert WithGroup(t, groups[0]).(variants := t.variants) == t;
      NothingToApply(t, groups[1..]);
    }
  }

  lemma {:induction false} NoMembersToApply(variants: seq<Variant>, members: seq<Assignment>, group: nat)
    requires forall a :: a in members ==> a.alreadyCorrect
    ensures ApplyMembers(variants, members, group) == Some(variants)
    decreases |members|
  {
    if members != [] { NoMembersToApply(variants, members[1..], group); }
  }

  // ---- an open plan is ready ----

  lemma OpenGroupReady(t: Tables, m: Manifest, e: Entry, g: GroupPlan)
    requires SchemaHolds(t) && WellFormed(m) && Clean(t, m) && e in m.entries && PlannedFor(t, m, e, g)
    ensures GroupReady(t, g)
  {
    hide DistinctSkus, DistinctSvids, NothingUnexpected, RosterMatches, Members, VariantsOf, SchemaHolds, EntriesClean;
    CleanFindsProducts(t, m, e);
    var p := FindProduct(t.products, e.spid).value;
    PlannedMembers(t, m, e, g);
    forall a | a in g.members ensures !Conflicts(a.variant, g.existing) {
      BelongsIff(t, a.variant, g.name);
    }
  }

  lemma OpenPlanReady(t: Tables, m: Manifest)
    requires SchemaHolds(t) && WellFormed(m) && Clean(t, m)
    ensures Ready(t, PlanOf(t, m).groups)
  {
    hide SchemaHolds, Clean, PlanOf, PlannedFor, GroupReady;
    var groups := PlanOf(t, m).groups;
    PlanGroupsAreEntries(t, m);
    EntriesGroupsAre(t, m, m.entries);
    PlanKeysDistinct(t, m, m.entries);
    forall g | g in groups ensures GroupReady(t, g) {
      var e :| e in m.entries && PlannedFor(t, m, e, g);
      OpenGroupReady(t, m, e, g);
    }
    forall i, j | 0 <= i < j < |groups| ensures Apart(groups[i], groups[j]) {
      assert groups[i] in groups && groups[j] in groups;
      GroupsApart(t, m, groups[i], groups[j]);
    }
  }

  lemma GroupsApart(t: Tables, m: Manifest, g: GroupPlan, h: GroupPlan)
    requires SchemaHolds(t) && WellFormed(m) && Clean(t, m)
    requires g in PlanOf(t, m).groups && h in PlanOf(t, m).groups && (g.productId, g.name) != (h.productId, h.name)
    ensures Apart(g, h)
  {
    hide EntryClean, DistinctSvids, NothingUnexpected, PlanOf, GroupPlanOf;
    PlanGroupsAreEntries(t, m);
    EntriesGroupsAre(t, m, m.entries);
    var e :| e in m.entries && PlannedFor(t, m, e, g);
    PlannedMembers(t, m, e, g);
    var f :| f in m.entries && PlannedFor(t, m, f, h);
    PlannedMembers(t, m, f, h);
    forall a, b | a in g.members && b in h.members ensures a.variant.id != b.variant.id {
      if a.variant.id == b.variant.id {
        assert a.variant == b.variant;
        var s :| s in e.roster && s.groupName == g.name && s.sku == a.variant.sku;
        CleanFindsProducts(t, m, e);
        assert PlannedFor(t, m, e, g) && FindProduct(t.products, e.spid).value.id == g.productId by {
          PlannedProduct(t, m, e, g);
        }
        OnlyInItsGroup(t, m, e, s, a.variant, h);
      }
    }
  }

  lemma PlannedProduct(t: Tables, m: Manifest, e: Entry, g: GroupPlan)
    requires PlannedFor(t, m, e, g)
    ensures FindProduct(t.products, e.spid).value.id == g.productId
  {
  }

  // ---- the results ----

  /** The manifest puts v, by its product, sku and Shopify id, into the group of this name. */
  predicate Assigned(t: Tables, m: Manifest, v: Variant, name: string) {
    exists e, s :: e in m.entries && s in e.roster && s.groupName == name && Fills(v, s)
                   && FindProduct(t.products, e.spid).Some? && FindProduct(t.products, e.spid).value.id == v.productId
  }

  /** Variant j ends in the group the manifest names; one the manifest does not list keeps every field. */
  ghost predicate AsListed(t: Tables, after: Tables, m: Manifest, j: nat)
    requires j < |t.variants| && |after.variants| == |t.variants|
  {
    && after.variants[j] == t.variants[j].(group := after.variants[j].group)
    && (forall name :: Assigned(t, m, t.variants[j], name) ==> Belongs(after, after.variants[j], name))
    && ((forall name :: !Assigned(t, m, t.variants[j], name)) ==> after.variants[j] == t.variants[j])
  }

  /** Every listed group of every listed product is there. */
  predicate GroupsThere(t: Tables, after: Tables, m: Manifest) {
    forall e, n :: e in m.entries && n in e.names && FindProduct(t.products, e.spid).Some? ==>
      FindGroup(after.groups, FindProduct(t.products, e.spid).value.id, n).Some?
  }

  /** The row is a listed group of a listed product that is there, in the order the manifest says. */
  predicate ListedRow(t: Tables, m: Manifest, row: Group) {
    exists e, p :: && e in m.entries && row.name in e.names
                   && p in t.products && p.spid == Some(e.spid) && row.productId == p.id
                   && if e.groupCount == 3 then row.name in m.flavourOrder && row.order == m.flavourOrder[row.name]
                      else row.order == 0
  }

  lemma SkuMeansFills(t: Tables, m: Manifest, e: Entry, s: Slot, v: Variant)
    requires SchemaHolds(t) && Clean(t, m) && e in m.entries && s in e.roster && v in t.variants && v.sku == s.sku
    requires FindProduct(t.products, e.spid).Some? && FindProduct(t.products, e.spid).value.id == v.productId
    ensures Fills(v, s)
  {
    hide SchemaHolds, FindProduct, VariantsOf, NothingUnexpected, DistinctSvids, EntriesClean;
    CleanFindsProducts(t, m, e);
    VariantsOfAre(t.variants, v.productId);
    assert Filled(VariantsOf(t.variants, v.productId), s);
  }

  lemma MembersAreAssigned(t: Tables, m: Manifest, g: GroupPlan, v: Variant)
    requires SchemaHolds(t) && WellFormed(m) && Clean(t, m) && g in PlanOf(t, m).groups
    requires v in t.variants && HasMember(g.members, v.id)
    ensures Assigned(t, m, v, g.name)
  {
    hide Clean, PlanOf, EntriesPlan, GroupPlanOf, Fills, FindProduct, SchemaHolds, DistinctSkus, Classified;
    PlanGroupsAreEntries(t, m);
    EntriesGroupsAre(t, m, m.entries);
    var e :| e in m.entries && PlannedFor(t, m, e, g);
    SkusDistinctWhenClean(t, m);
    PlannedMembers(t, m, e, g);
    PlannedProduct(t, m, e, g);
    var a :| a in g.members && a.variant.id == v.id;
    SameId(t, a.variant, v);
    var s :| s in e.roster && s.groupName == g.name && s.sku == v.sku;
    SkuMeansFills(t, m, e, s, v);
  }

  lemma SameId(t: Tables, a: Variant, b: Variant)
    requires SchemaHolds(t) && a in t.variants && b in t.variants && a.id == b.id
    ensures a == b
  {
  }

  lemma SkusDistinctWhenClean(t: Tables, m: Manifest)
    requires Clean(t, m)
    ensures DistinctSkus(t.variants)
  {
  }

  lemma AssignedIsPlanned(t: Tables, m: Manifest, v: Variant, name: string) returns (g: GroupPlan)
    requires SchemaHolds(t) && WellFormed(m) && Clean(t, m) && v in t.variants && Assigned(t, m, v, name)
    ensures g in PlanOf(t, m).groups && g.name == name && HasMember(g.members, v.id)
  {
    hide Clean, PlanOf, GroupPlanOf, EntriesPlan;
    PlanGroupsAreEntries(t, m);
    EntriesGroupsAre(t, m, m.entries);
    var e, s :| e in m.entries && s in e.roster && s.groupName == name && Fills(v, s)
                && FindProduct(t.products, e.spid).Some? && FindProduct(t.products, e.spid).value.id == v.productId;
    assert EntryWellFormed(m, e);
    OwnPlan(t, m, e, name);
    g := GroupPlanOf(t, m, e, FindProduct(t.products, e.spid).value, name);
    SkusDistinctWhenClean(t, m);
    OnlyInItsGroup(t, m, e, s, v, g);
  }

  /** An open gate means that the overwrite guard is never reached, every listed variant ends in its
      group, every listed group exists, and nothing else in any table changes. */
  lemma BackfillExact(t: Tables, m: Manifest)
    requires SchemaHolds(t) && WellFormed(m) && !Blocked(PlanOf(t, m))
    ensures var r := ApplyGroups(t, PlanOf(t, m).groups);
            && r.Some? && SchemaHolds(r.value) && r.value.products == t.products && |r.value.variants| == |t.variants|
            && (forall j :: 0 <= j < |t.variants| ==> AsListed(t, r.value, m, j))
            && GroupsThere(t, r.value, m) && GroupsSettled(t, r.value, PlanOf(t, m).groups)
            && (forall k :: |t.groups| <= k < |r.value.groups| ==> ListedRow(t, m, r.value.groups[k]))
  {
    hide SchemaHolds, Clean, PlanOf, Blocked, GroupsSettled, Assigned, Belongs, WellFormed;
    var groups := PlanOf(t, m).groups;
    GateExact(t, m);
    OpenPlanReady(t, m);
    Applied(t, groups);
    var after := ApplyGroups(t, groups).value;
    forall j | 0 <= j < |t.variants| ensures AsListed(t, after, m, j) {
      var v := t.variants[j];
      assert VariantSettled(t, after, groups, j);
      forall name | Assigned(t, m, v, name) ensures Belongs(after, after.variants[j], name) {
        var g := AssignedIsPlanned(t, m, v, name);
      }
      forall g | g in groups && HasMember(g.members, v.id) ensures Assigned(t, m, v, g.name) {
        MembersAreAssigned(t, m, g, v);
      }
    }
    AllGroupsThere(t, after, m);
    CreatedAreListed(t, after, m);
  }

  lemma CreatedAreListed(t: Tables, after: Tables, m: Manifest)
    requires WellFormed(m) && GroupsSettled(t, after, PlanOf(t, m).groups)
    ensures forall k :: |t.groups| <= k < |after.groups| ==> ListedRow(t, m, after.groups[k])
  {
    hide EntriesPlan, PlanOf, GroupPlanOf, FindGroup;
    PlanGroupsAreEntries(t, m);
    EntriesGroupsAre(t, m, m.entries);
    forall k | |t.groups| <= k < |after.groups| ensures ListedRow(t, m, after.groups[k]) {
      assert Creates(PlanOf(t, m).groups, after.groups[k]);
      var g :| g in PlanOf(t, m).groups && g.existing.None?
               && after.groups[k] == Group(after.groups[k].id, g.productId, g.name, g.order);
      var e :| e in m.entries && PlannedFor(t, m, e, g);
      PlannedOrder(t, m, e, g);
    }
  }

  lemma PlannedOrder(t: Tables, m: Manifest, e: Entry, g: GroupPlan)
    requires EntryWellFormed(m, e) && PlannedFor(t, m, e, g)
    ensures g.name in e.names
    ensures exists p :: p in t.products && p.spid == Some(e.spid) && g.productId == p.id
    ensures if e.groupCount == 3 then g.name in m.flavourOrder && g.order == m.flavourOrder[g.name] else g.order == 0
  {
    FindProductFinds(t.products, e.spid);
  }

  lemma AllGroupsThere(t: Tables, after: Tables, m: Manifest)
    requires WellFormed(m) && GroupsSettled(t, after, PlanOf(t, m).groups)
    ensures GroupsThere(t, after, m)
  {
    hide EntriesPlan, PlanOf, GroupPlanOf;
    PlanGroupsAreEntries(t, m);
    EntriesGroupsAre(t, m, m.entries);
    forall e, n | e in m.entries && n in e.names && FindProduct(t.products, e.spid).Some?
      ensures FindGroup(after.groups, FindProduct(t.products, e.spid).value.id, n).Some?
    {
      OwnPlan(t, m, e, n);
      var g := GroupPlanOf(t, m, e, FindProduct(t.products, e.spid).value, n);
      assert g in PlanOf(t, m).groups;
    }
  }

  // ---- a second run ----

  predicate SameButGroup(a: seq<Variant>, b: seq<Variant>) {
    |a| == |b| && forall j :: 0 <= j < |a| ==> b[j] == a[j].(group := b[j].group)
  }

  lemma {:induction false} VariantsOfSame(a: seq<Variant>, b: seq<Variant>, productId: nat)
    requires SameButGroup(a, b)
    ensures SameButGroup(VariantsOf(a, productId), VariantsOf(b, productId))
  {
    if a != [] {
      assert forall j :: 0 <= j < |a| - 1 ==> a[1..][j] == a[j + 1] && b[1..][j] == b[j + 1];
      VariantsOfSame(a[1..], b[1..], productId);
    }
  }

  lemma RosterMatchesSame(roster: seq<Slot>, a: seq<Variant>, b: seq<Variant>)
    requires SameButGroup(a, b) && RosterMatches(roster, a)
    ensures RosterMatches(roster, b)
  {
    forall s | s in roster ensures Filled(b, s) {
      assert Filled(a, s);
      var i :| 0 <= i < |a| && Fills(a[i], s);
      assert b[i] in b && Fills(b[i], s);
    }
    forall v | v in b ensures Listed(roster, v.sku) {
      var i :| 0 <= i < |b| && b[i] == v;
      assert a[i] in a;
    }
  }

  /** After an applied plan every listed variant belongs to its group. */
  lemma ListedBelong(t: Tables, after: Tables, m: Manifest, e: Entry, s: Slot, w: Variant)
    requires SchemaHolds(t) && Clean(t, m) && after.products == t.products && SameButGroup(t.variants, after.variants)
    requires forall j :: 0 <= j < |t.variants| ==> AsListed(t, after, m, j)
    requires e in m.entries && s in e.roster && w in after.variants && w.sku == s.sku
    requires FindProduct(t.products, e.spid).Some? && FindProduct(t.products, e.spid).value.id == w.productId
    ensures Belongs(after, w, s.groupName)
  {
    hide Clean, Belongs, SchemaHolds, Fills;
    var j :| 0 <= j < |after.variants| && after.variants[j] == w;
    var v := t.variants[j];
    assert v in t.variants && AsListed(t, after, m, j);
    SkuMeansFills(t, m, e, s, v);
    assert Assigned(t, m, v, s.groupName);
  }

  lemma StaysClean(t: Tables, after: Tables, m: Manifest)
    requires SchemaHolds(t) && SchemaHolds(after) && Clean(t, m)
    requires after.products == t.products && SameButGroup(t.variants, after.variants)
    requires forall j :: 0 <= j < |t.variants| ==> AsListed(t, after, m, j)
    ensures Clean(after, m)
  {
    hide SchemaHolds, AsListed, EntryClean, RosterMatches, Belongs, Known;
    forall e | e in m.entries ensures SettledBySome(after, e) {
      CleanFindsProducts(t, m, e);
      EntryStaysClean(t, after, m, e);
    }
    forall p | p in t.products ensures |VariantsOf(after.variants, p.id)| == |VariantsOf(t.variants, p.id)| {
      VariantsOfSame(t.variants, after.variants, p.id);
    }
  }

  lemma EntryStaysClean(t: Tables, after: Tables, m: Manifest, e: Entry)
    requires SchemaHolds(t) && Clean(t, m) && e in m.entries
    requires after.products == t.products && SameButGroup(t.variants, after.variants)
    requires forall j :: 0 <= j < |t.variants| ==> AsListed(t, after, m, j)
    requires FindProduct(t.products, e.spid).Some? && EntryClean(t, e, FindProduct(t.products, e.spid).value)
    ensures EntryClean(after, e, FindProduct(t.products, e.spid).value)
    ensures SettledBySome(after, e)
  {
    hide SchemaHolds, AsListed, Clean, RosterMatches, Belongs, FindProduct;
    var p := FindProduct(t.products, e.spid).value;
    VariantsOfSame(t.variants, after.variants, p.id);
    if e.roster != [] { RosterMatchesSame(e.roster, VariantsOf(t.variants, p.id), VariantsOf(after.variants, p.id)); }
    forall s, w | s in e.roster && w in after.variants && w.productId == p.id && w.sku == s.sku
      ensures Belongs(after, w, s.groupName)
    {
      ListedBelong(t, after, m, e, s, w);
    }
    assert EntryClean(after, e, p);
  }

  /** Right after an applied plan a second plan is open again and changes nothing. */
  lemma SecondRunChangesNothing(t: Tables, m: Manifest)
    requires SchemaHolds(t) && WellFormed(m) && !Blocked(PlanOf(t, m))
    ensures var r := ApplyGroups(t, PlanOf(t, m).groups);
            r.Some? && !Blocked(PlanOf(r.value, m)) && ApplyGroups(r.value, PlanOf(r.value, m).groups) == Some(r.value)
  {
    hide SchemaHolds, Clean, PlanOf, Blocked, GroupsSettled, WellFormed, GroupPlanOf, GroupsThere, Belongs, Assigned;
    BackfillExact(t, m);
    GateExact(t, m);
    var after := ApplyGroups(t, PlanOf(t, m).groups).value;
    assert SameButGroup(t.variants, after.variants) by {
      forall j | 0 <= j < |t.variants| ensures after.variants[j] == t.variants[j].(group := after.variants[j].group) {
        assert AsListed(t, after, m, j);
      }
    }
    StaysClean(t, after, m);
    GateExact(after, m);
    forall g | g in PlanOf(after, m).groups
      ensures g.existing.Some? && forall a :: a in g.members ==> a.alreadyCorrect
    {
      NothingLeft(t, after, m, g);
    }
    NothingToApply(after, PlanOf(after, m).groups);
  }

  lemma NothingLeft(t: Tables, after: Tables, m: Manifest, g: GroupPlan)
    requires SchemaHolds(t) && SchemaHolds(after) && WellFormed(m) && Clean(t, m) && Clean(after, m)
    requires after.products == t.products && SameButGroup(t.variants, after.variants) && GroupsThere(t, after, m)
    requires forall j :: 0 <= j < |t.variants| ==> AsListed(t, after, m, j)
    requires g in PlanOf(after, m).groups
    ensures g.existing.Some? && forall a :: a in g.members ==> a.alreadyCorrect
  {
    hide SchemaHolds, PlanOf, Clean, AsListed, Members, FindGroup, OrderOf;
    PlanGroupsAreEntries(after, m);
    EntriesGroupsAre(after, m, m.entries);
    var e :| e in m.entries && PlannedFor(after, m, e, g);
    SkusDistinctWhenClean(after, m);
    PlannedMembers(after, m, e, g);
    forall a | a in g.members ensures a.alreadyCorrect {
      var s :| s in e.roster && s.groupName == g.name && s.sku == a.variant.sku;
      ListedBelong(t, after, m, e, s, a.variant);
      BelongsIff(after, a.variant, g.name);
    }
  }
}
