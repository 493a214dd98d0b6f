/** When the backfill's gate opens: a reading of the tables and the manifest alone, and what it gives. */
module CatalogGate {
  import opened Wrappers
  import opened Sequences
  import opened CatalogBackfill

  // ---- repeated identifiers ----

  lemma CountAbove(keys: seq<string>, i: nat, j: nat)
    requires i < j < |keys| && keys[i] == keys[j]
    ensures multiset(keys)[keys[i]] > 1
  {
    assert keys == keys[..j] + [keys[j]] + keys[j + 1..];
    assert keys[..j][i] == keys[i];
    assert multiset(keys) == multiset(keys[..j]) + multiset{keys[j]} + multiset(keys[j + 1..]);
  }

  lemma {:induction false} CountBelow(keys: seq<string>, k: string)
    requires Distinct(keys)
    ensures multiset(keys)[k] <= 1
  {
    if keys != [] {
      assert keys == [keys[0]] + keys[1..];
      CountBelow(keys[1..], k);
      assert forall i :: 0 <= i < |keys| - 1 ==> keys[1..][i] == keys[i + 1] && keys[i + 1] != keys[0];
    }
  }

  predicate FirstOfMany(keys: seq<string>, i: nat)
    requires i < |keys|
  {
    keys[i] !in keys[..i] && multiset(keys)[keys[i]] > 1
  }

  lemma {:induction false} DuplicatesUpTo(keys: seq<string>, n: nat)
    requires n <= |keys|
    ensures Duplicates(keys, n) == [] <==> forall i :: 0 <= i < n ==> !FirstOfMany(keys, i)
  {
    if n > 0 {
      DuplicatesUpTo(keys, n - 1);
      assert Duplicates(keys, n) == Duplicates(keys, n - 1) <==> !FirstOfMany(keys, n - 1);
    }
  }

  lemma FirstOccurrence(keys: seq<string>, i: nat) returns (f: nat)
    requires i < |keys|
    ensures f <= i && keys[f] == keys[i] && keys[f] !in keys[..f]
  {
    f := i;
    while keys[f] in keys[..f]
      invariant f <= i && keys[f] == keys[i]
      decreases f
    {
      var k :| 0 <= k < f && keys[..f][k] == keys[f];
      f := k;
    }
  }

  /** No key is reported as repeated exactly when the keys are distinct. */
  lemma NoDuplicates(keys: seq<string>)
    ensures Duplicates(keys, |keys|) == [] <==> Distinct(keys)
  {
    DuplicatesUpTo(keys, |keys|);
    if Distinct(keys) {
      forall i | 0 <= i < |keys| ensures !FirstOfMany(keys, i) { CountBelow(keys, keys[i]); }
    } else {
      var i, j :| 0 <= i < j < |keys| && keys[i] == keys[j];
      var f := FirstOccurrence(keys, i);
      CountAbove(keys, f, j);
      assert FirstOfMany(keys, f);
    }
  }

  predicate DistinctSkus(variants: seq<Variant>) {
    forall i, j :: 0 <= i < j < |variants| ==> variants[i].sku != variants[j].sku
  }

  predicate DistinctSvids(variants: seq<Variant>) {
    forall i, j :: 0 <= i < j < |variants| && variants[i].svid.Some? ==> variants[i].svid != variants[j].svid
  }

  lemma {:induction false} SkusAre(variants: seq<Variant>)
    ensures |Skus(variants)| == |variants| && forall i :: 0 <= i < |variants| ==> Skus(variants)[i] == variants[i].sku
  {
    if variants != [] { SkusAre(variants[1..]); }
  }

  lemma {:induction false} SvidsAre(variants: seq<Variant>)
    ensures forall k :: k in Svids(variants) <==> exists v :: v in variants && v.svid == Some(k)
    ensures Distinct(Svids(variants)) <==> DistinctSvids(variants)
  {
    if variants != [] {
      var v, rest := variants[0], variants[1..];
      SvidsAre(rest);
      assert variants == [v] + rest;
      if v.svid.Some? {
        var keys := Svids(rest);
        assert Svids(variants) == [v.svid.value] + keys;
        assert Distinct([v.svid.value] + keys) <==> v.svid.value !in keys && Distinct(keys) by {
          DistinctCons(v.svid.value, keys);
        }
      }
      DistinctSvidsCons(v, rest);
    }
  }

  lemma DistinctCons(k: string, keys: seq<string>)
    ensures Distinct([k] + keys) <==> k !in keys && Distinct(keys)
  {
    var all := [k] + keys;
    if Distinct(all) {
      assert all[0] == k && forall i :: 0 <= i < |keys| ==> keys[i] == all[i + 1];
      forall i | 0 <= i < |keys| ensures keys[i] != k { assert all[i + 1] != all[0]; }
    }
  }

  lemma DistinctSvidsCons(v: Variant, rest: seq<Variant>)
    ensures DistinctSvids([v] + rest) <==>
              (v.svid.Some? ==> forall w :: w in rest ==> w.svid != v.svid) && DistinctSvids(rest)
  {
    var all := [v] + rest;
    if DistinctSvids(all) {
      assert all[0] == v && forall i :: 0 <= i < |rest| ==> rest[i] == all[i + 1];
      forall i | 0 <= i < |rest| && v.svid.Some? ensures rest[i].svid != v.svid {
        assert all[i + 1].svid != all[0].svid;
      }
    }
  }

  // ---- what the lookups find ----

  lemma {:induction false} VariantsOfAre(variants: seq<Variant>, productId: nat)
    ensures forall v :: v in VariantsOf(variants, productId) <==> v in variants && v.productId == productId
    ensures DistinctSkus(variants) ==> DistinctSkus(VariantsOf(variants, productId))
  {
    if variants != [] {
      var v, rest := variants[0], variants[1..];
      VariantsOfAre(rest, productId);
      if DistinctSkus(variants) {
        assert forall i :: 0 <= i < |rest| ==> rest[i] == variants[i + 1];
        assert DistinctSkus(rest);
        assert forall w :: w in rest ==> w.sku != v.sku;
      }
    }
  }

  lemma {:induction false} PutNew(bySku: seq<Variant>, v: Variant)
    requires forall w :: w in bySku ==> w.sku != v.sku
    ensures Put(bySku, v) == bySku + [v]
  {
    if bySku != [] { PutNew(bySku[1..], v); }
  }

  lemma {:induction false} BySkuIsIdentity(variants: seq<Variant>)
    requires DistinctSkus(variants)
    ensures BySku(variants) == variants
  {
    if variants != [] {
      BySkuIsIdentity(variants[..|variants| - 1]);
      PutNew(variants[..|variants| - 1], variants[|variants| - 1]);
    }
  }

  lemma {:induction false} PutFinds(bySku: seq<Variant>, v: Variant, sku: string)
    ensures Lookup(Put(bySku, v), sku) == if v.sku == sku then Some(v) else Lookup(bySku, sku)
  {
    if bySku != [] { PutFinds(bySku[1..], v, sku); }
  }

  /** The dictionary by sku holds, for each sku, the last variant that has it. */
  lemma {:induction false} BySkuFindsLast(variants: seq<Variant>, i: nat)
    requires i < |variants| && forall j :: i < j < |variants| ==> variants[j].sku != variants[i].sku
    ensures Lookup(BySku(variants), variants[i].sku) == Some(variants[i])
  {
    var n := |variants| - 1;
    PutFinds(BySku(variants[..n]), variants[n], variants[i].sku);
    if i < n { BySkuFindsLast(variants[..n], i); }
  }

  /** And nothing for a sku that no variant has. */
  lemma {:induction false} BySkuFindsNone(variants: seq<Variant>, sku: string)
    requires forall v :: v in variants ==> v.sku != sku
    ensures Lookup(BySku(variants), sku).None?
  {
    if variants != [] {
      var n := |variants| - 1;
      PutFinds(BySku(variants[..n]), variants[n], sku);
      BySkuFindsNone(variants[..n], sku);
    }
  }

  lemma {:induction false} LookupFinds(bySku: seq<Variant>, sku: string)
    ensures var r := Lookup(bySku, sku);
            && (r.Some? ==> r.value in bySku && r.value.sku == sku)
            && (r.None? ==> forall v :: v in bySku ==> v.sku != sku)
            && (DistinctSkus(bySku) ==> forall v :: v in bySku && v.sku == sku ==> r == Some(v))
  {
    if bySku != [] {
      LookupFinds(bySku[1..], sku);
      if DistinctSkus(bySku) {
        assert forall i :: 0 <= i < |bySku[1..]| ==> bySku[1..][i] == bySku[i + 1];
        assert forall w :: w in bySku[1..] ==> w.sku != bySku[0].sku;
      }
    }
  }

  lemma {:induction false} FindProductFinds(products: seq<Product>, spid: string)
    ensures var r := FindProduct(products, spid);
            && (r.Some? ==> r.value in products && r.value.spid == Some(spid))
            && (r.None? ==> forall p :: p in products ==> p.spid != Some(spid))
  {
    if products != [] { FindProductFinds(products[1..], spid); }
  }

  lemma {:induction false} FindGroupFinds(groups: seq<Group>, productId: nat, name: string)
    ensures var r := FindGroup(groups, productId, name);
            && (r.Some? ==> exists g :: g in groups && g.id == r.value && g.productId == productId && g.name == name)
            && (r.None? ==> forall g :: g in groups ==> !(g.productId == productId && g.name == name))
  {
    if groups != [] { FindGroupFinds(groups[1..], productId, name); }
  }

  lemma UniqueProduct(t: Tables, spid: string, p: Product)
    requires SchemaHolds(t) && p in t.products && p.spid == Some(spid)
    ensures FindProduct(t.products, spid) == Some(p)
  {
    FindProductFinds(t.products, spid);
  }

  /** The variant points at the group of its own product with this name. */
  predicate Belongs(t: Tables, v: Variant, name: string) {
    exists g :: g in t.groups && v.group == Some(g.id) && g.productId == v.productId && g.name == name
  }

  lemma BelongsIff(t: Tables, v: Variant, name: string)
    requires SchemaHolds(t)
    ensures Belongs(t, v, name) <==> v.group.Some? && v.group == FindGroup(t.groups, v.productId, name)
  {
    FindGroupFinds(t.groups, v.productId, name);
  }

  // ---- the gate, read off the tables ----

  predicate Filled(variants: seq<Variant>, slot: Slot) {
    exists v :: v in variants && Fills(v, slot)
  }

  /** Listed means that some slot has the sku. */
  lemma ListedExact(roster: seq<Slot>, sku: string)
    ensures Listed(roster, sku) <==> exists k :: 0 <= k < |roster| && roster[k].sku == sku
  {
    assert Listed(roster, sku) ==> exists k :: 0 <= k < |roster| && roster[k].sku == sku;
  }

  predicate RosterMatches(roster: seq<Slot>, actual: seq<Variant>) {
    (forall s :: s in roster ==> Filled(actual, s)) && (forall v :: v in actual ==> Listed(roster, v.sku))
  }

  /** What an open gate says about one manifest entry whose product is p. */
  predicate EntryClean(t: Tables, e: Entry, p: Product) {
    && p in t.products && p.spid == Some(e.spid) && p.title == e.title
    && |VariantsOf(t.variants, p.id)| == e.variantCount
    && (e.roster != [] ==> RosterMatches(e.roster, VariantsOf(t.variants, p.id)))
    && (forall s, v :: s in e.roster && v in t.variants && v.productId == p.id && v.sku == s.sku && v.group.Some? ==>
          Belongs(t, v, s.groupName))
  }

  predicate SettledBySome(t: Tables, e: Entry) {
    exists p :: p in t.products && EntryClean(t, e, p)
  }

  predicate EntriesClean(t: Tables, entries: seq<Entry>) {
    forall e :: e in entries ==> SettledBySome(t, e)
  }

  predicate NothingUnexpected(t: Tables, m: Manifest, products: seq<Product>) {
    forall p :: p in products && |VariantsOf(t.variants, p.id)| > 1 ==>
      p.spid.Some? && (p.spid.value in m.pending || exists e :: e in m.entries && e.spid == p.spid.value)
  }

  predicate Clean(t: Tables, m: Manifest) {
    && DistinctSkus(t.variants) && DistinctSvids(t.variants)
    && EntriesClean(t, m.entries) && NothingUnexpected(t, m, t.products)
  }

  lemma {:induction false} NoMissingSlots(roster: seq<Slot>, variants: seq<Variant>)
    requires DistinctSkus(variants)
    ensures MissingSlots(roster, variants) == [] <==> forall s :: s in roster ==> Filled(variants, s)
  {
    if roster != [] {
      NoMissingSlots(roster[1..], variants);
      LookupFinds(variants, roster[0].sku);
      assert roster == [roster[0]] + roster[1..];
      var found := Lookup(variants, roster[0].sku);
      assert Filled(variants, roster[0]) <==> found.Some? && Fills(found.value, roster[0]);
    }
  }

  lemma {:induction false} NoneUnlisted(variants: seq<Variant>, roster: seq<Slot>)
    ensures Unlisted(variants, roster) == [] <==> forall v :: v in variants ==> Listed(roster, v.sku)
  {
    if variants != [] { NoneUnlisted(variants[1..], roster); }
  }

  lemma {:induction false} NoneUnexpected(t: Tables, m: Manifest, products: seq<Product>)
    ensures Unexpected(t, m, products) == [] <==> NothingUnexpected(t, m, products)
  {
    if products != [] {
      NoneUnexpected(t, m, products[1..]);
      assert products == [products[0]] + products[1..];
    }
  }

  /** The members of a group plan are the variants that the roster puts into the group. */
  lemma {:induction false} MembersAre(roster: seq<Slot>, variants: seq<Variant>, name: string, existing: Option<nat>)
    requires DistinctSkus(variants)
    ensures forall a :: a in Members(roster, variants, name, existing) <==>
              a == Classified(a.variant, existing) && a.variant in variants
              && exists s :: s in roster && s.groupName == name && s.sku == a.variant.sku
  {
    if roster != [] {
      MembersAre(roster[1..], variants, name, existing);
      LookupFinds(variants, roster[0].sku);
      assert roster == [roster[0]] + roster[1..];
    }
  }

  lemma {:induction false} NoConflictsIn(members: seq<Assignment>, existing: Option<nat>)
    ensures ConflictsIn(members, existing) == [] <==> forall a :: a in members ==> !Conflicts(a.variant, existing)
  {
    if members != [] {
      NoConflictsIn(members[1..], existing);
      assert members == [members[0]] + members[1..];
    }
  }

  /** The groups planned for one product raise no problem but conflicts. */
  lemma {:induction false} GroupsBlocked(t: Tables, m: Manifest, e: Entry, p: Product, names: seq<string>)
    requires SchemaHolds(t) && DistinctSkus(t.variants)
    ensures Blocked(GroupsPlan(t, m, e, p, names)) <==>
              exists n, s, v :: n in names && s in e.roster && s.groupName == n && v in t.variants
                  && v.productId == p.id
                                && v.sku == s.sku && v.group.Some? && !Belongs(t, v, n)
  {
    if names != [] {
      var n := names[0];
      var actual := VariantsOf(t.variants, p.id);
      GroupsBlocked(t, m, e, p, names[1..]);
      assert names == [n] + names[1..];
      var g := GroupPlanOf(t, m, e, p, n);
      VariantsOfAre(t.variants, p.id);
      BySkuIsIdentity(actual);
      MembersAre(e.roster, actual, n, g.existing);
      NoConflictsIn(g.members, g.existing);
      forall v | v in t.variants && v.productId == p.id
        ensures Belongs(t, v, n) <==> v.group.Some? && v.group == g.existing
      {
        BelongsIff(t, v, n);
      }
      GroupConflicts(t, e, p, n, g);
    }
  }

  lemma GroupConflicts(t: Tables, e: Entry, p: Product, n: string, g: GroupPlan)
    requires g.members == Members(e.roster, VariantsOf(t.variants, p.id), n, g.existing)
    requires forall v :: v in t.variants && v.productId == p.id ==>
              (Belongs(t, v, n) <==> v.group.Some? && v.group == g.existing)
    requires DistinctSkus(t.variants)
    ensures ConflictsIn(g.members, g.existing) == [] <==>
              forall s, v :: (s in e.roster && s.groupName == n && v in t.variants && v.productId == p.id
                              && v.sku == s.sku && v.group.Some?) ==> Belongs(t, v, n)
  {
    var actual := VariantsOf(t.variants, p.id);
    VariantsOfAre(t.variants, p.id);
    MembersAre(e.roster, actual, n, g.existing);
    NoConflictsIn(g.members, g.existing);
    forall s, v | s in e.roster && s.groupName == n && v in t.variants && v.productId == p.id && v.sku == s.sku
      ensures Classified(v, g.existing) in g.members
    {
    }
  }

  lemma ProductProblemsFree(t: Tables, e: Entry, p: Product)
    requires DistinctSkus(t.variants)
    ensures !Blocked(ProductProblems(t, e, p)) <==>
              && p.title == e.title && |VariantsOf(t.variants, p.id)| == e.variantCount
              && (e.roster != [] ==> RosterMatches(e.roster, VariantsOf(t.variants, p.id)))
  {
    hide Filled, Listed;
    var actual := VariantsOf(t.variants, p.id);
    VariantsOfAre(t.variants, p.id);
    BySkuIsIdentity(actual);
    NoMissingSlots(e.roster, actual);
    NoneUnlisted(actual, e.roster);
  }

  lemma EntryBlocked(t: Tables, m: Manifest, e: Entry)
    requires SchemaHolds(t) && DistinctSkus(t.variants) && EntryWellFormed(m, e)
    ensures !Blocked(EntryPlan(t, m, e)) <==> SettledBySome(t, e)
  {
    hide RosterMatches, ProductProblems, GroupsPlan, Belongs;
    FindProductFinds(t.products, e.spid);
    if FindProduct(t.products, e.spid).Some? {
      var p := FindProduct(t.products, e.spid).value;
      ProductProblemsFree(t, e, p);
      GroupsBlocked(t, m, e, p, e.names);
      assert !Blocked(EntryPlan(t, m, e)) <==> EntryClean(t, e, p);
      forall q | EntryClean(t, e, q) ensures q == p { UniqueProduct(t, e.spid, q); }
    }
  }

  lemma {:induction false} EntriesBlocked(t: Tables, m: Manifest, entries: seq<Entry>)
    requires SchemaHolds(t) && DistinctSkus(t.variants) && forall e :: e in entries ==> EntryWellFormed(m, e)
    ensures !Blocked(EntriesPlan(t, m, entries)) <==> EntriesClean(t, entries)
  {
    hide EntryPlan, SettledBySome, EntryWellFormed;
    if entries != [] {
      EntryBlocked(t, m, entries[0]);
      EntriesBlocked(t, m, entries[1..]);
      assert entries == [entries[0]] + entries[1..];
    }
  }

  lemma JoinBlocks(p: Plan, q: Plan)
    ensures Blocked(Join(p, q)) <==> Blocked(p) || Blocked(q)
  {
  }

  lemma DuplicatesBlock(t: Tables)
    ensures Blocked(DuplicatesPlan(t)) <==> !(DistinctSkus(t.variants) && DistinctSvids(t.variants))
  {
    hide Duplicates, DistinctSvids;
    var skus := Skus(t.variants);
    SkusAre(t.variants);
    SvidsAre(t.variants);
    NoDuplicates(skus);
    NoDuplicates(Svids(t.variants));
    assert Distinct(skus) <==> DistinctSkus(t.variants);
  }

  /** The gate opens exactly on clean tables: sku and Shopify id unique, every listed product there
      with its title, count and full roster, no variant in a foreign group, no product unaccounted for. */
  lemma GateExact(t: Tables, m: Manifest)
    requires SchemaHolds(t) && WellFormed(m)
    ensures !Blocked(PlanOf(t, m)) <==> Clean(t, m)
  {
    hide Join, DuplicatesPlan, EntriesPlan, EntriesClean, SchemaHolds, Unexpected, NothingUnexpected, DistinctSkus,
        DistinctSvids;
    var d, e := DuplicatesPlan(t), EntriesPlan(t, m, m.entries);
    var u := NOTHING.(unexpectedProducts := Unexpected(t, m, t.products));
    JoinBlocks(Join(d, e), u);
    JoinBlocks(d, e);
    DuplicatesBlock(t);
    NoneUnexpected(t, m, t.products);
    if DistinctSkus(t.variants) { EntriesBlocked(t, m, m.entries); }
  }

  // ---- the planned groups ----

  /** Group plan g is the one for its name in entry e. */
  predicate PlannedFor(t: Tables, m: Manifest, e: Entry, g: GroupPlan) {
    var p := FindProduct(t.products, e.spid);
    p.Some? && g.name in e.names && g == GroupPlanOf(t, m, e, p.value, g.name)
  }

  predicate KeysDistinct(groups: seq<GroupPlan>) {
    forall i, j :: 0 <= i < j < |groups| ==>
          (groups[i].productId, groups[i].name) != (groups[j].productId, groups[j].name)
  }

  lemma {:induction false} GroupsPlanAre(t: Tables, m: Manifest, e: Entry, p: Product, names: seq<string>)
    ensures var groups := GroupsPlan(t, m, e, p, names).groups;
            |groups| == |names| && forall i :: 0 <= i < |names| ==> groups[i] == GroupPlanOf(t, m, e, p, names[i])
  {
    if names != [] { GroupsPlanAre(t, m, e, p, names[1..]); }
  }

  lemma EntryGroupsAre(t: Tables, m: Manifest, e: Entry)
    requires EntryWellFormed(m, e)
    ensures var groups := EntryPlan(t, m, e).groups;
            && (forall g :: g in groups <==> PlannedFor(t, m, e, g))
            && KeysDistinct(groups)
            && |groups| == (if FindProduct(t.products, e.spid).Some? then |e.names| else 0)
  {
    hide Members, FindGroup, OrderOf;
    var p := FindProduct(t.products, e.spid);
    if p.Some? {
      GroupsPlanAre(t, m, e, p.value, e.names);
    }
  }

  lemma {:induction false} EntriesGroupsAre(t: Tables, m: Manifest, entries: seq<Entry>)
    requires forall e :: e in entries ==> EntryWellFormed(m, e)
    ensures forall g :: g in EntriesPlan(t, m, entries).groups <==> exists e :: e in entries && PlannedFor(t, m, e, g)
  {
    hide EntryPlan, PlannedFor, EntryWellFormed;
    if entries != [] {
      EntryGroupsAre(t, m, entries[0]);
      EntriesGroupsAre(t, m, entries[1..]);
      assert entries == [entries[0]] + entries[1..];
    }
  }

  predicate SpidsDistinct(entries: seq<Entry>) {
    forall i, j :: 0 <= i < j < |entries| ==> entries[i].spid != entries[j].spid
  }

  /** Group plans of entries for different Shopify products belong to different products. */
  lemma ProductsApart(t: Tables, m: Manifest, e: Entry, f: Entry, g: GroupPlan, h: GroupPlan)
    requires SchemaHolds(t) && e.spid != f.spid && PlannedFor(t, m, e, g) && PlannedFor(t, m, f, h)
    ensures g.productId != h.productId
  {
    FindProductFinds(t.products, e.spid);
    FindProductFinds(t.products, f.spid);
  }

  /** No two group plans are for the same group. */
  lemma {:induction false} PlanKeysDistinct(t: Tables, m: Manifest, entries: seq<Entry>)
    requires SchemaHolds(t) && SpidsDistinct(entries) && forall e :: e in entries ==> EntryWellFormed(m, e)
    ensures KeysDistinct(EntriesPlan(t, m, entries).groups)
  {
    hide EntryPlan, PlannedFor, EntryWellFormed, SchemaHolds;
    if entries != [] {
      var e, rest := entries[0], entries[1..];
      assert SpidsDistinct(rest);
      EntryGroupsAre(t, m, e);
      EntriesGroupsAre(t, m, rest);
      PlanKeysDistinct(t, m, rest);
      var gs, hs := EntryPlan(t, m, e).groups, EntriesPlan(t, m, rest).groups;
      forall i, j | 0 <= i < |gs| && 0 <= j < |hs| ensures gs[i].productId != hs[j].productId {
        assert gs[i] in gs && hs[j] in hs;
        var f :| f in rest && PlannedFor(t, m, f, hs[j]);
        assert f in entries[1..] && f.spid != e.spid;
        ProductsApart(t, m, e, f, gs[i], hs[j]);
      }
    }
  }

  /** Each listed product has as many planned groups as names, or none when it is not there. */
  lemma {:induction false} GroupsCounted(t: Tables, m: Manifest, entries: seq<Entry>, spid: string)
    requires SpidsDistinct(entries) && forall e :: e in entries ==> EntryWellFormed(m, e)
    ensures (forall e :: e in entries ==> e.spid != spid) ==> GroupsFor(EntriesPlan(t, m, entries).groups, spid) == 0
    ensures forall e :: e in entries && e.spid == spid ==>
              GroupsFor(EntriesPlan(t, m, entries).groups, spid)
              == if FindProduct(t.products, spid).Some? then |e.names| else 0
  {
    hide EntryWellFormed, EntryPlan;
    if entries != [] {
      var e, rest := entries[0], entries[1..];
      assert SpidsDistinct(rest);
      assert forall f :: f in rest ==> f.spid != e.spid;
      GroupsCounted(t, m, rest, spid);
      EntryGroupsAre(t, m, e);
      var groups := EntryPlan(t, m, e).groups;
      forall g | g in groups ensures g.spid == e.spid {
        assert PlannedFor(t, m, e, g);
      }
      GroupsForSplit(groups, EntriesPlan(t, m, rest).groups, spid);
      SameSpid(groups, e.spid, spid);
      assert entries == [e] + rest;
    }
  }

  lemma {:induction false} GroupsForSplit(a: seq<GroupPlan>, b: seq<GroupPlan>, spid: string)
    ensures GroupsFor(a + b, spid) == GroupsFor(a, spid) + GroupsFor(b, spid)
  {
    if a == [] { assert a + b == b; }
    else {
      assert (a + b)[1..] == a[1..] + b;
      GroupsForSplit(a[1..], b, spid);
    }
  }

  lemma {:induction false} SameSpid(groups: seq<GroupPlan>, own: string, spid: string)
    requires forall g :: g in groups ==> g.spid == own
    ensures GroupsFor(groups, spid) == if own == spid then |groups| else 0
  {
    if groups != [] { SameSpid(groups[1..], own, spid); }
  }

  lemma CleanFindsProducts(t: Tables, m: Manifest, e: Entry)
    requires SchemaHolds(t) && Clean(t, m) && e in m.entries
    ensures FindProduct(t.products, e.spid).Some? && EntryClean(t, e, FindProduct(t.products, e.spid).value)
  {
    hide EntryClean, DistinctSkus, DistinctSvids, NothingUnexpected;
    assert SettledBySome(t, e);
    var p :| p in t.products && EntryClean(t, e, p);
    assert p.spid == Some(e.spid) by { CleanSpid(t, e, p); }
    UniqueProduct(t, e.spid, p);
  }

  lemma CleanSpid(t: Tables, e: Entry, p: Product)
    requires EntryClean(t, e, p)
    ensures p.spid == Some(e.spid)
  {
  }

  lemma PlanGroupsAreEntries(t: Tables, m: Manifest)
    ensures PlanOf(t, m).groups == EntriesPlan(t, m, m.entries).groups
  {
  }

  /** The report says PASS exactly when `--apply` would write. */
  lemma PassesIffApplies(t: Tables, m: Manifest)
    requires SchemaHolds(t) && WellFormed(m)
    ensures Passes(m, PlanOf(t, m)) <==> !Blocked(PlanOf(t, m))
  {
    hide SchemaHolds, Clean, EntryPlan, PlanOf, Blocked, EntryClean;
    if !Blocked(PlanOf(t, m)) {
      var groups := PlanOf(t, m).groups;
      PlanGroupsAreEntries(t, m);
      GateExact(t, m);
      forall e | e in m.entries ensures FindProduct(t.products, e.spid).Some? { CleanFindsProducts(t, m, e); }
      EntriesGroupsAre(t, m, m.entries);
      forall e | e in m.entries ensures GroupsFor(groups, e.spid) == |e.names| {
        GroupsCounted(t, m, m.entries, e.spid);
      }
      forall g | g in groups
        ensures g.spid !in m.pending
        ensures exists e :: e in m.entries && e.spid == g.spid
        ensures g.spid != m.canonical ==> GroupsFor(groups, g.spid) == 1
      {
        var e :| e in m.entries && PlannedFor(t, m, e, g);
      }
    }
  }

  /** The places of the plan's groups for one product. */
  function PlacesFor(groups: seq<GroupPlan>, spid: string): set<int> {
    set i | 0 <= i < |groups| && groups[i].spid == spid
  }

  lemma {:induction false} PlacesCounted(groups: seq<GroupPlan>, spid: string)
    ensures |PlacesFor(groups, spid)| == GroupsFor(groups, spid)
  {
    hide PlacesFor;
    if groups == [] {
      NoPlaces(groups, spid);
    } else {
      var n := |groups| - 1;
      PlacesCounted(groups[..n], spid);
      GroupsForSplit(groups[..n], [groups[n]], spid);
      assert groups[..n] + [groups[n]] == groups;
      LastPlace(groups, spid);
    }
  }

  lemma NoPlaces(groups: seq<GroupPlan>, spid: string)
    requires groups == []
    ensures PlacesFor(groups, spid) == {}
  {
  }

  lemma LastPlace(groups: seq<GroupPlan>, spid: string)
    requires groups != []
    ensures var n := |groups| - 1;
            && |PlacesFor(groups, spid)| == |PlacesFor(groups[..n], spid)| + GroupsFor([groups[n]], spid)
  {
    var n := |groups| - 1;
    assert [groups[n]][1..] == [];
    assert PlacesFor(groups, spid) == PlacesFor(groups[..n], spid) + if groups[n].spid == spid then {n} else {};
  }

  /** What PASS vouches for, whatever the manifest and the plan: nothing blocks, three groups for the
      canonical product, one for every other product that has any, and none for a product that is pending,
      unlisted, or listed without groups. */
  lemma PassVouches(m: Manifest, p: Plan)
    ensures Passes(m, p) <==>
              && !Blocked(p)
              && |PlacesFor(p.groups, m.canonical)| == 3
              && (forall g :: g in p.groups && g.spid != m.canonical ==> |PlacesFor(p.groups, g.spid)| == 1)
              && (forall e :: e in m.entries && e.names == [] ==> PlacesFor(p.groups, e.spid) == {})
              && (forall g :: g in p.groups ==> g.spid !in m.pending && exists e :: e in m.entries && e.spid == g.spid)
  {
    hide Blocked, PlacesFor;
    forall spid ensures |PlacesFor(p.groups, spid)| == GroupsFor(p.groups, spid) {
      PlacesCounted(p.groups, spid);
    }
  }

  /** The final invariant of a report, whether the plan is blocked or not, says that the canonical
      product is in the database: the manifest takes care of everything else it looks at. */
  lemma FinalInvariantExact(t: Tables, m: Manifest)
    requires SchemaHolds(t) && WellFormed(m)
    ensures FinalInvariant(m, PlanOf(t, m)) <==> exists p :: p in t.products && p.spid == Some(m.canonical)
  {
    hide SchemaHolds, EntryPlan, PlanOf, GroupPlanOf;
    var groups := PlanOf(t, m).groups;
    PlanGroupsAreEntries(t, m);
    EntriesGroupsAre(t, m, m.entries);
    FindProductFinds(t.products, m.canonical);
    forall e | e in m.entries
      ensures GroupsFor(groups, e.spid) == if FindProduct(t.products, e.spid).Some? then |e.names| else 0
    {
      GroupsCounted(t, m, m.entries, e.spid);
    }
    forall g | g in groups
      ensures exists e :: && e in m.entries && e.spid == g.spid
                          && FindProduct(t.products, e.spid).Some? && g.name in e.names
    {
      var e :| e in m.entries && PlannedFor(t, m, e, g);
      PlannedSpid(t, m, e, g);
    }
  }

  lemma PlannedSpid(t: Tables, m: Manifest, e: Entry, g: GroupPlan)
    requires PlannedFor(t, m, e, g)
    ensures g.spid == e.spid && FindProduct(t.products, e.spid).Some? && g.name in e.names
  {
  }

  // ---- the roster ----

  predicate SlotSkusDistinct(roster: seq<Slot>) {
    forall i, j :: 0 <= i < j < |roster| ==> roster[i].sku != roster[j].sku
  }

  /** Variant i fills slot k. */
  predicate Fit(actual: seq<Variant>, i: int, roster: seq<Slot>, k: int) {
    0 <= i < |actual| && 0 <= k < |roster| && Fills(actual[i], roster[k])
  }

  ghost predicate HasSlot(actual: seq<Variant>, roster: seq<Slot>, i: int) {
    exists k :: Fit(actual, i, roster, k)
  }

  ghost predicate HasVariantFor(actual: seq<Variant>, roster: seq<Slot>, k: int) {
    exists i :: Fit(actual, i, roster, k)
  }

  /** Variants and slots correspond one to one, by sku and Shopify id. */
  ghost predicate Bijection(actual: seq<Variant>, roster: seq<Slot>) {
    && (forall i :: 0 <= i < |actual| ==> HasSlot(actual, roster, i))
    && (forall k :: 0 <= k < |roster| ==> HasVariantFor(actual, roster, k))
    && (forall i, j, k, l :: Fit(actual, i, roster, k) && Fit(actual, j, roster, l) ==> (i == j <==> k == l))
  }

  lemma MatchIsBijection(actual: seq<Variant>, roster: seq<Slot>)
    requires DistinctSkus(actual) && SlotSkusDistinct(roster) && RosterMatches(roster, actual)
    ensures Bijection(actual, roster)
  {
    forall k | 0 <= k < |roster| ensures HasVariantFor(actual, roster, k) {
      assert Filled(actual, roster[k]);
      var i :| 0 <= i < |actual| && Fills(actual[i], roster[k]);
      assert Fit(actual, i, roster, k);
    }
    forall i | 0 <= i < |actual| ensures HasSlot(actual, roster, i) {
      assert actual[i] in actual && Listed(roster, actual[i].sku);
      var k :| 0 <= k < |roster| && roster[k].sku == actual[i].sku;
      assert HasVariantFor(actual, roster, k);
      var j :| Fit(actual, j, roster, k);
      assert j == i;
    }
    forall i, j, k, l | Fit(actual, i, roster, k) && Fit(actual, j, roster, l) ensures i == j <==> k == l {}
  }

  /** Variant v is member a of group plan g. */
  predicate At(groups: seq<GroupPlan>, g: int, a: int, v: Variant) {
    0 <= g < |groups| && 0 <= a < |groups[g].members| && groups[g].members[a].variant == v
  }

  /** Of all planned members exactly one is v, and it is planned into the group of this name of v's product. */
  ghost predicate PlannedOnce(groups: seq<GroupPlan>, v: Variant, name: string) {
    exists g, a :: At(groups, g, a, v) && groups[g].productId == v.productId && groups[g].name == name
                   && forall h, b :: At(groups, h, b, v) ==> h == g && b == a
  }

  predicate MembersDistinct(members: seq<Assignment>) {
    forall i, j :: 0 <= i < j < |members| ==> members[i].variant.sku != members[j].variant.sku
  }

  lemma {:induction false} MembersApart(roster: seq<Slot>, variants: seq<Variant>, name: string, existing: Option<nat>)
    requires DistinctSkus(variants) && SlotSkusDistinct(roster)
    ensures MembersDistinct(Members(roster, variants, name, existing))
  {
    if roster != [] {
      var others := Members(roster[1..], variants, name, existing);
      assert SlotSkusDistinct(roster[1..]);
      assert forall s :: s in roster[1..] ==> s.sku != roster[0].sku;
      MembersApart(roster[1..], variants, name, existing);
      MembersAre(roster[1..], variants, name, existing);
      LookupFinds(variants, roster[0].sku);
      assert forall i :: 0 <= i < |others| ==> others[i] in others && others[i].variant.sku != roster[0].sku;
    }
  }

  /** What a group plan of entry e holds: each variant of the product that the roster puts there, once. */
  lemma PlannedMembers(t: Tables, m: Manifest, e: Entry, g: GroupPlan)
    requires DistinctSkus(t.variants) && EntryWellFormed(m, e) && PlannedFor(t, m, e, g)
    ensures forall a :: a in g.members <==>
              && a == Classified(a.variant, g.existing) && a.variant in t.variants && a.variant.productId == g.productId
              && exists s :: s in e.roster && s.groupName == g.name && s.sku == a.variant.sku
    ensures MembersDistinct(g.members)
  {
    hide DistinctSkus, Listed, FindProduct, FindGroup, OrderOf;
    var actual := VariantsOf(t.variants, g.productId);
    VariantsOfAre(t.variants, g.productId);
    BySkuIsIdentity(actual);
    MembersAre(e.roster, actual, g.name, g.existing);
    MembersApart(e.roster, actual, g.name, g.existing);
  }

  /** A member of any group plan belongs to the plan's product, so its entry is the product's entry. */
  lemma SameEntry(t: Tables, m: Manifest, e: Entry, f: Entry, g: GroupPlan)
    requires SchemaHolds(t) && SpidsDistinct(m.entries) && e in m.entries && f in m.entries
    requires PlannedFor(t, m, f, g) && FindProduct(t.products, e.spid).Some?
            && FindProduct(t.products, e.spid).value.id == g.productId
    ensures e == f
  {
    FindProductFinds(t.products, e.spid);
    FindProductFinds(t.products, f.spid);
  }

  /** Where v is planned: in its slot's group of its own product, and nowhere else. */
  lemma OnlyInItsGroup(t: Tables, m: Manifest, e: Entry, s: Slot, v: Variant, g: GroupPlan)
    requires SchemaHolds(t) && WellFormed(m) && DistinctSkus(t.variants) && e in m.entries && s in e.roster
    requires FindProduct(t.products, e.spid).Some? && v.productId == FindProduct(t.products, e.spid).value.id
    requires v in t.variants && v.sku == s.sku && g in PlanOf(t, m).groups
    ensures (exists a :: a in g.members && a.variant == v) <==> g.productId == v.productId && g.name == s.groupName
  {
    hide EntriesPlan, PlanOf, Classified, GroupPlanOf;
    PlanGroupsAreEntries(t, m);
    EntriesGroupsAre(t, m, m.entries);
    var f :| f in m.entries && PlannedFor(t, m, f, g);
    PlannedMembers(t, m, f, g);
    if g.productId == v.productId {
      assert PlannedFor(t, m, f, g);
      SameEntry(t, m, e, f, g);
      ClassifiedVariant(v, g.existing);
      if g.name == s.groupName { assert Classified(v, g.existing) in g.members; }
      forall a | a in g.members && a.variant == v ensures g.name == s.groupName {
        var r :| r in e.roster && r.groupName == g.name && r.sku == v.sku;
        assert r == s;
      }
    }
  }

  /** The planned groups of a listed product partition its roster. */
  lemma SlotPlannedOnce(t: Tables, m: Manifest, e: Entry, s: Slot, v: Variant)
    requires SchemaHolds(t) && WellFormed(m) && DistinctSkus(t.variants) && e in m.entries && s in e.roster
    requires FindProduct(t.products, e.spid).Some? && v.productId == FindProduct(t.products, e.spid).value.id
    requires v in t.variants && v.sku == s.sku
    ensures PlannedOnce(PlanOf(t, m).groups, v, s.groupName)
  {
    hide GroupPlanOf, EntriesPlan, PlanOf, Classified, SchemaHolds, DistinctSkus;
    var groups := PlanOf(t, m).groups;
    PlanGroupsAreEntries(t, m);
    EntriesGroupsAre(t, m, m.entries);
    PlanKeysDistinct(t, m, m.entries);
    assert EntryWellFormed(m, e);
    OwnPlan(t, m, e, s.groupName);
    var own := GroupPlanOf(t, m, e, FindProduct(t.products, e.spid).value, s.groupName);
    assert own in groups;
    var g :| 0 <= g < |groups| && groups[g] == own;
    OnlyInItsGroup(t, m, e, s, v, own);
    PlannedMembers(t, m, e, own);
    var a :| 0 <= a < |own.members| && own.members[a].variant == v;
    assert At(groups, g, a, v);
    forall h, b | At(groups, h, b, v) ensures h == g && b == a {
      assert groups[h] in groups && groups[h].members[b] in groups[h].members;
      OnlyInItsGroup(t, m, e, s, v, groups[h]);
    }
  }

  lemma ClassifiedVariant(v: Variant, existing: Option<nat>)
    ensures Classified(v, existing).variant == v
            && Classified(v, existing) == Classified(Classified(v, existing).variant, existing)
  {
  }

  lemma OwnPlan(t: Tables, m: Manifest, e: Entry, name: string)
    requires FindProduct(t.products, e.spid).Some? && name in e.names
    ensures var p := FindProduct(t.products, e.spid).value;
            var g := GroupPlanOf(t, m, e, p, name);
            PlannedFor(t, m, e, g) && g.productId == p.id && g.name == name
  {
  }

  /** An open gate means that every listed roster and the product's variants are in bijection by
      (sku, Shopify id), and that the planned groups take each of these variants exactly once. */
  lemma RosterPartitioned(t: Tables, m: Manifest, e: Entry)
    requires SchemaHolds(t) && WellFormed(m) && !Blocked(PlanOf(t, m)) && e in m.entries && e.roster != []
    ensures FindProduct(t.products, e.spid).Some?
    ensures var actual := VariantsOf(t.variants, FindProduct(t.products, e.spid).value.id);
            && |actual| == |e.roster| && Bijection(actual, e.roster)
            && forall i, k :: 0 <= i < |actual| && 0 <= k < |e.roster| && Fills(actual[i], e.roster[k]) ==>
                 PlannedOnce(PlanOf(t, m).groups, actual[i], e.roster[k].groupName)
  {
    hide SchemaHolds, PlanOf, Blocked, Bijection, RosterMatches, PlannedOnce, Listed, DistinctSvids;
    GateExact(t, m);
    CleanFindsProducts(t, m, e);
    var actual := VariantsOf(t.variants, FindProduct(t.products, e.spid).value.id);
    VariantsOfAre(t.variants, FindProduct(t.products, e.spid).value.id);
    MatchIsBijection(actual, e.roster);
    forall i, k | 0 <= i < |actual| && 0 <= k < |e.roster| && Fills(actual[i], e.roster[k])
      ensures PlannedOnce(PlanOf(t, m).groups, actual[i], e.roster[k].groupName)
    {
      assert actual[i] in actual;
      SlotPlannedOnce(t, m, e, e.roster[k], actual[i]);
    }
  }
}