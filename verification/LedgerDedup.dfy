/** The migration that removes duplicate inventory movements and then makes their key unique. */
module LedgerDedup {
  import opened Wrappers
  import opened Sequences

  datatype Kind = Dispatch | RtoRestock | ManualAdjustment | InitialStock

  datatype Movement = Movement(id: nat, variant: nat, order: Option<nat>, kind: Kind,
                               delta: int, after: int, createdAt: int)

  datatype Key = Key(variant: nat, order: nat, kind: Kind)

  /** A row without an order belongs to no group: NULL never collides with itself. */
  function KeyOf(m: Movement): Option<Key> {
    if m.order.Some? then Some(Key(m.variant, m.order.value, m.kind)) else None
  }

  predicate IdsUnique(rows: seq<Movement>) {
    forall i, j :: 0 <= i < j < |rows| ==> rows[i].id != rows[j].id
  }

  /** ORDER BY created_at, id. */
  predicate Earlier(a: Movement, b: Movement) {
    a.createdAt < b.createdAt || (a.createdAt == b.createdAt && a.id < b.id)
  }

  function InsertRow(m: Movement, rows: seq<Movement>): seq<Movement> {
    if rows == [] || Earlier(m, rows[0]) then [m] + rows else [rows[0]] + InsertRow(m, rows[1..])
  }

  function SortRows(rows: seq<Movement>): seq<Movement> {
    if rows == [] then [] else InsertRow(rows[0], SortRows(rows[1..]))
  }

  function InGroup(rows: seq<Movement>, k: Key): seq<Movement> {
    if rows == [] then []
    else if KeyOf(rows[0]) == Some(k) then [rows[0]] + InGroup(rows[1..], k)
    else InGroup(rows[1..], k)
  }

  function GroupRows(rows: seq<Movement>, k: Key): seq<Movement> {
    SortRows(InGroup(rows, k))
  }

  /** DELETE ... WHERE id = ANY(ids). */
  function Without(rows: seq<Movement>, ids: set<nat>): seq<Movement> {
    if rows == [] then []
    else if rows[0].id in ids then Without(rows[1..], ids)
    else [rows[0]] + Without(rows[1..], ids)
  }

  function Ids(rows: seq<Movement>): set<nat> {
    set m | m in rows :: m.id
  }

  // ---- the decision for one group ----

  datatype Plan = DeleteDuplicates(canonical: nat, duplicates: seq<nat>) | ActionRequired(canonical: nat)

  datatype DedupError = TooFewRows | Unresolved(groups: nat) | NotUnique

  function IdList(rows: seq<Movement>): seq<nat> {
    seq(|rows|, i requires 0 <= i < |rows| => rows[i].id)
  }

  function ClassifyDuplicateGroup(rows: seq<Movement>): Result<Plan, DedupError> {
    if |rows| < 2 then Failure(TooFewRows)
    else
      var distinctAfter := set m | m in rows :: m.after;
      if |distinctAfter| == 1 then Success(DeleteDuplicates(rows[0].id, IdList(rows[1..])))
      else Success(ActionRequired(rows[0].id))
  }

  predicate SameAfter(rows: seq<Movement>) {
    forall m, n :: m in rows && n in rows ==> m.after == n.after
  }

  lemma OneMember(s: set<int>, a: int, b: int)
    requires |s| == 1 && a in s && b in s
    ensures a == b
  {
    assert |s - {a}| == 0;
    assert s - {a} == {} && (b == a || b in s - {a});
  }

  /** Duplicates are deleted exactly when the whole group records one and the same quantity. */
  lemma ClassifyExact(rows: seq<Movement>)
    requires |rows| >= 2
    ensures ClassifyDuplicateGroup(rows).Success?
    ensures ClassifyDuplicateGroup(rows).value ==
            if SameAfter(rows) then DeleteDuplicates(rows[0].id, IdList(rows[1..])) else ActionRequired(rows[0].id)
  {
    var distinctAfter := set m | m in rows :: m.after;
    assert rows[0].after in distinctAfter;
    if SameAfter(rows) {
      assert distinctAfter == {rows[0].after};
    } else if |distinctAfter| == 1 {
      var m, n :| m in rows && n in rows && m.after != n.after;
      OneMember(distinctAfter, m.after, n.after);
    }
  }

  // ---- what the whole run means ----

  predicate Duplicated(rows: seq<Movement>, k: Key) {
    |GroupRows(rows, k)| > 1
  }

  /** A group that no rule can resolve. */
  predicate Conflicted(rows: seq<Movement>, k: Key) {
    Duplicated(rows, k) && !SameAfter(GroupRows(rows, k))
  }

  predicate NoConflict(rows: seq<Movement>) {
    forall m :: m in rows && KeyOf(m).Some? ==> !Conflicted(rows, KeyOf(m).value)
  }

  /** Both rows are for the same variant, order and kind of movement. */
  predicate SameMovement(m: Movement, n: Movement) {
    m.order.Some? && m.variant == n.variant && m.order == n.order && m.kind == n.kind
  }

  /** Rows for the same movement record the same quantity. */
  predicate QuantitiesAgree(rows: seq<Movement>) {
    forall m, n :: m in rows && n in rows && SameMovement(m, n) ==> m.after == n.after
  }

  /** A later row of a group whose rows all record the same quantity. */
  predicate Redundant(rows: seq<Movement>, m: Movement) {
    && KeyOf(m).Some?
    && var g := GroupRows(rows, KeyOf(m).value);
       |g| > 1 && SameAfter(g) && m != g[0]
  }

  function RedundantIds(rows: seq<Movement>): set<nat> {
    set m | m in rows && Redundant(rows, m) :: m.id
  }

  function Deduped(rows: seq<Movement>): seq<Movement> {
    Without(rows, RedundantIds(rows))
  }

  predicate KeysUnique(rows: seq<Movement>) {
    forall m, n :: m in rows && n in rows && KeyOf(m).Some? && KeyOf(m) == KeyOf(n) ==> m == n
  }

  // ---- sorting and filtering ----

  lemma {:induction false} InsertRowKeeps(m: Movement, rows: seq<Movement>)
    ensures multiset(InsertRow(m, rows)) == multiset{m} + multiset(rows)
    ensures |InsertRow(m, rows)| == |rows| + 1
  {
    if rows != [] && !Earlier(m, rows[0]) {
      InsertRowKeeps(m, rows[1..]);
      assert rows == [rows[0]] + rows[1..];
    }
  }

  lemma {:induction false} SortRowsKeeps(rows: seq<Movement>)
    ensures multiset(SortRows(rows)) == multiset(rows) && |SortRows(rows)| == |rows|
  {
    if rows != [] {
      SortRowsKeeps(rows[1..]);
      InsertRowKeeps(rows[0], SortRows(rows[1..]));
      assert rows == [rows[0]] + rows[1..];
    }
  }

  lemma SameMembers(a: seq<Movement>, b: seq<Movement>)
    requires multiset(a) == multiset(b)
    ensures forall m :: m in a <==> m in b
  {
    forall m ensures m in a <==> m in b {
      assert m in a <==> m in multiset(a);
      assert m in b <==> m in multiset(b);
    }
  }

  /** Every row of a sorted group except the first is later than it. */
  predicate FirstIsEarliest(rows: seq<Movement>) {
    rows != [] ==> forall m :: m in rows ==> m == rows[0] || Earlier(rows[0], m)
  }

  lemma {:induction false} InsertKeepsEarliest(m: Movement, rows: seq<Movement>)
    requires FirstIsEarliest(rows)
    requires forall n :: n in rows ==> n.id != m.id
    ensures FirstIsEarliest(InsertRow(m, rows))
  {
    InsertRowKeeps(m, rows);
    SameMembers(InsertRow(m, rows), [m] + rows);
    if rows != [] && Earlier(m, rows[0]) {
      forall n | n in rows ensures Earlier(m, n) { }
    }
  }

  lemma {:induction false} SortEarliest(rows: seq<Movement>)
    requires IdsUnique(rows)
    ensures FirstIsEarliest(SortRows(rows))
  {
    if rows != [] {
      SortEarliest(rows[1..]);
      SortRowsKeeps(rows[1..]);
      SameMembers(SortRows(rows[1..]), rows[1..]);
      InsertKeepsEarliest(rows[0], SortRows(rows[1..]));
    }
  }

  lemma {:induction false} InGroupMembers(rows: seq<Movement>, k: Key)
    ensures forall m :: m in InGroup(rows, k) <==> m in rows && KeyOf(m) == Some(k)
    ensures IdsUnique(rows) ==> IdsUnique(InGroup(rows, k))
  {
    if rows != [] {
      InGroupMembers(rows[1..], k);
      assert rows == [rows[0]] + rows[1..];
      if IdsUnique(rows) {
        var rest := InGroup(rows[1..], k);
        forall j | 0 <= j < |rest| ensures rest[j].id != rows[0].id { assert rest[j] in rows[1..]; }
      }
    }
  }

  lemma GroupRowsExact(rows: seq<Movement>, k: Key)
    ensures forall m :: m in GroupRows(rows, k) <==> m in rows && KeyOf(m) == Some(k)
    ensures |GroupRows(rows, k)| == |InGroup(rows, k)|
    ensures IdsUnique(rows) ==> FirstIsEarliest(GroupRows(rows, k))
  {
    InGroupMembers(rows, k);
    SortRowsKeeps(InGroup(rows, k));
    SameMembers(GroupRows(rows, k), InGroup(rows, k));
    if IdsUnique(rows) { SortEarliest(InGroup(rows, k)); }
  }

  lemma {:induction false} WithoutMembers(rows: seq<Movement>, ids: set<nat>)
    ensures forall m :: m in Without(rows, ids) <==> m in rows && m.id !in ids
    ensures IdsUnique(rows) ==> IdsUnique(Without(rows, ids))
  {
    if rows != [] {
      WithoutMembers(rows[1..], ids);
      assert rows == [rows[0]] + rows[1..];
    }
  }

  lemma {:induction false} WithoutTwice(rows: seq<Movement>, a: set<nat>, b: set<nat>)
    ensures Without(Without(rows, a), b) == Without(rows, a + b)
  {
    if rows != [] {
      WithoutTwice(rows[1..], a, b);
      if rows[0].id !in a { assert Without(rows, a)[1..] == Without(rows[1..], a); }
    }
  }

  lemma {:induction false} WithoutNone(rows: seq<Movement>, ids: set<nat>)
    requires forall m :: m in rows ==> m.id !in ids
    ensures Without(rows, ids) == rows
  {
    if rows != [] { WithoutNone(rows[1..], ids); }
  }

  lemma {:induction false} FiltersCommute(rows: seq<Movement>, ids: set<nat>, k: Key)
    ensures InGroup(Without(rows, ids), k) == Without(InGroup(rows, k), ids)
  {
    if rows != [] {
      FiltersCommute(rows[1..], ids, k);
      if rows[0].id !in ids { assert Without(rows, ids)[1..] == Without(rows[1..], ids); }
      if KeyOf(rows[0]) == Some(k) { assert InGroup(rows, k)[1..] == InGroup(rows[1..], k); }
    }
  }

  lemma {:induction false} OnlyOneLeft(rows: seq<Movement>, c: Movement, ids: set<nat>)
    requires IdsUnique(rows) && c in rows && c.id !in ids
    requires forall m :: m in rows && m != c ==> m.id in ids
    ensures Without(rows, ids) == [c]
  {
    if rows[0] == c {
      assert forall m :: m in rows[1..] ==> m != c;
      AllGone(rows[1..], ids);
    } else {
      OnlyOneLeft(rows[1..], c, ids);
    }
  }

  lemma {:induction false} AllGone(rows: seq<Movement>, ids: set<nat>)
    requires forall m :: m in rows ==> m.id in ids
    ensures Without(rows, ids) == []
  {
    if rows != [] { AllGone(rows[1..], ids); }
  }

  lemma SameIdSameRow(rows: seq<Movement>, m: Movement, n: Movement)
    requires IdsUnique(rows) && m in rows && n in rows && m.id == n.id
    ensures m == n
  {
  }

  // ---- the properties of a finished run ----

  lemma DedupedMembers(rows: seq<Movement>)
    requires IdsUnique(rows)
    ensures forall m :: m in Deduped(rows) <==> m in rows && !Redundant(rows, m)
    ensures IdsUnique(Deduped(rows))
  {
    WithoutMembers(rows, RedundantIds(rows));
    forall m, n | m in rows && n in rows && m.id == n.id ensures m == n { SameIdSameRow(rows, m, n); }
  }

  /** Without conflicts every key keeps exactly one row, its earliest. */
  lemma OneRowPerKey(rows: seq<Movement>, k: Key)
    requires IdsUnique(rows) && NoConflict(rows) && GroupRows(rows, k) != []
    ensures GroupRows(Deduped(rows), k) == [GroupRows(rows, k)[0]]
    ensures forall m :: m in rows && KeyOf(m) == Some(k) ==>
              m == GroupRows(rows, k)[0] || Earlier(GroupRows(rows, k)[0], m)
  {
    hide InGroup, SortRows, Earlier, ClassifyDuplicateGroup;
    var g, c, ids := InGroup(rows, k), GroupRows(rows, k)[0], RedundantIds(rows);
    GroupRowsExact(rows, k);
    InGroupMembers(rows, k);
    DedupedMembers(rows);
    FiltersCommute(rows, ids, k);
    assert c in GroupRows(rows, k);
    assert !Conflicted(rows, KeyOf(c).value);
    forall m | m in g && m != c ensures m.id in ids {
      assert m in GroupRows(rows, k);
      assert |GroupRows(rows, k)| > 1;
      assert Redundant(rows, m);
    }
    if c.id in ids {
      var m :| m in rows && Redundant(rows, m) && m.id == c.id;
      SameIdSameRow(rows, m, c);
    }
    OnlyOneLeft(g, c, ids);
    SortOne(c);
  }

  lemma KeysOfSame(m: Movement, n: Movement)
    ensures KeyOf(m).None? <==> m.order.None?
    ensures KeyOf(m).Some? && KeyOf(m) == KeyOf(n) <==> SameMovement(m, n)
    ensures KeyOf(m).Some? ==> KeyOf(m) == Some(Key(m.variant, m.order.value, m.kind))
  {
  }

  lemma EarlierExact(m: Movement, n: Movement)
    ensures Earlier(m, n) <==> m.createdAt < n.createdAt || (m.createdAt == n.createdAt && m.id < n.id)
  {
  }

  lemma GroupAgrees(rows: seq<Movement>, m: Movement)
    requires m in rows && KeyOf(m).Some?
    ensures !Conflicted(rows, KeyOf(m).value) <==> forall n :: n in rows && SameMovement(m, n) ==> n.after == m.after
  {
    hide GroupRows, KeyOf, SameMovement;
    var g := GroupRows(rows, KeyOf(m).value);
    GroupRowsExact(rows, KeyOf(m).value);
    forall n ensures KeyOf(n) == KeyOf(m) <==> SameMovement(m, n) {
      KeysOfSame(m, n);
    }
    assert m in g;
    if |g| == 1 { assert g[0] == m && forall n :: n in g ==> n == g[0]; }
  }

  /** No group is in conflict exactly when rows for the same variant, order and kind always agree. */
  lemma NoConflictExact(rows: seq<Movement>)
    ensures NoConflict(rows) <==> QuantitiesAgree(rows)
  {
    hide Conflicted, KeyOf;
    forall m | m in rows && KeyOf(m).Some?
      ensures !Conflicted(rows, KeyOf(m).value) <==> forall n :: n in rows && SameMovement(m, n) ==> n.after == m.after
    {
      GroupAgrees(rows, m);
    }
    forall m ensures KeyOf(m).Some? <==> m.order.Some? {
      KeysOfSame(m, m);
    }
  }

  /** Which keys the grouping finds, told by rows: those that two of them carry. */
  lemma DuplicatedExact(rows: seq<Movement>, k: Key)
    ensures Duplicated(rows, k)
            <==> exists i, j :: 0 <= i < j < |rows| && CarriesKey(rows[i], k) && CarriesKey(rows[j], k)
  {
    GroupRowsExact(rows, k);
    InGroupTwice(rows, k);
  }

  predicate CarriesKey(m: Movement, k: Key) {
    m.variant == k.variant && m.order == Some(k.order) && m.kind == k.kind
  }

  lemma {:induction false} InGroupTwice(rows: seq<Movement>, k: Key)
    ensures InGroup(rows, k) != [] <==> exists i :: 0 <= i < |rows| && CarriesKey(rows[i], k)
    ensures |InGroup(rows, k)| > 1 <==>
              exists i, j :: 0 <= i < j < |rows| && CarriesKey(rows[i], k) && CarriesKey(rows[j], k)
  {
    if rows != [] {
      var rest := rows[1..];
      InGroupTwice(rest, k);
      assert KeyOf(rows[0]) == Some(k) <==> CarriesKey(rows[0], k);
      if i :| 0 <= i < |rest| && CarriesKey(rest[i], k) { assert CarriesKey(rows[i + 1], k); }
      if i, j :| 0 <= i < j < |rest| && CarriesKey(rest[i], k) && CarriesKey(rest[j], k) {
        assert CarriesKey(rows[i + 1], k) && CarriesKey(rows[j + 1], k);
      }
      forall i | 0 < i < |rows| && CarriesKey(rows[i], k) ensures CarriesKey(rest[i - 1], k) {}
    }
  }

  lemma SortOne(m: Movement)
    ensures SortRows([m]) == [m]
  {
    assert [m][1..] == [];
  }

  /** Without conflicts the run leaves every row without an order alone, leaves one row for each variant,
      order and kind, and drops a row only for an earlier one, by time and then id, that is kept and
      records the same quantity for the same movement. */
  lemma RowsKept(rows: seq<Movement>)
    requires IdsUnique(rows) && QuantitiesAgree(rows)
    ensures forall m :: m in Deduped(rows) ==> m in rows
    ensures forall m :: m in rows && m.order.None? ==> m in Deduped(rows)
    ensures forall m, n :: m in Deduped(rows) && n in Deduped(rows) && SameMovement(m, n) ==> m == n
    ensures forall m :: m in rows && m !in Deduped(rows) ==>
              exists n :: n in Deduped(rows) && SameMovement(m, n) && n.after == m.after
                          && (n.createdAt < m.createdAt || (n.createdAt == m.createdAt && n.id < m.id))
  {
    hide Earlier, GroupRows, KeyOf, QuantitiesAgree;
    NoConflictExact(rows);
    DedupedCorrect(rows);
    forall m, n ensures KeyOf(m).Some? && KeyOf(m) == KeyOf(n) <==> SameMovement(m, n) {
      KeysOfSame(m, n);
    }
    forall m ensures KeyOf(m).None? <==> m.order.None? {
      KeysOfSame(m, m);
    }
    forall m | m in rows && m !in Deduped(rows)
      ensures exists n :: n in Deduped(rows) && SameMovement(m, n) && n.after == m.after
                          && (n.createdAt < m.createdAt || (n.createdAt == m.createdAt && n.id < m.id))
    {
      var k := KeyOf(m).value;
      GroupRowsExact(rows, k);
      OneRowPerKey(rows, k);
      EarlierExact(GroupRows(rows, k)[0], m);
    }
  }

  /** The same by keys. */
  lemma DedupedCorrect(rows: seq<Movement>)
    requires IdsUnique(rows) && NoConflict(rows)
    ensures KeysUnique(Deduped(rows))
    ensures forall m :: m in Deduped(rows) ==> m in rows
    ensures forall m :: m in rows && KeyOf(m).None? ==> m in Deduped(rows)
    ensures forall m :: m in rows && KeyOf(m).Some? ==>
              var first := GroupRows(rows, KeyOf(m).value);
              first != [] && first[0] in Deduped(rows) && KeyOf(first[0]) == KeyOf(m) && first[0].after == m.after
  {
    DedupedMembers(rows);
    forall m | m in rows && KeyOf(m).Some?
      ensures var g := GroupRows(rows, KeyOf(m).value);
              g != [] && g[0] in Deduped(rows) && KeyOf(g[0]) == KeyOf(m) && g[0].after == m.after
              && (m in Deduped(rows) ==> m == g[0])
    {
      var k := KeyOf(m).value;
      GroupRowsExact(rows, k);
      var g := GroupRows(rows, k);
      assert m in g;
      assert g[0] in g;
      if |g| > 1 { assert !Conflicted(rows, k); } else { assert m == g[0]; }
      OneRowPerKey(rows, k);
      GroupRowsExact(Deduped(rows), k);
      assert g[0] in [g[0]];
    }
  }

  /** A second run finds nothing to do. */
  lemma SecondRunDeletesNothing(rows: seq<Movement>)
    requires IdsUnique(rows) && NoConflict(rows)
    ensures forall k :: !Duplicated(Deduped(rows), k)
    ensures NoConflict(Deduped(rows)) && Deduped(Deduped(rows)) == Deduped(rows)
  {
    var d := Deduped(rows);
    DedupedMembers(rows);
    forall k ensures !Duplicated(d, k) {
      assert GroupRows(d, k) == [] || GroupRows(d, k)[0] in GroupRows(d, k);
      GroupRowsExact(d, k);
      if GroupRows(rows, k) != [] {
        OneRowPerKey(rows, k);
      } else {
        GroupRowsExact(rows, k);
        assert forall m :: m in GroupRows(d, k) ==> m in GroupRows(rows, k);
      }
    }
    forall m | m in d ensures m.id !in RedundantIds(d) {
      if m.id in RedundantIds(d) {
        var n :| n in d && Redundant(d, n) && n.id == m.id;
        assert Duplicated(d, KeyOf(n).value);
      }
    }
    WithoutNone(d, RedundantIds(d));
  }

  // ---- the migration itself ----

  function ToSet(ids: seq<nat>): set<nat> {
    set id | id in ids
  }

  /** The redundant rows of the groups in `keys`. */
  function RedundantIn(rows: seq<Movement>, keys: seq<Key>): set<nat> {
    set m | m in rows && Redundant(rows, m) && KeyOf(m).value in keys :: m.id
  }

  lemma OtherGroupsUntouched(rows: seq<Movement>, keys: seq<Key>, k: Key)
    requires IdsUnique(rows) && k !in keys
    ensures GroupRows(Without(rows, RedundantIn(rows, keys)), k) == GroupRows(rows, k)
  {
    var ids := RedundantIn(rows, keys);
    FiltersCommute(rows, ids, k);
    InGroupMembers(rows, k);
    forall m | m in InGroup(rows, k) ensures m.id !in ids {
      if m.id in ids {
        var n :| n in rows && Redundant(rows, n) && KeyOf(n).value in keys && n.id == m.id;
        SameIdSameRow(rows, m, n);
      }
    }
    WithoutNone(InGroup(rows, k), ids);
  }

  lemma IdListIds(rows: seq<Movement>)
    ensures ToSet(IdList(rows)) == Ids(rows)
  {
    forall id | id in Ids(rows) ensures id in IdList(rows) {
      var m :| m in rows && m.id == id;
      var i :| 0 <= i < |rows| && rows[i] == m;
      assert IdList(rows)[i] == id;
    }
    forall id | id in IdList(rows) ensures id in Ids(rows) {
      var i :| 0 <= i < |rows| && IdList(rows)[i] == id;
      assert rows[i] in rows;
    }
  }

  lemma {:induction false} SortedIdsUnique(rows: seq<Movement>, k: Key)
    requires IdsUnique(rows)
    ensures var g := GroupRows(rows, k); g != [] ==> g[0] !in g[1..]
  {
    var g := GroupRows(rows, k);
    InGroupMembers(rows, k);
    SortRowsKeeps(InGroup(rows, k));
    if g != [] && g[0] in g[1..] {
      assert g == [g[0]] + g[1..];
      assert multiset(g)[g[0]] >= 2;
      IdsUniqueMultiplicity(InGroup(rows, k), g[0]);
    }
  }

  lemma {:induction false} IdsUniqueMultiplicity(rows: seq<Movement>, m: Movement)
    requires IdsUnique(rows)
    ensures multiset(rows)[m] <= 1
  {
    if rows != [] {
      IdsUniqueMultiplicity(rows[1..], m);
      assert rows == [rows[0]] + rows[1..];
      assert forall i :: 0 <= i < |rows| - 1 ==> rows[1..][i] == rows[i + 1] && rows[i + 1].id != rows[0].id;
    }
  }

  /** Deleting what the plan of one more group names deletes that group's redundant rows. */
  lemma OneMoreGroup(rows: seq<Movement>, keys: seq<Key>, k: Key)
    requires IdsUnique(rows) && Duplicated(rows, k)
    ensures RedundantIn(rows, keys + [k]) ==
            RedundantIn(rows, keys) + if SameAfter(GroupRows(rows, k)) then Ids(GroupRows(rows, k)[1..]) else {}
  {
    var g := GroupRows(rows, k);
    GroupRowsExact(rows, k);
    SortedIdsUnique(rows, k);
    assert g == [g[0]] + g[1..];
    var was := RedundantIn(rows, keys);
    forall id ensures id in RedundantIn(rows, keys + [k]) <==>
                      id in was + if SameAfter(g) then Ids(g[1..]) else {} {
      if id in RedundantIn(rows, keys + [k]) && id !in was {
        var m :| m in rows && Redundant(rows, m) && KeyOf(m).value in keys + [k] && m.id == id;
        assert m in g && m != g[0];
        assert m in g[1..];
      }
      if SameAfter(g) && id in Ids(g[1..]) {
        var m :| m in g[1..] && m.id == id;
        assert m in g && m != g[0];
        assert Redundant(rows, m);
      }
    }
  }

  lemma NothingSeenYet(rows: seq<Movement>)
    ensures Without(rows, RedundantIn(rows, [])) == rows
  {
    WithoutNone(rows, RedundantIn(rows, []));
  }

  /** One turn of the loop: the group is still as it was, and its plan deletes its share. */
  lemma DedupeStep(rows: seq<Movement>, groups: seq<Key>, i: nat)
    requires IdsUnique(rows) && Distinct(groups) && i < |groups|
    requires forall k :: k in groups <==> Duplicated(rows, k)
    ensures var now, key := Without(rows, RedundantIn(rows, groups[..i])), groups[i];
            var g := GroupRows(rows, key);
            && |g| >= 2 && GroupRows(now, key) == g
            && Without(rows, RedundantIn(rows, groups[..i + 1]))
               == if SameAfter(g) then Without(now, ToSet(IdList(g[1..]))) else now
  {
    var key := groups[i];
    var g, was := GroupRows(rows, key), RedundantIn(rows, groups[..i]);
    assert key in groups;
    assert groups[..i + 1] == groups[..i] + [key];
    OtherGroupsUntouched(rows, groups[..i], key);
    OneMoreGroup(rows, groups[..i], key);
    IdListIds(g[1..]);
    WithoutTwice(rows, was, Ids(g[1..]));
    assert was + {} == was;
  }

  function DuplicatedKeys(rows: seq<Movement>): set<Key> {
    set m | m in rows && KeyOf(m).Some? && Duplicated(rows, KeyOf(m).value) :: KeyOf(m).value
  }

  function ConflictedKeys(rows: seq<Movement>): set<Key> {
    set k | k in DuplicatedKeys(rows) && Conflicted(rows, k)
  }

  function ConflictsAmong(rows: seq<Movement>, keys: seq<Key>): set<Key> {
    set k | k in keys && Conflicted(rows, k)
  }

  lemma OneMoreConflict(rows: seq<Movement>, groups: seq<Key>, i: nat)
    requires Distinct(groups) && i < |groups|
    ensures |ConflictsAmong(rows, groups[..i + 1])|
            == |ConflictsAmong(rows, groups[..i])| + if Conflicted(rows, groups[i]) then 1 else 0
  {
    hide Conflicted;
    assert groups[..i + 1] == groups[..i] + [groups[i]];
    assert groups[i] !in groups[..i];
    assert ConflictsAmong(rows, groups[..i + 1])
           == ConflictsAmong(rows, groups[..i]) + if Conflicted(rows, groups[i]) then {groups[i]} else {};
  }

  lemma {:induction false} DistinctCount(keys: seq<Key>)
    requires Distinct(keys)
    ensures |set k | k in keys| == |keys|
  {
    if keys != [] {
      DistinctCount(keys[1..]);
      assert keys[0] !in keys[1..];
      assert (set k | k in keys) == {keys[0]} + set k | k in keys[1..];
    }
  }

  lemma KeysCounted(rows: seq<Movement>, groups: seq<Key>)
    requires Distinct(groups) && forall k :: k in groups <==> Duplicated(rows, k)
    ensures |DuplicatedKeys(rows)| == |groups| && ConflictsAmong(rows, groups) == ConflictedKeys(rows)
  {
    DistinctCount(groups);
    forall k | Duplicated(rows, k) ensures k in DuplicatedKeys(rows) {
      GroupRowsExact(rows, k);
      assert GroupRows(rows, k)[0] in GroupRows(rows, k);
    }
    assert DuplicatedKeys(rows) == set k | k in groups;
  }

  /** The database the migration runs against. Only `movements` and the constraint are ever
      written; `availableQuantity` is there to show that it is not. */
  class Database {
    var movements: seq<Movement>
    var availableQuantity: map<nat, int>
    var keyIsUnique: bool

    constructor (movements: seq<Movement>, availableQuantity: map<nat, int>)
      ensures this.movements == movements && this.availableQuantity == availableQuantity && !keyIsUnique
    {
      this.movements, this.availableQuantity, this.keyIsUnique := movements, availableQuantity, false;
    }

    /** The keys with more than one row, in some order. */
    method DuplicateGroups() returns (groups: seq<Key>)
      ensures Distinct(groups) && forall k :: k in groups <==> Duplicated(movements, k)
      ensures forall variant, order, kind :: Key(variant, order, kind) in groups <==>
                exists i, j :: 0 <= i < j < |movements| && CarriesKey(movements[i], Key(variant, order, kind))
                               && CarriesKey(movements[j], Key(variant, order, kind))
    {
      groups := [];
      for i := 0 to |movements|
        invariant Distinct(groups)
        invariant forall k :: k in groups ==> Duplicated(movements, k)
        invariant forall j :: 0 <= j < i && KeyOf(movements[j]).Some? ==>
                    (Duplicated(movements, KeyOf(movements[j]).value) ==> KeyOf(movements[j]).value in groups)
      {
        var key := KeyOf(movements[i]);
        if key.Some? && key.value !in groups && |GroupRows(movements, key.value)| > 1 {
          groups := groups + [key.value];
        }
      }
      forall k | Duplicated(movements, k) ensures k in groups {
        GroupRowsExact(movements, k);
        var m := GroupRows(movements, k)[0];
        assert m in GroupRows(movements, k);
        var j :| 0 <= j < |movements| && movements[j] == m;
      }
      forall k ensures Duplicated(movements, k) <==>
          exists i, j :: 0 <= i < j < |movements| && CarriesKey(movements[i], k) && CarriesKey(movements[j], k)
      {
        DuplicatedExact(movements, k);
      }
    }

    /** Resolves every group it can and fails if there is one it cannot. */
    method DedupeInventoryMovements() returns (r: Result<nat, DedupError>)
      requires IdsUnique(movements)
      modifies this`movements
      ensures movements == Deduped(old(movements))
      ensures r.Success? <==> NoConflict(old(movements))
      ensures r.Success? ==> r.value == |DuplicatedKeys(old(movements))|
      ensures r.Failure? ==> r.error == Unresolved(|ConflictedKeys(old(movements))|)
    {
      hide Without, RedundantIn, GroupRows, NoConflict, ClassifyDuplicateGroup, IdList, ToSet, SameAfter;
      ghost var rows := movements;
      var groups := DuplicateGroups();
      var resolved, actionRequired := 0, 0;
      NothingSeenYet(rows);
      for i := 0 to |groups|
        invariant movements == Without(rows, RedundantIn(rows, groups[..i]))
        invariant resolved + actionRequired == i && actionRequired == |ConflictsAmong(rows, groups[..i])|
        invariant actionRequired == 0 <==> forall k :: k in groups[..i] ==> !Conflicted(rows, k)
      {
        var key := groups[i];
        DedupeStep(rows, groups, i);
        assert groups[..i + 1] == groups[..i] + [key];
        OneMoreConflict(rows, groups, i);
        var group := GroupRows(movements, key);
        ClassifyExact(group);
        var plan := ClassifyDuplicateGroup(group).value;
        match plan
        case DeleteDuplicates(_, duplicates) =>
          movements := Without(movements, ToSet(duplicates));
          resolved := resolved + 1;
        case ActionRequired(_) =>
          assert Conflicted(rows, key);
          actionRequired := actionRequired + 1;
      }
      assert groups[..|groups|] == groups;
      AllGroupsSeen(rows, groups);
      KeysCounted(rows, groups);
      r := if actionRequired > 0 then Failure(Unresolved(actionRequired)) else Success(resolved);
    }

    /** CREATE UNIQUE CONSTRAINT, which the database refuses over duplicate keys. */
    method CreateUniqueConstraint() returns (ok: bool)
      modifies this`keyIsUnique
      ensures ok <==> forall k :: !Duplicated(movements, k)
      ensures keyIsUnique == (old(keyIsUnique) || ok)
    {
      var groups := DuplicateGroups();
      ok := groups == [];
      if ok { keyIsUnique := true; } else { assert groups[0] in groups; }
    }

    /** The whole migration in one transaction: either every group is resolved and the constraint
        exists, or nothing at all has changed. */
    method Upgrade() returns (r: Result<nat, DedupError>)
      requires IdsUnique(movements)
      modifies this
      ensures availableQuantity == old(availableQuantity)
      ensures r.Success? <==> QuantitiesAgree(old(movements))
      ensures r.Success? ==> movements == Deduped(old(movements)) && keyIsUnique
      ensures r.Failure? ==> movements == old(movements) && keyIsUnique == old(keyIsUnique)
    {
      var before := movements;
      NoConflictExact(before);
      r := DedupeInventoryMovements();
      if r.Success? {
        SecondRunDeletesNothing(before);
        var created := CreateUniqueConstraint();
        if !created {
          r := Failure(NotUnique);
        }
      }
      if r.Failure? {
        movements := before;
      }
    }
  }

  lemma AllGroupsSeen(rows: seq<Movement>, groups: seq<Key>)
    requires forall k :: k in groups <==> Duplicated(rows, k)
    ensures RedundantIn(rows, groups) == RedundantIds(rows)
    ensures NoConflict(rows) <==> forall k :: k in groups ==> !Conflicted(rows, k)
  {
    forall m | m in rows && Redundant(rows, m) ensures KeyOf(m).value in groups {
      assert Duplicated(rows, KeyOf(m).value);
    }
    forall k | k in groups && Conflicted(rows, k) ensures !NoConflict(rows) {
      GroupRowsExact(rows, k);
      assert GroupRows(rows, k)[0] in GroupRows(rows, k);
    }
  }
}
