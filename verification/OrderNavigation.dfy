/** J/K navigation: a stored window over a paged order list, grown by one page at each boundary. */
module OrderNavigation {
  import opened Wrappers
  import opened Sequences

  // ---- the stored sequence ----

  datatype Filters = Filters(callStatus: Option<string>, dateFrom: Option<string>, dateTo: Option<string>,
      q: Option<string>, pageSize: nat)

  datatype Sequence = Sequence(ids: seq<string>, page: int, totalPages: int, filters: Filters)

  /** A freshly fetched page is spliced on when it is adjacent, and starts over otherwise. */
  function Merge(existing: Option<Sequence>, fetched: Sequence): Sequence {
    if existing.None? || existing.value.filters != fetched.filters then fetched
    else
      var held := existing.value;
      if fetched.page == held.page then held.(ids := fetched.ids, totalPages := fetched.totalPages)
      else if fetched.page == held.page + 1 then fetched.(ids := held.ids + fetched.ids)
      else if fetched.page == held.page - 1 then fetched.(ids := fetched.ids + held.ids)
      else fetched
  }

  // ---- one key press ----

  datatype Direction = Next | Previous

  function Delta(d: Direction): int {
    if d.Next? then 1 else -1
  }

  datatype Notice = OpenFromList | LastOrder | FirstOrder | LoadFailed

  datatype Request = Request(direction: Direction, page: int, held: Sequence)

  datatype Nav = Nav(stored: Option<Sequence>, current: string, pending: Option<Request>, visited: seq<string>,
      notices: seq<Notice>)

  function IndexOf(ids: seq<string>, x: string): int
    ensures -1 <= IndexOf(ids, x) < |ids|
  {
    if ids == [] then -1
    else if ids[0] == x then 0
    else
      var rest := IndexOf(ids[1..], x);
      if rest == -1 then -1 else rest + 1
  }

  function EndNotice(d: Direction): Notice {
    if d.Next? then LastOrder else FirstOrder
  }

  function Go(s: Nav, order: string): Nav {
    s.(current := order, visited := s.visited + [order])
  }

  function Press(s: Nav, d: Direction): Nav {
    if s.pending.Some? then s
    else if s.stored.None? || IndexOf(s.stored.value.ids, s.current) == -1 then
      s.(notices := s.notices + [OpenFromList])
    else
      var held := s.stored.value;
      var target := IndexOf(held.ids, s.current) + Delta(d);
      var page := held.page + Delta(d);
      if 0 <= target < |held.ids| then Go(s, held.ids[target])
      else if page < 1 || page > held.totalPages then s.(notices := s.notices + [EndNotice(d)])
      else s.(pending := Some(Request(d, page, held)))
  }

  /** The fetch ends: None is a failure, otherwise the ids of the page and the number of pages. */
  function Receive(s: Nav, answer: Option<(seq<string>, int)>): Nav {
    if s.pending.None? then s
    else if answer.None? then s.(pending := None, notices := s.notices + [LoadFailed])
    else
      var r, ids := s.pending.value, answer.value.0;
      var merged := Merge(Some(r.held), Sequence(ids, r.page, answer.value.1, r.held.filters));
      var t := s.(pending := None, stored := Some(merged));
      var target := if ids == [] then "" else if r.direction.Next? then ids[0] else ids[|ids| - 1];
      if target != "" then Go(t, target) else t.(notices := t.notices + [EndNotice(r.direction)])
  }

  /** The hook on the order page, with the state it keeps in the browser. */
  class Navigator {
    var stored: Option<Sequence>
    var current: string
    var pending: Option<Request>
    var visited: seq<string>
    var notices: seq<Notice>

    function State(): Nav
      reads this
    {
      Nav(stored, current, pending, visited, notices)
    }

    /** The list page stores the page it shows, and one of its orders is opened. */
    constructor (page: Sequence, order: string)
      ensures State() == Nav(Some(page), order, None, [], [])
    {
      stored, current, pending, visited, notices := Some(page), order, None, [], [];
    }

    method Push(order: string)
      modifies this`current, this`visited
      ensures State() == Go(old(State()), order)
    {
      current := order;
      visited := visited + [order];
    }

    method PressKey(d: Direction)
      modifies this
      ensures State() == Press(old(State()), d)
    {
      if pending.Some? { return; }
      if stored.None? || stored.value.ids == [] {
        notices := notices + [OpenFromList];
        return;
      }
      var held := stored.value;
      var index := IndexOf(held.ids, current);
      if index == -1 {
        notices := notices + [OpenFromList];
        return;
      }
      var target := index + Delta(d);
      if 0 <= target < |held.ids| {
        Push(held.ids[target]);
        return;
      }
      var page := if d.Next? then held.page + 1 else held.page - 1;
      if page < 1 || page > held.totalPages {
        notices := notices + [EndNotice(d)];
        return;
      }
      pending := Some(Request(d, page, held));
    }

    method FetchEnds(answer: Option<(seq<string>, int)>)
      modifies this
      ensures State() == Receive(old(State()), answer)
    {
      if pending.None? { return; }
      var r := pending.value;
      pending := None;
      if answer.None? {
        notices := notices + [LoadFailed];
        return;
      }
      var ids := answer.value.0;
      stored := Some(Merge(Some(r.held), Sequence(ids, r.page, answer.value.1, r.held.filters)));
      if |ids| > 0 && (if r.direction.Next? then ids[0] else ids[|ids| - 1]) != "" {
        Push(if r.direction.Next? then ids[0] else ids[|ids| - 1]);
      } else {
        notices := notices + [EndNotice(r.direction)];
      }
    }
  }

  // ---- a press and an answer, case by case ----

  lemma {:induction false} IndexOfFinds(ids: seq<string>, x: string)
    ensures IndexOf(ids, x) == -1 <==> x !in ids
    ensures forall i :: 0 <= i < |ids| && ids[i] == x && x !in ids[..i] ==> IndexOf(ids, x) == i
  {
    if ids != [] {
      IndexOfFinds(ids[1..], x);
      forall i | 0 <= i < |ids| && ids[i] == x && x !in ids[..i] ensures IndexOf(ids, x) == i {
        if i > 0 {
          assert ids[..i][0] == ids[0];
          assert ids[1..][i - 1] == x;
          assert forall y :: y in ids[1..][..i - 1] ==> y in ids[..i];
        }
      }
    }
  }

  /** While a page is on its way a press does nothing; without a stored list, or on an order that is not
      in it, a press only says so. */
  lemma PressElsewhere(s: Nav, d: Direction)
    ensures s.pending.Some? ==> Press(s, d) == s
    ensures s.pending.None? && (s.stored.None? || s.current !in s.stored.value.ids) ==>
              Press(s, d) == s.(notices := s.notices + [OpenFromList])
  {
    if s.stored.Some? { IndexOfFinds(s.stored.value.ids, s.current); }
  }

  /** On order i of the stored list a press shows its neighbour, or asks for the neighbouring page, or
      says that this is the end. */
  lemma PressInList(s: Nav, d: Direction, i: nat)
    requires s.pending.None? && s.stored.Some? && i < |s.stored.value.ids|
    requires s.stored.value.ids[i] == s.current && s.current !in s.stored.value.ids[..i]
    ensures var held := s.stored.value;
            var to, page := if d.Next? then i + 1 else i - 1, if d.Next? then held.page + 1 else held.page - 1;
            Press(s, d) ==
              if 0 <= to < |held.ids| then s.(current := held.ids[to], visited := s.visited + [held.ids[to]])
              else if 1 <= page <= held.totalPages then s.(pending := Some(Request(d, page, held)))
              else s.(notices := s.notices + [if d.Next? then LastOrder else FirstOrder])
  {
    IndexOfFinds(s.stored.value.ids, s.current);
  }

  /** The end of a fetch: a failure is only reported; a page is merged into the list that was stored when
      it was asked for, and its near end is shown; an empty page is the end. */
  lemma FetchEndsExact(s: Nav, ids: seq<string>, totalPages: int)
    ensures s.pending.None? ==> Receive(s, None) == Receive(s, Some((ids, totalPages))) == s
    ensures s.pending.Some? ==> Receive(s, None) == s.(pending := None, notices := s.notices + [LoadFailed])
    ensures s.pending.Some? ==>
              var r := s.pending.value;
              var fetched := Sequence(ids, r.page, totalPages, r.held.filters);
              var t := s.(pending := None, stored := Some(Merge(Some(r.held), fetched)));
              && (ids == [] ==> Receive(s, Some((ids, totalPages)))
                                == t.(notices := s.notices + [if r.direction.Next? then LastOrder else FirstOrder]))
              && (ids != [] && "" !in ids ==>
                    var near := if r.direction.Next? then ids[0] else ids[|ids| - 1];
                    Receive(s, Some((ids, totalPages))) == t.(current := near, visited := s.visited + [near]))
  {
  }

  // ---- a stable paged list ----

  function Flatten(pages: seq<seq<string>>): seq<string> {
    if pages == [] then [] else pages[0] + Flatten(pages[1..])
  }

  /** Pages of a list of distinct orders; only an empty list has an empty page, and then no pages. */
  predicate Stable(pages: seq<seq<string>>) {
    Distinct(Flatten(pages)) && (forall p :: p in pages ==> p != []) && "" !in Flatten(pages)
  }

  /** The pages of a list cut into slices of the given size. */
  function Slices(all: seq<string>, size: nat): seq<seq<string>>
    requires size > 0
  {
    if all == [] then []
    else if |all| <= size then [all]
    else [all[..size]] + Slices(all[size..], size)
  }

  lemma {:induction false} SliceCount(all: seq<string>, size: nat)
    requires size > 0
    ensures |Slices(all, size)| == (|all| + size - 1) / size
    ensures forall k :: 0 <= k < |Slices(all, size)| - 1 ==> |Slices(all, size)[k]| == size
  {
    if |all| > size {
      SliceCount(all[size..], size);
      OneMore(|all| - 1, size);
    } else if all != [] {
      OneMore(|all| - 1, size);
    } else {
      OneMore(size - 1, size);
    }
  }

  /** Slicing gives a stable paged list whose number of pages is what the server reports. */
  lemma {:induction false} SlicesAreStable(all: seq<string>, size: nat)
    requires size > 0 && Distinct(all) && "" !in all
    ensures Flatten(Slices(all, size)) == all && Stable(Slices(all, size))
    ensures |Slices(all, size)| == (|all| + size - 1) / size
    ensures forall k :: 0 <= k < |Slices(all, size)| - 1 ==> |Slices(all, size)[k]| == size
  {
    SliceCount(all, size);
    if |all| > size {
      var rest := all[size..];
      assert Distinct(rest);
      SlicesAreStable(rest, size);
      assert all == all[..size] + rest;
    } else if all != [] {
      assert Slices(all, size) == [all] && Flatten([all]) == all + Flatten([]) == all;
    }
  }

  lemma OneMore(n: nat, size: nat)
    requires size > 0
    ensures (n + size) / size == n / size + 1
    ensures n < size ==> (n + size) / size == 1
  {
    Quotient(n + size, size, n / size + 1, n % size);
    if n < size { Quotient(n + size, size, 1, n); }
  }

  lemma Quotient(m: nat, size: nat, q: nat, r: nat)
    requires r < size && m == q * size + r
    ensures m / size == q
  {
    var p := m / size;
    assert m == p * size + m % size;
    Times(p, q + 1, size);
    Times(q, p + 1, size);
  }

  lemma Times(a: nat, b: nat, size: nat)
    ensures a >= b ==> a * size >= b * size
  {
  }

  // ---- positions in the list ----

  /** Where page k (counted from 0) starts. */
  function Off(pages: seq<seq<string>>, k: nat): nat
    requires k <= |pages|
  {
    |Flatten(pages[..k])|
  }

  /** The concatenation of pages lo up to but not including hi. */
  function Held(pages: seq<seq<string>>, lo: nat, hi: nat): seq<string>
    requires lo <= hi <= |pages|
  {
    Flatten(pages[lo..hi])
  }

  lemma {:induction false} FlattenSplit(a: seq<seq<string>>, b: seq<seq<string>>)
    ensures Flatten(a + b) == Flatten(a) + Flatten(b)
  {
    if a == [] { assert a + b == b; }
    else {
      assert (a + b)[1..] == a[1..] + b;
      FlattenSplit(a[1..], b);
    }
  }

  lemma HeldSplit(pages: seq<seq<string>>, lo: nat, mid: nat, hi: nat)
    requires lo <= mid <= hi <= |pages|
    ensures Held(pages, lo, hi) == Held(pages, lo, mid) + Held(pages, mid, hi)
  {
    assert pages[lo..hi] == pages[lo..mid] + pages[mid..hi];
    FlattenSplit(pages[lo..mid], pages[mid..hi]);
  }

  lemma HeldOne(pages: seq<seq<string>>, k: nat)
    requires k < |pages|
    ensures Held(pages, k, k + 1) == pages[k]
  {
    assert pages[k..k + 1] == [pages[k]];
    assert Flatten([pages[k]]) == pages[k] + Flatten([]);
  }

  lemma HeldAt(pages: seq<seq<string>>, lo: nat, hi: nat)
    requires lo <= hi <= |pages|
    ensures var all := Flatten(pages);
            && Off(pages, lo) + |Held(pages, lo, hi)| == Off(pages, hi) <= |all|
            && all[Off(pages, lo)..Off(pages, hi)] == Held(pages, lo, hi)
  {
    hide Flatten;
    HeldSplit(pages, 0, lo, hi);
    HeldSplit(pages, 0, hi, |pages|);
    assert pages[..lo] == pages[0..lo] && pages[..hi] == pages[0..hi] && pages == pages[0..|pages|];
  }

  lemma {:induction false} IndexOfAt(ids: seq<string>, i: nat)
    requires Distinct(ids) && i < |ids|
    ensures IndexOf(ids, ids[i]) == i
  {
    if i > 0 {
      assert Distinct(ids[1..]) && ids[1..][i - 1] == ids[i];
      IndexOfAt(ids[1..], i - 1);
    }
  }

  lemma {:induction false} IndexOfFirst(ids: seq<string>, i: nat)
    requires i < |ids|
    ensures 0 <= IndexOf(ids, ids[i]) <= i && ids[IndexOf(ids, ids[i])] == ids[i]
  {
    if i > 0 && ids[0] != ids[i] { IndexOfFirst(ids[1..], i - 1); }
  }

  lemma HeldDistinct(pages: seq<seq<string>>, lo: nat, hi: nat)
    requires Stable(pages) && lo <= hi <= |pages|
    ensures Distinct(Held(pages, lo, hi)) && (lo < hi ==> Held(pages, lo, hi) != [])
  {
    HeldAt(pages, lo, hi);
    var all, from := Flatten(pages), Off(pages, lo);
    assert forall i :: 0 <= i < |Held(pages, lo, hi)| ==> Held(pages, lo, hi)[i] == all[from + i];
    if lo < hi {
      HeldSplit(pages, lo, lo + 1, hi);
      HeldOne(pages, lo);
      assert pages[lo] in pages;
    }
  }

  // ---- walking one way ----

  function Edge(d: Direction, lo: nat, hi: nat): int {
    if d.Next? then hi else lo + 1
  }

  function Pos(d: Direction, g: int, m: nat): int {
    if d.Next? then g + m else g - m
  }

  /** The orders still to come in this direction. */
  function Ahead(all: seq<string>, d: Direction, g: int): int {
    if d.Next? then |all| - 1 - g else g
  }

  /** The next m orders of the list in this direction. */
  function Path(all: seq<string>, g: int, d: Direction, m: nat): seq<string>
    requires 0 <= g < |all| && m <= Ahead(all, d, g)
    decreases m
  {
    if m == 0 then [] else [all[Pos(d, g, 1)]] + Path(all, Pos(d, g, 1), d, m - 1)
  }

  /** The window is exactly pages lo to hi, its stored number is the page at the end walked towards,
      and order g of the list, on that page, is on the screen. */
  predicate Window(pages: seq<seq<string>>, s: Nav, d: Direction, lo: nat, hi: nat, g: int) {
    && lo < hi <= |pages| && s.stored.Some?
    && s.stored.value.ids == Held(pages, lo, hi) && s.stored.value.page == Edge(d, lo, hi)
    && s.stored.value.totalPages == |pages|
    && Off(pages, Edge(d, lo, hi) - 1) <= g < Off(pages, Edge(d, lo, hi)) <= |Flatten(pages)|
    && s.current == Flatten(pages)[g]
  }

  predicate AtBoundary(pages: seq<seq<string>>, d: Direction, lo: nat, hi: nat, g: int)
    requires lo <= hi <= |pages|
  {
    if d.Next? then g == Off(pages, hi) - 1 else g == Off(pages, lo)
  }

  predicate Walk(pages: seq<seq<string>>, s: Nav, d: Direction, lo: nat, hi: nat, g: int) {
    && Window(pages, s, d, lo, hi, g)
    && (s.pending.Some? ==>
          && AtBoundary(pages, d, lo, hi, g) && 1 <= s.stored.value.page + Delta(d) <= |pages|
          && s.pending.value == Request(d, s.stored.value.page + Delta(d), s.stored.value))
  }

  lemma OnScreen(pages: seq<seq<string>>, s: Nav, d: Direction, lo: nat, hi: nat, g: int)
    requires Stable(pages) && Window(pages, s, d, lo, hi, g)
    ensures IndexOf(s.stored.value.ids, s.current) == g - Off(pages, lo)
    ensures |s.stored.value.ids| == Off(pages, hi) - Off(pages, lo)
    ensures Off(pages, lo) <= g < Off(pages, hi) <= |Flatten(pages)|
    ensures forall k :: Off(pages, lo) <= k < Off(pages, hi) ==>
              s.stored.value.ids[k - Off(pages, lo)] == Flatten(pages)[k]
  {
    hide Flatten, Distinct, Stable, Held, Off, IndexOf;
    HeldAt(pages, lo, hi);
    HeldDistinct(pages, lo, hi);
    if d.Next? { HeldAt(pages, lo, hi - 1); } else { HeldAt(pages, lo + 1, hi); }
    IndexOfAt(s.stored.value.ids, g - Off(pages, lo));
  }

  /** One press on a walk: a move to the neighbouring order, a fetch at the boundary, or the end. */
  lemma PressWalks(pages: seq<seq<string>>, s: Nav, d: Direction, lo: nat, hi: nat, g: int)
    requires Stable(pages) && Walk(pages, s, d, lo, hi, g)
    ensures var all, t := Flatten(pages), Press(s, d);
            || (Walk(pages, t, d, lo, hi, g) && t.visited == s.visited
                && (s.pending.None? ==> if Ahead(all, d, g) > 0 then t.pending.Some?
                     else t == s.(notices := s.notices + [EndNotice(d)])))
            || (s.pending.None? && 0 < Ahead(all, d, g) && t.pending.None?
                && Walk(pages, t, d, lo, hi, Pos(d, g, 1)) && t.visited == s.visited + [all[Pos(d, g, 1)]])
  {
    hide Flatten, Distinct, Stable, Off, Held, IndexOf;
    OnScreen(pages, s, d, lo, hi, g);
    HeldAt(pages, 0, lo);
    HeldAt(pages, hi, |pages|);
    HeldAt(pages, lo, hi);
    FullLength(pages);
    if !AtBoundary(pages, d, lo, hi, g) {
      assert s.stored.value.ids[Pos(d, g, 1) - Off(pages, lo)] == Flatten(pages)[Pos(d, g, 1)];
    } else if d.Next? && hi < |pages| {
      LaterPages(pages, hi);
    } else if d.Previous? && lo > 0 {
      EarlierPages(pages, lo);
    }
  }

  lemma FullLength(pages: seq<seq<string>>)
    ensures Off(pages, 0) == 0 && Off(pages, |pages|) == |Flatten(pages)|
  {
    assert pages[..|pages|] == pages && pages[..0] == [];
  }

  lemma LaterPages(pages: seq<seq<string>>, k: nat)
    requires Stable(pages) && k < |pages|
    ensures Off(pages, k) < Off(pages, k + 1) <= |Flatten(pages)|
    ensures pages[k] != [] && Flatten(pages)[Off(pages, k)] == pages[k][0]
    ensures Flatten(pages)[Off(pages, k + 1) - 1] == pages[k][|pages[k]| - 1]
    ensures pages[k][0] != "" && pages[k][|pages[k]| - 1] != ""
  {
    HeldOne(pages, k);
    HeldAt(pages, k, k + 1);
    assert pages[k] in pages;
    assert Flatten(pages)[Off(pages, k)..Off(pages, k + 1)] == pages[k];
  }

  lemma EarlierPages(pages: seq<seq<string>>, k: nat)
    requires Stable(pages) && 0 < k <= |pages|
    ensures 0 < Off(pages, k) <= |Flatten(pages)|
  {
    LaterPages(pages, k - 1);
  }

  /** The server's answer to a pending request while the list is stable. */
  function Answer(pages: seq<seq<string>>, s: Nav, ok: bool): Option<(seq<string>, int)> {
    if !ok || s.pending.None? then None
    else if 1 <= s.pending.value.page <= |pages| then Some((pages[s.pending.value.page - 1], |pages|))
    else Some(([], |pages|))
  }

  /** The answer to a fetch on a walk grows the window by its page and moves to the next order. */
  lemma ReceiveWalks(pages: seq<seq<string>>, s: Nav, d: Direction, lo: nat, hi: nat, g: int, ok: bool)
      returns (lo': nat, hi': nat)
    requires Stable(pages) && Walk(pages, s, d, lo, hi, g)
    ensures var all, t := Flatten(pages), Receive(s, Answer(pages, s, ok));
            && t.pending.None? && lo' <= lo && hi <= hi' && (d.Next? ==> lo' == lo) && (d.Previous? ==> hi' == hi)
            && if ok && s.pending.Some? then
                 Ahead(all, d, g) > 0 && Walk(pages, t, d, lo', hi', Pos(d, g, 1))
                     && t.visited == s.visited + [all[Pos(d, g, 1)]]
               else Walk(pages, t, d, lo', hi', g) && t.visited == s.visited
  {
    hide Flatten, Distinct, Stable;
    lo', hi' := lo, hi;
    if ok && s.pending.Some? {
      if d.Next? {
        LaterPages(pages, hi);
        HeldSplit(pages, lo, hi, hi + 1);
        HeldOne(pages, hi);
        hi' := hi + 1;
      } else {
        LaterPages(pages, lo - 1);
        HeldSplit(pages, lo - 1, lo, hi);
        HeldOne(pages, lo - 1);
        lo' := lo - 1;
      }
    }
  }

  // ---- runs ----

  datatype Event = Pressed(d: Direction) | FetchEnded(ok: bool)

  function Step(pages: seq<seq<string>>, s: Nav, e: Event): Nav {
    match e
    case Pressed(d) => Press(s, d)
    case FetchEnded(ok) => Receive(s, Answer(pages, s, ok))
  }

  function Run(pages: seq<seq<string>>, s: Nav, events: seq<Event>): Nav
    decreases |events|
  {
    if events == [] then s else Run(pages, Step(pages, s, events[0]), events[1..])
  }

  predicate OneWay(events: seq<Event>, d: Direction) {
    forall e :: e in events && e.Pressed? ==> e.d == d
  }

  lemma {:induction false} RunWalks(pages: seq<seq<string>>, s: Nav, d: Direction, lo: nat, hi: nat, g: int,
      events: seq<Event>)
    returns (lo': nat, hi': nat, m: nat)
    requires Stable(pages) && Walk(pages, s, d, lo, hi, g) && OneWay(events, d)
    ensures 0 <= g < |Flatten(pages)| && m <= Ahead(Flatten(pages), d, g)
    ensures Walk(pages, Run(pages, s, events), d, lo', hi', Pos(d, g, m))
    ensures Run(pages, s, events).visited == s.visited + Path(Flatten(pages), g, d, m)
    ensures (d.Next? ==> lo' == lo) && (d.Previous? ==> hi' == hi)
    decreases |events|
  {
    hide Flatten, Stable, Press, Receive, Window, AtBoundary;
    InList(pages, s, d, lo, hi, g);
    if events == [] {
      return lo, hi, 0;
    }
    var e, t := events[0], Step(pages, s, events[0]);
    assert OneWay(events[1..], d);
    var l, h, moved := lo, hi, t.visited != s.visited;
    if e.Pressed? {
      PressWalks(pages, s, d, lo, hi, g);
    } else {
      l, h := ReceiveWalks(pages, s, d, lo, hi, g, e.ok);
    }
    var k;
    lo', hi', k := RunWalks(pages, t, d, l, h, if moved then Pos(d, g, 1) else g, events[1..]);
    m := if moved then k + 1 else k;
  }

  lemma InList(pages: seq<seq<string>>, s: Nav, d: Direction, lo: nat, hi: nat, g: int)
    requires Window(pages, s, d, lo, hi, g)
    ensures 0 <= g < |Flatten(pages)|
  {
  }

  /** The list page shows page p, and its order number k is opened. */
  function Opened(pages: seq<seq<string>>, p: nat, k: nat, filters: Filters): Nav
    requires p < |pages| && k < |pages[p]|
  {
    Nav(Some(Sequence(pages[p], p + 1, |pages|, filters)), pages[p][k], None, [], [])
  }

  lemma OpenedWalks(pages: seq<seq<string>>, p: nat, k: nat, filters: Filters, d: Direction)
    requires Stable(pages) && p < |pages| && k < |pages[p]|
    ensures Walk(pages, Opened(pages, p, k, filters), d, p, p + 1, Off(pages, p) + k)
  {
    HeldOne(pages, p);
    HeldAt(pages, p, p + 1);
    assert pages[p][k] == Flatten(pages)[Off(pages, p)..Off(pages, p + 1)][k];
  }

  /** From any order on any page, pressing only J (or only K), with fetches that may fail at will:
      the orders visited are the next ones of the list, each once and in list order, and the window
      is exactly the concatenation of the pages from the first to the one on the screen. */
  lemma OneWayRunExact(pages: seq<seq<string>>, p: nat, k: nat, filters: Filters, d: Direction, events: seq<Event>)
    returns (m: nat, q: nat)
    requires Stable(pages) && p < |pages| && k < |pages[p]| && OneWay(events, d)
    ensures var all, g, t := Flatten(pages), Off(pages, p) + k, Run(pages, Opened(pages, p, k, filters), events);
            && 0 <= g < |all| && m <= Ahead(all, d, g)
            && t.visited == Path(all, g, d, m) && t.current == all[Pos(d, g, m)]
            && q < |pages| && Off(pages, q) <= Pos(d, g, m) < Off(pages, q + 1)
            && t.stored.Some? && t.stored.value.page == q + 1
            && (if d.Next? then p <= q && t.stored.value.ids == Held(pages, p, q + 1)
                else q <= p && t.stored.value.ids == Held(pages, q, p + 1))
  {
    hide Flatten, Run, Stable;
    OpenedWalks(pages, p, k, filters, d);
    var lo, hi;
    lo, hi, m := RunWalks(pages, Opened(pages, p, k, filters), d, p, p + 1, Off(pages, p) + k, events);
    q := if d.Next? then hi - 1 else lo;
  }

  function Rounds(d: Direction, n: nat): seq<Event> {
    if n == 0 then [] else [Pressed(d), FetchEnded(true)] + Rounds(d, n - 1)
  }

  lemma RoundMoves(pages: seq<seq<string>>, s: Nav, d: Direction, lo: nat, hi: nat, g: int) returns (lo': nat, hi': nat)
    requires Stable(pages) && Walk(pages, s, d, lo, hi, g) && s.pending.None?
    ensures var all, t := Flatten(pages), Step(pages, Press(s, d), FetchEnded(true));
            if Ahead(all, d, g) > 0 then
              t.pending.None? && Walk(pages, t, d, lo', hi', Pos(d, g, 1))
                  && t.visited == s.visited + [all[Pos(d, g, 1)]]
            else t == s.(notices := s.notices + [EndNotice(d)])
  {
    hide Flatten, Stable, Window, AtBoundary, Press;
    PressWalks(pages, s, d, lo, hi, g);
    InList(pages, s, d, lo, hi, g);
    var t := Press(s, d);
    if t.visited == s.visited {
      lo', hi' := ReceiveWalks(pages, t, d, lo, hi, g, true);
    } else {
      lo', hi' := lo, hi;
    }
  }

  /** When no fetch fails, n presses visit the next n orders; at the end of the list the screen stays. */
  lemma {:induction false} RoundsVisitAll(pages: seq<seq<string>>, s: Nav, d: Direction, lo: nat, hi: nat, g: int,
      n: nat)
    requires Stable(pages) && Walk(pages, s, d, lo, hi, g) && s.pending.None?
    ensures var all, t := Flatten(pages), Run(pages, s, Rounds(d, n));
            && 0 <= g < |all| && 0 <= Ahead(all, d, g)
            && var m := if n <= Ahead(all, d, g) then n else Ahead(all, d, g);
            && t.visited == s.visited + Path(all, g, d, m)
            && t.current == all[Pos(d, g, m)]
            && (n > Ahead(all, d, g) ==> t.notices != [] && t.notices[|t.notices| - 1] == EndNotice(d))
    decreases n
  {
    hide Flatten, Stable, Press, Receive, AtBoundary;
    InList(pages, s, d, lo, hi, g);
    if n > 0 {
      TwoSteps(pages, s, d, n);
      var t := Step(pages, Press(s, d), FetchEnded(true));
      var l, h := RoundMoves(pages, s, d, lo, hi, g);
      if Ahead(Flatten(pages), d, g) > 0 {
        RoundsVisitAll(pages, t, d, l, h, Pos(d, g, 1), n - 1);
      } else {
        RoundsVisitAll(pages, t, d, lo, hi, g, n - 1);
        if n - 1 == 0 { assert Run(pages, t, Rounds(d, n - 1)) == t; }
      }
    }
  }

  lemma TwoSteps(pages: seq<seq<string>>, s: Nav, d: Direction, n: nat)
    requires n > 0
    ensures Run(pages, s, Rounds(d, n)) == Run(pages, Step(pages, Press(s, d), FetchEnded(true)), Rounds(d, n - 1))
  {
    var events := Rounds(d, n);
    assert events[0] == Pressed(d) && events[1..][0] == FetchEnded(true) && events[1..][1..] == Rounds(d, n - 1);
    assert Run(pages, s, events) == Run(pages, Press(s, d), events[1..]);
  }

  // ---- turning round ----

  /** The window is pages lo to hi, but the stored number is that of page n, any of them; the order
      on the screen is the one at the end of the window in direction d, and there is a page to fetch. */
  predicate AtEnd(pages: seq<seq<string>>, s: Nav, d: Direction, lo: nat, hi: nat, n: int) {
    && lo < n <= hi <= |pages| && 1 <= n + Delta(d) <= |pages|
    && s.pending.None? && s.stored.Some?
    && s.stored.value.ids == Held(pages, lo, hi) && s.stored.value.page == n && s.stored.value.totalPages == |pages|
    && Held(pages, lo, hi) != []
    && s.current == if d.Next? then Held(pages, lo, hi)[|Held(pages, lo, hi)| - 1] else Held(pages, lo, hi)[0]
  }

  /** A press at the end of the window and the answer to its fetch. */
  function Cross(pages: seq<seq<string>>, s: Nav, d: Direction): Nav {
    var t := Press(s, d);
    Receive(t, Answer(pages, t, true))
  }

  lemma CrossingFetches(pages: seq<seq<string>>, s: Nav, d: Direction, lo: nat, hi: nat, n: int)
    requires Stable(pages) && AtEnd(pages, s, d, lo, hi, n)
    ensures var t, page := Cross(pages, s, d), pages[n + Delta(d) - 1];
            && t.stored.Some? && t.pending.None? && page != []
            && t.stored.value.ids == (if d.Next? then Held(pages, lo, hi) + page else page + Held(pages, lo, hi))
            && t.current == if d.Next? then page[0] else page[|page| - 1]
  {
    hide Flatten;
    var ids := Held(pages, lo, hi);
    HeldDistinct(pages, lo, hi);
    IndexOfAt(ids, if d.Next? then |ids| - 1 else 0);
    LaterPages(pages, n + Delta(d) - 1);
  }

  /** Page k is part of the window, so its orders come up again in it. */
  lemma PageInWindow(pages: seq<seq<string>>, lo: nat, hi: nat, k: nat)
    requires lo <= k < hi <= |pages|
    ensures Held(pages, lo, hi) == Held(pages, lo, k) + pages[k] + Held(pages, k + 1, hi)
  {
    HeldSplit(pages, lo, k, hi);
    HeldSplit(pages, k, k + 1, hi);
    HeldOne(pages, k);
  }

  /** The fetched page is the next one: the window grows by it, and the next order is shown. */
  lemma CrossingGrows(pages: seq<seq<string>>, s: Nav, d: Direction, lo: nat, hi: nat, n: int)
    requires Stable(pages) && AtEnd(pages, s, d, lo, hi, n) && n == Edge(d, lo, hi)
    ensures var t := Cross(pages, s, d);
            && t.stored.Some? && Distinct(t.stored.value.ids)
            && if d.Next? then
                 t.stored.value.ids == Held(pages, lo, hi + 1) && Off(pages, hi) < |Flatten(pages)|
                     && t.current == Flatten(pages)[Off(pages, hi)]
               else
                 t.stored.value.ids == Held(pages, lo - 1, hi) && 0 < Off(pages, lo) <= |Flatten(pages)|
                     && t.current == Flatten(pages)[Off(pages, lo) - 1]
  {
    hide Flatten, Cross, Held, Off, Distinct, Stable;
    CrossingFetches(pages, s, d, lo, hi, n);
    var k := n + Delta(d) - 1;
    LaterPages(pages, k);
    HeldOne(pages, k);
    if d.Next? {
      HeldSplit(pages, lo, hi, hi + 1);
      HeldDistinct(pages, lo, hi + 1);
    } else {
      HeldSplit(pages, lo - 1, lo, hi);
      HeldDistinct(pages, lo - 1, hi);
    }
  }

  /** The fetched page is one held already: its orders are in the window twice. */
  lemma CrossingRepeats(pages: seq<seq<string>>, s: Nav, d: Direction, lo: nat, hi: nat, n: int)
    requires Stable(pages) && AtEnd(pages, s, d, lo, hi, n) && n != Edge(d, lo, hi)
    ensures var t := Cross(pages, s, d);
            t.stored.Some? && !Distinct(t.stored.value.ids) && t.current in Held(pages, lo, hi)
  {
    hide Flatten, Cross, Held, Off, Stable, Distinct;
    CrossingFetches(pages, s, d, lo, hi, n);
    var k, held := n + Delta(d) - 1, Held(pages, lo, hi);
    PageInWindow(pages, lo, hi, k);
    var page, i := pages[k], |Held(pages, lo, k)|;
    assert held[i] == page[0] && held[i + |page| - 1] == page[|page| - 1];
    SplicedTwice(held, page, i);
  }

  /** Merging any fetched page q into a window of pages lo to hi whose stored number is n: with other
      filters the page replaces the window, and otherwise the outcome has no repeats, and is then a
      run of consecutive pages, unless q is next to n on a side where the window goes on. */
  lemma MergeExact(pages: seq<seq<string>>, held: Sequence, lo: nat, hi: nat, q: nat, filters: Filters)
    requires Stable(pages) && lo < held.page <= hi <= |pages| && held.ids == Held(pages, lo, hi) && 1 <= q <= |pages|
    ensures var n, fetched := held.page, Sequence(pages[q - 1], q, |pages|, filters);
            var merged := Merge(Some(held), fetched);
            && merged.page == q && merged.totalPages == |pages| && merged.filters == filters
            && (filters != held.filters ==> merged.ids == Held(pages, q - 1, q))
            && (filters == held.filters ==>
                  && (Distinct(merged.ids) <==> (q == n + 1 ==> n == hi) && (q == n - 1 ==> n == lo + 1))
                  && (Distinct(merged.ids) ==>
                        merged.ids ==
                        if q == n + 1 then Held(pages, lo, q)
                        else if q == n - 1 then Held(pages, q - 1, hi)
                        else Held(pages, q - 1, q)))
  {
    hide Flatten, Held, Off, Stable;
    var n, page := held.page, pages[q - 1];
    HeldOne(pages, q - 1);
    HeldDistinct(pages, q - 1, q);
    LaterPages(pages, q - 1);
    if q == n + 1 && n == hi {
      HeldSplit(pages, lo, hi, q);
      HeldDistinct(pages, lo, q);
    } else if q == n - 1 && n == lo + 1 {
      HeldSplit(pages, q - 1, lo, hi);
      HeldDistinct(pages, q - 1, hi);
    } else if q == n + 1 || q == n - 1 {
      PageInWindow(pages, lo, hi, q - 1);
      var i := |Held(pages, lo, q - 1)|;
      assert held.ids[i] == page[0];
      SplicedTwice(held.ids, page, i);
    }
  }

  lemma SplicedTwice(ids: seq<string>, page: seq<string>, i: nat)
    requires i < |ids| && page != [] && ids[i] == page[0]
    ensures !Distinct(ids + page) && !Distinct(page + ids)
  {
    assert (ids + page)[i] == (ids + page)[|ids|];
    assert (page + ids)[0] == (page + ids)[|page| + i];
  }

  /** Crossing the end of the window keeps it free of repeats exactly when the stored page number is
      that of the last page held in this direction; then it grows by the next page, and the next
      order of the list is shown. Otherwise a page held already is fetched and spliced on again. */
  lemma CrossingExact(pages: seq<seq<string>>, s: Nav, d: Direction, lo: nat, hi: nat, n: int)
    requires Stable(pages) && AtEnd(pages, s, d, lo, hi, n)
    ensures var t := Cross(pages, s, d);
            && t.stored.Some?
            && (Distinct(t.stored.value.ids) <==> n == Edge(d, lo, hi))
            && (n == Edge(d, lo, hi) ==>
                   t.stored.value.ids == if d.Next? then Held(pages, lo, hi + 1) else Held(pages, lo - 1, hi))
            && (n != Edge(d, lo, hi) ==> t.current in Held(pages, lo, hi))
  {
    hide Flatten, Cross, Held, Distinct;
    if n == Edge(d, lo, hi) { CrossingGrows(pages, s, d, lo, hi, n); } else { CrossingRepeats(pages, s, d, lo, hi, n); }
  }

  /** Order n of the stored ids comes up before n already, and the order on the screen does too. */
  predicate Trapped(s: Nav, n: nat) {
    && s.pending.None? && s.stored.Some? && n < |s.stored.value.ids|
    && s.stored.value.ids[n] in s.stored.value.ids[..n] && s.current in s.stored.value.ids[..n]
  }

  lemma PressStaysTrapped(s: Nav, n: nat)
    requires Trapped(s, n)
    ensures Trapped(Press(s, Next), n) && Press(s, Next).stored == s.stored
  {
    var ids := s.stored.value.ids;
    var i :| 0 <= i < n && ids[..n][i] == s.current;
    IndexOfFirst(ids, i);
    var target := IndexOf(ids, s.current) + 1;
    if target < n { assert ids[target] == ids[..n][target]; }
  }

  /** However often J is pressed, a trapped run never leaves the first n stored orders. */
  lemma {:induction false} TrappedForGood(pages: seq<seq<string>>, s: Nav, n: nat, events: seq<Event>)
    requires Trapped(s, n) && OneWay(events, Next)
    ensures Trapped(Run(pages, s, events), n) && Run(pages, s, events).stored == s.stored
    decreases |events|
  {
    hide Trapped, Press;
    if events != [] {
      assert OneWay(events[1..], Next);
      NotPending(s, n);
      if events[0].Pressed? { PressStaysTrapped(s, n); }
      TrappedForGood(pages, Step(pages, s, events[0]), n, events[1..]);
    }
  }

  lemma NotPending(s: Nav, n: nat)
    requires Trapped(s, n)
    ensures s.pending.None? && s.stored.Some? && n < |s.stored.value.ids| && s.current in s.stored.value.ids[..n]
  {
  }

  /** The orders J can still reach after a page was spliced on twice. */
  function Reachable(pages: seq<seq<string>>, d: Direction, lo: nat, hi: nat, n: int): seq<string>
    requires lo < n <= hi <= |pages|
  {
    if d.Next? then Held(pages, lo, hi) else Held(pages, lo, n - 1)
  }

  lemma TrappedAfterNext(pages: seq<seq<string>>, s: Nav, lo: nat, hi: nat, n: int) returns (r: nat)
    requires Stable(pages) && AtEnd(pages, s, Next, lo, hi, n) && n != hi
    ensures Trapped(Cross(pages, s, Next), r) && Cross(pages, s, Next).stored.value.ids[..r] == Held(pages, lo, hi)
  {
    hide Flatten, Cross, Held, Off, Stable;
    CrossingFetches(pages, s, Next, lo, hi, n);
    PageInWindow(pages, lo, hi, n);
    var held, page := Held(pages, lo, hi), pages[n];
    r := |held|;
    assert held[|Held(pages, lo, n)|] == page[0];
  }

  lemma TrappedAfterPrevious(pages: seq<seq<string>>, s: Nav, lo: nat, hi: nat, n: int) returns (r: nat)
    requires Stable(pages) && AtEnd(pages, s, Previous, lo, hi, n) && n != lo + 1
    ensures Trapped(Cross(pages, s, Previous), r)
    ensures forall x :: x in Cross(pages, s, Previous).stored.value.ids[..r] ==> x in Held(pages, lo, n - 1)
  {
    hide Flatten, Cross, Held, Off, Stable;
    CrossingFetches(pages, s, Previous, lo, hi, n);
    var k := n - 2;
    PageInWindow(pages, lo, hi, k);
    PageInWindow(pages, lo, n - 1, k);
    var before, page := Held(pages, lo, k), pages[k];
    var ids := Cross(pages, s, Previous).stored.value.ids;
    r := |page| + |before|;
    assert ids == (page + before) + (page + Held(pages, k + 1, hi));
    assert ids[..r] == page + before;
    assert ids[r] == page[0] && (page + before)[0] == page[0] && (page + before)[|page| - 1] == page[|page| - 1];
  }

  /** Once a page held already was fetched again, pressing J never reaches the rest of the list: after
      J it goes round in the pages held, after K it does not even come back to page n. */
  lemma TurningTraps(pages: seq<seq<string>>, s: Nav, d: Direction, lo: nat, hi: nat, n: int, events: seq<Event>)
    requires Stable(pages) && AtEnd(pages, s, d, lo, hi, n) && n != Edge(d, lo, hi) && OneWay(events, Next)
    ensures Run(pages, Cross(pages, s, d), events).current in Reachable(pages, d, lo, hi, n)
    ensures Run(pages, Cross(pages, s, d), events).pending.None?
  {
    hide Flatten, Cross, Run, Trapped, Held, Stable;
    var t, r := Cross(pages, s, d), 0;
    if d.Next? { r := TrappedAfterNext(pages, s, lo, hi, n); } else { r := TrappedAfterPrevious(pages, s, lo, hi, n); }
    TrappedForGood(pages, t, r, events);
    NotPending(t, r);
    NotPending(Run(pages, t, events), r);
  }

  lemma TwoPages(a: string, b: string)
    ensures Flatten([[a], [b]]) == [a, b] && Held([[a], [b]], 0, 2) == [a, b]
  {
    var pages := [[a], [b]];
    HeldOne(pages, 0);
    HeldOne(pages, 1);
    HeldSplit(pages, 0, 1, 2);
    assert pages[0..2] == pages;
  }

  /** J on the only order of the first of two pages, and the answer to its fetch. */
  lemma OverTheBoundary(a: string, b: string, filters: Filters)
    requires a != b && b != ""
    ensures var pages := [[a], [b]];
            Cross(pages, Opened(pages, 0, 0, filters), Next)
                == Nav(Some(Sequence([a, b], 2, 2, filters)), b, None, [b], [])
  {
    var pages := [[a], [b]];
    var s := Opened(pages, 0, 0, filters);
    assert IndexOf([a], a) == 0;
    var t := Press(s, Next);
    assert t == s.(pending := Some(Request(Next, 2, s.stored.value)));
    assert Answer(pages, t, true) == Some(([b], 2));
    assert [a] + [b] == [a, b] && [] + [b] == [b];
  }

  /** Such a state comes up: with two pages, J over the boundary, K back to the first order and K again. */
  lemma TurningHappens(a: string, b: string, filters: Filters)
    requires a != b && a != "" && b != ""
    ensures var pages := [[a], [b]];
            var s := Run(pages, Opened(pages, 0, 0, filters), [Pressed(Next), FetchEnded(true), Pressed(Previous)]);
            && Stable(pages) && AtEnd(pages, s, Previous, 0, 2, 2)
            && Cross(pages, s, Previous).stored.Some? && Cross(pages, s, Previous).stored.value.ids == [a, a, b]
  {
    hide Flatten, Held, Opened;
    var pages, s := [[a], [b]], Opened([[a], [b]], 0, 0, filters);
    TwoPages(a, b);
    OverTheBoundary(a, b, filters);
    ThreeSteps(pages, s);
    var over := Cross(pages, s, Next);
    IndexOfAt([a, b], 1);
    assert Press(over, Previous) == Go(over, a);
    CrossingFetches(pages, Press(over, Previous), Previous, 0, 2, 2);
  }

  lemma ThreeSteps(pages: seq<seq<string>>, s: Nav)
    ensures Run(pages, s, [Pressed(Next), FetchEnded(true), Pressed(Previous)])
            == Press(Cross(pages, s, Next), Previous)
  {
    hide Press, Receive;
    var events := [Pressed(Next), FetchEnded(true), Pressed(Previous)];
    assert events[1..] == [FetchEnded(true), Pressed(Previous)] && events[1..][1..] == [Pressed(Previous)];
    assert Run(pages, s, events) == Run(pages, Press(s, Next), events[1..]);
    assert Run(pages, Press(s, Next), events[1..]) == Run(pages, Cross(pages, s, Next), events[1..][1..]);
  }
}
