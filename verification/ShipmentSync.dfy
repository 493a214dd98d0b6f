/** Matching pulled Shiprocket shipments to orders: the handler, the sync loop that records its
    failures, and what whole runs of syncs keep. */
module ShipmentSync {
  import opened Wrappers
  import opened Decimals

  // ---- text ----

  predicate StartsWith(s: string, prefix: string) {
    |prefix| <= |s| && s[..|prefix|] == prefix
  }

  predicate OccursAt(s: string, pattern: string, i: int) {
    0 <= i <= |s| - |pattern| && s[i..i + |pattern|] == pattern
  }

  predicate Contains(s: string, pattern: string) {
    exists i :: 0 <= i <= |s| - |pattern| && OccursAt(s, pattern, i)
  }

  // ---- the data ----

  datatype Source = Shopify | OtherSource

  datatype Order = Order(id: nat, number: string, source: Source, externalId: Option<string>)

  /** One normalised `/shipments` item. A missing shipment id is the empty text. */
  datatype Record = Record(externalId: string, channelOrderId: Option<string>, shiprocketOrderId: Option<string>)

  /** What a live `/orders/show` call would do now. */
  datatype Lookup =
    | NoSuchMethod
    | Fails(errorType: string, message: string)
    | Answers(channelOrderId: Option<string>, apiOrderId: Option<string>)

  datatype SyncError = SyncError(externalId: string, errorType: string, message: string)

  datatype Store = Store(orders: seq<Order>, shipments: map<string, nat>, errors: seq<SyncError>)

  datatype Match = NoMatch | One(order: nat) | Many

  datatype Strategy = ShipmentsChannelOrderId | OrdersShowChannelOrderId | OrdersShowApiOrderId

  datatype Outcome =
    | Existing(order: nat)
    | Linked(order: nat, strategy: Strategy)
    | Unmatched(message: string)
    | LookupFailed(errorType: string, message: string)
    | Crashed

  // ---- order lookups ----

  function WithNumber(orders: seq<Order>, number: string): seq<Order> {
    if orders == [] then []
    else if orders[0].number == number then [orders[0]] + WithNumber(orders[1..], number)
    else WithNumber(orders[1..], number)
  }

  function WithShopifyId(orders: seq<Order>, id: string): seq<Order> {
    if orders == [] then []
    else if orders[0].source.Shopify? && orders[0].externalId == Some(id) then
      [orders[0]] + WithShopifyId(orders[1..], id)
    else WithShopifyId(orders[1..], id)
  }

  /** `scalar_one_or_none`. */
  function OneOrNone(found: seq<Order>): Match {
    if found == [] then NoMatch else if |found| == 1 then One(found[0].id) else Many
  }

  function ResolveByChannelOrderId(orders: seq<Order>, channelOrderId: Option<string>): Match {
    if channelOrderId.None? || channelOrderId.value == "" then NoMatch
    else
      var exact := OneOrNone(WithNumber(orders, channelOrderId.value));
      if !exact.NoMatch? then exact
      else if !StartsWith(channelOrderId.value, "#") then OneOrNone(WithNumber(orders, "#" + channelOrderId.value))
      else NoMatch
  }

  /** An ambiguous external id is treated as no match. */
  function ResolveByApiOrderId(orders: seq<Order>, apiOrderId: Option<string>): Match {
    if apiOrderId.None? || apiOrderId.value == "" then NoMatch
    else
      var found := WithShopifyId(orders, apiOrderId.value);
      if |found| > 1 then NoMatch else OneOrNone(found)
  }

  // ---- error texts and the memory they form ----

  const PREFIX := "No OMS order found for" + " " + "Shiprocket shipment"
  const HEAD := PREFIX + " (channel_order_id"
  const MARKER := "orders_show_lookup_failed"
  const MULTIPLE_ROWS := "Multiple rows were found " + "when one or none was required"
  const VALIDATION_ERROR := "validation_error"

  function Repr(s: Option<string>): string {
    if s.Some? then "'" + s.value + "'" else "None"
  }

  function Tail(skipped: bool): string {
    if skipped then ". [already confirmed" + " " + ("unmatched on a previous" + " " + "sync]") else "."
  }

  function NotFoundMessage(channelOrderId: Option<string>, skipped: bool): string {
    HEAD + "=" + Repr(channelOrderId) + ")" + Tail(skipped)
  }

  function Truncated(s: string): string {
    if |s| > 1000 then s[..1000] else s
  }

  function Latest(errors: seq<SyncError>, externalId: string): Option<SyncError> {
    if errors == [] then None
    else if errors[|errors| - 1].externalId == externalId then Some(errors[|errors| - 1])
    else Latest(errors[..|errors| - 1], externalId)
  }

  /** Does this error record say that a live check was completed and found nothing? */
  predicate ConfirmsUnmatched(errorType: string, message: string) {
    errorType == VALIDATION_ERROR && StartsWith(message, PREFIX) && !Contains(message, MARKER)
  }

  predicate AlreadyConfirmed(s: Store, externalId: string) {
    externalId != ""
    && var prior := Latest(s.errors, externalId);
       prior.Some? && ConfirmsUnmatched(prior.value.errorType, prior.value.message)
  }

  // ---- the handler ----

  predicate Known(s: Store, externalId: string) {
    externalId != "" && externalId in s.shipments
  }

  /** Neither the shipment itself nor the id on the record says which order it belongs to. */
  predicate Unresolved(s: Store, r: Record) {
    !Known(s, r.externalId) && ResolveByChannelOrderId(s.orders, r.channelOrderId).NoMatch?
  }

  predicate HasOrderId(r: Record) {
    r.shiprocketOrderId.Some? && r.shiprocketOrderId.value != ""
  }

  /** Does handling this record make a live call? */
  predicate CallsLive(s: Store, r: Record, lookup: Lookup) {
    Unresolved(s, r) && HasOrderId(r) && !AlreadyConfirmed(s, r.externalId) && !lookup.NoSuchMethod?
  }

  function AfterAnswer(s: Store, r: Record, lookup: Lookup): Outcome
    requires lookup.Answers?
  {
    var shown := if lookup.channelOrderId.Some? then lookup.channelOrderId else r.channelOrderId;
    match ResolveByChannelOrderId(s.orders, lookup.channelOrderId)
    case Many => Crashed
    case One(o) => Linked(o, OrdersShowChannelOrderId)
    case NoMatch =>
      match ResolveByApiOrderId(s.orders, lookup.apiOrderId)
      case One(o) => Linked(o, OrdersShowApiOrderId)
      case _ => Unmatched(NotFoundMessage(shown, false))
  }

  function Handle(s: Store, r: Record, lookup: Lookup): Outcome {
    if Known(s, r.externalId) then Existing(s.shipments[r.externalId])
    else
      match ResolveByChannelOrderId(s.orders, r.channelOrderId)
      case Many => Crashed
      case One(o) => Linked(o, ShipmentsChannelOrderId)
      case NoMatch =>
        if !HasOrderId(r) then Unmatched(NotFoundMessage(r.channelOrderId, false))
        else if AlreadyConfirmed(s, r.externalId) then Unmatched(NotFoundMessage(r.channelOrderId, true))
        else match lookup
          case NoSuchMethod => Unmatched(NotFoundMessage(r.channelOrderId, false))
          case Fails(errorType, message) => LookupFailed(errorType, message)
          case Answers(_, _) => AfterAnswer(s, r, lookup)
  }

  /** The sync loop around one record: an upsert on success, one error row on failure. */
  function Sync(s: Store, r: Record, lookup: Lookup): Store {
    match Handle(s, r, lookup)
    case Existing(o) => s.(shipments := s.shipments[r.externalId := o])
    case Linked(o, _) => s.(shipments := s.shipments[r.externalId := o])
    case Unmatched(message) => WithError(s, r.externalId, VALIDATION_ERROR, message)
    case LookupFailed(errorType, message) => WithError(s, r.externalId, errorType, message)
    case Crashed => WithError(s, r.externalId, VALIDATION_ERROR, MULTIPLE_ROWS)
  }

  // ---- runs ----

  /** A record that is handled; one that is handled and then cannot be stored; any other failure
      recorded about a shipment, such as a record that cannot be normalised, where nothing was looked
      up; and, in between, the orders table becoming anything. */
  datatype Event =
    | OneRecord(record: Record, lookup: Lookup)
    | StoreFails(record: Record, lookup: Lookup, errorType: string, message: string)
    | OtherError(id: string, errorType: string, message: string)
    | OrdersBecome(orders: seq<Order>)

  /** The shipment that the event is about. */
  function Subject(e: Event): Option<string> {
    match e
    case OneRecord(r, _) => Some(r.externalId)
    case StoreFails(r, _, _, _) => Some(r.externalId)
    case OtherError(id, _, _) => Some(id)
    case OrdersBecome(_) => None
  }

  predicate Handles(e: Event) {
    e.OneRecord? || e.StoreFails?
  }

  function WithError(s: Store, externalId: string, errorType: string, message: string): Store {
    s.(errors := s.errors + [SyncError(externalId, errorType, Truncated(message))])
  }

  predicate Stores(outcome: Outcome) {
    outcome.Existing? || outcome.Linked?
  }

  function Step(s: Store, e: Event): Store {
    match e
    case OneRecord(r, lookup) => Sync(s, r, lookup)
    case StoreFails(r, lookup, errorType, message) =>
      if Stores(Handle(s, r, lookup)) then WithError(s, r.externalId, errorType, message) else Sync(s, r, lookup)
    case OtherError(id, errorType, message) => WithError(s, id, errorType, message)
    case OrdersBecome(orders) => s.(orders := orders)
  }

  function Run(s: Store, events: seq<Event>): Store
    decreases |events|
  {
    if events == [] then s else Run(Step(s, events[0]), events[1..])
  }

  predicate Completes(s: Store, e: Event, x: string) {
    Handles(e) && e.record.externalId == x && CallsLive(s, e.record, e.lookup) && e.lookup.Answers?
  }

  /** How many live lookups for shipment x a run completes. */
  function Completed(s: Store, events: seq<Event>, x: string): nat
    decreases |events|
  {
    if events == [] then 0
    else (if Completes(s, events[0], x) then 1 else 0) + Completed(Step(s, events[0]), events[1..], x)
  }

  // ---- text lemmas ----

  lemma OccurrenceAt(s: string, pattern: string, i: int, p: int)
    ensures OccursAt(s, pattern, i) && i <= p < i + |pattern| ==> s[p] == pattern[p - i]
  {
    assert OccursAt(s, pattern, i) && i <= p < i + |pattern| ==> s[i..i + |pattern|][p - i] == s[p];
  }

  /** Where a pattern occurs in two texts put together, with none of it across the seam. */
  lemma OccursInOne(a: string, b: string, pattern: string, i: nat)
    ensures i + |pattern| <= |a| ==> (OccursAt(a + b, pattern, i) <==> OccursAt(a, pattern, i))
    ensures OccursAt(a + b, pattern, |a| + i) <==> OccursAt(b, pattern, i)
  {
    if i + |pattern| <= |a| { assert (a + b)[i..i + |pattern|] == a[i..i + |pattern|]; }
    if i + |pattern| <= |b| { assert (a + b)[|a| + i..|a| + i + |pattern|] == b[i..i + |pattern|]; }
  }

  lemma ContainsAcross(a: string, sep: char, b: string)
    requires sep !in MARKER
    ensures Contains(a + [sep] + b, MARKER) <==> Contains(a, MARKER) || Contains(b, MARKER)
  {
    hide OccursAt;
    SeamedContains(a, sep, b, MARKER);
  }

  lemma SeamedContains(a: string, sep: char, b: string, pattern: string)
    requires sep !in pattern && pattern != ""
    ensures Contains(a + [sep] + b, pattern) <==> Contains(a, pattern) || Contains(b, pattern)
  {
    var front := a + [sep];
    var s := front + b;
    if Contains(s, pattern) {
      var i :| 0 <= i <= |s| - |pattern| && OccursAt(s, pattern, i);
      OccurrenceAt(s, pattern, i, |a|);
      if i + |pattern| <= |a| {
        OccursInOne(front, b, pattern, i);
        OccursInOne(a, [sep], pattern, i);
      } else {
        OccursInOne(front, b, pattern, i - |front|);
      }
    }
    if Contains(a, pattern) {
      var i :| 0 <= i <= |a| - |pattern| && OccursAt(a, pattern, i);
      OccursInOne(a, [sep], pattern, i);
      OccursInOne(front, b, pattern, i);
    }
    if Contains(b, pattern) {
      var i :| 0 <= i <= |b| - |pattern| && OccursAt(b, pattern, i);
      OccursInOne(front, b, pattern, i);
    }
  }

  predicate MarkerFree(c: Option<string>) {
    c.Some? ==> !Contains(c.value, MARKER)
  }

  lemma TailMarkerFree(skipped: bool)
    ensures !Contains(Tail(skipped), MARKER)
  {
    var a, b, c := ". [already confirmed", "unmatched on a previous", "sync]";
    ContainsAcross(b, ' ', c);
    ContainsAcross(a, ' ', b + [' '] + c);
    assert skipped ==> Tail(skipped) == a + [' '] + (b + [' '] + c);
  }

  lemma HeadMarkerFree()
    ensures !Contains(HEAD, MARKER)
  {
    var a, b, c := "No OMS order found for", "Shiprocket shipment", "(channel_order_id";
    ContainsAcross(b, ' ', c);
    ContainsAcross(a, ' ', b + [' '] + c);
    assert HEAD == a + [' '] + (b + [' '] + c);
  }

  lemma ReprMarker(c: Option<string>)
    ensures Contains(Repr(c), MARKER) <==> !MarkerFree(c)
  {
    if c.Some? {
      assert Repr(c) == "" + ['\''] + (c.value + ['\''] + "");
      ContainsAcross("", '\'', c.value + ['\''] + "");
      ContainsAcross(c.value, '\'', "");
    }
  }

  /** A "no order found" message carries the marker exactly when the channel order id does. */
  lemma MessageMarker(c: Option<string>, skipped: bool)
    ensures Contains(NotFoundMessage(c, skipped), MARKER) <==> !MarkerFree(c)
  {
    hide Contains, Tail, Repr;
    var head, tail := HEAD, Repr(c) + [')'] + Tail(skipped);
    assert NotFoundMessage(c, skipped) == head + ['='] + tail;
    HeadMarkerFree();
    ReprMarker(c);
    TailMarkerFree(skipped);
    ContainsAcross(head, '=', tail);
    ContainsAcross(Repr(c), ')', Tail(skipped));
  }

  lemma MessagePrefix(c: Option<string>, skipped: bool)
    ensures StartsWith(Truncated(NotFoundMessage(c, skipped)), PREFIX)
    ensures MarkerFree(c) ==> ConfirmsUnmatched(VALIDATION_ERROR, Truncated(NotFoundMessage(c, skipped)))
  {
    hide Truncated, Contains, StartsWith;
    MessageBegins(c, skipped);
    TruncatedBegins(NotFoundMessage(c, skipped), PREFIX);
    MessageMarker(c, skipped);
    TruncatedContains(NotFoundMessage(c, skipped), MARKER);
  }

  lemma MessageBegins(c: Option<string>, skipped: bool)
    ensures StartsWith(NotFoundMessage(c, skipped), PREFIX)
  {
    hide Repr, Tail;
    Begins(PREFIX, " (channel_order_id", "=", Repr(c), ")", Tail(skipped));
  }

  lemma Begins(a: string, b: string, c: string, d: string, e: string, f: string)
    ensures StartsWith(a + b + c + d + e + f, a)
  {
  }

  lemma TruncatedBegins(m: string, prefix: string)
    requires StartsWith(m, prefix) && |prefix| <= 1000
    ensures StartsWith(Truncated(m), prefix)
  {
    assert Truncated(m)[..|prefix|] == m[..|prefix|];
  }

  lemma TruncatedContains(m: string, pattern: string)
    ensures Contains(Truncated(m), pattern) ==> Contains(m, pattern)
  {
    if Contains(Truncated(m), pattern) {
      var i :| 0 <= i <= |Truncated(m)| - |pattern| && OccursAt(Truncated(m), pattern, i);
      assert m[i..i + |pattern|] == Truncated(m)[i..i + |pattern|];
      assert OccursAt(m, pattern, i);
    }
  }

  // ---- how often a live lookup runs ----

  predicate NumbersUnique(orders: seq<Order>) {
    forall i, j :: 0 <= i < j < |orders| ==> orders[i].number != orders[j].number
  }

  lemma {:induction false} AtMostOneNumber(orders: seq<Order>, number: string)
    requires NumbersUnique(orders)
    ensures |WithNumber(orders, number)| <= 1
    ensures (forall o :: o in orders ==> o.number != number) ==> WithNumber(orders, number) == []
  {
    if orders != [] {
      AtMostOneNumber(orders[1..], number);
      assert orders[0].number == number ==> forall o :: o in orders[1..] ==> o.number != number;
    }
  }

  lemma NeverMany(orders: seq<Order>, c: Option<string>)
    requires NumbersUnique(orders)
    ensures !ResolveByChannelOrderId(orders, c).Many?
  {
    if c.Some? {
      AtMostOneNumber(orders, c.value);
      AtMostOneNumber(orders, "#" + c.value);
    }
  }

  /** Order numbers stay unique, and no text about x carries the marker. */
  predicate Tame(e: Event, x: string) {
    && (e.OrdersBecome? ==> NumbersUnique(e.orders))
    && (Handles(e) && e.record.externalId == x ==>
          MarkerFree(e.record.channelOrderId) && (e.lookup.Answers? ==> MarkerFree(e.lookup.channelOrderId)))
  }

  /** An error row that does not read like a completed non-match may take the memory's place. */
  predicate Disturbs(e: Event, x: string) {
    && (e.StoreFails? || e.OtherError?) && Subject(e) == Some(x)
    && !ConfirmsUnmatched(e.errorType, Truncated(e.message))
  }

  function Disturbances(events: seq<Event>, x: string): nat {
    if events == [] then 0 else (if Disturbs(events[0], x) then 1 else 0) + Disturbances(events[1..], x)
  }

  /** Nothing is looked up for x. */
  predicate Settled(s: Store, x: string) {
    Known(s, x) || AlreadyConfirmed(s, x)
  }

  lemma LatestAppended(errors: seq<SyncError>, e: SyncError, x: string)
    ensures Latest(errors + [e], x) == if e.externalId == x then Some(e) else Latest(errors, x)
  {
    assert (errors + [e])[..|errors|] == errors;
  }

  /** An event about something else leaves everything about x as it was. */
  lemma OthersLeaveX(s: Store, e: Event, x: string)
    requires Subject(e) != Some(x)
    ensures Latest(Step(s, e).errors, x) == Latest(s.errors, x)
    ensures x in Step(s, e).shipments <==> x in s.shipments
    ensures x in s.shipments ==> Step(s, e).shipments[x] == s.shipments[x]
  {
    hide Handle, Truncated;
    if Step(s, e).errors != s.errors {
      var added := Step(s, e).errors[|s.errors|];
      LatestAppended(s.errors, added, x);
      assert Step(s, e).errors == s.errors + [added];
    }
  }

  lemma UnmatchedConfirms(s: Store, r: Record, lookup: Lookup, c: Option<string>, skipped: bool)
    requires r.externalId != "" && MarkerFree(c)
    requires Handle(s, r, lookup) == Unmatched(NotFoundMessage(c, skipped))
    ensures AlreadyConfirmed(Sync(s, r, lookup), r.externalId)
  {
    var e := SyncError(r.externalId, VALIDATION_ERROR, Truncated(NotFoundMessage(c, skipped)));
    LatestAppended(s.errors, e, r.externalId);
    MessagePrefix(c, skipped);
  }

  lemma ErrorDecidesMemory(s: Store, x: string, errorType: string, message: string)
    requires x != ""
    ensures AlreadyConfirmed(WithError(s, x, errorType, message), x) <==>
              ConfirmsUnmatched(errorType, Truncated(message))
    ensures Known(WithError(s, x, errorType, message), x) <==> Known(s, x)
  {
    hide ConfirmsUnmatched, Truncated;
    LatestAppended(s.errors, SyncError(x, errorType, Truncated(message)), x);
  }

  /** Handling a record settles the shipment if it was settled before or the lookup completes. */
  lemma SyncSettles(s: Store, r: Record, lookup: Lookup)
    requires r.externalId != "" && NumbersUnique(s.orders) && Tame(OneRecord(r, lookup), r.externalId)
    requires Settled(s, r.externalId) || (CallsLive(s, r, lookup) && lookup.Answers?)
    ensures Settled(Sync(s, r, lookup), r.externalId)
  {
    hide ConfirmsUnmatched, NotFoundMessage, Truncated;
    NeverMany(s.orders, r.channelOrderId);
    if lookup.Answers? { NeverMany(s.orders, lookup.channelOrderId); }
    match Handle(s, r, lookup) {
      case Unmatched(message) =>
        var asked := CallsLive(s, r, lookup) && lookup.Answers? && lookup.channelOrderId.Some?;
        UnmatchedConfirms(s, r, lookup, if asked then lookup.channelOrderId else r.channelOrderId,
                          HasOrderId(r) && AlreadyConfirmed(s, r.externalId));
      case _ =>
    }
  }

  function Unsettled(s: Store, x: string): nat {
    if Settled(s, x) then 0 else 1
  }

  /** A lookup completes only for an unsettled shipment and settles it; only a disturbance unsettles. */
  lemma StepBound(s: Store, e: Event, x: string)
    requires x != "" && NumbersUnique(s.orders) && Tame(e, x)
    ensures (if Completes(s, e, x) then 1 else 0) + Unsettled(Step(s, e), x)
            <= Unsettled(s, x) + if Disturbs(e, x) then 1 else 0
  {
    hide ConfirmsUnmatched, NotFoundMessage, Truncated, Handle, Sync, Latest;
    if Subject(e) != Some(x) {
      OthersLeaveX(s, e, x);
    } else {
      if Completes(s, e, x) { SettledNeverCompletes(s, e, x); }
      if Handles(e) && (Settled(s, x) || Completes(s, e, x)) { SyncSettles(s, e.record, e.lookup); }
      if e.StoreFails? || e.OtherError? { ErrorDecidesMemory(s, x, e.errorType, e.message); }
    }
  }

  /** Over every run of syncs with the orders table changing at will, a live lookup completes at most
      once more often than error rows about the shipment take the place of its memory; and without
      such rows a shipment that is settled, or was looked up, stays settled for good. */
  lemma {:induction false} LookupsAtMostOnce(s: Store, events: seq<Event>, x: string)
    requires x != "" && NumbersUnique(s.orders) && forall e :: e in events ==> Tame(e, x)
    ensures Completed(s, events, x) + Unsettled(Run(s, events), x) <= Unsettled(s, x) + Disturbances(events, x)
    decreases |events|
  {
    hide Unsettled, Step, Completes, Disturbs, NumbersUnique;
    if events != [] {
      StepBound(s, events[0], x);
      NumbersStayUnique(s, events[0], x);
      LookupsAtMostOnce(Step(s, events[0]), events[1..], x);
    }
  }

  lemma SettledNeverCompletes(s: Store, e: Event, x: string)
    requires x != ""
    ensures Settled(s, x) ==> !Completes(s, e, x)
  {
  }

  lemma NumbersStayUnique(s: Store, e: Event, x: string)
    requires NumbersUnique(s.orders) && Tame(e, x)
    ensures NumbersUnique(Step(s, e).orders)
  {
    hide Handle;
  }

  /** One error row of any other origin keeps or makes the memory exactly when it reads like a completed
      non-match: a validation error that begins so, without the marker of a failed lookup. */
  lemma OtherErrorDecidesMemory(s: Store, x: string, errorType: string, message: string)
    requires x != ""
    ensures AlreadyConfirmed(Step(s, OtherError(x, errorType, message)), x) <==>
              && errorType == VALIDATION_ERROR
              && StartsWith(Truncated(message), PREFIX) && !Contains(Truncated(message), MARKER)
  {
    hide Truncated, Contains, StartsWith;
    ErrorDecidesMemory(s, x, errorType, message);
  }

  /** n times a record that finds nothing and then another error about the same shipment. */
  function Alternating(r: Record, e: Event, n: nat): seq<Event> {
    if n == 0 then [] else [OneRecord(r, Answers(None, None)), e] + Alternating(r, e, n - 1)
  }

  /** The bound is reached: with other errors in between, n + 1 syncs complete n + 1 lookups. */
  lemma {:induction false} ForgottenEveryTime(s: Store, r: Record, e: Event, n: nat)
    requires r.externalId != "" && HasOrderId(r) && r.channelOrderId.None?
    requires s.orders == [] && !Known(s, r.externalId) && !AlreadyConfirmed(s, r.externalId)
    requires e.OtherError? && Disturbs(e, r.externalId)
    ensures var events := Alternating(r, e, n) + [OneRecord(r, Answers(None, None))];
            Completed(s, events, r.externalId) == n + 1 && Disturbances(events, r.externalId) == n
    decreases n
  {
    hide ConfirmsUnmatched, NotFoundMessage, Truncated, AlreadyConfirmed, MarkerFree;
    var one := OneRecord(r, Answers(None, None));
    var x, events := r.externalId, Alternating(r, e, n) + [one];
    var t := Step(s, one);
    if n == 0 {
      assert events == [one] && events[1..] == [];
    } else {
      assert events[0] == one && events[1..][0] == e;
      assert events[1..][1..] == Alternating(r, e, n - 1) + [one];
      ErrorDecidesMemory(t, x, e.errorType, e.message);
      ForgottenEveryTime(Step(t, e), r, e, n - 1);
      assert Completed(s, events, x) == 1 + Completed(t, events[1..], x);
      assert Completed(t, events[1..], x) == Completed(Step(t, e), events[1..][1..], x);
    }
  }

  /** For example a status that is not a text, which the normaliser cannot strip. */
  lemma UnreadableStatusForgets(s: Store, n: nat)
    requires s == Store([], map[], [])
    ensures var r := Record("7", None, Some("9"));
            var e := OtherError("7", VALIDATION_ERROR, "'int' object has no attribute 'strip'");
            Completed(s, Alternating(r, e, n) + [OneRecord(r, Answers(None, None))], "7") == n + 1
  {
    var text := "'int' object has no attribute 'strip'";
    assert text[0] == '\'' && PREFIX[0] == 'N' && Truncated(text) == text;
    OccurrenceAt(text, PREFIX, 0, 0);
    ForgottenEveryTime(s, Record("7", None, Some("9")), OtherError("7", VALIDATION_ERROR, text), n);
  }

  // ---- when the lookup is skipped, one has been completed ----

  /** Every record of x carries an order id, the adapter can look orders up, and no failure of a
      lookup or of anything else says what a completed lookup says. */
  predicate Conclusive(e: Event, x: string) {
    && (Handles(e) && e.record.externalId == x ==>
          && HasOrderId(e.record) && !e.lookup.NoSuchMethod?
          && (e.lookup.Fails? ==> !ConfirmsUnmatched(e.lookup.errorType, Truncated(e.lookup.message))))
    && ((e.StoreFails? || e.OtherError?) && Subject(e) == Some(x) ==> Disturbs(e, x))
  }

  lemma SyncConfirmsOnlyByLookup(s: Store, r: Record, lookup: Lookup)
    requires r.externalId != "" && !AlreadyConfirmed(s, r.externalId) && Conclusive(OneRecord(r, lookup), r.externalId)
    requires !(CallsLive(s, r, lookup) && lookup.Answers?)
    ensures !AlreadyConfirmed(Sync(s, r, lookup), r.externalId)
  {
    hide Contains, ResolveByChannelOrderId, ResolveByApiOrderId, NotFoundMessage, Truncated, MarkerFree;
    var t := Sync(s, r, lookup);
    if t.errors != s.errors {
      var added := t.errors[|s.errors|];
      LatestAppended(s.errors, added, r.externalId);
      assert t.errors == s.errors + [added];
      CrashesAreInconclusive();
    }
  }

  lemma CrashesAreInconclusive()
    ensures !ConfirmsUnmatched(VALIDATION_ERROR, Truncated(MULTIPLE_ROWS))
  {
    assert MULTIPLE_ROWS[0] == 'M' && PREFIX[0] == 'N';
    assert Truncated(MULTIPLE_ROWS)[0] == MULTIPLE_ROWS[0];
    OccurrenceAt(Truncated(MULTIPLE_ROWS), PREFIX, 0, 0);
  }

  lemma OnlyCompletionConfirms(s: Store, e: Event, x: string)
    requires x != "" && !AlreadyConfirmed(s, x) && Conclusive(e, x) && !Completes(s, e, x)
    ensures !AlreadyConfirmed(Step(s, e), x)
  {
    hide ConfirmsUnmatched, NotFoundMessage, Truncated, Handle, Sync, Latest, MarkerFree;
    if Subject(e) != Some(x) {
      OthersLeaveX(s, e, x);
    } else {
      if Handles(e) { SyncConfirmsOnlyByLookup(s, e.record, e.lookup); }
      if e.StoreFails? || e.OtherError? { ErrorDecidesMemory(s, x, e.errorType, e.message); }
    }
  }

  lemma {:induction false} SkipsAreEarned(s: Store, events: seq<Event>, x: string)
    requires x != "" && !AlreadyConfirmed(s, x) && forall e :: e in events ==> Conclusive(e, x)
    ensures AlreadyConfirmed(Run(s, events), x) ==> Completed(s, events, x) > 0
    decreases |events|
  {
    hide AlreadyConfirmed, Step, Completes;
    if events != [] && !Completes(s, events[0], x) {
      OnlyCompletionConfirms(s, events[0], x);
      SkipsAreEarned(Step(s, events[0]), events[1..], x);
    }
  }

  /** Over any run of syncs of a new shipment, with the orders table changing at will: a live lookup
      completes at most once more often than other error rows replace the memory, so at most once
      without them; a lookup is skipped only after one was completed; without other error rows the
      shipment is linked or remembered for good once one was; and until one was, every sync of the
      unresolved shipment looks it up. */
  lemma NewShipmentLookups(s: Store, events: seq<Event>, x: string)
    requires x != "" && NumbersUnique(s.orders) && !Known(s, x) && Latest(s.errors, x).None?
    requires forall e :: e in events ==> Tame(e, x) && Conclusive(e, x)
    ensures var t := Run(s, events);
            && Completed(s, events, x) <= 1 + Disturbances(events, x)
            && (AlreadyConfirmed(t, x) ==> Completed(s, events, x) > 0)
            && (Disturbances(events, x) == 0 && Completed(s, events, x) == 1 ==> Settled(t, x))
            && (forall r: Record, lookup: Lookup :: r.externalId == x && Completed(s, events, x) == 0 ==>
                  (CallsLive(t, r, lookup) <==> Unresolved(t, r) && HasOrderId(r) && !lookup.NoSuchMethod?))
  {
    hide Step;
    LookupsAtMostOnce(s, events, x);
    SkipsAreEarned(s, events, x);
  }

  lemma {:induction false} RunLeavesX(s: Store, events: seq<Event>, x: string)
    requires forall e :: e in events ==> Subject(e) != Some(x)
    ensures Latest(Run(s, events).errors, x) == Latest(s.errors, x)
    ensures x in Run(s, events).shipments <==> x in s.shipments
    decreases |events|
  {
    if events != [] {
      OthersLeaveX(s, events[0], x);
      RunLeavesX(Step(s, events[0]), events[1..], x);
    }
  }

  /** A lookup that could not complete is tried again on the shipment's next sync exactly when its
      error record does not read like a completed non-match: when it is no validation error, begins
      otherwise, or carries the marker. */
  lemma FailedLookupRetried(s: Store, r: Record, lookup: Lookup, between: seq<Event>, next: Record, answer: Lookup)
    requires r.externalId != "" && next.externalId == r.externalId && lookup.Fails?
    requires CallsLive(s, r, lookup)
    requires forall e :: e in between ==> Subject(e) != Some(r.externalId)
    requires var t := Run(Sync(s, r, lookup), between);
             Unresolved(t, next) && HasOrderId(next) && !answer.NoSuchMethod?
    ensures CallsLive(Run(Sync(s, r, lookup), between), next, answer) <==>
              || lookup.errorType != VALIDATION_ERROR
              || !StartsWith(Truncated(lookup.message), PREFIX) || Contains(Truncated(lookup.message), MARKER)
  {
    var e := SyncError(r.externalId, lookup.errorType, Truncated(lookup.message));
    LatestAppended(s.errors, e, r.externalId);
    RunLeavesX(Sync(s, r, lookup), between, r.externalId);
  }

  // ---- the adapter's failures ----

  /** What a REST call to Shiprocket can end with, after its own retries. */
  datatype ApiFailure = Status(code: nat) | LoginWithoutToken | Timeout | Network(text: string)

  const SERVICE := "Shiprocket "
  const ENDPOINT := "GET /orders/show "

  function ApiMessage(f: ApiFailure): string {
    match f
    case LoginWithoutToken => SERVICE + "login response did not include a token."
    case Timeout => "Timed out contacting Shiprocket."
    case Network(text) => "Network error contacting Shiprocket: " + text
    case Status(code) =>
      if code == 401 then SERVICE + "rejected the credentials/token (authentication failed)."
      else if code == 403 then SERVICE + "account lacks permission for this operation."
      else if code == 422 then SERVICE + "rejected the request payload (validation error)."
      else if code == 429 then SERVICE + "rate limit exceeded (429)."
      else if 500 <= code < 600 then SERVICE + "API returned a server error (" + Digits(code) + ")."
      else SERVICE + "API returned an unexpected status (" + Digits(code) + ")."
  }

  function ApiErrorType(f: ApiFailure): string {
    match f
    case LoginWithoutToken => "authentication_error"
    case Timeout => "timeout"
    case Network(_) => "network_error"
    case Status(code) =>
      if code == 401 then "authentication_error"
      else if code == 403 then "authorization_error"
      else if code == 422 then VALIDATION_ERROR
      else if code == 429 then "http_429"
      else if code == 500 || code == 502 || code == 503 || code == 504 then "http_" + Digits(code)
      else if 500 <= code < 600 then "http_500"
      else "permanent_error"
  }

  /** What `get_order` meets: no configuration, a failing call, or an answer. */
  datatype Attempt =
    | NotConfigured
    | CallFails(failure: ApiFailure)
    | CallAnswers(channelOrderId: Option<string>, apiOrderId: Option<string>)

  const BLOCKED := ENDPOINT + "is not accessible to this Shiprocket API user ("
  const GRANT := ") \U{2014} grant this API user access to the Orders module in Shiprocket's dashboard, "
                 + "then redeploy/restart the worker to clear this block and retry."
  const NOT_CONFIGURED := SERVICE + "integration is not configured (missing SHIPROCKET_EMAIL/SHIPROCKET_PASSWORD)."

  /** `get_order`, with the reason it keeps once an authorization failure has blocked the endpoint. */
  function GetOrder(blocked: Option<string>, attempt: Attempt): (Lookup, Option<string>) {
    if blocked.Some? then (Fails("authorization_error", blocked.value), blocked)
    else match attempt
      case NotConfigured => (Fails("not_configured", NOT_CONFIGURED), None)
      case CallAnswers(channelOrderId, apiOrderId) => (Answers(channelOrderId, apiOrderId), None)
      case CallFails(f) =>
        (Fails(ApiErrorType(f), ApiMessage(f)),
         if ApiErrorType(f) == "authorization_error" || ApiErrorType(f) == "authentication_error"
         then Some(BLOCKED + ApiMessage(f) + GRANT) else None)
  }

  /** The block that is in force after these calls in one process. */
  function BlockedAfter(attempts: seq<Attempt>): Option<string> {
    if attempts == [] then None
    else GetOrder(BlockedAfter(attempts[..|attempts| - 1]), attempts[|attempts| - 1]).1
  }

  /** The endpoint is blocked exactly once a call was refused for want of authorization, and stays so: every
      later lookup fails as such, without a call. */
  lemma {:induction false} BlockedExact(attempts: seq<Attempt>, attempt: Attempt)
    ensures BlockedAfter(attempts).Some? <==>
              exists k :: 0 <= k < |attempts| && attempts[k].CallFails?
                          && attempts[k].failure in {Status(401), Status(403), LoginWithoutToken}
    ensures BlockedAfter(attempts).Some? ==>
              GetOrder(BlockedAfter(attempts), attempt).0 == Fails("authorization_error", BlockedAfter(attempts).value)
    ensures BlockedAfter(attempts).None? && attempt.CallAnswers? ==>
              GetOrder(BlockedAfter(attempts), attempt).0 == Answers(attempt.channelOrderId, attempt.apiOrderId)
  {
    hide ApiMessage, ApiErrorType;
    if attempts != [] {
      var n := |attempts| - 1;
      BlockedExact(attempts[..n], attempts[n]);
      assert forall k :: 0 <= k < n ==> attempts[..n][k] == attempts[k];
      if attempts[n].CallFails? { ErrorTypesExact(attempts[n].failure); }
    }
  }

  /** Only a 422 is recorded as a validation error, and only these three as lacking authorization. */
  lemma ErrorTypesExact(f: ApiFailure)
    ensures ApiErrorType(f) == VALIDATION_ERROR <==> f == Status(422)
    ensures ApiErrorType(f) == "authorization_error" || ApiErrorType(f) == "authentication_error" <==>
              f in {Status(401), Status(403), LoginWithoutToken}
  {
    if f.Status? && (f.code == 500 || f.code == 502 || f.code == 503 || f.code == 504) {
      assert ApiErrorType(f)[0] == 'h';
    }
  }

  /** No text that begins otherwise than "No" reads like a completed non-match. */
  predicate BeginsOtherwise(s: string) {
    |s| >= 2 && (s[0] != 'N' || s[1] != 'o')
  }

  lemma OtherBeginningsAreInconclusive(errorType: string, message: string)
    requires BeginsOtherwise(message)
    ensures !ConfirmsUnmatched(errorType, Truncated(message))
  {
    assert PREFIX[0] == 'N' && PREFIX[1] == 'o';
    assert Truncated(message)[0] == message[0] && Truncated(message)[1] == message[1];
    OccurrenceAt(Truncated(message), PREFIX, 0, 0);
    OccurrenceAt(Truncated(message), PREFIX, 0, 1);
  }

  lemma ApiMessagesBeginOtherwise(f: ApiFailure)
    ensures BeginsOtherwise(ApiMessage(f))
  {
    hide Digits;
  }

  lemma BlocksBeginOtherwise(attempts: seq<Attempt>)
    ensures BlockedAfter(attempts).Some? ==> BeginsOtherwise(BlockedAfter(attempts).value)
  {
    hide ApiMessage, ApiErrorType, BeginsOtherwise;
    if attempts != [] {
      BlocksBeginOtherwise(attempts[..|attempts| - 1]);
      forall f: ApiFailure ensures BeginsOtherwise(BLOCKED + ApiMessage(f) + GRANT) {
        BlockBeginsOtherwise(ApiMessage(f));
      }
    }
  }

  lemma BlockBeginsOtherwise(reason: string)
    ensures BeginsOtherwise(BLOCKED + reason + GRANT)
  {
    assert (BLOCKED + reason + GRANT)[0] == BLOCKED[0] == 'G';
  }

  /** Whatever the adapter's calls met before in its process, a lookup it fails never reads like a
      completed non-match, so the shipment is looked up again. */
  lemma AdapterFailuresAreInconclusive(attempts: seq<Attempt>, attempt: Attempt)
    ensures var lookup := GetOrder(BlockedAfter(attempts), attempt).0;
            lookup.Fails? ==> !ConfirmsUnmatched(lookup.errorType, Truncated(lookup.message))
  {
    hide ApiMessage, ApiErrorType, BeginsOtherwise, ConfirmsUnmatched, Truncated, BlockedAfter;
    var lookup := GetOrder(BlockedAfter(attempts), attempt).0;
    BlocksBeginOtherwise(attempts);
    NotConfiguredBeginsOtherwise();
    if attempt.CallFails? { ApiMessagesBeginOtherwise(attempt.failure); }
    if lookup.Fails? { OtherBeginningsAreInconclusive(lookup.errorType, lookup.message); }
  }

  lemma NotConfiguredBeginsOtherwise()
    ensures BeginsOtherwise(NOT_CONFIGURED)
  {
    assert NOT_CONFIGURED[0] == 'S';
  }

  // ---- when the memory fails ----

  /** The shown channel order id as far as the error table keeps it. */
  function StoredId(c: Option<string>): string {
    var room := 1000 - |HEAD| - 2;
    if c.None? then "" else if |c.value| > room then c.value[..room] else c.value
  }

  /** What follows the id, as far as the error table keeps it. */
  function StoredTail(c: Option<string>): string
    requires c.Some?
  {
    var rest := "'" + (")" + ".");
    if |HEAD| + 2 + |c.value| + |rest| <= 1000 then rest
    else if |HEAD| + 2 + |c.value| >= 1000 then ""
    else rest[..1000 - |HEAD| - 2 - |c.value|]
  }

  lemma QuotedIdTruncates(head: string, id: string, rest: string, n: nat)
    requires |head| + 2 <= n
    ensures var m := head + ['='] + (['\''] + id + rest);
            var stored := if |id| > n - |head| - 2 then id[..n - |head| - 2] else id;
            var tail := if |head| + 2 + |id| + |rest| <= n then rest
                        else if |head| + 2 + |id| >= n then "" else rest[..n - |head| - 2 - |id|];
            (if |m| > n then m[..n] else m) == head + ['='] + (['\''] + stored + tail)
  {
  }

  lemma QuotedIdMarker(head: string, id: string, tail: string)
    requires !Contains(head, MARKER) && |tail| < |MARKER| && (tail == "" || tail[0] == '\'')
    ensures Contains(head + ['='] + (['\''] + id + tail), MARKER) <==> Contains(id, MARKER)
  {
    hide Contains;
    ContainsAcross(head, '=', ['\''] + id + tail);
    assert ['\''] + id + tail == [] + ['\''] + (id + tail);
    ContainsAcross([], '\'', id + tail);
    ShortHasNoMarker("");
    if tail == "" {
      assert id + tail == id;
    } else {
      assert id + tail == id + ['\''] + tail[1..];
      ContainsAcross(id, '\'', tail[1..]);
      ShortHasNoMarker(tail[1..]);
    }
  }

  lemma StoredTextMarker(c: Option<string>)
    ensures Contains(Truncated(NotFoundMessage(c, false)), MARKER) <==> Contains(StoredId(c), MARKER)
  {
    hide Contains;
    HeadMarkerFree();
    ShortHasNoMarker("");
    if c.Some? {
      StoredText(c);
      QuotedIdMarker(HEAD, StoredId(c), StoredTail(c));
    } else {
      MessageMarker(c, false);
      ShortTruncates(c);
    }
  }

  lemma StoredText(c: Option<string>)
    requires c.Some?
    ensures Truncated(NotFoundMessage(c, false)) == HEAD + ['='] + (['\''] + StoredId(c) + StoredTail(c))
  {
    QuotedIdTruncates(HEAD, c.value, "'" + (")" + "."), 1000);
    Regrouped(HEAD, "=", "'", c.value, ")", ".");
  }

  lemma Regrouped(a: string, b: string, q: string, id: string, c: string, d: string)
    ensures a + b + (q + id + q) + c + d == a + b + (q + id + (q + (c + d)))
  {
  }

  lemma ShortTruncates(c: Option<string>)
    requires c.None?
    ensures Truncated(NotFoundMessage(c, false)) == NotFoundMessage(c, false)
  {
  }

  lemma ShortHasNoMarker(s: string)
    requires |s| < |MARKER|
    ensures !Contains(s, MARKER)
  {
  }

  /** A completed non-match is looked up again exactly when the channel order id shown for it, as
      far as the error table keeps it, carries the marker. */
  lemma MarkerDefeatsTheMemory(s: Store, r: Record, lookup: Lookup, next: Record, answer: Lookup)
    requires r.externalId != "" && next.externalId == r.externalId
    requires CallsLive(s, r, lookup) && lookup.Answers? && Handle(s, r, lookup).Unmatched?
    requires var t := Sync(s, r, lookup); Unresolved(t, next) && HasOrderId(next) && !answer.NoSuchMethod?
    ensures var c := if lookup.channelOrderId.Some? then lookup.channelOrderId else r.channelOrderId;
            && (CallsLive(Sync(s, r, lookup), next, answer) <==> Contains(StoredId(c), MARKER))
            && (CallsLive(Sync(s, r, lookup), next, answer) ==> !MarkerFree(c))
            && (|NotFoundMessage(c, false)| <= 1000 ==>
                   (CallsLive(Sync(s, r, lookup), next, answer) <==> !MarkerFree(c)))
  {
    hide Contains, NotFoundMessage, Truncated, StoredId;
    var c := if lookup.channelOrderId.Some? then lookup.channelOrderId else r.channelOrderId;
    var message := NotFoundMessage(c, false);
    LatestAppended(s.errors, SyncError(r.externalId, VALIDATION_ERROR, Truncated(message)), r.externalId);
    MessagePrefix(c, false);
    StoredTextMarker(c);
    WholeIdStored(c);
  }

  lemma WholeIdStored(c: Option<string>)
    ensures |NotFoundMessage(c, false)| <= 1000 && c.Some? ==> StoredId(c) == c.value
    ensures c.None? ==> !Contains(StoredId(c), MARKER)
  {
  }

  /** n syncs of the same record that each find nothing. */
  function Repeated(r: Record, n: nat): seq<Event> {
    if n == 0 then [] else [OneRecord(r, Answers(None, None))] + Repeated(r, n - 1)
  }

  lemma {:induction false} NeverRemembered(s: Store, r: Record, n: nat)
    requires r == Record("1", Some(MARKER), Some("2"))
    requires s.orders == [] && s.shipments == map[] && !AlreadyConfirmed(s, "1")
    ensures Completed(s, Repeated(r, n), "1") == n
    decreases n
  {
    hide Contains, NotFoundMessage, Truncated, AlreadyConfirmed;
    if n > 0 {
      var lookup := Answers(None, None);
      MarkerContainsItself(r.channelOrderId);
      MarkerDefeatsTheMemory(s, r, lookup, r, lookup);
      NeverRemembered(Sync(s, r, lookup), r, n - 1);
    }
  }

  /** It happens: a shipment whose channel order id is the marker itself is looked up again at every
      sync, n times in n syncs. */
  lemma MarkerIdLookedUpEveryTime(s: Store, r: Record, n: nat)
    requires s == Store([], map[], []) && r == Record("1", Some(MARKER), Some("2"))
    ensures Completed(s, Repeated(r, n), "1") == n
  {
    NeverRemembered(s, r, n);
  }

  lemma MarkerContainsItself(c: Option<string>)
    requires c == Some(MARKER)
    ensures Contains(StoredId(c), MARKER)
  {
    assert MARKER[0..|MARKER|] == MARKER;
    assert OccursAt(MARKER, MARKER, 0);
    assert StoredId(c) == MARKER;
  }

  /** A record without an order id is remembered as unmatched although nothing was looked up, and
      from then on no record of that shipment is looked up either. */
  lemma MissingOrderIdIsRemembered(s: Store, r: Record, lookup: Lookup, next: Record, answer: Lookup)
    requires r.externalId != "" && next.externalId == r.externalId
    requires Unresolved(s, r) && !HasOrderId(r) && MarkerFree(r.channelOrderId)
    ensures !CallsLive(s, r, lookup) && AlreadyConfirmed(Sync(s, r, lookup), r.externalId)
    ensures !CallsLive(Sync(s, r, lookup), next, answer)
  {
    hide NotFoundMessage, Truncated;
    UnmatchedConfirms(s, r, lookup, r.channelOrderId, false);
  }

  // ---- what the memory costs ----

  /** The one way out of the memory: a record whose own channel order id matches an order. */
  lemma RememberedLinksOnlyByItsId(s: Store, e: Event, x: string)
    requires x != "" && !Known(s, x) && AlreadyConfirmed(s, x) && e.OneRecord? && e.record.externalId == x
    ensures Known(Step(s, e), x) <==> ResolveByChannelOrderId(s.orders, e.record.channelOrderId).One?
  {
    hide ConfirmsUnmatched, NotFoundMessage, Truncated, ResolveByChannelOrderId;
  }

  /** No event of the run is one that could undo the memory of x: its records name no channel order
      id, and no error row takes the memory's place. */
  predicate Quiet(e: Event, x: string) {
    !Disturbs(e, x) && (Handles(e) && e.record.externalId == x ==> e.record.channelOrderId.None?)
  }

  lemma QuietStep(s: Store, e: Event, x: string)
    requires x != "" && !Known(s, x) && AlreadyConfirmed(s, x) && Quiet(e, x)
    ensures !Known(Step(s, e), x) && AlreadyConfirmed(Step(s, e), x) && !Completes(s, e, x)
  {
    hide ConfirmsUnmatched, NotFoundMessage, Truncated, Latest, MarkerFree;
    if Subject(e) != Some(x) {
      OthersLeaveX(s, e, x);
    } else if Handles(e) {
      assert MarkerFree(e.record.channelOrderId) by { NoIdIsMarkerFree(); }
      UnmatchedConfirms(s, e.record, e.lookup, None, HasOrderId(e.record));
    } else {
      ErrorDecidesMemory(s, x, e.errorType, e.message);
    }
  }

  lemma NoIdIsMarkerFree()
    ensures MarkerFree(None)
  {
  }

  /** Remembered once, a shipment whose records name no channel order id is never linked again,
      whatever orders arrive and whatever Shiprocket would answer. */
  lemma {:induction false} RememberedForGood(s: Store, events: seq<Event>, x: string)
    requires x != "" && !Known(s, x) && AlreadyConfirmed(s, x) && forall e :: e in events ==> Quiet(e, x)
    ensures var t := Run(s, events);
            !Known(t, x) && AlreadyConfirmed(t, x) && Completed(s, events, x) == 0
    decreases |events|
  {
    hide Known, AlreadyConfirmed, Step, Quiet, Completes;
    if events != [] {
      QuietStep(s, events[0], x);
      RememberedForGood(Step(s, events[0]), events[1..], x);
    }
  }

  /** It costs links: once the order has arrived that Shiprocket names, a shipment without the memory
      is linked to it by the very sync that leaves the remembered one unmatched. */
  lemma MemoryCostsTheLink(s: Store, r: Record, o: Order)
    requires r == Record("7", None, Some("9")) && o.source.Shopify? && o.externalId == Some("5")
    requires s == Store([o], map[], [SyncError("7", VALIDATION_ERROR, NotFoundMessage(None, false))])
    ensures var lookup := Answers(None, Some("5"));
            && Handle(s, r, lookup).Unmatched?
            && Handle(s.(errors := []), r, lookup) == Linked(o.id, OrdersShowApiOrderId)
  {
    NoIdIsMarkerFree();
    MessagePrefix(None, false);
    ShortTruncates(None);
    assert [o][1..] == [] && WithShopifyId([], "5") == [] && WithShopifyId([o], "5") == [o];
    assert Latest([], "7").None?;
    LatestAppended([], s.errors[0], "7");
    assert [] + [s.errors[0]] == s.errors;
  }

  // ---- which order a shipment is linked to ----

  predicate Numbered(orders: seq<Order>, number: string, o: nat) {
    exists i :: 0 <= i < |orders| && orders[i].number == number && orders[i].id == o
  }

  predicate NoneNumbered(orders: seq<Order>, number: string) {
    forall i :: 0 <= i < |orders| ==> orders[i].number != number
  }

  /** Order o carries the number c; a '#' is put in front only when no order carries c itself. */
  predicate NumberMatches(orders: seq<Order>, c: Option<string>, o: nat) {
    && c.Some? && c.value != ""
    && (|| Numbered(orders, c.value, o)
        || (NoneNumbered(orders, c.value) && !StartsWith(c.value, "#") && Numbered(orders, "#" + c.value, o)))
  }

  predicate NoNumberMatches(orders: seq<Order>, c: Option<string>) {
    c.Some? && c.value != "" ==>
      NoneNumbered(orders, c.value) && (!StartsWith(c.value, "#") ==> NoneNumbered(orders, "#" + c.value))
  }

  /** Order o is the only Shopify order with external id a. */
  predicate OnlyShopifyMatch(orders: seq<Order>, a: Option<string>, o: nat) {
    a.Some? && a.value != "" &&
    exists i :: 0 <= i < |orders| && IsShopify(orders[i], a.value) && orders[i].id == o
                && forall j :: 0 <= j < |orders| && IsShopify(orders[j], a.value) ==> j == i
  }

  predicate IsShopify(o: Order, id: string) {
    o.source.Shopify? && o.externalId == Some(id)
  }

  /** The record's own id decides first, then the id Shiprocket answers with, then the answered
      Shopify id; a later one counts only when every earlier one matches nothing. */
  predicate Justified(orders: seq<Order>, r: Record, lookup: Lookup, o: nat) {
    || NumberMatches(orders, r.channelOrderId, o)
    || (&& NoNumberMatches(orders, r.channelOrderId) && lookup.Answers?
        && (|| NumberMatches(orders, lookup.channelOrderId, o)
            || (NoNumberMatches(orders, lookup.channelOrderId) && OnlyShopifyMatch(orders, lookup.apiOrderId, o))))
  }

  lemma {:induction false} WithNumberMember(orders: seq<Order>, number: string)
    ensures forall k :: 0 <= k < |WithNumber(orders, number)| ==>
              WithNumber(orders, number)[k] in orders && WithNumber(orders, number)[k].number == number
    ensures WithNumber(orders, number) == [] ==> NoneNumbered(orders, number)
  {
    if orders != [] { WithNumberMember(orders[1..], number); }
  }

  lemma {:induction false} OneShopifyId(orders: seq<Order>, id: string) returns (i: nat)
    requires |WithShopifyId(orders, id)| == 1
    ensures i < |orders| && orders[i] == WithShopifyId(orders, id)[0] && IsShopify(orders[i], id)
    ensures forall j :: 0 <= j < |orders| && IsShopify(orders[j], id) ==> j == i
  {
    if IsShopify(orders[0], id) {
      i := 0;
      NoShopifyId(orders[1..], id);
      forall j | 0 < j < |orders| ensures !IsShopify(orders[j], id) {
        assert orders[1..][j - 1] == orders[j];
      }
    } else {
      var k := OneShopifyId(orders[1..], id);
      i := k + 1;
      forall j | 0 <= j < |orders| && IsShopify(orders[j], id) ensures j == i {
        assert orders[1..][j - 1] == orders[j];
      }
    }
  }

  lemma {:induction false} NoShopifyId(orders: seq<Order>, id: string)
    requires WithShopifyId(orders, id) == []
    ensures forall j :: 0 <= j < |orders| ==> !IsShopify(orders[j], id)
  {
    if orders != [] { NoShopifyId(orders[1..], id); }
  }

  lemma ChannelMatchJustified(orders: seq<Order>, c: Option<string>)
    ensures var m := ResolveByChannelOrderId(orders, c);
            && (m.One? ==> NumberMatches(orders, c, m.order))
            && (m.NoMatch? ==> NoNumberMatches(orders, c))
  {
    if c.Some? {
      WithNumberMember(orders, c.value);
      WithNumberMember(orders, "#" + c.value);
    }
  }

  lemma ApiMatchJustified(orders: seq<Order>, a: Option<string>)
    ensures var m := ResolveByApiOrderId(orders, a); !m.Many? && (m.One? ==> OnlyShopifyMatch(orders, a, m.order))
  {
    if ResolveByApiOrderId(orders, a).One? {
      var i := OneShopifyId(orders, a.value);
    }
  }

  lemma LinkJustified(s: Store, r: Record, lookup: Lookup)
    requires Handle(s, r, lookup).Linked?
    ensures Justified(s.orders, r, lookup, Handle(s, r, lookup).order)
    ensures var o, orders := Handle(s, r, lookup).order, s.orders;
            match Handle(s, r, lookup).strategy
            case ShipmentsChannelOrderId => NumberMatches(orders, r.channelOrderId, o)
            case OrdersShowChannelOrderId =>
              && NoNumberMatches(orders, r.channelOrderId)
              && lookup.Answers? && NumberMatches(orders, lookup.channelOrderId, o)
            case OrdersShowApiOrderId =>
              && NoNumberMatches(orders, r.channelOrderId) && lookup.Answers?
              && NoNumberMatches(orders, lookup.channelOrderId) && OnlyShopifyMatch(orders, lookup.apiOrderId, o)
  {
    ChannelMatchJustified(s.orders, r.channelOrderId);
    if lookup.Answers? {
      ChannelMatchJustified(s.orders, lookup.channelOrderId);
      ApiMatchJustified(s.orders, lookup.apiOrderId);
    }
  }

  lemma {:induction false} WithNumberHas(orders: seq<Order>, number: string, i: nat)
    requires NumbersUnique(orders) && i < |orders| && orders[i].number == number
    ensures WithNumber(orders, number) == [orders[i]]
  {
    if i == 0 {
      AtMostOneNumber(orders[1..], number);
    } else {
      assert orders[1..][i - 1] == orders[i];
      WithNumberHas(orders[1..], number, i - 1);
    }
  }

  lemma NumberedExact(orders: seq<Order>, number: string, o: nat)
    requires NumbersUnique(orders)
    ensures Numbered(orders, number, o) <==> OneOrNone(WithNumber(orders, number)) == One(o)
    ensures NoneNumbered(orders, number) <==> OneOrNone(WithNumber(orders, number)).NoMatch?
  {
    WithNumberMember(orders, number);
    AtMostOneNumber(orders, number);
    forall i | 0 <= i < |orders| && orders[i].number == number ensures WithNumber(orders, number) == [orders[i]] {
      WithNumberHas(orders, number, i);
    }
  }

  lemma ChannelMatchExact(orders: seq<Order>, c: Option<string>, o: nat)
    requires NumbersUnique(orders)
    ensures ResolveByChannelOrderId(orders, c) == One(o) <==> NumberMatches(orders, c, o)
    ensures ResolveByChannelOrderId(orders, c).NoMatch? <==> NoNumberMatches(orders, c)
  {
    hide WithNumber, Numbered, NoneNumbered, NumbersUnique, OneOrNone;
    if c.Some? {
      NumberedExact(orders, c.value, o);
      NumberedExact(orders, "#" + c.value, o);
    }
  }

  lemma {:induction false} OnlyOneShopifyId(orders: seq<Order>, id: string, i: nat)
    requires i < |orders| && IsShopify(orders[i], id)
    requires forall j :: 0 <= j < |orders| && IsShopify(orders[j], id) ==> j == i
    ensures WithShopifyId(orders, id) == [orders[i]]
  {
    assert forall j :: 0 <= j < |orders| - 1 ==> orders[1..][j] == orders[j + 1];
    if i == 0 {
      NothingShopify(orders[1..], id);
    } else {
      OnlyOneShopifyId(orders[1..], id, i - 1);
    }
  }

  lemma {:induction false} NothingShopify(orders: seq<Order>, id: string)
    requires forall j :: 0 <= j < |orders| ==> !IsShopify(orders[j], id)
    ensures WithShopifyId(orders, id) == []
  {
    if orders != [] { NothingShopify(orders[1..], id); }
  }

  lemma ApiMatchExact(orders: seq<Order>, a: Option<string>, o: nat)
    ensures ResolveByApiOrderId(orders, a) == One(o) <==> OnlyShopifyMatch(orders, a, o)
  {
    ApiMatchJustified(orders, a);
    if OnlyShopifyMatch(orders, a, o) {
      var i :| 0 <= i < |orders| && IsShopify(orders[i], a.value) && orders[i].id == o
               && forall j :: 0 <= j < |orders| && IsShopify(orders[j], a.value) ==> j == i;
      OnlyOneShopifyId(orders, a.value, i);
    }
    if ResolveByApiOrderId(orders, a) == One(o) {
      var i := OneShopifyId(orders, a.value);
    }
  }

  /** Order o is justified, and the lookup it needs takes place. */
  predicate Deserved(s: Store, r: Record, lookup: Lookup, o: nat) {
    && Justified(s.orders, r, lookup, o)
    && (NumberMatches(s.orders, r.channelOrderId, o) || (HasOrderId(r) && !AlreadyConfirmed(s, r.externalId)))
  }

  /** A shipment without an order is linked to an order exactly when it deserves it. */
  lemma LinkExact(s: Store, r: Record, lookup: Lookup, o: nat)
    requires NumbersUnique(s.orders) && !Known(s, r.externalId)
    ensures Handle(s, r, lookup).Linked? && Handle(s, r, lookup).order == o <==> Deserved(s, r, lookup, o)
  {
    hide ResolveByChannelOrderId, ResolveByApiOrderId, NumbersUnique, NumberMatches, NoNumberMatches, OnlyShopifyMatch,
      AlreadyConfirmed, NotFoundMessage;
    ChannelMatchExact(s.orders, r.channelOrderId, o);
    NumberOrNone(s.orders, r.channelOrderId, o);
    if lookup.Answers? {
      ChannelMatchExact(s.orders, lookup.channelOrderId, o);
      ApiMatchExact(s.orders, lookup.apiOrderId, o);
    }
  }

  lemma NumberOrNone(orders: seq<Order>, c: Option<string>, o: nat)
    ensures NumberMatches(orders, c, o) ==> !NoNumberMatches(orders, c)
  {
  }

  /** The shipment is unknown, and nothing that the record or the error table says settles it. */
  predicate OpenQuestion(s: Store, r: Record) {
    && !(r.externalId != "" && r.externalId in s.shipments)
    && NoNumberMatches(s.orders, r.channelOrderId)
    && r.shiprocketOrderId.Some? && r.shiprocketOrderId.value != ""
    && !AlreadyConfirmed(s, r.externalId)
  }

  /** What a live lookup would answer matters exactly then; and then its failure is the outcome. */
  lemma LookupMatters(s: Store, r: Record)
    requires NumbersUnique(s.orders)
    ensures (exists a: Lookup, b: Lookup :: Handle(s, r, a) != Handle(s, r, b)) <==> OpenQuestion(s, r)
    ensures forall lookup: Lookup :: CallsLive(s, r, lookup) <==> OpenQuestion(s, r) && !lookup.NoSuchMethod?
    ensures forall t, m :: OpenQuestion(s, r) ==> Handle(s, r, Fails(t, m)) == LookupFailed(t, m)
  {
    hide ResolveByChannelOrderId, NumbersUnique, NoNumberMatches, AlreadyConfirmed, NotFoundMessage, AfterAnswer;
    ChannelMatchExact(s.orders, r.channelOrderId, 0);
    if OpenQuestion(s, r) { assert Handle(s, r, Fails("a", "")) != Handle(s, r, Fails("b", "")); }
  }

  /** The outcome, whatever the case: a known shipment keeps its order, one that deserves an order is
      linked, a failed lookup fails, and otherwise the id last heard of is reported unmatched, with the
      remark that it was skipped exactly when the memory is the reason. */
  lemma OutcomeExact(s: Store, r: Record, lookup: Lookup)
    requires NumbersUnique(s.orders)
    ensures var outcome := Handle(s, r, lookup);
            && (outcome.Existing? <==> r.externalId != "" && r.externalId in s.shipments)
            && (outcome.Linked? <==> !outcome.Existing? && exists o :: Deserved(s, r, lookup, o))
            && (outcome.LookupFailed? <==> OpenQuestion(s, r) && lookup.Fails?)
            && !outcome.Crashed?
            && var answered := OpenQuestion(s, r) && lookup.Answers? && lookup.channelOrderId.Some?;
               var skipped := HasOrderId(r) && AlreadyConfirmed(s, r.externalId);
               var shown := if answered then lookup.channelOrderId else r.channelOrderId;
               outcome.Unmatched? ==> outcome.message == NotFoundMessage(shown, skipped)
  {
    hide ResolveByChannelOrderId, ResolveByApiOrderId, NumbersUnique, Deserved, NoNumberMatches, AlreadyConfirmed,
        NotFoundMessage;
    NeverMany(s.orders, r.channelOrderId);
    ChannelMatchExact(s.orders, r.channelOrderId, 0);
    if lookup.Answers? { NeverMany(s.orders, lookup.channelOrderId); }
    var outcome := Handle(s, r, lookup);
    if !Known(s, r.externalId) {
      if outcome.Linked? { LinkExact(s, r, lookup, outcome.order); }
      forall o: nat | Deserved(s, r, lookup, o) ensures outcome.Linked? { LinkExact(s, r, lookup, o); }
    }
  }

  /** Two orders that share the number asked for end the record with an error row of their own. */
  lemma SharedNumberCrashes(s: Store, r: Record, lookup: Lookup, i: nat, j: nat)
    requires !Known(s, r.externalId) && r.channelOrderId.Some? && r.channelOrderId.value != ""
    requires i < j < |s.orders| && s.orders[i].number == s.orders[j].number == r.channelOrderId.value
    ensures Handle(s, r, lookup).Crashed? && Sync(s, r, lookup).shipments == s.shipments
  {
    TwoWithNumber(s.orders, r.channelOrderId.value, i, j);
  }

  lemma {:induction false} TwoWithNumber(orders: seq<Order>, number: string, i: nat, j: nat)
    requires i < j < |orders| && orders[i].number == orders[j].number == number
    ensures |WithNumber(orders, number)| >= 2
  {
    assert orders[1..][j - 1] == orders[j];
    if i == 0 {
      SomeWithNumber(orders[1..], number, j - 1);
    } else {
      assert orders[1..][i - 1] == orders[i];
      TwoWithNumber(orders[1..], number, i - 1, j - 1);
    }
  }

  lemma {:induction false} SomeWithNumber(orders: seq<Order>, number: string, i: nat)
    requires i < |orders| && orders[i].number == number
    ensures WithNumber(orders, number) != []
  {
    if i > 0 {
      assert orders[1..][i - 1] == orders[i];
      SomeWithNumber(orders[1..], number, i - 1);
    }
  }

  /** What is written: the order of the outcome for the record's shipment, or one error row about it with
      the failure's type and the first thousand characters of its text. */
  lemma OutcomeWritten(s: Store, r: Record, lookup: Lookup)
    ensures var outcome, t := Handle(s, r, lookup), Sync(s, r, lookup);
            && t.orders == s.orders
            && (outcome.Existing? || outcome.Linked? ==>
                  t.errors == s.errors && t.shipments == s.shipments[r.externalId := outcome.order])
            && (!(outcome.Existing? || outcome.Linked?) ==>
                  && t.shipments == s.shipments && |t.errors| == |s.errors| + 1 && t.errors[..|s.errors|] == s.errors
                  && var row := t.errors[|s.errors|];
                     var text := if outcome.Unmatched? || outcome.LookupFailed? then outcome.message else MULTIPLE_ROWS;
                     && row.externalId == r.externalId
                     && row.errorType == (if outcome.LookupFailed? then outcome.errorType else VALIDATION_ERROR)
                     && (if |text| <= 1000 then row.message == text else row.message == text[..1000]))
  {
    hide Handle;
  }

  /** Event k of the run gives x its order, and the orders table of that moment justifies it. */
  predicate LinkedAt(s: Store, events: seq<Event>, k: nat, x: string, o: nat)
    requires k < |events|
  {
    var e := events[k];
    e.OneRecord? && e.record.externalId == x && Justified(Run(s, events[..k]).orders, e.record, e.lookup, o)
  }

  /** Over any run, whatever Shiprocket answers and however the orders table changes, a shipment
      with an id keeps the order it has, and every new link is justified by an exact order number,
      with or without the leading '#', or by the only Shopify order with that external id. */
  lemma {:induction false} LinksAreJustified(s: Store, events: seq<Event>, x: string)
    requires x != ""
    ensures var t := Run(s, events);
            && (x in s.shipments ==> x in t.shipments && t.shipments[x] == s.shipments[x])
            && (x in t.shipments && x !in s.shipments ==>
                  exists k :: 0 <= k < |events| && LinkedAt(s, events, k, x, t.shipments[x]))
    decreases |events|
  {
    if events != [] {
      var e, next, rest := events[0], Step(s, events[0]), events[1..];
      LinksAreJustified(next, rest, x);
      var t := Run(next, rest);
      if x in t.shipments && x !in s.shipments {
        if x in next.shipments {
          LinkJustified(s, e.record, e.lookup);
          assert events[..0] == [];
          assert LinkedAt(s, events, 0, x, t.shipments[x]);
        } else {
          var k :| 0 <= k < |rest| && LinkedAt(next, rest, k, x, t.shipments[x]);
          assert events[..k + 1][0] == e && events[..k + 1][1..] == rest[..k];
          assert LinkedAt(s, events, k + 1, x, t.shipments[x]);
        }
      }
    }
  }

  /** A record of a known shipment is stored with the order that the shipment has, whatever it says,
      and changes nothing; only such a record is. */
  lemma KnownKeepsItsOrder(s: Store, r: Record, lookup: Lookup)
    ensures r.externalId != "" && r.externalId in s.shipments ==>
              Handle(s, r, lookup) == Existing(s.shipments[r.externalId]) && Sync(s, r, lookup) == s
    ensures Handle(s, r, lookup).Existing? ==> r.externalId != "" && r.externalId in s.shipments
  {
    if r.externalId != "" && r.externalId in s.shipments {
      assert s.shipments[r.externalId := s.shipments[r.externalId]] == s.shipments;
    }
  }

  /** A shipment's order is overwritten exactly when neither it nor the record has a shipment id and
      the record deserves another order: all such records share one row. */
  lemma OnlyIdlessShipmentsMove(s: Store, r: Record, lookup: Lookup, x: string)
    requires x in s.shipments && NumbersUnique(s.orders)
    ensures x in Sync(s, r, lookup).shipments
    ensures Sync(s, r, lookup).shipments[x] != s.shipments[x] <==>
              x == "" && r.externalId == "" && exists o :: Deserved(s, r, lookup, o) && o != s.shipments[x]
  {
    hide Handle, Deserved, NumbersUnique;
    KnownKeepsItsOrder(s, r, lookup);
    if !Known(s, r.externalId) {
      if Handle(s, r, lookup).Linked? { LinkExact(s, r, lookup, Handle(s, r, lookup).order); }
      forall o: nat | Deserved(s, r, lookup, o)
        ensures Handle(s, r, lookup).Linked? && Handle(s, r, lookup).order == o
      {
        LinkExact(s, r, lookup, o);
      }
    }
  }

  /** With another numbered order at hand, some record moves the shipment exactly when it has no id. */
  lemma IdlessShipmentsMove(s: Store, x: string, i: nat)
    requires x in s.shipments && NumbersUnique(s.orders)
    requires i < |s.orders| && s.orders[i].number != "" && s.orders[i].id != s.shipments[x]
    ensures x == "" <==> exists r: Record, lookup: Lookup ::
                           x in Sync(s, r, lookup).shipments && Sync(s, r, lookup).shipments[x] != s.shipments[x]
    ensures x == "" ==> var r := Record("", Some(s.orders[i].number), None);
                        Sync(s, r, NoSuchMethod).shipments == s.shipments["" := s.orders[i].id]
  {
    if x == "" {
      WithNumberHas(s.orders, s.orders[i].number, i);
      var r := Record("", Some(s.orders[i].number), None);
      assert Sync(s, r, NoSuchMethod).shipments[x] != s.shipments[x];
    } else {
      forall r: Record, lookup: Lookup ensures Sync(s, r, lookup).shipments[x] == s.shipments[x] {
        OnlyIdlessShipmentsMove(s, r, lookup, x);
      }
    }
  }

  // ---- the store the sync loop works on ----

  class SyncStore {
    var orders: seq<Order>
    var shipments: map<string, nat>
    var errors: seq<SyncError>

    function State(): Store
      reads this
    {
      Store(orders, shipments, errors)
    }

    constructor (orders: seq<Order>, shipments: map<string, nat>, errors: seq<SyncError>)
      ensures State() == Store(orders, shipments, errors)
    {
      this.orders, this.shipments, this.errors := orders, shipments, errors;
    }

    /** `_upsert_shipment`: the shipment row is there if an order is found and can be stored; otherwise
        nothing is written. */
    method UpsertShipment(r: Record, lookup: Lookup, stores: bool) returns (outcome: Outcome)
      modifies this`shipments
      ensures outcome == Handle(old(State()), r, lookup)
      ensures shipments ==
              if Stores(outcome) && stores then old(shipments)[r.externalId := outcome.order] else old(shipments)
    {
      if r.externalId != "" && r.externalId in shipments {
        outcome := Existing(shipments[r.externalId]);
        if stores { shipments := shipments[r.externalId := outcome.order]; }
        return;
      }
      var channelOrderId := r.channelOrderId;
      var found := ResolveByChannelOrderId(orders, channelOrderId);
      if found.Many? { return Crashed; }
      var strategy := ShipmentsChannelOrderId;
      var skipped := false;
      if found.NoMatch? && HasOrderId(r) {
        skipped := AlreadyConfirmed(State(), r.externalId);
        if !skipped && !lookup.NoSuchMethod? {
          if lookup.Fails? { return LookupFailed(lookup.errorType, lookup.message); }
          if lookup.channelOrderId.Some? { channelOrderId := lookup.channelOrderId; }
          found := ResolveByChannelOrderId(orders, lookup.channelOrderId);
          if found.Many? { return Crashed; }
          strategy := OrdersShowChannelOrderId;
          if found.NoMatch? {
            found := ResolveByApiOrderId(orders, lookup.apiOrderId);
            strategy := OrdersShowApiOrderId;
          }
        }
      }
      if !found.One? { return Unmatched(NotFoundMessage(channelOrderId, skipped)); }
      if stores { shipments := shipments[r.externalId := found.order]; }
      outcome := Linked(found.order, strategy);
    }

    method RecordError(externalId: string, errorType: string, message: string)
      modifies this`errors
      ensures errors == old(errors) + [SyncError(externalId, errorType, Truncated(message))]
    {
      errors := errors + [SyncError(externalId, errorType, Truncated(message))];
    }

    /** One record of a page, or an error recorded about one. */
    method SyncRecord(e: Event)
      requires !e.OrdersBecome?
      modifies this
      ensures State() == Step(old(State()), e)
    {
      if e.OtherError? {
        RecordError(e.id, e.errorType, e.message);
        return;
      }
      var x := e.record.externalId;
      var outcome := UpsertShipment(e.record, e.lookup, e.OneRecord?);
      match outcome
      case Existing(_) => if e.StoreFails? { RecordError(x, e.errorType, e.message); }
      case Linked(_, _) => if e.StoreFails? { RecordError(x, e.errorType, e.message); }
      case Unmatched(message) => RecordError(x, VALIDATION_ERROR, message);
      case LookupFailed(errorType, message) => RecordError(x, errorType, message);
      case Crashed => RecordError(x, VALIDATION_ERROR, MULTIPLE_ROWS);
    }

    /** One page of records, each failing or succeeding on its own. */
    method SyncPage(page: seq<Event>)
      requires forall e :: e in page ==> !e.OrdersBecome?
      modifies this
      ensures State() == Run(old(State()), page)
    {
      ghost var s := State();
      for i := 0 to |page|
        invariant Run(State(), page[i..]) == Run(s, page)
      {
        assert page[i] in page;
        assert page[i..][1..] == page[i + 1..];
        SyncRecord(page[i]);
      }
    }
  }
}
