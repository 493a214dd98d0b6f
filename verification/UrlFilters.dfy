/** List filters kept in the URL: a reader over the query, a writer of patches, and the record they refine. */
module UrlFilters {
  import opened Wrappers
  import opened Decimals

  // ---- the query ----

  type Params = seq<(string, string)>

  function Get(params: Params, key: string): Option<string> {
    if params == [] then None
    else if params[0].0 == key then Some(params[0].1)
    else Get(params[1..], key)
  }

  function Delete(params: Params, key: string): Params {
    if params == [] then []
    else if params[0].0 == key then Delete(params[1..], key)
    else [params[0]] + Delete(params[1..], key)
  }

  /** The first entry takes the value, later ones for the key go; without one it is added at the end. */
  function SetEntry(params: Params, key: string, value: string): Params {
    if params == [] then [(key, value)]
    else if params[0].0 == key then [(key, value)] + Delete(params[1..], key)
    else [params[0]] + SetEntry(params[1..], key, value)
  }

  // ---- values ----

  datatype Value = Num(n: int) | OtherNumber(text: string) | Str(s: string) | Undefined

  /** `Number` of a text: whole decimal numbers are read, any other text is some other number. */
  function ToNumber(raw: string): Value {
    if raw != "" && AllDigits(raw) then Num(ParseNat(raw))
    else if |raw| > 1 && raw[0] == '-' && AllDigits(raw[1..]) then Num(-(ParseNat(raw[1..]) as int))
    else OtherNumber(raw)
  }

  lemma ShownNumberReads(n: int)
    ensures ToNumber(Signed(n)) == Num(n)
  {
    hide Digits, ParseNat;
    if n < 0 {
      DigitsRoundTrip(-n);
      assert Signed(n)[1..] == Digits(-n);
      assert Signed(n)[0] == '-' && !IsDigit('-');
    } else {
      DigitsRoundTrip(n);
    }
  }

  function Text(v: Value): string {
    match v
    case Num(n) => Signed(n)
    case OtherNumber(text) => text
    case Str(s) => s
    case Undefined => "undefined"
  }

  // ---- filters, defaults and patches ----

  type Record = map<string, Value>

  /** A patch names each of its keys once, in the order of the object literal. */
  type Patch = seq<(string, Value)>

  predicate Names(patch: Patch, key: string) {
    exists i :: 0 <= i < |patch| && patch[i].0 == key
  }

  predicate Blank(v: Value) {
    v == Undefined || v == Str("")
  }

  predicate IsNumber(v: Value) {
    v.Num? || v.OtherNumber?
  }

  /** What the types of the hook admit: any text, whole number or undefined for any key of the
      defaults, each key once. */
  predicate TypeCorrect(defaults: Record, patch: Patch) {
    && (forall i :: 0 <= i < |patch| ==> patch[i].0 in defaults && !patch[i].1.OtherNumber?)
    && (forall i, j :: 0 <= i < j < |patch| ==> patch[i].0 != patch[j].0)
  }

  /** What a patch asks to read for a key. */
  function Wanted(default: Value, v: Value): Value {
    if Blank(v) then default else v
  }

  /** What is read for the key afterwards: the URL keeps text, and the default decides how it is read. */
  function Stored(default: Value, v: Value): Value {
    if Blank(v) || v == default then default
    else if IsNumber(default) then ToNumber(Text(v))
    else Str(Text(v))
  }

  /** A blank, the default, a number where the default is one, and a text where it is none. */
  predicate Fits(default: Value, v: Value) {
    Blank(v) || v == default || if IsNumber(default) then v.Num? else v.Str?
  }

  /** These are exactly the values that come back as they were. */
  lemma FitsExact(default: Value, v: Value)
    requires !v.OtherNumber?
    ensures Stored(default, v) == Wanted(default, v) <==> Fits(default, v)
  {
    hide Signed;
    if v.Num? { ShownNumberReads(v.n); }
  }

  predicate AllFit(defaults: Record, patch: Patch) {
    forall i :: 0 <= i < |patch| ==> patch[i].0 in defaults && Fits(defaults[patch[i].0], patch[i].1)
  }

  // ---- the reader and the writer as functions ----

  function ReadKey(params: Params, key: string, default: Value): Value {
    var raw := Get(params, key);
    if raw.None? || raw.value == "" then default
    else if IsNumber(default) then ToNumber(raw.value)
    else Str(raw.value)
  }

  function Read(defaults: Record, params: Params): Record {
    map k | k in defaults :: ReadKey(params, k, defaults[k])
  }

  function WriteKey(defaults: Record, params: Params, key: string, v: Value): Params {
    if Blank(v) || (key in defaults && v == defaults[key]) then Delete(params, key) else SetEntry(params, key, Text(v))
  }

  function WriteKeys(defaults: Record, params: Params, patch: Patch): Params
    decreases |patch|
  {
    if patch == [] then params
    else WriteKeys(defaults, WriteKey(defaults, params, patch[0].0, patch[0].1), patch[1..])
  }

  const PAGE := "page"

  /** The query that `setFilters` asks for. */
  function Write(defaults: Record, params: Params, patch: Patch): Params {
    var written := WriteKeys(defaults, params, patch);
    if Names(patch, PAGE) then written else Delete(written, PAGE)
  }

  // ---- the hook ----

  /** The URL after a call: the callback works on the query of its render, and does nothing when that
      would not change. */
  function AfterCall(defaults: Record, params: Params, rendered: Params, patch: Patch): Params {
    var next := Write(defaults, rendered, patch);
    if next == rendered then params else next
  }

  class UrlState {
    var params: Params
    var rendered: Params
    var navigations: nat

    constructor (params: Params)
      ensures this.params == rendered == params && navigations == 0
    {
      this.params, rendered, navigations := params, params, 0;
    }

    /** The component renders with the query of the URL. */
    method Render()
      modifies this`rendered
      ensures rendered == params
    {
      rendered := params;
    }

    /** The reader; `keys` are the keys of the defaults in their order. */
    method Filters(defaults: Record, keys: seq<string>) returns (filters: Record)
      requires forall k :: k in defaults <==> k in keys
      ensures filters == Read(defaults, rendered)
    {
      filters := defaults;
      for i := 0 to |keys|
        invariant filters.Keys == defaults.Keys
        invariant forall k :: k in defaults ==>
                    filters[k] == if k in keys[..i] then ReadKey(rendered, k, defaults[k]) else defaults[k]
      {
        var raw := Get(rendered, keys[i]);
        if raw.Some? && raw.value != "" {
          var value := if IsNumber(defaults[keys[i]]) then ToNumber(raw.value) else Str(raw.value);
          filters := filters[keys[i] := value];
        }
        assert keys[..i + 1] == keys[..i] + [keys[i]];
      }
      assert keys[..|keys|] == keys;
    }

    /** After a render the URL ends as the one asked for, whether or not the navigation is skipped. */
    method SetFilters(defaults: Record, patch: Patch)
      modifies this`params, this`navigations
      ensures params == AfterCall(defaults, old(params), rendered, patch)
      ensures old(params) == rendered ==> params == Write(defaults, old(params), patch)
      ensures navigations == old(navigations) + if Write(defaults, rendered, patch) == rendered then 0 else 1
    {
      var next := rendered;
      for i := 0 to |patch|
        invariant params == old(params) && navigations == old(navigations)
        invariant WriteKeys(defaults, next, patch[i..]) == WriteKeys(defaults, rendered, patch)
      {
        assert patch[i..][1..] == patch[i + 1..];
        var key, value := patch[i].0, patch[i].1;
        if value == Undefined || value == Str("") || (key in defaults && value == defaults[key]) {
          next := Delete(next, key);
        } else {
          next := SetEntry(next, key, Text(value));
        }
      }
      if !Names(patch, PAGE) { next := Delete(next, PAGE); }
      if next == rendered { return; }
      params := next;
      navigations := navigations + 1;
    }
  }

  // ---- what single entries do ----

  lemma {:induction false} DeleteGets(params: Params, key: string, k: string)
    ensures Get(Delete(params, key), k) == if k == key then None else Get(params, k)
  {
    if params != [] { DeleteGets(params[1..], key, k); }
  }

  lemma {:induction false} SetGets(params: Params, key: string, value: string, k: string)
    ensures Get(SetEntry(params, key, value), k) == if k == key then Some(value) else Get(params, k)
  {
    if params != [] {
      if params[0].0 == key { DeleteGets(params[1..], key, k); } else { SetGets(params[1..], key, value, k); }
    }
  }

  lemma ShownIsText(v: Value)
    requires !Blank(v) && !v.OtherNumber?
    ensures Text(v) != ""
  {
    hide Digits;
  }

  /** A key that is written reads as what is stored for it, and every other key as before. */
  lemma WrittenKeyReads(defaults: Record, params: Params, key: string, v: Value, k: string)
    requires key in defaults && k in defaults && !v.OtherNumber?
    ensures ReadKey(WriteKey(defaults, params, key, v), k, defaults[k]) ==
              if k != key then ReadKey(params, k, defaults[k]) else Stored(defaults[key], v)
  {
    hide Text, ToNumber;
    DeleteGets(params, key, k);
    SetGets(params, key, Text(v), k);
    if !Blank(v) { ShownIsText(v); }
  }

  /** How a key is read: by its first entry, as a number where the default is one; without an entry, or
      with an empty one, it is the default. */
  lemma ReadExact(params: Params, key: string, default: Value)
    ensures (forall i :: 0 <= i < |params| ==> params[i].0 != key) ==> ReadKey(params, key, default) == default
    ensures forall i :: 0 <= i < |params| && params[i].0 == key && (forall j :: 0 <= j < i ==> params[j].0 != key) ==>
              ReadKey(params, key, default) ==
              if params[i].1 == "" then default
              else if default.Num? || default.OtherNumber? then ToNumber(params[i].1)
              else Str(params[i].1)
  {
    FirstEntry(params, key);
  }

  lemma {:induction false} FirstEntry(params: Params, key: string)
    ensures (forall i :: 0 <= i < |params| ==> params[i].0 != key) ==> Get(params, key) == None
    ensures forall i :: 0 <= i < |params| && params[i].0 == key && (forall j :: 0 <= j < i ==> params[j].0 != key) ==>
              Get(params, key) == Some(params[i].1)
  {
    if params != [] {
      var rest := params[1..];
      FirstEntry(rest, key);
      forall i | 0 <= i < |params| && params[i].0 == key && (forall j :: 0 <= j < i ==> params[j].0 != key)
        ensures Get(params, key) == Some(params[i].1)
      {
        if i > 0 {
          assert params[0].0 != key && rest[i - 1] == params[i];
          assert forall j :: 0 <= j < i - 1 ==> rest[j] == params[j + 1];
        }
      }
    }
  }

  // ---- the record that the URL stands for ----

  function Patched(defaults: Record, filters: Record, patch: Patch): Record
    requires forall i :: 0 <= i < |patch| ==> patch[i].0 in defaults
    decreases |patch|
  {
    if patch == [] then filters
    else Patched(defaults, filters[patch[0].0 := Wanted(defaults[patch[0].0], patch[0].1)], patch[1..])
  }

  /** Plain record update: a blank value resets, and the page resets unless it is patched. */
  function Update(defaults: Record, filters: Record, patch: Patch): Record
    requires forall i :: 0 <= i < |patch| ==> patch[i].0 in defaults
  {
    var next := Patched(defaults, filters, patch);
    if !Names(patch, PAGE) && PAGE in defaults then next[PAGE := defaults[PAGE]] else next
  }

  lemma TailCorrect(defaults: Record, patch: Patch)
    requires TypeCorrect(defaults, patch) && patch != []
    ensures TypeCorrect(defaults, patch[1..]) && !Names(patch[1..], patch[0].0)
    ensures forall k :: Names(patch, k) <==> k == patch[0].0 || Names(patch[1..], k)
  {
    var rest := patch[1..];
    assert forall i :: 0 <= i < |rest| ==> rest[i] == patch[i + 1];
    forall k ensures Names(patch, k) <==> k == patch[0].0 || Names(rest, k) {
      if Names(rest, k) {
        var i :| 0 <= i < |rest| && rest[i].0 == k;
        assert patch[i + 1].0 == k;
      }
      assert patch[0].0 == k ==> Names(patch, k);
    }
  }

  /** Writing one key after the other leaves each key of the patch as stored, and no other changed. */
  lemma {:induction false} KeysWritten(defaults: Record, params: Params, patch: Patch, k: string)
    requires TypeCorrect(defaults, patch) && k in defaults
    ensures var now := ReadKey(WriteKeys(defaults, params, patch), k, defaults[k]);
            && (!Names(patch, k) ==> now == ReadKey(params, k, defaults[k]))
            && (forall i :: 0 <= i < |patch| && patch[i].0 == k ==> now == Stored(defaults[k], patch[i].1))
    decreases |patch|
  {
    hide WriteKey, ReadKey, Stored;
    if patch != [] {
      var key, v, rest := patch[0].0, patch[0].1, patch[1..];
      TailCorrect(defaults, patch);
      WrittenKeyReads(defaults, params, key, v, k);
      KeysWritten(defaults, WriteKey(defaults, params, key, v), rest, k);
      assert forall i :: 0 < i < |patch| ==> patch[i] == rest[i - 1];
    }
  }

  /** The same of the whole patch, whose page entry goes unless it is named. */
  lemma PatchWritten(defaults: Record, params: Params, patch: Patch, k: string)
    requires TypeCorrect(defaults, patch) && k in defaults
    ensures var now := Read(defaults, Write(defaults, params, patch))[k];
            && (!Names(patch, k) ==> now == if k == PAGE then defaults[k] else Read(defaults, params)[k])
            && (forall i :: 0 <= i < |patch| && patch[i].0 == k ==> now == Stored(defaults[k], patch[i].1))
  {
    hide Stored;
    KeysWritten(defaults, params, patch, k);
    DeleteGets(WriteKeys(defaults, params, patch), PAGE, k);
    assert forall i :: 0 <= i < |patch| && patch[i].0 == k ==> Names(patch, k);
  }

  lemma {:induction false} KeysPatched(defaults: Record, filters: Record, patch: Patch, k: string)
    requires TypeCorrect(defaults, patch) && k in defaults && filters.Keys == defaults.Keys
    ensures Patched(defaults, filters, patch).Keys == defaults.Keys
    ensures var now := Patched(defaults, filters, patch)[k];
            && (!Names(patch, k) ==> now == filters[k])
            && (forall i :: 0 <= i < |patch| && patch[i].0 == k ==> now == Wanted(defaults[k], patch[i].1))
    decreases |patch|
  {
    hide Wanted;
    if patch != [] {
      var key, rest := patch[0].0, patch[1..];
      TailCorrect(defaults, patch);
      KeysPatched(defaults, filters[key := Wanted(defaults[key], patch[0].1)], rest, k);
      assert forall i :: 0 < i < |patch| ==> patch[i] == rest[i - 1];
    }
  }

  lemma {:induction false} SameKeys(defaults: Record, filters: Record, patch: Patch)
    requires TypeCorrect(defaults, patch) && filters.Keys == defaults.Keys
    ensures Patched(defaults, filters, patch).Keys == defaults.Keys
    decreases |patch|
  {
    if patch != [] {
      TailCorrect(defaults, patch);
      SameKeys(defaults, filters[patch[0].0 := Wanted(defaults[patch[0].0], patch[0].1)], patch[1..]);
    }
  }

  /** What a record update gives for a key. */
  lemma PatchUpdates(defaults: Record, filters: Record, patch: Patch, k: string)
    requires TypeCorrect(defaults, patch) && k in defaults && filters.Keys == defaults.Keys
    ensures Update(defaults, filters, patch).Keys == defaults.Keys
    ensures var now := Update(defaults, filters, patch)[k];
            && (!Names(patch, k) ==> now == if k == PAGE then defaults[k] else filters[k])
            && (forall i :: 0 <= i < |patch| && patch[i].0 == k ==> now == Wanted(defaults[k], patch[i].1))
  {
    hide Wanted;
    KeysPatched(defaults, filters, patch, k);
    assert forall i :: 0 <= i < |patch| && patch[i].0 == k ==> Names(patch, k);
  }

  /** One patch of any values the types admit, on any URL: reading the new URL is updating the record
      that the old URL reads as if and only if every patched value fits its default. */
  lemma PatchRefines(defaults: Record, params: Params, patch: Patch)
    requires TypeCorrect(defaults, patch)
    ensures Read(defaults, Write(defaults, params, patch)) == Update(defaults, Read(defaults, params), patch)
            <==> AllFit(defaults, patch)
  {
    hide Read, Write, Update, Stored, Wanted, Fits;
    var now, plain := Read(defaults, Write(defaults, params, patch)), Update(defaults, Read(defaults, params), patch);
    ReadKeys(defaults, params);
    ReadKeys(defaults, Write(defaults, params, patch));
    UpdateKeys(defaults, Read(defaults, params), patch);
    forall i | 0 <= i < |patch|
      ensures now[patch[i].0] == plain[patch[i].0] <==> Fits(defaults[patch[i].0], patch[i].1)
    {
      PatchWritten(defaults, params, patch, patch[i].0);
      PatchUpdates(defaults, Read(defaults, params), patch, patch[i].0);
      FitsExact(defaults[patch[i].0], patch[i].1);
    }
    forall k | k in defaults && !Names(patch, k) ensures now[k] == plain[k] {
      PatchWritten(defaults, params, patch, k);
      PatchUpdates(defaults, Read(defaults, params), patch, k);
    }
    if AllFit(defaults, patch) {
      forall k | k in defaults ensures now[k] == plain[k] {
        if Names(patch, k) { var i :| 0 <= i < |patch| && patch[i].0 == k; }
      }
      assert now == plain;
    }
  }

  lemma ReadKeys(defaults: Record, params: Params)
    ensures Read(defaults, params).Keys == defaults.Keys
  {
  }

  lemma UpdateKeys(defaults: Record, filters: Record, patch: Patch)
    requires TypeCorrect(defaults, patch) && filters.Keys == defaults.Keys
    ensures Update(defaults, filters, patch).Keys == defaults.Keys
  {
    SameKeys(defaults, filters, patch);
  }

  /** A value that does not fit: a number where the default is undefined comes back as text. */
  lemma NumberBecomesText(params: Params, key: string, n: int)
    ensures var defaults: Record := map[key := Undefined];
            Read(defaults, Write(defaults, params, [(key, Num(n))]))[key] == Str(Signed(n))
  {
    var defaults: Record := map[key := Undefined];
    PatchWritten(defaults, params, [(key, Num(n))], key);
    assert [(key, Num(n))][0].0 == key;
  }

  function Writes(defaults: Record, params: Params, patches: seq<Patch>): Params
    decreases |patches|
  {
    if patches == [] then params else Writes(defaults, Write(defaults, params, patches[0]), patches[1..])
  }

  function Updates(defaults: Record, filters: Record, patches: seq<Patch>): Record
    requires forall p :: p in patches ==> TypeCorrect(defaults, p)
    decreases |patches|
  {
    if patches == [] then filters
    else
      assert TypeCorrect(defaults, patches[0]) by { assert patches[0] in patches; }
      Updates(defaults, Update(defaults, filters, patches[0]), patches[1..])
  }

  /** Any sequence of patches whose values fit, on any URL: the filters read are the record updates
      of the filters read before. */
  lemma {:induction false} FiltersRefineRecord(defaults: Record, params: Params, patches: seq<Patch>)
    requires forall p :: p in patches ==> TypeCorrect(defaults, p) && AllFit(defaults, p)
    ensures Read(defaults, Writes(defaults, params, patches)) == Updates(defaults, Read(defaults, params), patches)
    decreases |patches|
  {
    hide Read, Write, Update, TypeCorrect, AllFit;
    if patches != [] {
      assert patches[0] in patches;
      PatchRefines(defaults, params, patches[0]);
      FiltersRefineRecord(defaults, Write(defaults, params, patches[0]), patches[1..]);
    }
  }

  // ---- two calls in one render ----

  /** Of two calls in one render the second forgets the first, unless the second asks for nothing. The
      filters read are those of two rendered calls exactly when it does, or when every key of the
      first patch that the second does not set again, the page aside, had its value already. */
  lemma SameRenderForgets(defaults: Record, params: Params, a: Patch, b: Patch)
    requires TypeCorrect(defaults, a) && TypeCorrect(defaults, b) && Write(defaults, params, b) != params
    ensures var both := AfterCall(defaults, AfterCall(defaults, params, params, a), params, b);
            && both == Write(defaults, params, b)
            && (Read(defaults, both) == Read(defaults, Write(defaults, Write(defaults, params, a), b)) <==>
                  forall i :: 0 <= i < |a| && !Names(b, a[i].0) && a[i].0 != PAGE ==>
                    Read(defaults, params)[a[i].0] == Stored(defaults[a[i].0], a[i].1))
  {
    hide Read, Write, Stored;
    var p, pa := Read(defaults, params), Read(defaults, Write(defaults, params, a));
    var now := Read(defaults, Write(defaults, params, b));
    var wanted := Read(defaults, Write(defaults, Write(defaults, params, a), b));
    ReadKeys(defaults, params);
    ReadKeys(defaults, Write(defaults, params, a));
    ReadKeys(defaults, Write(defaults, params, b));
    ReadKeys(defaults, Write(defaults, Write(defaults, params, a), b));
    forall k | k in defaults
      ensures (Names(b, k) || k == PAGE ==> now[k] == wanted[k])
              && (!Names(b, k) && k != PAGE ==> now[k] == p[k] && wanted[k] == pa[k])
              && (!Names(a, k) && k != PAGE ==> pa[k] == p[k])
    {
      PatchWritten(defaults, params, b, k);
      PatchWritten(defaults, Write(defaults, params, a), b, k);
      PatchWritten(defaults, params, a, k);
      if Names(b, k) { var i :| 0 <= i < |b| && b[i].0 == k; }
    }
    forall i | 0 <= i < |a| ensures pa[a[i].0] == Stored(defaults[a[i].0], a[i].1) {
      PatchWritten(defaults, params, a, a[i].0);
    }
    if forall i :: 0 <= i < |a| && !Names(b, a[i].0) && a[i].0 != PAGE ==>
                     p[a[i].0] == Stored(defaults[a[i].0], a[i].1)
    {
      forall k | k in defaults ensures now[k] == wanted[k] {
        if Names(a, k) { var i :| 0 <= i < |a| && a[i].0 == k; }
      }
      assert now == wanted;
    }
  }

  // ---- other entries of the URL ----

  /** The entries whose key the hook has nothing to do with, in order. */
  function Others(defaults: Record, params: Params): Params {
    if params == [] then []
    else if params[0].0 in defaults || params[0].0 == PAGE then Others(defaults, params[1..])
    else [params[0]] + Others(defaults, params[1..])
  }

  lemma {:induction false} DeleteKeepsOthers(defaults: Record, params: Params, key: string)
    requires key in defaults || key == PAGE
    ensures Others(defaults, Delete(params, key)) == Others(defaults, params)
  {
    if params != [] { DeleteKeepsOthers(defaults, params[1..], key); }
  }

  lemma {:induction false} SetKeepsOthers(defaults: Record, params: Params, key: string, value: string)
    requires key in defaults || key == PAGE
    ensures Others(defaults, SetEntry(params, key, value)) == Others(defaults, params)
  {
    if params != [] {
      if params[0].0 == key {
        DeleteKeepsOthers(defaults, params[1..], key);
      } else {
        SetKeepsOthers(defaults, params[1..], key, value);
      }
    }
  }

  lemma {:induction false} KeysKeepOthers(defaults: Record, params: Params, patch: Patch)
    requires TypeCorrect(defaults, patch)
    ensures Others(defaults, WriteKeys(defaults, params, patch)) == Others(defaults, params)
    decreases |patch|
  {
    if patch != [] {
      var key, v := patch[0].0, patch[0].1;
      TailCorrect(defaults, patch);
      DeleteKeepsOthers(defaults, params, key);
      SetKeepsOthers(defaults, params, key, Text(v));
      KeysKeepOthers(defaults, WriteKey(defaults, params, key, v), patch[1..]);
    }
  }

  /** All other entries survive every sequence of patches, repeated keys and order included. */
  lemma {:induction false} OthersSurvive(defaults: Record, params: Params, patches: seq<Patch>)
    requires forall p :: p in patches ==> TypeCorrect(defaults, p)
    ensures Others(defaults, Writes(defaults, params, patches)) == Others(defaults, params)
    decreases |patches|
  {
    if patches != [] {
      assert patches[0] in patches;
      KeysKeepOthers(defaults, params, patches[0]);
      DeleteKeepsOthers(defaults, WriteKeys(defaults, params, patches[0]), PAGE);
      OthersSurvive(defaults, Write(defaults, params, patches[0]), patches[1..]);
    }
  }

  // ---- when a navigation is skipped ----

  function Count(params: Params, key: string): nat {
    if params == [] then 0 else (if params[0].0 == key then 1 else 0) + Count(params[1..], key)
  }

  /** The URL holds exactly what writing v would leave there. */
  predicate AsWritten(defaults: Record, params: Params, key: string, v: Value) {
    if Blank(v) || (key in defaults && v == defaults[key]) then Get(params, key).None?
    else Get(params, key) == Some(Text(v)) && Count(params, key) == 1
  }

  lemma {:induction false} DeleteExact(params: Params, key: string)
    ensures Delete(params, key) == params <==> Get(params, key).None?
    ensures Get(params, key).None? <==> Count(params, key) == 0
    ensures forall k :: Count(Delete(params, key), k) == if k == key then 0 else Count(params, k)
    ensures |Delete(params, key)| <= |params|
  {
    if params != [] { DeleteExact(params[1..], key); }
  }

  lemma {:induction false} SetExact(params: Params, key: string, value: string)
    ensures SetEntry(params, key, value) == params <==> Get(params, key) == Some(value) && Count(params, key) == 1
    ensures forall k :: Count(SetEntry(params, key, value), k) == if k == key then 1 else Count(params, k)
  {
    if params != [] {
      if params[0].0 == key { DeleteExact(params[1..], key); } else { SetExact(params[1..], key, value); }
    }
  }

  lemma WriteKeyExact(defaults: Record, params: Params, key: string, v: Value)
    ensures var next := WriteKey(defaults, params, key, v);
            && (next == params <==> AsWritten(defaults, params, key, v))
            && AsWritten(defaults, next, key, v)
            && forall k :: k != key ==> Get(next, k) == Get(params, k) && Count(next, k) == Count(params, k)
  {
    hide Text;
    DeleteExact(params, key);
    SetExact(params, key, Text(v));
    forall k ensures Get(Delete(params, key), k) == if k == key then None else Get(params, k) {
      DeleteGets(params, key, k);
    }
    forall k ensures Get(SetEntry(params, key, Text(v)), k) == if k == key then Some(Text(v)) else Get(params, k) {
      SetGets(params, key, Text(v), k);
    }
  }

  lemma {:induction false} WriteKeysExact(defaults: Record, params: Params, patch: Patch)
    requires forall i, j :: 0 <= i < j < |patch| ==> patch[i].0 != patch[j].0
    ensures var next := WriteKeys(defaults, params, patch);
            && (forall i :: 0 <= i < |patch| ==> AsWritten(defaults, next, patch[i].0, patch[i].1))
            && (forall k :: !Names(patch, k) ==> Get(next, k) == Get(params, k) && Count(next, k) == Count(params, k))
            && ((forall i :: 0 <= i < |patch| ==> AsWritten(defaults, params, patch[i].0, patch[i].1)) ==>
                   next == params)
    decreases |patch|
  {
    hide WriteKey;
    if patch != [] {
      var key, v, rest := patch[0].0, patch[0].1, patch[1..];
      assert forall i :: 0 <= i < |rest| ==> rest[i] == patch[i + 1];
      var mid := WriteKey(defaults, params, key, v);
      WriteKeyExact(defaults, params, key, v);
      WriteKeysExact(defaults, mid, rest);
      assert !Names(rest, key);
      assert forall k :: !Names(patch, k) ==> k != key && !Names(rest, k) by {
        assert patch[0].0 == key;
      }
      if forall i :: 0 <= i < |patch| ==> AsWritten(defaults, params, patch[i].0, patch[i].1) {
        assert AsWritten(defaults, params, patch[0].0, patch[0].1);
        assert mid == params;
      }
    }
  }

  /** A navigation is skipped exactly when every patched key already stands in the URL as it would be
      written, and there is no page entry to drop. */
  lemma SkipExact(defaults: Record, params: Params, patch: Patch)
    requires TypeCorrect(defaults, patch)
    ensures Write(defaults, params, patch) == params <==>
              && (forall i :: 0 <= i < |patch| ==> AsWritten(defaults, params, patch[i].0, patch[i].1))
              && (Names(patch, PAGE) || Get(params, PAGE).None?)
  {
    hide AsWritten, Names;
    var written := WriteKeys(defaults, params, patch);
    WriteKeysExact(defaults, params, patch);
    DeleteExact(written, PAGE);
    DeletedPageKeeps(defaults, written, patch);
    DeleteGets(written, PAGE, PAGE);
    DeleteExact(params, PAGE);
  }

  lemma DeletedPageKeeps(defaults: Record, params: Params, patch: Patch)
    requires forall i :: 0 <= i < |patch| ==> AsWritten(defaults, params, patch[i].0, patch[i].1)
    requires TypeCorrect(defaults, patch)
    ensures !Names(patch, PAGE) ==>
              forall i :: 0 <= i < |patch| ==> AsWritten(defaults, Delete(params, PAGE), patch[i].0, patch[i].1)
  {
    hide Text, Blank, TypeCorrect;
    if !Names(patch, PAGE) {
      DeleteExact(params, PAGE);
      forall i | 0 <= i < |patch| ensures AsWritten(defaults, Delete(params, PAGE), patch[i].0, patch[i].1) {
        assert patch[i].0 != PAGE;
        DeleteGets(params, PAGE, patch[i].0);
      }
    }
  }

  /** Setting the same patch again never navigates. */
  lemma RepeatIsSkipped(defaults: Record, params: Params, patch: Patch)
    requires TypeCorrect(defaults, patch)
    ensures var once := Write(defaults, params, patch); Write(defaults, once, patch) == once
  {
    hide AsWritten;
    var written := WriteKeys(defaults, params, patch);
    WriteKeysExact(defaults, params, patch);
    DeletedPageKeeps(defaults, written, patch);
    DeleteGets(written, PAGE, PAGE);
    SkipExact(defaults, Write(defaults, params, patch), patch);
  }

  /** Setting a filter to the value it already has is still a navigation when the URL names a page,
      and the page read afterwards is the default one. */
  lemma EchoDropsPage(defaults: Record, params: Params, key: string)
    requires key in defaults && PAGE in defaults && key != PAGE && Get(params, PAGE).Some?
    requires !Read(defaults, params)[key].OtherNumber?
    ensures var echo := [(key, Read(defaults, params)[key])];
            && Write(defaults, params, echo) != params
            && Read(defaults, Write(defaults, params, echo)) == Read(defaults, params)[PAGE := defaults[PAGE]]
  {
    hide Get;
    var echo := [(key, Read(defaults, params)[key])];
    assert !Names(echo, PAGE);
    SkipExact(defaults, params, echo);
    PatchRefines(defaults, params, echo);
    assert AllFit(defaults, echo) by { EchoFits(defaults, params, key); }
    assert echo[1..] == [];
    assert Patched(defaults, Read(defaults, params), echo)
        == Read(defaults, params)[key := if Blank(echo[0].1) then defaults[key] else echo[0].1];
    BlankIsDefault(defaults, params, key);
  }

  lemma EchoFits(defaults: Record, params: Params, key: string)
    requires key in defaults && !Read(defaults, params)[key].OtherNumber?
    ensures Fits(defaults[key], Read(defaults, params)[key])
  {
  }

  lemma BlankIsDefault(defaults: Record, params: Params, key: string)
    requires key in defaults
    ensures Blank(ReadKey(params, key, defaults[key])) ==> ReadKey(params, key, defaults[key]) == defaults[key]
  {
  }
}
