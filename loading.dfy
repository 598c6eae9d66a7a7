/**
  `doMaterializeValue` as a function: how the datagram is filled from the
  parser's output, one item at a time. The datagram's loading method is
  proved to follow `Step`; what the loaded datagram looks like is proved here
  about `LoadUpTo`.
 */
module Loading {
  import opened IonValues
  import opened Positions
  import opened Arenas

  /** One item of the parser's output: a value and whether the parser hides it from users. */
  datatype Item = Item(id: ValueId, hidden: bool)

  /** The identities of a parser's output, in order. */
  function Ids(input: seq<Item>): (r: seq<ValueId>)
    ensures |r| == |input| && forall k :: 0 <= k < |input| ==> r[k] == input[k].id
  {
    seq(|input|, k requires 0 <= k < |input| => input[k].id)
  }

  /** The identities of the items the parser does not hide, in order: what a user sees. */
  function Visible(input: seq<Item>): (r: seq<ValueId>)
    ensures |r| <= |input|
  {
    if input == [] then []
    else Visible(input[..|input| - 1]) + (if input[|input| - 1].hidden then [] else [input[|input| - 1].id])
  }

  /**
    What the materializer demands of the parser's output: distinct known
    values, none inside another container, each with a symbol table.
   */
  ghost predicate StreamOk(a: Arena, input: seq<Item>)
  {
    ArenaOk(a) &&
    (forall k :: 0 <= k < |input| ==>
       input[k].id in a.values && !a.values[input[k].id].heldElsewhere &&
       a.values[input[k].id].symtab.Some?) &&
    (forall k, l :: 0 <= k < l < |input| ==> input[k].id != input[l].id)
  }

  /** The symbol table the parser gave item `k`. */
  ghost function TableOf(a: Arena, input: seq<Item>, k: nat): (t: TableId)
    requires StreamOk(a, input) && k < |input|
    ensures t in a.tables
  {
    a.values[input[k].id].symtab.value
  }

  /** The struct that represents item `k`'s symbol table. */
  ghost function Rep(a: Arena, input: seq<Item>, k: nat): (s: ValueId)
    requires StreamOk(a, input) && k < |input|
    ensures s in a.values
  {
    a.tables[TableOf(a, input, k)].rep
  }

  /**
    Item `k` is a user value whose symbol table differs from the previous
    item's and must be written out: its struct has to precede it.
   */
  ghost predicate Fixup(a: Arena, input: seq<Item>, k: nat)
    requires StreamOk(a, input) && k < |input|
  {
    !input[k].hidden && IsNeededLocalSymbolTable(a.tables[TableOf(a, input, k)]) &&
    (k == 0 || TableOf(a, input, k) != TableOf(a, input, k - 1))
  }

  /** A fixup whose struct is not already the previous item: the materializer inserts the struct. */
  ghost predicate Inserts(a: Arena, input: seq<Item>, k: nat)
    requires StreamOk(a, input) && k < |input|
  {
    Fixup(a, input, k) && (k == 0 || Rep(a, input, k) != input[k - 1].id)
  }

  /**
    Every struct the materializer inserts is unattached: it belongs to no
    container, it is not itself in the stream, and it is not inserted twice.
   */
  ghost predicate RepsOk(a: Arena, input: seq<Item>)
    requires StreamOk(a, input)
  {
    forall k :: 0 <= k < |input| && Inserts(a, input, k) ==>
      !a.values[Rep(a, input, k)].heldElsewhere &&
      (forall l :: 0 <= l < |input| ==> input[l].id != Rep(a, input, k)) &&
      (forall l :: 0 <= l < k && Inserts(a, input, l) ==> Rep(a, input, l) != Rep(a, input, k))
  }

  /** Every value of `before` is still there with the same content; only flags may have changed. */
  ghost predicate KeepsContent(before: map<ValueId, Value>, after: map<ValueId, Value>)
  {
    forall id :: id in before ==> id in after && SameContent(before[id], after[id])
  }

  //===========================================================================
  // One step of the materializer

  /**
    The materializer's state: the physical and user views, the values and
    the next fresh identity, whether it set the datagram dirty, the previous
    item's table and the previous value put in the physical view, where each
    user value sits in the physical view, and where each item landed.
   */
  datatype Load = Load(contents: seq<ValueId>, user: seq<ValueId>, values: map<ValueId, Value>, next: nat,
                       dirty: bool, previous: Option<TableId>, previousValue: Option<ValueId>,
                       upos: seq<nat>, pos: seq<nat>)

  /** Nothing loaded yet. */
  function Start(a: Arena): Load
  {
    Load([], [], a.values, a.nextValue, false, None, None, [], [])
  }

  /** `r` has the values of `s` below `s.next`, and fresh version markers from `s.next` up to `r.next`. */
  ghost predicate AddsMarkers(s: Load, r: Load)
  {
    s.next <= r.next &&
    (forall id :: id in r.values ==> id in s.values || s.next <= id < r.next) &&
    (forall id :: s.next <= id < r.next ==> id in r.values && r.values[id] == NewVersionMarker()) &&
    (forall id :: id in s.values && id < s.next ==> id in r.values && r.values[id] == s.values[id])
  }

  lemma AddsMarkersTrans(s: Load, m: Load, r: Load)
    requires AddsMarkers(s, m) && AddsMarkers(m, r)
    ensures AddsMarkers(s, r)
  {
  }

  /** `r` has the values of `s`, or those and one fresh version marker. */
  predicate AddsOne(s: Load, r: Load)
  {
    (r.values == s.values && r.next == s.next) ||
    (r.values == s.values[s.next := NewVersionMarker()] && r.next == s.next + 1)
  }

  lemma AddsOneMarkers(s: Load, r: Load)
    requires AddsOne(s, r)
    ensures AddsMarkers(s, r)
  {
  }

  /** Appends a fresh version marker (`makeIonVersionMarker`, then `addToContents`). */
  function WithMarker(s: Load): (r: Load)
    ensures r.values == s.values[s.next := NewVersionMarker()] && r.next == s.next + 1
    ensures r.contents == s.contents + [s.next] && MarkerAt(r.values, s.next)
    ensures forall x :: x in r.contents <==> x in s.contents || x == s.next
    ensures r.user == s.user && r.upos == s.upos && r.pos == s.pos && r.dirty == s.dirty
    ensures r.previous == s.previous && r.previousValue == s.previousValue
  {
    s.(contents := s.contents + [s.next], values := s.values[s.next := NewVersionMarker()], next := s.next + 1)
  }

  /** Nothing is loaded yet and the first item is not a version marker. */
  predicate NeedsLead(s: Load, c: ValueId)
    requires c in s.values
  {
    s.previousValue.None? && !IsVersionMarkerSymbol(s.values[c])
  }

  /** The previous value put in the physical view is a version marker. */
  predicate PreviousIsMarker(s: Load)
  {
    s.previousValue.Some? && MarkerAt(s.values, s.previousValue.value)
  }

  /** Before the first item: a version marker, unless the item is one itself. */
  function Lead(s: Load, c: ValueId): (r: Load)
    requires c in s.values
    ensures AddsOne(s, r)
    ensures forall x :: x in r.contents ==> x in s.contents || s.next <= x < r.next
    ensures r.user == s.user && r.upos == s.upos && r.pos == s.pos && r.previous == s.previous
  {
    if NeedsLead(s, c) then
      WithMarker(s).(dirty := true, previousValue := Some(s.next))
    else s
  }

  /** The struct `rep` goes in, behind a version marker unless the previous value is one. */
  function PutStruct(s: Load, rep: ValueId): (r: Load)
    ensures AddsOne(s, r) && r.dirty
    ensures forall x :: x in r.contents ==> x in s.contents || x == rep || s.next <= x < r.next
    ensures r.user == s.user && r.upos == s.upos && r.pos == s.pos && r.previous == s.previous && r.previousValue == s.previousValue
    ensures r.contents == s.contents + [rep] || (r.contents == s.contents + [s.next, rep] && MarkerAt(r.values, s.next))
    ensures r.contents == s.contents + [rep] ==> s.previousValue.Some? && MarkerAt(s.values, s.previousValue.value)
  {
    var s' := if PreviousIsMarker(s) then s else WithMarker(s);
    s'.(contents := s'.contents + [rep], dirty := true)
  }

  /** The test of `FixTable`. */
  predicate FixCond(s: Load, t: TableId, table: SymTab)
  {
    s.previous != Some(t) && IsNeededLocalSymbolTable(table) && s.previousValue != Some(table.rep)
  }

  /**
    Before a user value with table `t`: when the table differs from the
    previous item's, must be written out, and its struct is not the previous
    value, the struct goes in.
   */
  function FixTable(s: Load, t: TableId, table: SymTab): (r: Load)
    ensures AddsOne(s, r)
    ensures forall x :: x in r.contents ==>
      x in s.contents || s.next <= x < r.next || (x == table.rep && FixCond(s, t, table))
    ensures r.user == s.user && r.upos == s.upos && r.pos == s.pos && r.previous == s.previous && r.previousValue == s.previousValue
  {
    if FixCond(s, t, table) then PutStruct(s, table.rep)
    else s
  }

  /** A hidden item enters the physical view only, flagged as a system value. */
  function TakeHidden(s: Load, c: ValueId): (r: Load)
    requires c in s.values
  {
    s.(contents := s.contents + [c], values := s.values[c := MarkedHidden(s.values[c])])
  }

  /** A user item enters both views. */
  function TakeUser(s: Load, c: ValueId): (r: Load)
  {
    s.(contents := s.contents + [c], user := s.user + [c], upos := s.upos + [|s.contents|])
  }

  /** A dirty item makes the datagram dirty; the item and its table become the previous ones. */
  function Finish(s: Load, c: ValueId, t: TableId): (r: Load)
    requires c in s.values && |s.contents| > 0
  {
    s.(dirty := s.dirty || s.values[c].flags.dirty, previous := Some(t), previousValue := Some(c),
       pos := s.pos + [|s.contents| - 1])
  }

  /** The materializer's handling of one item, whose symbol table `t` is `table`. */
  function Step(s: Load, item: Item, t: TableId, table: SymTab): (r: Load)
    requires item.id in s.values
    ensures s.values.Keys <= r.values.Keys
  {
    var c := item.id;
    var s1 := Lead(s, c);
    var s2 := if item.hidden then TakeHidden(s1, c) else TakeUser(FixTable(s1, t, table), c);
    Finish(s2, c, t)
  }

  /** Item `i` of the parser's output, handled. */
  ghost function StepAt(a: Arena, input: seq<Item>, i: nat, s: Load): (r: Load)
    requires StreamOk(a, input) && i < |input| && input[i].id in s.values
    ensures s.values.Keys <= r.values.Keys
  {
    Step(s, input[i], TableOf(a, input, i), a.tables[TableOf(a, input, i)])
  }

  /** The state after the first `n` items. */
  ghost function LoadUpTo(a: Arena, input: seq<Item>, n: nat): (r: Load)
    requires StreamOk(a, input) && n <= |input|
    ensures a.values.Keys <= r.values.Keys
  {
    if n == 0 then Start(a) else StepAt(a, input, n - 1, LoadUpTo(a, input, n - 1))
  }

  //===========================================================================
  // What holds after each step

  /**
    The values are the original ones, with flags at most changed, plus fresh
    version markers; items not yet loaded are untouched.
   */
  ghost predicate ValuesShape(a: Arena, input: seq<Item>, n: nat, L: Load)
    requires StreamOk(a, input) && n <= |input|
  {
    && a.nextValue <= L.next
    && KeepsContent(a.values, L.values)
    && (forall id :: id in L.values ==> id in a.values || a.nextValue <= id < L.next)
    && (forall id :: a.nextValue <= id < L.next ==> id in L.values && L.values[id] == NewVersionMarker())
    && (forall k :: n <= k < |input| ==> L.values[input[k].id] == a.values[input[k].id])
  }

  /** The physical view holds known values; items not yet loaded and structs still to insert are absent. */
  ghost predicate ViewShape(a: Arena, input: seq<Item>, n: nat, L: Load)
    requires StreamOk(a, input) && n <= |input|
  {
    && (forall x :: x in L.contents ==> x in L.values && x < L.next)
    && (forall k :: n <= k < |input| ==> input[k].id !in L.contents)
    && (forall k :: n <= k < |input| && Inserts(a, input, k) ==> Rep(a, input, k) !in L.contents)
  }

  /** The previous item is recorded. */
  ghost predicate PreviousShape(a: Arena, input: seq<Item>, n: nat, L: Load)
    requires StreamOk(a, input) && n <= |input|
  {
    && (n == 0 ==> L == Start(a))
    && (n > 0 ==> L.previousValue == Some(input[n - 1].id) && L.previous == Some(TableOf(a, input, n - 1)))
  }

  /** The bookkeeping facts together. */
  ghost predicate Shape(a: Arena, input: seq<Item>, n: nat, L: Load)
    requires StreamOk(a, input) && n <= |input|
  {
    ValuesShape(a, input, n, L) && ViewShape(a, input, n, L) && PreviousShape(a, input, n, L)
  }

  /** The step's own test for inserting a struct is `Inserts`. */
  lemma FixCondIsInserts(a: Arena, input: seq<Item>, i: nat, L: Load)
    requires StreamOk(a, input) && i < |input| && ValuesShape(a, input, i, L) && PreviousShape(a, input, i, L)
    ensures var t := TableOf(a, input, i);
      !input[i].hidden && FixCond(Lead(L, input[i].id), t, a.tables[t]) <==> Inserts(a, input, i)
  {
    assert input[i].id < a.nextValue;
    assert Rep(a, input, i) < a.nextValue;
  }

  /** `r` has the values of `s`, fresh version markers from `s.next` up to `r.next`, and `c` at most re-flagged. */
  ghost predicate AddsMarkersBut(s: Load, r: Load, c: ValueId)
  {
    s.next <= r.next &&
    (forall id :: id in r.values ==> id in s.values || s.next <= id < r.next) &&
    (forall id :: s.next <= id < r.next ==> id in r.values && r.values[id] == NewVersionMarker()) &&
    (forall id :: id in s.values && id < s.next && id != c ==> id in r.values && r.values[id] == s.values[id]) &&
    (c in s.values ==> c in r.values && SameContent(s.values[c], r.values[c]))
  }

  /** A step only adds fresh version markers and re-flags the item. */
  lemma StepAddsMarkers(L: Load, item: Item, t: TableId, table: SymTab)
    requires item.id in L.values && item.id < L.next
    ensures AddsMarkersBut(L, Step(L, item, t, table), item.id)
  {
    var s1 := Lead(L, item.id);
    AddsOneMarkers(L, s1);
    if !item.hidden {
      var s3 := FixTable(s1, t, table);
      AddsOneMarkers(s1, s3);
      AddsMarkersTrans(L, s1, s3);
    }
  }

  /** Each step keeps the values' shape. */
  lemma StepValuesShape(a: Arena, input: seq<Item>, i: nat, L: Load)
    requires StreamOk(a, input) && i < |input| && ValuesShape(a, input, i, L)
    ensures ValuesShape(a, input, i + 1, StepAt(a, input, i, L))
  {
    var c := input[i].id;
    assert c < a.nextValue;
    StepAddsMarkers(L, input[i], TableOf(a, input, i), a.tables[TableOf(a, input, i)]);
    ValuesShapeAfter(a, input, i, L, StepAt(a, input, i, L));
  }

  lemma ValuesShapeAfter(a: Arena, input: seq<Item>, i: nat, L: Load, r: Load)
    requires StreamOk(a, input) && i < |input| && ValuesShape(a, input, i, L)
    requires AddsMarkersBut(L, r, input[i].id)
    ensures ValuesShape(a, input, i + 1, r)
  {
    var c := input[i].id;
    assert c < a.nextValue;
    forall k | i < k < |input| ensures input[k].id != c { }
  }

  /** What a step may append: fresh version markers, the item, and the struct of its table when it inserts one. */
  lemma StepContents(L: Load, item: Item, t: TableId, table: SymTab)
    requires item.id in L.values
    ensures var r := Step(L, item, t, table);
      forall x :: x in r.contents ==>
        x in L.contents || x == item.id || L.next <= x < r.next ||
        (x == table.rep && !item.hidden && FixCond(Lead(L, item.id), t, table))
  {
    var s1 := Lead(L, item.id);
    if !item.hidden {
      var s3 := FixTable(s1, t, table);
      assert L.next <= s1.next <= s3.next;
    }
  }

  /** Each step keeps the physical view's shape. */
  lemma StepViewShape(a: Arena, input: seq<Item>, i: nat, L: Load)
    requires StreamOk(a, input) && RepsOk(a, input) && i < |input| && Shape(a, input, i, L)
    ensures ViewShape(a, input, i + 1, StepAt(a, input, i, L))
  {
    var t := TableOf(a, input, i);
    assert input[i].id < a.nextValue;
    StepContents(L, input[i], t, a.tables[t]);
    StepAddsMarkers(L, input[i], t, a.tables[t]);
    FixCondIsInserts(a, input, i, L);
    ViewShapeAfter(a, input, i, L, StepAt(a, input, i, L));
  }

  lemma ViewShapeAfter(a: Arena, input: seq<Item>, i: nat, L: Load, r: Load)
    requires StreamOk(a, input) && RepsOk(a, input) && i < |input| && Shape(a, input, i, L)
    requires AddsMarkersBut(L, r, input[i].id)
    requires forall x :: x in r.contents ==>
      x in L.contents || x == input[i].id || L.next <= x < r.next ||
      (x == Rep(a, input, i) && Inserts(a, input, i))
    ensures ViewShape(a, input, i + 1, r)
  {
    var c := input[i].id;
    assert c < a.nextValue;
    forall k | i < k < |input| ensures input[k].id != c { }
    if Inserts(a, input, i) {
      assert Rep(a, input, i) < a.nextValue;
      forall k | i < k < |input| && Inserts(a, input, k) ensures Rep(a, input, k) != Rep(a, input, i) { }
    }
    forall k | i < k < |input| && Inserts(a, input, k) ensures Rep(a, input, k) != c && Rep(a, input, k) < a.nextValue { }
  }

  //===========================================================================
  // One step, exactly

  /** A step appends a fresh version marker: before the first item, or before a struct not preceded by one. */
  predicate FreshMarker(s: Load, lead: bool, fix: bool)
  {
    lead || (fix && !PreviousIsMarker(s))
  }

  /** What one step appends to the physical view: the fresh marker if due, the struct if inserted, and the item. */
  function Tail(s: Load, lead: bool, fix: bool, rep: ValueId, c: ValueId): (r: seq<ValueId>)
    ensures 0 < |r| && r[|r| - 1] == c
  {
    (if FreshMarker(s, lead, fix) then [s.next] else []) + (if fix then [rep] else []) + [c]
  }

  /** What a step records: the user view and its positions, where the item landed, and the previous item. */
  ghost predicate Recorded(s: Load, r: Load, item: Item, t: TableId)
  {
    && r.user == s.user + (if item.hidden then [] else [item.id])
    && r.upos == s.upos + (if item.hidden then [] else [|r.contents| - 1])
    && r.pos == s.pos + [|r.contents| - 1]
    && r.previous == Some(t) && r.previousValue == Some(item.id)
  }

  /** The fresh identity a step uses, the item's flags, and the dirty flag after it. */
  ghost predicate Flagged(s: Load, r: Load, item: Item, lead: bool, fix: bool)
  {
    && item.id in s.values && item.id in r.values
    && r.next == (if FreshMarker(s, lead, fix) then s.next + 1 else s.next)
    && (FreshMarker(s, lead, fix) ==> MarkerAt(r.values, s.next))
    && r.values[item.id] == (if item.hidden then MarkedHidden(s.values[item.id]) else s.values[item.id])
    && r.dirty == (s.dirty || lead || fix || r.values[item.id].flags.dirty)
  }

  /**
    `r` is `s` after handling `item` with table `t`, given whether a leading
    marker was due (`lead`) and whether the struct `rep` went in (`fix`).
   */
  ghost predicate Appended(s: Load, r: Load, item: Item, t: TableId, lead: bool, fix: bool, rep: ValueId)
  {
    r.contents == s.contents + Tail(s, lead, fix, rep, item.id) && Recorded(s, r, item, t) && Flagged(s, r, item, lead, fix)
  }

  /** `Step` appends exactly `Tail`, and records the item. */
  lemma StepAppended(L: Load, item: Item, t: TableId, table: SymTab)
    requires item.id in L.values && item.id < L.next
    ensures Appended(L, Step(L, item, t, table), item, t, NeedsLead(L, item.id),
                     !item.hidden && FixCond(Lead(L, item.id), t, table), table.rep)
  {
  }

  /** A leading version marker is due before item `i`: it is the first item and not a marker itself. */
  ghost predicate LeadAt(a: Arena, input: seq<Item>, i: nat)
    requires StreamOk(a, input) && i < |input|
  {
    i == 0 && !IsVersionMarkerSymbol(a.values[input[i].id])
  }

  /** What step `i` appends to the physical view. */
  ghost function TailAt(a: Arena, input: seq<Item>, i: nat, L: Load): seq<ValueId>
    requires StreamOk(a, input) && i < |input|
  {
    Tail(L, LeadAt(a, input, i), Inserts(a, input, i), Rep(a, input, i), input[i].id)
  }

  /** Step `i` in terms of the input: a leading marker exactly when `LeadAt`, a struct exactly when `Inserts`. */
  ghost predicate StepFrom(a: Arena, input: seq<Item>, i: nat, L: Load, r: Load)
    requires StreamOk(a, input) && i < |input|
  {
    Appended(L, r, input[i], TableOf(a, input, i), LeadAt(a, input, i), Inserts(a, input, i), Rep(a, input, i)) &&
    AddsMarkersBut(L, r, input[i].id)
  }

  lemma StepFromAt(a: Arena, input: seq<Item>, i: nat, L: Load)
    requires StreamOk(a, input) && i < |input| && Shape(a, input, i, L)
    ensures StepFrom(a, input, i, L, StepAt(a, input, i, L))
  {
    var c := input[i].id;
    var t := TableOf(a, input, i);
    assert c < a.nextValue;
    assert NeedsLead(L, c) == LeadAt(a, input, i);
    StepAppended(L, input[i], t, a.tables[t]);
    StepAddsMarkers(L, input[i], t, a.tables[t]);
    FixCondIsInserts(a, input, i, L);
  }

  //===========================================================================
  // What the loaded views look like

  /** Item `k` sits at `pos[k]`. */
  ghost predicate ItemAt(input: seq<Item>, k: nat, L: Load)
    requires k < |input|
  {
    k < |L.pos| && L.pos[k] < |L.contents| && L.contents[L.pos[k]] == input[k].id
  }

  /** `x` sits just before the position recorded for item `k`. */
  ghost predicate JustBefore(k: nat, L: Load, x: ValueId)
  {
    k < |L.pos| && 1 <= L.pos[k] <= |L.contents| && L.contents[L.pos[k] - 1] == x
  }

  /** A version marker sits two places before the position recorded for item `k`. */
  ghost predicate MarkerTwoBefore(k: nat, L: Load)
  {
    k < |L.pos| && 2 <= L.pos[k] <= |L.contents| + 1 && MarkerAt(L.values, L.contents[L.pos[k] - 2])
  }

  /** `r` extends `s`: the physical view and the recorded positions only grew, and markers stayed markers. */
  ghost predicate Grows(s: Load, r: Load)
  {
    && |s.contents| <= |r.contents| && (forall j :: 0 <= j < |s.contents| ==> r.contents[j] == s.contents[j])
    && |s.pos| <= |r.pos| && (forall k :: 0 <= k < |s.pos| ==> r.pos[k] == s.pos[k])
    && (forall x :: MarkerAt(s.values, x) ==> MarkerAt(r.values, x))
  }

  /** What holds about an item's place survives growth. */
  lemma GrowsKeeps(input: seq<Item>, k: nat, L: Load, r: Load, x: ValueId)
    requires Grows(L, r) && k < |input|
    ensures ItemAt(input, k, L) ==> ItemAt(input, k, r)
    ensures JustBefore(k, L, x) ==> JustBefore(k, r, x)
    ensures MarkerTwoBefore(k, L) ==> MarkerTwoBefore(k, r)
  {
  }

  /** The physical view has no repetitions, and item `k` sits at `pos[k]`, in input order, the last one last. */
  ghost predicate OrderShape(input: seq<Item>, n: nat, L: Load)
    requires n <= |input|
  {
    && Distinct(L.contents)
    && |L.pos| == n
    && (forall k :: 0 <= k < n ==> ItemAt(input, k, L))
    && (forall k, l :: 0 <= k < l < n ==> L.pos[k] < L.pos[l])
    && (n > 0 ==> L.pos[n - 1] == |L.contents| - 1)
  }

  /** The user view is the visible items, in order, embedded in the physical view. */
  ghost predicate UserShape(input: seq<Item>, n: nat, L: Load)
    requires n <= |input|
  {
    L.user == Visible(input[..n]) && Embedded(L.user, L.contents, L.upos)
  }

  /**
    The physical view starts with a version marker; a needed table's struct
    directly precedes the user value that switches to it; and an inserted
    struct is itself preceded by a version marker.
   */
  ghost predicate TableShape(a: Arena, input: seq<Item>, n: nat, L: Load)
    requires StreamOk(a, input) && n <= |input|
  {
    && (n > 0 ==> |L.contents| > 0 && MarkerAt(L.values, L.contents[0]) &&
                  L.contents[0] == (if LeadAt(a, input, 0) || Inserts(a, input, 0) then a.nextValue else input[0].id))
    && (forall k :: 0 <= k < n && Fixup(a, input, k) ==> JustBefore(k, L, Rep(a, input, k)))
    && (forall k :: 0 <= k < n && Inserts(a, input, k) ==> MarkerTwoBefore(k, L))
  }

  /** Whatever the materializer synthesized made the datagram dirty, and so did dirty items and hidden version markers. */
  ghost predicate DirtyShape(a: Arena, input: seq<Item>, n: nat, L: Load)
    requires StreamOk(a, input) && n <= |input|
  {
    && (!L.dirty ==> L.contents == Ids(input[..n]))
    && (n > 0 && !IsVersionMarkerSymbol(a.values[input[0].id]) ==> L.dirty)
    && (forall k :: 0 <= k < n && Inserts(a, input, k) ==> L.dirty)
    && (forall k :: 0 <= k < n && a.values[input[k].id].flags.dirty ==> L.dirty)
    && (forall k :: 0 <= k < n && input[k].hidden && IsVersionMarkerSymbol(a.values[input[k].id]) ==> L.dirty)
  }

  /** Loaded hidden items are flagged as system values; loaded user items keep their flags. */
  ghost predicate FlagShape(a: Arena, input: seq<Item>, n: nat, L: Load)
    requires StreamOk(a, input) && n <= |input|
  {
    forall k :: 0 <= k < n ==>
      && input[k].id in L.values
      && L.values[input[k].id] == (if input[k].hidden then MarkedHidden(a.values[input[k].id]) else a.values[input[k].id])
  }

  //===========================================================================
  // Each step keeps the shapes

  /** Version markers stay version markers. */
  lemma MarkersKept(a: Arena, input: seq<Item>, i: nat, L: Load, r: Load)
    requires StreamOk(a, input) && i < |input| && ValuesShape(a, input, i, L)
    requires AddsMarkersBut(L, r, input[i].id)
    ensures forall x :: MarkerAt(L.values, x) ==> MarkerAt(r.values, x)
  {
    forall x: ValueId | MarkerAt(L.values, x) ensures MarkerAt(r.values, x) {
      assert x < L.next;
    }
  }

  lemma StepGrows(a: Arena, input: seq<Item>, i: nat, L: Load, r: Load)
    requires StreamOk(a, input) && i < |input| && ValuesShape(a, input, i, L) && StepFrom(a, input, i, L, r)
    ensures Grows(L, r)
  {
    MarkersKept(a, input, i, L, r);
  }

  /** The previous value is the last one of the physical view. */
  ghost predicate LastIsPrevious(L: Load)
  {
    L.previousValue.Some? ==> |L.contents| > 0 && L.contents[|L.contents| - 1] == L.previousValue.value
  }

  /** The item, its struct if inserted, and a fresh marker are new to the physical view. */
  ghost predicate NewAt(a: Arena, input: seq<Item>, i: nat, L: Load)
    requires StreamOk(a, input) && i < |input|
  {
    && (forall x :: x in L.values ==> x < L.next)
    && (forall x :: x in L.contents ==> x < L.next)
    && input[i].id < L.next && input[i].id !in L.contents
    && input[i].id in L.values && L.values[input[i].id] == a.values[input[i].id]
    && (Inserts(a, input, i) ==>
          Rep(a, input, i) < L.next && Rep(a, input, i) != input[i].id && Rep(a, input, i) !in L.contents)
  }

  lemma NewAtShape(a: Arena, input: seq<Item>, i: nat, L: Load)
    requires StreamOk(a, input) && RepsOk(a, input) && i < |input| && Shape(a, input, i, L)
    ensures NewAt(a, input, i, L)
  {
    assert input[i].id < a.nextValue;
    if Inserts(a, input, i) {
      assert Rep(a, input, i) < a.nextValue;
    }
  }

  /** What a step appends is new and without repetitions. */
  lemma TailDistinct(s: Load, lead: bool, fix: bool, rep: ValueId, c: ValueId)
    requires Distinct(s.contents) && (forall x :: x in s.contents ==> x < s.next)
    requires c < s.next && c !in s.contents
    requires fix ==> rep < s.next && rep != c && rep !in s.contents
    ensures Distinct(s.contents + Tail(s, lead, fix, rep, c))
  {
    DistinctConcat(s.contents, Tail(s, lead, fix, rep, c));
  }

  lemma OrderAfter(a: Arena, input: seq<Item>, i: nat, L: Load, r: Load)
    requires StreamOk(a, input) && i < |input|
    requires OrderShape(input, i, L) && NewAt(a, input, i, L)
    requires StepFrom(a, input, i, L, r) && Grows(L, r)
    ensures OrderShape(input, i + 1, r)
  {
    TailDistinct(L, LeadAt(a, input, i), Inserts(a, input, i), Rep(a, input, i), input[i].id);
    forall k | 0 <= k < i ensures ItemAt(input, k, r) {
      GrowsKeeps(input, k, L, r, 0);
    }
  }

  lemma UserAfter(a: Arena, input: seq<Item>, i: nat, L: Load, r: Load)
    requires StreamOk(a, input) && i < |input|
    requires UserShape(input, i, L) && StepFrom(a, input, i, L, r)
    ensures UserShape(input, i + 1, r)
  {
    assert input[..i + 1][..i] == input[..i];
    EmbeddedAppend(L.user, L.contents, L.upos, TailAt(a, input, i, L));
  }

  /** The physical view still starts with a version marker: the synthesized one, or the first item. */
  lemma FirstAfter(a: Arena, input: seq<Item>, i: nat, L: Load, r: Load)
    requires StreamOk(a, input) && i < |input|
    requires i == 0 ==> L == Start(a)
    requires i > 0 ==>
      && |L.contents| > 0 && MarkerAt(L.values, L.contents[0])
      && L.contents[0] == (if LeadAt(a, input, 0) || Inserts(a, input, 0) then a.nextValue else input[0].id)
    requires input[i].id in L.values && L.values[input[i].id] == a.values[input[i].id]
    requires StepFrom(a, input, i, L, r) && Grows(L, r)
    ensures |r.contents| > 0 && MarkerAt(r.values, r.contents[0])
    ensures r.contents[0] == (if LeadAt(a, input, 0) || Inserts(a, input, 0) then a.nextValue else input[0].id)
  {
    if i == 0 {
      assert r.contents == TailAt(a, input, i, L);
    }
  }

  /** The new item's struct and marker are in place. */
  lemma TableNewAfter(a: Arena, input: seq<Item>, i: nat, L: Load, r: Load)
    requires StreamOk(a, input) && i < |input|
    requires PreviousShape(a, input, i, L) && LastIsPrevious(L) && |L.pos| == i
    requires StepFrom(a, input, i, L, r) && Grows(L, r)
    ensures Fixup(a, input, i) ==> JustBefore(i, r, Rep(a, input, i))
    ensures Inserts(a, input, i) ==> MarkerTwoBefore(i, r)
  {
    var tail := TailAt(a, input, i, L);
    if Inserts(a, input, i) {
      assert r.contents[|r.contents| - 2] == Rep(a, input, i);
      if !FreshMarker(L, LeadAt(a, input, i), true) {
        assert r.contents[|r.contents| - 3] == L.contents[|L.contents| - 1];
      }
    } else if Fixup(a, input, i) {
      assert r.contents == L.contents + [input[i].id];
    }
  }

  /** Structs and markers already in place stay in place. */
  lemma TableOldAfter(a: Arena, input: seq<Item>, i: nat, L: Load, r: Load)
    requires StreamOk(a, input) && i < |input|
    requires TableShape(a, input, i, L) && Grows(L, r)
    ensures forall k :: 0 <= k < i && Fixup(a, input, k) ==> JustBefore(k, r, Rep(a, input, k))
    ensures forall k :: 0 <= k < i && Inserts(a, input, k) ==> MarkerTwoBefore(k, r)
  {
    forall k | 0 <= k < i && Fixup(a, input, k) ensures JustBefore(k, r, Rep(a, input, k)) {
      GrowsKeeps(input, k, L, r, Rep(a, input, k));
    }
    forall k | 0 <= k < i && Inserts(a, input, k) ensures MarkerTwoBefore(k, r) {
      GrowsKeeps(input, k, L, r, 0);
    }
  }

  lemma DirtyAfter(a: Arena, input: seq<Item>, i: nat, L: Load, r: Load)
    requires StreamOk(a, input) && i < |input|
    requires DirtyShape(a, input, i, L)
    requires input[i].id in L.values && L.values[input[i].id] == a.values[input[i].id]
    requires StepFrom(a, input, i, L, r)
    ensures DirtyShape(a, input, i + 1, r)
  {
    if !r.dirty {
      assert Ids(input[..i + 1]) == Ids(input[..i]) + [input[i].id];
    }
  }

  lemma FlagAfter(a: Arena, input: seq<Item>, i: nat, L: Load, r: Load)
    requires StreamOk(a, input) && i < |input|
    requires FlagShape(a, input, i, L) && NewAt(a, input, i, L)
    requires StepFrom(a, input, i, L, r)
    ensures FlagShape(a, input, i + 1, r)
  {
    forall k | 0 <= k < i ensures r.values[input[k].id] == L.values[input[k].id] {
      assert input[k].id != input[i].id;
      assert input[k].id < L.next;
    }
  }

  /** All the shapes together. */
  ghost predicate Loaded(a: Arena, input: seq<Item>, n: nat, L: Load)
    requires StreamOk(a, input) && n <= |input|
  {
    Shape(a, input, n, L) && OrderShape(input, n, L) && UserShape(input, n, L) &&
    TableShape(a, input, n, L) && DirtyShape(a, input, n, L) && FlagShape(a, input, n, L)
  }

  /** What a step from a loaded state gives: the bookkeeping shapes, and the step facts the other shapes follow from. */
  lemma StepBasics(a: Arena, input: seq<Item>, i: nat, L: Load)
    requires StreamOk(a, input) && RepsOk(a, input) && i < |input|
    requires Shape(a, input, i, L) && OrderShape(input, i, L)
    ensures var r := StepAt(a, input, i, L);
      Shape(a, input, i + 1, r) && StepFrom(a, input, i, L, r) && Grows(L, r) &&
      NewAt(a, input, i, L) && LastIsPrevious(L)
  {
    var r := StepAt(a, input, i, L);
    StepValuesShape(a, input, i, L);
    StepViewShape(a, input, i, L);
    StepFromAt(a, input, i, L);
    StepGrows(a, input, i, L, r);
    NewAtShape(a, input, i, L);
    if i > 0 {
      assert ItemAt(input, i - 1, L);
    }
  }

  /** The order of the physical view and the user view after a step, from the step facts alone. */
  lemma OrderUserAfter(a: Arena, input: seq<Item>, i: nat, L: Load, r: Load)
    requires StreamOk(a, input) && i < |input| && OrderShape(input, i, L) && UserShape(input, i, L)
    requires StepFrom(a, input, i, L, r) && Grows(L, r) && NewAt(a, input, i, L)
    ensures OrderShape(input, i + 1, r) && UserShape(input, i + 1, r)
  {
    OrderAfter(a, input, i, L, r);
    UserAfter(a, input, i, L, r);
  }

  /** Structs and markers after a step, from the step facts alone. */
  lemma TableAfter(a: Arena, input: seq<Item>, i: nat, L: Load, r: Load)
    requires StreamOk(a, input) && i < |input| && |L.pos| == i
    requires PreviousShape(a, input, i, L) && TableShape(a, input, i, L)
    requires StepFrom(a, input, i, L, r) && Grows(L, r) && NewAt(a, input, i, L) && LastIsPrevious(L)
    ensures TableShape(a, input, i + 1, r)
  {
    FirstAfter(a, input, i, L, r);
    TableNewAfter(a, input, i, L, r);
    TableOldAfter(a, input, i, L, r);
  }

  /** The dirty flag and the value flags after a step, from the step facts alone. */
  lemma DirtyFlagAfter(a: Arena, input: seq<Item>, i: nat, L: Load, r: Load)
    requires StreamOk(a, input) && i < |input| && |L.pos| == i
    requires PreviousShape(a, input, i, L) && TableShape(a, input, i, L)
    requires DirtyShape(a, input, i, L) && FlagShape(a, input, i, L)
    requires StepFrom(a, input, i, L, r) && Grows(L, r) && NewAt(a, input, i, L) && LastIsPrevious(L)
    ensures DirtyShape(a, input, i + 1, r) && FlagShape(a, input, i + 1, r)
  {
    DirtyAfter(a, input, i, L, r);
    FlagAfter(a, input, i, L, r);
  }

  /** Each step keeps every shape. */
  lemma StepLoaded(a: Arena, input: seq<Item>, i: nat, L: Load)
    requires StreamOk(a, input) && RepsOk(a, input) && i < |input| && Loaded(a, input, i, L)
    ensures Loaded(a, input, i + 1, StepAt(a, input, i, L))
  {
    var r := StepAt(a, input, i, L);
    StepBasics(a, input, i, L);
    OrderUserAfter(a, input, i, L, r);
    TableAfter(a, input, i, L, r);
    DirtyFlagAfter(a, input, i, L, r);
  }

  /** The state after any number of steps has every shape. */
  lemma {:induction false} LoadUpToLoaded(a: Arena, input: seq<Item>, n: nat)
    requires StreamOk(a, input) && RepsOk(a, input) && n <= |input|
    ensures Loaded(a, input, n, LoadUpTo(a, input, n))
  {
    if n > 0 {
      var L := LoadUpTo(a, input, n - 1);
      LoadUpToLoaded(a, input, n - 1);
      StepLoaded(a, input, n - 1, L);
    }
  }

  //===========================================================================
  // The loaded datagram

  /** The order and user shapes of a loaded state. */
  lemma LoadUpToOrder(a: Arena, input: seq<Item>, n: nat)
    requires StreamOk(a, input) && RepsOk(a, input) && n <= |input|
    ensures OrderShape(input, n, LoadUpTo(a, input, n)) && UserShape(input, n, LoadUpTo(a, input, n))
  {
    LoadUpToLoaded(a, input, n);
  }

  /** The table shape of a loaded state. */
  lemma LoadUpToTables(a: Arena, input: seq<Item>, n: nat)
    requires StreamOk(a, input) && RepsOk(a, input) && n <= |input|
    ensures TableShape(a, input, n, LoadUpTo(a, input, n)) && |LoadUpTo(a, input, n).pos| == n
  {
    LoadUpToLoaded(a, input, n);
  }

  /** The visible items are exactly the items the parser does not hide. */
  lemma {:induction false} VisibleMembers(input: seq<Item>)
    ensures forall x :: x in Visible(input) <==> exists k :: 0 <= k < |input| && !input[k].hidden && input[k].id == x
  {
    if input != [] {
      var n := |input| - 1;
      VisibleMembers(input[..n]);
      forall x | x in Visible(input) ensures exists k :: 0 <= k < |input| && !input[k].hidden && input[k].id == x {
        if x in Visible(input[..n]) {
          var k :| 0 <= k < n && !input[..n][k].hidden && input[..n][k].id == x;
          assert input[k] == input[..n][k];
        } else {
          assert !input[n].hidden && input[n].id == x;
        }
      }
      forall x | exists k :: 0 <= k < |input| && !input[k].hidden && input[k].id == x ensures x in Visible(input) {
        var k :| 0 <= k < |input| && !input[k].hidden && input[k].id == x;
        if k < n {
          assert input[..n][k] == input[k];
        }
      }
    }
  }

  /** The next item is new to a loaded state, and as the parser gave it. */
  lemma LoadedNew(a: Arena, input: seq<Item>, i: nat)
    requires StreamOk(a, input) && RepsOk(a, input) && i < |input|
    ensures NewAt(a, input, i, LoadUpTo(a, input, i))
  {
    LoadUpToLoaded(a, input, i);
    NewAtShape(a, input, i, LoadUpTo(a, input, i));
  }

  /** A loaded state's arena is closed. */
  lemma LoadedArenaOk(a: Arena, input: seq<Item>, n: nat)
    requires StreamOk(a, input) && RepsOk(a, input) && n <= |input|
    ensures var L := LoadUpTo(a, input, n);
      ArenaOk(a.(values := L.values, nextValue := L.next))
  {
    var L := LoadUpTo(a, input, n);
    LoadUpToLoaded(a, input, n);
    forall id | id in L.values && L.values[id].symtab.Some? ensures L.values[id].symtab.value in a.tables {
      assert id in a.values;
    }
  }

  /** A loaded state's views hold known values, without repetitions, the user view embedded in the physical one. */
  lemma LoadedViewsOk(a: Arena, input: seq<Item>, n: nat)
    requires StreamOk(a, input) && RepsOk(a, input) && n <= |input|
    ensures var L := LoadUpTo(a, input, n);
      && (forall i :: 0 <= i < |L.contents| ==> L.contents[i] in L.values)
      && (forall k :: 0 <= k < |L.user| ==> L.user[k] in L.values)
      && Distinct(L.contents) && Embedded(L.user, L.contents, L.upos)
  {
    var L := LoadUpTo(a, input, n);
    LoadUpToLoaded(a, input, n);
    forall k | 0 <= k < |L.user| ensures L.user[k] in L.values {
      assert L.user[k] == L.contents[L.upos[k]];
    }
  }

  /**
    The materializer's result: every item is in the physical view once, in
    input order; the user view is exactly the items the parser does not
    hide, in order, and a subsequence of the physical view.
   */
  lemma LoadedViews(a: Arena, input: seq<Item>)
    requires StreamOk(a, input) && RepsOk(a, input)
    ensures var L := LoadUpTo(a, input, |input|);
      && Distinct(L.contents)
      && |L.pos| == |input|
      && (forall k :: 0 <= k < |input| ==> L.pos[k] < |L.contents| && L.contents[L.pos[k]] == input[k].id)
      && (forall k, l :: 0 <= k < l < |input| ==> L.pos[k] < L.pos[l])
      && L.user == Visible(input)
      && (forall k :: 0 <= k < |input| ==> (input[k].id in L.user <==> !input[k].hidden))
      && IsSubsequence(L.user, L.contents)
  {
    var L := LoadUpTo(a, input, |input|);
    LoadUpToOrder(a, input, |input|);
    assert input[..|input|] == input;
    forall k | 0 <= k < |input| ensures L.pos[k] < |L.contents| && L.contents[L.pos[k]] == input[k].id {
      assert ItemAt(input, k, L);
    }
    VisibleMembers(input);
    EmbeddedIsSubsequence(L.user, L.contents, L.upos);
  }

  /**
    The loaded physical view starts with a version marker, the synthesized
    one unless the stream starts with a marker that needs no struct; the
    struct of each needed table directly precedes the user value that
    switches to it, and an inserted struct is preceded by a marker.
   */
  lemma LoadedTables(a: Arena, input: seq<Item>)
    requires StreamOk(a, input) && RepsOk(a, input)
    ensures var L := LoadUpTo(a, input, |input|);
      && (input != [] ==>
            && |L.contents| > 0 && MarkerAt(L.values, L.contents[0])
            && (!IsVersionMarkerSymbol(a.values[input[0].id]) ==> L.contents[0] == a.nextValue))
      && |L.pos| == |input|
      && (forall k :: 0 <= k < |input| && Fixup(a, input, k) ==> JustBefore(k, L, Rep(a, input, k)))
      && (forall k :: 0 <= k < |input| && Inserts(a, input, k) ==> MarkerTwoBefore(k, L))
  {
    LoadUpToTables(a, input, |input|);
  }

  /**
    Whatever the materializer synthesizes makes the datagram dirty, and so
    do dirty items and hidden version markers: a datagram that loads clean
    holds exactly the parser's output. Hidden items are flagged as system
    values, the content of every value is kept, and the only new values are
    version markers.
   */
  lemma LoadedFlags(a: Arena, input: seq<Item>)
    requires StreamOk(a, input) && RepsOk(a, input)
    ensures var L := LoadUpTo(a, input, |input|);
      && (!L.dirty ==> L.contents == Ids(input))
      && (input != [] && !IsVersionMarkerSymbol(a.values[input[0].id]) ==> L.dirty)
      && (forall k :: 0 <= k < |input| && Inserts(a, input, k) ==> L.dirty)
      && (forall k :: 0 <= k < |input| && a.values[input[k].id].flags.dirty ==> L.dirty)
      && (forall k :: 0 <= k < |input| && input[k].hidden && IsVersionMarkerSymbol(a.values[input[k].id]) ==> L.dirty)
      && (forall k :: 0 <= k < |input| ==>
            && input[k].id in L.values
            && L.values[input[k].id] == (if input[k].hidden then MarkedHidden(a.values[input[k].id]) else a.values[input[k].id]))
      && KeepsContent(a.values, L.values)
      && (forall id :: id in L.values && id !in a.values ==> IsVersionMarkerSymbol(L.values[id]))
  {
    var L := LoadUpTo(a, input, |input|);
    LoadUpToLoaded(a, input, |input|);
    assert input[..|input|] == input;
  }
}
