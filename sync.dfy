/**
  The structural part of the buffer sync, as a function of the datagram's
  state: a datagram that is empty gets a version marker; a dirty datagram
  gets one in front when it does not start with one, and every user value
  whose symbol table must be written out gets that table's struct just
  before it (behind a version marker) when the struct has no container yet.
 */
module Sync {
  import opened IonValues
  import opened Positions
  import opened Resolver
  import opened Arenas
  import opened ViewsConsistency

  /**
    The datagram's state as the sync sees it. `orig` records where the
    values of the physical view the sync started from now sit.
   */
  datatype State = State(arena: Arena, contents: seq<ValueId>, user: seq<ValueId>,
                         upos: seq<nat>, orig: seq<nat>, dirty: bool)

  /** The datagram's invariant on a state. */
  ghost predicate Good(d: State)
  {
    ArenaOk(d.arena) && ViewsOk(d.arena.values, d.contents, d.user, d.upos)
  }

  /** The struct of the symbol table of value `u`, when that table is one that must be written out. */
  function NeededStruct(values: map<ValueId, Value>, tables: map<TableId, SymTab>, u: ValueId): (r: Option<ValueId>)
    ensures r.Some? <==>
      && u in values && values[u].symtab.Some? && values[u].symtab.value in tables
      && IsNeededLocalSymbolTable(tables[values[u].symtab.value])
    ensures r.Some? ==> r.value == tables[values[u].symtab.value].rep
  {
    if u in values && values[u].symtab.Some? && values[u].symtab.value in tables &&
       IsNeededLocalSymbolTable(tables[values[u].symtab.value])
    then Some(tables[values[u].symtab.value].rep)
    else None
  }

  /** `makeIonVersionMarker` on a state: a fresh `$ion_1_0` symbol enters the arena. */
  function AddMarker(d: State): (r: State)
    requires Good(d)
    ensures Good(r) && r.contents == d.contents && r.user == d.user
    ensures d.arena.nextValue !in d.contents && d.arena.values.Keys <= r.arena.values.Keys
    ensures MarkerAt(r.arena.values, d.arena.nextValue)
  {
    ArenaOkAddValue(d.arena, NewVersionMarker());
    ViewsOkGrow(d.arena.values, d.arena.values[d.arena.nextValue := NewVersionMarker()], d.contents, d.user, d.upos);
    d.(arena := d.arena.(values := d.arena.values[d.arena.nextValue := NewVersionMarker()],
                         nextValue := d.arena.nextValue + 1))
  }

  /**
    The private `add(e, p, -1)` on a state, for an `e` without a container:
    the table forcing, then `e` enters the physical view at `p` only.
   */
  ghost function Insert(d: State, e: ValueId, p: nat, systemMaxId: int): (r: State)
    requires Good(d) && e in d.arena.values && e !in d.contents && p <= |d.contents|
    ensures Good(r) && r.user == d.user && r.contents == InsertAt(d.contents, p, e)
    ensures d.arena.values.Keys <= r.arena.values.Keys
  {
    ResolveIn(d.arena, d.contents, d.user, -1, p);
    var found := Resolve(d.arena.values, d.contents, d.user, -1, p);
    var forced := ForceTable(d.arena, e, found, systemMaxId);
    ForceTableFrame(d.arena, e, found, systemMaxId);
    ViewsOkGrow(d.arena.values, forced.values, d.contents, d.user, d.upos);
    ViewsOkInsert(forced.values, d.contents, d.user, d.upos, e, p, -1);
    State(forced, InsertAt(d.contents, p, e), d.user, ShiftUp(d.upos, p), ShiftUp(d.orig, p), true)
  }

  /** A fresh marker was not known before, and only grows the arena. */
  lemma AddMarkerGood(d: State)
    requires Good(d)
    ensures d.arena.nextValue !in d.arena.values
    ensures Extends(d.arena, AddMarker(d).arena)
  {
  }

  /**
    Inserting a value the physical view lacks keeps the state good, changes
    no other value, keeps what the value says, and only grows the arena.
   */
  lemma InsertGood(d: State, e: ValueId, p: nat, systemMaxId: int)
    requires Good(d) && e in d.arena.values && e !in d.contents && p <= |d.contents|
    ensures var r := Insert(d, e, p, systemMaxId);
      && r.contents == InsertAt(d.contents, p, e)
      && Unchanged(d.arena.values, r.arena.values, e) && Extends(d.arena, r.arena)
      && e in r.arena.values && r.arena.values[e].body == d.arena.values[e].body
      && r.arena.values[e].heldElsewhere == d.arena.values[e].heldElsewhere
  {
    ResolveIn(d.arena, d.contents, d.user, -1, p);
    ForceTableFrame(d.arena, e, Resolve(d.arena.values, d.contents, d.user, -1, p), systemMaxId);
  }

  /** A fresh version marker goes in at `pos`, then `sym` just after it. */
  ghost function MarkedInsert(d: State, sym: ValueId, pos: nat, systemMaxId: int): (r: State)
    requires Good(d) && sym in d.arena.values && sym !in d.contents && pos <= |d.contents|
    ensures Good(r) && r.user == d.user
  {
    var d1 := AddMarker(d);
    var d2 := Insert(d1, d.arena.nextValue, pos, systemMaxId);
    InsertAtIn(d.contents, pos, d.arena.nextValue);
    Insert(d2, sym, pos + 1, systemMaxId)
  }

  /** The struct `sym` goes in at `pos`, behind a fresh version marker unless one is already just before. */
  ghost function PlaceStruct(d: State, sym: ValueId, pos: nat, systemMaxId: int): (r: State)
    requires Good(d) && sym in d.arena.values && sym !in d.contents && pos <= |d.contents|
    ensures Good(r) && r.user == d.user
  {
    if pos < 1 || !IsVersionMarkerSymbol(d.arena.values[d.contents[pos - 1]]) then
      MarkedInsert(d, sym, pos, systemMaxId)
    else
      Insert(d, sym, pos, systemMaxId)
  }

  /**
    One turn of the sync loop, for the user value at `ii`: when its symbol
    table must be written out and the table's struct has no container, the
    struct goes in just before the value.
   */
  ghost function Place(d: State, ii: nat, systemMaxId: int): (r: State)
    requires Good(d) && ii < |d.user|
    ensures Good(r) && r.user == d.user
  {
    var child := d.user[ii];
    var sym := NeededStruct(d.arena.values, d.arena.tables, child);
    if sym.None? || sym.value in d.contents || d.arena.values[sym.value].heldElsewhere then d
    else PlaceStruct(d, sym.value, IndexOf(d.contents, child), systemMaxId)
  }

  //===========================================================================
  // One turn of the loop

  /**
    From `d0` to `d`: the user view is the same, the arena only grew, every
    value keeps what it says and whether another container holds it, and the
    values of `d0`'s physical view are untouched.
   */
  ghost predicate Kept(d0: State, d: State)
  {
    && Extends(d0.arena, d.arena) && d.user == d0.user
    && (forall id :: id in d0.arena.values ==>
          id in d.arena.values && d.arena.values[id].body == d0.arena.values[id].body &&
          d.arena.values[id].heldElsewhere == d0.arena.values[id].heldElsewhere)
    && (forall id :: id in d0.contents && id in d0.arena.values ==>
          id in d.arena.values && d.arena.values[id] == d0.arena.values[id])
  }

  /**
    What the sync keeps, relative to the state `d0` it started from: the
    state is good, `Kept` holds, and `d0`'s physical view is embedded at `orig`.
   */
  ghost predicate Base(d0: State, d: State)
  {
    Good(d) && Kept(d0, d) && Embedded(d0.contents, d.contents, d.orig)
  }

  /** What a turn of the loop keeps: `Base`, and the physical view starts with a version marker. */
  ghost predicate Steady(d0: State, d: State)
  {
    Base(d0, d) && |d.contents| > 0 && MarkerAt(d.arena.values, d.contents[0])
  }

  /** A step that changes at most what `e` refers to, and keeps what `e` says, keeps `Kept`. */
  lemma KeptStep(d0: State, d: State, r: State, e: ValueId)
    requires Kept(d0, d) && e in d.arena.values && e !in d0.contents
    requires Unchanged(d.arena.values, r.arena.values, e) && Extends(d.arena, r.arena) && r.user == d.user
    requires e in r.arena.values && r.arena.values[e].body == d.arena.values[e].body
    requires r.arena.values[e].heldElsewhere == d.arena.values[e].heldElsewhere
    ensures Kept(d0, r)
  {
  }

  /** Inserting a value that is in neither physical view keeps `Base`. */
  lemma InsertBase(d0: State, d: State, e: ValueId, p: nat, systemMaxId: int)
    requires Base(d0, d) && e in d.arena.values && e !in d.contents && p <= |d.contents|
    ensures Base(d0, Insert(d, e, p, systemMaxId))
  {
    var r := Insert(d, e, p, systemMaxId);
    InsertGood(d, e, p, systemMaxId);
    EmbeddedInsert(d0.contents, d.contents, d.orig, p, e);
    EmbeddedIn(d0.contents, d.contents, d.orig);
    KeptStep(d0, d, r, e);
  }

  /** A fresh marker keeps `Base`. */
  lemma AddMarkerBase(d0: State, d: State)
    requires Base(d0, d)
    ensures Base(d0, AddMarker(d))
  {
    AddMarkerGood(d);
    var r := AddMarker(d);
    EmbeddedIn(d0.contents, d.contents, d.orig);
    assert Unchanged(d.arena.values, r.arena.values, d.arena.nextValue);
  }

  /** Inserting a value that is in neither physical view keeps what the loop keeps; in front, only a marker. */
  lemma InsertSteady(d0: State, d: State, e: ValueId, p: nat, systemMaxId: int)
    requires Steady(d0, d) && e in d.arena.values && e !in d.contents && p <= |d.contents|
    requires p == 0 ==> MarkerAt(d.arena.values, e)
    ensures Steady(d0, Insert(d, e, p, systemMaxId))
  {
    InsertBase(d0, d, e, p, systemMaxId);
    InsertGood(d, e, p, systemMaxId);
  }

  /** A fresh marker keeps what the loop keeps. */
  lemma AddMarkerSteady(d0: State, d: State)
    requires Steady(d0, d)
    ensures Steady(d0, AddMarker(d))
  {
    AddMarkerBase(d0, d);
  }

  /** A fresh marker at `pos` keeps what the loop keeps and leaves `sym` where it was. */
  lemma MarkerInsertSteady(d0: State, d: State, sym: ValueId, pos: nat, systemMaxId: int)
    requires Steady(d0, d) && sym in d.arena.values && sym !in d.contents && pos <= |d.contents|
    ensures var r := Insert(AddMarker(d), d.arena.nextValue, pos, systemMaxId);
      Steady(d0, r) && sym in r.arena.values && sym !in r.contents && pos + 1 <= |r.contents|
  {
    var d1 := AddMarker(d);
    AddMarkerSteady(d0, d);
    InsertSteady(d0, d1, d.arena.nextValue, pos, systemMaxId);
    InsertAtIn(d.contents, pos, d.arena.nextValue);
  }

  /** The struct `sym` goes in at `pos` behind a fresh marker: what the loop keeps is kept. */
  lemma MarkedInsertSteady(d0: State, d: State, sym: ValueId, pos: nat, systemMaxId: int)
    requires Steady(d0, d) && sym in d.arena.values && sym !in d.contents && pos <= |d.contents|
    ensures Steady(d0, MarkedInsert(d, sym, pos, systemMaxId))
  {
    MarkerInsertSteady(d0, d, sym, pos, systemMaxId);
    var d2 := Insert(AddMarker(d), d.arena.nextValue, pos, systemMaxId);
    InsertSteady(d0, d2, sym, pos + 1, systemMaxId);
  }

  /** Putting a struct in keeps what the loop keeps. */
  lemma PlaceStructSteady(d0: State, d: State, sym: ValueId, pos: nat, systemMaxId: int)
    requires Steady(d0, d) && sym in d.arena.values && sym !in d.contents && pos <= |d.contents|
    ensures Steady(d0, PlaceStruct(d, sym, pos, systemMaxId))
  {
    if pos < 1 || !IsVersionMarkerSymbol(d.arena.values[d.contents[pos - 1]]) {
      MarkedInsertSteady(d0, d, sym, pos, systemMaxId);
    } else {
      InsertSteady(d0, d, sym, pos, systemMaxId);
    }
  }

  /** A turn of the loop keeps what the loop keeps, and a dirty state stays dirty. */
  lemma PlaceSteady(d0: State, d: State, ii: nat, systemMaxId: int)
    requires Steady(d0, d) && ii < |d.user|
    ensures Steady(d0, Place(d, ii, systemMaxId))
    ensures d.dirty ==> Place(d, ii, systemMaxId).dirty
  {
    var child := d.user[ii];
    var sym := NeededStruct(d.arena.values, d.arena.tables, child);
    if !(sym.None? || sym.value in d.contents || d.arena.values[sym.value].heldElsewhere) {
      PlaceStructSteady(d0, d, sym.value, IndexOf(d.contents, child), systemMaxId);
    }
  }

  //===========================================================================
  // Where a turn of the loop puts things

  /**
    From `d` to `r`, positions below `p` are untouched: the values there stay,
    user values there keep their places, nothing leaves the physical view,
    and markers stay markers.
   */
  ghost predicate Prefix(d: State, r: State, p: nat)
  {
    && |r.upos| == |d.upos| && p <= |d.contents| && p <= |r.contents|
    && (forall x :: x in d.contents ==> x in r.contents)
    && (forall k :: 0 <= k < |d.upos| && d.upos[k] < p ==> r.upos[k] == d.upos[k])
    && (forall j :: 0 <= j < p ==> r.contents[j] == d.contents[j])
    && (forall x :: MarkerAt(d.arena.values, x) ==> MarkerAt(r.arena.values, x))
  }

  /** From `d` to `r`, only `e` and fresh version markers entered the physical view. */
  ghost predicate OnlyNew(d: State, r: State, e: ValueId)
  {
    forall x :: x in r.contents ==> x in d.contents || x == e || (x >= d.arena.nextValue && MarkerAt(r.arena.values, x))
  }

  /** From `d` to `r`: positions below `p` untouched, only `e` and fresh markers in, and no identity reused. */
  ghost predicate Grew(d: State, r: State, p: nat, e: ValueId)
  {
    Prefix(d, r, p) && OnlyNew(d, r, e) && d.arena.nextValue <= r.arena.nextValue
  }

  /** The user value `k` sits just behind `sym`, which sits just behind a version marker. */
  ghost predicate PutBefore(r: State, k: nat, sym: ValueId)
  {
    k < |r.upos| && 2 <= r.upos[k] < |r.contents| && r.contents[r.upos[k] - 1] == sym &&
    MarkerAt(r.arena.values, r.contents[r.upos[k] - 2])
  }

  /**
    An insertion at `p` leaves the positions below `p` alone, brings in only
    `e`, and moves the user value that sat at `p` one place up, just behind `e`.
   */
  lemma InsertPlaces(d: State, e: ValueId, p: nat, systemMaxId: int)
    requires Good(d) && e in d.arena.values && e !in d.contents && p <= |d.contents|
    ensures var r := Insert(d, e, p, systemMaxId);
      && Grew(d, r, p, e)
      && p < |r.contents| && r.contents[p] == e
      && (forall k :: 0 <= k < |d.upos| && d.upos[k] == p ==> r.upos[k] == p + 1)
  {
    var r := Insert(d, e, p, systemMaxId);
    InsertGood(d, e, p, systemMaxId);
    InsertAtIn(d.contents, p, e);
  }

  /** A fresh marker changes no view and no known value. */
  lemma AddMarkerPlaces(d: State, p: nat)
    requires Good(d) && p <= |d.contents|
    ensures Grew(d, AddMarker(d), p, d.arena.nextValue)
  {
  }

  /** Positions below `p` untouched twice over are untouched. */
  lemma PrefixTrans(d: State, d1: State, r: State, p: nat, q: nat)
    requires Prefix(d, d1, p) && Prefix(d1, r, q) && p <= q
    ensures Prefix(d, r, p)
  {
  }

  /** A fresh marker in at `p`, then `e` in at `p + 1`: growth at `p` that brings in `e`. */
  lemma GrewTrans(d: State, d1: State, r: State, p: nat, e: ValueId)
    requires Grew(d, d1, p, d.arena.nextValue) && Grew(d1, r, p + 1, e) && MarkerAt(d1.arena.values, d.arena.nextValue)
    ensures Grew(d, r, p, e)
  {
  }

  /** The marked insertion of `sym` at `pos`, where the user value `k` sits. */
  lemma MarkedInsertPlaces(d: State, sym: ValueId, pos: nat, k: nat, systemMaxId: int)
    requires Good(d) && sym in d.arena.values && sym !in d.contents && pos <= |d.contents|
    requires k < |d.upos| && d.upos[k] == pos
    ensures var r := MarkedInsert(d, sym, pos, systemMaxId);
      Grew(d, r, pos, sym) && PutBefore(r, k, sym)
  {
    var m := d.arena.nextValue;
    var d1 := AddMarker(d);
    AddMarkerPlaces(d, pos);
    var d2 := Insert(d1, m, pos, systemMaxId);
    InsertPlaces(d1, m, pos, systemMaxId);
    InsertAtIn(d.contents, pos, m);
    var r := Insert(d2, sym, pos + 1, systemMaxId);
    assert r == MarkedInsert(d, sym, pos, systemMaxId);
    InsertPlaces(d2, sym, pos + 1, systemMaxId);
    PrefixTrans(d, d1, d2, pos, pos);
    GrewTrans(d, d2, r, pos, sym);
    assert r.upos[k] == pos + 2;
    assert r.contents[pos] == m;
  }

  /** The insertion of `sym` at `pos`, where the user value `k` sits, just behind a marker. */
  lemma BehindMarkerPlaces(d: State, sym: ValueId, pos: nat, k: nat, systemMaxId: int)
    requires Good(d) && sym in d.arena.values && sym !in d.contents && 1 <= pos <= |d.contents|
    requires k < |d.upos| && d.upos[k] == pos && MarkerAt(d.arena.values, d.contents[pos - 1])
    ensures var r := Insert(d, sym, pos, systemMaxId);
      Grew(d, r, pos, sym) && PutBefore(r, k, sym)
  {
    var r := Insert(d, sym, pos, systemMaxId);
    InsertPlaces(d, sym, pos, systemMaxId);
    assert r.upos[k] == pos + 1;
    assert r.contents[pos - 1] == d.contents[pos - 1];
  }

  /**
    Putting the struct in at `pos`, where the user value `k` sits: positions
    below `pos` are untouched, only the struct and fresh markers come in, and
    the user value ends up just behind the struct, which is just behind a
    version marker.
   */
  lemma PutStructPlaces(d: State, sym: ValueId, pos: nat, k: nat, systemMaxId: int)
    requires Good(d) && sym in d.arena.values && sym !in d.contents && pos <= |d.contents|
    requires k < |d.upos| && d.upos[k] == pos
    ensures var r := PlaceStruct(d, sym, pos, systemMaxId);
      Grew(d, r, pos, sym) && PutBefore(r, k, sym)
  {
    if pos < 1 || !IsVersionMarkerSymbol(d.arena.values[d.contents[pos - 1]]) {
      MarkedInsertPlaces(d, sym, pos, k, systemMaxId);
    } else {
      BehindMarkerPlaces(d, sym, pos, k, systemMaxId);
    }
  }

  /**
    A turn for the user value at `ii` changes nothing unless the value's
    table must be written out and its struct has no container; then the
    struct comes in, positions below the value are untouched, and the value
    sits just behind the struct, which sits just behind a version marker.
   */
  lemma PlacePlaces(d: State, ii: nat, systemMaxId: int)
    requires Good(d) && ii < |d.user|
    ensures var R := NeededStruct(d.arena.values, d.arena.tables, d.user[ii]);
      R.None? || R.value in d.contents || (R.value in d.arena.values && d.arena.values[R.value].heldElsewhere) ==>
        Place(d, ii, systemMaxId) == d
    ensures var R := NeededStruct(d.arena.values, d.arena.tables, d.user[ii]);
      R.Some? && R.value !in d.contents && R.value in d.arena.values && !d.arena.values[R.value].heldElsewhere ==>
        && Grew(d, Place(d, ii, systemMaxId), d.upos[ii], R.value)
        && PutBefore(Place(d, ii, systemMaxId), ii, R.value)
  {
    var R := NeededStruct(d.arena.values, d.arena.tables, d.user[ii]);
    if R.Some? && R.value !in d.contents && !d.arena.values[R.value].heldElsewhere {
      IndexOfDistinct(d.contents, d.upos[ii]);
      PutStructPlaces(d, R.value, d.upos[ii], ii, systemMaxId);
    }
  }

  /** The struct comes in at `pos`, with a fresh marker just before it exactly when none sits at `pos - 1`. */
  lemma PlaceStructAdds(d: State, sym: ValueId, pos: nat, systemMaxId: int)
    requires Good(d) && sym in d.arena.values && sym !in d.contents && pos <= |d.contents|
    ensures PlaceStruct(d, sym, pos, systemMaxId).contents ==
      if pos >= 1 && MarkerAt(d.arena.values, d.contents[pos - 1]) then InsertAt(d.contents, pos, sym)
      else InsertAt(InsertAt(d.contents, pos, d.arena.nextValue), pos + 1, sym)
  {
  }

  /**
    A turn that places a struct adds no surplus marker: when a version marker
    already sits just before the user value, only the struct comes in;
    otherwise exactly one fresh marker and the struct.
   */
  lemma PlaceAdds(d: State, ii: nat, systemMaxId: int)
    requires Good(d) && ii < |d.user|
    ensures var R := NeededStruct(d.arena.values, d.arena.tables, d.user[ii]);
      var p := d.upos[ii];
      R.Some? && R.value !in d.contents && R.value in d.arena.values && !d.arena.values[R.value].heldElsewhere ==>
        Place(d, ii, systemMaxId).contents ==
          if p >= 1 && MarkerAt(d.arena.values, d.contents[p - 1]) then InsertAt(d.contents, p, R.value)
          else InsertAt(InsertAt(d.contents, p, d.arena.nextValue), p + 1, R.value)
  {
    var R := NeededStruct(d.arena.values, d.arena.tables, d.user[ii]);
    if R.Some? && R.value !in d.contents && !d.arena.values[R.value].heldElsewhere {
      IndexOfDistinct(d.contents, d.upos[ii]);
      PlaceStructAdds(d, R.value, d.upos[ii], systemMaxId);
    }
  }

  //===========================================================================
  // The loop

  /** The struct `StructOf(d0, k)` the `k`-th user value needs written out, if any. */
  function StructOf(d0: State, k: nat): Option<ValueId>
    requires k < |d0.user|
  {
    NeededStruct(d0.arena.values, d0.arena.tables, d0.user[k])
  }

  /** One of the first `n` user values needs `x` as its struct. */
  ghost predicate NeededBefore(d0: State, x: ValueId, n: nat)
  {
    exists j :: 0 <= j < n && j < |d0.user| && StructOf(d0, j) == Some(x)
  }

  /**
    Only values of `d0`'s physical view, fresh version markers and structs
    the first `n` user values need are in `d`'s physical view.
   */
  ghost predicate OnlyAdmitted(d0: State, d: State, n: nat)
  {
    forall x :: x in d.contents ==>
      x in d0.contents || (x >= d0.arena.nextValue && MarkerAt(d.arena.values, x)) || NeededBefore(d0, x, n)
  }

  /** The struct the `k`-th user value needs has a container in `d`. */
  ghost predicate Carried(d0: State, d: State, k: nat)
    requires k < |d0.user|
  {
    var R := StructOf(d0, k);
    R.Some? ==> R.value in d.contents || (R.value in d0.arena.values && d0.arena.values[R.value].heldElsewhere)
  }

  /**
    The struct the `k`-th user value needs had no container when the sync
    started, and no earlier user value needs it: this is the value it must
    be placed before.
   */
  ghost predicate FirstNeed(d0: State, k: nat)
    requires k < |d0.user|
  {
    var R := StructOf(d0, k);
    && R.Some? && R.value !in d0.contents && R.value in d0.arena.values
    && !d0.arena.values[R.value].heldElsewhere
    && forall j :: 0 <= j < k ==> StructOf(d0, j) != R
  }

  /** What the first `n` turns have achieved. */
  ghost predicate Placed(d0: State, d: State, n: nat)
    requires n <= |d0.user|
  {
    forall k :: 0 <= k < n ==>
      Carried(d0, d, k) && (FirstNeed(d0, k) ==> PutBefore(d, k, StructOf(d0, k).value))
  }

  /** The loop invariant after `n` turns. */
  ghost predicate Progress(d0: State, d: State, n: nat)
  {
    n <= |d0.user| && Steady(d0, d) && d.dirty && OnlyAdmitted(d0, d, n) && Placed(d0, d, n)
  }

  /** A user value of `d0` needs the same struct in any state that kept `d0`'s values. */
  lemma StructKept(d0: State, d: State, k: nat)
    requires Good(d0) && Kept(d0, d) && k < |d0.user|
    ensures NeededStruct(d.arena.values, d.arena.tables, d.user[k]) == StructOf(d0, k)
  {
    assert d0.user[k] in d0.contents by {
      assert d0.contents[d0.upos[k]] == d0.user[k];
    }
  }

  /** A turn admits only the struct of the value it is about. */
  lemma AdmittedStep(d0: State, d: State, n: nat, systemMaxId: int)
    requires Good(d0) && Progress(d0, d, n) && n < |d0.user|
    ensures OnlyAdmitted(d0, Place(d, n, systemMaxId), n + 1)
  {
    var r := Place(d, n, systemMaxId);
    StructKept(d0, d, n);
    PlacePlaces(d, n, systemMaxId);
    var R := StructOf(d0, n);
    forall x | x in r.contents
      ensures x in d0.contents || (x >= d0.arena.nextValue && MarkerAt(r.arena.values, x)) || NeededBefore(d0, x, n + 1)
    {
      if x in d.contents {
        if NeededBefore(d0, x, n) {
          var j :| 0 <= j < n && j < |d0.user| && StructOf(d0, j) == Some(x);
        }
      } else if R.Some? && x == R.value {
        assert StructOf(d0, n) == Some(x);
      }
    }
  }

  /** A struct that must be placed first at the `n`-th user value is not yet in the physical view. */
  lemma NotYetIn(d0: State, d: State, n: nat)
    requires Good(d0) && Progress(d0, d, n) && n < |d0.user| && FirstNeed(d0, n)
    ensures StructOf(d0, n).value !in d.contents
  {
    assert !NeededBefore(d0, StructOf(d0, n).value, n);
  }

  /** Untouched positions below the `n`-th user value keep an earlier user value's placement. */
  lemma PutBeforeKept(d: State, r: State, n: nat, k: nat, x: ValueId)
    requires Good(d) && k < n < |d.upos| && Prefix(d, r, d.upos[n]) && PutBefore(d, k, x)
    ensures PutBefore(r, k, x)
  {
    assert d.upos[k] < d.upos[n];
  }

  /** A turn keeps what the earlier turns achieved. */
  lemma PlacedEarlier(d0: State, d: State, n: nat, systemMaxId: int)
    requires Good(d0) && Progress(d0, d, n) && n < |d0.user|
    ensures Placed(d0, Place(d, n, systemMaxId), n)
  {
    var r := Place(d, n, systemMaxId);
    StructKept(d0, d, n);
    PlacePlaces(d, n, systemMaxId);
    forall k | 0 <= k < n && r != d && FirstNeed(d0, k)
      ensures PutBefore(r, k, StructOf(d0, k).value)
    {
      PutBeforeKept(d, r, n, k, StructOf(d0, k).value);
    }
  }

  /** A turn gets a container for the struct its user value needs, placed just before it when it is the first to need it. */
  lemma PlacedHere(d0: State, d: State, n: nat, systemMaxId: int)
    requires Good(d0) && Progress(d0, d, n) && n < |d0.user|
    ensures Carried(d0, Place(d, n, systemMaxId), n)
    ensures FirstNeed(d0, n) ==> PutBefore(Place(d, n, systemMaxId), n, StructOf(d0, n).value)
  {
    StructKept(d0, d, n);
    PlacePlaces(d, n, systemMaxId);
    if FirstNeed(d0, n) {
      NotYetIn(d0, d, n);
    }
  }

  /** A turn keeps what the earlier turns achieved, and achieves its own. */
  lemma PlacedStep(d0: State, d: State, n: nat, systemMaxId: int)
    requires Good(d0) && Progress(d0, d, n) && n < |d0.user|
    ensures Placed(d0, Place(d, n, systemMaxId), n + 1)
  {
    PlacedEarlier(d0, d, n, systemMaxId);
    PlacedHere(d0, d, n, systemMaxId);
  }

  /** A turn keeps the loop invariant. */
  lemma ProgressStep(d0: State, d: State, n: nat, systemMaxId: int)
    requires Good(d0) && Progress(d0, d, n) && n < |d0.user|
    ensures Progress(d0, Place(d, n, systemMaxId), n + 1)
  {
    PlaceSteady(d0, d, n, systemMaxId);
    AdmittedStep(d0, d, n, systemMaxId);
    PlacedStep(d0, d, n, systemMaxId);
  }

  //===========================================================================
  // The whole sync

  /** A version marker in front of the physical view: the marker the sync inserts at position 0. */
  ghost function MarkerInFront(d: State, systemMaxId: int): (r: State)
    requires Good(d)
    ensures Good(r) && r.user == d.user
  {
    Insert(AddMarker(d), d.arena.nextValue, 0, systemMaxId)
  }

  /**
    The part of the sync before the loop: an empty datagram gets a version
    marker; a dirty one that does not start with a marker gets one in front.
   */
  ghost function Front(d: State, systemMaxId: int): (r: State)
    requires Good(d)
    ensures Good(r) && r.user == d.user
  {
    var d1 := if |d.contents| == 0 then MarkerInFront(d, systemMaxId) else d;
    if d1.dirty && |d1.contents| > 0 && !IsVersionMarkerSymbol(d1.arena.values[d1.contents[0]]) then
      MarkerInFront(d1, systemMaxId)
    else d1
  }

  /** A marker in front keeps what the sync keeps, starts the view with a marker, and admits only a fresh marker. */
  lemma MarkerInFrontSteady(d0: State, d: State, systemMaxId: int)
    requires Base(d0, d) && OnlyAdmitted(d0, d, 0) && d0.arena.nextValue <= d.arena.nextValue
    ensures var r := MarkerInFront(d, systemMaxId);
      Steady(d0, r) && OnlyAdmitted(d0, r, 0) && r.dirty
  {
    var d1 := AddMarker(d);
    AddMarkerBase(d0, d);
    InsertBase(d0, d1, d.arena.nextValue, 0, systemMaxId);
    InsertGood(d1, d.arena.nextValue, 0, systemMaxId);
    InsertAtIn(d.contents, 0, d.arena.nextValue);
  }

  /** Everything the sync keeps holds between a state and itself. */
  lemma BaseSelf(d: State)
    requires Good(d) && Embedded(d.contents, d.contents, d.orig)
    ensures Base(d, d) && OnlyAdmitted(d, d, 0)
  {
  }

  /**
    The part before the loop: the datagram is dirty afterwards exactly when
    it was dirty or empty; a clean datagram is left alone; a dirty one
    starts with a version marker and has gained only fresh markers; one
    that already starts with a marker is left alone.
   */
  lemma FrontProgress(d: State, systemMaxId: int)
    requires Good(d) && Embedded(d.contents, d.contents, d.orig)
    ensures var f := Front(d, systemMaxId);
      && (f.dirty <==> d.dirty || |d.contents| == 0)
      && (!f.dirty ==> f == d)
      && (|d.contents| > 0 && MarkerAt(d.arena.values, d.contents[0]) ==> f == d)
      && (f.dirty ==> Progress(d, f, 0))
  {
    BaseSelf(d);
    if |d.contents| == 0 {
      MarkerInFrontSteady(d, d, systemMaxId);
    } else if d.dirty && !IsVersionMarkerSymbol(d.arena.values[d.contents[0]]) {
      MarkerInFrontSteady(d, d, systemMaxId);
    }
  }

  //===========================================================================
  // Every fresh marker accounted for

  /** `x` was a value when the sync started, and not a version marker. */
  ghost predicate Plain(d0: State, x: ValueId)
  {
    x in d0.arena.values && !IsVersionMarkerSymbol(d0.arena.values[x])
  }

  /** `x` was a value when the sync started, but not in the physical view: a struct the sync placed. */
  ghost predicate Outside(d0: State, x: ValueId)
  {
    x in d0.arena.values && x !in d0.contents
  }

  /** Position `j` is the front of a view that did not start with a version marker when the sync started. */
  ghost predicate FrontSlot(d0: State, j: nat)
  {
    j == 0 && !(|d0.contents| > 0 && MarkerAt(d0.arena.values, d0.contents[0]))
  }

  /** Position `j` of `c` is just before a placed struct, and not just behind a version marker. */
  ghost predicate StructSlot(d0: State, c: seq<ValueId>, j: nat)
  {
    j + 1 < |c| && Outside(d0, c[j + 1]) && (j == 0 || Plain(d0, c[j - 1]))
  }

  /**
    Every identity of `c` that is fresh since `d0` sits where the sync puts a
    version marker: in front of a view that lacked one, or just before a
    struct it places where no marker sits already.
   */
  ghost predicate Accounted(d0: State, c: seq<ValueId>)
  {
    forall j :: 0 <= j < |c| && c[j] >= d0.arena.nextValue ==> FrontSlot(d0, j) || StructSlot(d0, c, j)
  }

  /** A placed struct alone at `p`, just behind a value that is not fresh, keeps every fresh identity accounted for. */
  lemma AccountedInsert(d0: State, c: seq<ValueId>, p: nat, sym: ValueId)
    requires Accounted(d0, c) && p < |c| && c[p] < d0.arena.nextValue
    requires Outside(d0, sym) && sym < d0.arena.nextValue
    ensures Accounted(d0, InsertAt(c, p, sym))
  {
    var r := InsertAt(c, p, sym);
    forall j | 0 <= j < |r| && r[j] >= d0.arena.nextValue
      ensures FrontSlot(d0, j) || StructSlot(d0, r, j)
    {
      if j < p {
        assert r[j] == c[j];
        if !FrontSlot(d0, j) {
          assert StructSlot(d0, c, j);
          if j > 0 { assert r[j - 1] == c[j - 1]; }
        }
      } else {
        assert j > p && r[j] == c[j - 1] && j - 1 != p;
        assert StructSlot(d0, c, j - 1);
        assert r[j + 1] == c[j] && r[j - 1] == c[j - 2];
      }
    }
  }

  /**
    A surplus marker is never accounted for: a fresh identity past the front
    that sits last, just before a value of the starting view, or just behind
    a version marker.
   */
  lemma SurplusMarkerRefused(d0: State, c: seq<ValueId>, j: nat)
    requires 0 < j < |c| && c[j] >= d0.arena.nextValue
    requires j + 1 == |c| || c[j + 1] in d0.contents || MarkerAt(d0.arena.values, c[j - 1])
    ensures !Accounted(d0, c)
  {
    assert !FrontSlot(d0, j) && !StructSlot(d0, c, j);
  }

  /** A fresh marker at `p` and a placed struct just after it, where no marker sits at `p - 1`, keep every fresh identity accounted for. */
  lemma AccountedMarkedInsert(d0: State, c: seq<ValueId>, p: nat, m: ValueId, sym: ValueId)
    requires Accounted(d0, c) && p < |c| && c[p] < d0.arena.nextValue
    requires Outside(d0, sym) && sym < d0.arena.nextValue && m >= d0.arena.nextValue
    requires p == 0 || (Plain(d0, c[p - 1]) && c[p - 1] < d0.arena.nextValue)
    ensures Accounted(d0, InsertAt(InsertAt(c, p, m), p + 1, sym))
  {
    var c1 := InsertAt(c, p, m);
    var r := InsertAt(c1, p + 1, sym);
    forall j | 0 <= j < |r| && r[j] >= d0.arena.nextValue
      ensures FrontSlot(d0, j) || StructSlot(d0, r, j)
    {
      if j < p {
        assert r[j] == c[j];
        if !FrontSlot(d0, j) {
          assert StructSlot(d0, c, j);
          assert j + 1 < p;
          assert r[j + 1] == c[j + 1];
          if j > 0 { assert r[j - 1] == c[j - 1]; }
        }
      } else if j == p {
        assert r[j + 1] == sym;
        if j > 0 { assert r[j - 1] == c[j - 1]; }
      } else {
        assert j > p + 1 && r[j] == c[j - 2] && j - 2 != p;
        assert StructSlot(d0, c, j - 2);
        assert r[j + 1] == c[j - 1] && r[j - 1] == c[j - 3];
      }
    }
  }

  /** A value in the physical view during the sync that is not a marker was a plain value when the sync started. */
  lemma PlainKept(d0: State, d: State, n: nat, x: ValueId)
    requires Good(d0) && Progress(d0, d, n) && x in d.contents && !MarkerAt(d.arena.values, x)
    ensures Plain(d0, x) && x < d0.arena.nextValue
  {
    if NeededBefore(d0, x, n) {
      var j :| 0 <= j < n && j < |d0.user| && StructOf(d0, j) == Some(x);
    }
  }

  /** What a placing turn needs to know about the state: the struct is an old value outside the view, its user value and the value before it are old, and the marker is fresh. */
  lemma TurnFacts(d0: State, d: State, n: nat, sym: ValueId)
    requires Good(d0) && Progress(d0, d, n) && n < |d0.user| && StructOf(d0, n) == Some(sym) && sym !in d.contents
    ensures d.upos[n] < |d.contents| && d.contents[d.upos[n]] < d0.arena.nextValue
    ensures Outside(d0, sym) && sym < d0.arena.nextValue && d.arena.nextValue >= d0.arena.nextValue
    ensures d.upos[n] >= 1 && !MarkerAt(d.arena.values, d.contents[d.upos[n] - 1]) ==>
      Plain(d0, d.contents[d.upos[n] - 1]) && d.contents[d.upos[n] - 1] < d0.arena.nextValue
  {
    assert d.contents[d.upos[n]] == d0.user[n];
    assert d0.user[n] in d0.contents by { assert d0.contents[d0.upos[n]] == d0.user[n]; }
    EmbeddedIn(d0.contents, d.contents, d.orig);
    if d.upos[n] >= 1 && !MarkerAt(d.arena.values, d.contents[d.upos[n] - 1]) {
      PlainKept(d0, d, n, d.contents[d.upos[n] - 1]);
    }
  }

  /** A turn that places the struct `sym` keeps every fresh identity accounted for, given what `TurnFacts` establishes. */
  lemma AccountedPlacing(d0: State, d: State, n: nat, sym: ValueId, systemMaxId: int)
    requires Good(d) && n < |d.user| && Accounted(d0, d.contents)
    requires NeededStruct(d.arena.values, d.arena.tables, d.user[n]) == Some(sym)
    requires sym !in d.contents && sym in d.arena.values && !d.arena.values[sym].heldElsewhere
    requires d.upos[n] < |d.contents| && d.contents[d.upos[n]] < d0.arena.nextValue
    requires Outside(d0, sym) && sym < d0.arena.nextValue && d.arena.nextValue >= d0.arena.nextValue
    requires d.upos[n] >= 1 && !MarkerAt(d.arena.values, d.contents[d.upos[n] - 1]) ==>
      Plain(d0, d.contents[d.upos[n] - 1]) && d.contents[d.upos[n] - 1] < d0.arena.nextValue
    ensures Accounted(d0, Place(d, n, systemMaxId).contents)
  {
    PlaceAdds(d, n, systemMaxId);
    var p := d.upos[n];
    if p >= 1 && MarkerAt(d.arena.values, d.contents[p - 1]) {
      AccountedInsert(d0, d.contents, p, sym);
    } else {
      AccountedMarkedInsert(d0, d.contents, p, d.arena.nextValue, sym);
    }
  }

  /** A turn of the loop keeps every fresh identity accounted for. */
  lemma AccountedStep(d0: State, d: State, n: nat, systemMaxId: int)
    requires Good(d0) && Progress(d0, d, n) && n < |d0.user| && Accounted(d0, d.contents)
    ensures Accounted(d0, Place(d, n, systemMaxId).contents)
  {
    var R := NeededStruct(d.arena.values, d.arena.tables, d.user[n]);
    StructKept(d0, d, n);
    if !(R.Some? && R.value !in d.contents && R.value in d.arena.values && !d.arena.values[R.value].heldElsewhere) {
      PlacePlaces(d, n, systemMaxId);
    } else {
      TurnFacts(d0, d, n, R.value);
      AccountedPlacing(d0, d, n, R.value, systemMaxId);
    }
  }

  /** The marker put in front is fresh, a version marker, and the new first value. */
  lemma MarkerInFrontContents(d: State, systemMaxId: int)
    requires Good(d)
    ensures var r := MarkerInFront(d, systemMaxId);
      r.contents == InsertAt(d.contents, 0, d.arena.nextValue) && MarkerAt(r.arena.values, d.arena.nextValue)
  {
    InsertGood(AddMarker(d), d.arena.nextValue, 0, systemMaxId);
  }

  /** After the part before the loop, the only fresh identity is the marker put in front of a view that lacked one. */
  lemma FrontAccounted(d: State, systemMaxId: int)
    requires Good(d)
    ensures Accounted(d, Front(d, systemMaxId).contents)
  {
    MarkerInFrontContents(d, systemMaxId);
    var f := Front(d, systemMaxId);
    if |d.contents| == 0 {
      assert f.contents == [d.arena.nextValue];
    } else if d.dirty && !IsVersionMarkerSymbol(d.arena.values[d.contents[0]]) {
      forall j | 0 < j < |f.contents| ensures f.contents[j] < d.arena.nextValue {
        assert f.contents[j] == d.contents[j - 1];
      }
    }
  }
}
