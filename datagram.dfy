/**
  The Ion datagram: the top-level container that keeps two views of the same
  values, the physical view (`contents`, every top-level value in encoding
  order, bookkeeping included) and the user view (`userContents`, the same
  values without the bookkeeping ones, in the same order).

  Values and symbol tables live in an arena indexed by identity; the views
  hold identities.
 */
module Datagram {
  import opened IonValues
  import opened Positions
  import opened Resolver
  import opened Arenas
  import opened Loading
  import opened ViewsConsistency
  import opened Sync

  /** The exceptions the datagram's operations raise. */
  datatype DatagramError =
    | NullPointer                   // the element is null
    | AlreadyContained              // the element already has a container
    | IndexOutOfBounds              // an index beyond a view
    | Unsupported(message: Option<string>)  // an operation datagrams refuse; `None` when the exception has no message

  datatype Outcome = Pass | Fail(error: DatagramError)

  datatype Result<+T> = Ok(value: T) | Err(error: DatagramError)

  /** A loaded state is a consistent datagram. */
  lemma LoadedValid(a: Arena, input: seq<Item>, n: nat)
    requires StreamOk(a, input) && RepsOk(a, input) && n <= |input|
    ensures var L := LoadUpTo(a, input, n);
      ArenaOk(a.(values := L.values, nextValue := L.next)) && ViewsOk(L.values, L.contents, L.user, L.upos)
  {
    LoadedArenaOk(a, input, n);
    LoadedViewsOk(a, input, n);
  }

  class Datagram {
    /** Every value and symbol table, and the next fresh identities. */
    var arena: Arena
    /** The largest symbol id of the system symbol table. */
    const systemMaxId: int

    /** The physical view (`_contents`). */
    var contents: seq<ValueId>
    /** The user view (`_userContents`). */
    var userContents: seq<ValueId>
    /** Where each user value sits in the physical view. */
    ghost var upos: seq<nat>
    /** The in-memory state differs from the encoded bytes. */
    var dirty: bool

    /**
      The datagram's invariant: the arena is closed, the physical view holds
      distinct known values, and the user view is embedded in the physical
      view in order.
     */
    ghost predicate Valid()
      reads this
    {
      ArenaOk(arena) && ViewsOk(arena.values, contents, userContents, upos)
    }

    /**
      A clean datagram that holds anything starts with a version marker: only
      a dirty datagram may lack one, and the sync puts it in front. Every
      public operation keeps this; the private loading steps need not.
     */
    ghost predicate Headed()
      reads this
    {
      !dirty && |contents| > 0 ==> MarkerAt(arena.values, contents[0])
    }

    /** The user values before `userPos` sit before `systemPos`, the others after. */
    ghost predicate UserSplit(userPos: int, systemPos: int)
      reads this
    {
      forall k :: 0 <= k < |upos| ==> (k < userPos <==> upos[k] < systemPos)
    }

    /** An empty datagram over the given arena. */
    constructor (arena: Arena, systemMaxId: int)
      requires ArenaOk(arena)
      ensures Valid() && Headed()
      ensures contents == [] && userContents == [] && !dirty
      ensures this.arena == arena && this.systemMaxId == systemMaxId
    {
      this.arena := arena;
      this.systemMaxId := systemMaxId;
      contents := [];
      userContents := [];
      upos := [];
      dirty := false;
    }

    //=========================================================================
    // Queries

    /** `get`: the user value at `index`. */
    method Get(index: int) returns (r: Result<ValueId>)
      ensures 0 <= index < |userContents| ==> r == Ok(userContents[index])
      ensures !(0 <= index < |userContents|) ==> r == Err(IndexOutOfBounds)
    {
      if 0 <= index < |userContents| {
        r := Ok(userContents[index]);
      } else {
        r := Err(IndexOutOfBounds);
      }
    }

    /** `systemGet`: the physical value at `index`, bookkeeping values included. */
    method SystemGet(index: int) returns (r: Result<ValueId>)
      ensures 0 <= index < |contents| ==> r == Ok(contents[index])
      ensures !(0 <= index < |contents|) ==> r == Err(IndexOutOfBounds)
    {
      if 0 <= index < |contents| {
        r := Ok(contents[index]);
      } else {
        r := Err(IndexOutOfBounds);
      }
    }

    /** `size`: the number of user values. */
    method Size() returns (n: nat)
      ensures n == |userContents|
    {
      n := |userContents|;
    }

    /** `systemSize`: the number of physical values. */
    method SystemSize() returns (n: nat)
      ensures n == |contents|
    {
      n := |contents|;
    }

    /** `isEmpty`: no user values, whatever bookkeeping values there are. */
    method IsEmpty() returns (b: bool)
      ensures b <==> |userContents| == 0
    {
      b := |userContents| == 0;
    }

    //=========================================================================
    // Operations a datagram refuses; none of them changes anything.

    /** `add(index, element)`: positional insertion is refused. */
    method AddAtIndex(index: int, e: ValueId) returns (r: Outcome)
      ensures r == Fail(Unsupported(None))
    {
      r := Fail(Unsupported(None));
    }

    /** `clear`: refused. */
    method Clear() returns (r: Outcome)
      ensures r == Fail(Unsupported(None))
    {
      r := Fail(Unsupported(None));
    }

    /** `addTypeAnnotation`: a datagram has no annotations. */
    method AddTypeAnnotation(annotation: string) returns (r: Outcome)
      ensures r == Fail(Unsupported(Some("Datagrams do not have annotations")))
    {
      r := Fail(Unsupported(Some("Datagrams do not have annotations")));
    }

    /** `makeNull`: a datagram cannot be null. */
    method MakeNull() returns (r: Outcome)
      ensures r == Fail(Unsupported(Some("Cannot make a null datagram")))
    {
      r := Fail(Unsupported(Some("Cannot make a null datagram")));
    }


    //=========================================================================
    // Insertion

    /** Whether `e` has a container: the datagram, or some other one. */
    predicate Contained(e: ValueId)
      reads this
      requires e in arena.values
    {
      e in contents || arena.values[e].heldElsewhere
    }

    /** `makeIonVersionMarker`: a fresh, unattached `$ion_1_0` symbol without a table. */
    method MakeVersionMarker() returns (m: ValueId)
      requires ArenaOk(arena)
      modifies this`arena
      ensures ArenaOk(arena)
      ensures old(Valid()) ==> Valid() && m !in contents
      ensures m == old(arena.nextValue) && m !in old(arena.values)
      ensures arena == old(arena).(values := old(arena.values)[m := NewVersionMarker()], nextValue := m + 1)
    {
      m := arena.nextValue;
      ArenaOkAddValue(arena, NewVersionMarker());
      if Valid() {
        ViewsOkGrow(arena.values, arena.values[m := NewVersionMarker()], contents, userContents, upos);
      }
      arena := arena.(values := arena.values[m := NewVersionMarker()], nextValue := m + 1);
    }

    /** `addToContents`: append to the physical view, which makes the datagram the value's container. */
    method AddToContents(v: ValueId)
      modifies this`contents
      ensures contents == old(contents) + [v]
    {
      contents := contents + [v];
    }

    /**
      The private `add(element, systemPos, userPos)`: insert `e` at physical
      position `systemPos` and, unless `userPos` is `-1`, at user position
      `userPos`, after forcing a symbol table onto it.
     */
    method AddAt(e: ValueId, systemPos: nat, userPos: int) returns (r: Outcome)
      requires Valid()
      requires systemPos <= |contents|
      requires userPos == -1 || (0 <= userPos <= |userContents| && UserSplit(userPos, systemPos))
      modifies this
      ensures Valid() && (old(Headed()) ==> Headed())
      ensures e !in old(arena.values) ==> r == Fail(NullPointer) && unchanged(this)
      ensures e in old(arena.values) && old(Contained(e)) ==> r == Fail(AlreadyContained) && unchanged(this)
      ensures e in old(arena.values) && !old(Contained(e)) ==>
        && r == Pass
        && contents == InsertAt(old(contents), systemPos, e)
        && userContents == (if userPos == -1 then old(userContents)
                            else InsertAt(old(userContents), userPos, e))
        && upos == (if userPos == -1 then ShiftUp(old(upos), systemPos)
                    else InsertAt(ShiftUp(old(upos), systemPos), userPos, systemPos))
        && arena == ForceTable(old(arena), e,
                               Resolve(old(arena.values), old(contents), old(userContents), userPos, systemPos),
                               systemMaxId)
        && Unchanged(old(arena.values), arena.values, e) && Extends(old(arena), arena)
        && dirty
    {
      if e !in arena.values {
        return Fail(NullPointer);
      }
      if Contained(e) {
        return Fail(AlreadyContained);
      }
      var found := Resolve(arena.values, contents, userContents, userPos, systemPos);
      ResolveIn(arena, contents, userContents, userPos, systemPos);
      var forced := ForceTable(arena, e, found, systemMaxId);
      ForceTableFrame(arena, e, found, systemMaxId);
      ViewsOkGrow(arena.values, forced.values, contents, userContents, upos);
      arena := forced;
      InsertViews(e, systemPos, userPos);
      dirty := true;
      r := Pass;
    }

    /** The insertion proper: `e` enters the physical view at `systemPos` and, unless `userPos` is `-1`, the user view at `userPos`. */
    method InsertViews(e: ValueId, systemPos: nat, userPos: int)
      requires Valid() && e in arena.values && e !in contents
      requires systemPos <= |contents|
      requires userPos == -1 || (0 <= userPos <= |userContents| && UserSplit(userPos, systemPos))
      modifies this`contents, this`userContents, this`upos
      ensures Valid()
      ensures contents == InsertAt(old(contents), systemPos, e)
      ensures userContents == (if userPos == -1 then old(userContents)
                               else InsertAt(old(userContents), userPos, e))
      ensures upos == (if userPos == -1 then ShiftUp(old(upos), systemPos)
                       else InsertAt(ShiftUp(old(upos), systemPos), userPos, systemPos))
    {
      ViewsOkInsert(arena.values, contents, userContents, upos, e, systemPos, userPos);
      contents := InsertAt(contents, systemPos, e);
      if userPos >= 0 {
        userContents := InsertAt(userContents, userPos, e);
        upos := InsertAt(ShiftUp(upos, systemPos), userPos, systemPos);
      } else {
        upos := ShiftUp(upos, systemPos);
      }
    }

    /** `add(element, isSystem)`: append to the physical view, and to the user view unless `isSystem`. */
    method AddAs(e: ValueId, isSystem: bool) returns (r: Outcome)
      requires Valid()
      modifies this
      ensures Valid() && (old(Headed()) ==> Headed())
      ensures e !in old(arena.values) ==> r == Fail(NullPointer) && unchanged(this)
      ensures e in old(arena.values) && old(Contained(e)) ==> r == Fail(AlreadyContained) && unchanged(this)
      ensures e in old(arena.values) && !old(Contained(e)) ==>
        && r == Pass
        && contents == old(contents) + [e]
        && userContents == (if isSystem then old(userContents) else old(userContents) + [e])
        && arena == ForceTable(old(arena), e,
                               Resolve(old(arena.values), old(contents), old(userContents),
                                       if isSystem then -1 else |old(userContents)|, |old(contents)|),
                               systemMaxId)
        && dirty
    {
      var systemPos := |contents|;
      var userPos := if isSystem then -1 else |userContents|;
      r := AddAt(e, systemPos, userPos);
      assert InsertAt(old(contents), systemPos, e) == old(contents) + [e];
      assert InsertAt(old(userContents), |old(userContents)|, e) == old(userContents) + [e];
    }

    /** `add(element)`: append, to the user view exactly when the element is not a system value. */
    method Add(e: ValueId) returns (r: Outcome)
      requires Valid()
      modifies this
      ensures Valid() && (old(Headed()) ==> Headed())
      ensures e !in old(arena.values) ==> r == Fail(NullPointer) && unchanged(this)
      ensures e in old(arena.values) && old(Contained(e)) ==> r == Fail(AlreadyContained) && unchanged(this)
      ensures e in old(arena.values) && !old(Contained(e)) ==>
        && r == Pass
        && contents == old(contents) + [e]
        && userContents == (if IsSystemValue(old(arena.values[e])) then old(userContents)
                            else old(userContents) + [e])
        && arena == ForceTable(old(arena), e,
                               Resolve(old(arena.values), old(contents), old(userContents),
                                       if IsSystemValue(old(arena.values[e])) then -1 else |old(userContents)|,
                                       |old(contents)|),
                               systemMaxId)
        && dirty
    {
      if e !in arena.values {
        return Fail(NullPointer);
      }
      r := AddAs(e, IsSystemValue(arena.values[e]));
    }

    //=========================================================================
    // Removal

    /** The search of `remove`: the first position of `e` in the user view, by identity. */
    method FindUser(e: ValueId) returns (found: bool, index: nat)
      ensures found <==> e in userContents
      ensures found ==> index < |userContents| && userContents[index] == e && e !in userContents[..index]
    {
      index := 0;
      while index < |userContents|
        invariant index <= |userContents|
        invariant e !in userContents[..index]
      {
        if userContents[index] == e {
          return true, index;
        }
        assert userContents[..index + 1] == userContents[..index] + [userContents[index]];
        index := index + 1;
      }
      assert userContents[..index] == userContents;
      return false, 0;
    }

    /**
      `remove`: a value found by identity in the user view leaves both views
      (and so the datagram); anything else, bookkeeping values included,
      stays. Symbol tables the removed value needed are not pruned.
     */
    method Remove(e: ValueId) returns (removed: bool)
      requires Valid()
      modifies this
      ensures Valid() && (old(Headed()) ==> Headed())
      ensures removed <==> e in old(userContents)
      ensures !removed ==> unchanged(this)
      ensures removed ==>
        && e in old(contents)
        && userContents == RemoveAt(old(userContents), IndexOf(old(userContents), e))
        && contents == RemoveAt(old(contents), IndexOf(old(contents), e))
        && e !in contents
        && arena == old(arena)
        && dirty
    {
      var found, i := FindUser(e);
      if !found {
        return false;
      }
      assert IndexOf(userContents, e) == i;
      var j := IndexOf(contents, e);
      assert j == upos[i];
      ViewsOkRemove(arena.values, contents, userContents, upos, i);
      userContents, contents, upos := RemoveAt(userContents, i), RemoveAt(contents, j),
                                      ShiftDown(RemoveAt(upos, i), j);
      dirty := true;
      removed := true;
    }

    //=========================================================================
    // Loading

    /** Sets the flags of a value the parser hid. */
    method MarkHidden(c: ValueId)
      requires c in arena.values
      modifies this`arena
      ensures arena == old(arena).(values := old(arena.values)[c := MarkedHidden(old(arena.values[c]))])
    {
      arena := arena.(values := arena.values[c := MarkedHidden(arena.values[c])]);
    }

    /** The datagram and the materializer's locals are in the loading state `L`. */
    ghost predicate InState(a0: Arena, L: Load, previous: Option<TableId>, previousValue: Option<ValueId>,
                            pos: seq<nat>, dirty0: bool)
      reads this
    {
      && contents == L.contents && userContents == L.user && upos == L.upos
      && arena == a0.(values := L.values, nextValue := L.next)
      && previous == L.previous && previousValue == L.previousValue && pos == L.pos
      && dirty == (dirty0 || L.dirty)
    }

    /** Before an item: a leading version marker when nothing is loaded yet and the item is not one. */
    method LoadLead(ghost a0: Arena, ghost s: Load, child: ValueId, ghost previous: Option<TableId>,
                    previousValue: Option<ValueId>, ghost pos: seq<nat>, ghost dirty0: bool)
      returns (previousValue': Option<ValueId>)
      requires ArenaOk(arena) && child in s.values
      requires InState(a0, s, previous, previousValue, pos, dirty0)
      modifies this`arena, this`contents, this`dirty
      ensures ArenaOk(arena)
      ensures InState(a0, Lead(s, child), previous, previousValue', pos, dirty0)
    {
      previousValue' := previousValue;
      if previousValue.None? && !IsVersionMarkerSymbol(arena.values[child]) {
        var m := MakeVersionMarker();
        AddToContents(m);
        dirty := true;
        previousValue' := Some(m);
      }
    }

    /**
      Before a user item with table `t`: when the table differs from the
      previous item's and must be written out, and its struct is not the
      previous value, the struct goes in, behind a version marker unless the
      previous value is one.
     */
    method LoadStruct(ghost a0: Arena, ghost s: Load, t: TableId, previous: Option<TableId>,
                      previousValue: Option<ValueId>, ghost pos: seq<nat>, ghost dirty0: bool)
      requires ArenaOk(arena) && t in arena.tables
      requires InState(a0, s, previous, previousValue, pos, dirty0)
      modifies this`arena, this`contents, this`dirty
      ensures ArenaOk(arena)
      ensures InState(a0, FixTable(s, t, a0.tables[t]), previous, previousValue, pos, dirty0)
    {
      if previous != Some(t) && IsNeededLocalSymbolTable(arena.tables[t]) {
        var sym := arena.tables[t].rep;
        if previousValue != Some(sym) {
          if !(previousValue.Some? && MarkerAt(arena.values, previousValue.value)) {
            var m := MakeVersionMarker();
            AddToContents(m);
          }
          AddToContents(sym);
          dirty := true;
        }
      }
    }

    /** The item itself: into the physical view, and the user view unless hidden; then it becomes the previous one. */
    method LoadItem(ghost a0: Arena, ghost s: Load, item: Item, t: TableId, previous: Option<TableId>,
                    previousValue: Option<ValueId>, ghost pos: seq<nat>, ghost dirty0: bool)
      returns (previous': Option<TableId>, previousValue': Option<ValueId>, ghost pos': seq<nat>)
      requires item.id in s.values
      requires InState(a0, s, previous, previousValue, pos, dirty0)
      modifies this`arena, this`contents, this`userContents, this`upos, this`dirty
      ensures var s2 := if item.hidden then TakeHidden(s, item.id) else TakeUser(s, item.id);
        InState(a0, Finish(s2, item.id, t), previous', previousValue', pos', dirty0)
    {
      var child := item.id;
      if item.hidden {
        AddToContents(child);
        MarkHidden(child);
      } else {
        AddToContents(child);
        userContents := userContents + [child];
        upos := upos + [|contents| - 1];
      }
      if arena.values[child].flags.dirty {
        dirty := true;
      }
      previousValue' := Some(child);
      previous' := Some(t);
      pos' := pos + [|contents| - 1];
    }

    /** One iteration of the materializer: item `i` handled as `StepAt` says. */
    method LoadStep(ghost a0: Arena, input: seq<Item>, i: nat, previous: Option<TableId>,
                    previousValue: Option<ValueId>, ghost pos: seq<nat>, ghost dirty0: bool)
      returns (previous': Option<TableId>, previousValue': Option<ValueId>, ghost pos': seq<nat>)
      requires StreamOk(a0, input) && RepsOk(a0, input) && i < |input|
      requires ArenaOk(arena) && InState(a0, LoadUpTo(a0, input, i), previous, previousValue, pos, dirty0)
      modifies this`arena, this`contents, this`userContents, this`upos, this`dirty
      ensures InState(a0, LoadUpTo(a0, input, i + 1), previous', previousValue', pos', dirty0)
    {
      ghost var L := LoadUpTo(a0, input, i);
      LoadedNew(a0, input, i);
      var item := input[i];
      var t := arena.values[item.id].symtab.value;
      assert t == TableOf(a0, input, i);
      ghost var s := Lead(L, item.id);
      previousValue' := LoadLead(a0, L, item.id, previous, previousValue, pos, dirty0);
      if !item.hidden {
        LoadStruct(a0, s, t, previous, previousValue', pos, dirty0);
        s := FixTable(s, t, a0.tables[t]);
      }
      previous', previousValue', pos' := LoadItem(a0, s, item, t, previous, previousValue', pos, dirty0);
      assert LoadUpTo(a0, input, i + 1) == StepAt(a0, input, i, L);
    }

    /**
      `doMaterializeValue`: load the parser's output into an empty datagram,
      one item at a time, as `Step` says; what the result looks like is
      proved about `LoadUpTo` (`LoadedViews`, `LoadedTables`, `LoadedFlags`).
     */
    method Materialize(input: seq<Item>)
      requires Valid() && contents == [] && userContents == []
      requires StreamOk(arena, input) && RepsOk(arena, input)
      modifies this
      ensures Valid() && Headed()
      ensures var L := LoadUpTo(old(arena), input, |input|);
        && contents == L.contents && userContents == L.user
        && arena == old(arena).(values := L.values, nextValue := L.next)
        && dirty == (old(dirty) || L.dirty)
    {
      ghost var a0 := arena;
      var previous: Option<TableId> := None;
      var previousValue: Option<ValueId> := None;
      ghost var pos: seq<nat> := [];
      var i := 0;
      assert upos == [];
      while i < |input|
        invariant i <= |input|
        invariant InState(a0, LoadUpTo(a0, input, i), previous, previousValue, pos, old(dirty))
      {
        LoadedArenaOk(a0, input, i);
        previous, previousValue, pos := LoadStep(a0, input, i, previous, previousValue, pos, old(dirty));
        i := i + 1;
      }
      LoadedValid(a0, input, i);
      LoadedTables(a0, input);
    }

    //=========================================================================
    // The structural part of the buffer sync

    /** The datagram's state as the sync sees it; `orig` says where the physical view the sync started from now sits. */
    ghost function Snapshot(orig: seq<nat>): State
      reads this
    {
      State(arena, contents, userContents, upos, orig, dirty)
    }

    /** The private `add(e, pos, -1)` of a value without a container, as the sync uses it. */
    method SyncAdd(e: ValueId, pos: nat, ghost orig: seq<nat>) returns (ghost orig': seq<nat>)
      requires Valid() && e in arena.values && !Contained(e) && pos <= |contents|
      modifies this
      ensures Snapshot(orig') == Insert(old(Snapshot(orig)), e, pos, systemMaxId)
    {
      var _ := AddAt(e, pos, -1);
      orig' := ShiftUp(orig, pos);
    }

    /** `makeIonVersionMarker`, then the private `add(ivm, pos, -1)`. */
    method InsertMarker(pos: nat, ghost orig: seq<nat>) returns (ghost orig': seq<nat>)
      requires Valid() && pos <= |contents|
      modifies this
      ensures Snapshot(orig') == Insert(AddMarker(old(Snapshot(orig))), old(arena.nextValue), pos, systemMaxId)
    {
      var ivm := MakeVersionMarker();
      assert Snapshot(orig) == AddMarker(old(Snapshot(orig)));
      orig' := SyncAdd(ivm, pos, orig);
    }

    /** A fresh marker goes in at `pos`, then the struct `ionsymtab` just after it. */
    method SyncPutMarked(ionsymtab: ValueId, pos: nat, ghost orig: seq<nat>) returns (ghost orig': seq<nat>)
      requires Valid() && ionsymtab in arena.values && !Contained(ionsymtab) && pos <= |contents|
      modifies this
      ensures Snapshot(orig') == MarkedInsert(old(Snapshot(orig)), ionsymtab, pos, systemMaxId)
    {
      ghost var d := Snapshot(orig);
      ghost var marker := arena.nextValue;
      AddMarkerGood(d);
      InsertGood(AddMarker(d), marker, pos, systemMaxId);
      InsertAtIn(contents, pos, marker);
      orig' := InsertMarker(pos, orig);
      assert arena.values[ionsymtab] == d.arena.values[ionsymtab];
      orig' := SyncAdd(ionsymtab, pos + 1, orig');
    }

    /** The struct `ionsymtab` goes in at `pos`, behind a fresh marker unless a marker is already just before. */
    method SyncPut(ionsymtab: ValueId, pos: nat, ghost orig: seq<nat>) returns (ghost orig': seq<nat>)
      requires Valid() && ionsymtab in arena.values && !Contained(ionsymtab) && pos <= |contents|
      modifies this
      ensures Snapshot(orig') == PlaceStruct(old(Snapshot(orig)), ionsymtab, pos, systemMaxId)
    {
      if pos < 1 || !IsVersionMarkerSymbol(arena.values[contents[pos - 1]]) {
        orig' := SyncPutMarked(ionsymtab, pos, orig);
      } else {
        orig' := SyncAdd(ionsymtab, pos, orig);
      }
    }

    /**
      One turn of the sync loop, for the user value at `ii`: when its symbol
      table must be written out and the table's struct has no container, the
      struct goes in just before the value. (Refreshing the value's symbol
      table is not modelled.)
     */
    method SyncChild(ii: nat, ghost orig: seq<nat>) returns (ghost orig': seq<nat>)
      requires Valid() && ii < |userContents|
      modifies this
      ensures Snapshot(orig') == Place(old(Snapshot(orig)), ii, systemMaxId)
    {
      orig' := orig;
      var child := userContents[ii];
      var symtab := arena.values[child].symtab;
      if symtab.Some? {
        if IsNeededLocalSymbolTable(arena.tables[symtab.value]) {
          var ionsymtab := arena.tables[symtab.value].rep;
          if !Contained(ionsymtab) {
            orig' := SyncPut(ionsymtab, IndexOf(contents, child), orig');
          }
        }
      }
    }

    /** The first steps of `updateBuffer`: a version marker for an empty datagram, and one in front of a dirty one. */
    method SyncFront() returns (ghost orig: seq<nat>)
      requires Valid()
      modifies this
      ensures Snapshot(orig) == Front(old(Snapshot(Identity(|contents|))), systemMaxId)
      ensures !old(dirty) && |old(contents)| > 0 ==> unchanged(this)
    {
      orig := Identity(|contents|);
      if |contents| == 0 {
        orig := InsertMarker(0, orig);
        dirty := true;
      }
      if dirty && |contents| > 0 && !IsVersionMarkerSymbol(arena.values[contents[0]]) {
        orig := InsertMarker(0, orig);
      }
    }

    /**
      The structural part of `updateBuffer`: an empty datagram gets a version
      marker; a dirty datagram gets one in front when it does not start with
      one, and every user value whose symbol table must be written out gets
      that table's struct just before it, behind a version marker, when the
      struct has no container. `orig` says where the values of the physical
      view from before now sit.
     */
    method UpdateStructure() returns (ghost orig: seq<nat>)
      requires Valid() && Headed()
      modifies this
      ensures Valid() && Headed() && userContents == old(userContents)
      ensures |contents| > 0 && MarkerAt(arena.values, contents[0])
      ensures dirty <==> old(dirty) || |old(contents)| == 0
      ensures !dirty ==> unchanged(this)
      ensures dirty ==> Progress(old(Snapshot(Identity(|contents|))), Snapshot(orig), |userContents|)
      ensures dirty ==> Accounted(old(Snapshot(Identity(|contents|))), contents)
      ensures IsSubsequence(old(contents), contents)
    {
      ghost var d0 := Snapshot(Identity(|contents|));
      EmbeddedSelf(contents);
      FrontProgress(d0, systemMaxId);
      FrontAccounted(d0, systemMaxId);
      orig := SyncFront();
      if dirty {
        var ii := 0;
        while ii < |userContents|
          invariant ii <= |userContents| == |d0.user|
          invariant Progress(d0, Snapshot(orig), ii)
          invariant Accounted(d0, contents)
        {
          ProgressStep(d0, Snapshot(orig), ii, systemMaxId);
          AccountedStep(d0, Snapshot(orig), ii, systemMaxId);
          orig := SyncChild(ii, orig);
          ii := ii + 1;
        }
      }
      EmbeddedIsSubsequence(d0.contents, contents, orig);
    }
  }
}
