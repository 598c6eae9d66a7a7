/**
  The arena: every value and symbol table in existence, by identity, with
  the next fresh identities; and the symbol table the datagram forces onto
  a value it adds.
 */
module Arenas {
  import opened IonValues
  import opened Resolver

  /** Every value and symbol table in existence, by identity, and the next fresh identities. */
  datatype Arena = Arena(values: map<ValueId, Value>, tables: map<TableId, SymTab>,
                         nextValue: nat, nextTable: nat)

  /** The arena is closed: identities are below the counters, and every reference resolves. */
  ghost predicate ArenaOk(a: Arena)
  {
    (forall id :: id in a.values ==> id < a.nextValue) &&
    (forall t :: t in a.tables ==> t < a.nextTable) &&
    (forall id :: id in a.values && a.values[id].symtab.Some? ==> a.values[id].symtab.value in a.tables) &&
    (forall t :: t in a.tables ==> a.tables[t].rep in a.values)
  }

  /** Replacing a known value by one whose table reference resolves keeps the arena closed. */
  lemma ArenaOkSetValue(a: Arena, id: ValueId, v: Value)
    requires ArenaOk(a) && id in a.values
    requires v.symtab.Some? ==> v.symtab.value in a.tables
    ensures ArenaOk(a.(values := a.values[id := v]))
  {
  }

  /** Adding a fresh value whose table reference resolves keeps the arena closed. */
  lemma ArenaOkAddValue(a: Arena, v: Value)
    requires ArenaOk(a)
    requires v.symtab.Some? ==> v.symtab.value in a.tables
    ensures ArenaOk(a.(values := a.values[a.nextValue := v], nextValue := a.nextValue + 1))
  {
  }

  /** Adding a fresh table whose struct exists keeps the arena closed. */
  lemma ArenaOkAddTable(a: Arena, t: SymTab)
    requires ArenaOk(a) && t.rep in a.values
    ensures ArenaOk(a.(tables := a.tables[a.nextTable := t], nextTable := a.nextTable + 1))
  {
  }

  /** Adding a fresh empty local table together with the fresh struct that carries it keeps the arena closed. */
  lemma ArenaOkAddTableAndStruct(a: Arena, systemMaxId: int)
    requires ArenaOk(a)
    ensures ArenaOk(Arena(a.values[a.nextValue := EmptyTableStruct(a.nextTable)],
                          a.tables[a.nextTable := EmptyLocalTable(a.nextValue, systemMaxId)],
                          a.nextValue + 1, a.nextTable + 1))
  {
  }

  /** What the resolver found exists in the arena. */
  ghost predicate ResolvedIn(found: Resolved, a: Arena)
  {
    (found.Table? ==> found.t in a.tables) && (found.LocalOver? ==> found.s in a.values)
  }

  /** The resolver only finds tables and structs that exist. */
  lemma ResolveIn(a: Arena, contents: seq<ValueId>, user: seq<ValueId>, userPos: int, systemPos: int)
    requires ArenaOk(a) && ViewsResolve(a.values, contents, user)
    requires 0 <= systemPos <= |contents| && -1 <= userPos <= |user|
    ensures ResolvedIn(Resolve(a.values, contents, user, userPos, systemPos), a)
  {
  }

  /**
    The table `add` forces onto an element that had none: the existing table
    the resolver found; or a fresh table built over the struct the resolver
    found; or, failing both, a fresh empty local table carried by a fresh
    struct of its own.
   */
  ghost predicate ForcedTable(found: Resolved, given: TableId, before: Arena, after: Arena, systemMaxId: int)
  {
    && (found.Table? ==> given == found.t)
    && (found.LocalOver? ==>
          given == before.nextTable && found.s in before.values && given in after.tables &&
          after.tables[given] == TableOver(before.values[found.s], found.s, systemMaxId))
    && (found.NoTable? ==>
          given == before.nextTable && given in after.tables && before.nextValue in after.values &&
          after.tables[given] == EmptyLocalTable(before.nextValue, systemMaxId) &&
          after.values[before.nextValue] == EmptyTableStruct(given))
  }

  /** Every value other than `e` is as it was. */
  ghost predicate Unchanged(before: map<ValueId, Value>, after: map<ValueId, Value>, e: ValueId)
  {
    forall id :: id in before && id != e ==> id in after && after[id] == before[id]
  }

  /** The arena only grew: new identities are fresh and existing tables are as they were. */
  ghost predicate Extends(before: Arena, after: Arena)
  {
    before.values.Keys <= after.values.Keys &&
    (forall id :: id in after.values && id !in before.values ==> id >= before.nextValue) &&
    (forall t :: t in before.tables ==> t in after.tables && after.tables[t] == before.tables[t]) &&
    before.nextValue <= after.nextValue && before.nextTable <= after.nextTable
  }

  /**
    The symbol-table part of the private `add`: an element that has a table
    keeps it; otherwise it gets the table the resolver found, a new local
    table over the struct the resolver found, or else a fresh local table
    whose new struct carries it (`newLocalSymbolTable`).
   */
  function ForceTable(a: Arena, e: ValueId, found: Resolved, systemMaxId: int): (r: Arena)
    requires ArenaOk(a) && e in a.values && ResolvedIn(found, a)
    ensures ArenaOk(r)
    // afterwards the element has a table, and nothing else about it changed
    ensures e in r.values && r.values[e].symtab.Some?
    ensures r.values[e] == a.values[e].(symtab := r.values[e].symtab)
    // an element that had a table keeps it, and nothing is created
    ensures a.values[e].symtab.Some? ==> r == a
    ensures a.values[e].symtab.None? ==> ForcedTable(found, r.values[e].symtab.value, a, r, systemMaxId)
  {
    if a.values[e].symtab.Some? then a
    else
      var t := a.nextTable;
      match found
      case Table(t') =>
        ArenaOkSetValue(a, e, a.values[e].(symtab := Some(t')));
        a.(values := a.values[e := a.values[e].(symtab := Some(t'))])
      case LocalOver(s) =>
        var withTable := a.(tables := a.tables[t := TableOver(a.values[s], s, systemMaxId)], nextTable := t + 1);
        ArenaOkAddTable(a, TableOver(a.values[s], s, systemMaxId));
        ArenaOkSetValue(withTable, e, a.values[e].(symtab := Some(t)));
        withTable.(values := withTable.values[e := a.values[e].(symtab := Some(t))])
      case NoTable =>
        var s := a.nextValue;
        var withTable := Arena(a.values[s := EmptyTableStruct(t)], a.tables[t := EmptyLocalTable(s, systemMaxId)],
                               s + 1, t + 1);
        ArenaOkAddTableAndStruct(a, systemMaxId);
        ArenaOkSetValue(withTable, e, a.values[e].(symtab := Some(t)));
        withTable.(values := withTable.values[e := a.values[e].(symtab := Some(t))])
  }

  /** Forcing a table onto `e` changes no other value, and the arena only grows. */
  lemma ForceTableFrame(a: Arena, e: ValueId, found: Resolved, systemMaxId: int)
    requires ArenaOk(a) && e in a.values && ResolvedIn(found, a)
    ensures Unchanged(a.values, ForceTable(a, e, found, systemMaxId).values, e)
    ensures Extends(a, ForceTable(a, e, found, systemMaxId))
  {
    var r := ForceTable(a, e, found, systemMaxId);
    var t := a.nextTable;
    if a.values[e].symtab.None? {
      match found {
        case Table(t') =>
          assert r.values == a.values[e := a.values[e].(symtab := Some(t'))] && r.tables == a.tables;
        case LocalOver(s) =>
          assert r.values == a.values[e := a.values[e].(symtab := Some(t))];
          assert r.tables == a.tables[t := TableOver(a.values[s], s, systemMaxId)];
        case NoTable =>
          assert r.values == a.values[a.nextValue := EmptyTableStruct(t)][e := a.values[e].(symtab := Some(t))];
          assert r.tables == a.tables[t := EmptyLocalTable(a.nextValue, systemMaxId)];
      }
    }
  }
}
