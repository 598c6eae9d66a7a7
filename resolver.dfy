/**
  `getCurrentSymbolTable`: which symbol table is in effect at an insertion
  point, found by looking backward through the physical view first and the
  user view second.
 */
module Resolver {
  import opened IonValues

  /** What the resolver finds: nothing, an existing table, or a local table to build over a struct. */
  datatype Resolved = NoTable | Table(t: TableId) | LocalOver(s: ValueId)

  function OfTable(t: Option<TableId>): (r: Resolved)
    ensures r.NoTable? <==> t.None?
    ensures r.Table? ==> t == Some(r.t)
  {
    if t.Some? then Table(t.value) else NoTable
  }

  /** Every id of both views has a value. */
  ghost predicate ViewsResolve(values: map<ValueId, Value>, contents: seq<ValueId>, user: seq<ValueId>)
  {
    (forall i :: 0 <= i < |contents| ==> contents[i] in values) &&
    (forall k :: 0 <= k < |user| ==> user[k] in values)
  }

  /** The number of user values the resolver looks back over: `userPos`, and `-1` counts the whole user view. */
  function UserSize(userPos: int, user: seq<ValueId>): nat
    requires -1 <= userPos <= |user|
  {
    if userPos != -1 then userPos else |user|
  }

  /**
    Nothing physically before position `systemPos` gives a table: there is
    no such value, or it is a named symbol-table struct, or it is another
    value without a table.
   */
  predicate PreviousSilent(values: map<ValueId, Value>, contents: seq<ValueId>, systemPos: int)
    requires 0 <= systemPos <= |contents| && (systemPos > 0 ==> contents[systemPos - 1] in values)
  {
    systemPos == 0 ||
    (IsSymbolTableStruct(values[contents[systemPos - 1]]) && values[contents[systemPos - 1]].body.hasName) ||
    (!IsSymbolTableStruct(values[contents[systemPos - 1]]) && values[contents[systemPos - 1]].symtab.None?)
  }

  /**
    Where the resolver looks when the value just before the point gives
    nothing: the table of the last counted user value, else that of the value
    two physical places back, else none.
   */
  function FallBack(values: map<ValueId, Value>, contents: seq<ValueId>, user: seq<ValueId>,
                    userPos: int, systemPos: int): Resolved
    requires ViewsResolve(values, contents, user)
    requires 0 <= systemPos <= |contents| && -1 <= userPos <= |user|
  {
    var userSize := UserSize(userPos, user);
    if userSize > 0 then OfTable(values[user[userSize - 1]].symtab)
    else if systemPos > 1 then OfTable(values[contents[systemPos - 2]].symtab)
    else NoTable
  }

  /**
    The table in effect before physical position `systemPos` (and user
    position `userPos`, or `-1` for a system value). The value physically
    before the point wins: an unnamed local symbol-table struct there gives a
    table built over it, a named one gives nothing, any other value gives its
    own table. Failing that, the last of the first `UserSize(userPos, user)`
    user values gives its table (with `userPos == -1` that is the last user
    value, wherever it sits); failing that, the value two physical places
    back.
   */
  function Resolve(values: map<ValueId, Value>, contents: seq<ValueId>, user: seq<ValueId>,
                   userPos: int, systemPos: int): (r: Resolved)
    requires ViewsResolve(values, contents, user)
    requires 0 <= systemPos <= |contents| && -1 <= userPos <= |user|
    // Only an unnamed symbol-table struct just before the point is turned into a new table.
    ensures r.LocalOver? ==>
      systemPos > 0 && r.s == contents[systemPos - 1] &&
      IsSymbolTableStruct(values[r.s]) && !values[r.s].body.hasName
    ensures systemPos > 0 && IsSymbolTableStruct(values[contents[systemPos - 1]]) &&
            !values[contents[systemPos - 1]].body.hasName ==>
              r == LocalOver(contents[systemPos - 1])
    // Physical adjacency takes precedence over user order.
    ensures systemPos > 0 && !IsSymbolTableStruct(values[contents[systemPos - 1]]) &&
            values[contents[systemPos - 1]].symtab.Some? ==>
              r == Table(values[contents[systemPos - 1]].symtab.value)
    // When the value just before the point gives nothing, the user view decides, then the value two places back.
    ensures PreviousSilent(values, contents, systemPos) ==> r == FallBack(values, contents, user, userPos, systemPos)
    // An existing table is always inherited from a physical value before the point or a counted user value.
    ensures r.Table? ==>
      (exists i :: 0 <= i < systemPos && values[contents[i]].symtab == Some(r.t)) ||
      (exists k :: 0 <= k < UserSize(userPos, user) && values[user[k]].symtab == Some(r.t))
    // Nothing is found only where no candidate carries a table.
    ensures r.NoTable? ==>
      (UserSize(userPos, user) > 0 ==> values[user[UserSize(userPos, user) - 1]].symtab.None?) &&
      (UserSize(userPos, user) == 0 && systemPos > 1 ==> values[contents[systemPos - 2]].symtab.None?)
  {
    var fromPrevious :=
      if systemPos > 0 then
        var v := values[contents[systemPos - 1]];
        if IsSymbolTableStruct(v) then
          (if !v.body.hasName then LocalOver(contents[systemPos - 1]) else NoTable)
        else OfTable(v.symtab)
      else NoTable;
    if !fromPrevious.NoTable? then fromPrevious
    else FallBack(values, contents, user, userPos, systemPos)
  }
}
