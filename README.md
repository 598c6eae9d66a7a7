# Ion datagram: a verified model of the two-view top-level container

An Ion datagram is the top-level container of an Ion stream. It keeps two
views of the same values:

- the **physical view** (`_contents`): every top-level value in encoding
  order, bookkeeping values included;
- the **user view** (`_userContents`): the same values without the
  bookkeeping ones, in the same order.

The bookkeeping ("system") values are:

- the version marker symbol `$ion_1_0`;
- `$ion_symbol_table` structs, which carry local symbol tables;
- `$ion_embedded_value` sexps.

This project models `IonDatagramImpl` in Dafny and proves what it
guarantees:

- the classifiers (`isSystemValue`, `isIonVersionMarkerSymbol`,
  `isNeededLocalSymbolTable`);
- the three `add` overloads, and how they force a symbol table onto the
  added value;
- the symbol-table resolver `getCurrentSymbolTable`;
- the queries, `remove`, and the operations a datagram refuses;
- the materializer `doMaterializeValue`, which loads a parser's output;
- the structural half of `updateBuffer`. It makes sure a version marker
  comes first and that the struct of every needed local symbol table comes
  just before the user value that needs it.

Values and symbol tables live in an arena indexed by identity (object
identity in Java). The views hold identities. The datagram is a class
whose methods update its fields in place. The classifiers and the resolver
are functions. The materializer and the sync loop are methods:

- `Materialize` is proved equal to a functional specification,
  `Loading.LoadUpTo`, and what the source promises is proved about that
  function.
- Each step of the sync (`SyncFront`, `SyncChild` and what they call) is
  proved equal to a `Sync` function.
- The sync loop `UpdateStructure` is proved to keep two relational
  invariants over those steps:
  - `Sync.Progress`: what has been placed so far, and what may enter;
  - `Sync.Accounted`: where each fresh marker sits.

  Its final state is stated through these invariants, not as one function
  of the starting state.

Files:

- `ion_values.dfy`: values, symbol tables and the classifiers.
- `positions.dfy`: insertion and removal in sequences, and the embedding of
  one view in another.
- `resolver.dfy`: `getCurrentSymbolTable`.
- `arena.dfy`: the arena, and the table forcing of `add`.
- `views.dfy`: the two-view invariant.
- `loading.dfy`: the materializer as a function, and its guarantees.
- `sync.dfy`: the structural sync as functions, and the loop invariant.
- `datagram.dfy`: the `Datagram` class.

## Model

| member | source | states |
|---|---|---|
| IonValues.IsVersionMarkerSymbol | src/com/amazon/ion/impl/IonDatagramImpl.java:671-676 | `isIonVersionMarkerSymbol` decides whether a value is a symbol whose text is `$ion_1_0`. Such a value is a symbol and always a system value. |
| IonValues.IsSystemValue | src/com/amazon/ion/impl/IonDatagramImpl.java:177-193 | `isSystemValue` tests by class, then by content: a non-null `$ion_1_0` symbol, an annotated struct carrying `$ion_symbol_table`, or an annotated sexp carrying `$ion_embedded_value`. A system value is never of another class, is annotated unless it is a symbol, and is a symbol-table struct when it is a struct. |
| IonValues.IsNeededLocalSymbolTable | src/com/amazon/ion/impl/IonDatagramImpl.java:677-684 | `isNeededLocalSymbolTable` decides whether a table must be written out: it is local and has imports or symbols beyond the system table. A needed table is local, and a local table with neither is not needed. |
| IonValues.Classify | src/com/amazon/ion/impl/IonDatagramImpl.java:177-193 | Tags a value as version marker, symbol-table struct, embedded value or user value. Each bookkeeping tag implies the matching value class (symbol, struct, sexp). |
| IonValues.SystemValueIffBookkeeping | src/com/amazon/ion/impl/IonDatagramImpl.java:177-193 | `isSystemValue` holds exactly for three kinds of value: a non-null `$ion_1_0` symbol, an annotated struct carrying `$ion_symbol_table`, and an annotated sexp carrying `$ion_embedded_value`. Each value class is system exactly for its own role. |
| IonValues.VersionMarkerIsSystemSymbol | src/com/amazon/ion/impl/IonDatagramImpl.java:671-676 | `isIonVersionMarkerSymbol` holds exactly for the symbols that `isSystemValue` accepts. |
| IonValues.NewVersionMarker | src/com/amazon/ion/impl/IonDatagramImpl.java:194-204 | A synthesized marker is a `$ion_1_0` symbol and a system value. It has no symbol table, no container, and is flagged as a version marker. |
| IonValues.MarkedHidden | src/com/amazon/ion/impl/IonDatagramImpl.java:523-535 | A hidden item keeps its content and is flagged as a system value. A hidden version marker is also flagged as a marker and made dirty. Other flags stay. |
| IonValues.TableOver | src/com/amazon/ion/impl/IonDatagramImpl.java:265-273 | A local table built over an unnamed symbol-table struct is local and is represented by that struct. It must be written out exactly when the struct declares imports or symbols. |
| IonValues.EmptyLocalTable | src/com/amazon/ion/impl/IonDatagramImpl.java:236-240 | A fresh local table is local, is represented by its own struct, and never needs to be written out. |
| IonValues.EmptyTableStruct | src/com/amazon/ion/impl/IonDatagramImpl.java:237-239 | The struct of a fresh local table is an unnamed `$ion_symbol_table` struct, a system value. It has no container and carries that table. |
| Resolver.Resolve | src/com/amazon/ion/impl/IonDatagramImpl.java:253-295 | Only an unnamed symbol-table struct just before the insertion point gives a new local table, and such a struct always does. A value just before the point that is not a symbol-table struct and has a table gives that table. When that value gives nothing (there is none, it is a named symbol-table struct, or it has no table), the result is `FallBack`. That is the table of the last of the first `userPos` user values, or of the last user value at all when `userPos` is -1, even if it sits after the point; else that of the value two physical places back; else none. A table found is always carried by a physical value before the point or by one of those counted user values. |
| Arenas.ForceTable | src/com/amazon/ion/impl/IonDatagramImpl.java:229-244 | After `add` the element always has a table, and nothing else about it changes. A table it already had is kept and nothing is created. Otherwise it gets the resolver's table, or a new table over the resolver's struct, or a fresh empty local table with a fresh struct. |
| Arenas.ForceTableFrame | src/com/amazon/ion/impl/IonDatagramImpl.java:229-244 | Table forcing changes no value other than the element. Existing tables are kept and only fresh identities are added. |
| ViewsConsistency.ViewsOkInsert | src/com/amazon/ion/impl/IonDatagramImpl.java:246-251 | Inserting a new value into the physical view, and optionally into the user view at a position that splits it consistently, keeps the invariant. The invariant: distinct known values, and the user view embedded in order in the physical view. |
| ViewsConsistency.ViewsOkRemove | src/com/amazon/ion/impl/IonDatagramImpl.java:347-362 | Removing a user value from both views keeps the same invariant. |
| Datagram.Datagram.constructor | src/com/amazon/ion/impl/IonDatagramImpl.java:134-138 | A new datagram has both views empty, is not dirty, and satisfies the invariant and `Headed` (a clean datagram that holds anything starts with a version marker). |
| Datagram.Datagram.Get | src/com/amazon/ion/impl/IonDatagramImpl.java:304-309 | `get` returns the user value at the index. An index outside the user view is `IndexOutOfBounds`. |
| Datagram.Datagram.SystemGet | src/com/amazon/ion/impl/IonDatagramImpl.java:311-315 | `systemGet` returns the physical value at the index, bookkeeping included. An index outside the physical view is `IndexOutOfBounds`. |
| Datagram.Datagram.Size | src/com/amazon/ion/impl/IonDatagramImpl.java:364-368 | `size` is the length of the user view. |
| Datagram.Datagram.SystemSize | src/com/amazon/ion/impl/IonDatagramImpl.java:370-373 | `systemSize` is the length of the physical view. |
| Datagram.Datagram.IsEmpty | src/com/amazon/ion/impl/IonDatagramImpl.java:340-344 | `isEmpty` holds exactly when the user view is empty, whatever the physical view holds. |
| Datagram.Datagram.AddAtIndex | src/com/amazon/ion/impl/IonDatagramImpl.java:297-302 | Positional `add` always fails with an unsupported-operation error without a message, and changes nothing. |
| Datagram.Datagram.Clear | src/com/amazon/ion/impl/IonDatagramImpl.java:332-338 | `clear` always fails with an unsupported-operation error without a message, and changes nothing. |
| Datagram.Datagram.AddTypeAnnotation | src/com/amazon/ion/impl/IonDatagramImpl.java:376-381 | `addTypeAnnotation` always fails with "Datagrams do not have annotations" and changes nothing. |
| Datagram.Datagram.MakeNull | src/com/amazon/ion/impl/IonDatagramImpl.java:391-395 | `makeNull` always fails with "Cannot make a null datagram" and changes nothing. |
| Datagram.Datagram.MakeVersionMarker | src/com/amazon/ion/impl/IonDatagramImpl.java:194-204 | A fresh `$ion_1_0` value enters the arena under a new identity. It is in neither view, and the invariant is kept. |
| Datagram.Datagram.AddToContents | src/com/amazon/ion/impl/IonDatagramImpl.java:579-583 | The value is appended to the physical view and nothing else changes. |
| Datagram.Datagram.AddAt | src/com/amazon/ion/impl/IonDatagramImpl.java:224-252 | A missing element is `NullPointer` and a contained one is `AlreadyContained`; neither changes anything. Otherwise the element goes in at the physical position, and at the user position unless that is -1, after table forcing. Other values are unchanged, the datagram is dirty, and the invariant and `Headed` are kept. |
| Datagram.Datagram.InsertViews | src/com/amazon/ion/impl/IonDatagramImpl.java:246-251 | The element enters the physical view at the system position, and the user view at the user position unless that is -1. The user positions shift accordingly, and the invariant is kept. |
| Datagram.Datagram.AddAs | src/com/amazon/ion/impl/IonDatagramImpl.java:216-222 | `add(element, isSystem)` appends to the physical view, and to the user view exactly when `isSystem` is false. Its error cases are those of the private `add`. `Headed` is kept. |
| Datagram.Datagram.Add | src/com/amazon/ion/impl/IonDatagramImpl.java:208-214 | `add(element)` appends to the physical view, and to the user view exactly when the element is not a system value. It forces the resolved table onto the element, and the user view stays embedded in order in the physical view. `Headed` is kept. |
| Datagram.Datagram.FindUser | src/com/amazon/ion/impl/IonDatagramImpl.java:351-361 | The search succeeds exactly when the element is in the user view, and then returns its first position. |
| Datagram.Datagram.Remove | src/com/amazon/ion/impl/IonDatagramImpl.java:347-362 | `remove` returns true exactly when the element is a user value. Then it leaves both views and everything else stays, bookkeeping values and symbol-table structs included. Otherwise nothing changes. `Headed` is kept. |
| Datagram.Datagram.MarkHidden | src/com/amazon/ion/impl/IonDatagramImpl.java:529-534 | Only the hidden value's flags change, as `MarkedHidden` says. |
| Loading.Lead | src/com/amazon/ion/impl/IonDatagramImpl.java:510-520 | Before the first item, a marker is appended unless the item is a marker. Only that fresh marker can enter, and the user view is untouched. |
| Loading.PutStruct | src/com/amazon/ion/impl/IonDatagramImpl.java:546-559 | The struct is appended, behind a fresh marker unless the previous value is a marker, and the datagram becomes dirty. |
| Loading.FixTable | src/com/amazon/ion/impl/IonDatagramImpl.java:536-560 | A struct enters only when three things hold: the table differs from the previous item's, it must be written out, and its struct is not the previous value. The user view is untouched. |
| Loading.Step | src/com/amazon/ion/impl/IonDatagramImpl.java:504-577 | One item of the parser's output is handled; no value is lost. |
| Loading.LoadUpTo | src/com/amazon/ion/impl/IonDatagramImpl.java:504-577 | The state after the first `n` items; no value is lost. |
| Loading.VisibleMembers | src/com/amazon/ion/impl/IonDatagramImpl.java:523-565 | A value is in the visible sequence exactly when some item that the parser does not hide carries it. |
| Loading.LoadedViews | src/com/amazon/ion/impl/IonDatagramImpl.java:504-577 | After loading, the physical view holds every item once, in input order, and has no repetitions. The user view is exactly the items that are not hidden, in order: an item is a user value iff it is not hidden. The user view is a subsequence of the physical view. |
| Loading.LoadedTables | src/com/amazon/ion/impl/IonDatagramImpl.java:510-560 | A non-empty load starts with a marker, the synthesized one unless the first item is a marker. The struct of a needed table directly precedes each user value that switches to it. An inserted struct is itself preceded by a marker. |
| Loading.LoadedFlags | src/com/amazon/ion/impl/IonDatagramImpl.java:513-571 | A load that stays clean holds exactly the parser's output. A synthesized marker or struct, a dirty item and a hidden marker each make it dirty. Hidden items are flagged, every value keeps its content, and the only new values are version markers. |
| Loading.LoadedViewsOk | src/com/amazon/ion/impl/IonDatagramImpl.java:504-577 | After any number of items, both views hold known values, the physical view has no repetitions, and the user view is embedded in it in order. |
| Loading.LoadedArenaOk | src/com/amazon/ion/impl/IonDatagramImpl.java:504-577 | After any number of items the arena stays closed: every identity is below the fresh counter and every table reference resolves. |
| Datagram.LoadedValid | src/com/amazon/ion/impl/IonDatagramImpl.java:504-577 | Any loaded state is a consistent datagram. |
| Datagram.Datagram.LoadLead | src/com/amazon/ion/impl/IonDatagramImpl.java:510-520 | The method changes the datagram as `Loading.Lead` says. |
| Datagram.Datagram.LoadStruct | src/com/amazon/ion/impl/IonDatagramImpl.java:536-560 | The method changes the datagram as `Loading.FixTable` says. |
| Datagram.Datagram.LoadItem | src/com/amazon/ion/impl/IonDatagramImpl.java:523-576 | A hidden item goes into the physical view only, with its flags set; a user item goes into both views. A dirty item makes the datagram dirty, and the item and its table become the previous ones. |
| Datagram.Datagram.LoadStep | src/com/amazon/ion/impl/IonDatagramImpl.java:504-577 | One iteration of the loop takes the datagram from the state after `i` items to the state after `i + 1` items. |
| Datagram.Datagram.Materialize | src/com/amazon/ion/impl/IonDatagramImpl.java:496-578 | Loading an empty datagram leaves its views, values and dirty flag exactly as `LoadUpTo` of the whole input, so the `Loaded*` guarantees hold of it; the invariant is kept. The result satisfies `Headed`: a clean non-empty load starts with a marker. |
| Sync.NeededStruct | src/com/amazon/ion/impl/IonDatagramImpl.java:616-627 | A user value needs a struct written out exactly when it has a table and that table is needed (a local table with imports, or with ids beyond the system table). The struct is the one that represents the table. |
| Sync.AddMarker | src/com/amazon/ion/impl/IonDatagramImpl.java:599-600 | A fresh marker enters the arena. The views are unchanged and the state stays consistent. |
| Sync.Insert | src/com/amazon/ion/impl/IonDatagramImpl.java:224-252 | The private `add(e, pos, -1)` of a value without a container. The value enters the physical view at `pos`, the user view is unchanged, and the state stays consistent. |
| Sync.InsertGood | src/com/amazon/ion/impl/IonDatagramImpl.java:224-252 | That insertion changes no other value, keeps what the inserted value says, and only grows the arena. |
| Sync.PlaceStruct | src/com/amazon/ion/impl/IonDatagramImpl.java:632-639 | The struct goes in at `pos`, behind a fresh marker unless one already sits at `pos - 1`. The user view is unchanged. |
| Sync.Place | src/com/amazon/ion/impl/IonDatagramImpl.java:616-642 | One turn of the sync loop for the user value at `ii`. The user view is unchanged. |
| Sync.PlacePlaces | src/com/amazon/ion/impl/IonDatagramImpl.java:628-640 | A turn changes nothing when no struct is needed or the struct already has a container. Otherwise three things hold: positions below the user value are untouched, nothing enters but the struct and fresh identities that are version markers, and the user value ends up just behind the struct, which is just behind a marker. |
| Sync.PlaceSteady | src/com/amazon/ion/impl/IonDatagramImpl.java:616-642 | A turn keeps the state consistent and every original value with its content. The original physical view stays embedded in order, the view still starts with a marker, and a dirty datagram stays dirty. |
| Sync.AdmittedStep | src/com/amazon/ion/impl/IonDatagramImpl.java:628-640 | A turn admits into the physical view only the struct the current user value needs, besides fresh identities that are version markers. A fresh value of any other kind never enters. |
| Sync.PlaceStructAdds | src/com/amazon/ion/impl/IonDatagramImpl.java:632-639 | The struct goes in at `pos`. Exactly one fresh marker goes in just before it when no marker sits at `pos - 1`, and none when one does. |
| Sync.PlaceAdds | src/com/amazon/ion/impl/IonDatagramImpl.java:628-640 | A turn that places a struct changes the physical view by exactly that struct at the user value's position, plus one fresh marker just before it exactly when no marker sits there already. No surplus marker is added. |
| Sync.PlacedStep | src/com/amazon/ion/impl/IonDatagramImpl.java:614-643 | After a turn, every needed struct of the values handled so far has a container. Each struct that had none sits, behind a marker, just before the first user value that needs it. |
| Sync.ProgressStep | src/com/amazon/ion/impl/IonDatagramImpl.java:614-643 | Each turn of the loop keeps the loop invariant `Progress` for one more user value. |
| Sync.SurplusMarkerRefused | src/com/amazon/ion/impl/IonDatagramImpl.java:602-640 | A fresh identity past the front of the view is not accounted for if it sits last, just before a value that was already in the view, or just behind a version marker. |
| Sync.AccountedInsert | src/com/amazon/ion/impl/IonDatagramImpl.java:632-639 | Putting a struct that is not in the view in just before an old value keeps every fresh identity accounted for. |
| Sync.AccountedMarkedInsert | src/com/amazon/ion/impl/IonDatagramImpl.java:632-639 | Putting a fresh marker and then such a struct just before an old value, where no marker sits already, keeps every fresh identity accounted for. |
| Sync.AccountedStep | src/com/amazon/ion/impl/IonDatagramImpl.java:616-642 | Each turn of the loop keeps every fresh identity accounted for. |
| Sync.FrontAccounted | src/com/amazon/ion/impl/IonDatagramImpl.java:598-613 | After the first steps, the only fresh identity is the marker put in front of a view that did not start with one. |
| Sync.Front | src/com/amazon/ion/impl/IonDatagramImpl.java:598-613 | The first steps: a marker for an empty datagram, then one in front of a dirty datagram that does not start with one. The user view is unchanged. |
| Sync.FrontProgress | src/com/amazon/ion/impl/IonDatagramImpl.java:598-613 | After the first steps the datagram is dirty exactly when it was dirty or empty. A clean datagram is untouched, and so is one that already starts with a marker. A dirty one satisfies the loop invariant before the first turn, so it starts with a marker. |
| Datagram.Datagram.SyncAdd | src/com/amazon/ion/impl/IonDatagramImpl.java:639 | The class's `add(e, pos, -1)` of a value without a container changes the datagram as `Sync.Insert` says. |
| Datagram.Datagram.InsertMarker | src/com/amazon/ion/impl/IonDatagramImpl.java:635-636 | Making a marker and adding it at `pos` changes the datagram as `Sync.AddMarker` followed by `Sync.Insert`. |
| Datagram.Datagram.SyncPutMarked | src/com/amazon/ion/impl/IonDatagramImpl.java:635-639 | A marker at `pos`, then the struct at `pos + 1`, as `Sync.MarkedInsert` says. |
| Datagram.Datagram.SyncPut | src/com/amazon/ion/impl/IonDatagramImpl.java:632-639 | The struct goes in as `Sync.PlaceStruct` says. |
| Datagram.Datagram.SyncChild | src/com/amazon/ion/impl/IonDatagramImpl.java:616-642 | One iteration of the sync loop changes the datagram as `Sync.Place` says. |
| Datagram.Datagram.SyncFront | src/com/amazon/ion/impl/IonDatagramImpl.java:598-613 | The first steps change the datagram as `Sync.Front` says, and a clean non-empty datagram is untouched. |
| Datagram.Datagram.UpdateStructure | src/com/amazon/ion/impl/IonDatagramImpl.java:598-643 | The invariant and `Headed` are kept, and the user view and its order are unchanged. The physical view always ends up starting with a marker, clean or dirty. The datagram is dirty exactly when it was dirty or empty, and a clean one is untouched. The old physical view is a subsequence of the new one. A dirty datagram starts with a marker, and every needed struct has a container; each struct that had none sits, behind a marker, just before the first user value that needs it. Only needed structs and fresh version markers enter; a fresh value of any other kind never does. Every fresh identity in the new physical view is accounted for (`Sync.Accounted`): it is either the marker in front of a view that did not start with one, or a marker just before a struct the sync placed, where no marker sat already. So no surplus marker is added (`Sync.SurplusMarkerRefused`). |

## Left out

- Byte encoding is not modelled: the buffer, the reader `sync`, the writer, and `updateBuffer`'s second half with `updateBuffer2`, `writeValue` and `doWriteContainerContents` (`IonDatagramImpl.java:586-597, 644-733`). They depend on value encoders and on the buffer manager, which are not part of this model.
- The export methods `byteSize`, `toBytes`, `getBytes` and `getBuffer` (`IonDatagramImpl.java:737-802`) are I/O over the buffer.
- The public constructors, `make_empty_buffer` and the `SystemReader` parser are not modelled. The parser's output is the `input` sequence of `Materialize`: each item is a value identity and whether the parser hides it. The value's symbol table is held in the arena.
- `iterator` and `systemIterator` are not modelled (`IonDatagramImpl.java:317-330`). They iterate over the two views, which are sequences here.
- These are trivial or foreign and are not modelled: `getType`, `getSymbolTable` (always null), `accept`, `clearTypeAnnotations`, `getFieldName`, the annotation getters, `isNullValue`, `removeTypeAnnotation` and `computeLowNibble`.
- `updateSymbolTable`, called on each user value during the sync, is not modelled. It belongs to the symbol table implementation, whose internals (symbol ids, imports, catalog) are reduced to `hasImports`, `maxId`, `systemMaxId` and the representing struct.
- Datagram.Datagram.SyncChild: `ichild._elementid` is modelled as the value's position in the physical view. The source asserts these agree. Container links and element ids are not separate fields; "has a container" means the value is in the physical view, or is flagged as held by some other container.
- Datagram.Datagram.Materialize: the source checks two things with `assert`: every item has a table (`IonDatagramImpl.java:508`), and every struct it inserts has no container (`IonDatagramImpl.java:548`). Here they are preconditions on the input (`StreamOk`, `RepsOk`). The second one covers a struct that is an earlier item or was inserted earlier, since `addToContents` has made the datagram its container. The preconditions ask three things beyond those asserts, which the source leaves to the parser: no inserted struct is a later item, the items are distinct, and no item is held by another container.
- Datagram.Datagram.AddAt and Datagram.Datagram.Remove: the parent container's bookkeeping is not part of this model. `add` passes `true` to it, taken here to set the dirty flag; `remove` is taken to set it as well.
- Datagram.Datagram.UpdateStructure: its new state is not stated as one function of the old state, such as a fold of `Sync.Place` over the user view. A fold of that kind was too costly to verify. The state is stated through the invariants `Sync.Progress` and `Sync.Accounted` and the subsequence clause; each single step is pinned (`SyncFront`, `SyncChild`). It does not clear the dirty flag. Clearing belongs to the encoding pass, which is left out.
- Dirty flags of values are modelled as plain booleans; how encoding staleness propagates is not.
- The binary version marker that starts an empty buffer is not modelled as bytes. The version marker is the distinguished `$ion_1_0` symbol value.
