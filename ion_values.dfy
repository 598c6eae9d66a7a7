/**
  Top-level Ion values as the datagram sees them, and the classifiers the
  datagram applies to them: is a value a bookkeeping ("system") value, is it
  the version marker `$ion_1_0`, and must a local symbol table be written out.

  Values are abstract: only the attributes the datagram inspects are kept.
  They are referred to by `ValueId` (object identity in the original), and
  symbol tables by `TableId`.
 */
module IonValues {

  type ValueId = nat
  type TableId = nat

  datatype Option<+T> = None | Some(value: T)

  /** The reserved symbol text of the Ion 1.0 version marker. */
  const ION_1_0: string := "$ion_1_0"
  /** The annotation that marks a struct as a symbol table. */
  const ION_SYMBOL_TABLE: string := "$ion_symbol_table"
  /** The annotation that marks a sexp as an embedded value. */
  const ION_EMBEDDED_VALUE: string := "$ion_embedded_value"

  /** The concrete value classes the datagram distinguishes by type test. */
  datatype Kind = Symbol | Struct | Sexp | OtherKind

  /** What a `$ion_symbol_table` struct declares, as far as the datagram cares. */
  datatype TableDecl = TableDecl(imports: bool, symbolCount: nat)

  /** Flags the materializer sets on values it takes from the parser. */
  datatype Flags = Flags(versionMarker: bool, systemValue: bool, dirty: bool)

  /**
    What a value says: its class, its symbol text (`None` is a null symbol),
    its annotations, whether a struct has a `name` field, and what it
    declares when it is a symbol-table struct.
   */
  datatype Body = Body(kind: Kind, text: Option<string>, annotations: seq<string>, hasName: bool, decl: TableDecl)

  /**
    A value: what it says, the symbol table attached to it, whether some
    container other than the datagram holds it, and its flags. (Whether the
    datagram holds it is whether it is in the datagram's physical view.)
   */
  datatype Value = Value(body: Body, symtab: Option<TableId>, heldElsewhere: bool, flags: Flags)

  /**
    A symbol table: whether it is a local table, whether it has imports, its
    largest symbol id, the largest id of the system table it extends, and the
    struct value that represents it.
   */
  datatype SymTab = SymTab(local: bool, hasImports: bool, maxId: int, systemMaxId: int, rep: ValueId)

  /** Two values that differ at most in their flags. */
  ghost predicate SameContent(a: Value, b: Value)
  {
    a.body == b.body && a.symtab == b.symtab && a.heldElsewhere == b.heldElsewhere
  }

  /** `isIonVersionMarkerSymbol`: a symbol whose text is `$ion_1_0`. */
  predicate IsVersionMarkerSymbol(v: Value)
    ensures IsVersionMarkerSymbol(v) ==> IsSystemValue(v) && v.body.kind == Symbol
  {
    v.body.kind == Symbol && v.body.text == Some(ION_1_0)
  }

  /** The value with identity `x` is a version marker symbol. */
  predicate MarkerAt(values: map<ValueId, Value>, x: ValueId)
  {
    x in values && IsVersionMarkerSymbol(values[x])
  }

  /** A struct annotated `$ion_symbol_table`. */
  predicate IsSymbolTableStruct(v: Value)
  {
    v.body.kind == Struct && ION_SYMBOL_TABLE in v.body.annotations
  }

  /** `isSystemValue`: one test per value class, first by class, then by content. */
  predicate IsSystemValue(v: Value)
    ensures IsSystemValue(v) ==> v.body.kind != OtherKind
    ensures IsSystemValue(v) && v.body.kind != Symbol ==> |v.body.annotations| > 0
    ensures IsSystemValue(v) && v.body.kind == Struct ==> IsSymbolTableStruct(v)
  {
    if v.body.kind == Symbol then
      v.body.text.Some? && v.body.text.value == ION_1_0
    else if |v.body.annotations| > 0 then
      if v.body.kind == Struct then ION_SYMBOL_TABLE in v.body.annotations
      else if v.body.kind == Sexp then ION_EMBEDDED_VALUE in v.body.annotations
      else false
    else false
  }

  /** `isNeededLocalSymbolTable`: a local table with imports or with symbols beyond the system table. */
  predicate IsNeededLocalSymbolTable(t: SymTab)
    ensures IsNeededLocalSymbolTable(t) ==> t.local
    ensures t.local && !t.hasImports && t.maxId <= t.systemMaxId ==> !IsNeededLocalSymbolTable(t)
  {
    t.local && (t.hasImports || t.maxId > t.systemMaxId)
  }

  /** The bookkeeping roles a top-level value can play, as an explicit tag. */
  datatype Role = VersionMarker | SymbolTableStruct | EmbeddedValue | UserValue

  /** Tags a value by its role; an independent statement of which values are bookkeeping. */
  function Classify(v: Value): (r: Role)
    ensures r == VersionMarker ==> v.body.kind == Symbol
    ensures r == SymbolTableStruct ==> v.body.kind == Struct
    ensures r == EmbeddedValue ==> v.body.kind == Sexp
  {
    match v.body.kind
    case Symbol => if v.body.text == Some(ION_1_0) then VersionMarker else UserValue
    case Struct => if ION_SYMBOL_TABLE in v.body.annotations then SymbolTableStruct else UserValue
    case Sexp => if ION_EMBEDDED_VALUE in v.body.annotations then EmbeddedValue else UserValue
    case OtherKind => UserValue
  }

  /** A value is a system value exactly when it plays one of the three bookkeeping roles. */
  lemma SystemValueIffBookkeeping(v: Value)
    ensures IsSystemValue(v) <==> Classify(v) != UserValue
    ensures IsSystemValue(v) && v.body.kind == Symbol <==> Classify(v) == VersionMarker
    ensures IsSystemValue(v) && v.body.kind == Struct <==> Classify(v) == SymbolTableStruct
    ensures IsSystemValue(v) && v.body.kind == Sexp <==> Classify(v) == EmbeddedValue
  {
    if v.body.kind != Symbol && |v.body.annotations| == 0 {
      assert ION_SYMBOL_TABLE !in v.body.annotations && ION_EMBEDDED_VALUE !in v.body.annotations;
    }
  }

  /** The two version-marker tests of the datagram agree: a symbol is a system value iff it is the marker. */
  lemma VersionMarkerIsSystemSymbol(v: Value)
    ensures IsVersionMarkerSymbol(v) <==> v.body.kind == Symbol && IsSystemValue(v)
  {
  }

  /**
    The flags the materializer sets on a value the parser hid: it is a
    system value, and a version marker is flagged as one and as dirty (its
    encoding from the parser is not the one the datagram writes).
   */
  function MarkedHidden(v: Value): (r: Value)
    ensures SameContent(v, r) && r.flags.systemValue
    ensures IsVersionMarkerSymbol(v) ==> r.flags.versionMarker && r.flags.dirty
    ensures !IsVersionMarkerSymbol(v) ==>
      r.flags.versionMarker == v.flags.versionMarker && r.flags.dirty == v.flags.dirty
  {
    var f := if IsVersionMarkerSymbol(v) then v.flags.(versionMarker := true, dirty := true) else v.flags;
    v.(flags := f.(systemValue := true))
  }

  /** The version marker the datagram synthesizes: `$ion_1_0`, no table, flagged as a marker. */
  function NewVersionMarker(): (v: Value)
    ensures IsVersionMarkerSymbol(v) && IsSystemValue(v)
    ensures v.symtab == None && !v.heldElsewhere && v.flags.versionMarker
  {
    Value(Body(Symbol, Some(ION_1_0), [], false, TableDecl(false, 0)), None, false, Flags(true, false, false))
  }

  /** The symbol table built over a local symbol-table struct `s` (a `LocalSymbolTableImpl`). */
  function TableOver(v: Value, s: ValueId, systemMaxId: int): (t: SymTab)
    ensures t.local && t.rep == s && t.systemMaxId == systemMaxId
    ensures IsNeededLocalSymbolTable(t) <==> v.body.decl.imports || v.body.decl.symbolCount > 0
  {
    SymTab(true, v.body.decl.imports, systemMaxId + v.body.decl.symbolCount, systemMaxId, s)
  }

  /** A fresh local table with no imports and no symbols of its own, represented by struct `s`. */
  function EmptyLocalTable(s: ValueId, systemMaxId: int): (t: SymTab)
    ensures t.local && t.rep == s && !IsNeededLocalSymbolTable(t)
  {
    SymTab(true, false, systemMaxId, systemMaxId, s)
  }

  /** The struct that represents a fresh local table `t`: `$ion_symbol_table::{}`, carrying `t` itself. */
  function EmptyTableStruct(t: TableId): (v: Value)
    ensures IsSymbolTableStruct(v) && IsSystemValue(v) && !v.body.hasName
    ensures v.symtab == Some(t) && !v.heldElsewhere
  {
    Value(Body(Struct, None, [ION_SYMBOL_TABLE], false, TableDecl(false, 0)), Some(t), false,
          Flags(false, false, false))
  }
}
