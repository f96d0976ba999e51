/**
 Trace events and the C types of their fields (tools/etwlttng/Model.cs,
 tools/etwlttng/TypeMap.cs).
 */
module TraceModel {
  import opened Wrappers

  datatype WinType =
    | UInt8 | UInt16 | UInt32 | UInt64 | Int32 | Int64 | Double | Pointer
    | Guid | UnicodeString | AnsiString | Binary

  datatype TraceField = TraceField(name: string, inType: WinType, binaryLength: int)

  datatype TraceEvent = TraceEvent(
    name: string,
    eventId: int,
    level: string,
    keywords: string,
    deprecated: bool,
    fields: seq<TraceField>)

  const MAX_TYPED_FIELDS := 9

  predicate HasOverflow(ev: TraceEvent) {
    |ev.fields| > MAX_TYPED_FIELDS + 1
  }

  function TypedFields(ev: TraceEvent): seq<TraceField> {
    if HasOverflow(ev) then ev.fields[..MAX_TYPED_FIELDS] else ev.fields
  }

  function OverflowFields(ev: TraceEvent): seq<TraceField> {
    if HasOverflow(ev) then ev.fields[MAX_TYPED_FIELDS..] else []
  }

  /** The split loses and reorders nothing, leaves at most ten arguments, and happens only where it must. */
  lemma SplitIsExact(ev: TraceEvent)
    ensures TypedFields(ev) + OverflowFields(ev) == ev.fields
    ensures |TypedFields(ev)| == if |ev.fields| <= 10 then |ev.fields| else 9
    ensures |TypedFields(ev)| + (if HasOverflow(ev) then 1 else 0) <= 10
    ensures HasOverflow(ev) <==> OverflowFields(ev) != []
  {
  }

  predicate IsScalar(t: WinType) {
    !t.Guid? && !t.UnicodeString? && !t.AnsiString? && !t.Binary?
  }

  function ScalarCType(t: WinType): string
    requires IsScalar(t)
  {
    match t
    case UInt8 => "uint8_t"
    case UInt16 => "uint16_t"
    case UInt32 => "uint32_t"
    case UInt64 => "uint64_t"
    case Int32 => "int32_t"
    case Int64 => "int64_t"
    case Double => "double"
    case Pointer => "uintptr_t"
  }

  /** What the values of a scalar type are: its sign and width, a word for an address, or floating point. */
  datatype ScalarKind = Unsigned(bits: nat) | Signed(bits: nat) | AddressWord | Floating

  /** The kind of a scalar type of `<stdint.h>`. */
  function KindOfCType(ctype: string): Option<ScalarKind> {
    if ctype == "uint8_t" then Some(Unsigned(8))
    else if ctype == "uint16_t" then Some(Unsigned(16))
    else if ctype == "uint32_t" then Some(Unsigned(32))
    else if ctype == "uint64_t" then Some(Unsigned(64))
    else if ctype == "int32_t" then Some(Signed(32))
    else if ctype == "int64_t" then Some(Signed(64))
    else if ctype == "uintptr_t" then Some(AddressWord)
    else if ctype == "double" then Some(Floating)
    else None
  }

  /** The kind that the name of a type in the event list promises. */
  function KindOf(t: WinType): ScalarKind
    requires IsScalar(t)
  {
    match t
    case UInt8 => Unsigned(8)
    case UInt16 => Unsigned(16)
    case UInt32 => Unsigned(32)
    case UInt64 => Unsigned(64)
    case Int32 => Signed(32)
    case Int64 => Signed(64)
    case Double => Floating
    case Pointer => AddressWord
  }

  /** A scalar's C type has the width and the sign of its type in the event list. */
  lemma ScalarTypeIsExact(t: WinType)
    requires IsScalar(t)
    ensures KindOfCType(ScalarCType(t)) == Some(KindOf(t))
  {
  }

  /** The type of a field's parameter in the table and in the trampoline. */
  function ParamType(f: TraceField): string {
    match f.inType
    case UnicodeString => "const char*"
    case AnsiString => "const char*"
    case Binary => "const uint8_t*"
    case Guid => "const uint8_t*"
    case _ => ScalarCType(f.inType)
  }

  /** What the engine passes for a field: a pointer to a scalar, or the pointer itself. */
  function VaArgType(f: TraceField): string {
    match f.inType
    case UnicodeString => "const uint16_t*"
    case AnsiString => "const char*"
    case Binary => "const uint8_t*"
    case Guid => "const uint8_t*"
    case _ => "const " + ScalarCType(f.inType) + "*"
  }

  predicate IsBlob(f: TraceField) {
    f.inType.Guid? || f.inType.Binary?
  }

  /** How an overflow field is printed. */
  function FormatSpec(f: TraceField): string {
    match f.inType
    case UInt8 => "%u"
    case UInt16 => "%u"
    case UInt32 => "%u"
    case UInt64 => "%llu"
    case Int32 => "%d"
    case Int64 => "%lld"
    case Double => "%g"
    case Pointer => "0x%lx"
    case UnicodeString => "%s"
    case AnsiString => "%s"
    case Guid => "(blob)"
    case Binary => "(blob)"
  }

  /** A C argument: a local variable, after a cast unless `cast` is empty. */
  datatype CExpr = CExpr(cast: string, local: string)

  /** The argument that goes with `FormatSpec`; a blob has none. */
  function FormatArg(f: TraceField): Option<CExpr> {
    match f.inType
    case UInt64 => Some(CExpr("unsigned long long", "arg_" + f.name))
    case Int64 => Some(CExpr("long long", "arg_" + f.name))
    case Pointer => Some(CExpr("unsigned long", "arg_" + f.name))
    case Guid => None
    case Binary => None
    case _ => Some(CExpr("", "arg_" + f.name))
  }
}
