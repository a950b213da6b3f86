/** Classification of protobuf descriptor records (generator/descriptor.go, with
    the field type and label constants of generator/types.go).

    Every `AsX` takes any descriptor value (`proto.Message` in the source) and
    returns `Some(view)` exactly when the value is a descriptor of kind X that
    passes X's minimal validity rule, and `None` otherwise; `Some(v)` stands for
    the source's `(v, true)` and `None` for `(nil, false)`. Every `IsX` is `AsX`
    with the view dropped. Nothing here can fail: a wrong shape is `None`. */
module Descriptor {
  import opened Wrappers

  /** Go's `int32`. */
  newtype int32 = x: int | -0x8000_0000 <= x < 0x8000_0000

  /** A `FieldDescriptorProto.Type` value. Go's type is an open `int32`: the
      eighteen named codes, or any other code, which `TypeUnknown` carries. */
  datatype FieldTypeValue =
    | TypeDouble | TypeFloat | TypeInt64 | TypeUInt64 | TypeInt32 | TypeFixed64
    | TypeFixed32 | TypeBool | TypeString | TypeGroup | TypeMessage | TypeBytes
    | TypeUInt32 | TypeEnum | TypeSFixed32 | TypeSFixed64 | TypeSInt32 | TypeSInt64
    | TypeUnknown(code: int32)

  /** A field type with one representation per code: `TypeUnknown` only for
      codes outside 1..18. */
  type FieldType = t: FieldTypeValue | t.TypeUnknown? ==> !(1 <= t.code <= 18) witness TypeDouble

  /** A `FieldDescriptorProto.Label` value: the three named codes, or any other
      `int32` code, which `LabelUnknown` carries. */
  datatype LabelValue = LabelOptional | LabelRequired | LabelRepeated | LabelUnknown(code: int32)

  /** A label with one representation per code: `LabelUnknown` only for codes
      outside 1..3. */
  type Label = l: LabelValue | l.LabelUnknown? ==> !(1 <= l.code <= 3) witness LabelOptional

  /** The wire value of a type, as numbered in descriptor.proto. */
  function TypeCode(t: FieldType): (c: int32)
    ensures t.TypeUnknown? <==> !(1 <= c <= 18)
  {
    match t
    case TypeDouble => 1    case TypeFloat => 2     case TypeInt64 => 3
    case TypeUInt64 => 4    case TypeInt32 => 5     case TypeFixed64 => 6
    case TypeFixed32 => 7   case TypeBool => 8      case TypeString => 9
    case TypeGroup => 10    case TypeMessage => 11  case TypeBytes => 12
    case TypeUInt32 => 13   case TypeEnum => 14     case TypeSFixed32 => 15
    case TypeSFixed64 => 16 case TypeSInt32 => 17   case TypeSInt64 => 18
    case TypeUnknown(c) => c
  }

  /** The type carrying wire value `c`: a named type for 1..18, an unknown
      one otherwise. */
  function TypeFromCode(c: int32): (r: FieldType)
    ensures r.TypeUnknown? <==> !(1 <= c <= 18)
    ensures TypeCode(r) == c
  {
    if c == 1 then TypeDouble else if c == 2 then TypeFloat
    else if c == 3 then TypeInt64 else if c == 4 then TypeUInt64
    else if c == 5 then TypeInt32 else if c == 6 then TypeFixed64
    else if c == 7 then TypeFixed32 else if c == 8 then TypeBool
    else if c == 9 then TypeString else if c == 10 then TypeGroup
    else if c == 11 then TypeMessage else if c == 12 then TypeBytes
    else if c == 13 then TypeUInt32 else if c == 14 then TypeEnum
    else if c == 15 then TypeSFixed32 else if c == 16 then TypeSFixed64
    else if c == 17 then TypeSInt32 else if c == 18 then TypeSInt64
    else TypeUnknown(c)
  }

  /** Decoding a type's wire value gives the type back, so types and codes
      correspond one to one. */
  lemma TypeCodeRoundTrip(t: FieldType)
    ensures TypeFromCode(TypeCode(t)) == t
  {
  }

  /** The wire value of a label, as numbered in descriptor.proto. */
  function LabelCode(l: Label): (c: int32)
    ensures l.LabelUnknown? <==> !(1 <= c <= 3)
  {
    match l
    case LabelOptional => 1
    case LabelRequired => 2
    case LabelRepeated => 3
    case LabelUnknown(c) => c
  }

  /** The label carrying wire value `c`: a named label for 1..3, an unknown
      one otherwise. */
  function LabelFromCode(c: int32): (r: Label)
    ensures r.LabelUnknown? <==> !(1 <= c <= 3)
    ensures LabelCode(r) == c
  {
    if c == 1 then LabelOptional
    else if c == 2 then LabelRequired
    else if c == 3 then LabelRepeated
    else LabelUnknown(c)
  }

  /** Decoding a label's wire value gives the label back. */
  lemma LabelCodeRoundTrip(l: Label)
    ensures LabelFromCode(LabelCode(l)) == l
  {
  }

  // The descriptor records of google/protobuf/descriptor.proto, restricted to
  // the fields this library reads or its constructors set. A proto2 optional
  // field (a Go pointer) is an Option; a repeated field is a seq.

  datatype FieldDescriptorProto = FieldDescriptorProto(
    name: Option<string>,
    number: Option<int32>,
    fieldLabel: Option<Label>,
    fieldType: Option<FieldType>,
    typeName: Option<string>,
    oneofIndex: Option<int32>,
    proto3Optional: Option<bool>)

  datatype MessageOptions = MessageOptions(mapEntry: Option<bool>)

  datatype EnumValueDescriptorProto = EnumValueDescriptorProto(
    name: Option<string>,
    number: Option<int32>)

  datatype EnumDescriptorProto = EnumDescriptorProto(
    name: Option<string>,
    value: seq<EnumValueDescriptorProto>)

  datatype OneofDescriptorProto = OneofDescriptorProto(name: Option<string>)

  datatype DescriptorProto = DescriptorProto(
    name: Option<string>,
    field: seq<FieldDescriptorProto>,
    nestedType: seq<DescriptorProto>,
    enumType: seq<EnumDescriptorProto>,
    options: Option<MessageOptions>)

  datatype MethodDescriptorProto = MethodDescriptorProto(
    name: Option<string>,
    inputType: Option<string>,
    outputType: Option<string>)

  datatype ServiceDescriptorProto = ServiceDescriptorProto(
    name: Option<string>,
    methods: seq<MethodDescriptorProto>)

  datatype FileDescriptorProto = FileDescriptorProto(
    name: Option<string>,
    package: Option<string>,
    messageType: seq<DescriptorProto>,
    enumType: seq<EnumDescriptorProto>,
    service: seq<ServiceDescriptorProto>)

  /** A `proto.Message` as the classifiers see it: nil, one of the six
      descriptor kinds, or a message of any other kind. */
  datatype ProtoMessage =
    | Nil
    | File(fileDesc: FileDescriptorProto)
    | Message(msgDesc: DescriptorProto)
    | Field(fieldDesc: FieldDescriptorProto)
    | Service(svcDesc: ServiceDescriptorProto)
    | Method(methodDesc: MethodDescriptorProto)
    | Enum(enumDesc: EnumDescriptorProto)
    | Other

  /** A string field that is present and not empty. */
  predicate HasText(p: Option<string>) {
    p.Some? && p.value != ""
  }

  /** `isPointerEqual`: the pointer is set and points at `v`. */
  function IsPointerEqual<T(==)>(p: Option<T>, v: T): (r: bool)
    ensures r <==> p == Some(v)
  {
    p.Some? && p.value == v
  }

  /** `isPointerNonZero`: the pointer is set and does not point at the zero
      value of its type (`""` for strings, `false` for booleans). */
  function IsPointerNonZero<T(==)>(p: Option<T>, zero: T): (r: bool)
    ensures r <==> p != None && p != Some(zero)
  {
    p.Some? && p.value != zero
  }

  /** The getter `GetName()`: the name, or `""` when it is absent. */
  function GetName(p: Option<string>): (s: string)
    ensures s != "" <==> HasText(p)
    ensures HasText(p) ==> p == Some(s)
  {
    p.GetOr("")
  }

  /** `strings.HasSuffix`. */
  function HasSuffix(s: string, suffix: string): (r: bool)
    ensures r <==> exists prefix :: s == prefix + suffix
  {
    if |suffix| <= |s| && s[|s| - |suffix|..] == suffix then
      assert s == s[..|s| - |suffix|] + suffix;
      true
    else
      assert forall prefix :: s != prefix + suffix by {
        forall prefix ensures s != prefix + suffix {
          if |prefix + suffix| == |s| {
            assert (prefix + suffix)[|prefix|..] == suffix;
          }
        }
      }
      false
  }

  // --- Descriptor kinds -----------------------------------------------------

  function AsMessage(desc: ProtoMessage): (r: Option<DescriptorProto>)
    ensures r.Some? <==> desc.Message? && HasText(desc.msgDesc.name)
    ensures r.Some? ==> desc == Message(r.value)
  {
    if desc.Message? && IsPointerNonZero(desc.msgDesc.name, "") then Some(desc.msgDesc) else None
  }

  function IsMessage(desc: ProtoMessage): (r: bool)
    ensures r <==> desc.Message? && HasText(desc.msgDesc.name)
  {
    AsMessage(desc).Some?
  }

  /** An empty `name` accepts any valid message; otherwise the message's name
      must equal `name` exactly. */
  function AsMessageWithName(desc: ProtoMessage, name: string): (r: Option<DescriptorProto>)
    ensures r.Some? <==> IsMessage(desc) && (name == "" || desc.msgDesc.name == Some(name))
    ensures r.Some? ==> desc == Message(r.value)
  {
    match AsMessage(desc)
    case None => None
    case Some(msgDesc) =>
      if name == "" || IsPointerEqual(msgDesc.name, name) then Some(msgDesc) else None
  }

  function IsMessageWithName(desc: ProtoMessage, name: string): (r: bool)
    ensures r <==> desc.Message? && HasText(desc.msgDesc.name)
                   && (name == "" || desc.msgDesc.name == Some(name))
  {
    AsMessageWithName(desc, name).Some?
  }

  /** A field needs only its type; name, number and label are not looked at. */
  function AsFieldType(desc: ProtoMessage): (r: Option<FieldDescriptorProto>)
    ensures r.Some? <==> desc.Field? && desc.fieldDesc.fieldType.Some?
    ensures r.Some? ==> desc == Field(r.value)
  {
    if desc.Field? && desc.fieldDesc.fieldType != None then Some(desc.fieldDesc) else None
  }

  function IsFieldType(desc: ProtoMessage): (r: bool)
    ensures r <==> desc.Field? && desc.fieldDesc.fieldType.Some?
  {
    AsFieldType(desc).Some?
  }

  function AsServiceType(desc: ProtoMessage): (r: Option<ServiceDescriptorProto>)
    ensures r.Some? <==> desc.Service? && HasText(desc.svcDesc.name)
    ensures r.Some? ==> desc == Service(r.value)
  {
    if desc.Service? && IsPointerNonZero(desc.svcDesc.name, "") then Some(desc.svcDesc) else None
  }

  function IsServiceType(desc: ProtoMessage): (r: bool)
    ensures r <==> desc.Service? && HasText(desc.svcDesc.name)
  {
    AsServiceType(desc).Some?
  }

  /** A method needs a name, an input type and an output type, all non-empty. */
  function AsMethodType(desc: ProtoMessage): (r: Option<MethodDescriptorProto>)
    ensures r.Some? <==> desc.Method? && HasText(desc.methodDesc.name)
                         && HasText(desc.methodDesc.inputType) && HasText(desc.methodDesc.outputType)
    ensures r.Some? ==> desc == Method(r.value)
  {
    if !desc.Method? then None
    else if !IsPointerNonZero(desc.methodDesc.name, "") then None
    else if !IsPointerNonZero(desc.methodDesc.inputType, "") then None
    else if !IsPointerNonZero(desc.methodDesc.outputType, "") then None
    else Some(desc.methodDesc)
  }

  function IsMethodType(desc: ProtoMessage): (r: bool)
    ensures r <==> desc.Method? && HasText(desc.methodDesc.name)
                   && HasText(desc.methodDesc.inputType) && HasText(desc.methodDesc.outputType)
  {
    AsMethodType(desc).Some?
  }

  function AsEnumType(desc: ProtoMessage): (r: Option<EnumDescriptorProto>)
    ensures r.Some? <==> desc.Enum? && HasText(desc.enumDesc.name)
    ensures r.Some? ==> desc == Enum(r.value)
  {
    if desc.Enum? && IsPointerNonZero(desc.enumDesc.name, "") then Some(desc.enumDesc) else None
  }

  function IsEnumType(desc: ProtoMessage): (r: bool)
    ensures r <==> desc.Enum? && HasText(desc.enumDesc.name)
  {
    AsEnumType(desc).Some?
  }

  function AsFileType(desc: ProtoMessage): (r: Option<FileDescriptorProto>)
    ensures r.Some? <==> desc.File? && HasText(desc.fileDesc.name)
    ensures r.Some? ==> desc == File(r.value)
  {
    if desc.File? && IsPointerNonZero(desc.fileDesc.name, "") then Some(desc.fileDesc) else None
  }

  function IsFileType(desc: ProtoMessage): (r: bool)
    ensures r <==> desc.File? && HasText(desc.fileDesc.name)
  {
    AsFileType(desc).Some?
  }

  // --- Field cardinality ----------------------------------------------------

  function AsRepeatedField(field: ProtoMessage): (r: Option<FieldDescriptorProto>)
    ensures r.Some? <==> IsFieldType(field) && field.fieldDesc.fieldLabel == Some(LabelRepeated)
    ensures r.Some? ==> field == Field(r.value)
  {
    match AsFieldType(field)
    case None => None
    case Some(fieldDesc) =>
      if !IsPointerEqual(fieldDesc.fieldLabel, LabelRepeated) then None else Some(fieldDesc)
  }

  function IsRepeatedField(field: ProtoMessage): (r: bool)
    ensures r <==> IsFieldType(field) && field.fieldDesc.fieldLabel == Some(LabelRepeated)
  {
    AsRepeatedField(field).Some?
  }

  /** The map-field heuristic: a repeated field of type MESSAGE whose type
      name is present and ends in "Entry". */
  function AsMapField(field: ProtoMessage): (r: Option<FieldDescriptorProto>)
    ensures r.Some? <==> IsRepeatedField(field) && IsMessageField(field)
                         && HasText(field.fieldDesc.typeName)
                         && HasSuffix(field.fieldDesc.typeName.value, "Entry")
    ensures r.Some? ==> field == Field(r.value)
  {
    match AsRepeatedField(field)
    case None => None
    case Some(fieldDesc) =>
      if !IsPointerEqual(fieldDesc.fieldType, TypeMessage) then None
      else if !IsPointerNonZero(fieldDesc.typeName, "") then None
      else if !HasSuffix(fieldDesc.typeName.value, "Entry") then None
      else Some(fieldDesc)
  }

  function IsMapField(field: ProtoMessage): (r: bool)
    ensures r ==> IsRepeatedField(field) && IsMessageField(field)
    ensures r <==> AsMapField(field).Some?
  {
    AsMapField(field).Some?
  }

  /** The definitive map-field check: the heuristic must hold, and when an
      entry message is supplied it must be a valid message whose options carry
      `map_entry = true`. Without an entry message the heuristic decides. */
  function AsMapFieldWithMessage(field: ProtoMessage, entryMsg: ProtoMessage): (r: Option<FieldDescriptorProto>)
    ensures r.Some? <==> IsMapField(field)
                         && (entryMsg == Nil
                             || (IsMessage(entryMsg)
                                 && entryMsg.msgDesc.options.Some?
                                 && entryMsg.msgDesc.options.value.mapEntry == Some(true)))
    ensures r.Some? ==> field == Field(r.value)
  {
    match AsMapField(field)
    case None => None
    case Some(fieldDesc) =>
      if entryMsg == Nil then Some(fieldDesc)
      else match AsMessage(entryMsg)
        case None => None
        case Some(msg) =>
          if msg.options == None || !IsPointerNonZero(msg.options.value.mapEntry, false) then None
          else
            assert msg.options.value.mapEntry.Some? && msg.options.value.mapEntry.value != false;
            Some(fieldDesc)
  }

  function IsMapFieldWithMessage(field: ProtoMessage, entryMsg: ProtoMessage): (r: bool)
    ensures r ==> IsMapField(field)
    ensures r <==> AsMapFieldWithMessage(field, entryMsg).Some?
  {
    AsMapFieldWithMessage(field, entryMsg).Some?
  }

  /** Membership in a oneof: a oneof index is present, whatever its value. */
  function AsOneOfField(field: ProtoMessage): (r: Option<FieldDescriptorProto>)
    ensures r.Some? <==> IsFieldType(field) && field.fieldDesc.oneofIndex.Some?
    ensures r.Some? ==> field == Field(r.value)
  {
    match AsFieldType(field)
    case None => None
    case Some(fieldDesc) => if fieldDesc.oneofIndex == None then None else Some(fieldDesc)
  }

  function IsOneOfField(field: ProtoMessage): (r: bool)
    ensures r <==> IsFieldType(field) && field.fieldDesc.oneofIndex.Some?
  {
    AsOneOfField(field).Some?
  }

  /** LABEL_OPTIONAL, whatever `proto3_optional` says. */
  function AsOptionalField(field: ProtoMessage): (r: Option<FieldDescriptorProto>)
    ensures r.Some? <==> IsFieldType(field) && field.fieldDesc.fieldLabel == Some(LabelOptional)
    ensures r.Some? ==> field == Field(r.value)
  {
    match AsFieldType(field)
    case None => None
    case Some(fieldDesc) =>
      if !IsPointerEqual(fieldDesc.fieldLabel, LabelOptional) then None else Some(fieldDesc)
  }

  function IsOptionalField(field: ProtoMessage): (r: bool)
    ensures r <==> IsFieldType(field) && field.fieldDesc.fieldLabel == Some(LabelOptional)
  {
    AsOptionalField(field).Some?
  }

  function AsRequiredField(field: ProtoMessage): (r: Option<FieldDescriptorProto>)
    ensures r.Some? <==> IsFieldType(field) && field.fieldDesc.fieldLabel == Some(LabelRequired)
    ensures r.Some? ==> field == Field(r.value)
  {
    match AsFieldType(field)
    case None => None
    case Some(fieldDesc) =>
      if !IsPointerEqual(fieldDesc.fieldLabel, LabelRequired) then None else Some(fieldDesc)
  }

  function IsRequiredField(field: ProtoMessage): (r: bool)
    ensures r <==> IsFieldType(field) && field.fieldDesc.fieldLabel == Some(LabelRequired)
  {
    AsRequiredField(field).Some?
  }

  // --- Field value kinds ----------------------------------------------------

  /** The fifteen scalar type codes, listed one by one as the source does. */
  predicate IsScalarType(t: FieldType) {
    match t
    case TypeDouble | TypeFloat
       | TypeInt64 | TypeUInt64 | TypeInt32 | TypeUInt32
       | TypeFixed64 | TypeFixed32
       | TypeSFixed32 | TypeSFixed64
       | TypeSInt32 | TypeSInt64
       | TypeBool | TypeString | TypeBytes => true
    case _ => false
  }

  /** Scalar means a named type code other than MESSAGE, GROUP and ENUM; an
      unknown code falls to the default branch and is not scalar. */
  function AsScalarField(field: ProtoMessage): (r: Option<FieldDescriptorProto>)
    ensures r.Some? <==> IsFieldType(field)
                         && field.fieldDesc.fieldType.value !in {TypeMessage, TypeGroup, TypeEnum}
                         && !field.fieldDesc.fieldType.value.TypeUnknown?
    ensures r.Some? ==> field == Field(r.value)
  {
    match AsFieldType(field)
    case None => None
    case Some(fieldDesc) => if IsScalarType(fieldDesc.fieldType.value) then Some(fieldDesc) else None
  }

  function IsScalarField(field: ProtoMessage): (r: bool)
    ensures r <==> IsFieldType(field)
                   && field.fieldDesc.fieldType.value !in {TypeMessage, TypeGroup, TypeEnum}
                   && !field.fieldDesc.fieldType.value.TypeUnknown?
  {
    AsScalarField(field).Some?
  }

  /** Type MESSAGE only: a GROUP field is not a message field. */
  function AsMessageField(field: ProtoMessage): (r: Option<FieldDescriptorProto>)
    ensures r.Some? <==> field.Field? && field.fieldDesc.fieldType == Some(TypeMessage)
    ensures r.Some? ==> field == Field(r.value)
  {
    match AsFieldType(field)
    case Some(fieldDesc) => if IsPointerEqual(fieldDesc.fieldType, TypeMessage) then Some(fieldDesc) else None
    case None => None
  }

  function IsMessageField(field: ProtoMessage): (r: bool)
    ensures r <==> field.Field? && field.fieldDesc.fieldType == Some(TypeMessage)
  {
    AsMessageField(field).Some?
  }

  function AsGroupField(field: ProtoMessage): (r: Option<FieldDescriptorProto>)
    ensures r.Some? <==> field.Field? && field.fieldDesc.fieldType == Some(TypeGroup)
    ensures r.Some? ==> field == Field(r.value)
  {
    match AsFieldType(field)
    case Some(fieldDesc) => if IsPointerEqual(fieldDesc.fieldType, TypeGroup) then Some(fieldDesc) else None
    case None => None
  }

  function IsGroupField(field: ProtoMessage): (r: bool)
    ensures r <==> field.Field? && field.fieldDesc.fieldType == Some(TypeGroup)
  {
    AsGroupField(field).Some?
  }

  function AsEnumField(field: ProtoMessage): (r: Option<FieldDescriptorProto>)
    ensures r.Some? <==> field.Field? && field.fieldDesc.fieldType == Some(TypeEnum)
    ensures r.Some? ==> field == Field(r.value)
  {
    match AsFieldType(field)
    case Some(fieldDesc) => if IsPointerEqual(fieldDesc.fieldType, TypeEnum) then Some(fieldDesc) else None
    case None => None
  }

  function IsEnumField(field: ProtoMessage): (r: bool)
    ensures r <==> field.Field? && field.fieldDesc.fieldType == Some(TypeEnum)
  {
    AsEnumField(field).Some?
  }

  // --- Properties -----------------------------------------------------------

  /** At most one kind classifier accepts a value, and nil or a message of any
      other kind is accepted by none. */
  lemma KindsAreExclusive(desc: ProtoMessage)
    ensures (if IsMessage(desc) then 1 else 0) + (if IsFieldType(desc) then 1 else 0)
            + (if IsServiceType(desc) then 1 else 0) + (if IsMethodType(desc) then 1 else 0)
            + (if IsEnumType(desc) then 1 else 0) + (if IsFileType(desc) then 1 else 0) <= 1
    ensures desc == Nil || desc == Other ==>
              !IsMessage(desc) && !IsFieldType(desc) && !IsServiceType(desc)
              && !IsMethodType(desc) && !IsEnumType(desc) && !IsFileType(desc)
  {
  }

  /** Every `IsX` is the success flag of its `AsX`, and every successful `AsX`
      hands back the very descriptor it was given. */
  lemma IsAgreesWithAs(desc: ProtoMessage, other: ProtoMessage, name: string)
    ensures IsMessage(desc) == AsMessage(desc).Some?
    ensures IsMessageWithName(desc, name) == AsMessageWithName(desc, name).Some?
    ensures IsFieldType(desc) == AsFieldType(desc).Some?
    ensures IsServiceType(desc) == AsServiceType(desc).Some?
    ensures IsMethodType(desc) == AsMethodType(desc).Some?
    ensures IsEnumType(desc) == AsEnumType(desc).Some?
    ensures IsFileType(desc) == AsFileType(desc).Some?
    ensures IsRepeatedField(desc) == AsRepeatedField(desc).Some?
    ensures IsOptionalField(desc) == AsOptionalField(desc).Some?
    ensures IsRequiredField(desc) == AsRequiredField(desc).Some?
    ensures IsOneOfField(desc) == AsOneOfField(desc).Some?
    ensures IsScalarField(desc) == AsScalarField(desc).Some?
    ensures IsMessageField(desc) == AsMessageField(desc).Some?
    ensures IsGroupField(desc) == AsGroupField(desc).Some?
    ensures IsEnumField(desc) == AsEnumField(desc).Some?
    ensures IsMapField(desc) == AsMapField(desc).Some?
    ensures IsMapFieldWithMessage(desc, other) == AsMapFieldWithMessage(desc, other).Some?
  {
  }

  /** The empty name is a wildcard; any other name must match exactly. */
  lemma MessageWithNameEmptyIsAny(desc: ProtoMessage, name: string)
    ensures AsMessageWithName(desc, "") == AsMessage(desc)
    ensures name != "" && IsMessageWithName(desc, name) ==> GetName(desc.msgDesc.name) == name
  {
  }

  /** The three label predicates exclude one another; a field without a
      label, or with a code other than the three named ones, satisfies none of
      them; a valid field with a named label satisfies exactly one. */
  lemma LabelsAreExclusive(field: ProtoMessage)
    ensures (if IsRepeatedField(field) then 1 else 0) + (if IsOptionalField(field) then 1 else 0)
            + (if IsRequiredField(field) then 1 else 0) <= 1
    ensures field.Field? && (field.fieldDesc.fieldLabel == None || field.fieldDesc.fieldLabel.value.LabelUnknown?) ==>
              !IsRepeatedField(field) && !IsOptionalField(field) && !IsRequiredField(field)
    ensures IsFieldType(field) && field.fieldDesc.fieldLabel.Some? && !field.fieldDesc.fieldLabel.value.LabelUnknown? ==>
              (if IsRepeatedField(field) then 1 else 0) + (if IsOptionalField(field) then 1 else 0)
              + (if IsRequiredField(field) then 1 else 0) == 1
  {
  }

  /** `proto3_optional` plays no part in the optional check. */
  lemma OptionalIgnoresProto3Optional(f: FieldDescriptorProto, flag: Option<bool>)
    ensures IsOptionalField(Field(f.(proto3Optional := flag))) == IsOptionalField(Field(f))
  {
  }

  /** A map field in either sense is a repeated message field; without an
      entry message the definitive check is the heuristic. */
  lemma MapFieldWithoutEntryIsHeuristic(field: ProtoMessage)
    ensures AsMapFieldWithMessage(field, Nil) == AsMapField(field)
  {
  }

  /** An entry message of the wrong kind, one without options, or one whose
      `map_entry` is absent or false, always fails the definitive check. */
  lemma MapFieldRejectsNonEntry(field: ProtoMessage, entryMsg: ProtoMessage)
    requires entryMsg != Nil
    requires !entryMsg.Message? || entryMsg.msgDesc.options == None
             || entryMsg.msgDesc.options.value.mapEntry != Some(true)
    ensures !IsMapFieldWithMessage(field, entryMsg)
  {
  }

  /** Oneof membership does not depend on the label or on which type the
      field has, only on the presence of the index. */
  lemma OneOfIgnoresLabelAndType(f: FieldDescriptorProto, l: Option<Label>, t: FieldType)
    requires f.fieldType.Some?
    ensures IsOneOfField(Field(f.(fieldLabel := l, fieldType := Some(t)))) == IsOneOfField(Field(f))
  {
  }

  /** On a valid field of a named type exactly one of scalar, message, group
      and enum holds; on a field of an unknown type code, and on anything that
      is not a valid field, none does. */
  lemma ValueKindsPartitionFields(field: ProtoMessage)
    ensures IsFieldType(field) && !field.fieldDesc.fieldType.value.TypeUnknown? ==>
              (if IsScalarField(field) then 1 else 0) + (if IsMessageField(field) then 1 else 0)
              + (if IsGroupField(field) then 1 else 0) + (if IsEnumField(field) then 1 else 0) == 1
    ensures !IsFieldType(field) || field.fieldDesc.fieldType.value.TypeUnknown? ==>
              !IsScalarField(field) && !IsMessageField(field) && !IsGroupField(field) && !IsEnumField(field)
  {
  }
}
