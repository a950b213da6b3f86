/** The descriptor constructors of generator/testutils.go. Each returns a fresh
    record; their contracts say which classifiers of module Descriptor accept
    the result, so that fixtures built with them mean what their names say. */
module TestUtils {
  import opened Wrappers
  import opened Descriptor
  import opened Traversal

  /** Go's conversion `int32(i)` from a 64-bit `int`: keeps the low 32 bits,
      read as two's complement. */
  function ToInt32(i: int): (r: int32)
    ensures -0x8000_0000 <= i < 0x8000_0000 ==> r as int == i
    ensures (r as int - i) % 0x1_0000_0000 == 0
  {
    ((i + 0x8000_0000) % 0x1_0000_0000 - 0x8000_0000) as int32
  }

  /** An optional field of the given type. */
  function NewField(name: string, number: int32, fieldType: FieldType): (r: FieldDescriptorProto)
    ensures r.name == Some(name) && r.number == Some(number) && r.fieldType == Some(fieldType)
    ensures IsOptionalField(Field(r)) && !IsRepeatedField(Field(r)) && !IsRequiredField(Field(r))
    ensures !IsOneOfField(Field(r)) && !IsMapField(Field(r))
  {
    FieldDescriptorProto(Some(name), Some(number), Some(LabelOptional), Some(fieldType), None, None, None)
  }

  /** A repeated field of the given type. */
  function NewRepeatedField(name: string, number: int32, fieldType: FieldType): (r: FieldDescriptorProto)
    ensures r.name == Some(name) && r.number == Some(number) && r.fieldType == Some(fieldType)
    ensures IsRepeatedField(Field(r)) && !IsOptionalField(Field(r)) && !IsRequiredField(Field(r))
    ensures !IsOneOfField(Field(r)) && !IsMapField(Field(r))
  {
    FieldDescriptorProto(Some(name), Some(number), Some(LabelRepeated), Some(fieldType), None, None, None)
  }

  /** A required (proto2) field of the given type. */
  function NewRequiredField(name: string, number: int32, fieldType: FieldType): (r: FieldDescriptorProto)
    ensures r.name == Some(name) && r.number == Some(number) && r.fieldType == Some(fieldType)
    ensures IsRequiredField(Field(r)) && !IsOptionalField(Field(r)) && !IsRepeatedField(Field(r))
    ensures !IsOneOfField(Field(r)) && !IsMapField(Field(r))
  {
    FieldDescriptorProto(Some(name), Some(number), Some(LabelRequired), Some(fieldType), None, None, None)
  }

  /** An optional field of type MESSAGE referring to `typeName`. */
  function NewMessageField(name: string, number: int32, typeName: string): (r: FieldDescriptorProto)
    ensures r.name == Some(name) && r.number == Some(number) && r.typeName == Some(typeName)
    ensures IsMessageField(Field(r)) && IsOptionalField(Field(r))
    ensures !IsScalarField(Field(r)) && !IsMapField(Field(r))
  {
    FieldDescriptorProto(Some(name), Some(number), Some(LabelOptional), Some(TypeMessage),
                         Some(typeName), None, None)
  }

  /** An optional field of type ENUM referring to `typeName`. */
  function NewEnumField(name: string, number: int32, typeName: string): (r: FieldDescriptorProto)
    ensures r.name == Some(name) && r.number == Some(number) && r.typeName == Some(typeName)
    ensures IsEnumField(Field(r)) && IsOptionalField(Field(r))
    ensures !IsScalarField(Field(r)) && !IsMessageField(Field(r))
  {
    FieldDescriptorProto(Some(name), Some(number), Some(LabelOptional), Some(TypeEnum),
                         Some(typeName), None, None)
  }

  /** A repeated MESSAGE field referring to `entryTypeName`: the heuristic
      calls it a map field exactly when that name is non-empty and ends in
      "Entry". */
  function NewMapField(name: string, number: int32, entryTypeName: string): (r: FieldDescriptorProto)
    ensures r.name == Some(name) && r.number == Some(number) && r.typeName == Some(entryTypeName)
    ensures IsRepeatedField(Field(r)) && IsMessageField(Field(r))
    ensures IsMapField(Field(r)) <==> entryTypeName != "" && HasSuffix(entryTypeName, "Entry")
  {
    FieldDescriptorProto(Some(name), Some(number), Some(LabelRepeated), Some(TypeMessage),
                         Some(entryTypeName), None, None)
  }

  /** An optional field in the oneof at `oneOfIndex`; any index, 0 included,
      makes it a oneof member. */
  function NewOneOfField(name: string, number: int32, fieldType: FieldType, oneOfIndex: int32): (r: FieldDescriptorProto)
    ensures r.name == Some(name) && r.number == Some(number) && r.fieldType == Some(fieldType)
    ensures r.oneofIndex == Some(oneOfIndex)
    ensures IsOneOfField(Field(r)) && IsOptionalField(Field(r))
  {
    FieldDescriptorProto(Some(name), Some(number), Some(LabelOptional), Some(fieldType),
                         None, Some(oneOfIndex), None)
  }

  /** A message with the given fields and no nested types. */
  function NewMessage(name: string, fields: seq<FieldDescriptorProto>): (r: DescriptorProto)
    ensures r.name == Some(name)
    ensures r.field == fields && r.nestedType == [] && r.enumType == [] && r.options == None
    ensures IsMessage(Message(r)) <==> name != ""
    ensures IsMessageWithName(Message(r), name)  <==> name != ""
  {
    DescriptorProto(Some(name), fields, [], [], None)
  }

  /** A message with fields, nested messages and nested enums. */
  function NewMessageWithNested(name: string, fields: seq<FieldDescriptorProto>,
                                nestedMessages: seq<DescriptorProto>,
                                nestedEnums: seq<EnumDescriptorProto>): (r: DescriptorProto)
    ensures r.name == Some(name)
    ensures r.field == fields && r.nestedType == nestedMessages && r.enumType == nestedEnums
    ensures r.options == None
    ensures IsMessage(Message(r)) <==> name != ""
  {
    DescriptorProto(Some(name), fields, nestedMessages, nestedEnums, None)
  }

  /** An enum whose values carry the given names in order, numbered from 0
      by position. */
  function NewEnum(name: string, values: seq<string>): (r: EnumDescriptorProto)
    ensures r.name == Some(name) && |r.value| == |values|
    ensures forall i :: 0 <= i < |values| ==>
              r.value[i].name == Some(values[i]) && r.value[i].number == Some(ToInt32(i))
    ensures |values| <= 0x8000_0000 ==>
              forall i :: 0 <= i < |values| ==> r.value[i].number.value as int == i
    ensures IsEnumType(Enum(r)) <==> name != ""
  {
    EnumDescriptorProto(Some(name),
      seq(|values|, i requires 0 <= i < |values| => EnumValueDescriptorProto(Some(values[i]), Some(ToInt32(i)))))
  }

  function NewEnumValue(name: string, number: int32): (r: EnumValueDescriptorProto)
    ensures r.name == Some(name) && r.number == Some(number)
  {
    EnumValueDescriptorProto(Some(name), Some(number))
  }

  function NewService(name: string, methods: seq<MethodDescriptorProto>): (r: ServiceDescriptorProto)
    ensures r.name == Some(name) && r.methods == methods
    ensures IsServiceType(Service(r)) <==> name != ""
  {
    ServiceDescriptorProto(Some(name), methods)
  }

  /** A method with all three strings set, even empty ones: it is a valid
      method exactly when none of them is empty. */
  function NewMethod(name: string, inputType: string, outputType: string): (r: MethodDescriptorProto)
    ensures r.name == Some(name) && r.inputType == Some(inputType) && r.outputType == Some(outputType)
    ensures IsMethodType(Method(r)) <==> name != "" && inputType != "" && outputType != ""
  {
    MethodDescriptorProto(Some(name), Some(inputType), Some(outputType))
  }

  function NewFile(name: string, pkg: string): (r: FileDescriptorProto)
    ensures r.name == Some(name) && r.package == Some(pkg)
    ensures r.messageType == [] && r.enumType == [] && r.service == []
    ensures IsFileType(File(r)) <==> name != ""
  {
    FileDescriptorProto(Some(name), Some(pkg), [], [], [])
  }

  function NewFileWithTypes(name: string, pkg: string,
                            messages: seq<DescriptorProto>,
                            enums: seq<EnumDescriptorProto>,
                            services: seq<ServiceDescriptorProto>): (r: FileDescriptorProto)
    ensures r.name == Some(name) && r.package == Some(pkg)
    ensures r.messageType == messages && r.enumType == enums && r.service == services
    ensures IsFileType(File(r)) <==> name != ""
  {
    FileDescriptorProto(Some(name), Some(pkg), messages, enums, services)
  }

  function NewOneOf(name: string): (r: OneofDescriptorProto)
    ensures r.name == Some(name)
  {
    OneofDescriptorProto(Some(name))
  }

  /** A field with only its type set: valid, but with no name, number or
      label, so no label predicate holds. */
  function NewFieldWithType(fieldType: FieldType): (r: FieldDescriptorProto)
    ensures r.fieldType == Some(fieldType)
    ensures r.name == None && r.number == None && r.fieldLabel == None
    ensures r.typeName == None && r.oneofIndex == None && r.proto3Optional == None
    ensures IsFieldType(Field(r))
    ensures !IsOptionalField(Field(r)) && !IsRepeatedField(Field(r)) && !IsRequiredField(Field(r))
  {
    FieldDescriptorProto(None, None, None, Some(fieldType), None, None, None)
  }

  /** A field with only its label set. As written it has no type, so it is
      not a valid field and no field predicate, its own label's included,
      accepts it. */
  function NewFieldWithLabel(l: Label): (r: FieldDescriptorProto)
    ensures r.fieldLabel == Some(l)
    ensures r.name == None && r.number == None && r.fieldType == None
    ensures r.typeName == None && r.oneofIndex == None && r.proto3Optional == None
    ensures !IsFieldType(Field(r))
    ensures !IsOptionalField(Field(r)) && !IsRepeatedField(Field(r)) && !IsRequiredField(Field(r))
  {
    FieldDescriptorProto(None, None, Some(l), None, None, None, None)
  }

  /** A repeated MESSAGE field; the type name is set only when non-empty. */
  function NewRepeatedMessageField(typeName: string): (r: FieldDescriptorProto)
    ensures r.typeName == (if typeName == "" then None else Some(typeName))
    ensures IsRepeatedField(Field(r)) && IsMessageField(Field(r))
    ensures IsMapField(Field(r)) <==> typeName != "" && HasSuffix(typeName, "Entry")
  {
    var field := FieldDescriptorProto(None, None, Some(LabelRepeated), Some(TypeMessage), None, None, None);
    if typeName != "" then field.(typeName := Some(typeName)) else field
  }

  // --- Properties of fixtures built from the constructors --------------------

  /** The suffix test is literal: "Entry" itself qualifies, "MyMap" does not,
      and an empty name never does. */
  lemma MapFieldSuffixBoundary(name: string, number: int32)
    ensures IsMapField(Field(NewMapField(name, number, "Entry")))
    ensures IsMapField(Field(NewMapField(name, number, "MapFieldEntry")))
    ensures !IsMapField(Field(NewMapField(name, number, "MyMap")))
    ensures !IsMapField(Field(NewMapField(name, number, "")))
    ensures !IsMapField(Field(NewRepeatedMessageField("")))
  {
    assert "MapFieldEntry" == "MapField" + "Entry";
    assert "MyMap"[|"MyMap"| - |"Entry"|..] != "Entry";
  }

  /** The definitive map check with an entry message built by NewMessage:
      such a message has no options, so it is rejected even when the field
      passes the heuristic. */
  lemma MapFieldNeedsEntryOption(entryName: string)
    requires entryName != ""
    ensures !IsMapFieldWithMessage(Field(NewMapField("m", 1, "KvEntry")), Message(NewMessage(entryName, [])))
    ensures IsMapFieldWithMessage(Field(NewMapField("m", 1, "KvEntry")),
                                  Message(NewMessage(entryName, []).(options := Some(MessageOptions(Some(true))))))
    ensures !IsMapFieldWithMessage(Field(NewMapField("m", 1, "KvEntry")),
                                   Message(NewMessage(entryName, []).(options := Some(MessageOptions(Some(false))))))
  {
    assert "KvEntry" == "Kv" + "Entry";
  }

  /** Lookup returns the first of two fields that share a name, and misses
      a name no field has. */
  lemma FindFieldTakesFirstDeclared()
    ensures FindField(Message(NewMessage("M", [NewField("a", 1, TypeString), NewField("a", 2, TypeInt32)])), "a")
            == Field(NewField("a", 1, TypeString))
    ensures FindField(Message(NewMessage("M", [NewField("a", 1, TypeString)])), "b") == Nil
    ensures FindField(Message(NewMessage("", [NewField("a", 1, TypeString)])), "a") == Nil
  {
    var twice := [NewField("a", 1, TypeString), NewField("a", 2, TypeInt32)];
    assert NamesOf(twice, (f: FieldDescriptorProto) => f.name)[0] == "a";
    var once := [NewField("a", 1, TypeString)];
    assert forall f :: f in once ==> GetName(f.name) != "b";
  }

  /** Method lookup on a service built by NewService finds a declared method
      by exact name only. */
  lemma FindMethodInService()
    ensures FindMethod(Service(NewService("S", [NewMethod("Get", ".Req", ".Resp"), NewMethod("Put", ".Req", ".Resp")])), "Put")
            == Method(NewMethod("Put", ".Req", ".Resp"))
    ensures FindMethod(Service(NewService("S", [NewMethod("Get", ".Req", ".Resp")])), "get") == Nil
  {
    var ms := [NewMethod("Get", ".Req", ".Resp"), NewMethod("Put", ".Req", ".Resp")];
    assert NamesOf(ms, (m: MethodDescriptorProto) => m.name) == ["Get", "Put"];
    var one := [NewMethod("Get", ".Req", ".Resp")];
    assert "Get" != "get";
    assert forall m :: m in one ==> GetName(m.name) != "get";
  }
}
