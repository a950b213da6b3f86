# Protobuf generator helpers, modelled in Dafny

This project models the core of a Go helper library for writing protobuf code generators:

- **Descriptor classification** (`generator/descriptor.go`, with the constants of `generator/types.go`). Each `AsX`/`IsX` decides whether a descriptor value is a message, field, service, method, enum or file that passes that kind's minimal validity rule. The field predicates decide cardinality: repeated, optional or required. They also decide the value kind (scalar, message, group or enum), oneof membership and whether a field is a map field.
- **Traversal** (`generator/traversal.go`). `Find*` looks up a child by exact name and returns the first match. `ForEach*` walks a container's children in declaration order and calls a visitor until it answers false.
- **Fixture constructors** (`generator/testutils.go`). Each constructor's contract states the fields it sets. For the field, message, enum, service, method and file constructors it also states which classifiers accept the record.
- **Slice clearing** (`slices.go`). `ClearSlice` and `ClearAndNilSlice` zero the whole capacity of a slice's backing array in place.
- **LazyBuffer** (`lazybuffer.go`). A nil-safe, chainable string builder. `WriteRunes` appends UTF-8 as section 3 of RFC 3629 defines it.

The modules are listed below.

- `Wrappers`: `Option`.
- `Descriptor`: the descriptor records and the classifiers.
  - A Go `proto.Message` is the datatype `ProtoMessage`, a value that is one of: `Nil`, one of the six descriptor kinds, or `Other`.
  - Proto2 optional scalars, which are pointers in Go, are `Option` values.
  - `AsX` returns `Some(v)` for the source's `(v, true)` and `None` for `(nil, false)`.
- `Traversal`: lookup and iteration.
  - The caller's `func(proto.Message) bool` is the class `Visitor`. Its answer may depend on the item and on everything it was shown before.
  - `Visitor` keeps a log of its calls, and `ForEach*` are methods that loop over the children and extend that log.
- `TestUtils`: the constructors.
- `Slices`: the datatype `GoSlice` is a slice header over a shared `array`. The clearing functions are methods that write into that array.
- `Utf8`: the encoder used by `WriteRunes`, with a validating decoder as its partner.
- `Buffer`: the class `LazyBuffer`.
  - Its content is a byte sequence.
  - Its operations are static members that take a `LazyBuffer?`, so the nil-receiver behaviour is explicit.

Where the tests expect something else, the model follows the code. `NewFieldWithLabel` sets only the label. `generator/testutils_test.go:374-376` expects its result to carry a default type equal to `TypeString`. `generator/descriptor_test.go:278-283` expects the label predicates to hold for it. As written, neither is true: the field has no type, so `IsFieldType` rejects it and every label predicate then fails. The model states this.

A field's type and label are open `int32` codes in Go. The model has a named constructor for each of the 18 type codes and the 3 label codes. Every other code is carried by `TypeUnknown(code)` or `LabelUnknown(code)`. A field with an unknown type code is of no value kind. A field with an unknown label code satisfies no label predicate.

## Model

| member | source | states |
|---|---|---|
| Descriptor.TypeCode | generator/types.go:10-34 | a named field type has a wire code in 1..18, and an unknown one a code outside that range |
| Descriptor.TypeFromCode | generator/types.go:10-34 | every `int32` code decodes to the type that carries it; it is a named type exactly when the code is 1..18 |
| Descriptor.TypeCodeRoundTrip | generator/types.go:10-34 | decoding a type's code gives the type back, so types and codes correspond one to one |
| Descriptor.LabelCode | generator/types.go:37-41 | a named label has a wire code in 1..3, and an unknown one a code outside that range |
| Descriptor.LabelFromCode | generator/types.go:37-41 | every `int32` code decodes to the label that carries it; it is a named label exactly when the code is 1..3 |
| Descriptor.LabelCodeRoundTrip | generator/types.go:37-41 | decoding a label's code gives the label back |
| Descriptor.IsPointerEqual | generator/descriptor.go:406-408 | true exactly when the optional value is present and equal to v |
| Descriptor.IsPointerNonZero | generator/descriptor.go:410-413 | true exactly when the optional value is present and not the zero value |
| Descriptor.GetName | generator/traversal.go:18-22 | the name is non-empty exactly when it is present and non-empty, and it is then that name |
| Descriptor.HasSuffix | generator/descriptor.go:190-191 | true exactly when the string is some prefix followed by the suffix |
| Descriptor.AsMessage | generator/descriptor.go:13-19 | Some exactly for a message whose name is present and non-empty, and then the message itself |
| Descriptor.IsMessage | generator/descriptor.go:23-26 | true exactly for a message with a non-empty name |
| Descriptor.AsMessageWithName | generator/descriptor.go:30-43 | Some exactly for a valid message when the name is empty or equals the message's name |
| Descriptor.IsMessageWithName | generator/descriptor.go:47-50 | the same acceptance condition, as a boolean |
| Descriptor.AsFieldType | generator/descriptor.go:55-61 | Some exactly for a field whose type is set; name, number and label are not looked at |
| Descriptor.IsFieldType | generator/descriptor.go:65-68 | true exactly for a field whose type is set |
| Descriptor.AsServiceType | generator/descriptor.go:73-79 | Some exactly for a service with a non-empty name |
| Descriptor.IsServiceType | generator/descriptor.go:83-86 | true exactly for a service with a non-empty name |
| Descriptor.AsMethodType | generator/descriptor.go:91-105 | Some exactly for a method whose name, input type and output type are all non-empty |
| Descriptor.IsMethodType | generator/descriptor.go:109-112 | true exactly when name, input type and output type are all non-empty |
| Descriptor.AsEnumType | generator/descriptor.go:117-123 | Some exactly for an enum with a non-empty name |
| Descriptor.IsEnumType | generator/descriptor.go:127-130 | true exactly for an enum with a non-empty name |
| Descriptor.AsFileType | generator/descriptor.go:135-141 | Some exactly for a file with a non-empty name |
| Descriptor.IsFileType | generator/descriptor.go:145-148 | true exactly for a file with a non-empty name |
| Descriptor.AsRepeatedField | generator/descriptor.go:152-165 | Some exactly for a valid field labelled REPEATED |
| Descriptor.IsRepeatedField | generator/descriptor.go:169-172 | true exactly for a valid field labelled REPEATED |
| Descriptor.AsMapField | generator/descriptor.go:180-198 | Some exactly for a repeated MESSAGE field whose type name is non-empty and ends in "Entry" |
| Descriptor.IsMapField | generator/descriptor.go:226-229 | a map field is a repeated message field, and the check agrees with AsMapField |
| Descriptor.AsMapFieldWithMessage | generator/descriptor.go:203-222 | Some exactly when the heuristic holds and the entry message is nil, or is a valid message whose options carry map_entry = true |
| Descriptor.IsMapFieldWithMessage | generator/descriptor.go:233-236 | it implies the heuristic, and it agrees with AsMapFieldWithMessage |
| Descriptor.AsOneOfField | generator/descriptor.go:240-251 | Some exactly for a valid field whose oneof index is present, whatever its value |
| Descriptor.IsOneOfField | generator/descriptor.go:255-258 | true exactly for a valid field with a oneof index |
| Descriptor.AsOptionalField | generator/descriptor.go:269-282 | Some exactly for a valid field labelled OPTIONAL |
| Descriptor.IsOptionalField | generator/descriptor.go:293-296 | true exactly for a valid field labelled OPTIONAL |
| Descriptor.AsRequiredField | generator/descriptor.go:300-313 | Some exactly for a valid field labelled REQUIRED |
| Descriptor.IsRequiredField | generator/descriptor.go:317-320 | true exactly for a valid field labelled REQUIRED |
| Descriptor.AsScalarField | generator/descriptor.go:324-342 | Some exactly for a valid field of a named type other than MESSAGE, GROUP and ENUM; an unknown code takes the default branch |
| Descriptor.IsScalarField | generator/descriptor.go:346-349 | true exactly for a valid field of a named type other than MESSAGE, GROUP and ENUM |
| Descriptor.AsMessageField | generator/descriptor.go:354-360 | Some exactly for a field of type MESSAGE; GROUP does not count |
| Descriptor.IsMessageField | generator/descriptor.go:365-368 | true exactly for a field of type MESSAGE |
| Descriptor.AsGroupField | generator/descriptor.go:373-379 | Some exactly for a field of type GROUP |
| Descriptor.IsGroupField | generator/descriptor.go:384-387 | true exactly for a field of type GROUP |
| Descriptor.AsEnumField | generator/descriptor.go:391-397 | Some exactly for a field of type ENUM |
| Descriptor.IsEnumField | generator/descriptor.go:401-404 | true exactly for a field of type ENUM |
| Descriptor.KindsAreExclusive | generator/descriptor.go:13-148 | at most one kind classifier accepts a value, and nil or a non-descriptor is accepted by none |
| Descriptor.IsAgreesWithAs | generator/descriptor.go:23-404 | every IsX is the success flag of its AsX |
| Descriptor.MessageWithNameEmptyIsAny | generator/descriptor.go:30-43 | an empty name accepts any valid message; a non-empty one is matched exactly |
| Descriptor.LabelsAreExclusive | generator/descriptor.go:152-320 | the three label predicates exclude one another; none holds without a label or with an unknown label code; exactly one holds for a valid field with a named label |
| Descriptor.OptionalIgnoresProto3Optional | generator/descriptor.go:269-282 | the proto3_optional flag does not change the optional check |
| Descriptor.MapFieldWithoutEntryIsHeuristic | generator/descriptor.go:203-222 | without an entry message the definitive map check is the heuristic |
| Descriptor.MapFieldRejectsNonEntry | generator/descriptor.go:203-222 | an entry message of another kind, without options, or without map_entry = true always fails |
| Descriptor.OneOfIgnoresLabelAndType | generator/descriptor.go:240-251 | oneof membership depends neither on the label nor on the type |
| Descriptor.ValueKindsPartitionFields | generator/descriptor.go:324-404 | on a valid field of a named type exactly one of scalar, message, group and enum holds; on an unknown type code or anything that is not a valid field, none does |
| Traversal.FirstIndexOf | generator/traversal.go:18-22 | the index of the first equal name, with no earlier match; none exactly when the name is absent |
| Traversal.FindMessage | generator/traversal.go:8-25 | nil for a nil or invalid file or an empty name; otherwise the first top-level message with that name, and nil exactly when there is none |
| Traversal.FindField | generator/traversal.go:28-45 | nil for a nil or invalid message or an empty name; otherwise the first field with that name, and nil exactly when there is none |
| Traversal.FindEnum | generator/traversal.go:48-65 | nil for a nil or invalid file or an empty name; otherwise the first top-level enum with that name, and nil exactly when there is none |
| Traversal.FindService | generator/traversal.go:68-85 | nil for a nil or invalid file or an empty name; otherwise the first service with that name, and nil exactly when there is none |
| Traversal.FindMethod | generator/traversal.go:88-105 | nil for a nil or invalid service or an empty name; otherwise the first method with that name, and nil exactly when there is none |
| Traversal.Visitor.Visit | generator/traversal.go:119-123 | one call of the visitor: the item is logged and the answer is its decision on the log so far |
| Traversal.VisitCount | generator/traversal.go:119-123 | the walk shows at most all items, and at least one when there are items |
| Traversal.VisitCountStep | generator/traversal.go:119-123 | each item is shown, and the walk goes on past it only when the visitor answered true |
| Traversal.VisitCountFirstFalse | generator/traversal.go:119-123 | the walk stops right after the first false: true to k items and then false shows exactly k + 1 |
| Traversal.VisitCountAllTrue | generator/traversal.go:119-123 | a visitor that never says stop is shown every item |
| Traversal.StopOnKthCall | generator/traversal_test.go:133-150 | a visitor that says stop on its k-th call is shown min(k, n) of n items |
| Traversal.VisitInOrder | generator/traversal.go:119-123 | the visitor's log grows by exactly the visited prefix of the items, in order |
| Traversal.FieldsOf | generator/traversal.go:109-126 | the fields of a valid message in order, and none for anything else |
| Traversal.MessagesOf | generator/traversal.go:130-147 | the top-level messages of a valid file in order, and none for anything else |
| Traversal.EnumsOf | generator/traversal.go:151-168 | the top-level enums of a valid file in order, and none for anything else |
| Traversal.ServicesOf | generator/traversal.go:172-189 | the services of a valid file in order, and none for anything else |
| Traversal.MethodsOf | generator/traversal.go:193-210 | the methods of a valid service in order, and none for anything else |
| Traversal.NestedMessagesOf | generator/traversal.go:214-231 | the nested messages of a valid message in order, and none for anything else |
| Traversal.NestedEnumsOf | generator/traversal.go:235-252 | the nested enums of a valid message in order, and none for anything else |
| Traversal.ForEachField | generator/traversal.go:109-126 | no error; the visitor is shown the fields in order up to its first false; a nil or invalid message or nil visitor makes no call |
| Traversal.ForEachMessage | generator/traversal.go:130-147 | no error; the top-level messages in order up to the first false; no call for a nil or invalid file |
| Traversal.ForEachEnum | generator/traversal.go:151-168 | no error; the top-level enums in order up to the first false; no call for a nil or invalid file |
| Traversal.ForEachService | generator/traversal.go:172-189 | no error; the services in order up to the first false; no call for a nil or invalid file |
| Traversal.ForEachMethod | generator/traversal.go:193-210 | no error; the methods in order up to the first false; no call for a nil or invalid service |
| Traversal.ForEachNestedMessage | generator/traversal.go:214-231 | no error; the nested messages in order up to the first false; no call for a nil or invalid message |
| Traversal.ForEachNestedEnum | generator/traversal.go:235-252 | no error; the nested enums in order up to the first false; no call for a nil or invalid message |
| TestUtils.ToInt32 | generator/testutils.go:121-133 | the int to int32 conversion keeps in-range values and agrees with its input modulo 2^32 |
| TestUtils.NewField | generator/testutils.go:12-21 | name, number and type as given; optional, not repeated, required, oneof or map |
| TestUtils.NewRepeatedField | generator/testutils.go:24-33 | name, number and type as given; repeated, not optional, required, oneof or map |
| TestUtils.NewRequiredField | generator/testutils.go:36-45 | name, number and type as given; required, not optional, repeated, oneof or map |
| TestUtils.NewMessageField | generator/testutils.go:48-58 | an optional message field naming its type, neither scalar nor map |
| TestUtils.NewEnumField | generator/testutils.go:61-71 | an optional enum field naming its type, neither scalar nor message |
| TestUtils.NewMapField | generator/testutils.go:74-84 | a repeated message field that the heuristic calls a map field exactly when the entry type name is non-empty and ends in "Entry" |
| TestUtils.NewOneOfField | generator/testutils.go:87-98 | an optional field in the given oneof, a oneof member for every index including 0 |
| TestUtils.NewMessage | generator/testutils.go:101-106 | the given name and fields, and no nested types; a valid message, and matched by its own name, exactly when the name is non-empty |
| TestUtils.NewMessageWithNested | generator/testutils.go:109-118 | the given name, fields, nested messages and nested enums; valid exactly when the name is non-empty |
| TestUtils.NewEnum | generator/testutils.go:121-133 | the values carry the given names in order, numbered by position from 0; valid exactly when the name is non-empty |
| TestUtils.NewEnumValue | generator/testutils.go:136-141 | the value has the given name and number |
| TestUtils.NewService | generator/testutils.go:144-149 | the given name and methods; valid exactly when the name is non-empty |
| TestUtils.NewMethod | generator/testutils.go:152-158 | all three strings set; a valid method exactly when none of them is empty |
| TestUtils.NewFile | generator/testutils.go:161-166 | the given name and package, and no children; valid exactly when the name is non-empty |
| TestUtils.NewFileWithTypes | generator/testutils.go:169-180 | the given name, package, messages, enums and services; valid exactly when the name is non-empty |
| TestUtils.NewOneOf | generator/testutils.go:183-187 | the oneof's name is set to the given name, even when it is empty |
| TestUtils.NewFieldWithType | generator/testutils.go:191-195 | a valid field with only its type set, so no label predicate holds |
| TestUtils.NewFieldWithLabel | generator/testutils.go:199-203 | only the label is set: name, number, type, type name, oneof index and proto3_optional are all absent, so the field is not valid and no label predicate accepts it |
| TestUtils.NewRepeatedMessageField | generator/testutils.go:207-218 | a repeated message field whose type name is set only when non-empty; a map field exactly when it ends in "Entry" |
| TestUtils.MapFieldSuffixBoundary | generator/descriptor.go:180-198 | "Entry" and "MapFieldEntry" qualify as map entry names, while "MyMap" and the empty name do not |
| TestUtils.MapFieldNeedsEntryOption | generator/descriptor.go:203-222 | an entry message is accepted only when its options carry map_entry = true |
| TestUtils.FindFieldTakesFirstDeclared | generator/traversal.go:28-45 | of two same-named fields the first is found; an absent name, or an unnamed message, gives nil |
| TestUtils.FindMethodInService | generator/traversal.go:88-105 | a declared method is found by exact, case-sensitive name |
| Slices.Cap | slices.go:18 | the capacity is at least the length |
| Slices.Contents | slices.go:12-23 | the elements of a slice, as many as its length |
| Slices.ZeroCapacity | slices.go:18-21 | every slot from the slice's start to the end of its capacity becomes zero, and the slots before the start are kept |
| Slices.ClearSlice | slices.go:12-23 | an empty non-nil slice; a nil input gives capacity 0; otherwise the same backing array, start and capacity, with the whole capacity zeroed |
| Slices.ClearAndNilSlice | slices.go:33-43 | always nil; the whole capacity of a non-nil input is zeroed and a nil input changes nothing |
| Slices.Append | slices_test.go:286-289 | the new contents are the old ones followed by the values. Within the capacity the result shares the backing array, and only the slots the values fill change. Past the capacity the result has a fresh array and the old one is unchanged. Appending nothing returns the slice itself |
| Slices.ReuseAfterClear | slices_test.go:282-290 | appending to a cleared slice within its capacity stores exactly the new values in the original backing array. The rest of the capacity stays zero and the slots before the start are kept |
| Utf8.EncodeRune | lazybuffer.go:49-51 | one to four bytes by range, a lead byte followed only by continuation bytes |
| Utf8.Width | lazybuffer.go:49-51 | a rune takes one to four bytes |
| Utf8.DecodeEncodeRune | lazybuffer.go:49-51 | the bytes of a rune decode back to that rune and take exactly its width, whatever follows |
| Utf8.EncodeDecodeRune | lazybuffer.go:49-51 | every rune the decoder accepts came from its own shortest-form encoding |
| Utf8.InvalidRuneBytes | lazybuffer.go:49-51 | a rune that is not a scalar value is written as the bytes of U+FFFD |
| Utf8.RuneBytes | lazybuffer.go:49-51 | every rune written takes one to four bytes |
| Utf8.EncodeRunesAppend | lazybuffer.go:49-51 | the bytes for a run of runes are the bytes for its parts, one after another |
| Utf8.EncodeRunesCons | lazybuffer.go:49-51 | the bytes for a run are those of its first rune followed by those of the rest |
| Utf8.DecodeAllCons | lazybuffer.go:49-51 | decoding reads a rune's encoding back and then goes on with what follows |
| Utf8.DecodeAllEncodeRunes | lazybuffer.go:46-54 | the bytes written for a run of runes decode to the run, with invalid runes replaced by U+FFFD |
| Utf8.SanitizedScalars | lazybuffer.go:46-54 | replacing invalid runes leaves a run of scalar values unchanged |
| Utf8.EncodeRunesLength | lazybuffer.go:46-54 | the bytes written are the sum of the runes' widths, between one and four per rune |
| Buffer.ConcatAppend | lazybuffer.go:35-39 | writing two lists of strings writes the first list, then the second |
| Buffer.ConcatNonEmptyStep | lazybuffer.go:35-39 | skipping an empty string writes the same as writing it |
| Buffer.ConcatNonEmptyPrefix | lazybuffer.go:35-39 | one more string of the list writes the same as before, followed by that string |
| Buffer.NonEmpty | lazybuffer.go:35-39 | the strings kept are all non-empty and all drawn from the list, and there are no more of them than the list holds |
| Buffer.ConcatNonEmptySingle | lazybuffer.go:32-42 | writing a single string writes exactly that string |
| Buffer.ConcatNonEmpty | lazybuffer.go:32-42 | skipping the empty strings writes exactly the concatenation of all of them |
| Buffer.ConcatOfEmpties | lazybuffer.go:32-42 | a list of only empty strings writes nothing |
| Buffer.LazyBuffer.constructor | lazybuffer.go:28 | the zero value is an empty buffer |
| Buffer.LazyBuffer.WriteString | lazybuffer.go:32-42 | returns the receiver; on a non-nil buffer the content grows by the non-empty strings in order |
| Buffer.LazyBuffer.WriteRunes | lazybuffer.go:46-54 | returns the receiver; on a non-nil buffer the content grows by the UTF-8 bytes of the runes in order |
| Buffer.LazyBuffer.Printf | lazybuffer.go:58-64 | returns the receiver; on a non-nil buffer the content grows by the formatted text |
| Buffer.LazyBuffer.String | lazybuffer.go:67-72 | the content, or empty for a nil receiver |
| Buffer.LazyBuffer.Len | lazybuffer.go:75-80 | the byte length of String, and 0 for a nil receiver |
| Buffer.LazyBuffer.Reset | lazybuffer.go:83-87 | a non-nil buffer becomes empty; a nil receiver is left alone |
| Buffer.ChainedWrites | lazybuffer.go:18-27 | the documented chain produces "Hello world, 42!" |
| Buffer.LengthAfterUnicode | lazybuffer_test.go:292-306 | "Hello" is 5 bytes, and ' ', '世' and '界' make it 12 |
| Buffer.WriteAfterReset | lazybuffer_test.go:308-322 | after Reset, writing starts from an empty buffer |
| Buffer.NilReceiver | lazybuffer_test.go:238-289 | on a nil receiver the writers return nil, String is empty and Len is 0 |

## Left out

- web/json.go and web/render.go are not part of this model. They are HTTP I/O wrappers around `net/http`, `protojson` and `encoding/json`, which lie outside this library.
- Buffer.LazyBuffer.Printf: `fmt` formatting is not modelled. The method receives the already formatted text, which is what `fmt.Fprintf` would produce for the format and arguments.
- Buffer.LazyBuffer.Len: the result is an unbounded integer, and Go's `int` bound is not modelled.
- Utf8.EncodeRune: the encoder belongs to Go's standard library (`unicode/utf8`). It is modelled from section 3 of RFC 3629, and a rune that is not a scalar value becomes U+FFFD as in `strings.Builder.WriteRune`.
- Slices.Append: Go's growth policy for `append` is not modelled. A slice that outgrows its capacity gets a fresh array of exactly the needed size.
- The memory-retention and garbage-collection motivation of the slice helpers is not modelled; only the zeroing and the shape of the returned slice are.
- Go slices of child descriptors may hold nil pointer elements. A typed-nil descriptor pointer wrapped in a non-nil interface makes the Go code dereference nil. Neither is modelled: children are present records, and `ProtoMessage` has no typed-nil case.
- Descriptor records carry only the fields the classifiers read or the constructors set. These are: name, number, label, type, type name, oneof index, proto3_optional, a method's input and output types, a file's package, `map_entry`, an enum's values, and the child lists. All other fields of descriptor.proto are left out. Strings are `seq<char>`, not Go byte strings.
- The type constants redeclared as variables in generator/testutils.go:221-240 are the same `FieldType` values as those in generator/types.go.
- Traversal.Visitor: the visitor is a deterministic function of the items it has been shown. A visitor with other side effects is represented only by its log of calls.
- Calls from several goroutines, and a visitor that changes the container while it is walked, are not modelled.
