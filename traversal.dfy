/** Name lookup and in-order iteration over the fixed child collections of a
    file, message or service descriptor (generator/traversal.go). Both are
    built on the classifiers of module Descriptor: a container that is nil or
    fails its classifier has no children as far as these functions go. */
module Traversal {
  import opened Wrappers
  import opened Descriptor

  /** The position of the first entry equal to `name`, if any. */
  function FirstIndexOf(names: seq<string>, name: string): (r: Option<nat>)
    ensures r.Some? ==> r.value < |names| && names[r.value] == name
                        && forall j :: 0 <= j < r.value ==> names[j] != name
    ensures r.None? <==> name !in names
    decreases |names|
  {
    if |names| == 0 then None
    else if names[0] == name then Some(0)
    else
      assert names == [names[0]] + names[1..];
      match FirstIndexOf(names[1..], name)
      case None => None
      case Some(i) => Some(i + 1)
  }

  /** The `GetName()` of every child, in declaration order; `nameOf` picks
      the optional name out of a child record. */
  function NamesOf<T>(items: seq<T>, nameOf: T -> Option<string>): (r: seq<string>)
    ensures |r| == |items| && forall i :: 0 <= i < |items| ==> r[i] == GetName(nameOf(items[i]))
  {
    seq(|items|, i requires 0 <= i < |items| => GetName(nameOf(items[i])))
  }

  // --- Find -----------------------------------------------------------------

  /** The first top-level message of `file` whose name is exactly `name`. */
  function FindMessage(file: ProtoMessage, name: string): (r: ProtoMessage)
    ensures file == Nil || name == "" || !IsFileType(file) ==> r == Nil
    ensures r != Nil ==>
              exists i :: 0 <= i < |file.fileDesc.messageType|
                          && r == Message(file.fileDesc.messageType[i])
                          && GetName(file.fileDesc.messageType[i].name) == name
                          && forall j :: 0 <= j < i ==> GetName(file.fileDesc.messageType[j].name) != name
    ensures IsFileType(file) && name != "" ==>
              (r == Nil <==> forall m :: m in file.fileDesc.messageType ==> GetName(m.name) != name)
  {
    if file == Nil || name == "" then Nil
    else match AsFileType(file)
      case None => Nil
      case Some(fileDesc) =>
        var names := NamesOf(fileDesc.messageType, (m: DescriptorProto) => m.name);
        match FirstIndexOf(names, name)
        case None =>
          assert forall m :: m in fileDesc.messageType ==> GetName(m.name) != name by {
            forall m | m in fileDesc.messageType ensures GetName(m.name) != name {
              var i :| 0 <= i < |fileDesc.messageType| && fileDesc.messageType[i] == m;
              assert names[i] == GetName(m.name);
            }
          }
          Nil
        case Some(i) => Message(fileDesc.messageType[i])
  }

  /** The first field of message `msg` whose name is exactly `name`. */
  function FindField(msg: ProtoMessage, name: string): (r: ProtoMessage)
    ensures msg == Nil || name == "" || !IsMessage(msg) ==> r == Nil
    ensures r != Nil ==>
              exists i :: 0 <= i < |msg.msgDesc.field|
                          && r == Field(msg.msgDesc.field[i])
                          && GetName(msg.msgDesc.field[i].name) == name
                          && forall j :: 0 <= j < i ==> GetName(msg.msgDesc.field[j].name) != name
    ensures IsMessage(msg) && name != "" ==>
              (r == Nil <==> forall f :: f in msg.msgDesc.field ==> GetName(f.name) != name)
  {
    if msg == Nil || name == "" then Nil
    else match AsMessage(msg)
      case None => Nil
      case Some(msgDesc) =>
        var names := NamesOf(msgDesc.field, (f: FieldDescriptorProto) => f.name);
        match FirstIndexOf(names, name)
        case None =>
          assert forall f :: f in msgDesc.field ==> GetName(f.name) != name by {
            forall f | f in msgDesc.field ensures GetName(f.name) != name {
              var i :| 0 <= i < |msgDesc.field| && msgDesc.field[i] == f;
              assert names[i] == GetName(f.name);
            }
          }
          Nil
        case Some(i) => Field(msgDesc.field[i])
  }

  /** The first top-level enum of `file` whose name is exactly `name`; enums
      nested in messages are not searched. */
  function FindEnum(file: ProtoMessage, name: string): (r: ProtoMessage)
    ensures file == Nil || name == "" || !IsFileType(file) ==> r == Nil
    ensures r != Nil ==>
              exists i :: 0 <= i < |file.fileDesc.enumType|
                          && r == Enum(file.fileDesc.enumType[i])
                          && GetName(file.fileDesc.enumType[i].name) == name
                          && forall j :: 0 <= j < i ==> GetName(file.fileDesc.enumType[j].name) != name
    ensures IsFileType(file) && name != "" ==>
              (r == Nil <==> forall e :: e in file.fileDesc.enumType ==> GetName(e.name) != name)
  {
    if file == Nil || name == "" then Nil
    else match AsFileType(file)
      case None => Nil
      case Some(fileDesc) =>
        var names := NamesOf(fileDesc.enumType, (e: EnumDescriptorProto) => e.name);
        match FirstIndexOf(names, name)
        case None =>
          assert forall e :: e in fileDesc.enumType ==> GetName(e.name) != name by {
            forall e | e in fileDesc.enumType ensures GetName(e.name) != name {
              var i :| 0 <= i < |fileDesc.enumType| && fileDesc.enumType[i] == e;
              assert names[i] == GetName(e.name);
            }
          }
          Nil
        case Some(i) => Enum(fileDesc.enumType[i])
  }

  /** The first service of `file` whose name is exactly `name`. */
  function FindService(file: ProtoMessage, name: string): (r: ProtoMessage)
    ensures file == Nil || name == "" || !IsFileType(file) ==> r == Nil
    ensures r != Nil ==>
              exists i :: 0 <= i < |file.fileDesc.service|
                          && r == Service(file.fileDesc.service[i])
                          && GetName(file.fileDesc.service[i].name) == name
                          && forall j :: 0 <= j < i ==> GetName(file.fileDesc.service[j].name) != name
    ensures IsFileType(file) && name != "" ==>
              (r == Nil <==> forall s :: s in file.fileDesc.service ==> GetName(s.name) != name)
  {
    if file == Nil || name == "" then Nil
    else match AsFileType(file)
      case None => Nil
      case Some(fileDesc) =>
        var names := NamesOf(fileDesc.service, (sv: ServiceDescriptorProto) => sv.name);
        match FirstIndexOf(names, name)
        case None =>
          assert forall s :: s in fileDesc.service ==> GetName(s.name) != name by {
            forall s | s in fileDesc.service ensures GetName(s.name) != name {
              var i :| 0 <= i < |fileDesc.service| && fileDesc.service[i] == s;
              assert names[i] == GetName(s.name);
            }
          }
          Nil
        case Some(i) => Service(fileDesc.service[i])
  }

  /** The first method of service `service` whose name is exactly `name`. */
  function FindMethod(service: ProtoMessage, name: string): (r: ProtoMessage)
    ensures service == Nil || name == "" || !IsServiceType(service) ==> r == Nil
    ensures r != Nil ==>
              exists i :: 0 <= i < |service.svcDesc.methods|
                          && r == Method(service.svcDesc.methods[i])
                          && GetName(service.svcDesc.methods[i].name) == name
                          && forall j :: 0 <= j < i ==> GetName(service.svcDesc.methods[j].name) != name
    ensures IsServiceType(service) && name != "" ==>
              (r == Nil <==> forall m :: m in service.svcDesc.methods ==> GetName(m.name) != name)
  {
    if service == Nil || name == "" then Nil
    else match AsServiceType(service)
      case None => Nil
      case Some(svcDesc) =>
        var names := NamesOf(svcDesc.methods, (m: MethodDescriptorProto) => m.name);
        match FirstIndexOf(names, name)
        case None =>
          assert forall m :: m in svcDesc.methods ==> GetName(m.name) != name by {
            forall m | m in svcDesc.methods ensures GetName(m.name) != name {
              var i :| 0 <= i < |svcDesc.methods| && svcDesc.methods[i] == m;
              assert names[i] == GetName(m.name);
            }
          }
          Nil
        case Some(i) => Method(svcDesc.methods[i])
  }

  // --- ForEach --------------------------------------------------------------

  /** A caller-supplied visitor, `func(proto.Message) bool`: it answers true to
      go on and false to stop. Its answer may depend on the item and on every
      item it was shown before (`decide(visited, item)`), which covers visitors
      that count their calls or remember what they saw; `visited` is the log of
      its calls. */
  class Visitor {
    const decide: (seq<ProtoMessage>, ProtoMessage) -> bool
    var visited: seq<ProtoMessage>

    constructor (decide: (seq<ProtoMessage>, ProtoMessage) -> bool)
      ensures this.decide == decide && visited == []
    {
      this.decide := decide;
      visited := [];
    }

    method Visit(item: ProtoMessage) returns (more: bool)
      modifies this
      ensures visited == old(visited) + [item]
      ensures more == decide(old(visited), item)
    {
      more := decide(visited, item);
      visited := visited + [item];
    }
  }

  /** How many of `items` a visitor with log `history` is shown when it is
      called on them in order and the walk stops right after its first false. */
  function VisitCount(decide: (seq<ProtoMessage>, ProtoMessage) -> bool,
                      history: seq<ProtoMessage>, items: seq<ProtoMessage>): (n: nat)
    ensures n <= |items|
    ensures items != [] ==> 1 <= n
    decreases |items|
  {
    if items == [] then 0
    else if !decide(history, items[0]) then 1
    else 1 + VisitCount(decide, history + [items[0]], items[1..])
  }

  /** One step of the walk: the first item is shown, and the rest is walked
      with that item added to the log unless the visitor said stop. */
  lemma {:induction false} VisitCountStep(decide: (seq<ProtoMessage>, ProtoMessage) -> bool,
                                          history: seq<ProtoMessage>, items: seq<ProtoMessage>, i: nat)
    requires i < |items|
    ensures VisitCount(decide, history + items[..i], items[i..])
            == if decide(history + items[..i], items[i]) then
                 1 + VisitCount(decide, history + items[..i + 1], items[i + 1..])
               else 1
  {
    assert items[i..][0] == items[i];
    assert items[i..][1..] == items[i + 1..];
    assert history + items[..i] + [items[i]] == history + items[..i + 1];
  }

  /** The walk stops right after the first false: if the visitor answers true
      to the first k items and false to item k, exactly k + 1 are shown. */
  lemma {:induction false} VisitCountFirstFalse(decide: (seq<ProtoMessage>, ProtoMessage) -> bool,
                                                history: seq<ProtoMessage>, items: seq<ProtoMessage>, k: nat)
    requires k < |items|
    requires forall j :: 0 <= j < k ==> decide(history + items[..j], items[j])
    requires !decide(history + items[..k], items[k])
    ensures VisitCount(decide, history, items) == k + 1
  {
    var i := k;
    // Walk back from item k: the suffix from i on is shown k + 1 - i times.
    VisitCountStep(decide, history, items, k);
    while i > 0
      invariant 0 <= i <= k
      invariant VisitCount(decide, history + items[..i], items[i..]) == k + 1 - i
    {
      i := i - 1;
      VisitCountStep(decide, history, items, i);
    }
    assert items[..0] == [] && items[0..] == items;
    assert history + [] == history;
  }

  /** A visitor that never says stop is shown every item. */
  lemma {:induction false} VisitCountAllTrue(decide: (seq<ProtoMessage>, ProtoMessage) -> bool,
                                             history: seq<ProtoMessage>, items: seq<ProtoMessage>)
    requires forall j :: 0 <= j < |items| ==> decide(history + items[..j], items[j])
    ensures VisitCount(decide, history, items) == |items|
  {
    var i := |items|;
    assert items[i..] == [];
    while i > 0
      invariant 0 <= i <= |items|
      invariant VisitCount(decide, history + items[..i], items[i..]) == |items| - i
    {
      i := i - 1;
      VisitCountStep(decide, history, items, i);
    }
    assert items[..0] == [] && items[0..] == items;
    assert history + [] == history;
  }

  /** A visitor that says stop on its k-th call (k >= 1), whatever it is shown,
      makes a fresh walk over n items show min(k, n) of them. */
  lemma StopOnKthCall(items: seq<ProtoMessage>, k: nat)
    requires k >= 1
    ensures VisitCount((h: seq<ProtoMessage>, x: ProtoMessage) => |h| + 1 < k, [], items)
            == if k <= |items| then k else |items|
  {
    var decide := (h: seq<ProtoMessage>, x: ProtoMessage) => |h| + 1 < k;
    if k <= |items| {
      forall j | 0 <= j < k - 1 ensures decide([] + items[..j], items[j]) {
        assert |[] + items[..j]| == j;
      }
      assert |[] + items[..k - 1]| == k - 1;
      VisitCountFirstFalse(decide, [], items, k - 1);
    } else {
      forall j | 0 <= j < |items| ensures decide([] + items[..j], items[j]) {
        assert |[] + items[..j]| == j;
      }
      VisitCountAllTrue(decide, [], items);
    }
  }

  /** Calls `fn` on `items` in order and stops right after the first false
      (the loop shared by every `ForEach`). */
  method VisitInOrder(items: seq<ProtoMessage>, fn: Visitor)
    modifies fn
    ensures fn.visited == old(fn.visited) + items[..VisitCount(fn.decide, old(fn.visited), items)]
  {
    ghost var history := fn.visited;
    var i := 0;
    while i < |items|
      invariant 0 <= i <= |items|
      invariant fn.visited == history + items[..i]
      invariant VisitCount(fn.decide, history, items)
                == i + VisitCount(fn.decide, history + items[..i], items[i..])
    {
      VisitCountStep(fn.decide, history, items, i);
      var more := fn.Visit(items[i]);
      i := i + 1;
      if !more {
        break;
      }
    }
    assert items[i..] == [] ==> VisitCount(fn.decide, history + items[..i], items[i..]) == 0;
  }

  // The children each iterator walks, as the visitor is shown them: nothing
  // when the container fails its classifier.

  function FieldsOf(msg: ProtoMessage): (r: seq<ProtoMessage>)
    ensures !IsMessage(msg) ==> r == []
    ensures IsMessage(msg) ==> |r| == |msg.msgDesc.field|
                               && forall i :: 0 <= i < |r| ==> r[i] == Field(msg.msgDesc.field[i])
  {
    match AsMessage(msg)
    case None => []
    case Some(d) => seq(|d.field|, i requires 0 <= i < |d.field| => Field(d.field[i]))
  }

  function MessagesOf(file: ProtoMessage): (r: seq<ProtoMessage>)
    ensures !IsFileType(file) ==> r == []
    ensures IsFileType(file) ==> |r| == |file.fileDesc.messageType|
                                 && forall i :: 0 <= i < |r| ==> r[i] == Message(file.fileDesc.messageType[i])
  {
    match AsFileType(file)
    case None => []
    case Some(d) => seq(|d.messageType|, i requires 0 <= i < |d.messageType| => Message(d.messageType[i]))
  }

  function EnumsOf(file: ProtoMessage): (r: seq<ProtoMessage>)
    ensures !IsFileType(file) ==> r == []
    ensures IsFileType(file) ==> |r| == |file.fileDesc.enumType|
                                 && forall i :: 0 <= i < |r| ==> r[i] == Enum(file.fileDesc.enumType[i])
  {
    match AsFileType(file)
    case None => []
    case Some(d) => seq(|d.enumType|, i requires 0 <= i < |d.enumType| => Enum(d.enumType[i]))
  }

  function ServicesOf(file: ProtoMessage): (r: seq<ProtoMessage>)
    ensures !IsFileType(file) ==> r == []
    ensures IsFileType(file) ==> |r| == |file.fileDesc.service|
                                 && forall i :: 0 <= i < |r| ==> r[i] == Service(file.fileDesc.service[i])
  {
    match AsFileType(file)
    case None => []
    case Some(d) => seq(|d.service|, i requires 0 <= i < |d.service| => Service(d.service[i]))
  }

  function MethodsOf(service: ProtoMessage): (r: seq<ProtoMessage>)
    ensures !IsServiceType(service) ==> r == []
    ensures IsServiceType(service) ==> |r| == |service.svcDesc.methods|
                                       && forall i :: 0 <= i < |r| ==> r[i] == Method(service.svcDesc.methods[i])
  {
    match AsServiceType(service)
    case None => []
    case Some(d) => seq(|d.methods|, i requires 0 <= i < |d.methods| => Method(d.methods[i]))
  }

  function NestedMessagesOf(msg: ProtoMessage): (r: seq<ProtoMessage>)
    ensures !IsMessage(msg) ==> r == []
    ensures IsMessage(msg) ==> |r| == |msg.msgDesc.nestedType|
                               && forall i :: 0 <= i < |r| ==> r[i] == Message(msg.msgDesc.nestedType[i])
  {
    match AsMessage(msg)
    case None => []
    case Some(d) => seq(|d.nestedType|, i requires 0 <= i < |d.nestedType| => Message(d.nestedType[i]))
  }

  function NestedEnumsOf(msg: ProtoMessage): (r: seq<ProtoMessage>)
    ensures !IsMessage(msg) ==> r == []
    ensures IsMessage(msg) ==> |r| == |msg.msgDesc.enumType|
                               && forall i :: 0 <= i < |r| ==> r[i] == Enum(msg.msgDesc.enumType[i])
  {
    match AsMessage(msg)
    case None => []
    case Some(d) => seq(|d.enumType|, i requires 0 <= i < |d.enumType| => Enum(d.enumType[i]))
  }

  // Each iterator: a nil container or a nil visitor makes no call; otherwise
  // the visitor is shown the container's children in declaration order up to
  // and including its first false. The returned error is always nil.

  method ForEachField(msg: ProtoMessage, fn: Visitor?) returns (err: Option<string>)
    modifies fn
    ensures err == None
    ensures fn != null ==>
              fn.visited == old(fn.visited) + FieldsOf(msg)[..VisitCount(fn.decide, old(fn.visited), FieldsOf(msg))]
    ensures fn != null && (msg == Nil || !IsMessage(msg)) ==> fn.visited == old(fn.visited)
  {
    err := None;
    if msg == Nil || fn == null {
      return;
    }
    if AsMessage(msg).None? {
      return;
    }
    VisitInOrder(FieldsOf(msg), fn);
  }

  method ForEachMessage(file: ProtoMessage, fn: Visitor?) returns (err: Option<string>)
    modifies fn
    ensures err == None
    ensures fn != null ==>
              fn.visited == old(fn.visited) + MessagesOf(file)[..VisitCount(fn.decide, old(fn.visited), MessagesOf(file))]
    ensures fn != null && (file == Nil || !IsFileType(file)) ==> fn.visited == old(fn.visited)
  {
    err := None;
    if file == Nil || fn == null {
      return;
    }
    if AsFileType(file).None? {
      return;
    }
    VisitInOrder(MessagesOf(file), fn);
  }

  /** Walks the file's top-level enums only, not enums nested in messages. */
  method ForEachEnum(file: ProtoMessage, fn: Visitor?) returns (err: Option<string>)
    modifies fn
    ensures err == None
    ensures fn != null ==>
              fn.visited == old(fn.visited) + EnumsOf(file)[..VisitCount(fn.decide, old(fn.visited), EnumsOf(file))]
    ensures fn != null && (file == Nil || !IsFileType(file)) ==> fn.visited == old(fn.visited)
  {
    err := None;
    if file == Nil || fn == null {
      return;
    }
    if AsFileType(file).None? {
      return;
    }
    VisitInOrder(EnumsOf(file), fn);
  }

  method ForEachService(file: ProtoMessage, fn: Visitor?) returns (err: Option<string>)
    modifies fn
    ensures err == None
    ensures fn != null ==>
              fn.visited == old(fn.visited) + ServicesOf(file)[..VisitCount(fn.decide, old(fn.visited), ServicesOf(file))]
    ensures fn != null && (file == Nil || !IsFileType(file)) ==> fn.visited == old(fn.visited)
  {
    err := None;
    if file == Nil || fn == null {
      return;
    }
    if AsFileType(file).None? {
      return;
    }
    VisitInOrder(ServicesOf(file), fn);
  }

  method ForEachMethod(service: ProtoMessage, fn: Visitor?) returns (err: Option<string>)
    modifies fn
    ensures err == None
    ensures fn != null ==>
              fn.visited == old(fn.visited) + MethodsOf(service)[..VisitCount(fn.decide, old(fn.visited), MethodsOf(service))]
    ensures fn != null && (service == Nil || !IsServiceType(service)) ==> fn.visited == old(fn.visited)
  {
    err := None;
    if service == Nil || fn == null {
      return;
    }
    if AsServiceType(service).None? {
      return;
    }
    VisitInOrder(MethodsOf(service), fn);
  }

  method ForEachNestedMessage(msg: ProtoMessage, fn: Visitor?) returns (err: Option<string>)
    modifies fn
    ensures err == None
    ensures fn != null ==>
              fn.visited == old(fn.visited) + NestedMessagesOf(msg)[..VisitCount(fn.decide, old(fn.visited), NestedMessagesOf(msg))]
    ensures fn != null && (msg == Nil || !IsMessage(msg)) ==> fn.visited == old(fn.visited)
  {
    err := None;
    if msg == Nil || fn == null {
      return;
    }
    if AsMessage(msg).None? {
      return;
    }
    VisitInOrder(NestedMessagesOf(msg), fn);
  }

  method ForEachNestedEnum(msg: ProtoMessage, fn: Visitor?) returns (err: Option<string>)
    modifies fn
    ensures err == None
    ensures fn != null ==>
              fn.visited == old(fn.visited) + NestedEnumsOf(msg)[..VisitCount(fn.decide, old(fn.visited), NestedEnumsOf(msg))]
    ensures fn != null && (msg == Nil || !IsMessage(msg)) ==> fn.visited == old(fn.visited)
  {
    err := None;
    if msg == Nil || fn == null {
      return;
    }
    if AsMessage(msg).None? {
      return;
    }
    VisitInOrder(NestedEnumsOf(msg), fn);
  }
}
