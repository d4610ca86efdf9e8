/** The visitor: an iterative traversal with an explicit stack, against the recursive one. */
module Visitors {
  import opened Bytes
  import opened Trees
  import opened Encoding
  import opened Doubles
  import opened Documents
  import opened Readers

  /** `ThsnVisitorResult`. */
  datatype Answer = Continue | Skip | AbortSuccess | AbortError

  /** A call of one of the visitor's functions. Numbers are the bits of doubles. */
  datatype Call =
    | VisitNull | VisitBool(b: bool) | VisitNumber(bits: Word) | VisitString(s: seq<Byte>)
    | ArrayStart | ArrayEnd | ObjectStart | ObjectEnd

  /** The members of `ThsnVisitorVTable`. */
  datatype Slot =
    | NullSlot | BoolSlot | NumberSlot | StringSlot
    | ArrayStartSlot | ArrayEndSlot | ObjectStartSlot | ObjectEndSlot

  /** `ThsnVisitorContext`. */
  datatype Context = Context(key: seq<Byte>, inArray: bool, inObject: bool, last: bool)

  datatype Event = Event(call: Call, context: Context)

  /** The functions that are there, and what they answer to a call, given all calls so far. */
  datatype Visitor = Visitor(vtable: set<Slot>, answer: seq<Event> -> Answer)

  const FIRST: Context := Context([], false, false, false)

  function SlotOf(call: Call): Slot {
    match call
    case VisitNull => NullSlot
    case VisitBool(_) => BoolSlot
    case VisitNumber(_) => NumberSlot
    case VisitString(_) => StringSlot
    case ArrayStart => ArrayStartSlot
    case ArrayEnd => ArrayEndSlot
    case ObjectStart => ObjectStartSlot
    case ObjectEnd => ObjectEndSlot
  }

  datatype Verdict = Going | Aborted(success: bool)

  /** All calls so far, and whether the visit goes on. */
  datatype Walk = Walk(events: seq<Event>, verdict: Verdict)

  /** CALL_VISITOR2, CALL_VISITOR3: a missing function lets the visit go on. */
  function Notify(v: Visitor, events: seq<Event>, call: Call, context: Context): (r: (Walk, bool))
    ensures events <= r.0.events
  {
    if SlotOf(call) !in v.vtable then (Walk(events, Going), false)
    else
      var all := events + [Event(call, context)];
      match v.answer(all)
      case Continue => (Walk(all, Going), false)
      case Skip => (Walk(all, Going), true)
      case AbortSuccess => (Walk(all, Aborted(true)), false)
      case AbortError => (Walk(all, Aborted(false)), false)
  }

  // ----- The recursive traversal -----

  function ElementContext(last: bool): Context {
    Context([], true, false, last)
  }

  function MemberContext(key: seq<Byte>, last: bool): Context {
    Context(key, false, true, last)
  }

  /** Start, children and end of a composite; a skipped one has neither children nor end. A handle is an error. */
  function Traverse(v: Visitor, t: Tree, context: Context, events: seq<Event>): (w: Walk)
    ensures events <= w.events
    decreases t, 1
  {
    match t
    case Null => Notify(v, events, VisitNull, context).0
    case Bool(b) => Notify(v, events, VisitBool(b), context).0
    case Int(_) => Notify(v, events, VisitNumber(AsDouble(t)), context).0
    case Double(_) => Notify(v, events, VisitNumber(AsDouble(t)), context).0
    case Str(s) => Notify(v, events, VisitString(s), context).0
    case Arr(elems) =>
      var (w, skip) := Notify(v, events, ArrayStart, context);
      if w.verdict != Going || skip then w else TraverseElements(v, elems, context, w.events)
    case Obj(kvs) =>
      var (w, skip) := Notify(v, events, ObjectStart, context);
      if w.verdict != Going || skip then w else TraverseMembers(v, kvs, context, w.events)
    case Ref(_, _, _) => Walk(events, Aborted(false))
  }

  /** The remaining elements of an array, and its end. */
  function TraverseElements(v: Visitor, elems: seq<Tree>, context: Context, events: seq<Event>): (w: Walk)
    ensures events <= w.events
    decreases elems, 0
  {
    if elems == [] then Notify(v, events, ArrayEnd, context).0
    else
      var w := Traverse(v, elems[0], ElementContext(|elems| == 1), events);
      if w.verdict != Going then w else TraverseElements(v, elems[1..], context, w.events)
  }

  function TraverseMembers(v: Visitor, kvs: seq<Member>, context: Context, events: seq<Event>): (w: Walk)
    ensures events <= w.events
    decreases kvs, 0
  {
    if kvs == [] then Notify(v, events, ObjectEnd, context).0
    else
      var w := Traverse(v, kvs[0].value, MemberContext(kvs[0].key, |kvs| == 1), events);
      if w.verdict != Going then w else TraverseMembers(v, kvs[1..], context, w.events)
  }

  // ----- The iterative traversal -----

  datatype VisitTag = TagArray | TagObjectKv

  /** What the visit keeps on its stack of an open composite. */
  datatype VisitFrame = VisitFrame(table: Table, context: Context, tag: VisitTag)

  /** What an open composite still has to deliver. */
  datatype Todo = ArrayTodo(elems: seq<Tree>, context: Context) | ObjectTodo(kvs: seq<Member>, context: Context)

  ghost predicate Matches(text: seq<Byte>, doc: Doc, f: VisitFrame, todo: Todo) {
    && f.context == todo.context
    && match todo
       case ArrayTodo(elems, _) => f.tag == TagArray && HoldsElements(text, doc, f.table, elems)
       case ObjectTodo(kvs, _) => f.tag == TagObjectKv && HoldsMembers(text, doc, f.table, kvs)
  }

  ghost predicate AllMatch(text: seq<Byte>, doc: Doc, stack: seq<VisitFrame>, todos: seq<Todo>) {
    |stack| == |todos| && forall i :: 0 <= i < |stack| ==> Matches(text, doc, stack[i], todos[i])
  }

  ghost function Deliver(v: Visitor, todo: Todo, events: seq<Event>): Walk {
    match todo
    case ArrayTodo(elems, context) => TraverseElements(v, elems, context, events)
    case ObjectTodo(kvs, context) => TraverseMembers(v, kvs, context, events)
  }

  /** How the visit ends, once the walk so far has come back to these open composites. */
  ghost function Unwind(v: Visitor, todos: seq<Todo>, w: Walk): Walk
    decreases |todos|
  {
    if w.verdict != Going || todos == [] then w
    else Unwind(v, todos[..|todos| - 1], Deliver(v, todos[|todos| - 1], w.events))
  }

  /** Two units for a value: one to start it, one to end it. */
  ghost function Cost(t: Tree): (n: nat)
    ensures n >= 2
    decreases t, 1
  {
    match t
    case Arr(elems) => 2 + CostOf(elems)
    case Obj(kvs) => 2 + CostOfMembers(kvs)
    case _ => 2
  }

  ghost function CostOf(ts: seq<Tree>): nat
    decreases ts, 0
  {
    if ts == [] then 0 else Cost(ts[0]) + CostOf(ts[1..])
  }

  ghost function CostOfMembers(kvs: seq<Member>): nat
    decreases kvs, 0
  {
    if kvs == [] then 0 else Cost(kvs[0].value) + CostOfMembers(kvs[1..])
  }

  ghost function TodoCost(todo: Todo): nat {
    1 + if todo.ArrayTodo? then CostOf(todo.elems) else CostOfMembers(todo.kvs)
  }

  ghost function Left(todos: seq<Todo>): nat {
    if todos == [] then 0 else Left(todos[..|todos| - 1]) + TodoCost(todos[|todos| - 1])
  }

  lemma OneMore(v: Visitor, todos: seq<Todo>, todo: Todo, events: seq<Event>)
    ensures (todos + [todo])[..|todos|] == todos
    ensures Left(todos + [todo]) == Left(todos) + TodoCost(todo)
    ensures Unwind(v, todos + [todo], Walk(events, Going)) == Unwind(v, todos, Deliver(v, todo, events))
  {
    hide Deliver, TodoCost;
  }

  /** The outer switch: the value itself, or the start of a composite, whose table then goes on the stack. */
  method VisitValue(text: seq<Byte>, doc: Doc, v: Visitor, h: Handle, context: Context, events: seq<Event>,
                    stack: seq<VisitFrame>, ghost value: Tree, ghost todos: seq<Todo>)
    returns (w: Walk, stack': seq<VisitFrame>, ghost todos': seq<Todo>)
    requires Settled(text, doc, h, value) && AllMatch(text, doc, stack, todos)
    ensures AllMatch(text, doc, stack', todos')
    ensures Unwind(v, todos', w) == Unwind(v, todos, Traverse(v, value, context, events))
    ensures Left(todos') < Left(todos) + Cost(value)
  {
    hide Settled, HoldsElements, HoldsMembers, ReadTable, ReadString, ReadNumber, ReadBool;
    hide ValueType, Notify, TraverseElements, TraverseMembers, Left, Unwind;
    KindIs(text, doc, h, value);
    stack', todos' := stack, todos;
    var skip;
    var seg := doc[h.segment];
    match ValueType(doc, h).value {
      case NullValue => w := Notify(v, events, VisitNull, context).0;
      case BoolValue => w := Notify(v, events, VisitBool(ReadBool(seg, h.offset).value), context).0;
      case NumberValue => w := Notify(v, events, VisitNumber(ReadNumber(seg, h.offset).value), context).0;
      case StringValue => w := Notify(v, events, VisitString(ReadString(text, seg, h.offset).value), context).0;
      case ArrayValue =>
        var r := Notify(v, events, ArrayStart, context);
        w, skip := r.0, r.1;
        if w.verdict == Going && !skip {
          ArrayOpens(text, doc, h, value.elems);
          var table := ReadTable(seg, h.offset, TAG_ARRAY);
          stack' := stack + [VisitFrame(Table(h.segment, table.value), context, TagArray)];
          todos' := todos + [ArrayTodo(value.elems, context)];
          OneMore(v, todos, ArrayTodo(value.elems, context), w.events);
        }
      case ObjectValue =>
        var r := Notify(v, events, ObjectStart, context);
        w, skip := r.0, r.1;
        if w.verdict == Going && !skip {
          ObjectOpens(text, doc, h, value.kvs);
          var table := ReadTable(seg, h.offset, TAG_OBJECT);
          stack' := stack + [VisitFrame(Table(h.segment, table.value), context, TagObjectKv)];
          todos' := todos + [ObjectTodo(value.kvs, context)];
          OneMore(v, todos, ObjectTodo(value.kvs, context), w.events);
        }
    }
  }

  /** What the readers say of a value. */
  lemma KindIs(text: seq<Byte>, doc: Doc, h: Handle, value: Tree)
    requires Settled(text, doc, h, value)
    ensures h.segment < |doc| && !value.Ref? && ValueType(doc, h) == Some(KindOf(value))
    ensures value.Bool? ==> ReadBool(doc[h.segment], h.offset) == Some(value.b)
    ensures value.Int? || value.Double? ==> ReadNumber(doc[h.segment], h.offset) == Some(AsDouble(value))
    ensures value.Str? ==> ReadString(text, doc[h.segment], h.offset) == Some(value.s)
  {
    hide Settled, ReadBool, ReadNumber, ReadString, ReadTable, HoldsElements, HoldsMembers, ValueType;
    match value
    case Arr(elems) => ArrayOpens(text, doc, h, elems);
    case Obj(kvs) => ObjectOpens(text, doc, h, kvs);
    case _ =>
      var raw, end := SettledMeans(text, doc, h, value);
      AtomReads(text, doc, h, value);
  }

  /** One round of the inner loop: the innermost open composite ends, or gives its next value. */
  method NextOf(text: seq<Byte>, doc: Doc, v: Visitor, events: seq<Event>, stack: seq<VisitFrame>,
                ghost todos: seq<Todo>)
    returns (w: Walk, stack': seq<VisitFrame>, found: Option<(Handle, Context)>, ghost todos': seq<Todo>,
      ghost value: Tree)
    requires AllMatch(text, doc, stack, todos) && stack != []
    ensures AllMatch(text, doc, stack', todos')
    ensures found.None? ==>
      Left(todos') < Left(todos) && Unwind(v, todos, Walk(events, Going)) == Unwind(v, todos', w)
    ensures found.Some? ==>
      && w == Walk(events, Going) && Settled(text, doc, found.value.0, value)
      && Left(todos') + Cost(value) == Left(todos)
      && Unwind(v, todos, Walk(events, Going)) == Unwind(v, todos', Traverse(v, value, found.value.1, events))
  {
    hide Settled, HoldsElements, HoldsMembers, Notify, Traverse, Unwind, Left;
    var f := stack[|stack| - 1];
    var below := stack[..|stack| - 1];
    ghost var todo, todosBelow := todos[|todos| - 1], todos[..|todos| - 1];
    assert todosBelow + [todo] == todos;
    OneMore(v, todosBelow, todo, events);
    found, value := None, Null;
    stack', todos' := below, todosBelow;
    TableSize(text, doc, f, todo);
    if f.table.offsets == [] {
      w := Notify(v, events, if f.tag == TagArray then ArrayEnd else ObjectEnd, f.context).0;
    } else if f.tag == TagArray {
      w := Walk(events, Going);
      var rest, h := ConsumeElement(text, doc, f.table, todo.elems);
      stack' := below + [VisitFrame(rest, f.context, f.tag)];
      value := todo.elems[0];
      ghost var todo' := ArrayTodo(todo.elems[1..], todo.context);
      todos' := todosBelow + [todo'];
      TableSize(text, doc, VisitFrame(rest, f.context, f.tag), todo');
      found := Some((h.value, ElementContext(rest.offsets == [])));
      NextElement(v, todosBelow, todo.elems, todo.context, events);
    } else {
      w := Walk(events, Going);
      var rest, key, h := ConsumeMember(text, doc, f.table, todo.kvs);
      stack' := below + [VisitFrame(rest, f.context, f.tag)];
      value := todo.kvs[0].value;
      ghost var todo' := ObjectTodo(todo.kvs[1..], todo.context);
      todos' := todosBelow + [todo'];
      TableSize(text, doc, VisitFrame(rest, f.context, f.tag), todo');
      found := Some((h.value, MemberContext(key, rest.offsets == [])));
      NextMember(v, todosBelow, todo.kvs, todo.context, events);
    }
  }

  lemma TableSize(text: seq<Byte>, doc: Doc, f: VisitFrame, todo: Todo)
    requires Matches(text, doc, f, todo)
    ensures |f.table.offsets| == if todo.ArrayTodo? then |todo.elems| else |todo.kvs|
  {
  }

  lemma NextElement(v: Visitor, todos: seq<Todo>, elems: seq<Tree>, context: Context, events: seq<Event>)
    requires elems != []
    ensures var all, rest := todos + [ArrayTodo(elems, context)], todos + [ArrayTodo(elems[1..], context)];
            && Left(all) == Left(rest) + Cost(elems[0])
            && Unwind(v, all, Walk(events, Going))
            == Unwind(v, rest, Traverse(v, elems[0], ElementContext(|elems| == 1), events))
  {
    hide Traverse, Left, Unwind, Cost;
    var w := Traverse(v, elems[0], ElementContext(|elems| == 1), events);
    OneMore(v, todos, ArrayTodo(elems, context), events);
    OneMore(v, todos, ArrayTodo(elems[1..], context), w.events);
    AbortStays(v, todos, w);
    AbortStays(v, todos + [ArrayTodo(elems[1..], context)], w);
  }

  lemma NextMember(v: Visitor, todos: seq<Todo>, kvs: seq<Member>, context: Context, events: seq<Event>)
    requires kvs != []
    ensures var all, rest := todos + [ObjectTodo(kvs, context)], todos + [ObjectTodo(kvs[1..], context)];
            && Left(all) == Left(rest) + Cost(kvs[0].value)
            && Unwind(v, all, Walk(events, Going))
            == Unwind(v, rest, Traverse(v, kvs[0].value, MemberContext(kvs[0].key, |kvs| == 1), events))
  {
    hide Traverse, Left, Unwind, Cost;
    var w := Traverse(v, kvs[0].value, MemberContext(kvs[0].key, |kvs| == 1), events);
    OneMore(v, todos, ObjectTodo(kvs, context), events);
    OneMore(v, todos, ObjectTodo(kvs[1..], context), w.events);
    AbortStays(v, todos, w);
    AbortStays(v, todos + [ObjectTodo(kvs[1..], context)], w);
  }

  lemma AbortStays(v: Visitor, todos: seq<Todo>, w: Walk)
    ensures w.verdict != Going ==> Unwind(v, todos, w) == w
  {
  }

  /** The inner loop: up through the open composites to the next value, if there is one. */
  method NextValue(text: seq<Byte>, doc: Doc, v: Visitor, events: seq<Event>, stack: seq<VisitFrame>,
                   ghost todos: seq<Todo>)
    returns (w: Walk, stack': seq<VisitFrame>, found: Option<(Handle, Context)>, ghost todos': seq<Todo>,
      ghost value: Tree)
    requires AllMatch(text, doc, stack, todos)
    ensures AllMatch(text, doc, stack', todos')
    ensures found.None? ==> Unwind(v, todos, Walk(events, Going)) == w
    ensures found.Some? ==>
      && w.verdict == Going && Settled(text, doc, found.value.0, value)
      && Left(todos') + Cost(value) <= Left(todos)
      && Unwind(v, todos, Walk(events, Going)) == Unwind(v, todos', Traverse(v, value, found.value.1, w.events))
  {
    hide Settled, Matches, Notify, Traverse, Left, Unwind;
    w, stack', todos', found, value := Walk(events, Going), stack, todos, None, Null;
    while found.None?
      invariant AllMatch(text, doc, stack', todos') && w.verdict == Going
      invariant found.None? ==> Left(todos') <= Left(todos)
      invariant found.None? ==> Unwind(v, todos, Walk(events, Going)) == Unwind(v, todos', w)
      invariant found.Some? ==>
        && Settled(text, doc, found.value.0, value)
        && Left(todos') + Cost(value) <= Left(todos)
        && Unwind(v, todos, Walk(events, Going)) == Unwind(v, todos', Traverse(v, value, found.value.1, w.events))
      decreases found.None?, Left(todos')
    {
      if stack' == [] {
        NothingLeft(v, w);
        return;
      }
      w, stack', found, todos', value := NextOf(text, doc, v, w.events, stack', todos');
      if w.verdict != Going {
        AbortStays(v, todos', w);
        return;
      }
    }
  }

  lemma NothingLeft(v: Visitor, w: Walk)
    ensures Unwind(v, [], w) == w
  {
  }

  /** `thsn_document_visit`: on the document of a value, exactly the calls of the recursive traversal, with the same
      contexts, which are what the visitor makes of all calls written out; on an empty document, none and an error. */
  method Visit(text: seq<Byte>, doc: Doc, v: Visitor, ghost root: Option<Tree>) returns (ok: bool, events: seq<Event>)
    requires match root
             case Some(t) => Settled(text, doc, ROOT, t)
             case None => doc != [] && doc[0] == []
    ensures root.None? ==> !ok && events == []
    ensures root.Some? ==>
      var w := Traverse(v, root.value, FIRST, []);
      events == w.events && (ok <==> w.verdict != Aborted(false))
    ensures root.Some? ==>
      var w := Played(v, Calls(root.value, Context([], false, false, false)), [], 0);
      events == w.events && (ok <==> w.verdict != Aborted(false))
  {
    hide Settled, Matches, Notify, Traverse, Left, Unwind, ValueType, Played, Calls;
    var h, context, stack, w := ROOT, FIRST, [], Walk([], Going);
    ghost var value, todos: seq<Todo> := if root.Some? then root.value else Null, [];
    RootType(doc);
    if root.Some? {
      SettledNoRefs(text, doc, ROOT, root.value);
      WholePlay(v, root.value);
    }
    NothingLeft(v, Traverse(v, value, context, []));
    while true
      invariant w.verdict == Going && AllMatch(text, doc, stack, todos)
      invariant root.None? ==> h == ROOT && w.events == []
      invariant root.Some? ==> Settled(text, doc, h, value)
      invariant root.Some? ==>
        Traverse(v, root.value, FIRST, []) == Unwind(v, todos, Traverse(v, value, context, w.events))
      decreases Left(todos) + Cost(value)
    {
      if root.Some? {
        KindIs(text, doc, h, value);
      }
      if ValueType(doc, h).None? {
        return false, w.events;
      }
      w, stack, todos := VisitValue(text, doc, v, h, context, w.events, stack, value, todos);
      if w.verdict != Going {
        AbortStays(v, todos, w);
        return w.verdict.success, w.events;
      }
      var found;
      w, stack, found, todos, value := NextValue(text, doc, v, w.events, stack, todos);
      if found.None? {
        return w.verdict != Aborted(false), w.events;
      }
      h, context := found.value.0, found.value.1;
    }
  }

  lemma RootType(doc: Doc)
    ensures doc != [] && doc[0] == [] ==> ValueType(doc, ROOT).None?
  {
  }

  // ----- The calls, and what a visitor makes of them -----

  /** The calls of an unabridged visit, written out. */
  function Calls(t: Tree, context: Context): (r: seq<Event>)
    ensures |r| > 0
    decreases t, 1
  {
    match t
    case Null => [Event(VisitNull, context)]
    case Bool(b) => [Event(VisitBool(b), context)]
    case Int(n) => [Event(VisitNumber(FromInteger(n)), context)]
    case Double(bits) => [Event(VisitNumber(bits), context)]
    case Str(s) => [Event(VisitString(s), context)]
    case Arr(elems) => [Event(ArrayStart, context)] + ElementCalls(elems) + [Event(ArrayEnd, context)]
    case Obj(kvs) => [Event(ObjectStart, context)] + MemberCalls(kvs) + [Event(ObjectEnd, context)]
    case Ref(_, _, _) => [Event(VisitNull, context)]
  }

  /** Elements have no key, are in an array and not in an object, and one of them is the last. */
  function ElementCalls(elems: seq<Tree>): seq<Event>
    decreases elems, 0
  {
    if elems == [] then [] else Calls(elems[0], Context([], true, false, |elems| == 1)) + ElementCalls(elems[1..])
  }

  /** Members have their key, and are in an object and not in an array. */
  function MemberCalls(kvs: seq<Member>): seq<Event>
    decreases kvs, 0
  {
    if kvs == [] then []
    else Calls(kvs[0].value, Context(kvs[0].key, false, true, |kvs| == 1)) + MemberCalls(kvs[1..])
  }

  // ----- What a visitor makes of the calls -----

  predicate Provides(v: Visitor, call: Call) {
    match call
    case VisitNull => NullSlot in v.vtable
    case VisitBool(_) => BoolSlot in v.vtable
    case VisitNumber(_) => NumberSlot in v.vtable
    case VisitString(_) => StringSlot in v.vtable
    case ArrayStart => ArrayStartSlot in v.vtable
    case ArrayEnd => ArrayEndSlot in v.vtable
    case ObjectStart => ObjectStartSlot in v.vtable
    case ObjectEnd => ObjectEndSlot in v.vtable
  }

  /** All calls in order, but those of missing functions, and but those from behind the start of a skipped composite up
      to its end; and none behind one that is answered by aborting. `depth` counts the composites that have begun since
      one was skipped, itself included. */
  function Played(v: Visitor, calls: seq<Event>, events: seq<Event>, depth: nat): (w: Walk)
    ensures depth == 0 && calls == [] ==> w == Walk(events, Going)
    decreases |calls|
  {
    if calls == [] then Walk(events, Going)
    else
      var e, rest := calls[0], calls[1..];
      var starts := e.call == ArrayStart || e.call == ObjectStart;
      var ends := e.call == ArrayEnd || e.call == ObjectEnd;
      if depth > 0 then
        Played(v, rest, events, if starts then depth + 1 else if ends then depth - 1 else depth)
      else if !Provides(v, e.call) then Played(v, rest, events, 0)
      else
        var told := events + [e];
        match v.answer(told)
        case Continue => Played(v, rest, told, 0)
        case Skip => Played(v, rest, told, if starts then 1 else 0)
        case AbortSuccess => Walk(told, Aborted(true))
        case AbortError => Walk(told, Aborted(false))
  }

  /** Inside a skipped composite, a value makes no difference. */
  lemma {:induction false} SkippedOver(v: Visitor, t: Tree, c: Context, rest: seq<Event>, events: seq<Event>,
                                       depth: nat)
    requires depth > 0
    ensures Played(v, Calls(t, c) + rest, events, depth) == Played(v, rest, events, depth)
    decreases t, 1
  {
    match t
    case Arr(elems) =>
      var more := [Event(ArrayEnd, c)] + rest;
      ArrayCalls(elems, c, rest);
      ElementsSkipped(v, elems, more, events, depth + 1);
      assert more[1..] == rest;
    case Obj(kvs) =>
      var more := [Event(ObjectEnd, c)] + rest;
      ObjectCalls(kvs, c, rest);
      MembersSkipped(v, kvs, more, events, depth + 1);
      assert more[1..] == rest;
    case _ => assert (Calls(t, c) + rest)[1..] == rest;
  }

  lemma {:induction false} ElementsSkipped(v: Visitor, elems: seq<Tree>, rest: seq<Event>, events: seq<Event>,
                                           depth: nat)
    requires depth > 0
    ensures Played(v, ElementCalls(elems) + rest, events, depth) == Played(v, rest, events, depth)
    decreases elems, 0
  {
    hide Played, Calls;
    if elems == [] {
      assert [] + rest == rest;
    } else {
      var first, more := Calls(elems[0], ElementContext(|elems| == 1)), ElementCalls(elems[1..]) + rest;
      assert ElementCalls(elems) + rest == first + more;
      SkippedOver(v, elems[0], ElementContext(|elems| == 1), more, events, depth);
      ElementsSkipped(v, elems[1..], rest, events, depth);
    }
  }

  lemma {:induction false} MembersSkipped(v: Visitor, kvs: seq<Member>, rest: seq<Event>, events: seq<Event>,
                                          depth: nat)
    requires depth > 0
    ensures Played(v, MemberCalls(kvs) + rest, events, depth) == Played(v, rest, events, depth)
    decreases kvs, 0
  {
    hide Played, Calls;
    if kvs == [] {
      assert [] + rest == rest;
    } else {
      var c := MemberContext(kvs[0].key, |kvs| == 1);
      var first, more := Calls(kvs[0].value, c), MemberCalls(kvs[1..]) + rest;
      assert MemberCalls(kvs) + rest == first + more;
      SkippedOver(v, kvs[0].value, c, more, events, depth);
      MembersSkipped(v, kvs[1..], rest, events, depth);
    }
  }

  /** What is played behind a walk, unless the walk has been aborted. */
  function Onward(v: Visitor, w: Walk, rest: seq<Event>, depth: nat): Walk {
    if w.verdict != Going then w else Played(v, rest, w.events, depth)
  }

  /** One call, and what is played behind it. */
  lemma NotifyPlays(v: Visitor, e: Event, rest: seq<Event>, events: seq<Event>)
    ensures var (w, skip) := Notify(v, events, e.call, e.context);
            var depth := if skip && (e.call == ArrayStart || e.call == ObjectStart) then 1 else 0;
            Played(v, [e] + rest, events, 0) == Onward(v, w, rest, depth)
  {
    assert ([e] + rest)[1..] == rest;
  }

  /** The traversal makes the calls that are played, for any visitor: it may skip, abort, and lack functions. */
  lemma {:induction false} TraversePlays(v: Visitor, t: Tree, c: Context, rest: seq<Event>, events: seq<Event>)
    requires NoRefs(t)
    ensures Played(v, Calls(t, c) + rest, events, 0) == Onward(v, Traverse(v, t, c, events), rest, 0)
    decreases t, 1
  {
    hide Notify, Played, Onward;
    match t
    case Arr(elems) => ArrayPlays(v, elems, c, rest, events);
    case Obj(kvs) => ObjectPlays(v, kvs, c, rest, events);
    case Null => NotifyPlays(v, Event(VisitNull, c), rest, events);
    case Bool(b) => NotifyPlays(v, Event(VisitBool(b), c), rest, events);
    case Int(n) => NotifyPlays(v, Event(VisitNumber(FromInteger(n)), c), rest, events);
    case Double(bits) => NotifyPlays(v, Event(VisitNumber(bits), c), rest, events);
    case Str(s) => NotifyPlays(v, Event(VisitString(s), c), rest, events);
  }

  lemma {:induction false} ArrayPlays(v: Visitor, elems: seq<Tree>, c: Context, rest: seq<Event>, events: seq<Event>)
    requires forall i :: 0 <= i < |elems| ==> NoRefs(elems[i])
    ensures Played(v, Calls(Arr(elems), c) + rest, events, 0)
         == Onward(v, Traverse(v, Arr(elems), c, events), rest, 0)
    decreases elems, 1
  {
    hide Notify, TraverseElements;
    var more := [Event(ArrayEnd, c)] + rest;
    var all := ElementCalls(elems) + more;
    assert Calls(Arr(elems), c) + rest == [Event(ArrayStart, c)] + all;
    NotifyPlays(v, Event(ArrayStart, c), all, events);
    var (w, skip) := Notify(v, events, ArrayStart, c);
    if w.verdict == Going && skip {
      ElementsSkipped(v, elems, more, w.events, 1);
      assert more[1..] == rest;
    } else if w.verdict == Going {
      ElementsPlay(v, elems, c, rest, w.events);
    }
  }

  lemma {:induction false} ObjectPlays(v: Visitor, kvs: seq<Member>, c: Context, rest: seq<Event>, events: seq<Event>)
    requires forall i :: 0 <= i < |kvs| ==> NoRefs(kvs[i].value)
    ensures Played(v, Calls(Obj(kvs), c) + rest, events, 0) == Onward(v, Traverse(v, Obj(kvs), c, events), rest, 0)
    decreases kvs, 1
  {
    hide Notify, TraverseMembers;
    var more := [Event(ObjectEnd, c)] + rest;
    var all := MemberCalls(kvs) + more;
    assert Calls(Obj(kvs), c) + rest == [Event(ObjectStart, c)] + all;
    NotifyPlays(v, Event(ObjectStart, c), all, events);
    var (w, skip) := Notify(v, events, ObjectStart, c);
    if w.verdict == Going && skip {
      MembersSkipped(v, kvs, more, w.events, 1);
      assert more[1..] == rest;
    } else if w.verdict == Going {
      MembersPlay(v, kvs, c, rest, w.events);
    }
  }

  lemma {:induction false} ElementsPlay(v: Visitor, elems: seq<Tree>, c: Context, rest: seq<Event>, events: seq<Event>)
    requires forall i :: 0 <= i < |elems| ==> NoRefs(elems[i])
    ensures Played(v, ElementCalls(elems) + ([Event(ArrayEnd, c)] + rest), events, 0)
         == Onward(v, TraverseElements(v, elems, c, events), rest, 0)
    decreases elems, 0
  {
    hide Notify, Played, Traverse, Calls;
    var end := [Event(ArrayEnd, c)] + rest;
    if elems == [] {
      assert [] + end == end;
      NotifyPlays(v, Event(ArrayEnd, c), rest, events);
    } else {
      var d := ElementContext(|elems| == 1);
      assert ElementCalls(elems) + end == Calls(elems[0], d) + (ElementCalls(elems[1..]) + end);
      TraversePlays(v, elems[0], d, ElementCalls(elems[1..]) + end, events);
      var w := Traverse(v, elems[0], d, events);
      if w.verdict == Going {
        ElementsPlay(v, elems[1..], c, rest, w.events);
      }
    }
  }

  lemma {:induction false} MembersPlay(v: Visitor, kvs: seq<Member>, c: Context, rest: seq<Event>, events: seq<Event>)
    requires forall i :: 0 <= i < |kvs| ==> NoRefs(kvs[i].value)
    ensures Played(v, MemberCalls(kvs) + ([Event(ObjectEnd, c)] + rest), events, 0)
         == Onward(v, TraverseMembers(v, kvs, c, events), rest, 0)
    decreases kvs, 0
  {
    hide Notify, Played, Traverse, Calls;
    var end := [Event(ObjectEnd, c)] + rest;
    if kvs == [] {
      assert [] + end == end;
      NotifyPlays(v, Event(ObjectEnd, c), rest, events);
    } else {
      var d := MemberContext(kvs[0].key, |kvs| == 1);
      assert MemberCalls(kvs) + end == Calls(kvs[0].value, d) + (MemberCalls(kvs[1..]) + end);
      TraversePlays(v, kvs[0].value, d, MemberCalls(kvs[1..]) + end, events);
      var w := Traverse(v, kvs[0].value, d, events);
      if w.verdict == Going {
        MembersPlay(v, kvs[1..], c, rest, w.events);
      }
    }
  }

  lemma WholePlay(v: Visitor, t: Tree)
    requires NoRefs(t)
    ensures Traverse(v, t, FIRST, []) == Played(v, Calls(t, Context([], false, false, false)), [], 0)
  {
    hide Traverse, Calls;
    TraversePlays(v, t, FIRST, [], []);
    assert Calls(t, FIRST) + [] == Calls(t, FIRST);
  }

  // ----- What the calls tell -----

  /** A visitor with all its functions, none of which skips or aborts. */
  ghost predicate Patient(v: Visitor) {
    && (forall s: Slot :: s in v.vtable)
    && forall events :: v.answer(events) == Continue
  }

  /** Such a visitor sees every value once, in order, between the start and the end of its composite. */
  lemma {:induction false} PatientSeesAll(v: Visitor, t: Tree, context: Context, events: seq<Event>)
    requires Patient(v) && NoRefs(t)
    ensures Traverse(v, t, context, events) == Walk(events + Calls(t, context), Going)
    decreases t, 1
  {
    match t
    case Arr(elems) =>
      var start := events + [Event(ArrayStart, context)];
      PatientSeesElements(v, elems, context, start);
      assert start + ElementCalls(elems) + [Event(ArrayEnd, context)] == events + Calls(t, context);
    case Obj(kvs) =>
      var start := events + [Event(ObjectStart, context)];
      PatientSeesMembers(v, kvs, context, start);
      assert start + MemberCalls(kvs) + [Event(ObjectEnd, context)] == events + Calls(t, context);
    case _ =>
  }

  lemma {:induction false} PatientSeesElements(v: Visitor, elems: seq<Tree>, context: Context, events: seq<Event>)
    requires Patient(v) && forall i :: 0 <= i < |elems| ==> NoRefs(elems[i])
    ensures TraverseElements(v, elems, context, events)
         == Walk(events + ElementCalls(elems) + [Event(ArrayEnd, context)], Going)
    decreases elems, 0
  {
    if elems == [] {
      assert events + [] == events;
    } else {
      var first := Calls(elems[0], ElementContext(|elems| == 1));
      PatientSeesAll(v, elems[0], ElementContext(|elems| == 1), events);
      PatientSeesElements(v, elems[1..], context, events + first);
      assert events + first + ElementCalls(elems[1..]) == events + (first + ElementCalls(elems[1..]));
    }
  }

  lemma {:induction false} PatientSeesMembers(v: Visitor, kvs: seq<Member>, context: Context, events: seq<Event>)
    requires Patient(v) && forall i :: 0 <= i < |kvs| ==> NoRefs(kvs[i].value)
    ensures TraverseMembers(v, kvs, context, events)
         == Walk(events + MemberCalls(kvs) + [Event(ObjectEnd, context)], Going)
    decreases kvs, 0
  {
    if kvs == [] {
      assert events + [] == events;
    } else {
      var first := Calls(kvs[0].value, MemberContext(kvs[0].key, |kvs| == 1));
      PatientSeesAll(v, kvs[0].value, MemberContext(kvs[0].key, |kvs| == 1), events);
      PatientSeesMembers(v, kvs[1..], context, events + first);
      assert events + first + MemberCalls(kvs[1..]) == events + (first + MemberCalls(kvs[1..]));
    }
  }

  /** A value with its integers converted. */
  function Converted(t: Tree): Tree
    decreases t, 1
  {
    match t
    case Int(n) => Double(FromInteger(n))
    case Arr(elems) => Arr(ConvertedAll(elems))
    case Obj(kvs) => Obj(ConvertedMembers(kvs))
    case _ => t
  }

  function ConvertedAll(elems: seq<Tree>): seq<Tree>
    decreases elems, 0
  {
    if elems == [] then [] else [Converted(elems[0])] + ConvertedAll(elems[1..])
  }

  function ConvertedMembers(kvs: seq<Member>): seq<Member>
    decreases kvs, 0
  {
    if kvs == [] then [] else [Member(kvs[0].key, Converted(kvs[0].value))] + ConvertedMembers(kvs[1..])
  }

  /** The calls tell the value but for the conversion of its integers: no two others give the same calls, whatever comes
      after them. */
  lemma {:induction false} CallsTellValue(t: Tree, c: Context, r: seq<Event>, t': Tree, c': Context, r': seq<Event>)
    requires NoRefs(t) && NoRefs(t') && Calls(t, c) + r == Calls(t', c') + r'
    ensures Converted(t) == Converted(t') && c == c' && r == r'
    decreases t, 1
  {
    var all := Calls(t, c) + r;
    FirstCall(t, c);
    FirstCall(t', c');
    assert all[0] == Calls(t, c)[0] == Calls(t', c')[0];
    match t
    case Arr(elems) =>
      ArrayCalls(elems, c, r);
      ArrayCalls(t'.elems, c, r');
      CallsTellElements(elems, c, r, t'.elems, r');
    case Obj(kvs) =>
      ObjectCalls(kvs, c, r);
      ObjectCalls(t'.kvs, c, r');
      CallsTellMembers(kvs, c, r, t'.kvs, r');
    case _ =>
      assert r == all[1..] == r';
  }

  lemma ArrayCalls(elems: seq<Tree>, c: Context, r: seq<Event>)
    ensures (Calls(Arr(elems), c) + r)[1..] == ElementCalls(elems) + ([Event(ArrayEnd, c)] + r)
  {
    hide ElementCalls;
  }

  lemma ObjectCalls(kvs: seq<Member>, c: Context, r: seq<Event>)
    ensures (Calls(Obj(kvs), c) + r)[1..] == MemberCalls(kvs) + ([Event(ObjectEnd, c)] + r)
  {
    hide MemberCalls;
  }

  lemma FirstCall(t: Tree, c: Context)
    requires NoRefs(t)
    ensures Calls(t, c)[0].context == c && Calls(t, c)[0].call ==
      match t
      case Null => VisitNull
      case Bool(b) => VisitBool(b)
      case Int(n) => VisitNumber(FromInteger(n))
      case Double(bits) => VisitNumber(bits)
      case Str(s) => VisitString(s)
      case Arr(_) => ArrayStart
      case Obj(_) => ObjectStart
      case Ref(_, _, _) => VisitNull
  {
  }

  lemma {:induction false} CallsTellElements(es: seq<Tree>, c: Context, r: seq<Event>, es': seq<Tree>, r': seq<Event>)
    requires forall i :: 0 <= i < |es| ==> NoRefs(es[i])
    requires forall i :: 0 <= i < |es'| ==> NoRefs(es'[i])
    requires ElementCalls(es) + ([Event(ArrayEnd, c)] + r) == ElementCalls(es') + ([Event(ArrayEnd, c)] + r')
    ensures ConvertedAll(es) == ConvertedAll(es') && r == r'
    decreases es, 0
  {
    var rest, rest' := [Event(ArrayEnd, c)] + r, [Event(ArrayEnd, c)] + r';
    var all := ElementCalls(es) + rest;
    if es != [] {
      FirstCall(es[0], ElementContext(|es| == 1));
    }
    if es' != [] {
      FirstCall(es'[0], ElementContext(|es'| == 1));
    }
    if es == [] || es' == [] {
      assert all[0].call == ArrayEnd;
      assert r == all[1..] == r';
    } else {
      var more, more' := ElementCalls(es[1..]) + rest, ElementCalls(es'[1..]) + rest';
      assert all == Calls(es[0], ElementContext(|es| == 1)) + more;
      assert all == Calls(es'[0], ElementContext(|es'| == 1)) + more';
      CallsTellValue(es[0], ElementContext(|es| == 1), more, es'[0], ElementContext(|es'| == 1), more');
      CallsTellElements(es[1..], c, r, es'[1..], r');
    }
  }

  lemma {:induction false} CallsTellMembers(ms: seq<Member>, c: Context, r: seq<Event>, ms': seq<Member>,
                                            r': seq<Event>)
    requires forall i :: 0 <= i < |ms| ==> NoRefs(ms[i].value)
    requires forall i :: 0 <= i < |ms'| ==> NoRefs(ms'[i].value)
    requires MemberCalls(ms) + ([Event(ObjectEnd, c)] + r) == MemberCalls(ms') + ([Event(ObjectEnd, c)] + r')
    ensures ConvertedMembers(ms) == ConvertedMembers(ms') && r == r'
    decreases ms, 0
  {
    var rest, rest' := [Event(ObjectEnd, c)] + r, [Event(ObjectEnd, c)] + r';
    var all := MemberCalls(ms) + rest;
    if ms != [] {
      FirstCall(ms[0].value, MemberContext(ms[0].key, |ms| == 1));
    }
    if ms' != [] {
      FirstCall(ms'[0].value, MemberContext(ms'[0].key, |ms'| == 1));
    }
    if ms == [] || ms' == [] {
      assert all[0].call == ObjectEnd;
      assert r == all[1..] == r';
    } else {
      var d, d' := MemberContext(ms[0].key, |ms| == 1), MemberContext(ms'[0].key, |ms'| == 1);
      var more, more' := MemberCalls(ms[1..]) + rest, MemberCalls(ms'[1..]) + rest';
      assert all == Calls(ms[0].value, d) + more;
      assert all == Calls(ms'[0].value, d') + more';
      CallsTellValue(ms[0].value, d, more, ms'[0].value, d', more');
      CallsTellMembers(ms[1..], c, r, ms'[1..], r');
    }
  }

  /** Nothing is told of the integers but their conversion. */
  lemma {:induction false} CallsOfConverted(t: Tree, c: Context)
    ensures Calls(t, c) == Calls(Converted(t), c)
    decreases t, 1
  {
    match t
    case Arr(elems) => ElementCallsOfConverted(elems);
    case Obj(kvs) => MemberCallsOfConverted(kvs);
    case _ =>
  }

  lemma {:induction false} ElementCallsOfConverted(elems: seq<Tree>)
    ensures |ConvertedAll(elems)| == |elems| && ElementCalls(elems) == ElementCalls(ConvertedAll(elems))
    decreases elems, 0
  {
    if elems != [] {
      CallsOfConverted(elems[0], ElementContext(|elems| == 1));
      ElementCallsOfConverted(elems[1..]);
      assert ConvertedAll(elems)[1..] == ConvertedAll(elems[1..]);
    }
  }

  lemma {:induction false} MemberCallsOfConverted(kvs: seq<Member>)
    ensures |ConvertedMembers(kvs)| == |kvs| && MemberCalls(kvs) == MemberCalls(ConvertedMembers(kvs))
    decreases kvs, 0
  {
    if kvs != [] {
      CallsOfConverted(kvs[0].value, MemberContext(kvs[0].key, |kvs| == 1));
      MemberCallsOfConverted(kvs[1..]);
      assert ConvertedMembers(kvs)[1..] == ConvertedMembers(kvs[1..]);
    }
  }

  /** All numbers are integers that are converted exactly. */
  predicate Exact(t: Tree) {
    match t
    case Int(n) => Finite(FromInteger(n)) && Fits53(if n < 0 then -n else n)
    case Double(_) => false
    case Arr(elems) => forall i :: 0 <= i < |elems| ==> Exact(elems[i])
    case Obj(kvs) => forall i :: 0 <= i < |kvs| ==> Exact(kvs[i].value)
    case _ => true
  }

  /** Of such values the conversion loses nothing. */
  lemma {:induction false} ExactTold(t: Tree, t': Tree)
    requires Exact(t) && Exact(t') && Converted(t) == Converted(t')
    ensures t == t'
    decreases t, 1
  {
    match t
    case Int(n) =>
      FromIntegerExact(n);
      FromIntegerExact(t'.n);
    case Arr(elems) => ExactElements(elems, t'.elems);
    case Obj(kvs) => ExactMembers(kvs, t'.kvs);
    case _ =>
  }

  lemma {:induction false} ExactElements(es: seq<Tree>, es': seq<Tree>)
    requires forall i :: 0 <= i < |es| ==> Exact(es[i])
    requires forall i :: 0 <= i < |es'| ==> Exact(es'[i])
    requires ConvertedAll(es) == ConvertedAll(es')
    ensures es == es'
    decreases es, 0
  {
    if es != [] {
      assert ConvertedAll(es)[0] == ConvertedAll(es')[0];
      ExactTold(es[0], es'[0]);
      assert ConvertedAll(es)[1..] == ConvertedAll(es')[1..];
      ExactElements(es[1..], es'[1..]);
      assert es == [es[0]] + es[1..] && es' == [es'[0]] + es'[1..];
    }
  }

  lemma {:induction false} ExactMembers(ms: seq<Member>, ms': seq<Member>)
    requires forall i :: 0 <= i < |ms| ==> Exact(ms[i].value)
    requires forall i :: 0 <= i < |ms'| ==> Exact(ms'[i].value)
    requires ConvertedMembers(ms) == ConvertedMembers(ms')
    ensures ms == ms'
    decreases ms, 0
  {
    if ms != [] {
      assert ConvertedMembers(ms)[0] == ConvertedMembers(ms')[0];
      ExactTold(ms[0].value, ms'[0].value);
      assert ConvertedMembers(ms)[1..] == ConvertedMembers(ms')[1..];
      ExactMembers(ms[1..], ms'[1..]);
      assert ms == [ms[0]] + ms[1..] && ms' == [ms'[0]] + ms'[1..];
    }
  }

  // ----- Aborting -----

  /** The same visitor, going on where it would abort. */
  function Persevering(v: Visitor): Visitor {
    Visitor(v.vtable, events => if v.answer(events).AbortSuccess?
      || v.answer(events).AbortError? then Continue else v.answer(events))
  }

  predicate Aborts(v: Visitor, events: seq<Event>) {
    v.answer(events) == AbortSuccess || v.answer(events) == AbortError
  }

  /** `w` is `full` cut off right behind the first call, after `from`, that the visitor answers by aborting. */
  ghost predicate CutAtAbort(v: Visitor, from: nat, w: Walk, full: Walk) {
    && full.verdict == Going && from <= |w.events|
    && (forall i :: from < i < |w.events| ==> !Aborts(v, w.events[..i]))
    && if w.verdict == Going then w == full && (|w.events| > from ==> !Aborts(v, w.events))
       else
         && from < |w.events| && w.events <= full.events
         && v.answer(w.events) == if w.verdict.success then AbortSuccess else AbortError
  }

  lemma NotifyCut(v: Visitor, events: seq<Event>, call: Call, context: Context)
    ensures var (w, skip) := Notify(v, events, call, context);
            var (full, skip') := Notify(Persevering(v), events, call, context);
            CutAtAbort(v, |events|, w, full) && (w.verdict == Going ==> skip == skip')
  {
    var all := events + [Event(call, context)];
    assert all[..|all|] == all;
  }

  lemma CutThen(v: Visitor, from: nat, w: Walk, full: Walk, w': Walk, full': Walk)
    requires CutAtAbort(v, from, w, full) && w.verdict == Going
    requires CutAtAbort(v, |w.events|, w', full') && w.events <= w'.events
    ensures CutAtAbort(v, from, w', full')
  {
    forall i | from < i < |w'.events| ensures !Aborts(v, w'.events[..i]) {
      if i < |w.events| {
        assert w'.events[..i] == w.events[..i];
      } else if i == |w.events| {
        assert w'.events[..i] == w.events;
      }
    }
    if |w'.events| == |w.events| {
      assert w'.events == w.events;
    }
  }

  lemma {:induction false} NeverAborts(v: Visitor, t: Tree, context: Context, events: seq<Event>)
    requires NoRefs(t)
    ensures Traverse(Persevering(v), t, context, events).verdict == Going
    decreases t, 1
  {
    hide Notify;
    forall call: Call, es: seq<Event> ensures Notify(Persevering(v), es, call, context).0.verdict == Going {
      NotifyCut(v, es, call, context);
    }
    match t
    case Arr(elems) =>
      NeverAbortsElements(v, elems, context, Notify(Persevering(v), events, ArrayStart, context).0.events);
    case Obj(kvs) => NeverAbortsMembers(v, kvs, context, Notify(Persevering(v), events, ObjectStart, context).0.events);
    case _ =>
  }

  lemma {:induction false} NeverAbortsElements(v: Visitor, elems: seq<Tree>, context: Context, events: seq<Event>)
    requires forall i :: 0 <= i < |elems| ==> NoRefs(elems[i])
    ensures TraverseElements(Persevering(v), elems, context, events).verdict == Going
    decreases elems, 0
  {
    hide Notify, Traverse;
    NotifyCut(v, events, ArrayEnd, context);
    if elems != [] {
      var w := Traverse(Persevering(v), elems[0], ElementContext(|elems| == 1), events);
      NeverAborts(v, elems[0], ElementContext(|elems| == 1), events);
      NeverAbortsElements(v, elems[1..], context, w.events);
    }
  }

  lemma {:induction false} NeverAbortsMembers(v: Visitor, kvs: seq<Member>, context: Context, events: seq<Event>)
    requires forall i :: 0 <= i < |kvs| ==> NoRefs(kvs[i].value)
    ensures TraverseMembers(Persevering(v), kvs, context, events).verdict == Going
    decreases kvs, 0
  {
    hide Notify, Traverse;
    NotifyCut(v, events, ObjectEnd, context);
    if kvs != [] {
      var w := Traverse(Persevering(v), kvs[0].value, MemberContext(kvs[0].key, |kvs| == 1), events);
      NeverAborts(v, kvs[0].value, MemberContext(kvs[0].key, |kvs| == 1), events);
      NeverAbortsMembers(v, kvs[1..], context, w.events);
    }
  }

  /** An abort gives exactly the calls up to it: the first one that is answered by aborting ends the visit. */
  lemma {:induction false} AbortIsPrefix(v: Visitor, t: Tree, context: Context, events: seq<Event>)
    requires NoRefs(t)
    ensures CutAtAbort(v, |events|, Traverse(v, t, context, events), Traverse(Persevering(v), t, context, events))
    decreases t, 1
  {
    hide Notify, CutAtAbort, Persevering;
    match t
    case Null => NotifyCut(v, events, VisitNull, context);
    case Bool(b) => NotifyCut(v, events, VisitBool(b), context);
    case Int(_) => NotifyCut(v, events, VisitNumber(AsDouble(t)), context);
    case Double(_) => NotifyCut(v, events, VisitNumber(AsDouble(t)), context);
    case Str(s) => NotifyCut(v, events, VisitString(s), context);
    case Arr(elems) => AbortInArray(v, elems, context, events);
    case Obj(kvs) => AbortInObject(v, kvs, context, events);
  }

  lemma {:induction false} AbortInArray(v: Visitor, elems: seq<Tree>, context: Context, events: seq<Event>)
    requires NoRefs(Arr(elems))
    ensures CutAtAbort(v, |events|, Traverse(v, Arr(elems), context, events),
                       Traverse(Persevering(v), Arr(elems), context, events))
    decreases elems, 1
  {
    hide Notify, Persevering, TraverseElements;
    var (w, skip) := Notify(v, events, ArrayStart, context);
    var full := Notify(Persevering(v), events, ArrayStart, context).0;
    NotifyCut(v, events, ArrayStart, context);
    if w.verdict != Going {
      NeverAborts(v, Arr(elems), context, events);
    } else if !skip {
      AbortInElements(v, elems, context, w.events);
      CutThen(v, |events|, w, full, TraverseElements(v, elems, context, w.events),
              TraverseElements(Persevering(v), elems, context, w.events));
    }
  }

  lemma {:induction false} AbortInObject(v: Visitor, kvs: seq<Member>, context: Context, events: seq<Event>)
    requires NoRefs(Obj(kvs))
    ensures CutAtAbort(v, |events|, Traverse(v, Obj(kvs), context, events),
                       Traverse(Persevering(v), Obj(kvs), context, events))
    decreases kvs, 1
  {
    hide Notify, Persevering, TraverseMembers;
    var (w, skip) := Notify(v, events, ObjectStart, context);
    var full := Notify(Persevering(v), events, ObjectStart, context).0;
    NotifyCut(v, events, ObjectStart, context);
    if w.verdict != Going {
      NeverAborts(v, Obj(kvs), context, events);
    } else if !skip {
      AbortInMembers(v, kvs, context, w.events);
      CutThen(v, |events|, w, full, TraverseMembers(v, kvs, context, w.events),
              TraverseMembers(Persevering(v), kvs, context, w.events));
    }
  }

  lemma {:induction false} AbortInElements(v: Visitor, elems: seq<Tree>, context: Context, events: seq<Event>)
    requires forall i :: 0 <= i < |elems| ==> NoRefs(elems[i])
    ensures CutAtAbort(v, |events|, TraverseElements(v, elems, context, events),
                       TraverseElements(Persevering(v), elems, context, events))
    decreases elems, 0
  {
    hide Notify, Traverse, Persevering;
    if elems == [] {
      NotifyCut(v, events, ArrayEnd, context);
    } else {
      var c := ElementContext(|elems| == 1);
      var w, full := Traverse(v, elems[0], c, events), Traverse(Persevering(v), elems[0], c, events);
      AbortIsPrefix(v, elems[0], c, events);
      if w.verdict == Going {
        AbortInElements(v, elems[1..], context, w.events);
        CutThen(v, |events|, w, full, TraverseElements(v, elems[1..], context, w.events),
                TraverseElements(Persevering(v), elems[1..], context, w.events));
      } else {
        NeverAbortsElements(v, elems[1..], context, full.events);
      }
    }
  }

  lemma {:induction false} AbortInMembers(v: Visitor, kvs: seq<Member>, context: Context, events: seq<Event>)
    requires forall i :: 0 <= i < |kvs| ==> NoRefs(kvs[i].value)
    ensures CutAtAbort(v, |events|, TraverseMembers(v, kvs, context, events),
                       TraverseMembers(Persevering(v), kvs, context, events))
    decreases kvs, 0
  {
    hide Notify, Traverse, Persevering;
    if kvs == [] {
      NotifyCut(v, events, ObjectEnd, context);
    } else {
      var c := MemberContext(kvs[0].key, |kvs| == 1);
      var w, full := Traverse(v, kvs[0].value, c, events), Traverse(Persevering(v), kvs[0].value, c, events);
      AbortIsPrefix(v, kvs[0].value, c, events);
      if w.verdict == Going {
        AbortInMembers(v, kvs[1..], context, w.events);
        CutThen(v, |events|, w, full, TraverseMembers(v, kvs[1..], context, w.events),
                TraverseMembers(Persevering(v), kvs[1..], context, w.events));
      } else {
        NeverAbortsMembers(v, kvs[1..], context, full.events);
      }
    }
  }
}
