/**
 * `SAXEventsBuilder`: a fluent writer of SAX events. A builder is an
 * immutable node that remembers the element it opened and the builder it
 * came from; each call emits its events to the handler, whose input is
 * modelled as the trace of events it has received so far.
 */
module SaxEventsBuilders {
  import opened Wrappers
  import opened SaxEvents

  const EmptyNs: string := ""
  const CdataType: string := "CDATA"

  /** The chain of open elements: the root builder of `wrap` has no element (all its names are `null`). */
  datatype Builder = Root | Child(previous: Builder, uri: string, localName: string, qName: string)

  /** `newDocument(handler)`: `startDocument`, then a root builder. */
  function NewDocument(trace: seq<Event>): (Builder, seq<Event>) {
    (Wrap(), trace + [StartDocument])
  }

  /** `wrap(handler)`: a root builder, and no event. */
  function Wrap(): Builder {
    Root
  }

  /** `attribute(uri, localName, qName, type, value)`: `String.valueOf(null)` is the text "null". */
  function AttributeOf(uri: string, localName: string, qName: string, attrType: string, value: Option<string>): (r: Attribute)
    ensures r.uri == uri && r.localName == localName && r.qName == qName && r.attrType == attrType
    ensures r.value == if value.Some? then value.value else "null"
  {
    Attribute(uri, localName, qName, attrType, if value.None? then "null" else value.value)
  }

  /** `attribute(name, value)`: no namespace, the name as qualified name, type CDATA. */
  function NamedAttribute(name: string, value: Option<string>): (r: Attribute)
    ensures r.uri == "" && r.localName == name && r.qName == name && r.attrType == "CDATA"
    ensures value.Some? ==> r.value == value.value
  {
    AttributeOf(EmptyNs, name, name, CdataType, value)
  }

  /** `start(uri, localName, qName, attributes...)`: one `startElement` with the attributes in order, and a child builder. */
  function Start(b: Builder, trace: seq<Event>, uri: string, localName: string, qName: string, attributes: seq<Attribute>): (Builder, seq<Event>) {
    (Child(b, uri, localName, qName), trace + [StartElement(uri, localName, qName, attributes)])
  }

  /**
   * `start(localName, attributes...)`: one `startElement` without namespace
   * and with the local name as qualified name, and a child builder whose
   * `end()` closes that element and gives `b` back.
   */
  function StartLocal(b: Builder, trace: seq<Event>, localName: string, attributes: seq<Attribute>): (r: (Builder, seq<Event>))
    ensures r.1 == trace + [StartElement("", localName, localName, attributes)]
    ensures r.0.Child? && r.0.previous == b
    ensures End(r.0, r.1) == (Some(b), r.1 + [EndElement("", localName, localName)])
  {
    Start(b, trace, EmptyNs, localName, localName, attributes)
  }

  /** `body(value)`: nothing for `null`, else one `characters` event with `String.valueOf(value)`. */
  function Body(b: Builder, trace: seq<Event>, value: Option<string>): (Builder, seq<Event>) {
    if value.None? then (b, trace) else (b, trace + [Characters(value.value)])
  }

  /**
   * `end()`: `endElement` with the names of this builder's element, and the
   * builder it came from. The root builder's names are `null`, written here
   * as empty strings, and its predecessor is `null`.
   */
  function End(b: Builder, trace: seq<Event>): (Option<Builder>, seq<Event>) {
    match b
    case Root => (None, trace + [EndElement("", "", "")])
    case Child(previous, uri, localName, qName) => (Some(previous), trace + [EndElement(uri, localName, qName)])
  }

  /** `endDocument()`. */
  function EndDocument(trace: seq<Event>): seq<Event> {
    trace + [SaxEvents.EndDocument]
  }

  // ---------------------------------------------------------------------
  // Element trees, and the chains of calls that write them

  datatype Node =
    | Element(uri: string, localName: string, qName: string, attributes: seq<Attribute>, children: seq<Node>)
    | Text(value: Option<string>)

  /** The events of a tree in document order: the reference the builder chains are held to. */
  function Events(n: Node): seq<Event>
    decreases n
  {
    match n
    case Text(value) => if value.None? then [] else [Characters(value.value)]
    case Element(uri, localName, qName, attributes, children) =>
      [StartElement(uri, localName, qName, attributes)] + EventsAll(children) + [EndElement(uri, localName, qName)]
  }

  function EventsAll(ns: seq<Node>): seq<Event>
    decreases ns
  {
    if ns == [] then [] else Events(ns[0]) + EventsAll(ns[1..])
  }

  /** The chain `start(...)… end()` for an element, `body(v)` for a text. */
  function Emit(b: Builder, trace: seq<Event>, n: Node): (Option<Builder>, seq<Event>)
    decreases n
  {
    match n
    case Text(value) =>
      var r := Body(b, trace, value);
      (Some(r.0), r.1)
    case Element(uri, localName, qName, attributes, children) =>
      var started := Start(b, trace, uri, localName, qName, attributes);
      var inner := EmitAll(started.0, started.1, children);
      if inner.0.None? then inner else End(inner.0.value, inner.1)
  }

  function EmitAll(b: Builder, trace: seq<Event>, ns: seq<Node>): (Option<Builder>, seq<Event>)
    decreases ns
  {
    if ns == [] then (Some(b), trace)
    else
      var first := Emit(b, trace, ns[0]);
      if first.0.None? then first else EmitAll(first.0.value, first.1, ns[1..])
  }

  /** `end()` after `start(...)` closes exactly that element and returns the builder `start` was called on. */
  lemma StartThenEnd(b: Builder, trace: seq<Event>, uri: string, localName: string, qName: string, attributes: seq<Attribute>)
    ensures var started := Start(b, trace, uri, localName, qName, attributes);
      End(started.0, started.1) == (Some(b), trace + [StartElement(uri, localName, qName, attributes), EndElement(uri, localName, qName)])
  {
    assert trace + [StartElement(uri, localName, qName, attributes)] + [EndElement(uri, localName, qName)]
      == trace + [StartElement(uri, localName, qName, attributes), EndElement(uri, localName, qName)];
  }

  /** A properly nested chain emits the tree's events and ends on the builder it started from. */
  lemma {:induction false} EmitWrites(b: Builder, trace: seq<Event>, n: Node)
    ensures Emit(b, trace, n) == (Some(b), trace + Events(n))
    decreases n
  {
    match n
    case Text(value) =>
      assert trace + [] == trace;
    case Element(uri, localName, qName, attributes, children) =>
      var started := Start(b, trace, uri, localName, qName, attributes);
      EmitAllWrites(started.0, started.1, children);
      assert started.1 + EventsAll(children) + [EndElement(uri, localName, qName)] == trace + Events(n);
  }

  lemma {:induction false} EmitAllWrites(b: Builder, trace: seq<Event>, ns: seq<Node>)
    ensures EmitAll(b, trace, ns) == (Some(b), trace + EventsAll(ns))
    decreases ns
  {
    if ns == [] {
      assert trace + EventsAll(ns) == trace;
    } else {
      EmitWrites(b, trace, ns[0]);
      EmitAllWrites(b, trace + Events(ns[0]), ns[1..]);
      assert trace + Events(ns[0]) + EventsAll(ns[1..]) == trace + EventsAll(ns);
    }
  }

  // ---------------------------------------------------------------------
  // Balance

  type Name = (string, string, string)

  /** Reads events with a stack of open elements; `None` when an `endElement` does not close the innermost one. */
  function Nest(events: seq<Event>, open: seq<Name>): Option<seq<Name>>
    decreases |events|
  {
    if events == [] then Some(open)
    else
      match events[0]
      case StartElement(uri, localName, qName, _) => Nest(events[1..], open + [(uri, localName, qName)])
      case EndElement(uri, localName, qName) =>
        if open != [] && open[|open| - 1] == (uri, localName, qName) then Nest(events[1..], open[..|open| - 1]) else None
      case _ => Nest(events[1..], open)
  }

  /** Every element event is closed by a matching `endElement`, innermost first. */
  predicate Balanced(events: seq<Event>) {
    Nest(events, []) == Some([])
  }

  lemma NestStart(e: Event, rest: seq<Event>, open: seq<Name>)
    requires e.StartElement?
    ensures Nest([e] + rest, open) == Nest(rest, open + [(e.uri, e.localName, e.qName)])
  {
    assert ([e] + rest)[1..] == rest;
  }

  lemma NestEnd(e: Event, rest: seq<Event>, open: seq<Name>, name: Name)
    requires e.EndElement? && name == (e.uri, e.localName, e.qName)
    ensures Nest([e] + rest, open + [name]) == Nest(rest, open)
  {
    assert ([e] + rest)[1..] == rest;
    assert (open + [name])[..|open|] == open;
  }

  lemma NestOther(e: Event, rest: seq<Event>, open: seq<Name>)
    requires !e.StartElement? && !e.EndElement?
    ensures Nest([e] + rest, open) == Nest(rest, open)
  {
    assert ([e] + rest)[1..] == rest;
  }

  /** An element's events leave the stack as they found it once its children's do. */
  lemma NestElement(n: Node, rest: seq<Event>, open: seq<Name>)
    requires n.Element?
    requires var e := EndElement(n.uri, n.localName, n.qName);
      Nest(EventsAll(n.children) + ([e] + rest), open + [(n.uri, n.localName, n.qName)]) == Nest([e] + rest, open + [(n.uri, n.localName, n.qName)])
    ensures Nest(Events(n) + rest, open) == Nest(rest, open)
  {
    var s := StartElement(n.uri, n.localName, n.qName, n.attributes);
    var e := EndElement(n.uri, n.localName, n.qName);
    assert Events(n) + rest == [s] + (EventsAll(n.children) + ([e] + rest));
    NestStart(s, EventsAll(n.children) + ([e] + rest), open);
    NestEnd(e, rest, open, (n.uri, n.localName, n.qName));
  }

  lemma {:induction false} NestEvents(n: Node, rest: seq<Event>, open: seq<Name>)
    ensures Nest(Events(n) + rest, open) == Nest(rest, open)
    decreases n
  {
    match n
    case Text(value) =>
      if value.Some? {
        NestOther(Characters(value.value), rest, open);
      } else {
        assert Events(n) + rest == rest;
      }
    case Element(uri, localName, qName, attributes, children) =>
      NestEventsAll(children, [EndElement(uri, localName, qName)] + rest, open + [(uri, localName, qName)]);
      NestElement(n, rest, open);
  }

  lemma {:induction false} NestEventsAll(ns: seq<Node>, rest: seq<Event>, open: seq<Name>)
    ensures Nest(EventsAll(ns) + rest, open) == Nest(rest, open)
    decreases ns
  {
    if ns == [] {
      assert EventsAll(ns) + rest == rest;
    } else {
      assert EventsAll(ns) + rest == Events(ns[0]) + (EventsAll(ns[1..]) + rest);
      NestEvents(ns[0], EventsAll(ns[1..]) + rest, open);
      NestEventsAll(ns[1..], rest, open);
    }
  }

  /** The events of any tree are balanced. */
  lemma TreeBalanced(n: Node)
    ensures Balanced(Events(n))
  {
    NestEvents(n, [], []);
    assert Events(n) + [] == Events(n);
  }

  /**
   * A whole document written with `newDocument(...)`, a nested chain and
   * `endDocument()`: `startDocument` first, the tree's events, `endDocument`
   * last.
   */
  lemma DocumentWrites(n: Node)
    ensures var doc := NewDocument([]);
      var body := Emit(doc.0, doc.1, n);
      body.0 == Some(Root) && EndDocument(body.1) == [StartDocument] + Events(n) + [SaxEvents.EndDocument]
  {
    EmitWrites(Root, [StartDocument], n);
    assert [] + [StartDocument] == [StartDocument];
  }
}
