/**
 * `TextSerializer`: an `XMLSerializer` that writes only text. Element
 * events, processing instructions, the DTD and the locator are dropped;
 * character data is always forwarded, and character data that arrives
 * before any element is wrapped in a synthesized `text` element, which
 * `endDocument` closes.
 *
 * The serializer part is the `XMLSerializer` object it extends; the events
 * that reach the serializing handler are modelled as a sequence.
 */
module TextSerializers {
  import opened Wrappers
  import opened SaxEvents
  import opened XmlSerializers

  const Txt: string := "text"
  const TextPlainUtf8: string := "text/plain; charset=UTF-8"

  /** The synthesized wrapper element. */
  const WrapperStart: Event := StartElement("", Txt, Txt, [])
  const WrapperEnd: Event := EndElement("", Txt, Txt)

  datatype Flags = Flags(hasRootElement: bool, hadNoRootElement: bool)

  /** One event received: what reaches the serializing handler, and the flags afterwards. */
  function Step(f: Flags, e: Event): (seq<Event>, Flags) {
    match e
    case DocumentLocator => ([], f)
    case ProcessingInstruction(_, _) => ([], f)
    case StartDTD(_, _, _) => ([], f)
    case EndDTD => ([], f)
    case StartElement(_, _, _, _) => ([], f.(hasRootElement := true))
    case EndElement(_, _, _) => ([], f)
    case EndDocument => ((if f.hadNoRootElement then [WrapperEnd] else []) + [EndDocument], f)
    case Characters(text) =>
      if !f.hasRootElement then ([WrapperStart, Characters(text)], Flags(true, true))
      else ([Characters(text)], f)
    case _ => ([e], f)
  }

  function Run(f: Flags, events: seq<Event>): (seq<Event>, Flags)
    decreases |events|
  {
    if events == [] then ([], f)
    else
      var first := Step(f, events[0]);
      var rest := Run(first.1, events[1..]);
      (first.0 + rest.0, rest.1)
  }

  /** `recycle()`: only `hasRootElement` is reset. */
  function Recycled(f: Flags): (r: Flags)
    ensures !r.hasRootElement && r.hadNoRootElement == f.hadNoRootElement
  {
    f.(hasRootElement := false)
  }

  // ---------------------------------------------------------------------
  // Properties

  lemma RunCons(f: Flags, e: Event, rest: seq<Event>)
    ensures Run(f, [e] + rest) == (Step(f, e).0 + Run(Step(f, e).1, rest).0, Run(Step(f, e).1, rest).1)
  {
    assert ([e] + rest)[1..] == rest;
  }

  lemma StepText(f: Flags, e: Event)
    ensures CharactersText(Step(f, e).0) == CharactersText([e])
  {
    var out := Step(f, e).0;
    assert [e][..0] == [];
    if e.Characters? && !f.hasRootElement {
      assert out[..1] == [WrapperStart];
      assert out[..1][..0] == [];
    } else if e.EndDocument? {
      CharactersTextAppend(if f.hadNoRootElement then [WrapperEnd] else [], [EndDocument]);
      if f.hadNoRootElement {
        assert [WrapperEnd][..0] == [];
      }
    } else if out != [] {
      assert out == [e];
    }
  }

  /** Every character of the input reaches the handler, in order, and no other character does. */
  lemma {:induction false} RunText(f: Flags, events: seq<Event>)
    ensures CharactersText(Run(f, events).0) == CharactersText(events)
    decreases |events|
  {
    if events != [] {
      var first := Step(f, events[0]);
      RunCons(f, events[0], events[1..]);
      assert events == [events[0]] + events[1..];
      StepText(f, events[0]);
      RunText(first.1, events[1..]);
      CharactersTextAppend(first.0, Run(first.1, events[1..]).0);
      CharactersTextAppend([events[0]], events[1..]);
    }
  }

  /** The only element events that reach the handler are those of the wrapper. */
  predicate NotElement(e: Event) {
    (e.StartElement? ==> e == WrapperStart) && (e.EndElement? ==> e == WrapperEnd)
  }

  lemma {:induction false} RunElements(f: Flags, events: seq<Event>)
    ensures forall k :: 0 <= k < |Run(f, events).0| ==> NotElement(Run(f, events).0[k])
    decreases |events|
  {
    if events != [] {
      var first := Step(f, events[0]);
      RunElements(first.1, events[1..]);
    }
  }

  /** No `endDocument` in `events`. */
  predicate InDocument(events: seq<Event>) {
    forall k :: 0 <= k < |events| ==> !events[k].EndDocument?
  }

  /** One event other than `endDocument`: the wrapper is opened exactly when text precedes every element, and never closed. */
  lemma StepInDocument(f: Flags, e: Event)
    requires !e.EndDocument?
    ensures var opens := e.Characters? && !f.hasRootElement;
      multiset(Step(f, e).0)[WrapperStart] == (if opens then 1 else 0) && multiset(Step(f, e).0)[WrapperEnd] == 0
      && Step(f, e).1 == (if opens then Flags(true, true) else if e.StartElement? then f.(hasRootElement := true) else f)
  {
  }

  /**
   * Within a document that started with no element, the wrapper is opened
   * at most once, exactly when `hadNoRootElement` becomes set, and is not
   * closed before `endDocument`.
   */
  lemma {:induction false} WrapperOpenedOnce(f: Flags, events: seq<Event>)
    requires InDocument(events) && !f.hadNoRootElement
    ensures var r := Run(f, events);
      multiset(r.0)[WrapperStart] == (if r.1.hadNoRootElement then 1 else 0) && multiset(r.0)[WrapperEnd] == 0
      && (r.1.hadNoRootElement ==> r.1.hasRootElement)
    decreases |events|
  {
    if events != [] {
      var first := Step(f, events[0]);
      RunCons(f, events[0], events[1..]);
      assert events == [events[0]] + events[1..];
      StepInDocument(f, events[0]);
      if first.1.hadNoRootElement {
        StaysOpen(first.1, events[1..]);
      } else {
        WrapperOpenedOnce(first.1, events[1..]);
      }
    }
  }

  /** Once the wrapper is open and the root flag set, the rest of the document adds no wrapper event and keeps the flags. */
  lemma {:induction false} StaysOpen(f: Flags, events: seq<Event>)
    requires InDocument(events) && f == Flags(true, true)
    ensures Run(f, events).1 == f
    ensures multiset(Run(f, events).0)[WrapperStart] == 0 && multiset(Run(f, events).0)[WrapperEnd] == 0
    decreases |events|
  {
    if events != [] {
      RunCons(f, events[0], events[1..]);
      assert events == [events[0]] + events[1..];
      StepInDocument(f, events[0]);
      StaysOpen(f, events[1..]);
    }
  }

  /** A whole document from a new serializer: every wrapper opened is closed at `endDocument`. */
  lemma WrapperBalanced(events: seq<Event>)
    requires InDocument(events)
    ensures var out := Run(Flags(false, false), events + [EndDocument]).0;
      multiset(out)[WrapperStart] == multiset(out)[WrapperEnd] <= 1
  {
    var f := Flags(false, false);
    WrapperOpenedOnce(f, events);
    RunAppendOne(f, events, EndDocument);
  }

  lemma {:induction false} RunAppendOne(f: Flags, events: seq<Event>, e: Event)
    ensures Run(f, events + [e]) == (Run(f, events).0 + Step(Run(f, events).1, e).0, Step(Run(f, events).1, e).1)
    decreases |events|
  {
    if events == [] {
      RunCons(f, e, []);
      assert [] + [e] == [e];
      assert [e] + [] == [e];
      assert Step(f, e).0 + [] == Step(f, e).0;
      assert [] + Step(f, e).0 == Step(f, e).0;
      assert Run(f, events) == ([], f);
    } else {
      var first := Step(f, events[0]);
      assert events + [e] == [events[0]] + (events[1..] + [e]);
      RunCons(f, events[0], events[1..] + [e]);
      RunAppendOne(first.1, events[1..], e);
      RunCons(f, events[0], events[1..]);
      assert events == [events[0]] + events[1..];
      var rest := Run(first.1, events[1..]);
      assert first.0 + (rest.0 + Step(rest.1, e).0) == (first.0 + rest.0) + Step(rest.1, e).0;
    }
  }

  /** Text before any element is wrapped: `characters("a")` then `endDocument` gives `<text>a</text>`. */
  lemma TextWrapped(text: string)
    ensures Run(Flags(false, false), [StartDocument, Characters(text), EndDocument]).0
      == [StartDocument, WrapperStart, Characters(text), WrapperEnd, EndDocument]
  {
    var events := [StartDocument, Characters(text), EndDocument];
    RunCons(Flags(false, false), StartDocument, events[1..]);
    assert [StartDocument] + events[1..] == events;
    RunCons(Flags(false, false), Characters(text), [EndDocument]);
    assert [Characters(text)] + [EndDocument] == events[1..];
    RunCons(Flags(true, true), EndDocument, []);
    assert [EndDocument] + [] == [EndDocument];
    assert Step(Flags(true, true), EndDocument).0 + [] == [WrapperEnd, EndDocument];
  }

  /**
   * `recycle` keeps `hadNoRootElement`, so the next document, even one with
   * a root element, gets a closing `text` element that was never opened.
   */
  lemma RecycleKeepsWrapperEnd(name: string)
    ensures var reused := Recycled(Flags(true, true));
      Run(reused, [StartElement("", name, name, []), EndDocument]).0 == [WrapperEnd, EndDocument]
  {
    var reused := Recycled(Flags(true, true));
    RunCons(reused, StartElement("", name, name, []), [EndDocument]);
    assert [StartElement("", name, name, [])] + [EndDocument] == [StartElement("", name, name, []), EndDocument];
    RunCons(Flags(true, true), EndDocument, []);
    assert [EndDocument] + [] == [EndDocument];
    assert [] + ([WrapperEnd, EndDocument] + []) == [WrapperEnd, EndDocument];
  }

  class TextSerializer {
    /** The `XMLSerializer` this serializer extends. */
    const serializer: XMLSerializer
    var hasRootElement: bool
    var hadNoRootElement: bool
    /** The events that reached the serializing handler. */
    var output: seq<Event>

    function State(): Flags
      reads this
    {
      Flags(hasRootElement, hadNoRootElement)
    }

    /** `new TextSerializer()`: an empty format but for `omit-xml-declaration=yes`. */
    constructor ()
      ensures fresh(serializer) && serializer.format == map[OmitXmlDeclaration := Yes] && serializer.contentType == None
      ensures State() == Flags(false, false) && output == []
    {
      var base := new XMLSerializer();
      var r := base.SetOmitXmlDeclaration(true);
      serializer := base;
      hasRootElement := false;
      hadNoRootElement := false;
      output := [];
    }

    /** `setDocumentLocator`, `processingInstruction`, `startDTD`, `endDTD`, `endElement`: dropped. */
    method Drop(e: Event)
      requires e.DocumentLocator? || e.ProcessingInstruction? || e.StartDTD? || e.EndDTD? || e.EndElement?
      ensures Step(State(), e) == ([], State())
    {
    }

    /** `startElement`: only marks that a root element was seen. */
    method StartElement(uri: string, localName: string, qName: string, attributes: seq<Attribute>)
      modifies this
      ensures hasRootElement && hadNoRootElement == old(hadNoRootElement) && output == old(output)
      ensures (output, State()) == (old(output) + Step(old(State()), Event.StartElement(uri, localName, qName, attributes)).0,
                                    Step(old(State()), Event.StartElement(uri, localName, qName, attributes)).1)
    {
      hasRootElement := true;
      assert output + [] == output;
    }

    /** `endDocument`: closes the wrapper when one was synthesized. */
    method EndDocument()
      modifies this
      ensures State() == old(State())
      ensures output == old(output) + (if hadNoRootElement then [WrapperEnd] else []) + [Event.EndDocument]
      ensures output == old(output) + Step(old(State()), Event.EndDocument).0
    {
      if hadNoRootElement {
        output := output + [WrapperEnd];
      }
      output := output + [Event.EndDocument];
    }

    /** `characters`: text before any element first opens the wrapper; the text is always forwarded. */
    method Characters(text: string)
      modifies this
      ensures hasRootElement
      ensures (output, State()) == (old(output) + Step(old(State()), Event.Characters(text)).0, Step(old(State()), Event.Characters(text)).1)
    {
      ghost var before := output;
      if !hasRootElement {
        hasRootElement := true;
        hadNoRootElement := true;
        output := output + [WrapperStart];
        output := output + [Event.Characters(text)];
        assert output == before + [WrapperStart, Event.Characters(text)];
      } else {
        output := output + [Event.Characters(text)];
      }
    }

    /** Every other event is forwarded to the handler unchanged. */
    method Forward(e: Event)
      requires !(e.DocumentLocator? || e.ProcessingInstruction? || e.StartDTD? || e.EndDTD? || e.EndElement?)
      requires !e.StartElement? && !e.EndDocument? && !e.Characters?
      modifies this
      ensures State() == old(State()) && output == old(output) + [e]
      ensures output == old(output) + Step(old(State()), e).0
    {
      output := output + [e];
    }

    /** `recycle()`. */
    method Recycle()
      modifies this
      ensures State() == Recycled(old(State())) && output == old(output)
    {
      hasRootElement := false;
    }

    method Handle(e: Event)
      modifies this
      ensures (output, State()) == (old(output) + Step(old(State()), e).0, Step(old(State()), e).1)
    {
      if e.DocumentLocator? || e.ProcessingInstruction? || e.StartDTD? || e.EndDTD? || e.EndElement? {
        Drop(e);
        assert output + [] == output;
      } else if e.StartElement? {
        StartElement(e.uri, e.localName, e.qName, e.attributes);
      } else if e.EndDocument? {
        EndDocument();
      } else if e.Characters? {
        Characters(e.text);
      } else {
        Forward(e);
      }
    }
  }

  /** `createPlainSerializer()`: UTF-8 plain text with the output method `text`. */
  method CreatePlainSerializer() returns (s: TextSerializer)
    ensures fresh(s) && fresh(s.serializer) && s.State() == Flags(false, false) && s.output == []
    ensures s.serializer.contentType == Some(TextPlainUtf8)
    ensures s.serializer.format == map[OmitXmlDeclaration := Yes, Encoding := Utf8, Method := Txt]
  {
    s := new TextSerializer();
    s.serializer.SetContentType(TextPlainUtf8);
    var r := s.serializer.SetEncoding(Some(Utf8));
    r := s.serializer.SetMethod(Some(Txt));
  }
}
