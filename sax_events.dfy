/**
 * SAX events as values. A handler's input is the sequence of events it
 * receives; characters passed as `(ch, start, length)` are the text of that
 * slice. `null` names and URIs are not distinguished from strings, except
 * for namespace prefixes, where the modelled code branches on `null`.
 */
module SaxEvents {
  import opened Wrappers

  datatype Attribute = Attribute(uri: string, localName: string, qName: string, attrType: string, value: string)

  datatype Event =
    | DocumentLocator
    | StartDocument
    | EndDocument
    | StartPrefixMapping(prefix: Option<string>, uri: string)
    | EndPrefixMapping(prefix: Option<string>)
    | StartElement(uri: string, localName: string, qName: string, attributes: seq<Attribute>)
    | EndElement(uri: string, localName: string, qName: string)
    | Characters(text: string)
    | IgnorableWhitespace(text: string)
    | ProcessingInstruction(target: string, data: string)
    | SkippedEntity(name: string)
    // LexicalHandler events
    | StartDTD(name: string, publicId: string, systemId: string)
    | EndDTD
    | StartEntity(name: string)
    | EndEntity(name: string)
    | StartCDATA
    | EndCDATA
    | Comment(text: string)

  /** The events of `org.xml.sax.ext.LexicalHandler`, which only a lexical handler receives. */
  predicate IsLexical(e: Event) {
    e.StartDTD? || e.EndDTD? || e.StartEntity? || e.EndEntity? || e.StartCDATA? || e.EndCDATA? || e.Comment?
  }

  /** The concatenated text of the `characters` events. */
  function CharactersText(events: seq<Event>): (r: string)
    ensures events == [] ==> r == []
  {
    if events == [] then []
    else CharactersText(events[..|events| - 1]) + (if events[|events| - 1].Characters? then events[|events| - 1].text else [])
  }

  lemma {:induction false} CharactersTextAppend(a: seq<Event>, b: seq<Event>)
    ensures CharactersText(a + b) == CharactersText(a) + CharactersText(b)
    decreases |b|
  {
    if b == [] {
      assert a + b == a;
    } else {
      var b' := b[..|b| - 1];
      assert (a + b)[..|a + b| - 1] == a + b';
      assert (a + b)[|a + b| - 1] == b[|b| - 1];
      CharactersTextAppend(a, b');
    }
  }
}
