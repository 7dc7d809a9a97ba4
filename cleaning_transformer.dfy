/**
 * `CleaningTransformer`: drops namespace prefix mappings and comments,
 * forwards elements without namespaces, and collects character data in a
 * growable buffer that is written out at the next element boundary only
 * when it holds a character that is not whitespace.
 *
 * What the transformer forwards is modelled as the sequence of events its
 * consumer has received.
 */
module CleaningTransformers {
  import opened Wrappers
  import opened JavaLang
  import opened SaxEvents
  import opened CacheKeys

  const InitialCapacity: nat := 8192
  const Growth: nat := 1000
  const NoBreakSpace: char := '\U{00A0}'

  /** A character that makes pending text worth forwarding: not whitespace, or a no-break space. */
  predicate Significant(c: char) {
    !IsWhitespace(c) || c == NoBreakSpace
  }

  predicate HasContent(text: string) {
    exists k :: 0 <= k < |text| && Significant(text[k])
  }

  /** `maybeWriteCharacters`: the pending text as one event when it has content, else nothing. */
  function Flush(pending: string): (r: seq<Event>)
    ensures |r| <= 1
    ensures r != [] <==> HasContent(pending)
    ensures r != [] ==> r[0] == Characters(pending)
  {
    if HasContent(pending) then [Characters(pending)] else []
  }

  /** One event received: what is forwarded, and the pending text afterwards. */
  function Step(pending: string, e: Event): (seq<Event>, string) {
    match e
    case StartPrefixMapping(_, _) => ([], pending)
    case EndPrefixMapping(_) => ([], pending)
    case Comment(_) => ([], pending)
    case StartElement(_, localName, _, attributes) => (Flush(pending) + [StartElement("", localName, localName, attributes)], "")
    case EndElement(_, localName, _) => (Flush(pending) + [EndElement("", localName, localName)], "")
    case Characters(text) => ([], pending + text)
    case _ => ([e], pending)
  }

  /** A stream of events received one after the other. */
  function Clean(pending: string, events: seq<Event>): (seq<Event>, string)
    decreases |events|
  {
    if events == [] then ([], pending)
    else
      var first := Step(pending, events[0]);
      var rest := Clean(first.1, events[1..]);
      (first.0 + rest.0, rest.1)
  }

  // ---------------------------------------------------------------------
  // Properties of the cleaned stream

  /** What the consumer of a cleaning transformer can receive. */
  predicate Cleaned(e: Event) {
    !e.StartPrefixMapping? && !e.EndPrefixMapping? && !e.Comment?
    && (e.StartElement? ==> e.uri == "" && e.qName == e.localName)
    && (e.EndElement? ==> e.uri == "" && e.qName == e.localName)
    && (e.Characters? ==> HasContent(e.text))
  }

  lemma StepCleaned(pending: string, e: Event)
    ensures forall k :: 0 <= k < |Step(pending, e).0| ==> Cleaned(Step(pending, e).0[k])
  {
  }

  /** No prefix mapping and no comment is forwarded, elements lose their namespace, and all forwarded text has content. */
  lemma {:induction false} CleanOutputCleaned(pending: string, events: seq<Event>)
    ensures forall k :: 0 <= k < |Clean(pending, events).0| ==> Cleaned(Clean(pending, events).0[k])
    decreases |events|
  {
    if events != [] {
      var first := Step(pending, events[0]);
      StepCleaned(pending, events[0]);
      CleanOutputCleaned(first.1, events[1..]);
    }
  }

  /** The element events of a stream, in order. */
  function Elements(events: seq<Event>): seq<Event>
    decreases |events|
  {
    if events == [] then []
    else (if events[0].StartElement? || events[0].EndElement? then [events[0]] else []) + Elements(events[1..])
  }

  lemma {:induction false} ElementsAppend(a: seq<Event>, b: seq<Event>)
    ensures Elements(a + b) == Elements(a) + Elements(b)
    decreases |a|
  {
    if a == [] {
      assert a + b == b;
    } else {
      assert (a + b)[1..] == a[1..] + b;
      ElementsAppend(a[1..], b);
    }
  }

  /** An element event with its namespace removed and its local name as qualified name; attributes kept as they are. */
  function Unqualified(e: Event): Event {
    match e
    case StartElement(_, localName, _, attributes) => StartElement("", localName, localName, attributes)
    case EndElement(_, localName, _) => EndElement("", localName, localName)
    case _ => e
  }

  function UnqualifiedAll(events: seq<Event>): (r: seq<Event>)
    ensures |r| == |events| && forall k :: 0 <= k < |events| ==> r[k] == Unqualified(events[k])
  {
    seq(|events|, k requires 0 <= k < |events| => Unqualified(events[k]))
  }

  lemma StepElements(pending: string, e: Event)
    ensures Elements(Step(pending, e).0) == UnqualifiedAll(Elements([e]))
  {
    assert [e][1..] == [];
    var f := Flush(pending);
    assert Elements(f) == [] by {
      if f != [] {
        assert f[1..] == [];
      }
    }
    if e.StartElement? || e.EndElement? {
      var u := Unqualified(e);
      ElementsAppend(f, [u]);
      assert [u][1..] == [];
    } else if !(e.StartPrefixMapping? || e.EndPrefixMapping? || e.Comment? || e.Characters?) {
      assert Step(pending, e).0 == [e];
    }
  }

  lemma UnqualifiedAppend(a: seq<Event>, b: seq<Event>)
    ensures UnqualifiedAll(a + b) == UnqualifiedAll(a) + UnqualifiedAll(b)
  {
  }

  /**
   * Every element event is forwarded, in order, with namespace `""`, its
   * local name as qualified name and the attributes it came with; no other
   * element event is forwarded.
   */
  lemma {:induction false} CleanElements(pending: string, events: seq<Event>)
    ensures Elements(Clean(pending, events).0) == UnqualifiedAll(Elements(events))
    decreases |events|
  {
    if events != [] {
      var e := events[0];
      var first := Step(pending, e);
      var rest := Clean(first.1, events[1..]);
      assert events == [e] + events[1..];
      CleanCons(pending, e, events[1..]);
      StepElements(pending, e);
      CleanElements(first.1, events[1..]);
      ElementsAppend(first.0, rest.0);
      ElementsAppend([e], events[1..]);
      UnqualifiedAppend(Elements([e]), Elements(events[1..]));
    }
  }

  lemma CleanCons(pending: string, e: Event, rest: seq<Event>)
    ensures var first := Step(pending, e);
      Clean(pending, [e] + rest) == (first.0 + Clean(first.1, rest).0, Clean(first.1, rest).1)
  {
    assert ([e] + rest)[1..] == rest;
  }

  lemma CleanTwo(pending: string, a: Event, b: Event)
    ensures var first := Step(pending, a);
      var second := Step(first.1, b);
      Clean(pending, [a, b]) == (first.0 + second.0, second.1)
  {
    var first := Step(pending, a);
    var second := Step(first.1, b);
    CleanCons(second.1, b, []);
    assert [b] + [] == [b];
    assert second.0 + [] == second.0;
    CleanCons(pending, a, [b]);
    assert [a] + [b] == [a, b];
  }

  /** Consecutive `characters` calls collect into one pending text. */
  lemma CharactersCollect(pending: string, a: string, b: string)
    ensures Clean(pending, [Characters(a), Characters(b)]) == ([], pending + a + b)
  {
    CleanTwo(pending, Characters(a), Characters(b));
    var none: seq<Event> := [];
    assert none + none == none;
  }

  /** At an element boundary the collected text goes out as one event before the element, exactly when it has content. */
  lemma BoundaryFlushes(pending: string, text: string, uri: string, localName: string, qName: string)
    ensures Clean(pending, [Characters(text), EndElement(uri, localName, qName)])
      == ((if HasContent(pending + text) then [Characters(pending + text)] else []) + [EndElement("", localName, localName)], "")
  {
    CleanTwo(pending, Characters(text), EndElement(uri, localName, qName));
    assert [] + (Flush(pending + text) + [EndElement("", localName, localName)]) == Flush(pending + text) + [EndElement("", localName, localName)];
  }

  /** Whitespace-only text before an element is dropped. */
  lemma WhitespaceDropped(text: string, localName: string, attributes: seq<Attribute>)
    requires forall k :: 0 <= k < |text| ==> IsWhitespace(text[k]) && text[k] != NoBreakSpace
    ensures Clean("", [Characters(text), StartElement("", localName, localName, attributes)])
      == ([StartElement("", localName, localName, attributes)], "")
  {
    CleanTwo("", Characters(text), StartElement("", localName, localName, attributes));
    assert "" + text == text;
    assert Flush(text) == [];
    var se := StartElement("", localName, localName, attributes);
    assert [] + ([] + [se]) == [se];
  }

  // ---------------------------------------------------------------------
  // The transformer

  class CleaningTransformer {
    var characters: array<char>
    var position: nat
    /** The events the consumer has received. */
    var output: seq<Event>

    ghost predicate Valid()
      reads this
    {
      position <= characters.Length
    }

    /** The text collected since the last element boundary. */
    function Pending(): string
      reads this, characters
      requires Valid()
    {
      characters[..position]
    }

    constructor ()
      ensures Valid() && Pending() == [] && output == []
      ensures characters.Length == InitialCapacity
    {
      characters := new char[InitialCapacity];
      position := 0;
      output := [];
    }

    /** `startPrefixMapping`: dropped. */
    method StartPrefixMapping(prefix: Option<string>, uri: string)
      requires Valid()
      ensures Step(Pending(), Event.StartPrefixMapping(prefix, uri)) == ([], Pending())
    {
    }

    /** `endPrefixMapping`: dropped. */
    method EndPrefixMapping(prefix: Option<string>)
      requires Valid()
      ensures Step(Pending(), Event.EndPrefixMapping(prefix)) == ([], Pending())
    {
    }

    /** `comment`: dropped. */
    method Comment(text: string)
      requires Valid()
      ensures Step(Pending(), Event.Comment(text)) == ([], Pending())
    {
    }

    /**
     * `characters(c, start, len)`: append `c[start..start+len]` to the
     * buffer, first replacing it by one `len + 1000` larger when the rest
     * does not fit. `System.arraycopy` throws on a range outside `c`, after
     * the buffer has grown.
     */
    method Characters(c: seq<char>, start: int, len: int) returns (r: Outcome)
      requires Valid()
      modifies this, characters
      ensures Valid() && output == old(output)
      ensures r == if 0 <= start && 0 <= len && start + len <= |c| then Pass else Fail(IndexOutOfBounds)
      ensures r.Pass? ==> Pending() == old(Pending()) + c[start..start + len]
      ensures r.Fail? ==> Pending() == old(Pending())
      ensures len > old(characters.Length) - old(position)
        ==> fresh(characters) && characters.Length == old(characters.Length) + len + Growth
      ensures len <= old(characters.Length) - old(position) ==> characters == old(characters)
    {
      var remaining := characters.Length - position;
      if len > remaining {
        var next := new char[characters.Length + len + Growth];
        forall k | 0 <= k < position {
          next[k] := characters[k];
        }
        characters := next;
      }
      if !(0 <= start && 0 <= len && start + len <= |c|) {
        return Fail(IndexOutOfBounds);
      }
      ghost var before := characters[..position];
      forall k | 0 <= k < len {
        characters[position + k] := c[start + k];
      }
      assert characters[..position] == before;
      assert characters[..position + len] == before + c[start..start + len];
      position := position + len;
      return Pass;
    }

    /** `maybeWriteCharacters`: forward the pending text when a character of it is significant, then empty the buffer. */
    method MaybeWriteCharacters()
      requires Valid()
      modifies this
      ensures Valid() && characters == old(characters) && position == 0
      ensures output == old(output) + Flush(old(Pending()))
    {
      if position == 0 {
        return;
      }
      var i := 0;
      while i < position
        invariant 0 <= i <= position
        invariant forall k :: 0 <= k < i ==> !Significant(characters[k])
        invariant output == old(output) && characters == old(characters) && position == old(position)
      {
        var eachChar := characters[i];
        if !IsWhitespace(eachChar) || eachChar == NoBreakSpace {
          output := output + [Event.Characters(characters[..position])];
          break;
        }
        i := i + 1;
      }
      position := 0;
    }

    /** `startElement`: pending text first, then the element without namespace and with its own attributes. */
    method StartElement(uri: string, localName: string, qName: string, attributes: seq<Attribute>)
      requires Valid()
      modifies this
      ensures Valid() && characters == old(characters)
      ensures (output, Pending()) == (old(output) + Step(old(Pending()), Event.StartElement(uri, localName, qName, attributes)).0,
                                      Step(old(Pending()), Event.StartElement(uri, localName, qName, attributes)).1)
    {
      ghost var pending := Pending();
      ghost var before := output;
      MaybeWriteCharacters();
      assert output == before + Flush(pending);
      output := output + [Event.StartElement("", localName, localName, attributes)];
      assert Pending() == [];
      assert Step(pending, Event.StartElement(uri, localName, qName, attributes)).0 == Flush(pending) + [Event.StartElement("", localName, localName, attributes)];
      assert output == before + Step(pending, Event.StartElement(uri, localName, qName, attributes)).0;
    }

    /** `endElement`: pending text first, then the element end without namespace. */
    method EndElement(uri: string, localName: string, qName: string)
      requires Valid()
      modifies this
      ensures Valid() && characters == old(characters)
      ensures (output, Pending()) == (old(output) + Step(old(Pending()), Event.EndElement(uri, localName, qName)).0,
                                      Step(old(Pending()), Event.EndElement(uri, localName, qName)).1)
    {
      ghost var pending := Pending();
      ghost var before := output;
      MaybeWriteCharacters();
      assert output == before + Flush(pending);
      output := output + [Event.EndElement("", localName, localName)];
      assert Pending() == [];
      assert Step(pending, Event.EndElement(uri, localName, qName)).0 == Flush(pending) + [Event.EndElement("", localName, localName)];
      assert output == before + Step(pending, Event.EndElement(uri, localName, qName)).0;
    }

    /** Every other event goes straight to the consumer, as the base transformer forwards it. */
    method Forward(e: Event)
      requires Valid()
      requires !e.StartPrefixMapping? && !e.EndPrefixMapping? && !e.Comment?
      requires !e.StartElement? && !e.EndElement? && !e.Characters?
      modifies this
      ensures Valid() && characters == old(characters) && position == old(position)
      ensures output == old(output) + Step(old(Pending()), e).0
    {
      output := output + [e];
    }

    /** Dispatch of one received event to its handler. */
    method Handle(e: Event)
      requires Valid()
      modifies this, characters
      ensures Valid()
      ensures (output, Pending()) == (old(output) + Step(old(Pending()), e).0, Step(old(Pending()), e).1)
    {
      match e
      case StartPrefixMapping(prefix, uri) =>
        StartPrefixMapping(prefix, uri);
        assert output + [] == output;
      case EndPrefixMapping(prefix) =>
        EndPrefixMapping(prefix);
        assert output + [] == output;
      case Comment(text) =>
        Comment(text);
        assert output + [] == output;
      case StartElement(uri, localName, qName, attributes) =>
        StartElement(uri, localName, qName, attributes);
      case EndElement(uri, localName, qName) =>
        EndElement(uri, localName, qName);
      case Characters(text) =>
        var r := Characters(text, 0, |text|);
        assert text[0..|text|] == text;
        assert output + [] == output;
      case _ =>
        Forward(e);
    }
  }

  /** `constructCacheKey`: a simple key, which accepts every stored value. */
  function ConstructCacheKey(): (key: CacheKey)
    ensures key.Simple? && forall other :: Valid(key, other)
  {
    Simple
  }
}
