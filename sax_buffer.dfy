/**
 * `SAXBuffer`: a handler that records every event it receives, except the
 * document locator, as one bit of a log, and replays the log in order.
 * The `Parameter` bit belongs to `ParamSAXBuffer` (its own module); a plain
 * replay sends nothing for it.
 */
module SaxBuffers {
  import opened Wrappers
  import opened SaxEvents

  datatype Bit = EventBit(event: Event) | Parameter(name: string)

  /** The bits recorded for one event: none for the locator, else exactly one. */
  function Recorded(e: Event): (r: seq<Bit>)
    ensures e.DocumentLocator? ==> r == []
    ensures !e.DocumentLocator? ==> r == [EventBit(e)]
  {
    if e.DocumentLocator? then [] else [EventBit(e)]
  }

  /** The bits recorded for a sequence of events, in order. */
  function RecordAll(events: seq<Event>): seq<Bit> {
    if events == [] then [] else RecordAll(events[..|events| - 1]) + Recorded(events[|events| - 1])
  }

  /** `SaxBit.send`: lexical bits reach only a lexical handler; a parameter sends nothing. */
  function Send(bit: Bit, lexical: bool): (r: seq<Event>)
    ensures bit.Parameter? ==> r == []
    ensures bit.EventBit? && (lexical || !IsLexical(bit.event)) ==> r == [bit.event]
    ensures bit.EventBit? && !lexical && IsLexical(bit.event) ==> r == []
  {
    match bit
    case Parameter(_) => []
    case EventBit(e) => if IsLexical(e) && !lexical then [] else [e]
  }

  /** `toSAX(handler)`: every bit sent in recorded order. */
  function Replay(bits: seq<Bit>, lexical: bool): seq<Event> {
    if bits == [] then [] else Replay(bits[..|bits| - 1], lexical) + Send(bits[|bits| - 1], lexical)
  }

  /** What a handler of the given kind sees of a stream of events when it goes through a buffer. */
  function Visible(events: seq<Event>, lexical: bool): seq<Event> {
    if events == [] then []
    else
      var e := events[|events| - 1];
      Visible(events[..|events| - 1], lexical) + (if e.DocumentLocator? || (IsLexical(e) && !lexical) then [] else [e])
  }

  /** `toString`: the text of the `Characters` bits. */
  function Text(bits: seq<Bit>): string {
    if bits == [] then []
    else
      var b := bits[|bits| - 1];
      Text(bits[..|bits| - 1]) + (if b.EventBit? && b.event.Characters? then b.event.text else [])
  }

  lemma {:induction false} ReplayAppend(a: seq<Bit>, b: seq<Bit>, lexical: bool)
    ensures Replay(a + b, lexical) == Replay(a, lexical) + Replay(b, lexical)
    decreases |b|
  {
    if b == [] {
      assert a + b == a;
    } else {
      assert (a + b)[..|a + b| - 1] == a + b[..|b| - 1];
      ReplayAppend(a, b[..|b| - 1], lexical);
    }
  }

  lemma {:induction false} TextAppend(a: seq<Bit>, b: seq<Bit>)
    ensures Text(a + b) == Text(a) + Text(b)
    decreases |b|
  {
    if b == [] {
      assert a + b == a;
    } else {
      assert (a + b)[..|a + b| - 1] == a + b[..|b| - 1];
      TextAppend(a, b[..|b| - 1]);
    }
  }

  /** Replaying the bits recorded for one event. */
  lemma ReplayOne(e: Event, lexical: bool)
    ensures Replay(Recorded(e), lexical) == (if e.DocumentLocator? || (IsLexical(e) && !lexical) then [] else [e])
  {
    if !e.DocumentLocator? {
      assert [EventBit(e)][..0] == [];
    }
  }

  /** Recording a stream of events and replaying it gives back the stream, less the locator and, for a non-lexical handler, the lexical events. */
  lemma {:induction false} ReplayRecorded(events: seq<Event>, lexical: bool)
    ensures Replay(RecordAll(events), lexical) == Visible(events, lexical)
    decreases |events|
  {
    if events != [] {
      var init := events[..|events| - 1];
      ReplayRecorded(init, lexical);
      ReplayAppend(RecordAll(init), Recorded(events[|events| - 1]), lexical);
      ReplayOne(events[|events| - 1], lexical);
    }
  }

  /** A lexical handler sees every event but the locator. */
  lemma {:induction false} VisibleToLexical(events: seq<Event>)
    requires forall i :: 0 <= i < |events| ==> !events[i].DocumentLocator?
    ensures Visible(events, true) == events
    decreases |events|
  {
    if events != [] {
      VisibleToLexical(events[..|events| - 1]);
      assert events == events[..|events| - 1] + [events[|events| - 1]];
    }
  }

  /** The text of a recording is the text of the recorded `characters` events. */
  lemma {:induction false} TextRecorded(events: seq<Event>)
    ensures Text(RecordAll(events)) == CharactersText(events)
    decreases |events|
  {
    if events != [] {
      var init := events[..|events| - 1];
      TextRecorded(init);
      TextAppend(RecordAll(init), Recorded(events[|events| - 1]));
      if !events[|events| - 1].DocumentLocator? {
        assert [EventBit(events[|events| - 1])][..0] == [];
      }
    }
  }

  class SAXBuffer {
    var bits: seq<Bit>

    constructor ()
      ensures bits == []
    {
      bits := [];
    }

    /** The copy constructor: the new buffer starts with the other's bits and is independent of it from then on. */
    constructor Copy(other: SAXBuffer)
      ensures bits == other.bits
    {
      bits := other.bits;
    }

    /** Every `ContentHandler`/`LexicalHandler` callback: one bit per event, none for the locator. */
    method Handle(e: Event)
      modifies this
      ensures bits == old(bits) + Recorded(e)
    {
      bits := bits + Recorded(e);
    }

    /** `characters(ch, start, length)`: the bit holds a copy of exactly that slice. */
    method CharactersSlice(ch: seq<char>, start: nat, length: nat)
      requires start + length <= |ch|
      modifies this
      ensures bits == old(bits) + [EventBit(Characters(ch[start..start + length]))]
    {
      Handle(Characters(ch[start..start + length]));
    }

    method Recycle()
      modifies this
      ensures bits == []
    {
      bits := [];
    }

    function IsEmpty(): (r: bool)
      reads this
      ensures r <==> |bits| == 0
    {
      bits == []
    }

    /** `toSAX(handler)`. */
    method ToSax(lexical: bool) returns (events: seq<Event>)
      ensures events == Replay(bits, lexical)
    {
      events := [];
      var i := 0;
      while i < |bits|
        invariant 0 <= i <= |bits|
        invariant events == Replay(bits[..i], lexical)
      {
        assert bits[..i + 1][..i] == bits[..i];
        events := events + Send(bits[i], lexical);
        i := i + 1;
      }
      assert bits[..i] == bits;
    }

    /** `toString`. */
    method ToText() returns (s: string)
      ensures s == Text(bits)
    {
      s := [];
      var i := 0;
      while i < |bits|
        invariant 0 <= i <= |bits|
        invariant s == Text(bits[..i])
      {
        assert bits[..i + 1][..i] == bits[..i];
        if bits[i].EventBit? && bits[i].event.Characters? {
          s := s + bits[i].event.text;
        }
        i := i + 1;
      }
      assert bits[..i] == bits;
    }
  }
}
