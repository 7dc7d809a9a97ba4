/**
 * `AbstractSAXTransformer`: a pipeline stage that forwards every SAX event
 * to its consumer, keeps the list of namespace prefixes currently in scope,
 * and can swap its consumer for a recorder (a `SAXBuffer` or a
 * `TextRecorder`) and back.
 *
 * The consumer is one of: none (`null`), the next stage (whose input is the
 * `output` sequence), or the adapter that wraps a recorder. The recorder is
 * held by value: nobody else can see it while it records.
 */
module SaxTransformers {
  import opened Wrappers
  import opened JavaLang
  import opened SaxEvents
  import opened SaxBuffers

  /** A bound prefix: `(prefix, uri)`, the `String[]` pair of the list. */
  type Mapping = (string, string)

  /** The recorder behind the adapter. A `TextRecorder` is a `SAXBuffer` whose `characters` appends to a text instead. */
  datatype Recorder = SaxRecorder(bits: seq<Bit>) | TextRecorder(text: string, bits: seq<Bit>)

  datatype Consumer = Absent | Downstream | Adapter(recorder: Recorder)

  /** The fields of the transformer, as a value. */
  datatype State = State(consumer: Consumer, original: Consumer, output: seq<Event>, namespaces: seq<Mapping>, isRecording: bool)

  /** One event received by a recorder. */
  function Record(rec: Recorder, e: Event): (r: Recorder)
    ensures r.SaxRecorder? <==> rec.SaxRecorder?
  {
    match rec
    case SaxRecorder(bits) => SaxRecorder(bits + Recorded(e))
    case TextRecorder(text, bits) =>
      if e.Characters? then TextRecorder(text + e.text, bits) else TextRecorder(text, bits + Recorded(e))
  }

  /** Events received by a recorder, in order. */
  function RecordEach(rec: Recorder, events: seq<Event>): Recorder
    decreases |events|
  {
    if events == [] then rec else RecordEach(Record(rec, events[0]), events[1..])
  }

  /** One event handed to the current consumer (`getSAXConsumer().xxx(...)`). */
  function Deliver(s: State, e: Event): (r: (State, Outcome))
    ensures r.1 == Pass <==> !s.consumer.Absent?
    ensures r.1 != Pass ==> r == (s, Fail(NullPointer))
  {
    match s.consumer
    case Absent => (s, Fail(NullPointer))
    case Downstream => (s.(output := s.output + [e]), Pass)
    case Adapter(rec) => (s.(consumer := Adapter(Record(rec, e))), Pass)
  }

  /** Events handed to the consumer one after the other, stopping at the first that throws. */
  function DeliverAll(s: State, events: seq<Event>): (State, Outcome)
    decreases |events|
  {
    if events == [] then (s, Pass)
    else
      var r := Deliver(s, events[0]);
      if r.1.Fail? then r else DeliverAll(r.0, events[1..])
  }

  /** The `startPrefixMapping` events for the list, in list order. */
  function StartMappings(ns: seq<Mapping>): (r: seq<Event>)
    ensures |r| == |ns|
  {
    seq(|ns|, k requires 0 <= k < |ns| => StartPrefixMapping(Some(ns[k].0), ns[k].1))
  }

  /** The `endPrefixMapping` events for the list, also in list order. */
  function EndMappings(ns: seq<Mapping>): (r: seq<Event>)
    ensures |r| == |ns|
  {
    seq(|ns|, k requires 0 <= k < |ns| => EndPrefixMapping(Some(ns[k].0)))
  }

  /** The index of the most recently added entry for `prefix`. */
  function LastIndex(ns: seq<Mapping>, prefix: string): (r: Option<nat>)
    ensures r.Some? ==> r.value < |ns| && ns[r.value].0 == prefix
  {
    if ns == [] then None
    else if ns[|ns| - 1].0 == prefix then Some(|ns| - 1)
    else LastIndex(ns[..|ns| - 1], prefix)
  }

  /** The prefix of the earliest-added entry bound to `uri`. */
  function FirstPrefix(ns: seq<Mapping>, uri: string): Option<string> {
    if ns == [] then None
    else if ns[0].1 == uri then Some(ns[0].0)
    else FirstPrefix(ns[1..], uri)
  }

  function NotFound(prefix: string): string {
    "Namespace for prefix '" + prefix + "' not found."
  }

  /** `startPrefixMapping`: a non-null prefix is pushed, then the event is forwarded. */
  function OnStartPrefix(s: State, prefix: Option<string>, uri: string): (State, Outcome) {
    var s1 := if prefix.Some? then s.(namespaces := s.namespaces + [(prefix.value, uri)]) else s;
    Deliver(s1, StartPrefixMapping(prefix, uri))
  }

  /** `endPrefixMapping`: a non-null prefix must be in scope; its latest entry is removed, then the event is forwarded. */
  function OnEndPrefix(s: State, prefix: Option<string>): (State, Outcome) {
    if prefix.None? then Deliver(s, EndPrefixMapping(None))
    else
      match LastIndex(s.namespaces, prefix.value)
      case None => (s, Fail(Sax(NotFound(prefix.value))))
      case Some(k) =>
        Deliver(s.(namespaces := s.namespaces[..k] + s.namespaces[k + 1..]), EndPrefixMapping(prefix))
  }

  /** Any `ContentHandler`/`LexicalHandler` callback of the transformer. */
  function OnEvent(s: State, e: Event): (State, Outcome) {
    match e
    case StartPrefixMapping(prefix, uri) => OnStartPrefix(s, prefix, uri)
    case EndPrefixMapping(prefix) => OnEndPrefix(s, prefix)
    case _ => Deliver(s, e)
  }

  /** Callbacks one after the other, stopping at the first that throws. */
  function OnEvents(s: State, events: seq<Event>): (State, Outcome)
    decreases |events|
  {
    if events == [] then (s, Pass)
    else
      var r := OnEvent(s, events[0]);
      if r.1.Fail? then r else OnEvents(r.0, events[1..])
  }

  const OnlyOne: string := "Only one recorder can be set."

  /** `setRecorder`. */
  function Installed(s: State, rec: Recorder): (State, Outcome) {
    if s.isRecording then (s, Fail(Processing(OnlyOne)))
    else (s.(isRecording := true, original := s.consumer, consumer := Adapter(rec)), Pass)
  }

  /**
   * `removeRecorder`: the cast to the adapter throws for the next stage; a
   * `null` consumer passes the cast, is replaced by the saved one, and then
   * throws when asked for its handler.
   */
  function Removed(s: State): (State, Result<Recorder>) {
    match s.consumer
    case Downstream => (s, Err(ClassCast))
    case Absent => (s.(consumer := s.original, isRecording := false), Err(NullPointer))
    case Adapter(rec) => (s.(consumer := s.original, isRecording := false), Ok(rec))
  }

  /** `startSAXRecording` / `startTextRecording`: set the recorder, then replay the open prefix mappings into it. */
  function StartRecording(s: State, rec: Recorder): (State, Outcome) {
    var r := Installed(s, rec);
    if r.1.Fail? then r else DeliverAll(r.0, StartMappings(r.0.namespaces))
  }

  /** The common part of the two `end…Recording` methods: close the open mappings, then remove the recorder. */
  function EndRecording(s: State): (State, Result<Recorder>) {
    var r := DeliverAll(s, EndMappings(s.namespaces));
    if r.1.Fail? then (r.0, Err(r.1.error)) else Removed(r.0)
  }

  /** `endSAXRecording`: the recorder as a `SAXBuffer` (a `TextRecorder` is one, too). */
  function SaxRecordingEnded(s: State): (State, Result<seq<Bit>>) {
    var r := EndRecording(s);
    if r.1.Err? then (r.0, Err(r.1.error)) else (r.0, Ok(r.1.value.bits))
  }

  /** `endTextRecording`: the recorder cast to a `TextRecorder`, and its text trimmed. */
  function TextRecordingEnded(s: State): (State, Result<string>) {
    var r := EndRecording(s);
    if r.1.Err? then (r.0, Err(r.1.error))
    else if r.1.value.SaxRecorder? then (r.0, Err(ClassCast))
    else (r.0, Ok(Trim(r.1.value.text)))
  }

  // ---------------------------------------------------------------------
  // The prefix list

  lemma {:induction false} LastIndexSpec(ns: seq<Mapping>, prefix: string)
    ensures LastIndex(ns, prefix).None? <==> forall k :: 0 <= k < |ns| ==> ns[k].0 != prefix
    ensures LastIndex(ns, prefix).Some? ==> forall k :: LastIndex(ns, prefix).value < k < |ns| ==> ns[k].0 != prefix
    decreases |ns|
  {
    if ns != [] && ns[|ns| - 1].0 != prefix {
      var init := ns[..|ns| - 1];
      LastIndexSpec(init, prefix);
      assert forall k :: 0 <= k < |init| ==> init[k] == ns[k];
    }
  }

  lemma {:induction false} FirstPrefixSpec(ns: seq<Mapping>, uri: string)
    ensures FirstPrefix(ns, uri).None? <==> forall k :: 0 <= k < |ns| ==> ns[k].1 != uri
    ensures FirstPrefix(ns, uri).Some? ==>
      exists k :: 0 <= k < |ns| && ns[k] == (FirstPrefix(ns, uri).value, uri) && forall j :: 0 <= j < k ==> ns[j].1 != uri
    decreases |ns|
  {
    if ns != [] {
      if ns[0].1 == uri {
        assert ns[0] == (FirstPrefix(ns, uri).value, uri);
      } else {
        var tail := ns[1..];
        FirstPrefixSpec(tail, uri);
        assert forall k :: 0 < k < |ns| ==> ns[k] == tail[k - 1];
        if FirstPrefix(tail, uri).Some? {
          var k :| 0 <= k < |tail| && tail[k] == (FirstPrefix(tail, uri).value, uri) && forall j :: 0 <= j < k ==> tail[j].1 != uri;
          assert ns[k + 1] == tail[k];
          assert forall j :: 0 <= j < k + 1 ==> ns[j].1 != uri by {
            forall j | 0 <= j < k + 1 ensures ns[j].1 != uri {
              if j > 0 {
                assert ns[j] == tail[j - 1];
              }
            }
          }
        }
      }
    }
  }

  /** An entry pushed last is found by a URI lookup only when no earlier entry has that URI. */
  lemma {:induction false} FirstPrefixPushed(ns: seq<Mapping>, prefix: string, uri: string, query: string)
    ensures FirstPrefix(ns + [(prefix, uri)], query) ==
      if FirstPrefix(ns, query).Some? then FirstPrefix(ns, query)
      else if query == uri then Some(prefix) else None
    decreases |ns|
  {
    if ns == [] {
      assert [] + [(prefix, uri)] == [(prefix, uri)];
    } else {
      assert (ns + [(prefix, uri)])[1..] == ns[1..] + [(prefix, uri)];
      FirstPrefixPushed(ns[1..], prefix, uri, query);
    }
  }

  /** `endPrefixMapping` of the prefix `startPrefixMapping` pushed restores the list, whatever the consumer. */
  lemma EndUndoesStart(s: State, prefix: string, uri: string)
    ensures OnEndPrefix(OnStartPrefix(s, Some(prefix), uri).0, Some(prefix)).0.namespaces == s.namespaces
  {
    var ns := s.namespaces + [(prefix, uri)];
    assert ns[..|ns| - 1] == s.namespaces;
    assert LastIndex(ns, prefix) == Some(|s.namespaces|);
  }

  /** An unknown prefix throws `SAXException`; nothing changes and nothing reaches the consumer. */
  lemma UnknownPrefix(s: State, prefix: string)
    requires forall k :: 0 <= k < |s.namespaces| ==> s.namespaces[k].0 != prefix
    ensures OnEndPrefix(s, Some(prefix)) == (s, Fail(Sax(NotFound(prefix))))
  {
    LastIndexSpec(s.namespaces, prefix);
  }

  /** A known prefix: its latest entry, and only that one, leaves the list. */
  lemma KnownPrefix(s: State, prefix: string, k: nat)
    requires k < |s.namespaces| && s.namespaces[k].0 == prefix
    requires forall j :: k < j < |s.namespaces| ==> s.namespaces[j].0 != prefix
    ensures OnEndPrefix(s, Some(prefix)).0.namespaces == s.namespaces[..k] + s.namespaces[k + 1..]
    ensures OnEndPrefix(s, Some(prefix)).1 == Deliver(s, EndPrefixMapping(Some(prefix))).1
  {
    LastIndexSpec(s.namespaces, prefix);
    var i := LastIndex(s.namespaces, prefix);
    assert i.Some?;
    assert i.value == k;
  }

  // ---------------------------------------------------------------------
  // Recording

  lemma {:induction false} DeliverAllStep(s: State, events: seq<Event>)
    requires events != []
    ensures Deliver(s, events[0]).1.Fail? ==> DeliverAll(s, events) == Deliver(s, events[0])
    ensures Deliver(s, events[0]).1.Pass? ==> DeliverAll(s, events) == DeliverAll(Deliver(s, events[0]).0, events[1..])
  {
  }

  /** Into a recorder, delivery never throws and only the recorder changes. */
  lemma {:induction false} DeliverAllAdapter(s: State, events: seq<Event>)
    requires s.consumer.Adapter?
    ensures DeliverAll(s, events) == (s.(consumer := Adapter(RecordEach(s.consumer.recorder, events))), Pass)
    decreases |events|
  {
    if events != [] {
      DeliverAllAdapter(Deliver(s, events[0]).0, events[1..]);
    }
  }

  /** Callbacks other than the prefix ones are plain deliveries. */
  lemma {:induction false} OnEventsPlain(s: State, events: seq<Event>)
    requires forall i :: 0 <= i < |events| ==> !events[i].StartPrefixMapping? && !events[i].EndPrefixMapping?
    ensures OnEvents(s, events) == DeliverAll(s, events)
    decreases |events|
  {
    if events != [] {
      var r := Deliver(s, events[0]);
      assert OnEvent(s, events[0]) == r;
      if r.1.Pass? {
        assert forall i :: 0 <= i < |events[1..]| ==> events[1..][i] == events[i + 1];
        OnEventsPlain(r.0, events[1..]);
      }
    }
  }

  lemma {:induction false} RecordAllCons(e: Event, events: seq<Event>)
    ensures RecordAll([e] + events) == Recorded(e) + RecordAll(events)
    decreases |events|
  {
    if events == [] {
      assert RecordAll([e]) == RecordAll([]) + Recorded(e) by {
        assert [e][..0] == [];
      }
      assert [e] + events == [e];
    } else {
      var init := events[..|events| - 1];
      var last := events[|events| - 1];
      assert ([e] + events)[..|[e] + events| - 1] == [e] + init;
      assert ([e] + events)[|[e] + events| - 1] == last;
      RecordAllCons(e, init);
    }
  }

  lemma {:induction false} RecordAllAppend(a: seq<Event>, b: seq<Event>)
    ensures RecordAll(a + b) == RecordAll(a) + RecordAll(b)
    decreases |b|
  {
    if b == [] {
      assert a + b == a;
    } else {
      var init := b[..|b| - 1];
      assert (a + b)[..|a + b| - 1] == a + init;
      assert (a + b)[|a + b| - 1] == b[|b| - 1];
      RecordAllAppend(a, init);
    }
  }

  /** A `SAXBuffer` recorder logs exactly what a `SAXBuffer` would. */
  lemma {:induction false} RecordEachSax(bits: seq<Bit>, events: seq<Event>)
    ensures RecordEach(SaxRecorder(bits), events) == SaxRecorder(bits + RecordAll(events))
    decreases |events|
  {
    if events == [] {
      assert bits + RecordAll(events) == bits;
    } else {
      RecordEachSax(bits + Recorded(events[0]), events[1..]);
      RecordAllCons(events[0], events[1..]);
      assert [events[0]] + events[1..] == events;
    }
  }

  /** A `TextRecorder` collects exactly the text of the `characters` events. */
  lemma {:induction false} RecordEachText(text: string, bits: seq<Bit>, events: seq<Event>)
    ensures RecordEach(TextRecorder(text, bits), events).TextRecorder?
    ensures RecordEach(TextRecorder(text, bits), events).text == text + CharactersText(events)
    decreases |events|
  {
    if events == [] {
      assert text + CharactersText(events) == text;
    } else {
      var e := events[0];
      var next := Record(TextRecorder(text, bits), e);
      RecordEachText(next.text, next.bits, events[1..]);
      CharactersTextAppend([e], events[1..]);
      assert [e] + events[1..] == events;
      assert CharactersText([e]) == (if e.Characters? then e.text else []) by {
        assert [e][..0] == [];
      }
    }
  }

  lemma {:induction false} MappingsHaveNoText(ns: seq<Mapping>)
    ensures CharactersText(StartMappings(ns)) == []
    ensures CharactersText(EndMappings(ns)) == []
    decreases |ns|
  {
    if ns != [] {
      var init := ns[..|ns| - 1];
      MappingsHaveNoText(init);
      assert StartMappings(ns)[..|ns| - 1] == StartMappings(init);
      assert EndMappings(ns)[..|ns| - 1] == EndMappings(init);
    }
  }

  /** A second recorder is refused with a `ProcessingException`, and nothing changes. */
  lemma SecondRecorder(s: State, rec: Recorder)
    requires s.isRecording
    ensures StartRecording(s, rec) == (s, Fail(Processing(OnlyOne)))
  {
  }

  /** The state a recording session works in, given the transformer's state before it started. */
  function Recording(s: State, rec: Recorder): State {
    s.(isRecording := true, original := s.consumer, consumer := Adapter(rec))
  }

  lemma StartRecordingOpens(s: State, rec: Recorder)
    requires !s.isRecording
    ensures StartRecording(s, rec) == (Recording(s, RecordEach(rec, StartMappings(s.namespaces))), Pass)
  {
    DeliverAllAdapter(Recording(s, rec), StartMappings(s.namespaces));
  }

  lemma EndRecordingCloses(s: State, rec: Recorder)
    requires !s.isRecording
    ensures EndRecording(Recording(s, rec)) ==
      (s.(original := s.consumer), Ok(RecordEach(rec, EndMappings(s.namespaces))))
  {
    DeliverAllAdapter(Recording(s, rec), EndMappings(s.namespaces));
  }

  /**
   * A whole SAX recording: the buffer holds the open prefix mappings, the
   * recorded events and the closing mappings; the original consumer is back,
   * it received nothing, and the prefix list is as before.
   */
  lemma SaxRecordingRoundTrip(s: State, events: seq<Event>)
    requires !s.isRecording
    requires forall i :: 0 <= i < |events| ==> !events[i].StartPrefixMapping? && !events[i].EndPrefixMapping?
    ensures var s1 := StartRecording(s, SaxRecorder([])).0;
      var s2 := OnEvents(s1, events).0;
      SaxRecordingEnded(s2) ==
        (s.(original := s.consumer), Ok(RecordAll(StartMappings(s.namespaces) + events + EndMappings(s.namespaces))))
  {
    var ns := s.namespaces;
    StartRecordingOpens(s, SaxRecorder([]));
    RecordEachSax([], StartMappings(ns));
    var s1 := Recording(s, SaxRecorder(RecordAll(StartMappings(ns))));
    OnEventsPlain(s1, events);
    DeliverAllAdapter(s1, events);
    RecordEachSax(RecordAll(StartMappings(ns)), events);
    var bits := RecordAll(StartMappings(ns)) + RecordAll(events);
    EndRecordingCloses(s, SaxRecorder(bits));
    RecordEachSax(bits, EndMappings(ns));
    RecordAllAppend(StartMappings(ns), events);
    RecordAllAppend(StartMappings(ns) + events, EndMappings(ns));
    assert [] + RecordAll(StartMappings(ns)) == RecordAll(StartMappings(ns));
  }

  /** A whole text recording ends with a `TextRecorder` holding the text of the recorded `characters` events. */
  lemma TextRecordingCollects(s: State, events: seq<Event>)
    requires !s.isRecording
    requires forall i :: 0 <= i < |events| ==> !events[i].StartPrefixMapping? && !events[i].EndPrefixMapping?
    ensures var s1 := StartRecording(s, TextRecorder([], [])).0;
      var r := EndRecording(OnEvents(s1, events).0);
      r.0 == s.(original := s.consumer) && r.1.Ok? && r.1.value.TextRecorder? && r.1.value.text == CharactersText(events)
  {
    var ns := s.namespaces;
    StartRecordingOpens(s, TextRecorder([], []));
    RecordEachText([], [], StartMappings(ns));
    MappingsHaveNoText(ns);
    var rec1 := RecordEach(TextRecorder([], []), StartMappings(ns));
    var s1 := Recording(s, rec1);
    OnEventsPlain(s1, events);
    DeliverAllAdapter(s1, events);
    RecordEachText(rec1.text, rec1.bits, events);
    var rec2 := RecordEach(rec1, events);
    EndRecordingCloses(s, rec2);
    RecordEachText(rec2.text, rec2.bits, EndMappings(ns));
  }

  /** `endTextRecording` after a whole text recording: the collected text, trimmed. */
  lemma TextRecordingRoundTrip(s: State, events: seq<Event>)
    requires !s.isRecording
    requires forall i :: 0 <= i < |events| ==> !events[i].StartPrefixMapping? && !events[i].EndPrefixMapping?
    ensures var s1 := StartRecording(s, TextRecorder([], [])).0;
      var s2 := OnEvents(s1, events).0;
      TextRecordingEnded(s2) == (s.(original := s.consumer), Ok(Trim(CharactersText(events))))
  {
    TextRecordingCollects(s, events);
  }

  /** Ending a text recording on a SAX recording throws `ClassCastException` after the consumer is restored. */
  lemma TextEndOfSaxRecording(s: State, bits: seq<Bit>)
    requires !s.isRecording
    ensures TextRecordingEnded(Recording(s, SaxRecorder(bits))) == (s.(original := s.consumer), Err(ClassCast))
  {
    EndRecordingCloses(s, SaxRecorder(bits));
    assert RecordEach(SaxRecorder(bits), EndMappings(s.namespaces)).SaxRecorder? by {
      RecordEachSax(bits, EndMappings(s.namespaces));
    }
  }

  // ---------------------------------------------------------------------
  // The transformer

  class SAXTransformer {
    var consumer: Consumer
    var original: Consumer
    var output: seq<Event>
    var namespaces: seq<Mapping>
    var isRecording: bool

    function Snapshot(): State
      reads this
    {
      State(consumer, original, output, namespaces, isRecording)
    }

    /** A new transformer, already connected (`setConsumer`) to the given consumer. */
    constructor (next: Consumer)
      ensures Snapshot() == State(next, Absent, [], [], false)
    {
      consumer := next;
      original := Absent;
      output := [];
      namespaces := [];
      isRecording := false;
    }

    /** The forwarding callbacks: the event goes to the current consumer. */
    method Forward(e: Event) returns (outcome: Outcome)
      modifies this
      ensures (Snapshot(), outcome) == Deliver(old(Snapshot()), e)
    {
      match consumer
      case Absent =>
        outcome := Fail(NullPointer);
      case Downstream =>
        output := output + [e];
        outcome := Pass;
      case Adapter(rec) =>
        consumer := Adapter(Record(rec, e));
        outcome := Pass;
    }

    method StartPrefixMapping(prefix: Option<string>, uri: string) returns (outcome: Outcome)
      modifies this
      ensures (Snapshot(), outcome) == OnStartPrefix(old(Snapshot()), prefix, uri)
    {
      if prefix.Some? {
        namespaces := namespaces + [(prefix.value, uri)];
      }
      outcome := Forward(Event.StartPrefixMapping(prefix, uri));
    }

    /** The backward search of `endPrefixMapping`. */
    method LastIndexOf(prefix: string) returns (r: Option<nat>)
      ensures r == LastIndex(namespaces, prefix)
    {
      var i := |namespaces|;
      assert namespaces[..i] == namespaces;
      while i > 0
        invariant 0 <= i <= |namespaces|
        invariant LastIndex(namespaces, prefix) == LastIndex(namespaces[..i], prefix)
      {
        if namespaces[i - 1].0 == prefix {
          return Some(i - 1);
        }
        assert namespaces[..i][..i - 1] == namespaces[..i - 1];
        i := i - 1;
      }
      return None;
    }

    method EndPrefixMapping(prefix: Option<string>) returns (outcome: Outcome)
      modifies this
      ensures (Snapshot(), outcome) == OnEndPrefix(old(Snapshot()), prefix)
    {
      if prefix.Some? {
        var k := LastIndexOf(prefix.value);
        if k.None? {
          return Fail(Sax(NotFound(prefix.value)));
        }
        namespaces := namespaces[..k.value] + namespaces[k.value + 1..];
      }
      outcome := Forward(Event.EndPrefixMapping(prefix));
    }

    /** Every callback of the transformer. */
    method Handle(e: Event) returns (outcome: Outcome)
      modifies this
      ensures (Snapshot(), outcome) == OnEvent(old(Snapshot()), e)
    {
      match e
      case StartPrefixMapping(prefix, uri) =>
        outcome := StartPrefixMapping(prefix, uri);
      case EndPrefixMapping(prefix) =>
        outcome := EndPrefixMapping(prefix);
      case _ =>
        outcome := Forward(e);
    }

    /** `findPrefixMapping`: the earliest-added prefix bound to the URI, or `null`. */
    method FindPrefixMapping(uri: string) returns (r: Option<string>)
      ensures r == FirstPrefix(namespaces, uri)
    {
      var i := 0;
      while i < |namespaces|
        invariant 0 <= i <= |namespaces|
        invariant FirstPrefix(namespaces, uri) == FirstPrefix(namespaces[i..], uri)
      {
        if namespaces[i].1 == uri {
          return Some(namespaces[i].0);
        }
        assert namespaces[i..][1..] == namespaces[i + 1..];
        i := i + 1;
      }
      return None;
    }

    /** `sendStartPrefixMapping`. */
    method SendStartPrefixMapping() returns (outcome: Outcome)
      modifies this
      ensures (Snapshot(), outcome) == DeliverAll(old(Snapshot()), StartMappings(old(namespaces)))
    {
      var events := StartMappings(namespaces);
      outcome := DeliverEach(events);
    }

    /** `sendEndPrefixMapping`. */
    method SendEndPrefixMapping() returns (outcome: Outcome)
      modifies this
      ensures (Snapshot(), outcome) == DeliverAll(old(Snapshot()), EndMappings(old(namespaces)))
    {
      var events := EndMappings(namespaces);
      outcome := DeliverEach(events);
    }

    /** The loop of the two `send…PrefixMapping` methods: one event per list entry. */
    method DeliverEach(events: seq<Event>) returns (outcome: Outcome)
      modifies this
      ensures (Snapshot(), outcome) == DeliverAll(old(Snapshot()), events)
    {
      var i := 0;
      while i < |events|
        invariant 0 <= i <= |events|
        invariant DeliverAll(Snapshot(), events[i..]) == DeliverAll(old(Snapshot()), events)
      {
        DeliverAllStep(Snapshot(), events[i..]);
        assert events[i..][0] == events[i];
        assert events[i..][1..] == events[i + 1..];
        outcome := Forward(events[i]);
        if outcome.Fail? {
          return;
        }
        i := i + 1;
      }
      outcome := Pass;
    }

    method SetRecorder(rec: Recorder) returns (outcome: Outcome)
      modifies this
      ensures (Snapshot(), outcome) == Installed(old(Snapshot()), rec)
    {
      if isRecording {
        return Fail(Processing(OnlyOne));
      }
      isRecording := true;
      original := consumer;
      consumer := Adapter(rec);
      outcome := Pass;
    }

    method RemoveRecorder() returns (r: Result<Recorder>)
      modifies this
      ensures (Snapshot(), r) == Removed(old(Snapshot()))
    {
      if consumer.Downstream? {
        return Err(ClassCast);
      }
      var adapter := consumer;
      consumer := original;
      isRecording := false;
      if adapter.Absent? {
        return Err(NullPointer);
      }
      r := Ok(adapter.recorder);
    }

    method StartSAXRecording() returns (outcome: Outcome)
      modifies this
      ensures (Snapshot(), outcome) == StartRecording(old(Snapshot()), SaxRecorder([]))
    {
      outcome := SetRecorder(SaxRecorder([]));
      if outcome.Fail? {
        return;
      }
      outcome := SendStartPrefixMapping();
    }

    method StartTextRecording() returns (outcome: Outcome)
      modifies this
      ensures (Snapshot(), outcome) == StartRecording(old(Snapshot()), TextRecorder([], []))
    {
      outcome := SetRecorder(TextRecorder([], []));
      if outcome.Fail? {
        return;
      }
      outcome := SendStartPrefixMapping();
    }

    /** The recorded buffer is returned as its bits. */
    method EndSAXRecording() returns (r: Result<seq<Bit>>)
      modifies this
      ensures (Snapshot(), r) == SaxRecordingEnded(old(Snapshot()))
    {
      var sent := SendEndPrefixMapping();
      if sent.Fail? {
        return Err(sent.error);
      }
      var rec := RemoveRecorder();
      if rec.Err? {
        return Err(rec.error);
      }
      r := Ok(rec.value.bits);
    }

    method EndTextRecording() returns (r: Result<string>)
      modifies this
      ensures (Snapshot(), r) == TextRecordingEnded(old(Snapshot()))
    {
      var sent := SendEndPrefixMapping();
      if sent.Fail? {
        return Err(sent.error);
      }
      var rec := RemoveRecorder();
      if rec.Err? {
        return Err(rec.error);
      }
      if rec.value.SaxRecorder? {
        return Err(ClassCast);
      }
      r := Ok(Trim(rec.value.text));
    }
  }
}
