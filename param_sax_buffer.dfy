/**
 * `ParamSAXBuffer`: a SAX buffer that cuts `{name}` expressions out of its
 * character events as parameter bits, carrying an unclosed `{` over to the
 * next `characters` call, and that replays a parameter as the contents of
 * the buffer passed for its name.
 */
module ParamSaxBuffers {
  import opened Wrappers
  import opened SaxEvents
  import opened SaxBuffers

  /** The first position of `c` in `s` at or after `from`. */
  function IndexFrom(s: string, c: char, from: nat): (r: Option<nat>)
    requires from <= |s|
    ensures r.Some? ==> from <= r.value < |s| && s[r.value] == c
    decreases |s| - from
  {
    if from == |s| then None
    else if s[from] == c then Some(from)
    else IndexFrom(s, c, from + 1)
  }

  /** `IndexFrom` finds the first occurrence, and finds nothing only when there is none. */
  lemma {:induction false} IndexFromFirst(s: string, c: char, from: nat)
    requires from <= |s|
    ensures IndexFrom(s, c, from).Some? ==> forall k :: from <= k < IndexFrom(s, c, from).value ==> s[k] != c
    ensures IndexFrom(s, c, from).None? ==> forall k :: from <= k < |s| ==> s[k] != c
    decreases |s| - from
  {
    if from < |s| && s[from] != c {
      IndexFromFirst(s, c, from + 1);
    }
  }

  lemma IndexFromIs(s: string, c: char, from: nat, i: nat)
    requires from <= i < |s| && s[i] == c
    requires forall k :: from <= k < i ==> s[k] != c
    ensures IndexFrom(s, c, from) == Some(i)
  {
    IndexFromFirst(s, c, from);
  }

  /** A characters bit for non-empty text, nothing for empty text. */
  function CharsBits(text: string): (r: seq<Bit>)
    ensures text == [] ==> r == []
    ensures text != [] ==> r == [EventBit(Characters(text))]
  {
    if text == [] then [] else [EventBit(Characters(text))]
  }

  /**
   * What `characters` records for the text from position `from` on (the
   * carried-over text comes first in the text): the bits, and the text from
   * an unclosed `{` on, which is carried over to the next call.
   */
  function Split(text: string, from: nat): (r: (seq<Bit>, Option<string>))
    requires from <= |text|
    decreases |text| - from, 2
  {
    AfterOpen(text, from, IndexFrom(text, '{', from))
  }

  /** `Split` once the first `{` at or after `from` has been looked for. */
  function AfterOpen(text: string, from: nat, open: Option<nat>): (r: (seq<Bit>, Option<string>))
    requires from <= |text| && (open.Some? ==> from <= open.value < |text|)
    decreases |text| - from, 1
  {
    if open.None? then (CharsBits(text[from..]), None)
    else AfterClose(text, from, open.value, IndexFrom(text, '}', open.value + 1))
  }

  /** `Split` once the `}` closing the `{` at `i` has been looked for. */
  function AfterClose(text: string, from: nat, i: nat, close: Option<nat>): (r: (seq<Bit>, Option<string>))
    requires from <= i < |text| && (close.Some? ==> i < close.value < |text|)
    decreases |text| - from, 0
  {
    if close.None? then (CharsBits(text[from..i]), Some(text[i..]))
    else
      var rest := Split(text, close.value + 1);
      (CharsBits(text[from..i]) + [Parameter(text[i + 1..close.value])] + rest.0, rest.1)
  }

  lemma SplitCaseNone(text: string, from: nat)
    requires from <= |text| && IndexFrom(text, '{', from).None?
    ensures Split(text, from) == (CharsBits(text[from..]), None)
  {
    assert Split(text, from) == AfterOpen(text, from, None);
  }

  lemma SplitCaseOpen(text: string, from: nat, i: nat)
    requires from <= |text| && IndexFrom(text, '{', from) == Some(i) && IndexFrom(text, '}', i + 1).None?
    ensures Split(text, from) == (CharsBits(text[from..i]), Some(text[i..]))
  {
    assert Split(text, from) == AfterOpen(text, from, Some(i)) == AfterClose(text, from, i, None);
  }

  lemma SplitCaseClosed(text: string, from: nat, i: nat, j: nat)
    requires from <= |text| && IndexFrom(text, '{', from) == Some(i) && IndexFrom(text, '}', i + 1) == Some(j)
    ensures Split(text, from) == (CharsBits(text[from..i]) + [Parameter(text[i + 1..j])] + Split(text, j + 1).0, Split(text, j + 1).1)
  {
    assert Split(text, from) == AfterOpen(text, from, Some(i)) == AfterClose(text, from, i, Some(j));
  }

  /** Text without `{` is one characters bit, and nothing is carried over. */
  lemma SplitPlain(text: string, from: nat)
    requires from <= |text|
    requires forall k :: from <= k < |text| ==> text[k] != '{'
    ensures Split(text, from) == (CharsBits(text[from..]), None)
  {
    SplitCaseNone(text, from);
  }

  /** A complete `{name}` becomes a parameter bit, between the text before it and the bits of the text after it. */
  lemma SplitAt(text: string, from: nat, i: nat, j: nat)
    requires from <= i < j < |text| && text[i] == '{' && text[j] == '}'
    requires forall k :: from <= k < i ==> text[k] != '{'
    requires forall k :: i < k < j ==> text[k] != '}'
    ensures Split(text, from) == (CharsBits(text[from..i]) + [Parameter(text[i + 1..j])] + Split(text, j + 1).0, Split(text, j + 1).1)
  {
    IndexFromIs(text, '{', from, i);
    IndexFromIs(text, '}', i + 1, j);
    SplitCaseClosed(text, from, i, j);
  }

  /** An unclosed `{` ends the bits; everything from it on is carried over. */
  lemma SplitOpen(text: string, from: nat, i: nat)
    requires from <= i < |text| && text[i] == '{'
    requires forall k :: from <= k < i ==> text[k] != '{'
    requires forall k :: i < k < |text| ==> text[k] != '}'
    ensures Split(text, from) == (CharsBits(text[from..i]), Some(text[i..]))
  {
    IndexFromIs(text, '{', from, i);
    SplitCaseOpen(text, from, i);
  }

  /** The text one bit stands for. */
  function BitText(b: Bit): string {
    match b
    case Parameter(name) => "{" + name + "}"
    case EventBit(e) => if e.Characters? then e.text else []
  }

  /** The text the bits of `Split` stand for: characters as they are, a parameter as `{name}`. */
  function Join(bits: seq<Bit>): string {
    if bits == [] then [] else Join(bits[..|bits| - 1]) + BitText(bits[|bits| - 1])
  }

  lemma JoinLast(bits: seq<Bit>)
    requires bits != []
    ensures Join(bits) == Join(bits[..|bits| - 1]) + BitText(bits[|bits| - 1])
  {
  }

  /** One more bit after `b` keeps `Join` distributing over `a + b`. */
  lemma JoinSnoc(a: seq<Bit>, b: seq<Bit>, x: Bit)
    requires Join(a + b) == Join(a) + Join(b)
    ensures Join(a + (b + [x])) == Join(a) + Join(b + [x])
  {
    hide *;
    var ab := a + (b + [x]);
    assert ab[..|ab| - 1] == a + b && ab[|ab| - 1] == x;
    assert (b + [x])[..|b|] == b;
    JoinLast(ab);
    JoinLast(b + [x]);
    var ja, jb, t := Join(a), Join(b), BitText(x);
    assert ja + jb + t == ja + (jb + t);
  }

  lemma {:induction false} JoinAppend(a: seq<Bit>, b: seq<Bit>)
    ensures Join(a + b) == Join(a) + Join(b)
    decreases |b|
  {
    if b == [] {
      assert a + b == a;
      assert Join(b) == [];
    } else {
      var b', x := b[..|b| - 1], b[|b| - 1];
      assert b == b' + [x];
      JoinAppend(a, b');
      JoinSnoc(a, b', x);
    }
  }

  function Carried(saved: Option<string>): string {
    if saved.None? then [] else saved.value
  }

  /** The text a split stands for: the text of its bits, then the carried-over text. */
  function Spelled(r: (seq<Bit>, Option<string>)): string {
    Join(r.0) + Carried(r.1)
  }

  lemma JoinChars(text: string)
    ensures Join(CharsBits(text)) == text
  {
    if text != [] {
      assert [EventBit(Characters(text))][..0] == [];
    }
  }

  lemma JoinPieces(before: string, name: string, bits: seq<Bit>)
    ensures Join(CharsBits(before) + [Parameter(name)] + bits) == before + ("{" + name + "}") + Join(bits)
  {
    JoinChars(before);
    assert [Parameter(name)][..0] == [];
    JoinAppend(CharsBits(before), [Parameter(name)]);
    JoinAppend(CharsBits(before) + [Parameter(name)], bits);
  }

  lemma TextPieces(text: string, from: nat, i: nat, j: nat)
    requires from <= i < j < |text| && text[i] == '{' && text[j] == '}'
    ensures text[from..] == text[from..i] + ("{" + text[i + 1..j] + "}") + text[j + 1..]
  {
    assert text[i..j + 1] == "{" + text[i + 1..j] + "}";
    assert text[from..] == text[from..i] + text[i..j + 1] + text[j + 1..];
  }

  lemma SpelledAt(text: string, from: nat, i: nat, j: nat, rest: (seq<Bit>, Option<string>))
    requires from <= i < j < |text| && text[i] == '{' && text[j] == '}'
    requires Spelled(rest) == text[j + 1..]
    ensures Spelled((CharsBits(text[from..i]) + [Parameter(text[i + 1..j])] + rest.0, rest.1)) == text[from..]
  {
    hide *;
    var before, name := text[from..i], text[i + 1..j];
    var bits := CharsBits(before) + [Parameter(name)] + rest.0;
    SpelledIs((bits, rest.1));
    SpelledIs(rest);
    JoinPieces(before, name, rest.0);
    TextPieces(text, from, i, j);
    var p, jr, cr := "{" + name + "}", Join(rest.0), Carried(rest.1);
    assert before + p + jr + cr == before + p + (jr + cr);
  }

  lemma SpelledIs(r: (seq<Bit>, Option<string>))
    ensures Spelled(r) == Join(r.0) + Carried(r.1)
  {
  }

  lemma SpelledOpen(text: string, from: nat, i: nat)
    requires from <= i <= |text|
    ensures Spelled((CharsBits(text[from..i]), Some(text[i..]))) == text[from..]
  {
    JoinChars(text[from..i]);
    assert text[from..] == text[from..i] + text[i..];
  }

  lemma RoundTripNone(text: string, from: nat)
    requires from <= |text| && IndexFrom(text, '{', from).None?
    ensures Spelled(Split(text, from)) == text[from..]
  {
    SplitCaseNone(text, from);
    JoinChars(text[from..]);
  }

  lemma RoundTripOpen(text: string, from: nat, i: nat)
    requires from <= |text| && IndexFrom(text, '{', from) == Some(i) && IndexFrom(text, '}', i + 1).None?
    ensures Spelled(Split(text, from)) == text[from..]
  {
    SplitCaseOpen(text, from, i);
    SpelledOpen(text, from, i);
  }

  lemma RoundTripClosed(text: string, from: nat, i: nat, j: nat)
    requires from <= |text| && IndexFrom(text, '{', from) == Some(i) && IndexFrom(text, '}', i + 1) == Some(j)
    requires Spelled(Split(text, j + 1)) == text[j + 1..]
    ensures Spelled(Split(text, from)) == text[from..]
  {
    SplitCaseClosed(text, from, i, j);
    SpelledAt(text, from, i, j, Split(text, j + 1));
  }

  /** Nothing is lost or invented: the bits and the carried-over text spell out the input. */
  lemma {:induction false} SplitRoundTrip(text: string, from: nat)
    requires from <= |text|
    ensures Spelled(Split(text, from)) == text[from..]
    decreases |text| - from
  {
    hide *;
    var open := IndexFrom(text, '{', from);
    if open.None? {
      RoundTripNone(text, from);
    } else {
      var close := IndexFrom(text, '}', open.value + 1);
      if close.None? {
        RoundTripOpen(text, from, open.value);
      } else {
        SplitRoundTrip(text, close.value + 1);
        RoundTripClosed(text, from, open.value, close.value);
      }
    }
  }

  /** `s` holds no `c`. */
  predicate Lacks(s: string, c: char) {
    forall k :: 0 <= k < |s| ==> s[k] != c
  }

  /** Characters bits are non-empty and hold no `{`; parameter names hold no `}`. */
  predicate WellBit(b: Bit) {
    (b.EventBit? && b.event.Characters? && b.event.text != [] && Lacks(b.event.text, '{'))
    || (b.Parameter? && Lacks(b.name, '}'))
  }

  predicate AllWell(bits: seq<Bit>) {
    forall k :: 0 <= k < |bits| ==> WellBit(bits[k])
  }

  lemma AllWellAppend(a: seq<Bit>, b: seq<Bit>)
    requires AllWell(a) && AllWell(b)
    ensures AllWell(a + b)
  {
    assert forall k :: 0 <= k < |a + b| ==> (a + b)[k] == if k < |a| then a[k] else b[k - |a|];
  }

  /** No `{` in the text before the first `{`, no `}` between it and the first `}` after it. */
  lemma ShapeNone(text: string, from: nat)
    requires from <= |text| && IndexFrom(text, '{', from).None?
    ensures AllWell(Split(text, from).0) && Split(text, from).1.None?
  {
    IndexFromFirst(text, '{', from);
    SplitCaseNone(text, from);
    assert Lacks(text[from..], '{');
  }

  lemma ShapeOpen(text: string, from: nat, i: nat)
    requires from <= |text| && IndexFrom(text, '{', from) == Some(i) && IndexFrom(text, '}', i + 1).None?
    ensures AllWell(Split(text, from).0)
    ensures Split(text, from).1 == Some(text[i..]) && text[i] == '{' && Lacks(text[i..][1..], '}')
  {
    IndexFromFirst(text, '{', from);
    IndexFromFirst(text, '}', i + 1);
    SplitCaseOpen(text, from, i);
    assert Lacks(text[from..i], '{');
    assert text[i..][1..] == text[i + 1..];
  }

  lemma ShapeClosed(text: string, from: nat, i: nat, j: nat)
    requires from <= |text| && IndexFrom(text, '{', from) == Some(i) && IndexFrom(text, '}', i + 1) == Some(j)
    requires AllWell(Split(text, j + 1).0)
    ensures AllWell(Split(text, from).0) && Split(text, from).1 == Split(text, j + 1).1
  {
    IndexFromFirst(text, '{', from);
    IndexFromFirst(text, '}', i + 1);
    SplitCaseClosed(text, from, i, j);
    assert Lacks(text[from..i], '{');
    assert Lacks(text[i + 1..j], '}');
    AllWellAppend(CharsBits(text[from..i]), [Parameter(text[i + 1..j])]);
    AllWellAppend(CharsBits(text[from..i]) + [Parameter(text[i + 1..j])], Split(text, j + 1).0);
  }

  /** The shape of what `characters` records, and carried-over text starts at an unclosed `{`. */
  lemma {:induction false} SplitShape(text: string, from: nat)
    requires from <= |text|
    ensures AllWell(Split(text, from).0)
    ensures Split(text, from).1.Some? ==> var s := Split(text, from).1.value; s != [] && s[0] == '{' && Lacks(s[1..], '}')
    decreases |text| - from
  {
    hide *;
    var open := IndexFrom(text, '{', from);
    if open.None? {
      ShapeNone(text, from);
    } else {
      var close := IndexFrom(text, '}', open.value + 1);
      if close.None? {
        ShapeOpen(text, from, open.value);
      } else {
        SplitShape(text, close.value + 1);
        ShapeClosed(text, from, open.value, close.value);
      }
    }
  }

  /** The inner loop of `characters`: the name up to the first `}` from `from` on, and where that `}` is (the end of the text when there is none). */
  method ParameterName(text: string, from: nat) returns (j: nat, name: string)
    requires from <= |text|
    ensures from <= j <= |text| && name == text[from..j]
    ensures j < |text| ==> text[j] == '}'
    ensures forall k :: from <= k < j ==> text[k] != '}'
  {
    name := [];
    j := from;
    while j < |text| && text[j] != '}'
      invariant from <= j <= |text| && name == text[from..j]
      invariant forall k :: from <= k < j ==> text[k] != '}'
    {
      name := name + [text[j]];
      j := j + 1;
    }
  }

  /** What `characters` has recorded of `text` once it has reached position `from`. */
  predicate Progress(done: seq<Bit>, text: string, from: nat) {
    from <= |text| && Split(text, 0).0 == done + Split(text, from).0 && Split(text, 0).1 == Split(text, from).1
  }

  lemma ProgressStart(text: string)
    ensures Progress([], text, 0)
  {
  }

  lemma ProgressClosed(done: seq<Bit>, after: seq<Bit>, text: string, from: nat, i: nat, j: nat)
    requires Progress(done, text, from)
    requires from <= i < j < |text| && text[i] == '{' && text[j] == '}'
    requires forall k :: from <= k < i ==> text[k] != '{'
    requires forall k :: i < k < j ==> text[k] != '}'
    requires after == done + CharsBits(text[from..i]) + [Parameter(text[i + 1..j])]
    ensures Progress(after, text, j + 1)
  {
    SplitAt(text, from, i, j);
    Associative(done, CharsBits(text[from..i]), [Parameter(text[i + 1..j])], Split(text, j + 1).0);
  }

  lemma Associative(a: seq<Bit>, b: seq<Bit>, c: seq<Bit>, d: seq<Bit>)
    ensures a + (b + c + d) == a + b + c + d
  {
  }

  lemma ProgressOpen(done: seq<Bit>, text: string, from: nat, i: nat)
    requires Progress(done, text, from)
    requires from <= i < |text| && text[i] == '{'
    requires forall k :: from <= k < i ==> text[k] != '{'
    requires forall k :: i < k < |text| ==> text[k] != '}'
    ensures Split(text, 0) == (done + CharsBits(text[from..i]), Some(text[i..]))
  {
    SplitOpen(text, from, i);
  }

  lemma ProgressEnd(done: seq<Bit>, text: string, from: nat)
    requires Progress(done, text, from)
    requires forall k :: from <= k < |text| ==> text[k] != '{'
    ensures Split(text, 0) == (done + CharsBits(text[from..]), None)
  {
    SplitPlain(text, from);
  }

  /** `flushChars`: carried-over text becomes a characters bit of its own. */
  function Flushed(saved: Option<string>): seq<Bit> {
    if saved.None? then [] else [EventBit(Characters(saved.value))]
  }

  /** The events before which carried-over text is flushed. */
  predicate Flushes(e: Event) {
    e.StartDocument? || e.EndDocument? || e.StartElement? || e.EndElement? || e.IgnorableWhitespace?
    || e.ProcessingInstruction? || e.StartDTD? || e.EndDTD? || e.Comment?
  }

  /**
   * `toSAX(handler, parameters)`: a parameter bit is replaced by a plain
   * replay of the buffer passed for its name, or by nothing; a `null` map
   * throws at the first parameter bit, after the bits before it were sent.
   */
  function ParamReplay(bits: seq<Bit>, lexical: bool, parameters: Option<map<string, seq<Bit>>>): (r: (seq<Event>, Outcome))
    decreases |bits|
  {
    if bits == [] then ([], Pass)
    else if bits[0].Parameter? && parameters.None? then ([], Fail(NullPointer))
    else
      var rest := ParamReplay(bits[1..], lexical, parameters);
      (ParamSend(bits[0], lexical, parameters) + rest.0, rest.1)
  }

  /** What one bit sends: a parameter bit the buffer passed for its name, any other bit itself. */
  function ParamSend(bit: Bit, lexical: bool, parameters: Option<map<string, seq<Bit>>>): (r: seq<Event>)
    requires bit.EventBit? || parameters.Some?
  {
    if bit.EventBit? then Send(bit, lexical)
    else if bit.name in parameters.value then Replay(parameters.value[bit.name], lexical)
    else []
  }

  lemma ParamReplayStep(bits: seq<Bit>, i: nat, lexical: bool, parameters: Option<map<string, seq<Bit>>>)
    requires i < |bits| && (bits[i].EventBit? || parameters.Some?)
    ensures ParamReplay(bits[i..], lexical, parameters) ==
      (ParamSend(bits[i], lexical, parameters) + ParamReplay(bits[i + 1..], lexical, parameters).0, ParamReplay(bits[i + 1..], lexical, parameters).1)
  {
    assert bits[i..][0] == bits[i] && bits[i..][1..] == bits[i + 1..];
  }

  lemma ParamReplayThrows(bits: seq<Bit>, i: nat, lexical: bool)
    requires i < |bits| && bits[i].Parameter?
    ensures ParamReplay(bits[i..], lexical, None) == ([], Fail(NullPointer))
  {
    assert bits[i..][0] == bits[i];
  }

  lemma SeqAssociative(a: seq<Event>, b: seq<Event>, c: seq<Event>)
    ensures a + b + c == a + (b + c)
  {
  }

  /** With a map, the replay of a concatenation is the concatenation of the replays, and never throws. */
  lemma {:induction false} ParamReplayAppend(a: seq<Bit>, b: seq<Bit>, lexical: bool, parameters: map<string, seq<Bit>>)
    ensures ParamReplay(a + b, lexical, Some(parameters)).0 == ParamReplay(a, lexical, Some(parameters)).0 + ParamReplay(b, lexical, Some(parameters)).0
    ensures ParamReplay(a, lexical, Some(parameters)).1 == Pass
    decreases |a|
  {
    if a != [] {
      assert (a + b)[0] == a[0] && (a + b)[1..] == a[1..] + b;
      ParamReplayAppend(a[1..], b, lexical, parameters);
    } else {
      assert a + b == b;
    }
  }

  /** Each parameter bit replays the buffer passed for its name, or nothing if the name is absent. */
  lemma ParamReplayParameter(bits: seq<Bit>, name: string, lexical: bool, parameters: map<string, seq<Bit>>)
    ensures ParamReplay(bits + [Parameter(name)], lexical, Some(parameters)).0 ==
      ParamReplay(bits, lexical, Some(parameters)).0 + (if name in parameters then Replay(parameters[name], lexical) else [])
  {
    ParamReplayAppend(bits, [Parameter(name)], lexical, parameters);
    var one := ParamReplay([Parameter(name)], lexical, Some(parameters));
    assert [Parameter(name)][1..] == [];
  }

  /** Without parameter bits, the parameterised replay is the plain one, whatever the map. */
  lemma {:induction false} ParamReplayPlain(bits: seq<Bit>, lexical: bool, parameters: Option<map<string, seq<Bit>>>)
    requires forall i :: 0 <= i < |bits| ==> bits[i].EventBit?
    ensures ParamReplay(bits, lexical, parameters) == (Replay(bits, lexical), Pass)
    decreases |bits|
  {
    if bits != [] {
      assert forall i :: 0 <= i < |bits[1..]| ==> bits[1..][i] == bits[i + 1];
      ParamReplayPlain(bits[1..], lexical, parameters);
      ReplayAppend([bits[0]], bits[1..], lexical);
      assert [bits[0]] + bits[1..] == bits;
      assert [bits[0]][..0] == [];
      assert Replay([bits[0]], lexical) == Send(bits[0], lexical);
      assert ParamReplay(bits, lexical, parameters).0 == Send(bits[0], lexical) + Replay(bits[1..], lexical);
    }
  }

  /** Without a map, the replay throws exactly when there is a parameter bit. */
  lemma {:induction false} ParamReplayWithoutMap(bits: seq<Bit>, lexical: bool)
    ensures ParamReplay(bits, lexical, None).1 == Pass <==> forall i :: 0 <= i < |bits| ==> bits[i].EventBit?
    ensures ParamReplay(bits, lexical, None).1 != Pass ==> ParamReplay(bits, lexical, None).1 == Fail(NullPointer)
    decreases |bits|
  {
    if bits != [] {
      ParamReplayWithoutMap(bits[1..], lexical);
      assert forall i :: 0 < i < |bits| ==> bits[i] == bits[1..][i - 1];
    }
  }

  class ParamSAXBuffer {
    var bits: seq<Bit>
    /** The text from an unclosed `{` of the last `characters` call. */
    var prevChar: Option<string>

    constructor ()
      ensures bits == [] && prevChar.None?
    {
      bits := [];
      prevChar := None;
    }

    constructor Of(buffer: SAXBuffer)
      ensures bits == buffer.bits && prevChar.None?
    {
      bits := buffer.bits;
      prevChar := None;
    }

    /** `characters(ch, start, length)`: splits the carried-over text followed by the slice. */
    method CharactersSlice(ch: seq<char>, start: nat, length: nat)
      requires start + length <= |ch|
      modifies this
      ensures var text := Carried(old(prevChar)) + ch[start..start + length];
        bits == old(bits) + Split(text, 0).0 && prevChar == Split(text, 0).1
    {
      var buf := ch[start..start + length];
      if prevChar.Some? {
        buf := prevChar.value + buf;
        prevChar := None;
      }
      assert buf == Carried(old(prevChar)) + ch[start..start + length];
      Scan(buf);
    }

    /** The scan of `characters` over the text with any carried-over text prepended. */
    method Scan(buf: string)
      requires prevChar.None?
      modifies this
      ensures bits == old(bits) + Split(buf, 0).0 && prevChar == Split(buf, 0).1
    {
      ProgressStart(buf);
      hide *;
      ghost var done: seq<Bit> := [];
      var s := 0;
      var i := 0;
      while i < |buf|
        invariant s <= i <= |buf|
        invariant forall k :: s <= k < i ==> buf[k] != '{'
        invariant bits == old(bits) + done && Progress(done, buf, s)
        invariant prevChar.None?
      {
        if buf[i] == '{' {
          ghost var before := done;
          // the characters before the `{`, when there are any
          bits := bits + CharsBits(buf[s..i]);
          done := done + CharsBits(buf[s..i]);
          var j, name := ParameterName(buf, i + 1);
          if j == |buf| {
            ProgressOpen(before, buf, s, i);
            prevChar := Some(buf[i..]);
            return;
          }
          bits := bits + [Parameter(name)];
          done := done + [Parameter(name)];
          ProgressClosed(before, done, buf, s, i, j);
          i := j + 1;
          s := j + 1;
        } else {
          i := i + 1;
        }
      }
      ProgressEnd(done, buf, s);
      bits := bits + CharsBits(buf[s..]);
    }

    /** Every other callback: structural events flush the carried-over text first; the others leave it in place. */
    method Handle(e: Event)
      modifies this
      ensures e.Characters? ==> bits == old(bits) + Split(Carried(old(prevChar)) + e.text, 0).0 && prevChar == Split(Carried(old(prevChar)) + e.text, 0).1
      ensures !e.Characters? && Flushes(e) ==> bits == old(bits) + Flushed(old(prevChar)) + Recorded(e) && prevChar.None?
      ensures !e.Characters? && !Flushes(e) ==> bits == old(bits) + Recorded(e) && prevChar == old(prevChar)
    {
      if e.Characters? {
        assert e.text[0..|e.text|] == e.text;
        CharactersSlice(e.text, 0, |e.text|);
        return;
      }
      if Flushes(e) {
        bits := bits + Flushed(prevChar);
        prevChar := None;
      }
      bits := bits + Recorded(e);
    }

    /** The recycle of `SAXBuffer`, which empties the bits but keeps any carried-over text. */
    method Recycle()
      modifies this
      ensures bits == [] && prevChar == old(prevChar)
    {
      bits := [];
    }

    /** `toSAX(handler, parameters)`. */
    method ToSax(lexical: bool, parameters: Option<map<string, seq<Bit>>>) returns (events: seq<Event>, outcome: Outcome)
      ensures (events, outcome) == ParamReplay(bits, lexical, parameters)
    {
      events := [];
      var i := 0;
      assert bits[0..] == bits;
      while i < |bits|
        invariant 0 <= i <= |bits|
        invariant events + ParamReplay(bits[i..], lexical, parameters).0 == ParamReplay(bits, lexical, parameters).0
        invariant ParamReplay(bits[i..], lexical, parameters).1 == ParamReplay(bits, lexical, parameters).1
      {
        var bit := bits[i];
        if bit.Parameter? && parameters.None? {
          ParamReplayThrows(bits, i, lexical);
          assert events + [] == events;
          return events, Fail(NullPointer);
        }
        ParamReplayStep(bits, i, lexical, parameters);
        ghost var before, sent, rest := events, ParamSend(bit, lexical, parameters), ParamReplay(bits[i + 1..], lexical, parameters);
        hide *;
        SeqAssociative(before, sent, rest.0);
        if bit.Parameter? {
          if bit.name in parameters.value {
            events := events + Replay(parameters.value[bit.name], lexical);
          } else {
            assert events + [] == events;
          }
        } else {
          events := events + Send(bit, lexical);
        }
        assert events == before + sent;
        i := i + 1;
      }
      assert bits[i..] == [];
      assert events + [] == events;
      return events, Pass;
    }
  }
}
