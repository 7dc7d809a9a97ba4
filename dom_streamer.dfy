/**
 * `DOMStreamer` and its namespace-normalizing streamer: a pre-order walk of
 * a DOM tree that emits SAX events, declaring on the way every namespace an
 * element or attribute uses and undeclaring a default namespace an element
 * in no namespace would otherwise inherit.
 */
module DomStreamers {
  import opened Wrappers
  import opened SaxEvents
  import opened DomNamespaces
  import JavaLang
  import Builders = SaxEventsBuilders

  /** `currentElementInfo` with its parents, and `newPrefixCounter`. */
  datatype Walker = Walker(chain: Chain, counter: nat)

  /** The record, attributes and prefix counter an element is started with. */
  datatype ElementStart = ElementStart(info: ElementInfo, attributes: seq<Attribute>, counter: nat)

  function StartOfElement(w: Walker, e: NodeType, ancestors: seq<Scope>): (r: ElementStart)
    requires e.ElementNode?
    ensures r.counter >= w.counter
  {
    var scopes := [ElementScope(e.attributes)] + ancestors;
    var declared := LocalDeclarations([], e.attributes);
    var naming := ElementNaming(e, scopes);
    var bound := BindElement(w.chain, declared, naming.prefix, naming.namespaceURI);
    var scan := AttributesFold(w.chain, scopes, AttributeScan([], bound, w.counter), e.attributes);
    var uri := OrEmpty(naming.namespaceURI);
    var qName := ElementQName(naming.prefix, naming.localName);
    ElementStart(ElementInfo(naming.localName, uri, qName, scan.declarations), scan.attributes, scan.counter)
  }

  /** `startNode` of an element: its declarations are mapped, then it is started, and its record pushed. */
  function StartElementSpec(w: Walker, e: NodeType, ancestors: seq<Scope>): (r: (seq<Event>, Walker))
    requires e.ElementNode?
    ensures |r.1.chain| == |w.chain| + 1 && r.1.chain[..|w.chain|] == w.chain && r.1.counter >= w.counter
  {
    var start := StartOfElement(w, e, ancestors);
    var info := start.info;
    assert (w.chain + [info])[..|w.chain|] == w.chain;
    (StartMappings(info.declarations) + [StartElement(info.namespaceURI, info.localName, info.qName, start.attributes)], Walker(w.chain + [info], start.counter))
  }

  /** `StartElementSpec` in terms of the three steps `startNode` takes: the element's names, its needed declarations, the attribute loop. */
  lemma StartElementIs(w: Walker, e: NodeType, ancestors: seq<Scope>, naming: Naming, bound: Declarations, scan: AttributeScan)
    requires e.ElementNode?
    requires naming == ElementNaming(e, [ElementScope(e.attributes)] + ancestors)
    requires bound == BindElement(w.chain, LocalDeclarations([], e.attributes), naming.prefix, naming.namespaceURI)
    requires scan == AttributesFold(w.chain, [ElementScope(e.attributes)] + ancestors, AttributeScan([], bound, w.counter), e.attributes)
    ensures var info := ElementInfo(naming.localName, OrEmpty(naming.namespaceURI), ElementQName(naming.prefix, naming.localName), scan.declarations);
      StartElementSpec(w, e, ancestors)
      == (StartMappings(scan.declarations) + [StartElement(info.namespaceURI, info.localName, info.qName, scan.attributes)], Walker(w.chain + [info], scan.counter))
  {
  }

  /** `startNode`; `lexical` says whether a lexical handler is set. */
  function StartNodeSpec(lexical: bool, w: Walker, node: NodeType, ancestors: seq<Scope>): (r: (seq<Event>, Walker))
    ensures node.ElementNode? ==> |r.1.chain| == |w.chain| + 1 && r.1.chain[..|w.chain|] == w.chain
    ensures !node.ElementNode? ==> r.1 == w
    ensures r.1.counter >= w.counter
  {
    match node
    case CommentNode(data) => (if lexical then [Comment(data)] else [], w)
    case FragmentNode => ([], w)
    case DocumentNode => ([], w)
    case ElementNode(_, _, _, _, _) => StartElementSpec(w, node, ancestors)
    case PINode(target, data) => ([ProcessingInstruction(target, data)], w)
    case CDataNode(data) => ((if lexical then [StartCDATA] else []) + [Characters(data)] + (if lexical then [EndCDATA] else []), w)
    case TextNode(data) => ([Characters(data)], w)
    case EntityReferenceNode(name) => (if lexical then [StartEntity(name)] else [], w)
    case OtherNode => ([], w)
  }

  /** `endNode`: an element is closed with the names recorded when it was started, and its declarations are unmapped. */
  function EndNodeSpec(lexical: bool, w: Walker, node: NodeType): (r: (seq<Event>, Walker))
    requires node.ElementNode? ==> w.chain != []
    ensures node.ElementNode? ==> r.1 == Walker(w.chain[..|w.chain| - 1], w.counter)
    ensures !node.ElementNode? ==> r.1 == w
  {
    match node
    case ElementNode(_, _, _, _, _) =>
      var info := w.chain[|w.chain| - 1];
      ([EndElement(info.namespaceURI, info.localName, info.qName)] + EndMappings(info.declarations), Walker(w.chain[..|w.chain| - 1], w.counter))
    case EntityReferenceNode(name) => (if lexical then [EndEntity(name)] else [], w)
    case _ => ([], w)
  }

  /** A node and its subtree, in document order; the element chain is as it was afterwards. */
  function Walk(lexical: bool, w: Walker, node: Node, ancestors: seq<Scope>): (r: (seq<Event>, Walker))
    ensures r.1.chain == w.chain && r.1.counter >= w.counter
    decreases node
  {
    var start := StartNodeSpec(lexical, w, node.nodeType, ancestors);
    var children := WalkAll(lexical, start.1, node.children, [ScopeOf(node)] + ancestors);
    var end := EndNodeSpec(lexical, children.1, node.nodeType);
    (start.0 + children.0 + end.0, end.1)
  }

  function WalkAll(lexical: bool, w: Walker, nodes: seq<Node>, ancestors: seq<Scope>): (r: (seq<Event>, Walker))
    ensures r.1.chain == w.chain && r.1.counter >= w.counter
    decreases nodes
  {
    if nodes == [] then ([], w)
    else
      var first := Walk(lexical, w, nodes[0], ancestors);
      var rest := WalkAll(lexical, first.1, nodes[1..], ancestors);
      (first.0 + rest.0, rest.1)
  }

  /** One unfolding of `Walk`. */
  lemma WalkUnrolled(lexical: bool, w: Walker, node: Node, ancestors: seq<Scope>)
    ensures var start := StartNodeSpec(lexical, w, node.nodeType, ancestors);
      var children := WalkAll(lexical, start.1, node.children, [ScopeOf(node)] + ancestors);
      var end := EndNodeSpec(lexical, children.1, node.nodeType);
      Walk(lexical, w, node, ancestors) == (start.0 + children.0 + end.0, end.1)
  {
  }

  /** One unfolding of `WalkAll`. */
  lemma WalkAllUnrolled(lexical: bool, w: Walker, nodes: seq<Node>, ancestors: seq<Scope>)
    ensures nodes == [] ==> WalkAll(lexical, w, nodes, ancestors) == ([], w)
    ensures nodes != [] ==> var first := Walk(lexical, w, nodes[0], ancestors);
      var rest := WalkAll(lexical, first.1, nodes[1..], ancestors);
      WalkAll(lexical, w, nodes, ancestors) == (first.0 + rest.0, rest.1)
  {
  }

  /** `stream`: `startDocument` and `endDocument` around the walk only when the node is a document. */
  function StreamSpec(lexical: bool, w: Walker, node: Node, ancestors: seq<Scope>): (seq<Event>, Walker) {
    var isDoc := node.nodeType.DocumentNode?;
    var walk := Walk(lexical, w, node, ancestors);
    ((if isDoc then [StartDocument] else []) + walk.0 + (if isDoc then [EndDocument] else []), walk.1)
  }

  // ---------------------------------------------------------------------
  // Properties

  /**
   * The prefix generated for a namespaced attribute is not checked against
   * the element's own binding: an element `NS1:e` in namespace X whose
   * attribute needs a prefix for namespace Y gets `NS1` rebound to Y,
   * while its start tag still names `NS1:e` in namespace X.
   */
  lemma GeneratedPrefixClash()
    ensures var e := ElementNode("NS1:e", Some("e"), Some("NS1"), Some("X"), [Attr("a", Some("a"), None, Some("Y"), "v")]);
      var start := StartOfElement(Walker([], 0), e, []);
      start.info.declarations == [("NS1", "Y")] && start.info.qName == "NS1:e" && start.info.namespaceURI == "X"
      && FindNamespaceURI([start.info], "NS1") == Some("Y")
  {
    var a := Attr("a", Some("a"), None, Some("Y"), "v");
    var e := ElementNode("NS1:e", Some("e"), Some("NS1"), Some("X"), [a]);
    var scopes := [ElementScope(e.attributes)];
    assert !IsNamespaceDeclaration("a") by {
      assert "a" != XmlnsPrefix;
    }
    assert LocalDeclarations([], [a]) == [] by {
      assert [a][1..] == [];
    }
    var bound := BindElement([], [], Some("NS1"), Some("X"));
    assert bound == [("NS1", "X")] by {
      assert FindNamespaceURI(Pending([], []), "NS1") == None by {
        assert Pending([], [])[..0] == [];
      }
    }
    assert GeneratedPrefix(1) == "NS1" by {
      assert JavaLang.NatToDigits(1) == "1";
      assert JavaLang.IntToString(1) == "1";
    }
    var chain := Pending([], bound);
    assert FindPrefix(chain, "Y") == None by {
      assert GetPrefix(bound, "Y") == None;
      assert chain[..0] == [];
    }
    var x := AssignPrefix([], bound, 0, None, "Y");
    assert x == Assignment("NS1", [("NS1", "Y")], 1);
    var scan := AttributeStep([], scopes, AttributeScan([], bound, 0), a);
    assert scan.declarations == [("NS1", "Y")];
    assert AttributesFold([], scopes, AttributeScan([], bound, 0), [a]) == scan by {
      assert [a][1..] == [];
    }
    assert ElementQName(Some("NS1"), "e") == "NS1:e" by {
      assert JavaLang.Trim("NS1") == "NS1";
    }
    assert [ElementScope(e.attributes)] + [] == scopes;
    assert ElementNaming(e, scopes) == Naming(Some("NS1"), "e", Some("X"));
    var info := StartOfElement(Walker([], 0), e, []).info;
    assert info.declarations == [("NS1", "Y")];
    assert [info][..0] == [];
  }

  /** After its start, an element's prefix is bound to its namespace, unless the prefix has the shape of a generated one. */
  lemma ElementNamespaceInScope(w: Walker, e: NodeType, ancestors: seq<Scope>)
    requires e.ElementNode?
    requires ElementNaming(e, [ElementScope(e.attributes)] + ancestors).namespaceURI.Some?
    requires !GeneratedShape(OrEmpty(ElementNaming(e, [ElementScope(e.attributes)] + ancestors).prefix))
    ensures var naming := ElementNaming(e, [ElementScope(e.attributes)] + ancestors);
      FindNamespaceURI(StartElementSpec(w, e, ancestors).1.chain, OrEmpty(naming.prefix)) == naming.namespaceURI
  {
    var scopes := [ElementScope(e.attributes)] + ancestors;
    var declared := LocalDeclarations([], e.attributes);
    var naming := ElementNaming(e, scopes);
    var p := OrEmpty(naming.prefix);
    var bound := BindElement(w.chain, declared, naming.prefix, naming.namespaceURI);
    ElementBound(w.chain, declared, naming.prefix, naming.namespaceURI);
    var st := AttributeScan([], bound, w.counter);
    AttributesFoldKeeps(w.chain, scopes, st, e.attributes, p);
    var scan := AttributesFold(w.chain, scopes, st, e.attributes);
    var chain := StartElementSpec(w, e, ancestors).1.chain;
    FindTop(w.chain, chain[|w.chain|], p);
    FindTop(w.chain, ElementInfo("", "", "", scan.declarations), p);
    assert chain == w.chain + [chain[|w.chain|]];
  }

  predicate NoDocumentEvents(events: seq<Event>) {
    forall i :: 0 <= i < |events| ==> !events[i].StartDocument? && !events[i].EndDocument?
  }

  predicate NoElementEvents(events: seq<Event>) {
    forall i :: 0 <= i < |events| ==> !events[i].StartElement? && !events[i].EndElement?
  }

  lemma AppendNoDocumentEvents(a: seq<Event>, b: seq<Event>)
    requires NoDocumentEvents(a) && NoDocumentEvents(b)
    ensures NoDocumentEvents(a + b)
  {
    forall i | 0 <= i < |a + b| ensures !(a + b)[i].StartDocument? && !(a + b)[i].EndDocument? {
      if i >= |a| {
        assert (a + b)[i] == b[i - |a|];
      }
    }
  }

  /** The events of an element, with its start record and its children's events. */
  lemma ElementShape(lexical: bool, w: Walker, node: Node, ancestors: seq<Scope>)
    requires node.nodeType.ElementNode?
    ensures var start := StartOfElement(w, node.nodeType, ancestors); var info := start.info;
      var kids := WalkAll(lexical, Walker(w.chain + [info], start.counter), node.children, [ScopeOf(node)] + ancestors).0;
      Walk(lexical, w, node, ancestors).0
        == StartMappings(info.declarations) + ([StartElement(info.namespaceURI, info.localName, info.qName, start.attributes)]
           + (kids + ([EndElement(info.namespaceURI, info.localName, info.qName)] + EndMappings(info.declarations))))
  {
    hide StartOfElement;
    var start := StartOfElement(w, node.nodeType, ancestors);
    var info := start.info;
    var s := StartElement(info.namespaceURI, info.localName, info.qName, start.attributes);
    var first := StartNodeSpec(lexical, w, node.nodeType, ancestors);
    assert first == StartElementSpec(w, node.nodeType, ancestors);
    assert first == (StartMappings(info.declarations) + [s], Walker(w.chain + [info], start.counter));
    var children := WalkAll(lexical, first.1, node.children, [ScopeOf(node)] + ancestors);
    var end := EndNodeSpec(lexical, children.1, node.nodeType);
    assert Walk(lexical, w, node, ancestors).0 == first.0 + children.0 + end.0;
    assert children.1.chain == w.chain + [info];
    assert end.0 == [EndElement(info.namespaceURI, info.localName, info.qName)] + EndMappings(info.declarations);
    hide *;
    assert first.0 + children.0 + end.0 == StartMappings(info.declarations) + ([s] + (children.0 + end.0));
  }

  lemma MappingsNoOtherEvents(d: Declarations)
    ensures NoElementEvents(StartMappings(d)) && NoElementEvents(EndMappings(d))
    ensures NoDocumentEvents(StartMappings(d)) && NoDocumentEvents(EndMappings(d))
  {
  }

  lemma StartNodeOthers(lexical: bool, w: Walker, node: NodeType, ancestors: seq<Scope>)
    ensures NoDocumentEvents(StartNodeSpec(lexical, w, node, ancestors).0)
    ensures !node.ElementNode? ==> NoElementEvents(StartNodeSpec(lexical, w, node, ancestors).0)
  {
    var out := StartNodeSpec(lexical, w, node, ancestors).0;
    if node.CDataNode? {
      assert out == (if lexical then [StartCDATA] else []) + [Characters(node.data)] + (if lexical then [EndCDATA] else []);
      assert forall i :: 0 <= i < |out| ==> out[i] in {StartCDATA, Characters(node.data), EndCDATA};
    } else if node.ElementNode? {
      var start := StartOfElement(w, node, ancestors);
      MappingsNoOtherEvents(start.info.declarations);
      assert out == StartMappings(start.info.declarations) + [StartElement(start.info.namespaceURI, start.info.localName, start.info.qName, start.attributes)];
      AppendNoDocumentEvents(StartMappings(start.info.declarations), [StartElement(start.info.namespaceURI, start.info.localName, start.info.qName, start.attributes)]);
    }
  }

  lemma EndNodeOthers(lexical: bool, w: Walker, node: NodeType)
    requires node.ElementNode? ==> w.chain != []
    ensures NoDocumentEvents(EndNodeSpec(lexical, w, node).0)
    ensures !node.ElementNode? ==> NoElementEvents(EndNodeSpec(lexical, w, node).0)
  {
    if node.ElementNode? {
      var info := w.chain[|w.chain| - 1];
      MappingsNoOtherEvents(info.declarations);
      AppendNoDocumentEvents([EndElement(info.namespaceURI, info.localName, info.qName)], EndMappings(info.declarations));
    }
  }

  lemma {:induction false} WalkNoDocumentEvents(lexical: bool, w: Walker, node: Node, ancestors: seq<Scope>)
    ensures NoDocumentEvents(Walk(lexical, w, node, ancestors).0)
    decreases node
  {
    var start := StartNodeSpec(lexical, w, node.nodeType, ancestors);
    var children := WalkAll(lexical, start.1, node.children, [ScopeOf(node)] + ancestors);
    StartNodeOthers(lexical, w, node.nodeType, ancestors);
    WalkAllNoDocumentEvents(lexical, start.1, node.children, [ScopeOf(node)] + ancestors);
    EndNodeOthers(lexical, children.1, node.nodeType);
    var end := EndNodeSpec(lexical, children.1, node.nodeType);
    AppendNoDocumentEvents(start.0, children.0);
    AppendNoDocumentEvents(start.0 + children.0, end.0);
  }

  lemma {:induction false} WalkAllNoDocumentEvents(lexical: bool, w: Walker, nodes: seq<Node>, ancestors: seq<Scope>)
    ensures NoDocumentEvents(WalkAll(lexical, w, nodes, ancestors).0)
    decreases nodes
  {
    if nodes != [] {
      var first := Walk(lexical, w, nodes[0], ancestors);
      WalkNoDocumentEvents(lexical, w, nodes[0], ancestors);
      WalkAllNoDocumentEvents(lexical, first.1, nodes[1..], ancestors);
      AppendNoDocumentEvents(first.0, WalkAll(lexical, first.1, nodes[1..], ancestors).0);
    }
  }

  /** `startDocument` and `endDocument` are emitted exactly when a document node is streamed, first and last. */
  lemma StreamDocumentEvents(lexical: bool, w: Walker, node: Node, ancestors: seq<Scope>)
    ensures var out := StreamSpec(lexical, w, node, ancestors).0;
      (exists i :: 0 <= i < |out| && out[i].StartDocument?) <==> node.nodeType.DocumentNode?
    ensures var out := StreamSpec(lexical, w, node, ancestors).0;
      node.nodeType.DocumentNode? ==> |out| >= 2 && out[0] == StartDocument && out[|out| - 1] == EndDocument
  {
    var walk := Walk(lexical, w, node, ancestors).0;
    WalkNoDocumentEvents(lexical, w, node, ancestors);
    var out := StreamSpec(lexical, w, node, ancestors).0;
    if node.nodeType.DocumentNode? {
      assert out == [StartDocument] + walk + [EndDocument];
      assert out[0].StartDocument?;
    } else {
      assert out == [] + walk + [];
      assert out == walk;
    }
  }

  lemma {:induction false} OthersNest(events: seq<Event>, rest: seq<Event>, open: seq<Builders.Name>)
    requires NoElementEvents(events)
    ensures Builders.Nest(events + rest, open) == Builders.Nest(rest, open)
    decreases |events|
  {
    if events == [] {
      assert events + rest == rest;
    } else {
      assert events + rest == [events[0]] + (events[1..] + rest);
      Builders.NestOther(events[0], events[1..] + rest, open);
      assert NoElementEvents(events[1..]) by {
        forall i | 0 <= i < |events[1..]| ensures !events[1..][i].StartElement? && !events[1..][i].EndElement? {
          assert events[1..][i] == events[i + 1];
        }
      }
      OthersNest(events[1..], rest, open);
    }
  }

  /** An element's start and end around events that leave the stack as they find it. */
  lemma NestBracket(pre: seq<Event>, s: Event, mid: seq<Event>, e: Event, post: seq<Event>, rest: seq<Event>, open: seq<Builders.Name>)
    requires NoElementEvents(pre) && NoElementEvents(post)
    requires s.StartElement? && e.EndElement? && (s.uri, s.localName, s.qName) == (e.uri, e.localName, e.qName)
    requires Builders.Nest(mid + ([e] + (post + rest)), open + [(s.uri, s.localName, s.qName)])
      == Builders.Nest([e] + (post + rest), open + [(s.uri, s.localName, s.qName)])
    ensures Builders.Nest(pre + ([s] + (mid + ([e] + post))) + rest, open) == Builders.Nest(rest, open)
  {
    var name := (s.uri, s.localName, s.qName);
    assert pre + ([s] + (mid + ([e] + post))) + rest == pre + ([s] + (mid + ([e] + (post + rest))));
    OthersNest(pre, [s] + (mid + ([e] + (post + rest))), open);
    Builders.NestStart(s, mid + ([e] + (post + rest)), open);
    Builders.NestEnd(e, post + rest, open, name);
    OthersNest(post, rest, open);
  }

  lemma {:induction false} WalkNests(lexical: bool, w: Walker, node: Node, ancestors: seq<Scope>, rest: seq<Event>, open: seq<Builders.Name>)
    ensures Builders.Nest(Walk(lexical, w, node, ancestors).0 + rest, open) == Builders.Nest(rest, open)
    decreases node
  {
    if node.nodeType.ElementNode? {
      var start := StartOfElement(w, node.nodeType, ancestors);
      var info := start.info;
      var kids := WalkAll(lexical, Walker(w.chain + [info], start.counter), node.children, [ScopeOf(node)] + ancestors).0;
      ElementShape(lexical, w, node, ancestors);
      var s := StartElement(info.namespaceURI, info.localName, info.qName, start.attributes);
      var e := EndElement(info.namespaceURI, info.localName, info.qName);
      MappingsNoOtherEvents(info.declarations);
      WalkAllNests(lexical, Walker(w.chain + [info], start.counter), node.children, [ScopeOf(node)] + ancestors,
                   [e] + (EndMappings(info.declarations) + rest), open + [(s.uri, s.localName, s.qName)]);
      NestBracket(StartMappings(info.declarations), s, kids, e, EndMappings(info.declarations), rest, open);
    } else {
      var first := StartNodeSpec(lexical, w, node.nodeType, ancestors);
      var children := WalkAll(lexical, first.1, node.children, [ScopeOf(node)] + ancestors);
      var end := EndNodeSpec(lexical, children.1, node.nodeType);
      assert Walk(lexical, w, node, ancestors).0 + rest == first.0 + (children.0 + (end.0 + rest));
      StartNodeOthers(lexical, w, node.nodeType, ancestors);
      EndNodeOthers(lexical, children.1, node.nodeType);
      OthersNest(end.0, rest, open);
      WalkAllNests(lexical, first.1, node.children, [ScopeOf(node)] + ancestors, end.0 + rest, open);
      OthersNest(first.0, children.0 + (end.0 + rest), open);
    }
  }

  lemma {:induction false} WalkAllNests(lexical: bool, w: Walker, nodes: seq<Node>, ancestors: seq<Scope>, rest: seq<Event>, open: seq<Builders.Name>)
    ensures Builders.Nest(WalkAll(lexical, w, nodes, ancestors).0 + rest, open) == Builders.Nest(rest, open)
    decreases nodes
  {
    hide StartOfElement;
    if nodes == [] {
      assert WalkAll(lexical, w, nodes, ancestors).0 + rest == rest;
    } else {
      var first := Walk(lexical, w, nodes[0], ancestors);
      var others := WalkAll(lexical, first.1, nodes[1..], ancestors);
      assert WalkAll(lexical, w, nodes, ancestors).0 + rest == first.0 + (others.0 + rest);
      WalkNests(lexical, w, nodes[0], ancestors, others.0 + rest, open);
      WalkAllNests(lexical, first.1, nodes[1..], ancestors, rest, open);
    }
  }

  /** What is streamed from any node closes every element it opens, with the same names, innermost first. */
  lemma WalkBalanced(lexical: bool, w: Walker, node: Node, ancestors: seq<Scope>)
    ensures Builders.Balanced(Walk(lexical, w, node, ancestors).0)
  {
    WalkNests(lexical, w, node, ancestors, [], []);
    assert Walk(lexical, w, node, ancestors).0 + [] == Walk(lexical, w, node, ancestors).0;
  }

  /**
   * An element's declarations are mapped before its `startElement`, in
   * order, and unmapped after its `endElement`, prefix by prefix.
   */
  lemma ElementMappings(lexical: bool, w: Walker, node: Node, ancestors: seq<Scope>)
    requires node.nodeType.ElementNode?
    ensures var out := Walk(lexical, w, node, ancestors).0;
      var d := StartOfElement(w, node.nodeType, ancestors).info.declarations;
      |out| >= 2 * |d| + 2 && out[|d|].StartElement? && out[|out| - |d| - 1].EndElement?
      && out[..|d|] == StartMappings(d) && out[|out| - |d|..] == EndMappings(d)
  {
    hide *;
    var start := StartOfElement(w, node.nodeType, ancestors);
    var info := start.info;
    var d := info.declarations;
    var s := StartElement(info.namespaceURI, info.localName, info.qName, start.attributes);
    var e := EndElement(info.namespaceURI, info.localName, info.qName);
    var kids := WalkAll(lexical, Walker(w.chain + [info], start.counter), node.children, [ScopeOf(node)] + ancestors).0;
    ElementShape(lexical, w, node, ancestors);
    MappingIndices(d, s, kids, e);
    var out := Walk(lexical, w, node, ancestors).0;
    assert out == StartMappings(d) + ([s] + (kids + ([e] + EndMappings(d))));
  }

  lemma MappingIndices(d: Declarations, s: Event, kids: seq<Event>, e: Event)
    ensures var out := StartMappings(d) + ([s] + (kids + ([e] + EndMappings(d))));
      |out| >= 2 * |d| + 2 && out[|d|] == s && out[|out| - |d| - 1] == e
      && out[..|d|] == StartMappings(d) && out[|out| - |d|..] == EndMappings(d)
  {
    hide *;
    FramedIndices(StartMappings(d), s, kids, e, EndMappings(d));
  }

  /** Where the parts of `a`, `s`, `kids`, `e`, `b` sit in their concatenation. */
  lemma FramedIndices(a: seq<Event>, s: Event, kids: seq<Event>, e: Event, b: seq<Event>)
    requires |a| == |b|
    ensures var out := a + ([s] + (kids + ([e] + b)));
      |out| >= 2 * |a| + 2 && out[|a|] == s && out[|out| - |a| - 1] == e
      && out[..|a|] == a && out[|out| - |a|..] == b
  {
    var tail := [e] + b;
    var out := a + ([s] + (kids + tail));
    assert out == a + [s] + kids + tail;
    assert out[|out| - |a|..] == tail[1..];
    assert out[|out| - |a| - 1] == tail[0];
  }

  // ---------------------------------------------------------------------
  // The streamer

  class NamespaceNormalizingDOMStreamer {
    /** `currentElementInfo` and its parents, outermost first. */
    var chain: Chain
    var newPrefixCounter: nat
    /** Whether a lexical handler is set. */
    const lexical: bool
    /** The events the handlers received. */
    var output: seq<Event>

    function State(): Walker
      reads this
    {
      Walker(chain, newPrefixCounter)
    }

    constructor (lexical: bool)
      ensures State() == Walker([], 0) && this.lexical == lexical && output == []
    {
      chain := [];
      newPrefixCounter := 0;
      this.lexical := lexical;
      output := [];
    }

    /** `recycle()`: no open element, and generated prefixes start again at `NS1`. */
    method Recycle()
      modifies this
      ensures State() == Walker([], 0) && output == old(output)
    {
      chain := [];
      newPrefixCounter := 0;
    }

    /** `getNamespaceForPrefix`: the walk up from the element itself through the DOM. */
    method GetNamespaceForPrefix(prefix: Option<string>, scopes: seq<Scope>) returns (namespace: Option<string>)
      ensures namespace == NamespaceForPrefix(prefix, scopes)
    {
      var p := if prefix.Some? then prefix.value else "";
      namespace := None;
      if p == XmlPrefix {
        namespace := Some(XmlNamespace);
      } else if p == XmlnsPrefix {
        namespace := Some(XmlnsNamespace);
      } else {
        var declName := DeclarationName(p);
        var k := 0;
        while k < |scopes| && (scopes[k].ElementScope? || scopes[k].EntityReferenceScope?)
          invariant 0 <= k <= |scopes| && namespace.None?
          invariant ResolveIn(declName, scopes[k..]) == ResolveIn(declName, scopes)
          decreases |scopes| - k
        {
          assert scopes[k..][1..] == scopes[k + 1..];
          if scopes[k].ElementScope? {
            var attr := AttributeNode(scopes[k].attributes, declName);
            if attr.Some? {
              namespace := Some(attr.value.value);
              break;
            }
          }
          k := k + 1;
        }
        if namespace.None? && k < |scopes| {
          assert scopes[k..][0] == scopes[k];
        }
      }
    }

    /** The first attribute loop of `startNode`: the prefixes the element declares itself. */
    method CollectDeclarations(attrs: seq<Attr>) returns (declarations: Declarations)
      ensures declarations == LocalDeclarations([], attrs)
    {
      declarations := [];
      var i := 0;
      while i < |attrs|
        invariant 0 <= i <= |attrs|
        invariant LocalDeclarations(declarations, attrs[i..]) == LocalDeclarations([], attrs)
      {
        assert attrs[i..][1..] == attrs[i + 1..];
        if IsNamespaceDeclaration(attrs[i].nodeName) {
          declarations := Put(declarations, DeclaredPrefix(attrs[i].nodeName), attrs[i].value);
        }
        i := i + 1;
      }
      assert attrs[i..] == [];
    }

    /** The second attribute loop of `startNode`: every other attribute, with the prefix it is given. */
    method ConvertAttributes(parent: Chain, scopes: seq<Scope>, initial: AttributeScan, attrs: seq<Attr>) returns (scan: AttributeScan)
      ensures scan == AttributesFold(parent, scopes, initial, attrs)
    {
      scan := initial;
      var i := 0;
      while i < |attrs|
        invariant 0 <= i <= |attrs|
        invariant AttributesFold(parent, scopes, scan, attrs[i..]) == AttributesFold(parent, scopes, initial, attrs)
      {
        assert attrs[i..][1..] == attrs[i + 1..];
        if !IsNamespaceDeclaration(attrs[i].nodeName) {
          scan := AttributeStep(parent, scopes, scan, attrs[i]);
        }
        i := i + 1;
      }
      assert attrs[i..] == [];
    }

    /** A `startPrefixMapping` per declaration, in order. */
    method MapPrefixes(declarations: Declarations)
      modifies this
      ensures output == old(output) + StartMappings(declarations) && State() == old(State())
    {
      var mappings := StartMappings(declarations);
      var i := 0;
      while i < |declarations|
        invariant 0 <= i <= |declarations|
        invariant output == old(output) + mappings[..i] && State() == old(State())
      {
        assert mappings[..i + 1] == mappings[..i] + [mappings[i]];
        output := output + [StartPrefixMapping(Some(declarations[i].0), declarations[i].1)];
        i := i + 1;
      }
      assert mappings[..i] == mappings;
    }

    /** An `endPrefixMapping` per declaration, in order. */
    method UnmapPrefixes(declarations: Declarations)
      modifies this
      ensures output == old(output) + EndMappings(declarations) && State() == old(State())
    {
      var ends := EndMappings(declarations);
      var i := 0;
      while i < |declarations|
        invariant 0 <= i <= |declarations|
        invariant output == old(output) + ends[..i] && State() == old(State())
      {
        assert ends[..i + 1] == ends[..i] + [ends[i]];
        output := output + [EndPrefixMapping(Some(declarations[i].0))];
        i := i + 1;
      }
      assert ends[..i] == ends;
    }

    /** The element's own names, and the declarations it needs for them: lines 326-377 of `startNode`. */
    method BindNames(e: NodeType, scopes: seq<Scope>) returns (naming: Naming, declarations: Declarations)
      requires e.ElementNode?
      ensures naming == ElementNaming(e, scopes)
      ensures declarations == BindElement(chain, LocalDeclarations([], e.attributes), naming.prefix, naming.namespaceURI)
    {
      declarations := CollectDeclarations(e.attributes);
      if e.localName.None? {
        var split := PrefixAndLocalName(e.nodeName);
        var namespaceURI := GetNamespaceForPrefix(split.0, scopes);
        naming := Naming(split.0, split.1, namespaceURI);
      } else {
        naming := Naming(e.prefix, e.localName.value, e.namespaceURI);
      }
      if naming.namespaceURI.Some? {
        var uri := FindNamespaceURI(Pending(chain, declarations), OrEmpty(naming.prefix));
        if uri != naming.namespaceURI {
          declarations := Put(declarations, OrEmpty(naming.prefix), naming.namespaceURI.value);
        }
      } else {
        var uri := FindNamespaceURI(Pending(chain, declarations), "");
        if uri.Some? && JavaLang.Trim(uri.value) != "" {
          declarations := Put(declarations, "", "");
        }
      }
    }

    /** `startNode` of an element. */
    method StartElementNode(e: NodeType, ancestors: seq<Scope>)
      requires e.ElementNode?
      modifies this
      ensures (output, State()) == (old(output) + StartElementSpec(old(State()), e, ancestors).0, StartElementSpec(old(State()), e, ancestors).1)
    {
      hide StartElementSpec, StartOfElement, StartMappings, AttributesFold, BindElement, ElementNaming, LocalDeclarations;
      ghost var initial, w := output, State();
      var scopes := [ElementScope(e.attributes)] + ancestors;
      var naming, bound := BindNames(e, scopes);
      var qName := ElementQName(naming.prefix, naming.localName);
      var scan := ConvertAttributes(chain, scopes, AttributeScan([], bound, newPrefixCounter), e.attributes);
      var uri := OrEmpty(naming.namespaceURI);
      var info := ElementInfo(naming.localName, uri, qName, scan.declarations);
      var started := Event.StartElement(uri, naming.localName, qName, scan.attributes);
      StartElementIs(w, e, ancestors, naming, bound, scan);
      ghost var mappings := StartMappings(info.declarations);
      MapPrefixes(info.declarations);
      output := output + [started];
      chain := chain + [info];
      newPrefixCounter := scan.counter;
      assert output == initial + mappings + [started];
      assert initial + mappings + [started] == initial + (mappings + [started]);
    }

    /** `endNode`; an element with no record (`currentElementInfo == null`) fails with a `NullPointerException`. */
    method EndNode(node: NodeType) returns (r: Outcome)
      modifies this
      ensures node.ElementNode? && old(chain) == [] ==> r == Fail(NullPointer) && State() == old(State()) && output == old(output)
      ensures !(node.ElementNode? && old(chain) == []) ==>
        r == Pass && (output, State()) == (old(output) + EndNodeSpec(lexical, old(State()), node).0, EndNodeSpec(lexical, old(State()), node).1)
    {
      match node
      case ElementNode(_, _, _, _, _) =>
        if chain == [] {
          return Fail(NullPointer);
        }
        ghost var initial := output;
        var info := chain[|chain| - 1];
        output := output + [Event.EndElement(info.namespaceURI, info.localName, info.qName)];
        UnmapPrefixes(info.declarations);
        assert output == initial + ([Event.EndElement(info.namespaceURI, info.localName, info.qName)] + EndMappings(info.declarations));
        chain := chain[..|chain| - 1];
        return Pass;
      case EntityReferenceNode(name) =>
        if lexical {
          output := output + [EndEntity(name)];
        } else {
          assert output + [] == output;
        }
        return Pass;
      case _ =>
        assert output + [] == output;
        return Pass;
    }

    /** `startNode`. */
    method StartNode(node: NodeType, ancestors: seq<Scope>)
      modifies this
      ensures (output, State()) == (old(output) + StartNodeSpec(lexical, old(State()), node, ancestors).0, StartNodeSpec(lexical, old(State()), node, ancestors).1)
    {
      match node
      case ElementNode(_, _, _, _, _) =>
        StartElementNode(node, ancestors);
      case CommentNode(data) =>
        if lexical {
          output := output + [Event.Comment(data)];
        } else {
          assert output + [] == output;
        }
      case PINode(target, data) =>
        output := output + [Event.ProcessingInstruction(target, data)];
      case CDataNode(data) =>
        ghost var before := output;
        if lexical {
          output := output + [StartCDATA];
        }
        output := output + [Event.Characters(data)];
        if lexical {
          output := output + [EndCDATA];
        }
        assert output == before + ((if lexical then [StartCDATA] else []) + [Event.Characters(data)] + (if lexical then [EndCDATA] else []));
      case TextNode(data) =>
        output := output + [Event.Characters(data)];
      case EntityReferenceNode(name) =>
        if lexical {
          output := output + [StartEntity(name)];
        } else {
          assert output + [] == output;
        }
      case _ =>
        assert output + [] == output;
    }

    /** The pre-order walk of `stream`: a node, its children in order, then the end of the node. */
    method WalkNode(node: Node, ancestors: seq<Scope>)
      modifies this
      ensures (output, State()) == (old(output) + Walk(lexical, old(State()), node, ancestors).0, Walk(lexical, old(State()), node, ancestors).1)
      decreases node
    {
      WalkUnrolled(lexical, State(), node, ancestors);
      hide Walk, WalkAll, StartOfElement;
      ghost var initial := output;
      ghost var start := StartNodeSpec(lexical, State(), node.nodeType, ancestors);
      StartNode(node.nodeType, ancestors);
      ghost var children := WalkAll(lexical, start.1, node.children, [ScopeOf(node)] + ancestors);
      WalkChildren(node.children, [ScopeOf(node)] + ancestors);
      ghost var end := EndNodeSpec(lexical, children.1, node.nodeType);
      var r := EndNode(node.nodeType);
      assert output == initial + (start.0 + children.0 + end.0);
    }

    /** The children of a node, each walked in turn. */
    method WalkChildren(nodes: seq<Node>, ancestors: seq<Scope>)
      modifies this
      ensures (output, State()) == (old(output) + WalkAll(lexical, old(State()), nodes, ancestors).0, WalkAll(lexical, old(State()), nodes, ancestors).1)
      decreases nodes
    {
      WalkAllUnrolled(lexical, State(), nodes, ancestors);
      hide *;
      if nodes != [] {
        ghost var initial := output;
        ghost var first := Walk(lexical, State(), nodes[0], ancestors);
        WalkNode(nodes[0], ancestors);
        ghost var rest := WalkAll(lexical, first.1, nodes[1..], ancestors);
        WalkChildren(nodes[1..], ancestors);
        assert output == initial + (first.0 + rest.0);
      } else {
        assert output + [] == output;
      }
    }

    /** `stream(node)`; `ancestors` are the node's own ancestors in the DOM, read when resolving prefixes. */
    method Stream(node: Node, ancestors: seq<Scope>)
      modifies this
      ensures (output, State()) == (old(output) + StreamSpec(lexical, old(State()), node, ancestors).0, StreamSpec(lexical, old(State()), node, ancestors).1)
    {
      ghost var before := output;
      var isDoc := node.nodeType.DocumentNode?;
      if isDoc {
        output := output + [StartDocument];
      }
      ghost var afterStart := output;
      WalkNode(node, ancestors);
      ghost var walked := output;
      if isDoc {
        output := output + [EndDocument];
      }
      assert output == before + ((if isDoc then [StartDocument] else []) + Walk(lexical, old(State()), node, ancestors).0 + (if isDoc then [EndDocument] else []));
    }
  }

  /** `DOMStreamer`: namespace normalization is on unless switched off, and `recycle` switches it on again. */
  class DOMStreamer {
    var normalizeNamespaces: bool
    const normalizing: NamespaceNormalizingDOMStreamer

    constructor (lexical: bool)
      ensures normalizeNamespaces && fresh(normalizing)
      ensures normalizing.State() == Walker([], 0) && normalizing.lexical == lexical && normalizing.output == []
    {
      normalizeNamespaces := true;
      normalizing := new NamespaceNormalizingDOMStreamer(lexical);
    }

    method IsNormalizeNamespaces() returns (r: bool)
      ensures r == normalizeNamespaces
    {
      return normalizeNamespaces;
    }

    method SetNormalizeNamespaces(normalize: bool)
      modifies this
      ensures normalizeNamespaces == normalize
    {
      normalizeNamespaces := normalize;
    }

    method Recycle()
      modifies this, normalizing
      ensures normalizeNamespaces && normalizing.State() == Walker([], 0) && normalizing.output == old(normalizing.output)
    {
      normalizing.Recycle();
      normalizeNamespaces := true;
    }

    /** `stream`: the normalizing streamer when normalization is on; the identity-transformer path is not modelled. */
    method Stream(node: Node, ancestors: seq<Scope>) returns (normalized: bool)
      modifies normalizing
      ensures normalized == normalizeNamespaces
      ensures normalized ==>
        (normalizing.output, normalizing.State()) == (old(normalizing.output) + StreamSpec(normalizing.lexical, old(normalizing.State()), node, ancestors).0,
            StreamSpec(normalizing.lexical, old(normalizing.State()), node, ancestors).1)
      ensures !normalized ==> normalizing.output == old(normalizing.output) && normalizing.State() == old(normalizing.State())
    {
      normalized := normalizeNamespaces;
      if normalized {
        normalizing.Stream(node, ancestors);
      }
    }
  }
}
