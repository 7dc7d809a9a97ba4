/**
 * The namespace bookkeeping of the namespace-normalizing DOM streamer:
 * splitting node names, resolving a prefix in the original DOM tree,
 * the per-element declaration maps and the chain of element records
 * (`ElementInfo`) they are looked up in, and the rules that decide which
 * declarations an element and its attributes get.
 */
module DomNamespaces {
  import opened Wrappers
  import opened JavaLang
  import opened SaxEvents

  const XmlPrefix: string := "xml"
  const XmlnsPrefix: string := "xmlns"
  const XmlNamespace: string := "http://www.w3.org/XML/1998/namespace"
  const XmlnsNamespace: string := "http://www.w3.org/2000/xmlns/"
  const GeneratedPrefixStem: string := "NS"
  const CData: string := "CDATA"

  // ---------------------------------------------------------------------
  // The DOM, as far as the streamer reads it

  /** An attribute node; `localName` is `None` for one created with `setAttribute` rather than `setAttributeNS`. */
  datatype Attr = Attr(nodeName: string, localName: Option<string>, prefix: Option<string>, namespaceURI: Option<string>, value: string)

  datatype NodeType =
    | DocumentNode
    | FragmentNode
    | ElementNode(nodeName: string, localName: Option<string>, prefix: Option<string>, namespaceURI: Option<string>, attributes: seq<Attr>)
    | TextNode(data: string)
    | CDataNode(data: string)
    | CommentNode(data: string)
    | PINode(target: string, data: string)
    | EntityReferenceNode(name: string)
    | OtherNode

  datatype Node = Node(nodeType: NodeType, children: seq<Node>)

  /** What a prefix lookup in the DOM sees of an ancestor: its attributes when it is an element. */
  datatype Scope = ElementScope(attributes: seq<Attr>) | EntityReferenceScope | OtherScope

  function ScopeOf(node: Node): (r: Scope)
    ensures r.ElementScope? <==> node.nodeType.ElementNode?
    ensures r.EntityReferenceScope? <==> node.nodeType.EntityReferenceNode?
  {
    match node.nodeType
    case ElementNode(_, _, _, _, attributes) => ElementScope(attributes)
    case EntityReferenceNode(_) => EntityReferenceScope
    case _ => OtherScope
  }

  // ---------------------------------------------------------------------
  // Names

  /** `indexOf(":")`. */
  function FirstColon(s: string): (r: Option<nat>)
    ensures r.None? <==> ':' !in s
    ensures r.Some? ==> r.value < |s| && s[r.value] == ':' && ':' !in s[..r.value]
    ensures r.Some? ==> forall j :: 0 <= j < r.value ==> s[j] != ':'
  {
    if s == [] then None
    else if s[0] == ':' then Some(0)
    else
      match FirstColon(s[1..])
      case None => None
      case Some(i) =>
        assert s[..i + 1] == [s[0]] + s[1..][..i];
        Some(i + 1)
  }

  /** `getPrefixAndLocalName`: split at the first colon; without one, no prefix and the whole name. */
  function PrefixAndLocalName(nodeName: string): (r: (Option<string>, string))
    ensures r.0.None? <==> ':' !in nodeName
    ensures r.0.None? ==> r.1 == nodeName
    ensures r.0.Some? ==> r.0.value + ":" + r.1 == nodeName && ':' !in r.0.value
  {
    match FirstColon(nodeName)
    case None => (None, nodeName)
    case Some(i) =>
      assert nodeName == nodeName[..i] + ":" + nodeName[i + 1..];
      (Some(nodeName[..i]), nodeName[i + 1..])
  }

  predicate IsNamespaceDeclaration(attrName: string) {
    attrName == XmlnsPrefix || (|attrName| >= 6 && attrName[..6] == "xmlns:")
  }

  /** The prefix a namespace declaration attribute declares: empty for `xmlns`, the rest of the name after `xmlns:`. */
  function DeclaredPrefix(attrName: string): (r: string)
    ensures attrName == XmlnsPrefix ==> r == ""
    ensures |attrName| >= 6 && attrName[..6] == "xmlns:" ==> r == attrName[6..]
  {
    assert |attrName| >= 6 && attrName[..6] == "xmlns:" ==> attrName[5] == ':' by {
      if |attrName| >= 6 && attrName[..6] == "xmlns:" {
        assert attrName[5] == attrName[..6][5];
      }
    }
    match FirstColon(attrName)
    case None => ""
    case Some(i) =>
      if |attrName| >= 6 && attrName[..6] == "xmlns:" then
        assert forall j :: 0 <= j < 6 ==> attrName[j] == "xmlns:"[j];
        assert i == 5;
        attrName[i + 1..]
      else attrName[i + 1..]
  }

  // ---------------------------------------------------------------------
  // Resolving a prefix in the DOM (`getNamespaceForPrefix`)

  /** `getAttributeNode(name)`. */
  function AttributeNode(attrs: seq<Attr>, name: string): (r: Option<Attr>)
    ensures r.Some? ==> r.value in attrs && r.value.nodeName == name
    ensures r.None? <==> forall a :: a in attrs ==> a.nodeName != name
  {
    if attrs == [] then None
    else if attrs[0].nodeName == name then Some(attrs[0])
    else AttributeNode(attrs[1..], name)
  }

  function DeclarationName(prefix: string): string {
    if prefix == "" then XmlnsPrefix else "xmlns:" + prefix
  }

  /** The walk up the DOM from the element itself: through elements and entity references, stopping at the first declaration. */
  function ResolveIn(declName: string, scopes: seq<Scope>): Option<string>
    decreases |scopes|
  {
    if scopes == [] then None
    else
      match scopes[0]
      case ElementScope(attributes) =>
        (match AttributeNode(attributes, declName)
         case Some(attr) => Some(attr.value)
         case None => ResolveIn(declName, scopes[1..]))
      case EntityReferenceScope => ResolveIn(declName, scopes[1..])
      case OtherScope => None
  }

  /** `getNamespaceForPrefix`: `xml` and `xmlns` are fixed, `null` is the default namespace. */
  function NamespaceForPrefix(prefix: Option<string>, scopes: seq<Scope>): (r: Option<string>)
    ensures prefix == Some(XmlPrefix) ==> r == Some(XmlNamespace)
    ensures prefix == Some(XmlnsPrefix) ==> r == Some(XmlnsNamespace)
  {
    var p := if prefix.Some? then prefix.value else "";
    if p == XmlPrefix then Some(XmlNamespace)
    else if p == XmlnsPrefix then Some(XmlnsNamespace)
    else ResolveIn(DeclarationName(p), scopes)
  }

  /** A scope the walk passes through without finding `declName`. */
  predicate Transparent(declName: string, s: Scope) {
    s.EntityReferenceScope? || (s.ElementScope? && AttributeNode(s.attributes, declName).None?)
  }

  /** `scopes[k]` is the nearest element declaring `declName`, with value `v`, and the walk reaches it. */
  predicate DeclaresAt(declName: string, scopes: seq<Scope>, k: nat, v: string) {
    k < |scopes| && (forall j :: 0 <= j < k ==> Transparent(declName, scopes[j]))
    && scopes[k].ElementScope? && AttributeNode(scopes[k].attributes, declName).Some?
    && AttributeNode(scopes[k].attributes, declName).value.value == v
  }

  lemma {:induction false} ResolveNearest(declName: string, scopes: seq<Scope>, k: nat, v: string)
    requires DeclaresAt(declName, scopes, k, v)
    ensures ResolveIn(declName, scopes) == Some(v)
    decreases k
  {
    if k > 0 {
      assert Transparent(declName, scopes[0]);
      assert DeclaresAt(declName, scopes[1..], k - 1, v) by {
        forall j | 0 <= j < k - 1
          ensures Transparent(declName, scopes[1..][j])
        {
          assert scopes[1..][j] == scopes[j + 1];
        }
      }
      ResolveNearest(declName, scopes[1..], k - 1, v);
    }
  }

  lemma {:induction false} ResolveSound(declName: string, scopes: seq<Scope>)
    ensures ResolveIn(declName, scopes).Some? ==> exists k: nat :: DeclaresAt(declName, scopes, k, ResolveIn(declName, scopes).value)
    decreases |scopes|
  {
    if scopes != [] && ResolveIn(declName, scopes).Some? {
      var v := ResolveIn(declName, scopes).value;
      if scopes[0].ElementScope? && AttributeNode(scopes[0].attributes, declName).Some? {
        assert DeclaresAt(declName, scopes, 0, v);
      } else {
        ResolveSound(declName, scopes[1..]);
        var k: nat :| DeclaresAt(declName, scopes[1..], k, v);
        assert DeclaresAt(declName, scopes, k + 1, v) by {
          forall j | 0 <= j < k + 1
            ensures Transparent(declName, scopes[j])
          {
            if j > 0 {
              assert scopes[j] == scopes[1..][j - 1];
            }
          }
          assert scopes[k + 1] == scopes[1..][k];
        }
      }
    }
  }

  /** Any other prefix resolves to the value of the nearest enclosing declaration the walk reaches. */
  lemma NamespaceForPrefixNearest(prefix: string, scopes: seq<Scope>, k: nat, v: string)
    requires prefix != XmlPrefix && prefix != XmlnsPrefix
    requires DeclaresAt(DeclarationName(prefix), scopes, k, v)
    ensures NamespaceForPrefix(Some(prefix), scopes) == Some(v)
  {
    ResolveNearest(DeclarationName(prefix), scopes, k, v);
  }

  /** ... and to nothing (`null`) when the walk reaches no declaration. */
  lemma NamespaceForPrefixSound(prefix: string, scopes: seq<Scope>)
    requires prefix != XmlPrefix && prefix != XmlnsPrefix
    ensures NamespaceForPrefix(Some(prefix), scopes).Some? ==>
      exists k: nat :: DeclaresAt(DeclarationName(prefix), scopes, k, NamespaceForPrefix(Some(prefix), scopes).value)
  {
    ResolveSound(DeclarationName(prefix), scopes);
  }

  // ---------------------------------------------------------------------
  // Declarations of one element: a map from prefix to namespace URI

  /** The entries of a `HashMap<String, String>`, in iteration order. */
  type Declarations = seq<(string, string)>

  function Get(d: Declarations, prefix: string): (r: Option<string>)
    ensures r.Some? ==> (prefix, r.value) in d
    ensures r.None? <==> forall i :: 0 <= i < |d| ==> d[i].0 != prefix
  {
    if d == [] then None
    else if d[0].0 == prefix then Some(d[0].1)
    else
      var r := Get(d[1..], prefix);
      assert forall i :: 1 <= i < |d| ==> d[i] == d[1..][i - 1];
      r
  }

  /** `put`: an existing prefix is overridden where it stands, a new one is added. */
  function Put(d: Declarations, prefix: string, uri: string): (r: Declarations)
    ensures Get(r, prefix) == Some(uri)
    ensures forall q :: q != prefix ==> Get(r, q) == Get(d, q)
    ensures Get(d, prefix).None? ==> r == d + [(prefix, uri)]
    ensures Get(d, prefix).Some? ==> |r| == |d|
    decreases |d|
  {
    if d == [] then [(prefix, uri)]
    else if d[0].0 == prefix then
      var r := [(prefix, uri)] + d[1..];
      assert r[1..] == d[1..];
      r
    else
      var rest := Put(d[1..], prefix, uri);
      assert d == [d[0]] + d[1..];
      GetCons(d[0], d[1..]);
      GetCons(d[0], rest);
      [d[0]] + rest
  }

  /** Looking a prefix up in a non-empty sequence: its first entry, then the rest. */
  lemma GetCons(x: (string, string), rest: Declarations)
    ensures forall q :: Get([x] + rest, q) == if x.0 == q then Some(x.1) else Get(rest, q)
  {
    assert ([x] + rest)[1..] == rest;
  }

  /** `getPrefix`: the first prefix bound to `uri`. */
  function GetPrefix(d: Declarations, uri: string): (r: Option<string>)
    ensures r.Some? ==> (r.value, uri) in d
    ensures r.None? <==> forall i :: 0 <= i < |d| ==> d[i].1 != uri
  {
    if d == [] then None
    else if d[0].1 == uri then Some(d[0].0)
    else
      var r := GetPrefix(d[1..], uri);
      assert forall i :: 1 <= i < |d| ==> d[i] == d[1..][i - 1];
      r
  }

  // ---------------------------------------------------------------------
  // The chain of element records, innermost last

  datatype ElementInfo = ElementInfo(localName: string, namespaceURI: string, qName: string, declarations: Declarations)

  type Chain = seq<ElementInfo>

  function Innermost(chain: Chain): Chain
    requires chain != []
  {
    chain[..|chain| - 1]
  }

  /** `findNamespaceURI`: the element's own declarations first, then its parents'; `null` above the outermost. */
  function FindNamespaceURI(chain: Chain, prefix: string): Option<string>
    decreases |chain|
  {
    if chain == [] then None
    else
      match Get(chain[|chain| - 1].declarations, prefix)
      case Some(uri) => Some(uri)
      case None => FindNamespaceURI(chain[..|chain| - 1], prefix)
  }

  /** `findPrefix`, in the same order. */
  function FindPrefix(chain: Chain, uri: string): Option<string>
    decreases |chain|
  {
    if chain == [] then None
    else
      match GetPrefix(chain[|chain| - 1].declarations, uri)
      case Some(prefix) => Some(prefix)
      case None => FindPrefix(chain[..|chain| - 1], uri)
  }

  /** `chain[k]` declares `prefix` as `uri` and no record inside it declares `prefix`. */
  predicate BoundAt(chain: Chain, prefix: string, k: nat, uri: string) {
    k < |chain| && Get(chain[k].declarations, prefix) == Some(uri)
    && forall j :: k < j < |chain| ==> Get(chain[j].declarations, prefix).None?
  }

  lemma {:induction false} FindNamespaceURINearest(chain: Chain, prefix: string, k: nat, uri: string)
    requires BoundAt(chain, prefix, k, uri)
    ensures FindNamespaceURI(chain, prefix) == Some(uri)
    decreases |chain|
  {
    if k < |chain| - 1 {
      assert Get(chain[|chain| - 1].declarations, prefix).None?;
      var inner := chain[..|chain| - 1];
      assert BoundAt(inner, prefix, k, uri) by {
        forall j | k < j < |inner| ensures Get(inner[j].declarations, prefix).None? {
          assert inner[j] == chain[j];
        }
      }
      FindNamespaceURINearest(inner, prefix, k, uri);
    }
  }

  lemma {:induction false} FindNamespaceURISound(chain: Chain, prefix: string)
    ensures FindNamespaceURI(chain, prefix).Some? ==> exists k: nat :: BoundAt(chain, prefix, k, FindNamespaceURI(chain, prefix).value)
    ensures FindNamespaceURI(chain, prefix).None? ==> forall k :: 0 <= k < |chain| ==> Get(chain[k].declarations, prefix).None?
    decreases |chain|
  {
    if chain != [] {
      var last := |chain| - 1;
      var inner := chain[..last];
      if Get(chain[last].declarations, prefix).Some? {
        assert BoundAt(chain, prefix, last, FindNamespaceURI(chain, prefix).value);
      } else {
        FindNamespaceURISound(inner, prefix);
        if FindNamespaceURI(chain, prefix).Some? {
          var k: nat :| BoundAt(inner, prefix, k, FindNamespaceURI(chain, prefix).value);
          assert BoundAt(chain, prefix, k, FindNamespaceURI(chain, prefix).value) by {
            assert chain[k] == inner[k];
            forall j | k < j < |chain| ensures Get(chain[j].declarations, prefix).None? {
              if j < last {
                assert chain[j] == inner[j];
              }
            }
          }
        } else {
          forall k | 0 <= k < |chain| ensures Get(chain[k].declarations, prefix).None? {
            if k < last {
              assert chain[k] == inner[k];
            }
          }
        }
      }
    }
  }

  /** A prefix found for `uri` is bound to `uri` by some record of the chain; no prefix is found only when none is. */
  lemma {:induction false} FindPrefixSound(chain: Chain, uri: string)
    ensures FindPrefix(chain, uri).Some? ==> exists k :: 0 <= k < |chain| && (FindPrefix(chain, uri).value, uri) in chain[k].declarations
    ensures FindPrefix(chain, uri).None? ==> forall k :: 0 <= k < |chain| ==> GetPrefix(chain[k].declarations, uri).None?
    decreases |chain|
  {
    if chain != [] {
      var last := |chain| - 1;
      var inner := chain[..last];
      if GetPrefix(chain[last].declarations, uri).None? {
        FindPrefixSound(inner, uri);
        if FindPrefix(chain, uri).Some? {
          var k :| 0 <= k < |inner| && (FindPrefix(chain, uri).value, uri) in inner[k].declarations;
          assert chain[k] == inner[k];
        } else {
          forall k | 0 <= k < |chain| ensures GetPrefix(chain[k].declarations, uri).None? {
            if k < last {
              assert chain[k] == inner[k];
            }
          }
        }
      }
    }
  }

  /** Lookups read only the declarations of the innermost record, then the rest of the chain. */
  lemma FindTop(parent: Chain, info: ElementInfo, prefix: string)
    ensures FindNamespaceURI(parent + [info], prefix)
      == (match Get(info.declarations, prefix) case Some(uri) => Some(uri) case None => FindNamespaceURI(parent, prefix))
  {
    assert (parent + [info])[..|parent|] == parent;
  }

  /** The record an element is streamed with while its attributes are processed. */
  function Pending(parent: Chain, d: Declarations): Chain {
    parent + [ElementInfo("", "", "", d)]
  }

  /** A declaration made on the innermost record is found first; every other prefix resolves as before. */
  lemma PutShadows(parent: Chain, d: Declarations, prefix: string, uri: string)
    ensures FindNamespaceURI(Pending(parent, Put(d, prefix, uri)), prefix) == Some(uri)
    ensures forall q :: q != prefix ==> FindNamespaceURI(Pending(parent, Put(d, prefix, uri)), q) == FindNamespaceURI(Pending(parent, d), q)
  {
    FindTop(parent, ElementInfo("", "", "", Put(d, prefix, uri)), prefix);
    forall q | q != prefix
      ensures FindNamespaceURI(Pending(parent, Put(d, prefix, uri)), q) == FindNamespaceURI(Pending(parent, d), q)
    {
      FindTop(parent, ElementInfo("", "", "", Put(d, prefix, uri)), q);
      FindTop(parent, ElementInfo("", "", "", d), q);
    }
  }

  // ---------------------------------------------------------------------
  // The declarations an element gets

  /** The declarations of the `xmlns` and `xmlns:*` attributes, in attribute order. */
  function LocalDeclarations(d: Declarations, attrs: seq<Attr>): (r: Declarations)
    decreases |attrs|
  {
    if attrs == [] then d
    else if IsNamespaceDeclaration(attrs[0].nodeName) then
      LocalDeclarations(Put(d, DeclaredPrefix(attrs[0].nodeName), attrs[0].value), attrs[1..])
    else LocalDeclarations(d, attrs[1..])
  }

  /** The declaration loop past its first attribute. */
  lemma LocalUnrolled(d: Declarations, attrs: seq<Attr>)
    requires attrs != []
    ensures LocalDeclarations(d, attrs) == LocalDeclarations(DeclarationStep(d, attrs[0]), attrs[1..])
  {
  }

  /** What one attribute adds to the declarations. */
  function DeclarationStep(d: Declarations, a: Attr): Declarations {
    if IsNamespaceDeclaration(a.nodeName) then Put(d, DeclaredPrefix(a.nodeName), a.value) else d
  }

  /** The last declaration of a prefix among the attributes is the one that holds. */
  lemma {:induction false} LastDeclarationWins(d: Declarations, attrs: seq<Attr>, i: nat)
    requires i < |attrs| && IsNamespaceDeclaration(attrs[i].nodeName)
    requires forall j :: i < j < |attrs| ==> !(IsNamespaceDeclaration(attrs[j].nodeName) && DeclaredPrefix(attrs[j].nodeName) == DeclaredPrefix(attrs[i].nodeName))
    ensures Get(LocalDeclarations(d, attrs), DeclaredPrefix(attrs[i].nodeName)) == Some(attrs[i].value)
    decreases |attrs|
  {
    var p := DeclaredPrefix(attrs[i].nodeName);
    LocalUnrolled(d, attrs);
    assert i == 0 ==> DeclarationStep(d, attrs[0]) == Put(d, p, attrs[0].value);
    hide *;
    forall j | i - 1 < j < |attrs[1..]|
      ensures !(IsNamespaceDeclaration(attrs[1..][j].nodeName) && DeclaredPrefix(attrs[1..][j].nodeName) == p)
    {
      assert attrs[1..][j] == attrs[j + 1];
    }
    if i == 0 {
      LaterKeeps(Put(d, p, attrs[0].value), attrs[1..], p);
    } else {
      assert attrs[1..][i - 1] == attrs[i];
      LastDeclarationWins(DeclarationStep(d, attrs[0]), attrs[1..], i - 1);
    }
  }

  lemma {:induction false} LaterKeeps(d: Declarations, attrs: seq<Attr>, p: string)
    requires forall j :: 0 <= j < |attrs| ==> !(IsNamespaceDeclaration(attrs[j].nodeName) && DeclaredPrefix(attrs[j].nodeName) == p)
    ensures Get(LocalDeclarations(d, attrs), p) == Get(d, p)
    decreases |attrs|
  {
    if attrs != [] {
      LocalUnrolled(d, attrs);
      assert Get(DeclarationStep(d, attrs[0]), p) == Get(d, p);
      hide *;
      forall j | 0 <= j < |attrs[1..]|
        ensures !(IsNamespaceDeclaration(attrs[1..][j].nodeName) && DeclaredPrefix(attrs[1..][j].nodeName) == p)
      {
        assert attrs[1..][j] == attrs[j + 1];
      }
      LaterKeeps(DeclarationStep(d, attrs[0]), attrs[1..], p);
    } else {
      assert LocalDeclarations(d, attrs) == d;
    }
  }

  /** The prefix, local name and namespace of an element or attribute. */
  datatype Naming = Naming(prefix: Option<string>, localName: string, namespaceURI: Option<string>)

  /**
   * An element created without namespace support takes its prefix and
   * local name from its node name and its namespace from the DOM, the
   * default namespace included; otherwise the DOM's own values are used.
   */
  function ElementNaming(e: NodeType, scopes: seq<Scope>): (r: Naming)
    requires e.ElementNode?
    ensures e.localName.Some? ==> r == Naming(e.prefix, e.localName.value, e.namespaceURI)
    ensures e.localName.None? ==> (r.prefix, r.localName) == PrefixAndLocalName(e.nodeName)
  {
    if e.localName.None? then
      var split := PrefixAndLocalName(e.nodeName);
      Naming(split.0, split.1, NamespaceForPrefix(split.0, scopes))
    else Naming(e.prefix, e.localName.value, e.namespaceURI)
  }

  function OrEmpty(s: Option<string>): (r: string)
    ensures s.Some? ==> r == s.value
    ensures s.None? ==> r == ""
  {
    if s.Some? then s.value else ""
  }

  /** The element's `qName`: `prefix:localName` when the prefix is not blank. */
  function ElementQName(prefix: Option<string>, localName: string): (r: string)
    ensures prefix.None? || Trim(prefix.value) == "" ==> r == localName
    ensures prefix.Some? && Trim(prefix.value) != "" ==> r == prefix.value + ":" + localName
  {
    if prefix.Some? && Trim(prefix.value) != "" then prefix.value + ":" + localName else localName
  }

  /**
   * The element's own namespace: declared locally unless its prefix (empty
   * when there is none) is already bound to it in scope; an element in no
   * namespace under a non-blank default namespace undeclares it.
   */
  function BindElement(parent: Chain, d: Declarations, prefix: Option<string>, namespaceURI: Option<string>): Declarations {
    if namespaceURI.Some? then
      var p := OrEmpty(prefix);
      if FindNamespaceURI(Pending(parent, d), p) == namespaceURI then d else Put(d, p, namespaceURI.value)
    else
      var uri := FindNamespaceURI(Pending(parent, d), "");
      if uri.Some? && Trim(uri.value) != "" then Put(d, "", "") else d
  }

  /** After binding, the element's prefix resolves to its namespace. */
  lemma ElementBound(parent: Chain, d: Declarations, prefix: Option<string>, namespaceURI: Option<string>)
    requires namespaceURI.Some?
    ensures FindNamespaceURI(Pending(parent, BindElement(parent, d, prefix, namespaceURI)), OrEmpty(prefix)) == namespaceURI
  {
    if FindNamespaceURI(Pending(parent, d), OrEmpty(prefix)) != namespaceURI {
      PutShadows(parent, d, OrEmpty(prefix), namespaceURI.value);
    }
  }

  /** An element in no namespace leaves no non-blank default namespace in scope. */
  lemma DefaultNamespaceUndeclared(parent: Chain, d: Declarations, prefix: Option<string>)
    ensures var uri := FindNamespaceURI(Pending(parent, BindElement(parent, d, prefix, None)), "");
      uri.None? || Trim(uri.value) == ""
  {
    var uri := FindNamespaceURI(Pending(parent, d), "");
    if uri.Some? && Trim(uri.value) != "" {
      PutShadows(parent, d, "", "");
      assert Trim("") == "";
    }
  }

  /** Binding never removes or rebinds a prefix other than the element's own. */
  lemma BindKeepsOthers(parent: Chain, d: Declarations, prefix: Option<string>, namespaceURI: Option<string>, q: string)
    requires q != OrEmpty(prefix) && q != ""
    ensures FindNamespaceURI(Pending(parent, BindElement(parent, d, prefix, namespaceURI)), q) == FindNamespaceURI(Pending(parent, d), q)
  {
    if namespaceURI.Some? {
      if FindNamespaceURI(Pending(parent, d), OrEmpty(prefix)) != namespaceURI {
        PutShadows(parent, d, OrEmpty(prefix), namespaceURI.value);
      }
    } else {
      PutShadows(parent, d, "", "");
    }
  }

  // ---------------------------------------------------------------------
  // The prefixes attributes get

  /** `"NS" + n`. */
  function GeneratedPrefix(n: nat): (r: string)
    ensures |r| >= 2 && r[..2] == GeneratedPrefixStem
  {
    GeneratedPrefixStem + IntToString(n)
  }

  predicate GeneratedShape(prefix: string) {
    |prefix| >= 2 && prefix[..2] == GeneratedPrefixStem
  }

  /** Different counter values give different prefixes. */
  lemma GeneratedPrefixInjective(m: nat, n: nat)
    requires m != n
    ensures GeneratedPrefix(m) != GeneratedPrefix(n)
  {
    if GeneratedPrefix(m) == GeneratedPrefix(n) {
      assert GeneratedPrefix(m)[2..] == NatToDigits(m);
      assert GeneratedPrefix(n)[2..] == NatToDigits(n);
      DigitsRoundTrip(m);
      DigitsRoundTrip(n);
    }
  }

  /**
   * The naming of a non-declaration attribute, with the prefix it is first
   * assigned: one created without namespace support keeps its prefix even
   * when it resolves to nothing, and has a namespace only when it has a
   * prefix (default namespaces do not apply to attributes).
   */
  datatype AttrNaming = AttrNaming(naming: Naming, chosen: Option<string>)

  function AttributeNaming(a: Attr, scopes: seq<Scope>): (r: AttrNaming)
    ensures a.localName.None? ==> r.chosen == r.naming.prefix && (r.naming.prefix, r.naming.localName) == PrefixAndLocalName(a.nodeName)
    ensures a.localName.None? && r.naming.prefix.None? ==> r.naming.namespaceURI.None?
    ensures a.localName.Some? ==> r == AttrNaming(Naming(a.prefix, a.localName.value, a.namespaceURI), None)
  {
    if a.localName.None? then
      var split := PrefixAndLocalName(a.nodeName);
      var uri := if split.0.Some? then NamespaceForPrefix(split.0, scopes) else None;
      AttrNaming(Naming(split.0, split.1, uri), split.0)
    else AttrNaming(Naming(a.prefix, a.localName.value, a.namespaceURI), None)
  }

  /** What assigning a prefix to a namespaced attribute leaves behind. */
  datatype Assignment = Assignment(prefix: string, declarations: Declarations, counter: nat)

  /**
   * A namespaced attribute keeps its prefix when that is bound to its
   * namespace in scope; otherwise it borrows a non-empty prefix bound to
   * the namespace, declares its own prefix when that is unbound, or gets
   * a generated `NS<n>` prefix declared locally.
   */
  function AssignPrefix(parent: Chain, d: Declarations, counter: nat, prefix: Option<string>, uri: string): Assignment {
    var chain := Pending(parent, d);
    // no declaration has a null prefix: `findNamespaceURI(null)` finds nothing
    var declared := if prefix.Some? then FindNamespaceURI(chain, prefix.value) else None;
    if declared != Some(uri) then
      var available := FindPrefix(chain, uri);
      if available.Some? && available.value != "" then Assignment(available.value, d, counter)
      else if prefix.Some? && declared.None? then Assignment(prefix.value, Put(d, prefix.value, uri), counter)
      else Assignment(GeneratedPrefix(counter + 1), Put(d, GeneratedPrefix(counter + 1), uri), counter + 1)
    else Assignment(prefix.value, d, counter)
  }

  /**
   * The assigned prefix resolves to the attribute's namespace, unless it
   * was borrowed from a declaration that an inner one shadows; the counter
   * moves only for a generated prefix, which is then declared locally.
   */
  lemma AssignPrefixBound(parent: Chain, d: Declarations, counter: nat, prefix: Option<string>, uri: string)
    ensures var a := AssignPrefix(parent, d, counter, prefix, uri);
      FindNamespaceURI(Pending(parent, a.declarations), a.prefix) == Some(uri)
      || (a.declarations == d && Some(a.prefix) == FindPrefix(Pending(parent, d), uri))
    ensures var a := AssignPrefix(parent, d, counter, prefix, uri);
      a.counter == counter || (a.counter == counter + 1 && a.prefix == GeneratedPrefix(a.counter) && Get(a.declarations, a.prefix) == Some(uri))
  {
    var chain := Pending(parent, d);
    var declared := if prefix.Some? then FindNamespaceURI(chain, prefix.value) else None;
    if declared != Some(uri) {
      var available := FindPrefix(chain, uri);
      if !(available.Some? && available.value != "") {
        if prefix.Some? && declared.None? {
          PutShadows(parent, d, prefix.value, uri);
        } else {
          PutShadows(parent, d, GeneratedPrefix(counter + 1), uri);
        }
      }
    }
  }

  /** A prefix bound in scope keeps its binding, unless it has the shape of a generated prefix. */
  lemma AssignPrefixKeeps(parent: Chain, d: Declarations, counter: nat, prefix: Option<string>, uri: string, q: string)
    requires FindNamespaceURI(Pending(parent, d), q).Some? && !GeneratedShape(q)
    ensures FindNamespaceURI(Pending(parent, AssignPrefix(parent, d, counter, prefix, uri).declarations), q) == FindNamespaceURI(Pending(parent, d), q)
  {
    var chain := Pending(parent, d);
    var declared := if prefix.Some? then FindNamespaceURI(chain, prefix.value) else None;
    if declared != Some(uri) {
      var available := FindPrefix(chain, uri);
      if !(available.Some? && available.value != "") {
        if prefix.Some? && declared.None? {
          PutShadows(parent, d, prefix.value, uri);
        } else {
          PutShadows(parent, d, GeneratedPrefix(counter + 1), uri);
        }
      }
    }
  }

  /** The attributes built so far, the element's declarations and the prefix counter. */
  datatype AttributeScan = AttributeScan(attributes: seq<Attribute>, declarations: Declarations, counter: nat)

  /** One non-declaration attribute, as handed to `startElement`. */
  function AttributeStep(parent: Chain, scopes: seq<Scope>, st: AttributeScan, a: Attr): (r: AttributeScan)
    ensures |r.attributes| == |st.attributes| + 1 && r.attributes[..|st.attributes|] == st.attributes
    ensures r.attributes[|st.attributes|].value == a.value && r.attributes[|st.attributes|].attrType == CData
    ensures r.attributes[|st.attributes|].uri == OrEmpty(AttributeNaming(a, scopes).naming.namespaceURI)
    ensures r.attributes[|st.attributes|].localName == AttributeNaming(a, scopes).naming.localName
    ensures r.counter >= st.counter
  {
    var n := AttributeNaming(a, scopes);
    var localName := n.naming.localName;
    var step: (Option<string>, Declarations, nat) :=
      if n.naming.namespaceURI.Some? then
        var x := AssignPrefix(parent, st.declarations, st.counter, n.naming.prefix, n.naming.namespaceURI.value);
        (Some(x.prefix), x.declarations, x.counter)
      else (n.chosen, st.declarations, st.counter);
    var qName := if step.0.Some? then step.0.value + ":" + localName else localName;
    var attribute := Attribute(OrEmpty(n.naming.namespaceURI), localName, qName, CData, a.value);
    AttributeScan(st.attributes + [attribute], step.1, step.2)
  }

  /** The attribute loop: namespace declarations are skipped, every other attribute is converted in order. */
  function AttributesFold(parent: Chain, scopes: seq<Scope>, st: AttributeScan, attrs: seq<Attr>): (r: AttributeScan)
    ensures r.counter >= st.counter
    ensures |r.attributes| >= |st.attributes| && r.attributes[..|st.attributes|] == st.attributes
    decreases |attrs|
  {
    if attrs == [] then st
    else if IsNamespaceDeclaration(attrs[0].nodeName) then AttributesFold(parent, scopes, st, attrs[1..])
    else
      var next := AttributeStep(parent, scopes, st, attrs[0]);
      var r := AttributesFold(parent, scopes, next, attrs[1..]);
      assert r.attributes[..|st.attributes|] == r.attributes[..|next.attributes|][..|st.attributes|];
      r
  }

  function NonDeclarations(attrs: seq<Attr>): (r: seq<Attr>)
    decreases |attrs|
  {
    if attrs == [] then []
    else if IsNamespaceDeclaration(attrs[0].nodeName) then NonDeclarations(attrs[1..])
    else [attrs[0]] + NonDeclarations(attrs[1..])
  }

  /** The attribute loop over no attributes, past a declaration, and past any other attribute. */
  lemma FoldUnrolled(parent: Chain, scopes: seq<Scope>, st: AttributeScan, attrs: seq<Attr>)
    ensures attrs == [] ==> AttributesFold(parent, scopes, st, attrs) == st && NonDeclarations(attrs) == []
    ensures attrs != [] && IsNamespaceDeclaration(attrs[0].nodeName) ==>
      AttributesFold(parent, scopes, st, attrs) == AttributesFold(parent, scopes, st, attrs[1..])
      && NonDeclarations(attrs) == NonDeclarations(attrs[1..])
    ensures attrs != [] && !IsNamespaceDeclaration(attrs[0].nodeName) ==>
      AttributesFold(parent, scopes, st, attrs) == AttributesFold(parent, scopes, AttributeStep(parent, scopes, st, attrs[0]), attrs[1..])
      && NonDeclarations(attrs) == [attrs[0]] + NonDeclarations(attrs[1..])
  {
  }

  /** One attribute is handed on per non-declaration attribute, in order, with its value and its namespace. */
  lemma {:induction false} AttributesFoldCarries(parent: Chain, scopes: seq<Scope>, st: AttributeScan, attrs: seq<Attr>)
    ensures var r := AttributesFold(parent, scopes, st, attrs); var kept := NonDeclarations(attrs);
      |r.attributes| == |st.attributes| + |kept|
      && forall i :: 0 <= i < |kept| ==>
        (r.attributes[|st.attributes| + i].value == kept[i].value
         && r.attributes[|st.attributes| + i].uri == OrEmpty(AttributeNaming(kept[i], scopes).naming.namespaceURI))
    decreases |attrs|
  {
    FoldUnrolled(parent, scopes, st, attrs);
    hide *;
    if attrs != [] {
      if IsNamespaceDeclaration(attrs[0].nodeName) {
        AttributesFoldCarries(parent, scopes, st, attrs[1..]);
      } else {
        var n := |st.attributes|;
        var next := AttributeStep(parent, scopes, st, attrs[0]);
        var r := AttributesFold(parent, scopes, next, attrs[1..]);
        var rest := NonDeclarations(attrs[1..]);
        AttributesFoldCarries(parent, scopes, next, attrs[1..]);
        var kept := NonDeclarations(attrs);
        assert r.attributes[n] == next.attributes[n] by {
          assert r.attributes[..n + 1] == next.attributes;
        }
        forall i | 0 < i < |kept|
          ensures r.attributes[n + i].value == kept[i].value
          ensures r.attributes[n + i].uri == OrEmpty(AttributeNaming(kept[i], scopes).naming.namespaceURI)
        {
          assert kept[i] == rest[i - 1] && n + i == |next.attributes| + (i - 1);
        }
      }
    }
  }

  /** Attributes never override a prefix bound in scope, unless it has the shape of a generated prefix. */
  lemma {:induction false} AttributesFoldKeeps(parent: Chain, scopes: seq<Scope>, st: AttributeScan, attrs: seq<Attr>, q: string)
    requires FindNamespaceURI(Pending(parent, st.declarations), q).Some? && !GeneratedShape(q)
    ensures FindNamespaceURI(Pending(parent, AttributesFold(parent, scopes, st, attrs).declarations), q)
      == FindNamespaceURI(Pending(parent, st.declarations), q)
    decreases |attrs|
  {
    if attrs != [] {
      if IsNamespaceDeclaration(attrs[0].nodeName) {
        AttributesFoldKeeps(parent, scopes, st, attrs[1..], q);
      } else {
        var n := AttributeNaming(attrs[0], scopes);
        if n.naming.namespaceURI.Some? {
          AssignPrefixKeeps(parent, st.declarations, st.counter, n.naming.prefix, n.naming.namespaceURI.value, q);
        }
        AttributesFoldKeeps(parent, scopes, AttributeStep(parent, scopes, st, attrs[0]), attrs[1..], q);
      }
    }
  }

  // ---------------------------------------------------------------------
  // Prefix mapping events

  function StartMappings(d: Declarations): (r: seq<Event>)
    ensures |r| == |d| && forall i :: 0 <= i < |d| ==> r[i] == StartPrefixMapping(Some(d[i].0), d[i].1)
  {
    seq(|d|, i requires 0 <= i < |d| => StartPrefixMapping(Some(d[i].0), d[i].1))
  }

  function EndMappings(d: Declarations): (r: seq<Event>)
    ensures |r| == |d| && forall i :: 0 <= i < |d| ==> r[i] == EndPrefixMapping(Some(d[i].0))
  {
    seq(|d|, i requires 0 <= i < |d| => EndPrefixMapping(Some(d[i].0)))
  }
}
