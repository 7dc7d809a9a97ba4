/**
 * `AbstractLinkRewriterTransformer`: a registry of (element, attribute)
 * names whose attribute values are links, and a `startElement` that passes
 * the value of each registered attribute through `rewrite`.
 *
 * An `Element` name is a namespace and a local name; the namespace `"*"`
 * matches every namespace. The registry is a `HashMap` from element names
 * to `HashSet`s of attribute names. Because `hashCode` depends on the name
 * alone, all names with the same local name share a bucket, where the map
 * finds the earliest-inserted key that `equals` the argument; the registry
 * is therefore modelled as its entries in insertion order, looked up by the
 * first match. The abstract `rewrite` is a function parameter that returns
 * `None` where it throws a `LinkRewriterException`.
 */
module LinkRewriters {
  import opened Wrappers
  import opened JavaLang
  import opened SaxEvents
  import opened CacheKeys

  const AllNamespaces: string := "*"
  const EmptyNamespace: string := ""
  const ElementPrefix: string := "element"

  /** The private class `Element`: a name in a namespace. */
  datatype Name = Name(namespace: string, name: string)

  /** `Element.equals`: equal local names, and equal namespaces unless either is the wildcard. */
  predicate Matches(a: Name, b: Name) {
    (a.namespace == AllNamespaces || b.namespace == AllNamespaces || a.namespace == b.namespace) && a.name == b.name
  }

  /** `Element.hashCode`: `97 * 7 + name.hashCode()`. */
  function HashCode(e: Name): (h: int)
    ensures IsInt(h)
  {
    ToInt(97 * 7 + StringHash(e.name))
  }

  lemma MatchesSymmetric(a: Name, b: Name)
    ensures Matches(a, b) <==> Matches(b, a)
  {
  }

  /** Names that are equal, including through the wildcard, hash alike, as `HashMap` requires. */
  lemma MatchingHashAlike(a: Name, b: Name)
    requires Matches(a, b)
    ensures HashCode(a) == HashCode(b)
  {
  }

  /** The wildcard makes `equals` intransitive: `ns1:a` and `ns2:a` both equal `*:a`, but not each other. */
  lemma MatchesNotTransitive()
    ensures Matches(Name("ns1", "a"), Name("*", "a")) && Matches(Name("*", "a"), Name("ns2", "a"))
    ensures !Matches(Name("ns1", "a"), Name("ns2", "a"))
  {
  }

  type Entry = (Name, seq<Name>)

  /** `elements.containsKey(key)` / `get(key)`: the earliest entry whose key equals `key`. */
  function Lookup(entries: seq<Entry>, key: Name): (r: Option<nat>)
    ensures r.Some? ==> r.value < |entries| && Matches(key, entries[r.value].0)
    ensures r.Some? ==> forall j :: 0 <= j < r.value ==> !Matches(key, entries[j].0)
    ensures r.None? ==> forall j :: 0 <= j < |entries| ==> !Matches(key, entries[j].0)
  {
    if entries == [] then None
    else
      var r := Lookup(entries[..|entries| - 1], key);
      if r.Some? then r
      else if Matches(key, entries[|entries| - 1].0) then Some(|entries| - 1)
      else None
  }

  /** `HashSet.contains`. */
  predicate HasName(names: seq<Name>, n: Name) {
    exists j :: 0 <= j < |names| && Matches(n, names[j])
  }

  /** `HashSet.add`: the name is added only when no equal one is present. */
  function AddName(names: seq<Name>, n: Name): seq<Name> {
    if HasName(names, n) then names else names + [n]
  }

  /** After `add`, the set holds the name and every name it held before. */
  lemma AddNameHas(names: seq<Name>, n: Name, m: Name)
    ensures HasName(AddName(names, n), n)
    ensures HasName(names, m) ==> HasName(AddName(names, n), m)
  {
    if !HasName(names, n) {
      var r := names + [n];
      assert Matches(n, r[|names|]);
      if HasName(names, m) {
        var j :| 0 <= j < |names| && Matches(m, names[j]);
        assert r[j] == names[j];
      }
    }
  }

  /** `contains(elementNamespace, elementName, attributeNamespace, attributeName)`. */
  predicate Contains(entries: seq<Entry>, element: Name, attribute: Name) {
    var i := Lookup(entries, element);
    i.Some? && HasName(entries[i.value].1, attribute)
  }

  function OrEmpty(ns: Option<string>): string {
    if ns.None? then EmptyNamespace else ns.value
  }

  /** The registry after `addElement` of two present names: the attribute joins the set of the first equal key, or a new entry. */
  function Registered(entries: seq<Entry>, element: Name, attribute: Name): seq<Entry> {
    var i := Lookup(entries, element);
    if i.Some? then entries[i.value := (entries[i.value].0, AddName(entries[i.value].1, attribute))]
    else entries + [(element, [attribute])]
  }

  /** `addElement(elementNS, elementName, attributeNS, attributeName)`: a missing name is an `IllegalArgumentException`. */
  function AddElementSpec(entries: seq<Entry>, elementNS: Option<string>, elementName: Option<string>,
                          attributeNS: Option<string>, attributeName: Option<string>): (Result<()>, seq<Entry>) {
    if elementName.None? then (Err(IllegalArgument("Parameter 'elementName' must not be null")), entries)
    else if attributeName.None? then (Err(IllegalArgument("Parameter 'attributeName' must not be null")), entries)
    else (Ok(()), Registered(entries, Name(OrEmpty(elementNS), elementName.value), Name(OrEmpty(attributeNS), attributeName.value)))
  }

  // ---------------------------------------------------------------------
  // The registry

  /** A registered pair is found again, under its own names. */
  lemma RegisteredContains(entries: seq<Entry>, element: Name, attribute: Name)
    ensures Contains(Registered(entries, element, attribute), element, attribute)
  {
    var i := Lookup(entries, element);
    var after := Registered(entries, element, attribute);
    if i.Some? {
      LookupFirst(after, element, i.value);
      AddNameHas(entries[i.value].1, attribute, attribute);
    } else {
      LookupFirst(after, element, |entries|);
      assert Matches(attribute, after[|entries|].1[0]);
    }
  }

  /** Registering never unregisters anything. */
  lemma RegisteredKeeps(entries: seq<Entry>, element: Name, attribute: Name, e: Name, a: Name)
    requires Contains(entries, e, a)
    ensures Contains(Registered(entries, element, attribute), e, a)
  {
    var i := Lookup(entries, element);
    var k := Lookup(entries, e).value;
    var after := Registered(entries, element, attribute);
    LookupFirst(after, e, k);
    if i.Some? && k == i.value {
      AddNameHas(entries[k].1, attribute, a);
    }
  }

  /**
   * A wildcard registration made after a namespaced one with the same local
   * name joins the namespaced entry, so it does not apply to other
   * namespaces: `addElement("ns1", "a", "*", "href")` then
   * `addElement("*", "a", "*", "src")` leaves `src` of `a` in `ns2`
   * unregistered.
   */
  lemma WildcardAbsorbed()
    ensures var first := Registered([], Name("ns1", "a"), Name("*", "href"));
      var second := Registered(first, Name("*", "a"), Name("*", "src"));
      Contains(second, Name("ns1", "a"), Name("", "src")) && !Contains(second, Name("ns2", "a"), Name("", "src"))
  {
    var first := Registered([], Name("ns1", "a"), Name("*", "href"));
    assert first == [(Name("ns1", "a"), [Name("*", "href")])];
    var second := Registered(first, Name("*", "a"), Name("*", "src"));
    LookupFirst(first, Name("*", "a"), 0);
    assert !HasName([Name("*", "href")], Name("*", "src"));
    assert AddName([Name("*", "href")], Name("*", "src")) == [Name("*", "href"), Name("*", "src")];
    assert first[0 := (Name("ns1", "a"), [Name("*", "href"), Name("*", "src")])] == [(Name("ns1", "a"), [Name("*", "href"), Name("*", "src")])];
    assert second == [(Name("ns1", "a"), [Name("*", "href"), Name("*", "src")])];
    assert Matches(Name("", "src"), second[0].1[1]);
    assert Lookup(second, Name("ns2", "a")) == None;
  }

  // ---------------------------------------------------------------------
  // Setup parameters

  /** `setup` for one parameter: `element…` values of two or four space-separated names are registered, all else is ignored. */
  function SetupEntry(entries: seq<Entry>, key: string, value: string): seq<Entry> {
    if |key| >= |ElementPrefix| && key[..|ElementPrefix|] == ElementPrefix then
      var split := SplitOnSpace(value);
      if |split| == 2 then Registered(entries, Name(AllNamespaces, split[0]), Name(AllNamespaces, split[1]))
      else if |split| == 4 then Registered(entries, Name(split[0], split[1]), Name(split[2], split[3]))
      else entries
    else entries
  }

  /** `setup(parameters)`: the parameters in the map's iteration order. */
  function SetupSpec(entries: seq<Entry>, parameters: seq<(string, string)>): seq<Entry>
    decreases |parameters|
  {
    if parameters == [] then entries
    else SetupSpec(SetupEntry(entries, parameters[0].0, parameters[0].1), parameters[1..])
  }

  /** Parameters that register nothing leave the registry as it was. */
  lemma {:induction false} SetupIgnores(entries: seq<Entry>, parameters: seq<(string, string)>)
    requires forall k :: 0 <= k < |parameters| ==> SetupEntry(entries, parameters[k].0, parameters[k].1) == entries
    ensures SetupSpec(entries, parameters) == entries
    decreases |parameters|
  {
    if parameters != [] {
      SetupIgnores(entries, parameters[1..]);
    }
  }

  /** What is registered stays registered through any number of parameters. */
  lemma {:induction false} SetupKeeps(entries: seq<Entry>, parameters: seq<(string, string)>, e: Name, a: Name)
    requires Contains(entries, e, a)
    ensures Contains(SetupSpec(entries, parameters), e, a)
    decreases |parameters|
  {
    if parameters != [] {
      var next := SetupEntry(entries, parameters[0].0, parameters[0].1);
      var split := SplitOnSpace(parameters[0].1);
      if next != entries {
        if |split| == 2 {
          RegisteredKeeps(entries, Name(AllNamespaces, split[0]), Name(AllNamespaces, split[1]), e, a);
        } else {
          RegisteredKeeps(entries, Name(split[0], split[1]), Name(split[2], split[3]), e, a);
        }
      }
      SetupKeeps(next, parameters[1..], e, a);
    }
  }

  /** An `element` parameter `"img src"` registers `src` of `img` in every namespace. */
  lemma SetupTwoNames(key: string, element: string, attribute: string)
    requires |key| >= |ElementPrefix| && key[..|ElementPrefix|] == ElementPrefix
    requires element != "" && attribute != "" && ' ' !in element && ' ' !in attribute
    ensures SetupEntry([], key, element + " " + attribute) == [(Name(AllNamespaces, element), [Name(AllNamespaces, attribute)])]
  {
    var ws := [element, attribute];
    assert Join(ws[1..], ' ') == attribute;
    assert Join(ws, ' ') == element + " " + attribute;
    SplitOnSpaceJoin(ws);
  }

  // ---------------------------------------------------------------------
  // Rewriting

  /** The rewrite hook: `rewrite(elementNS, elementName, attributeNS, attributeName, link)`, `None` when it throws. */
  type Rewrite = (string, string, string, string, string) -> Option<string>

  /** One attribute of `startElement(uri, localName, name, atts)`: rewritten when registered and the hook succeeds. */
  function RewriteAttribute(entries: seq<Entry>, uri: string, localName: string, qName: string, rewrite: Rewrite, a: Attribute): Attribute {
    if Contains(entries, Name(uri, localName), Name(a.uri, a.localName)) then
      var link := rewrite(uri, qName, a.uri, a.localName, a.value);
      if link.Some? then a.(value := link.value) else a
    else a
  }

  function Rewritten(entries: seq<Entry>, uri: string, localName: string, qName: string, rewrite: Rewrite, atts: seq<Attribute>): (r: seq<Attribute>)
    ensures |r| == |atts|
  {
    seq(|atts|, k requires 0 <= k < |atts| => RewriteAttribute(entries, uri, localName, qName, rewrite, atts[k]))
  }

  /**
   * Only registered attributes change, and only their value, which becomes
   * the hook's result; when the hook fails the value stays as it was. The
   * hook sees the element's qualified name.
   */
  lemma RewrittenValues(entries: seq<Entry>, uri: string, localName: string, qName: string, rewrite: Rewrite, atts: seq<Attribute>, k: nat)
    requires k < |atts|
    ensures var a := atts[k];
      var r := Rewritten(entries, uri, localName, qName, rewrite, atts)[k];
      var link := rewrite(uri, qName, a.uri, a.localName, a.value);
      r.uri == a.uri && r.localName == a.localName && r.qName == a.qName && r.attrType == a.attrType
      && (if Contains(entries, Name(uri, localName), Name(a.uri, a.localName)) && link.Some? then r.value == link.value else r == a)
  {
  }

  /** An element with nothing registered is forwarded as it came. */
  lemma NothingRegistered(uri: string, localName: string, qName: string, rewrite: Rewrite, atts: seq<Attribute>)
    ensures Rewritten([], uri, localName, qName, rewrite, atts) == atts
  {
    var r := Rewritten([], uri, localName, qName, rewrite, atts);
    forall k | 0 <= k < |atts|
      ensures r[k] == atts[k]
    {
      assert Lookup([], Name(uri, localName)).None?;
    }
  }

  class LinkRewriterTransformer {
    /** The `elements` map, entry by entry in insertion order. */
    var elements: seq<Entry>
    /** The events the consumer has received. */
    var output: seq<Event>

    constructor ()
      ensures elements == [] && output == []
    {
      elements := [];
      output := [];
    }

    /** `addElement(elementNS, elementName, attributeNS, attributeName)`. */
    method AddElement(elementNS: Option<string>, elementName: Option<string>, attributeNS: Option<string>, attributeName: Option<string>)
      returns (r: Result<()>)
      modifies this
      ensures (r, elements) == AddElementSpec(old(elements), elementNS, elementName, attributeNS, attributeName)
      ensures output == old(output)
    {
      if elementName.None? {
        return Err(IllegalArgument("Parameter 'elementName' must not be null"));
      }
      var key := Name(if elementNS.None? then EmptyNamespace else elementNS.value, elementName.value);
      if attributeName.None? {
        return Err(IllegalArgument("Parameter 'attributeName' must not be null"));
      }
      var attribute := Name(if attributeNS.None? then EmptyNamespace else attributeNS.value, attributeName.value);
      var found := FindKey(key);
      if found.Some? {
        var names := elements[found.value].1;
        var present := ContainsName(names, attribute);
        if !present {
          elements := elements[found.value := (elements[found.value].0, names + [attribute])];
        } else {
          assert elements[found.value := (elements[found.value].0, names)] == elements;
        }
      } else {
        elements := elements + [(key, [attribute])];
      }
      return Ok(());
    }

    /** `addElement(elementName, attributeName)`: both names in every namespace. */
    method AddElementAnywhere(elementName: Option<string>, attributeName: Option<string>) returns (r: Result<()>)
      modifies this
      ensures (r, elements) == AddElementSpec(old(elements), Some(AllNamespaces), elementName, Some(AllNamespaces), attributeName)
      ensures output == old(output)
    {
      r := AddElement(Some(AllNamespaces), elementName, Some(AllNamespaces), attributeName);
    }

    /** The bucket walk of `containsKey`/`get`. */
    method FindKey(key: Name) returns (r: Option<nat>)
      ensures r == Lookup(elements, key)
    {
      var i := 0;
      while i < |elements|
        invariant 0 <= i <= |elements|
        invariant forall j :: 0 <= j < i ==> !Matches(key, elements[j].0)
      {
        if Matches(key, elements[i].0) {
          LookupFirst(elements, key, i);
          return Some(i);
        }
        i := i + 1;
      }
      return None;
    }

    /** `setup(parameters)`: `null` or empty parameters change nothing. */
    method Setup(parameters: Option<seq<(string, string)>>)
      modifies this
      ensures parameters.None? ==> elements == old(elements)
      ensures parameters.Some? ==> elements == SetupSpec(old(elements), parameters.value)
      ensures output == old(output)
    {
      if parameters.None? || |parameters.value| == 0 {
        return;
      }
      var ps := parameters.value;
      var k := 0;
      while k < |ps|
        invariant 0 <= k <= |ps|
        invariant SetupSpec(elements, ps[k..]) == SetupSpec(old(elements), ps)
        invariant output == old(output)
      {
        var key := ps[k].0;
        var split := SplitOnSpace(ps[k].1);
        ghost var before := elements;
        assert ps[k..][1..] == ps[k + 1..];
        if |key| >= |ElementPrefix| && key[..|ElementPrefix|] == ElementPrefix {
          if |split| == 2 {
            var r := AddElementAnywhere(Some(split[0]), Some(split[1]));
          } else if |split| == 4 {
            var r := AddElement(Some(split[0]), Some(split[1]), Some(split[2]), Some(split[3]));
          }
        }
        assert elements == SetupEntry(before, key, ps[k].1);
        k := k + 1;
      }
    }

    /** `startElement`: each registered attribute's value goes through the hook, then the element is forwarded. */
    method StartElement(uri: string, localName: string, name: string, atts: seq<Attribute>, rewrite: Rewrite)
      modifies this
      ensures elements == old(elements)
      ensures output == old(output) + [Event.StartElement(uri, localName, name, Rewritten(elements, uri, localName, name, rewrite, atts))]
    {
      var current := atts;
      var i := 0;
      while i < |atts|
        invariant 0 <= i <= |atts| && |current| == |atts|
        invariant forall k :: 0 <= k < i ==> current[k] == RewriteAttribute(elements, uri, localName, name, rewrite, atts[k])
        invariant forall k :: i <= k < |atts| ==> current[k] == atts[k]
        invariant elements == old(elements) && output == old(output)
      {
        var attribute := current[i];
        var registered := ContainsPair(Name(uri, localName), Name(attribute.uri, attribute.localName));
        if registered {
          var link := rewrite(uri, name, attribute.uri, attribute.localName, attribute.value);
          if link.Some? {
            current := current[i := attribute.(value := link.value)];
          }
        }
        i := i + 1;
      }
      assert current == Rewritten(elements, uri, localName, name, rewrite, atts);
      output := output + [Event.StartElement(uri, localName, name, current)];
    }

    /** `contains`: the set of the first equal key holds an equal attribute name. */
    method ContainsPair(element: Name, attribute: Name) returns (r: bool)
      ensures r == Contains(elements, element, attribute)
    {
      var found := FindKey(element);
      if found.None? {
        return false;
      }
      r := ContainsName(elements[found.value].1, attribute);
    }
  }

  lemma LookupFirst(entries: seq<Entry>, key: Name, i: nat)
    requires i < |entries| && Matches(key, entries[i].0)
    requires forall j :: 0 <= j < i ==> !Matches(key, entries[j].0)
    ensures Lookup(entries, key) == Some(i)
  {
  }

  /** The bucket walk of `HashSet.contains`. */
  method ContainsName(names: seq<Name>, n: Name) returns (r: bool)
    ensures r == HasName(names, n)
  {
    var j := 0;
    while j < |names|
      invariant 0 <= j <= |names|
      invariant forall k :: 0 <= k < j ==> !Matches(n, names[k])
    {
      if Matches(n, names[j]) {
        return true;
      }
      j := j + 1;
    }
    return false;
  }

  /** `constructCacheKey`: a simple key, which accepts every stored value. */
  function ConstructCacheKey(): (key: CacheKey)
    ensures key.Simple? && forall other :: Valid(key, other)
  {
    Simple
  }
}
