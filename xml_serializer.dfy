/**
 * `XMLSerializer`: the output properties (`format`) handed to the
 * serializing TrAX handler, their setters, the presets of the factory
 * methods, and the cache key built from them. The handler itself is a
 * library object and is not modelled; `setup` is modelled by the default
 * output method it adds.
 */
module XmlSerializers {
  import opened Wrappers
  import opened ParameterKey

  // The `javax.xml.transform.OutputKeys` names.
  const CdataSectionElements: string := "cdata-section-elements"
  const DoctypePublic: string := "doctype-public"
  const DoctypeSystem: string := "doctype-system"
  const Encoding: string := "encoding"
  const Indent: string := "indent"
  const MediaType: string := "media-type"
  const Method: string := "method"
  const OmitXmlDeclaration: string := "omit-xml-declaration"
  const Standalone: string := "standalone"
  const Version: string := "version"

  const Yes: string := "yes"
  const No: string := "no"
  const Utf8: string := "UTF-8"
  const Xml: string := "xml"
  const Html: string := "html"
  const TextXml: string := "text/xml"
  const TextHtmlUtf8: string := "text/html;charset=utf-8"
  const XhtmlStrictDoctypePublic: string := "-//W3C//DTD XHTML 1.0 Strict//EN"
  const HtmlTransitionalDoctypePublic: string := "-//W3C//DTD HTML 4.01 Transitional//EN"
  const XhtmlStrictDoctypeSystem: string := "http://www.w3.org/TR/xhtml1/DTD/xhtml1-strict.dtd"

  function YesNo(b: bool): (r: string)
    ensures r == Yes <==> b
    ensures r == No <==> !b
  {
    if b then Yes else No
  }

  /** The format after `setup`: the method `xml` when none is set, nothing else changed. */
  function WithDefaultMethod(format: map<string, string>): (r: map<string, string>)
    ensures Method in r && r.Keys == format.Keys + {Method}
    ensures forall k :: k in format ==> r[k] == format[k]
    ensures Method !in format ==> r[Method] == Xml
  {
    if Method in format then format else format[Method := Xml]
  }

  /** Running `setup` again finds the method set and changes nothing. */
  lemma DefaultMethodIdempotent(format: map<string, string>)
    ensures WithDefaultMethod(WithDefaultMethod(format)) == WithDefaultMethod(format)
  {
  }

  class XMLSerializer {
    var format: map<string, string>
    /** The content type kept by the serializer base class. */
    var contentType: Option<string>

    /** `new XMLSerializer()`: an empty format. */
    constructor ()
      ensures format == map[] && contentType == None
    {
      format := map[];
      contentType := None;
    }

    constructor WithFormat(format: map<string, string>)
      ensures this.format == format && contentType == None
    {
      this.format := format;
      contentType := None;
    }

    /** `setFormat(format)`. */
    method SetFormat(format: map<string, string>)
      modifies this
      ensures this.format == format && contentType == old(contentType)
    {
      this.format := format;
    }

    /** `setContentType(contentType)`, inherited from the serializer base class. */
    method SetContentType(contentType: string)
      modifies this
      ensures this.contentType == Some(contentType) && format == old(format)
    {
      this.contentType := Some(contentType);
    }

    /** The common shape of the string setters: `null` or `""` is a `SetupException`, any other value sets exactly `key`. */
    method PutNonEmpty(key: string, value: Option<string>, message: string) returns (r: Result<XMLSerializer>)
      modifies this
      ensures contentType == old(contentType)
      ensures value.None? || value == Some("") ==> r == Err(Exception.Setup(message)) && format == old(format)
      ensures value.Some? && value.value != "" ==> r == Ok(this) && format == old(format)[key := value.value]
      ensures r.Ok? && key !in old(format) ==> |format| == |old(format)| + 1
      ensures r.Ok? && key in old(format) ==> |format| == |old(format)|
    {
      if value.None? || value.value == "" {
        return Err(Exception.Setup(message));
      }
      format := format[key := value.value];
      return Ok(this);
    }

    /** The common shape of the boolean setters: `"yes"` or `"no"`. */
    method PutYesNo(key: string, value: bool) returns (r: XMLSerializer)
      modifies this
      ensures r == this && contentType == old(contentType)
      ensures format == old(format)[key := YesNo(value)]
      ensures key !in old(format) ==> |format| == |old(format)| + 1
    {
      format := format[key := YesNo(value)];
      return this;
    }

    method SetCDataSectionElements(cdataSectionElements: Option<string>) returns (r: Result<XMLSerializer>)
      modifies this
      ensures (r.Ok? <==> cdataSectionElements.Some? && cdataSectionElements.value != "") && contentType == old(contentType)
      ensures r.Ok? ==> r.value == this && format == old(format)[CdataSectionElements := cdataSectionElements.value]
      ensures r.Err? ==> r.error == Exception.Setup("A ... has to be passed as argument.") && format == old(format)
    {
      r := PutNonEmpty(CdataSectionElements, cdataSectionElements, "A ... has to be passed as argument.");
    }

    method SetDoctypePublic(doctypePublic: Option<string>) returns (r: Result<XMLSerializer>)
      modifies this
      ensures (r.Ok? <==> doctypePublic.Some? && doctypePublic.value != "") && contentType == old(contentType)
      ensures r.Ok? ==> r.value == this && format == old(format)[DoctypePublic := doctypePublic.value]
      ensures r.Err? ==> r.error == Exception.Setup("A doctype-public has to be passed as argument.") && format == old(format)
    {
      r := PutNonEmpty(DoctypePublic, doctypePublic, "A doctype-public has to be passed as argument.");
    }

    method SetDoctypeSystem(doctypeSystem: Option<string>) returns (r: Result<XMLSerializer>)
      modifies this
      ensures (r.Ok? <==> doctypeSystem.Some? && doctypeSystem.value != "") && contentType == old(contentType)
      ensures r.Ok? ==> r.value == this && format == old(format)[DoctypeSystem := doctypeSystem.value]
      ensures r.Err? ==> r.error == Exception.Setup("A doctype-system has to be passed as argument.") && format == old(format)
    {
      r := PutNonEmpty(DoctypeSystem, doctypeSystem, "A doctype-system has to be passed as argument.");
    }

    method SetEncoding(encoding: Option<string>) returns (r: Result<XMLSerializer>)
      modifies this
      ensures (r.Ok? <==> encoding.Some? && encoding.value != "") && contentType == old(contentType)
      ensures r.Ok? ==> r.value == this && format == old(format)[Encoding := encoding.value]
      ensures r.Err? ==> r.error == Exception.Setup("A encoding has to be passed as argument.") && format == old(format)
    {
      r := PutNonEmpty(Encoding, encoding, "A encoding has to be passed as argument.");
    }

    method SetMediaType(mediaType: Option<string>) returns (r: Result<XMLSerializer>)
      modifies this
      ensures (r.Ok? <==> mediaType.Some? && mediaType.value != "") && contentType == old(contentType)
      ensures r.Ok? ==> r.value == this && format == old(format)[MediaType := mediaType.value]
      ensures r.Err? ==> r.error == Exception.Setup("A media-type has to be passed as argument.") && format == old(format)
    {
      r := PutNonEmpty(MediaType, mediaType, "A media-type has to be passed as argument.");
    }

    method SetMethod(outputMethod: Option<string>) returns (r: Result<XMLSerializer>)
      modifies this
      ensures (r.Ok? <==> outputMethod.Some? && outputMethod.value != "") && contentType == old(contentType)
      ensures r.Ok? ==> r.value == this && format == old(format)[Method := outputMethod.value]
      ensures r.Err? ==> r.error == Exception.Setup("A method has to be passed as argument.") && format == old(format)
    {
      r := PutNonEmpty(Method, outputMethod, "A method has to be passed as argument.");
    }

    method SetVersion(version: Option<string>) returns (r: Result<XMLSerializer>)
      modifies this
      ensures (r.Ok? <==> version.Some? && version.value != "") && contentType == old(contentType)
      ensures r.Ok? ==> r.value == this && format == old(format)[Version := version.value]
      ensures r.Err? ==> r.error == Exception.Setup("A version has to be passed as argument.") && format == old(format)
    {
      r := PutNonEmpty(Version, version, "A version has to be passed as argument.");
    }

    method SetIndent(indent: bool) returns (r: XMLSerializer)
      modifies this
      ensures r == this && format == old(format)[Indent := YesNo(indent)] && contentType == old(contentType)
    {
      r := PutYesNo(Indent, indent);
    }

    method SetOmitXmlDeclaration(omit: bool) returns (r: XMLSerializer)
      modifies this
      ensures r == this && format == old(format)[OmitXmlDeclaration := YesNo(omit)] && contentType == old(contentType)
    {
      r := PutYesNo(OmitXmlDeclaration, omit);
    }

    method SetStandAlone(standalone: bool) returns (r: XMLSerializer)
      modifies this
      ensures r == this && format == old(format)[Standalone := YesNo(standalone)] && contentType == old(contentType)
    {
      r := PutYesNo(Standalone, standalone);
    }

    /** `setup(parameters)`, without the creation of the TrAX handler: a missing output method defaults to `xml`. */
    method Setup()
      modifies this
      ensures format == WithDefaultMethod(old(format)) && contentType == old(contentType)
    {
      if Method !in format {
        format := format[Method := Xml];
      }
    }

    /** `constructCacheKey`: one string parameter per output property. */
    method ConstructCacheKey() returns (key: ParameterCacheKey)
      ensures fresh(key) && key.parameters == format && !key.readOnly
    {
      key := new ParameterCacheKey();
      var rest := format.Keys;
      while rest != {}
        invariant rest <= format.Keys && !key.readOnly && fresh(key)
        invariant key.parameters == map k | k in format.Keys - rest :: format[k]
        decreases |rest|
      {
        var name :| name in rest;
        var outcome := key.AddString(name, format[name]);
        rest := rest - {name};
      }
    }
  }

  /** `new XMLSerializer(format)`: a `null` format is a `SetupException`. */
  method NewXMLSerializer(format: Option<map<string, string>>) returns (r: Result<XMLSerializer>)
    ensures format.None? ==> r == Err(Exception.Setup("No format properites passed as argument."))
    ensures format.Some? ==> r.Ok? && fresh(r.value) && r.value.format == format.value && r.value.contentType == None
  {
    if format.None? {
      return Err(Exception.Setup("No format properites passed as argument."));
    }
    var serializer := new XMLSerializer.WithFormat(format.value);
    return Ok(serializer);
  }

  /** The four keys of the XHTML preset are distinct and its values non-empty. */
  lemma XhtmlPresetFacts()
    ensures DoctypePublic != DoctypeSystem && DoctypePublic != Encoding && DoctypePublic != Method
    ensures DoctypeSystem != Encoding && DoctypeSystem != Method && Encoding != Method
    ensures XhtmlStrictDoctypePublic != "" && XhtmlStrictDoctypeSystem != "" && Utf8 != "" && Xml != ""
  {
  }

  /** `createXHTMLSerializer()`. */
  method CreateXHTMLSerializer() returns (s: XMLSerializer)
    ensures fresh(s) && s.contentType == Some(TextHtmlUtf8)
    ensures s.format == map[DoctypePublic := XhtmlStrictDoctypePublic, DoctypeSystem := XhtmlStrictDoctypeSystem,
                            Encoding := Utf8, Method := Xml]
  {
    XhtmlPresetFacts();
    hide *;
    s := new XMLSerializer();
    s.SetContentType(TextHtmlUtf8);
    var r := s.SetDoctypePublic(Some(XhtmlStrictDoctypePublic));
    assert s.format == map[DoctypePublic := XhtmlStrictDoctypePublic];
    r := s.SetDoctypeSystem(Some(XhtmlStrictDoctypeSystem));
    assert s.format == map[DoctypePublic := XhtmlStrictDoctypePublic, DoctypeSystem := XhtmlStrictDoctypeSystem];
    r := s.SetEncoding(Some(Utf8));
    assert s.format == map[DoctypePublic := XhtmlStrictDoctypePublic, DoctypeSystem := XhtmlStrictDoctypeSystem,
                           Encoding := Utf8];
    r := s.SetMethod(Some(Xml));
  }

  /** `createHTML4Serializer()`. */
  method CreateHTML4Serializer() returns (s: XMLSerializer)
    ensures fresh(s) && s.contentType == Some(TextHtmlUtf8)
    ensures s.format == map[DoctypePublic := HtmlTransitionalDoctypePublic, Encoding := Utf8, Method := Html]
  {
    s := new XMLSerializer();
    s.SetContentType(TextHtmlUtf8);
    var r := s.SetDoctypePublic(Some(HtmlTransitionalDoctypePublic));
    r := s.SetEncoding(Some(Utf8));
    r := s.SetMethod(Some(Html));
  }

  /** `createXMLSerializer()`. */
  method CreateXMLSerializer() returns (s: XMLSerializer)
    ensures fresh(s) && s.contentType == Some(TextXml)
    ensures s.format == map[Encoding := Utf8, Method := Xml]
  {
    s := new XMLSerializer();
    s.SetContentType(TextXml);
    var r := s.SetEncoding(Some(Utf8));
    r := s.SetMethod(Some(Xml));
  }
}
