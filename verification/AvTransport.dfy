/**
 * The two nested documents of `SetAVTransportURI`: an item description holding
 * the title, carried escaped inside a SOAP argument.  A renderer that scans
 * and unescapes twice gets the title back, and no title can pass for anything
 * but text.
 */
module AvTransport {
  import opened Common
  import opened Text
  import opened Upnp

  // ---------------------------------------------------------- service types

  const STANDARD_SERVICE := "urn:schemas-upnp-org:service:"

  predicate Digits(s: string) {
    forall i | 0 <= i < |s| :: '0' <= s[i] <= '9'
  }

  function Number(s: string): nat
    requires Digits(s)
  {
    if s == "" then 0 else 10 * Number(s[..|s| - 1]) + (s[|s| - 1] as int - '0' as int)
  }

  /** `urn:schemas-upnp-org:service:<name>:<version>`, the version a positive 32-bit integer. */
  predicate IsStandardService(serviceType: string, name: string) {
    var lead := STANDARD_SERVICE + name + ":";
    && lead <= serviceType
    && Digits(serviceType[|lead|..])
    && 1 <= Number(serviceType[|lead|..]) <= 0xFFFF_FFFF
  }

  /** A number in decimal. */
  function Decimal(n: nat): string {
    if n < 10 then [('0' as int + n) as char] else Decimal(n / 10) + [('0' as int + n % 10) as char]
  }

  lemma {:induction false} DecimalReads(n: nat)
    ensures Decimal(n) != "" && Digits(Decimal(n)) && Number(Decimal(n)) == n
  {
    if n >= 10 {
      DecimalReads(n / 10);
      var s := Decimal(n);
      assert s[..|s| - 1] == Decimal(n / 10) && s[|s| - 1] == ('0' as int + n % 10) as char;
    }
  }

  /** Exactly the versions that fit 32 bits and are not zero pass, in decimal. */
  lemma StandardVersions(name: string, n: nat)
    ensures IsStandardService(STANDARD_SERVICE + name + ":" + Decimal(n), name) <==> 1 <= n <= 0xFFFF_FFFF
  {
    var lead := STANDARD_SERVICE + name + ":";
    DecimalReads(n);
    assert (lead + Decimal(n))[|lead|..] == Decimal(n);
  }

  /** And nothing passes but that prefix, the name, and a version of digits. */
  lemma StandardShape(serviceType: string, name: string)
    requires IsStandardService(serviceType, name)
    ensures exists version :: version != "" && serviceType == STANDARD_SERVICE + name + ":" + version
                              && forall c | c in version :: c in "0123456789"
  {
    var lead := STANDARD_SERVICE + name + ":";
    var version := serviceType[|lead|..];
    assert serviceType == lead + version;
    assert Number("") == 0 && version != "";
    forall i | 0 <= i < |version|
      ensures version[i] in "0123456789"
    {
      DigitKnown(version[i]);
    }
  }

  lemma DigitKnown(c: char)
    requires '0' <= c <= '9'
    ensures c in "0123456789"
  {
    assert "0123456789"[c as int - '0' as int] == c;
  }

  // -------------------------------------------------------------- documents

  const NS_SOAP := "http://schemas.xmlsoap.org/soap/envelope/"
  const NS_ENCODING := "http://schemas.xmlsoap.org/soap/encoding/"
  const NS_DIDL := "urn:schemas-upnp-org:metadata-1-0/DIDL-Lite/"
  const NS_DC := "http://purl.org/dc/elements/1.1/"
  const NS_UPNP := "urn:schemas-upnp-org:metadata-1-0/upnp/"

  function Attribute(name: string, value: string): string {
    " " + name + "=\"" + value + "\""
  }

  /** The declaration as one tag, from `?` to `?`. */
  function Declaration(): string {
    "?xml" + (Attribute("version", "1.0") + Attribute("encoding", "utf-8") + "?")
  }

  const ITEM_CLASS := "object.item.videoItem"

  /** A SOAP request: declaration, envelope, body, and the call with its arguments. */
  function Request(declaration: string, attributes: string, namespace: string, action: string, arguments: string): string {
    "" + ("<" + declaration + ">"
          + Element("s", "Envelope", attributes, Element("s", "Body", "", Element("u", action, namespace, arguments))))
  }

  function EnvelopeAttributes(): string {
    Attribute("xmlns:s", NS_SOAP) + Attribute("s:encodingStyle", NS_ENCODING)
  }

  /** The body that `soap` sends. */
  function SoapBody(serviceType: string, action: string, arguments: string): string {
    Request(Declaration(), EnvelopeAttributes(), Attribute("xmlns:u", serviceType), action, arguments)
  }

  /** How the media is described: its MIME type and DLNA features, constants of the program. */
  datatype Media = Media(contentType: string, features: string)

  function ResourceAttributes(media: Media, resolution: string): string {
    Attribute("protocolInfo", "http-get:*:" + media.contentType + ":" + media.features) + resolution
  }

  /** An item description; `title` and `url` are escaped here. */
  function Description(attributes: string, itemAttributes: string, resourceAttributes: string, class_: string,
                       title: string, url: string): string {
    Element("", "DIDL-Lite", attributes,
      Element("", "item", itemAttributes,
        Element("dc", "title", "", Escape(title))
        + (Element("upnp", "class", "", class_)
        + Element("", "res", resourceAttributes, Escape(url)))))
  }

  function DidlAttributes(): string {
    Attribute("xmlns", NS_DIDL) + (Attribute("xmlns:dc", NS_DC) + Attribute("xmlns:upnp", NS_UPNP))
  }

  function ItemAttributes(): string {
    Attribute("id", "0") + (Attribute("parentID", "-1") + Attribute("restricted", "1"))
  }

  /** The item description that goes with a stream. */
  function StreamDidl(url: string, title: string, resolution: string, media: Media): string {
    Description(DidlAttributes(), ItemAttributes(),
                ResourceAttributes(media, resolution), ITEM_CLASS, title, url)
  }

  /** The arguments of `SetAVTransportURI`, in order; the finished metadata document is escaped as one text. */
  function SetUriArguments(url: string, metadata: string): string {
    Element("", "InstanceID", "", "0")
    + (Element("", "CurrentURI", "", Escape(url))
    + Element("", "CurrentURIMetaData", "", Escape(metadata)))
  }

  function SetUriBody(serviceType: string, url: string, metadata: string): string {
    SoapBody(serviceType, "SetAVTransportURI", SetUriArguments(url, metadata))
  }

  // ------------------------------------------------------- printable pieces

  /** Printable ASCII that is no markup: legal in XML, and never ends a tag. */
  predicate Harmless(s: string) {
    forall i | 0 <= i < |s| :: ' ' <= s[i] <= '~' && s[i] != '<' && s[i] != '>'
  }

  lemma AttributeHarmless(name: string, value: string)
    requires Harmless(name) && Harmless(value)
    ensures Harmless(Attribute(name, value)) && Attributes(Attribute(name, value)) && Attribute(name, value) != ""
  {
  }

  /** Harmless attributes stay attributes with more behind them. */
  lemma MoreAttributes(a: string, b: string)
    requires Harmless(a) && a != "" && Attributes(a) && Harmless(b)
    ensures Harmless(a + b) && Attributes(a + b) && a + b != ""
  {
  }

  lemma SoapNameHarmless()
    ensures Harmless(NS_SOAP)
  {
  }

  lemma EncodingNameHarmless()
    ensures Harmless(NS_ENCODING)
  {
  }

  lemma DidlNamesHarmless()
    ensures Harmless(NS_DIDL) && Harmless(NS_DC)
  {
  }

  lemma UpnpNameHarmless()
    ensures Harmless(NS_UPNP)
  {
  }

  lemma EnvelopeHarmless()
    ensures Harmless(EnvelopeAttributes()) && Attributes(EnvelopeAttributes())
  {
    SoapNameHarmless();
    EncodingNameHarmless();
    AttributeHarmless("xmlns:s", NS_SOAP);
    AttributeHarmless("s:encodingStyle", NS_ENCODING);
    MoreAttributes(Attribute("xmlns:s", NS_SOAP), Attribute("s:encodingStyle", NS_ENCODING));
  }

  lemma DidlHarmless()
    ensures Harmless(DidlAttributes()) && Attributes(DidlAttributes())
  {
    DidlNamesHarmless();
    UpnpNameHarmless();
    AttributeHarmless("xmlns", NS_DIDL);
    AttributeHarmless("xmlns:dc", NS_DC);
    AttributeHarmless("xmlns:upnp", NS_UPNP);
    MoreAttributes(Attribute("xmlns:dc", NS_DC), Attribute("xmlns:upnp", NS_UPNP));
    MoreAttributes(Attribute("xmlns", NS_DIDL), Attribute("xmlns:dc", NS_DC) + Attribute("xmlns:upnp", NS_UPNP));
  }

  lemma ItemHarmless()
    ensures Harmless(ItemAttributes()) && Attributes(ItemAttributes())
  {
    AttributeHarmless("id", "0");
    AttributeHarmless("parentID", "-1");
    AttributeHarmless("restricted", "1");
    MoreAttributes(Attribute("parentID", "-1"), Attribute("restricted", "1"));
    MoreAttributes(Attribute("id", "0"), Attribute("parentID", "-1") + Attribute("restricted", "1"));
  }

  /** A service type that passed the check can end neither a header nor an attribute early. */
  lemma StandardServiceHarmless(serviceType: string, name: string)
    requires IsStandardService(serviceType, name) && Harmless(name) && Lacks(name, '\"')
    ensures Harmless(serviceType) && Lacks(serviceType, '\"')
  {
  }

  // ---------------------------------------------------- scanning the request

  lemma NamesPlain()
    ensures Plain("s") && Plain("u") && Plain("dc") && Plain("upnp")
    ensures Plain("Envelope") && Plain("Body") && Plain("SetAVTransportURI")
    ensures Plain("InstanceID") && Plain("CurrentURI") && Plain("CurrentURIMetaData")
    ensures Plain("DIDL-Lite") && Plain("item") && Plain("title") && Plain("class") && Plain("res")
  {
  }

  function EndTag(prefix: string, name: string): string {
    "<" + ("/" + Qualified(prefix, name)) + ">"
  }

  /** The XML declaration names no element. */
  lemma DeclarationName(declaration: string, attributes: string, tag: string)
    requires declaration == "?xml" + attributes && Attributes(attributes) && Plain(tag) && tag[0] != '?'
    ensures LocalName(declaration) != tag && Lacks(declaration, '>')
  {
    assert Plain("?xml");
    LocalNameOf("", "?xml", attributes);
  }

  lemma DeclarationPasses(tag: string)
    requires Plain(tag) && tag[0] != '?'
    ensures LocalName(Declaration()) != tag && Lacks(Declaration(), '>')
  {
    AttributeHarmless("version", "1.0");
    AttributeHarmless("encoding", "utf-8");
    MoreAttributes(Attribute("version", "1.0"), Attribute("encoding", "utf-8"));
    MoreAttributes(Attribute("version", "1.0") + Attribute("encoding", "utf-8"), "?");
    DeclarationName(Declaration(), Attribute("version", "1.0") + Attribute("encoding", "utf-8") + "?", tag);
  }

  /** The scan of a request for an argument is the scan of its arguments. */
  lemma RequestEntered(declaration: string, attributes: string, namespace: string, action: string, arguments: string, tag: string)
    requires LocalName(declaration) != tag && Lacks(declaration, '>')
    requires Attributes(attributes) && Attributes(namespace) && Plain(action)
    requires tag != "Envelope" && tag != "Body" && tag != action
    ensures TagText(Request(declaration, attributes, namespace, action, arguments), tag)
         == Scan(arguments + (EndTag("u", action) + (EndTag("s", "Body") + (EndTag("s", "Envelope") + ""))), tag, None)
  {
    NamesPlain();
    var call := Element("u", action, namespace, arguments);
    var body := Element("s", "Body", "", call);
    var envelope := Element("s", "Envelope", attributes, body);
    StepTag("", declaration, envelope, tag, None);
    assert envelope + "" == envelope;
    EnterElement("s", "Envelope", attributes, body, "", tag);
    EnterElement("s", "Body", "", call, EndTag("s", "Envelope") + "", tag);
    EnterElement("u", action, namespace, arguments, EndTag("s", "Body") + (EndTag("s", "Envelope") + ""), tag);
  }

  /** Among the arguments the metadata is found, past the two before it. */
  lemma MetadataInArguments(url: string, metadata: string, rest: string)
    ensures Scan(SetUriArguments(url, metadata) + rest, "CurrentURIMetaData", None) == Some(Trim(Escape(metadata)))
  {
    NamesPlain();
    var tag := "CurrentURIMetaData";
    var id, uri := Element("", "InstanceID", "", "0"), Element("", "CurrentURI", "", Escape(url));
    var data := Element("", tag, "", Escape(metadata));
    EscapedHasNoMarkup(url);
    EscapedHasNoMarkup(metadata);
    assert id + (uri + data) + rest == id + (uri + (data + rest));
    SkipElement("", "InstanceID", "", "0", uri + (data + rest), tag);
    SkipElement("", "CurrentURI", "", Escape(url), data + rest, tag);
    MatchElement("", tag, "", Escape(metadata), rest);
  }

  /** Outer level: the metadata argument comes back as it was, whatever it holds. */
  lemma MetadataFound(serviceType: string, url: string, metadata: string)
    requires Lacks(serviceType, '>')
    ensures TagText(SetUriBody(serviceType, url, metadata), "CurrentURIMetaData") == Some(Trim(Escape(metadata)))
  {
    NamesPlain();
    EnvelopeHarmless();
    DeclarationPasses("CurrentURIMetaData");
    var rest := EndTag("u", "SetAVTransportURI") + (EndTag("s", "Body") + (EndTag("s", "Envelope") + ""));
    RequestEntered(Declaration(), EnvelopeAttributes(), Attribute("xmlns:u", serviceType),
                   "SetAVTransportURI", SetUriArguments(url, metadata), "CurrentURIMetaData");
    MetadataInArguments(url, metadata, rest);
  }

  /** The media constants and the resolution are printable text without markup. */
  predicate PlainMedia(media: Media, resolution: string) {
    Harmless(media.contentType) && Harmless(media.features) && Harmless(resolution)
  }

  lemma ResourceHarmless(media: Media, resolution: string)
    requires PlainMedia(media, resolution)
    ensures Harmless(ResourceAttributes(media, resolution)) && Attributes(ResourceAttributes(media, resolution))
  {
  }

  /** Inner level: the title of a description is found as the first of its item ... */
  lemma TitleInDescription(attributes: string, itemAttributes: string, resourceAttributes: string, class_: string,
                           title: string, url: string)
    requires Attributes(attributes) && Attributes(itemAttributes)
    ensures TagText(Description(attributes, itemAttributes, resourceAttributes, class_, title, url), "title")
         == Some(Trim(Escape(title)))
  {
    assert Plain("dc") && Plain("title");
    EscapedHasNoMarkup(title);
    var tail := Element("upnp", "class", "", class_) + Element("", "res", resourceAttributes, Escape(url));
    ItemEntered(attributes, itemAttributes, Element("dc", "title", "", Escape(title)) + tail, "title");
    FirstOfTwo("dc", "title", Escape(title), tail, EndTag("", "item") + (EndTag("", "DIDL-Lite") + ""));
  }

  lemma FirstOfTwo(prefix: string, name: string, content: string, tail: string, rest: string)
    requires Plain(prefix) && Plain(name) && Lacks(content, '<')
    ensures Scan(Element(prefix, name, "", content) + tail + rest, name, None) == Some(Trim(content))
  {
    MatchElement(prefix, name, "", content, tail + rest);
    assert Element(prefix, name, "", content) + tail + rest == Element(prefix, name, "", content) + (tail + rest);
  }

  lemma SecondOfTwo(prefix: string, name: string, content: string, prefix': string, name': string, content': string, tail: string, rest: string)
    requires Plain(prefix) && Plain(name) && Lacks(content, '<')
    requires Plain(prefix') && Plain(name') && Lacks(content', '<') && name != name'
    ensures Scan(Element(prefix, name, "", content) + (Element(prefix', name', "", content') + tail) + rest, name', None)
         == Some(Trim(content'))
  {
    var second := Element(prefix', name', "", content');
    SkipElement(prefix, name, "", content, second + tail + rest, name');
    assert Element(prefix, name, "", content) + (second + tail) + rest == Element(prefix, name, "", content) + (second + tail + rest);
    FirstOfTwo(prefix', name', content', tail, rest);
  }

  /** ... and the class right behind it, whatever the title. */
  lemma ClassInDescription(attributes: string, itemAttributes: string, resourceAttributes: string, class_: string,
                           title: string, url: string)
    requires Attributes(attributes) && Attributes(itemAttributes) && Lacks(class_, '<')
    ensures TagText(Description(attributes, itemAttributes, resourceAttributes, class_, title, url), "class")
         == Some(Trim(class_))
  {
    assert Plain("dc") && Plain("title") && Plain("upnp") && Plain("class");
    EscapedHasNoMarkup(title);
    var tail := Element("", "res", resourceAttributes, Escape(url));
    ItemEntered(attributes, itemAttributes, Element("dc", "title", "", Escape(title)) + (Element("upnp", "class", "", class_) + tail), "class");
    SecondOfTwo("dc", "title", Escape(title), "upnp", "class", class_, tail, EndTag("", "item") + (EndTag("", "DIDL-Lite") + ""));
  }

  lemma ItemEntered(attributes: string, itemAttributes: string, content: string, tag: string)
    requires Attributes(attributes) && Attributes(itemAttributes) && tag != "DIDL-Lite" && tag != "item"
    ensures TagText(Element("", "DIDL-Lite", attributes, Element("", "item", itemAttributes, content)), tag)
         == Scan(content + (EndTag("", "item") + (EndTag("", "DIDL-Lite") + "")), tag, None)
  {
    NamesPlain();
    var item := Element("", "item", itemAttributes, content);
    var didl := Element("", "DIDL-Lite", attributes, item);
    assert didl + "" == didl;
    EnterElement("", "DIDL-Lite", attributes, item, "", tag);
    EnterElement("", "item", itemAttributes, content, EndTag("", "DIDL-Lite") + "", tag);
  }

  // ------------------------------------------------------------- round trip

  lemma HarmlessLegal(s: string)
    requires Harmless(s)
    ensures AllLegal(s)
  {
  }

  lemma AllLegalConcat(a: string, b: string)
    requires AllLegal(a) && AllLegal(b)
    ensures AllLegal(a + b)
  {
  }

  lemma ElementLegal(prefix: string, name: string, attributes: string, content: string)
    requires AllLegal(prefix) && AllLegal(name) && AllLegal(attributes) && AllLegal(content)
    ensures AllLegal(Element(prefix, name, attributes, content))
  {
  }

  lemma DescriptionLegal(attributes: string, itemAttributes: string, resourceAttributes: string, class_: string,
                         title: string, url: string)
    requires AllLegal(attributes) && AllLegal(itemAttributes) && AllLegal(resourceAttributes) && AllLegal(class_)
    ensures AllLegal(Description(attributes, itemAttributes, resourceAttributes, class_, title, url))
  {
    EscapedIsLegal(title);
    EscapedIsLegal(url);
    var head := Element("dc", "title", "", Escape(title));
    var mid, tail := Element("upnp", "class", "", class_), Element("", "res", resourceAttributes, Escape(url));
    ElementLegal("dc", "title", "", Escape(title));
    ElementLegal("upnp", "class", "", class_);
    ElementLegal("", "res", resourceAttributes, Escape(url));
    AllLegalConcat(mid, tail);
    AllLegalConcat(head, mid + tail);
    NestedLegal(attributes, itemAttributes, head + (mid + tail));
  }

  lemma NestedLegal(attributes: string, itemAttributes: string, content: string)
    requires AllLegal(attributes) && AllLegal(itemAttributes) && AllLegal(content)
    ensures AllLegal(Element("", "DIDL-Lite", attributes, Element("", "item", itemAttributes, content)))
  {
    ElementLegal("", "item", itemAttributes, content);
    ElementLegal("", "DIDL-Lite", attributes, Element("", "item", itemAttributes, content));
  }

  /** An element has no white ends. */
  lemma ElementTrimmed(prefix: string, name: string, attributes: string, content: string)
    ensures Trim(Element(prefix, name, attributes, content)) == Element(prefix, name, attributes, content)
  {
  }

  lemma DidlLegal(url: string, title: string, resolution: string, media: Media)
    requires PlainMedia(media, resolution)
    ensures Legal(StreamDidl(url, title, resolution, media)) == StreamDidl(url, title, resolution, media)
  {
    DidlHarmless();
    ItemHarmless();
    ResourceHarmless(media, resolution);
    assert Harmless(ITEM_CLASS);
    var (a, i, r) := (DidlAttributes(), ItemAttributes(), ResourceAttributes(media, resolution));
    HarmlessLegal(a);
    HarmlessLegal(i);
    HarmlessLegal(r);
    HarmlessLegal(ITEM_CLASS);
    DescriptionLegal(a, i, r, ITEM_CLASS, title, url);
    LegalIsAllLegal(StreamDidl(url, title, resolution, media));
  }

  /** The renderer finds and unescapes the very description that was put in. */
  lemma DescriptionDelivered(serviceType: string, url: string, title: string, resolution: string, media: Media)
    requires Lacks(serviceType, '>') && PlainMedia(media, resolution)
    ensures var didl := StreamDidl(url, title, resolution, media);
            var found := TagText(SetUriBody(serviceType, url, didl), "CurrentURIMetaData");
            found.Some? && Unescape(found.value) == didl
  {
    var didl := StreamDidl(url, title, resolution, media);
    MetadataFound(serviceType, url, didl);
    TrimEscape(didl);
    DidlLegal(url, title, resolution, media);
    ElementTrimmed("", "DIDL-Lite", DidlAttributes(),
                   Element("", "item", ItemAttributes(),
                           Element("dc", "title", "", Escape(title))
                           + (Element("upnp", "class", "", ITEM_CLASS)
                              + Element("", "res", ResourceAttributes(media, resolution), Escape(url)))));
  }

  /**
   * The two-level round trip: for every title, finding and unescaping the
   * description, then finding and unescaping the title in it, gives the title
   * without forbidden characters and white ends; and whatever the title, the
   * item's class reads as it was written.
   */
  lemma TitleRoundTrip(serviceType: string, url: string, title: string, resolution: string, media: Media)
    requires Lacks(serviceType, '>') && PlainMedia(media, resolution)
    ensures var outer := TagText(SetUriBody(serviceType, url, StreamDidl(url, title, resolution, media)), "CurrentURIMetaData");
            outer.Some? &&
            var inner := Unescape(outer.value);
            && TagText(inner, "title").Some? && Unescape(TagText(inner, "title").value) == Trim(Legal(title))
            && TagText(inner, "class") == Some(Trim(ITEM_CLASS))
  {
    DescriptionDelivered(serviceType, url, title, resolution, media);
    TitleFound(url, title, resolution, media);
    ClassFound(url, title, resolution, media);
    TrimEscape(title);
  }

  lemma TitleFound(url: string, title: string, resolution: string, media: Media)
    ensures TagText(StreamDidl(url, title, resolution, media), "title") == Some(Trim(Escape(title)))
  {
    DidlHarmless();
    ItemHarmless();
    TitleInDescription(DidlAttributes(), ItemAttributes(), ResourceAttributes(media, resolution), ITEM_CLASS, title, url);
  }

  /** No title can change the item's class. */
  lemma ClassFound(url: string, title: string, resolution: string, media: Media)
    ensures TagText(StreamDidl(url, title, resolution, media), "class") == Some(Trim(ITEM_CLASS))
  {
    DidlHarmless();
    ItemHarmless();
    assert Lacks(ITEM_CLASS, '<');
    ClassInDescription(DidlAttributes(), ItemAttributes(), ResourceAttributes(media, resolution), ITEM_CLASS, title, url);
  }

  // ------------------------------------------------------------- the stream

  lemma UriInArguments(url: string, metadata: string, rest: string)
    ensures Scan(SetUriArguments(url, metadata) + rest, "CurrentURI", None) == Some(Trim(Escape(url)))
    ensures Scan(SetUriArguments(url, metadata) + rest, "InstanceID", None) == Some(Trim("0"))
  {
    NamesPlain();
    var id, uri := Element("", "InstanceID", "", "0"), Element("", "CurrentURI", "", Escape(url));
    var data := Element("", "CurrentURIMetaData", "", Escape(metadata));
    EscapedHasNoMarkup(url);
    assert id + (uri + data) + rest == id + (uri + (data + rest));
    SkipElement("", "InstanceID", "", "0", uri + (data + rest), "CurrentURI");
    MatchElement("", "CurrentURI", "", Escape(url), data + rest);
    MatchElement("", "InstanceID", "", "0", uri + (data + rest));
  }

  /** The renderer is told the very address of the stream, for instance 0, whatever else the request holds. */
  lemma UriDelivered(serviceType: string, url: string, metadata: string)
    requires Lacks(serviceType, '>')
    ensures var found := TagText(SetUriBody(serviceType, url, metadata), "CurrentURI");
            found.Some? && Unescape(found.value) == Trim(Legal(url))
    ensures TagText(SetUriBody(serviceType, url, metadata), "InstanceID") == Some(Trim("0"))
  {
    NamesPlain();
    EnvelopeHarmless();
    DeclarationPasses("CurrentURI");
    DeclarationPasses("InstanceID");
    var rest := EndTag("u", "SetAVTransportURI") + (EndTag("s", "Body") + (EndTag("s", "Envelope") + ""));
    var arguments, namespace := SetUriArguments(url, metadata), Attribute("xmlns:u", serviceType);
    RequestEntered(Declaration(), EnvelopeAttributes(), namespace, "SetAVTransportURI", arguments, "CurrentURI");
    RequestEntered(Declaration(), EnvelopeAttributes(), namespace, "SetAVTransportURI", arguments, "InstanceID");
    UriInArguments(url, metadata, rest);
    TrimEscape(url);
  }

  /** The description's resource is the same address, after title and class. */
  lemma ResourceFound(url: string, title: string, resolution: string, media: Media)
    requires PlainMedia(media, resolution)
    ensures var found := TagText(StreamDidl(url, title, resolution, media), "res");
            found.Some? && Unescape(found.value) == Trim(Legal(url))
  {
    NamesPlain();
    DidlHarmless();
    ItemHarmless();
    ResourceHarmless(media, resolution);
    EscapedHasNoMarkup(title);
    EscapedHasNoMarkup(url);
    assert Lacks(ITEM_CLASS, '<');
    var resource := Element("", "res", ResourceAttributes(media, resolution), Escape(url));
    var kind := Element("upnp", "class", "", ITEM_CLASS);
    var rest := EndTag("", "item") + (EndTag("", "DIDL-Lite") + "");
    ItemEntered(DidlAttributes(), ItemAttributes(), Element("dc", "title", "", Escape(title)) + (kind + resource), "res");
    ResourceBehind(Escape(title), ITEM_CLASS, ResourceAttributes(media, resolution), Escape(url), rest);
    TrimEscape(url);
  }

  lemma ResourceBehind(title: string, class_: string, attributes: string, url: string, rest: string)
    requires Lacks(title, '<') && Lacks(class_, '<') && Lacks(url, '<') && Attributes(attributes)
    ensures Scan(Element("dc", "title", "", title) + (Element("upnp", "class", "", class_) + Element("", "res", attributes, url)) + rest,
                 "res", None) == Some(Trim(url))
  {
    NamesPlain();
    var first, second, third := Element("dc", "title", "", title), Element("upnp", "class", "", class_), Element("", "res", attributes, url);
    assert first + (second + third) + rest == first + (second + (third + rest));
    SkipElement("dc", "title", "", title, second + (third + rest), "res");
    SkipElement("upnp", "class", "", class_, third + rest, "res");
    MatchElement("", "res", attributes, url, rest);
  }
}
