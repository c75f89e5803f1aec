/**
 * XML as the UPnP code writes and scans it: `Escape` for text and attributes,
 * `TagText` for the text of the first element of a name, whatever its prefix.
 * `Unescape` is the reader's side, the entity references of XML 1.0.
 */
module Upnp {
  import opened Common
  import opened Text

  // ---------------------------------------------------------------- escaping

  predicate Control(c: char) {
    c < ' ' || '\U{7f}' <= c <= '\U{9f}'
  }

  /** Characters that survive escaping. */
  predicate IsLegal(c: char) {
    c == '\t' || c == '\n' || c == '\r' || !(Control(c) || c == '\U{fffe}' || c == '\U{ffff}')
  }

  /** The characters of XML 1.0, its section 2.2. */
  predicate XmlChar(c: char) {
    var n := c as int;
    n == 0x9 || n == 0xA || n == 0xD || 0x20 <= n <= 0xD7FF || 0xE000 <= n <= 0xFFFD || 0x1_0000 <= n <= 0x10_FFFF
  }

  /** What survives is what XML allows, less the controls from DEL on, which it allows and the code drops too. */
  lemma LegalExactly(c: char)
    ensures IsLegal(c) <==> XmlChar(c) && !(0x7F <= c as int <= 0x9F)
  {
  }

  function EscapeChar(c: char): string {
    if c == '&' then "&amp;"
    else if c == '<' then "&lt;"
    else if c == '>' then "&gt;"
    else if c == '\"' then "&quot;"
    else if c == '\'' then "&apos;"
    else if IsLegal(c) then [c]
    else ""
  }

  function Escape(text: string): string {
    if text == "" then "" else EscapeChar(text[0]) + Escape(text[1..])
  }

  /** `text` without the characters that are dropped. */
  function Legal(text: string): string {
    if text == "" then ""
    else (if IsLegal(text[0]) then [text[0]] else "") + Legal(text[1..])
  }

  /** The character an entity reference at the start of `s` stands for, and its length. */
  function Entity(s: string): Option<(char, nat)> {
    if "&amp;" <= s then Some(('&', 5))
    else if "&lt;" <= s then Some(('<', 4))
    else if "&gt;" <= s then Some(('>', 4))
    else if "&quot;" <= s then Some(('\"', 6))
    else if "&apos;" <= s then Some(('\'', 6))
    else None
  }

  function Unescape(s: string): string
    decreases |s|
  {
    if s == "" then ""
    else
      match Entity(s)
      case Some((c, n)) => [c] + Unescape(s[n..])
      case None => [s[0]] + Unescape(s[1..])
  }

  /** Builds the escaped text character by character. */
  method EscapeText(text: string) returns (out: string)
    ensures out == Escape(text)
  {
    out := "";
    for i := 0 to |text|
      invariant out + Escape(text[i..]) == Escape(text)
    {
      assert text[i..][1..] == text[i + 1..];
      assert Escape(text[i..]) == EscapeChar(text[i]) + Escape(text[i + 1..]);
      out := out + EscapeChar(text[i]);
    }
  }

  lemma {:induction false} EscapeConcat(a: string, b: string)
    ensures Escape(a + b) == Escape(a) + Escape(b)
  {
    if a == "" {
      assert a + b == b;
    } else {
      assert (a + b)[1..] == a[1..] + b;
      EscapeConcat(a[1..], b);
    }
  }

  lemma {:induction false} LegalConcat(a: string, b: string)
    ensures Legal(a + b) == Legal(a) + Legal(b)
  {
    if a == "" {
      assert a + b == b;
    } else {
      assert (a + b)[0] == a[0] && (a + b)[1..] == a[1..] + b;
      LegalConcat(a[1..], b);
      assert Legal(a + b) == (if IsLegal(a[0]) then [a[0]] else "") + Legal(a[1..] + b);
    }
  }

  lemma UnescapeOne(c: char, rest: string)
    ensures Unescape(EscapeChar(c) + rest) == (if IsLegal(c) then [c] else "") + Unescape(rest)
  {
    var s := EscapeChar(c) + rest;
    if !IsLegal(c) {
      assert s == rest;
    } else {
      var e := EscapeChar(c);
      assert s[|e|..] == rest;
      assert forall i | 0 <= i < |e| :: s[i] == e[i];
      EntityOf(c, s);
    }
  }

  lemma EntityOf(c: char, s: string)
    requires IsLegal(c) && EscapeChar(c) <= s
    ensures Entity(s) == if |EscapeChar(c)| == 1 then None else Some((c, |EscapeChar(c)|))
  {
    var e := EscapeChar(c);
    assert s[0] == e[0] && (|e| > 1 ==> s[1] == e[1]) && (|e| > 2 ==> s[2] == e[2]);
  }

  /** Reading escaped text back gives the text without its forbidden characters. */
  lemma {:induction false} UnescapeEscape(text: string)
    ensures Unescape(Escape(text)) == Legal(text)
  {
    if text != "" {
      UnescapeOne(text[0], Escape(text[1..]));
      UnescapeEscape(text[1..]);
    }
  }

  /** On what it keeps, escaping is injective. */
  lemma EscapeInjective(a: string, b: string)
    requires Escape(a) == Escape(b)
    ensures Legal(a) == Legal(b)
  {
    UnescapeEscape(a);
    UnescapeEscape(b);
  }

  predicate Lacks(s: string, c: char) {
    forall i | 0 <= i < |s| :: s[i] != c
  }

  lemma LacksConcat(a: string, b: string, c: char)
    requires Lacks(a, c) && Lacks(b, c)
    ensures Lacks(a + b, c)
  {
  }

  /** Escaped text holds no markup and nothing that could end an attribute. */
  lemma {:induction false} EscapedHasNoMarkup(text: string)
    ensures var e := Escape(text); Lacks(e, '<') && Lacks(e, '>') && Lacks(e, '\"') && Lacks(e, '\'')
  {
    if text != "" {
      EscapedHasNoMarkup(text[1..]);
      var head := EscapeChar(text[0]);
      assert Lacks(head, '<') && Lacks(head, '>') && Lacks(head, '\"') && Lacks(head, '\'');
      LacksConcat(head, Escape(text[1..]), '<');
      LacksConcat(head, Escape(text[1..]), '>');
      LacksConcat(head, Escape(text[1..]), '\"');
      LacksConcat(head, Escape(text[1..]), '\'');
    }
  }

  predicate AllLegal(s: string) {
    forall i | 0 <= i < |s| :: IsLegal(s[i])
  }

  lemma {:induction false} LegalIsAllLegal(s: string)
    ensures AllLegal(Legal(s))
    ensures AllLegal(s) ==> Legal(s) == s
  {
    if s != "" {
      LegalIsAllLegal(s[1..]);
    }
  }

  lemma {:induction false} EscapedIsLegal(text: string)
    ensures AllLegal(Escape(text))
  {
    if text != "" {
      EscapedIsLegal(text[1..]);
      assert AllLegal(EscapeChar(text[0]));
    }
  }

  lemma {:induction false} EscapeIgnoresIllegal(text: string)
    ensures Escape(Legal(text)) == Escape(text)
  {
    if text != "" {
      EscapeIgnoresIllegal(text[1..]);
      if IsLegal(text[0]) {
        assert Legal(text)[1..] == Legal(text[1..]);
      } else {
        assert Legal(text) == Legal(text[1..]);
      }
    }
  }

  // ---------------------------------------------------------------- trimming

  lemma EscapeCharEnds(c: char)
    requires IsLegal(c)
    ensures var e := EscapeChar(c);
            e != "" && (if IsWhite(c) then e == [c] else !IsWhite(e[0]) && !IsWhite(e[|e| - 1]))
  {
  }

  lemma {:induction false} TrimStartEscape(s: string)
    requires AllLegal(s)
    ensures TrimStart(Escape(s)) == Escape(TrimStart(s)) && AllLegal(TrimStart(s))
  {
    if s != "" {
      EscapeCharEnds(s[0]);
      if IsWhite(s[0]) {
        assert Escape(s)[1..] == Escape(s[1..]);
        TrimStartEscape(s[1..]);
      }
    }
  }

  lemma EscapeLast(front: string, c: char)
    ensures Escape(front + [c]) == Escape(front) + EscapeChar(c)
  {
    EscapeConcat(front, [c]);
    assert [c][1..] == "" && Escape([c]) == EscapeChar(c) + Escape("");
  }

  lemma {:induction false} TrimEndEscape(s: string)
    requires AllLegal(s)
    ensures TrimEnd(Escape(s)) == Escape(TrimEnd(s)) && AllLegal(TrimEnd(s))
  {
    if s != "" {
      var front, c := s[..|s| - 1], s[|s| - 1];
      EscapeLast(front, c);
      assert front + [c] == s;
      EscapeCharEnds(c);
      if IsWhite(c) {
        assert Escape(s)[..|Escape(s)| - 1] == Escape(front);
        TrimEndEscape(front);
      }
    }
  }

  /** Trimming the escaped text trims the text. */
  lemma TrimEscape(text: string)
    ensures Unescape(Trim(Escape(text))) == Trim(Legal(text))
  {
    var s := Legal(text);
    LegalIsAllLegal(text);
    EscapeIgnoresIllegal(text);
    TrimStartEscape(s);
    TrimEndEscape(TrimStart(s));
    UnescapeEscape(Trim(s));
    LegalIsAllLegal(Trim(s));
  }

  // ---------------------------------------------------------------- scanning

  predicate EndsName(c: char) {
    c == ' ' || c == '\t' || c == '\r' || c == '\n' || c == '/'
  }

  function StripSlashes(s: string): string {
    if s != "" && s[0] == '/' then StripSlashes(s[1..]) else s
  }

  function UntilNameEnds(s: string): string {
    if s == "" || EndsName(s[0]) then "" else [s[0]] + UntilNameEnds(s[1..])
  }

  function LastPart(s: string): string
    decreases |s|
  {
    var i := IndexOf(s, ':');
    if i == |s| then s else LastPart(s[i + 1..])
  }

  /** The name in a tag, without its slash, attributes and prefix. */
  function LocalName(inner: string): string {
    LastPart(UntilNameEnds(StripSlashes(inner)))
  }

  predicate Closing(inner: string) {
    inner != "" && inner[0] == '/'
  }

  function Grow(body: Option<string>, more: string): Option<string> {
    if body.None? then None else Some(body.value + more)
  }

  /** Where the first tag opens and closes. */
  function FirstTag(xml: string): (r: Option<(nat, nat)>)
    ensures r.Some? ==> r.value.0 < r.value.1 < |xml|
  {
    var open := IndexOf(xml, '<');
    var close := open + IndexOf(xml[open..], '>');
    if open == |xml| || close == |xml| then None
    else
      assert xml[open..][0] == '<';
      Some((open, close))
  }

  datatype Action = Pass | Begin | End

  /** What a tag means to the scan for `tag`, inside or outside an element of that name. */
  function ActionOf(inner: string, tag: string, inside: bool): Action {
    if LocalName(inner) != tag || Closing(inner) != inside then Pass
    else if inside then End
    else Begin
  }

  /** One tag of the scan: none left, the text found, or what is left to scan. */
  datatype Next = Stop | Found(text: string) | Go(rest: string, body: Option<string>)

  /** What a tag does: `text` lies before it, `through` ends with it, `rest` is behind it. */
  function Act(action: Action, text: string, through: string, rest: string, body: Option<string>): Next
    requires action.End? ==> body.Some?
  {
    match action
    case Pass => Go(rest, Grow(body, through))
    case Begin => Go(rest, Some(""))
    case End => Found(Trim(body.value + text))
  }

  function Step(xml: string, tag: string, body: Option<string>): (next: Next)
    ensures next.Go? ==> |next.rest| < |xml|
  {
    var first := FirstTag(xml);
    if first.None? then Stop
    else
      var (open, close) := first.value;
      Act(ActionOf(xml[open + 1..close], tag, body.Some?), xml[..open], xml[..close + 1], xml[close + 1..], body)
  }

  /** The text from the first opening of `tag` to its first closing; `body` is what was read since an opening. */
  function Scan(xml: string, tag: string, body: Option<string>): Option<string>
    decreases |xml|
  {
    match Step(xml, tag, body)
    case Stop => None
    case Found(text) => Some(text)
    case Go(rest, more) => Scan(rest, tag, more)
  }

  function TagText(xml: string, tag: string): Option<string> {
    Scan(xml, tag, None)
  }

  /** Finds the next tag by position. */
  method NextTag(xml: string, cursor: nat) returns (r: Option<(nat, nat)>)
    requires cursor <= |xml|
    ensures r.None? <==> FirstTag(xml[cursor..]).None?
    ensures r.Some? ==> cursor <= r.value.0 < r.value.1 < |xml|
                        && FirstTag(xml[cursor..]) == Some((r.value.0 - cursor, r.value.1 - cursor))
  {
    var open := cursor + IndexOf(xml[cursor..], '<');
    if open == |xml| {
      return None;
    }
    assert xml[cursor..][open - cursor..] == xml[open..];
    var close := open + IndexOf(xml[open..], '>');
    return if close == |xml| then None else Some((open, close));
  }

  /** Handles one tag by position: the answer, or the new cursor and start of the body. */
  method ScanOnce(xml: string, tag: string, cursor: nat, start: Option<nat>)
    returns (done: bool, text: Option<string>, cursor': nat, start': Option<nat>)
    requires cursor <= |xml| && (start.Some? ==> start.value <= cursor)
    ensures cursor' <= |xml| && (start'.Some? ==> start'.value <= cursor')
    ensures match Step(xml[cursor..], tag, BodySince(xml, start, cursor))
            case Stop => done && text == None
            case Found(t) => done && text == Some(t)
            case Go(rest, body) => !done && cursor < cursor' && rest == xml[cursor'..] && body == BodySince(xml, start', cursor')
  {
    done, text, cursor', start' := true, None, cursor, start;
    var found := NextTag(xml, cursor);
    if found.None? {
      return;
    }
    var (open, close) := found.value;
    StepFrom(xml, tag, start, cursor, open, close);
    match ActionOf(xml[open + 1..close], tag, start.Some?) {
      case Pass => done, cursor' := false, close + 1;
      case Begin => done, cursor', start' := false, close + 1, Some(close + 1);
      case End => text := Some(Trim(xml[start.value..open]));
    }
  }

  /** The scan by position, as one pass over the document. */
  method FindTagText(xml: string, tag: string) returns (text: Option<string>)
    ensures text == TagText(xml, tag)
  {
    var cursor := 0;
    var start: Option<nat> := None;
    var done := false;
    text := None;
    assert xml[0..] == xml;
    while !done
      invariant cursor <= |xml| && (start.Some? ==> start.value <= cursor)
      invariant if done then text == TagText(xml, tag)
                else TagText(xml, tag) == Scan(xml[cursor..], tag, BodySince(xml, start, cursor))
      decreases !done, |xml| - cursor
    {
      done, text, cursor, start := ScanOnce(xml, tag, cursor, start);
    }
  }

  function BodySince(xml: string, start: Option<nat>, cursor: nat): Option<string>
    requires cursor <= |xml| && (start.Some? ==> start.value <= cursor)
  {
    if start.None? then None else Some(xml[start.value..cursor])
  }

  lemma BodyGrows(xml: string, start: Option<nat>, cursor: nat, to: nat)
    requires cursor <= to <= |xml| && (start.Some? ==> start.value <= cursor)
    ensures Grow(BodySince(xml, start, cursor), xml[cursor..][..to - cursor]) == BodySince(xml, start, to)
  {
    if start.Some? {
      assert xml[start.value..cursor] + xml[cursor..][..to - cursor] == xml[start.value..to];
    }
  }

  lemma ActFrom(action: Action, xml: string, start: Option<nat>, cursor: nat, open: nat, close: nat)
    requires cursor <= open < close < |xml| && (start.Some? ==> start.value <= cursor)
    requires action.End? ==> start.Some?
    ensures Act(action, xml[cursor..][..open - cursor], xml[cursor..][..close + 1 - cursor], xml[close + 1..], BodySince(xml, start, cursor)) ==
            match action
            case Pass => Go(xml[close + 1..], BodySince(xml, start, close + 1))
            case Begin => Go(xml[close + 1..], BodySince(xml, Some(close + 1), close + 1))
            case End => Found(Trim(xml[start.value..open]))
  {
    match action
    case Pass => BodyGrows(xml, start, cursor, close + 1);
    case Begin => assert xml[close + 1..close + 1] == "";
    case End => BodyGrows(xml, start, cursor, open);
  }

  /** One step of the scan, in positions of the whole document. */
  lemma StepFrom(xml: string, tag: string, start: Option<nat>, cursor: nat, open: nat, close: nat)
    requires cursor <= open < close < |xml| && (start.Some? ==> start.value <= cursor)
    requires FirstTag(xml[cursor..]) == Some((open - cursor, close - cursor))
    ensures Step(xml[cursor..], tag, BodySince(xml, start, cursor)) ==
            match ActionOf(xml[open + 1..close], tag, start.Some?)
            case Pass => Go(xml[close + 1..], BodySince(xml, start, close + 1))
            case Begin => Go(xml[close + 1..], BodySince(xml, Some(close + 1), close + 1))
            case End => Found(Trim(xml[start.value..open]))
  {
    assert xml[cursor..][open - cursor + 1..close - cursor] == xml[open + 1..close];
    assert xml[cursor..][close - cursor + 1..] == xml[close + 1..];
    ActFrom(ActionOf(xml[open + 1..close], tag, start.Some?), xml, start, cursor, open, close);
  }

  // ---------------------------------------------------------------- elements

  function Qualified(prefix: string, name: string): string {
    if prefix == "" then name else prefix + ":" + name
  }

  /** An element with its attributes, which start with a space if there are any. */
  function Element(prefix: string, name: string, attributes: string, content: string): string {
    "<" + (Qualified(prefix, name) + attributes) + ">" + (content + ("<" + ("/" + Qualified(prefix, name)) + ">"))
  }

  /** A name without colon, slash, space or angle bracket. */
  predicate Plain(name: string) {
    name != "" && forall i | 0 <= i < |name| :: !EndsName(name[i]) && name[i] != ':' && name[i] != '>'
  }

  predicate Attributes(s: string) {
    (s == "" || s[0] == ' ') && Lacks(s, '>')
  }

  lemma FirstTagOf(text: string, inner: string, rest: string)
    requires Lacks(text, '<') && Lacks(inner, '>')
    ensures var xml := text + ("<" + inner + ">" + rest);
            && FirstTag(xml) == Some((|text|, |text| + 1 + |inner|))
            && xml[|text| + 1..|text| + 1 + |inner|] == inner && xml[|text| + 2 + |inner|..] == rest
            && xml[..|text|] == text && xml[..|text| + 2 + |inner|] == text + ("<" + inner + ">")
  {
    var xml := text + ("<" + inner + ">" + rest);
    assert xml == text + ['<'] + (inner + ">" + rest);
    IndexOfIn(text, '<', inner + ">" + rest);
    var tail := xml[|text|..];
    assert tail == ("<" + inner) + ['>'] + rest;
    assert Lacks("<", '>');
    IndexOfIn("<" + inner, '>', rest);
  }

  lemma StepTag(text: string, inner: string, rest: string, tag: string, body: Option<string>)
    requires Lacks(text, '<') && Lacks(inner, '>')
    ensures Step(text + ("<" + inner + ">" + rest), tag, body) ==
            match ActionOf(inner, tag, body.Some?)
            case Pass => Go(rest, Grow(body, text + ("<" + inner + ">")))
            case Begin => Go(rest, Some(""))
            case End => Found(Trim(body.value + text))
  {
    FirstTagOf(text, inner, rest);
  }

  lemma {:induction false} NameEndsAt(name: string, rest: string)
    requires (forall i | 0 <= i < |name| :: !EndsName(name[i])) && (rest == "" || EndsName(rest[0]))
    ensures UntilNameEnds(name + rest) == name
  {
    var s := name + rest;
    if name == "" {
      assert s == rest;
    } else {
      assert s[0] == name[0] && s[1..] == name[1..] + rest;
      NameEndsAt(name[1..], rest);
    }
  }

  lemma LastPartOf(prefix: string, name: string)
    requires Lacks(prefix, ':') && Plain(name)
    ensures LastPart(Qualified(prefix, name)) == name
  {
    assert LastPart(name) == name;
    if prefix != "" {
      var q := prefix + ":" + name;
      IndexOfIn(prefix, ':', name);
      assert prefix + [':'] + name == q;
      assert q[|prefix| + 1..] == name;
    }
  }

  /** Prefixes and attributes do not change which element a tag names. */
  lemma LocalNameOf(prefix: string, name: string, attributes: string)
    requires (prefix == "" || Plain(prefix)) && Plain(name) && Attributes(attributes)
    ensures LocalName(Qualified(prefix, name) + attributes) == name && !Closing(Qualified(prefix, name) + attributes)
    ensures LocalName("/" + Qualified(prefix, name)) == name && Closing("/" + Qualified(prefix, name))
    ensures Lacks(Qualified(prefix, name) + attributes, '>') && Lacks("/" + Qualified(prefix, name), '>')
  {
    var q := Qualified(prefix, name);
    assert forall i | 0 <= i < |q| :: !EndsName(q[i]) && q[i] != '>';
    LastPartOf(prefix, name);
    NameEndsAt(q, attributes);
    NameEndsAt(q, "");
    assert q + "" == q;
    assert StripSlashes(q + attributes) == q + attributes;
    assert ("/" + q)[1..] == q && StripSlashes(q) == q;
  }

  lemma ElementParts(prefix: string, name: string, attributes: string, content: string, rest: string)
    ensures Element(prefix, name, attributes, content) + rest
         == "" + ("<" + (Qualified(prefix, name) + attributes) + ">"
                  + (content + ("<" + ("/" + Qualified(prefix, name)) + ">" + rest)))
  {
  }

  /** Before the tag is found, an element of another name is entered like plain text. */
  lemma EnterElement(prefix: string, name: string, attributes: string, content: string, rest: string, tag: string)
    requires (prefix == "" || Plain(prefix)) && Plain(name) && Attributes(attributes) && name != tag
    ensures Scan(Element(prefix, name, attributes, content) + rest, tag, None)
         == Scan(content + ("<" + ("/" + Qualified(prefix, name)) + ">" + rest), tag, None)
  {
    LocalNameOf(prefix, name, attributes);
    ElementParts(prefix, name, attributes, content, rest);
    StepTag("", Qualified(prefix, name) + attributes,
            content + ("<" + ("/" + Qualified(prefix, name)) + ">" + rest), tag, None);
  }

  /** An element of another name that holds only text is passed over. */
  lemma SkipElement(prefix: string, name: string, attributes: string, content: string, rest: string, tag: string)
    requires (prefix == "" || Plain(prefix)) && Plain(name) && Attributes(attributes) && name != tag
    requires Lacks(content, '<')
    ensures Scan(Element(prefix, name, attributes, content) + rest, tag, None) == Scan(rest, tag, None)
  {
    EnterElement(prefix, name, attributes, content, rest, tag);
    LocalNameOf(prefix, name, "");
    StepTag(content, "/" + Qualified(prefix, name), rest, tag, None);
  }

  /** The first element of the name gives its text, trimmed. */
  lemma MatchElement(prefix: string, name: string, attributes: string, content: string, rest: string)
    requires (prefix == "" || Plain(prefix)) && Plain(name) && Attributes(attributes) && Lacks(content, '<')
    ensures Scan(Element(prefix, name, attributes, content) + rest, name, None) == Some(Trim(content))
  {
    LocalNameOf(prefix, name, attributes);
    var end := "/" + Qualified(prefix, name);
    ElementParts(prefix, name, attributes, content, rest);
    StepTag("", Qualified(prefix, name) + attributes, content + ("<" + end + ">" + rest), name, None);
    StepTag(content, end, rest, name, Some(""));
    assert "" + content == content;
  }
}
