/**
 * The file of remembered receiver identities: one `name key` line per receiver,
 * both in hex, oldest first.  The text is read and written exactly as lines and
 * first spaces say, and refines an insertion-ordered map of at most 256 entries.
 */
module Identity {
  import opened Common
  import opened Text

  const MAX_REMEMBERED := 256

  // ------------------------------------------------------------------ text

  function Nibble(n: nat): char
    requires n < 16
  {
    "0123456789abcdef"[n]
  }

  function Hex(data: bytes): string {
    if data == [] then "" else [Nibble(data[0] / 16), Nibble(data[0] % 16)] + Hex(data[1..])
  }

  datatype Entry = Entry(name: string, key: string)

  /** `split_once(' ')`. */
  function SplitOnce(line: string): Option<Entry> {
    var i := IndexOf(line, ' ');
    if i == |line| then None else Some(Entry(line[..i], line[i + 1..]))
  }

  function EntriesOf(lines: seq<string>): seq<Entry> {
    if lines == [] then []
    else
      match SplitOnce(lines[0])
      case None => EntriesOf(lines[1..])
      case Some(e) => [e] + EntriesOf(lines[1..])
  }

  function Entries(t: string): seq<Entry> {
    EntriesOf(Lines(t))
  }

  function RenderOne(e: Entry): string {
    e.name + " " + e.key + "\n"
  }

  function Render(es: seq<Entry>): string {
    if es == [] then "" else Render(es[..|es| - 1]) + RenderOne(es[|es| - 1])
  }

  function Find(es: seq<Entry>, name: string): Option<string> {
    if es == [] then None
    else if es[0].name == name then Some(es[0].key)
    else Find(es[1..], name)
  }

  // -------------------------------------------------------------- verdicts

  /** `Unchanged` accepts, `Refused` is an error, `Remember` accepts once the new text is written. */
  datatype Verdict = Unchanged | Refused | Remember(contents: string)

  function Newest(es: seq<Entry>): seq<Entry> {
    if |es| <= MAX_REMEMBERED then es else es[|es| - MAX_REMEMBERED..]
  }

  function Judge(t: string, receiver: bytes, key: Option<bytes>): Verdict {
    var name := Hex(receiver);
    var known := Find(Entries(t), name);
    if known.Some? then
      if key.Some? && known.value == Hex(key.value) then Unchanged else Refused
    else if key.None? then Unchanged
    else Remember(Render(Newest(Entries(t) + [Entry(name, Hex(key.value))])))
  }

  predicate Keeps(line: string, name: string) {
    SplitOnce(line).None? || SplitOnce(line).value.name != name
  }

  /** The lines that stay when `name` is forgotten, each closed by a newline. */
  function Kept(lines: seq<string>, name: string): string {
    if lines == [] then ""
    else (if Keeps(lines[0], name) then lines[0] + "\n" else "") + Kept(lines[1..], name)
  }

  /** The text after forgetting: rewritten only when the length shows that a line went. */
  function Forgotten(t: string, receiver: bytes): string {
    var kept := Kept(Lines(t), Hex(receiver));
    if |kept| == |t| then t else kept
  }

  /** The text of the entries from `skip` on, built line by line. */
  method Written(entries: seq<Entry>, skip: nat) returns (contents: string)
    requires skip <= |entries|
    ensures contents == Render(entries[skip..])
  {
    ghost var kept := entries[skip..];
    contents := "";
    for i := skip to |entries|
      invariant contents == Render(kept[..i - skip])
    {
      assert kept[..i - skip + 1][..i - skip] == kept[..i - skip];
      contents := contents + (entries[i].name + " " + entries[i].key + "\n");
    }
    assert kept[..|entries| - skip] == kept;
  }

  /** The verdict on a receiver against the text. */
  method Remembered(t: string, receiver: bytes, key: Option<bytes>) returns (v: Verdict)
    ensures v == Judge(t, receiver, key)
  {
    var name := Hex(receiver);
    var entries := Entries(t);
    var known := Find(entries, name);
    if known.Some? {
      return if key.Some? && known.value == Hex(key.value) then Unchanged else Refused;
    }
    if key.None? {
      return Unchanged;
    }
    entries := entries + [Entry(name, Hex(key.value))];
    var skip := if |entries| > MAX_REMEMBERED then |entries| - MAX_REMEMBERED else 0;
    assert Newest(entries) == entries[skip..];
    var contents := Written(entries, skip);
    return Remember(contents);
  }

  /** The file, replaced as a whole by each write. */
  class IdentityFile {
    var text: string

    constructor ()
      ensures text == ""
    {
      text := "";
    }

    /** Answers by the remembered key; a first key is written down and accepted. */
    method CheckIn(receiver: bytes, key: Option<bytes>) returns (accepted: bool)
      modifies this
      ensures var v := Judge(old(text), receiver, key);
              accepted == !v.Refused? && text == if v.Remember? then v.contents else old(text)
    {
      var v := Remembered(text, receiver, key);
      if v.Remember? {
        text := v.contents;
      }
      return !v.Refused?;
    }

    method ForgetIn(receiver: bytes)
      modifies this
      ensures text == Forgotten(old(text), receiver)
    {
      var kept := Kept(Lines(text), Hex(receiver));
      if |kept| == |text| {
        return;
      }
      text := kept;
    }
  }

  // ------------------------------------------------- the text and its entries

  predicate IsHexDigit(c: char) {
    '0' <= c <= '9' || 'a' <= c <= 'f'
  }

  predicate IsHex(s: string) {
    forall i | 0 <= i < |s| :: IsHexDigit(s[i])
  }

  lemma {:induction false} HexIsHex(data: bytes)
    ensures IsHex(Hex(data)) && |Hex(data)| == 2 * |data|
  {
    if data != [] {
      HexIsHex(data[1..]);
      assert IsHexDigit(Nibble(data[0] / 16)) && IsHexDigit(Nibble(data[0] % 16));
      var head, tail := [Nibble(data[0] / 16), Nibble(data[0] % 16)], Hex(data[1..]);
      forall i | 0 <= i < |Hex(data)|
        ensures IsHexDigit(Hex(data)[i])
      {
        assert Hex(data)[i] == if i < 2 then head[i] else tail[i - 2];
      }
    }
  }

  lemma NibbleInjective(a: byte, b: byte)
    requires Nibble(a / 16) == Nibble(b / 16) && Nibble(a % 16) == Nibble(b % 16)
    ensures a == b
  {
    assert forall m, n | 0 <= m < n < 16 :: "0123456789abcdef"[m] != "0123456789abcdef"[n];
  }

  /** Different receivers have different names, and different keys different texts. */
  lemma {:induction false} HexInjective(a: bytes, b: bytes)
    requires Hex(a) == Hex(b)
    ensures a == b
  {
    HexIsHex(a);
    HexIsHex(b);
    if a != [] {
      assert Hex(a)[0] == Hex(b)[0] && Hex(a)[1] == Hex(b)[1];
      NibbleInjective(a[0], b[0]);
      assert Hex(a[1..]) == Hex(a)[2..] == Hex(b)[2..] == Hex(b[1..]);
      HexInjective(a[1..], b[1..]);
      assert a == [a[0]] + a[1..] && b == [b[0]] + b[1..];
    }
  }

  ghost predicate AllHex(es: seq<Entry>) {
    forall e | e in es :: IsHex(e.name) && IsHex(e.key)
  }

  lemma LineOf(e: Entry)
    requires IsHex(e.name) && IsHex(e.key)
    ensures var line := e.name + " " + e.key;
            PlainLine(line) && SplitOnce(line) == Some(e)
  {
    var line := e.name + " " + e.key;
    IndexOfIn(e.name, ' ', e.key);
    assert line[..|e.name|] == e.name && line[|e.name| + 1..] == e.key;
    assert line[|line| - 1] == ' ' || IsHexDigit(line[|line| - 1]);
  }

  lemma FirstEntryLine(e: Entry, rest: string)
    requires IsHex(e.name) && IsHex(e.key)
    ensures Lines(RenderOne(e) + rest) == [e.name + " " + e.key] + Lines(rest)
  {
    LineOf(e);
    FirstLine(e.name + " " + e.key, rest);
  }

  lemma {:induction false} RenderFront(es: seq<Entry>)
    requires es != []
    ensures Render(es) == RenderOne(es[0]) + Render(es[1..])
  {
    if |es| > 1 {
      RenderFront(es[..|es| - 1]);
      assert es[..|es| - 1][1..] == es[1..][..|es| - 2];
      assert es[1..][|es| - 2] == es[|es| - 1];
    }
  }

  /** Writing entries and reading the text back gives the same entries. */
  lemma {:induction false} EntriesRoundTrip(es: seq<Entry>)
    requires AllHex(es)
    ensures Entries(Render(es)) == es
    decreases |es|
  {
    if es != [] {
      RenderFront(es);
      LineOf(es[0]);
      FirstEntryLine(es[0], Render(es[1..]));
      EntriesRoundTrip(es[1..]);
      var lines := Lines(Render(es));
      assert lines[1..] == Lines(Render(es[1..]));
    }
  }

  function Without(es: seq<Entry>, name: string): seq<Entry> {
    if es == [] then []
    else (if es[0].name == name then [] else [es[0]]) + Without(es[1..], name)
  }

  lemma {:induction false} WithoutHex(es: seq<Entry>, name: string)
    requires AllHex(es)
    ensures AllHex(Without(es, name))
    ensures |Without(es, name)| <= |es|
    ensures forall e | e in Without(es, name) :: e in es && e.name != name
    ensures forall e | e in es && e.name != name :: e in Without(es, name)
  {
    if es != [] {
      WithoutHex(es[1..], name);
      assert forall e | e in es :: e == es[0] || e in es[1..];
    }
  }

  /** Forgetting on the text is removing from the entries. */
  lemma {:induction false} KeptIsWithout(es: seq<Entry>, name: string)
    requires AllHex(es)
    ensures Kept(Lines(Render(es)), name) == Render(Without(es, name))
    decreases |es|
  {
    if es != [] {
      RenderFront(es);
      LineOf(es[0]);
      FirstEntryLine(es[0], Render(es[1..]));
      KeptIsWithout(es[1..], name);
      var lines := Lines(Render(es));
      assert lines[1..] == Lines(Render(es[1..]));
      if es[0].name != name {
        assert Without(es, name)[1..] == Without(es[1..], name);
        RenderFront(Without(es, name));
      } else {
        assert Without(es, name) == Without(es[1..], name);
      }
    }
  }

  predicate SomeLineGoes(lines: seq<string>, name: string) {
    exists i :: 0 <= i < |lines| && !Keeps(lines[i], name)
  }

  lemma {:induction false} KeptLength(t: string, name: string)
    ensures |Kept(Lines(t), name)| <= |t| + 1
    ensures SomeLineGoes(Lines(t), name) ==> |Kept(Lines(t), name)| < |t|
    decreases |t|
  {
    if t != "" {
      var i := IndexOf(t, '\n');
      var lines := Lines(t);
      if i < |t| {
        KeptLength(t[i + 1..], name);
        assert lines[1..] == Lines(t[i + 1..]);
        if SomeLineGoes(lines, name) && Keeps(lines[0], name) {
          var k :| 0 <= k < |lines| && !Keeps(lines[k], name);
          assert lines[1..][k - 1] == lines[k];
        }
      } else {
        assert lines[1..] == [];
      }
    }
  }

  /** On any text at all, equal lengths mean that no line was dropped. */
  lemma LengthTestExact(t: string, receiver: bytes)
    ensures |Kept(Lines(t), Hex(receiver))| == |t| ==> !SomeLineGoes(Lines(t), Hex(receiver))
  {
    KeptLength(t, Hex(receiver));
  }
}
