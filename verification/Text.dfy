/** The string operations the models share, as Rust's `str` defines them. */
module Text {
  /** Unicode White_Space. */
  predicate IsWhite(c: char) {
    '\t' <= c <= '\r' || c == ' ' || c == '\U{85}' || c == '\U{A0}' || c == '\U{1680}'
    || '\U{2000}' <= c <= '\U{200A}' || c == '\U{2028}' || c == '\U{2029}'
    || c == '\U{202F}' || c == '\U{205F}' || c == '\U{3000}'
  }

  predicate NoWhite(s: string) {
    forall i | 0 <= i < |s| :: !IsWhite(s[i])
  }

  function TrimStart(s: string): string {
    if s != "" && IsWhite(s[0]) then TrimStart(s[1..]) else s
  }

  function TrimEnd(s: string): string {
    if s != "" && IsWhite(s[|s| - 1]) then TrimEnd(s[..|s| - 1]) else s
  }

  function Trim(s: string): string {
    TrimEnd(TrimStart(s))
  }

  /** Position of the first `c`, or the length. */
  function IndexOf(t: string, c: char): (i: nat)
    ensures i <= |t| && (i < |t| ==> t[i] == c)
  {
    if t == "" || t[0] == c then 0 else 1 + IndexOf(t[1..], c)
  }

  /** No `c` comes before it. */
  lemma {:induction false} IndexOfFirst(t: string, c: char)
    ensures forall k | 0 <= k < IndexOf(t, c) :: t[k] != c
  {
    if t != "" && t[0] != c {
      IndexOfFirst(t[1..], c);
      forall k | 0 <= k < IndexOf(t, c)
        ensures t[k] != c
      {
        assert k > 0 ==> t[k] == t[1..][k - 1];
      }
    }
  }

  lemma {:induction false} IndexOfIn(a: string, c: char, b: string)
    requires forall k | 0 <= k < |a| :: a[k] != c
    ensures IndexOf(a + [c] + b, c) == |a|
  {
    var t := a + [c] + b;
    if a == "" {
      assert t[0] == c;
    } else {
      assert t[0] == a[0] && t[1..] == a[1..] + [c] + b;
      IndexOfIn(a[1..], c, b);
    }
  }

  function StripReturn(line: string): string {
    if line != "" && line[|line| - 1] == '\r' then line[..|line| - 1] else line
  }

  /** `str::lines`: ends at newlines, without them or a carriage return before them. */
  function Lines(t: string): seq<string> {
    if t == "" then []
    else
      var i := IndexOf(t, '\n');
      if i == |t| then [t] else [StripReturn(t[..i])] + Lines(t[i + 1..])
  }

  /** A line that `Lines` gives back as it is. */
  predicate PlainLine(line: string) {
    (forall k | 0 <= k < |line| :: line[k] != '\n') && StripReturn(line) == line
  }

  lemma FirstLine(line: string, rest: string)
    requires PlainLine(line)
    ensures Lines(line + "\n" + rest) == [line] + Lines(rest)
  {
    var t := line + ['\n'] + rest;
    IndexOfIn(line, '\n', rest);
    assert t == line + "\n" + rest;
    assert t[..|line|] == line && t[|line| + 1..] == rest;
  }

  /** Where the first word of `s` ends. */
  function WordEnd(s: string): (i: nat)
    ensures i <= |s| && NoWhite(s[..i]) && (i < |s| ==> IsWhite(s[i]))
  {
    if s == "" || IsWhite(s[0]) then 0
    else
      var i := 1 + WordEnd(s[1..]);
      assert s[..i] == [s[0]] + s[1..][..i - 1];
      i
  }

  /** `split_whitespace`. */
  function Words(s: string): seq<string>
    decreases |s|
  {
    if s == "" then []
    else if IsWhite(s[0]) then Words(s[1..])
    else [s[..WordEnd(s)]] + Words(s[WordEnd(s)..])
  }

  lemma {:induction false} WordEndOf(word: string, rest: string)
    requires NoWhite(word) && (rest == "" || IsWhite(rest[0]))
    ensures WordEnd(word + rest) == |word|
  {
    var s := word + rest;
    if word == "" {
      assert s == rest;
    } else {
      assert s[0] == word[0] && s[1..] == word[1..] + rest;
      WordEndOf(word[1..], rest);
    }
  }

  lemma FirstWord(word: string, rest: string)
    requires word != "" && NoWhite(word) && (rest == "" || IsWhite(rest[0]))
    ensures Words(word + rest) == [word] + Words(rest)
  {
    var s := word + rest;
    WordEndOf(word, rest);
    assert s[0] == word[0] && s[..|word|] == word && s[|word|..] == rest;
  }

  /** Trimming leaves nothing to trim. */
  lemma {:induction false} TrimEndEnds(s: string)
    ensures TrimEnd(s) == "" || !IsWhite(TrimEnd(s)[|TrimEnd(s)| - 1])
    ensures TrimEnd(s) <= s
  {
    if s != "" && IsWhite(s[|s| - 1]) {
      TrimEndEnds(s[..|s| - 1]);
    }
  }

  /** What trimming leaves was there, and needs no more trimming. */
  lemma {:induction false} TrimStartStarts(s: string)
    ensures TrimStart(s) == "" || !IsWhite(TrimStart(s)[0])
    ensures |TrimStart(s)| <= |s| && TrimStart(s) == s[|s| - |TrimStart(s)|..]
  {
    if s != "" && IsWhite(s[0]) {
      TrimStartStarts(s[1..]);
    }
  }

  lemma TrimTwice(s: string)
    ensures Trim(Trim(s)) == Trim(s)
    ensures forall c :: c in Trim(s) ==> c in s
  {
    TrimStartStarts(s);
    TrimEndEnds(TrimStart(s));
    var t := Trim(s);
    assert TrimStart(t) == t && TrimEnd(t) == t;
    assert forall c :: c in TrimStart(s) ==> c in s;
  }

  /** No line of a text holds a newline. */
  lemma FirstLineHasNoNewline(t: string)
    requires t != ""
    ensures Lines(t) != [] && '\n' !in Lines(t)[0]
  {
    IndexOfFirst(t, '\n');
  }
}
