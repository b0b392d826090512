/** XML escaping of the text that goes into a manifest (XML 1.0 section 4.6). */
module XmlText {
  import opened Prelude
  import opened Text

  /** How a character is written: the five predefined entities, or itself. */
  function Written(c: char): (r: string)
    ensures 0 < |r|
  {
    match c
    case '&' => "&amp;"
    case '<' => "&lt;"
    case '>' => "&gt;"
    case '"' => "&quot;"
    case '\'' => "&apos;"
    case other => [other]
  }

  function Escaped(s: string): string {
    FlatMap(Written, s)
  }

  /** `escape_xml`. */
  method EscapeXml(s: string) returns (out: string)
    ensures out == Escaped(s)
  {
    out := [];
    for i := 0 to |s|
      invariant out == FlatMap(Written, s[..i])
    {
      FlatMapStep(Written, s, i);
      out := out + Written(s[i]);
    }
    assert s[..|s|] == s;
  }

  /** The character an entity reference at the front of `s` stands for, and the reference's length. */
  function ReadFront(s: string): (r: (char, nat))
    requires s != []
    ensures 0 < r.1 <= |s|
  {
    if StartsWith(s, "&amp;") then ('&', 5)
    else if StartsWith(s, "&lt;") then ('<', 4)
    else if StartsWith(s, "&gt;") then ('>', 4)
    else if StartsWith(s, "&quot;") then ('"', 6)
    else if StartsWith(s, "&apos;") then ('\'', 6)
    else (s[0], 1)
  }

  /** What an XML reader makes of the text: entity references resolved from left to right. */
  function Unescaped(s: string): string
    decreases |s|
  {
    if s == [] then []
    else
      var (c, n) := ReadFront(s);
      [c] + Unescaped(s[n..])
  }

  lemma FrontOfWritten(c: char, rest: string)
    ensures ReadFront(Written(c) + rest) == (c, |Written(c)|)
  {
    var s := Written(c) + rest;
    assert s[..|Written(c)|] == Written(c);
    if c !in {'&', '<', '>', '"', '\''} {
      assert s[0] == c;
    } else {
      assert c == '&' ==> StartsWith(s, "&amp;");
      assert c == '<' ==> StartsWith(s, "&lt;");
      assert c == '>' ==> StartsWith(s, "&gt;");
      assert c == '"' ==> StartsWith(s, "&quot;");
      assert s[1] == Written(c)[1] && s[2] == Written(c)[2];
    }
  }

  /** Reading the escaped text gives back the text. */
  lemma {:induction false} ReadingUndoesEscaping(s: string)
    ensures Unescaped(Escaped(s)) == s
    decreases |s|
  {
    if s != [] {
      var c, rest := s[0], Escaped(s[1..]);
      ReadingUndoesEscaping(s[1..]);
      FrontOfWritten(c, rest);
      assert (Written(c) + rest)[|Written(c)|..] == rest;
      assert s == [c] + s[1..];
    }
  }

  /** An ampersand that starts one of the five predefined references. */
  predicate IsReference(s: string, i: nat)
    requires i < |s|
  {
    || StartsWith(s[i..], "&amp;") || StartsWith(s[i..], "&lt;") || StartsWith(s[i..], "&gt;")
    || StartsWith(s[i..], "&quot;") || StartsWith(s[i..], "&apos;")
  }

  ghost predicate IsPlainAt(s: string, i: nat)
    requires i < |s|
  {
    s[i] !in {'<', '>', '"', '\''} && (s[i] == '&' ==> IsReference(s, i))
  }

  lemma PlainWritten(c: char, rest: string, i: nat)
    requires i < |Written(c)|
    ensures IsPlainAt(Written(c) + rest, i)
  {
    var w := Written(c);
    if i == 0 {
      assert (w + rest)[0..][..|w|] == w;
    }
  }

  /** The escaped text has no raw markup: no angle bracket or quote, and every ampersand starts a reference. */
  lemma {:induction false} NoRawMarkup(s: string, i: nat)
    requires i < |Escaped(s)|
    ensures IsPlainAt(Escaped(s), i)
    decreases |s|
  {
    if s != [] {
      var w, rest := Written(s[0]), Escaped(s[1..]);
      if i < |w| {
        PlainWritten(s[0], rest, i);
      } else {
        NoRawMarkup(s[1..], i - |w|);
        assert (w + rest)[i..] == rest[i - |w|..];
      }
    }
  }
}
