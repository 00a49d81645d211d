/**
 * `escapeHtml` from web/assets/js/app.js: every `&`, `<`, `>`, `"` and `'` is replaced by its
 * HTML entity, one character at a time, and everything else is copied. `Unescape` is its
 * partner: it decodes exactly those five entities, so that escaping loses nothing.
 */
module Html {

  import Strings

  /** The five characters the regular expression `/[&<>"']/g` matches. */
  predicate IsSpecial(c: char)
  {
    c == '&' || c == '<' || c == '>' || c == '"' || c == '\''
  }

  /** The replacement table of `escapeHtml`. */
  function Entity(c: char): string
    requires IsSpecial(c)
  {
    match c
    case '&' => "&amp;"
    case '<' => "&lt;"
    case '>' => "&gt;"
    case '"' => "&quot;"
    case _ => "&#039;"
  }

  /** The text one character contributes to the output. */
  function EscapeChar(c: char): string
  {
    if IsSpecial(c) then Entity(c) else [c]
  }

  /** `escapeHtml(text)`. */
  function Escape(text: string): (r: string)
    ensures |r| >= |text|
    ensures forall i :: 0 <= i < |r| ==> r[i] != '<' && r[i] != '>' && r[i] != '"' && r[i] != '\''
  {
    if text == [] then [] else EscapeChar(text[0]) + Escape(text[1..])
  }

  /** Escaping works character by character, so it distributes over concatenation. */
  lemma {:induction false} EscapeAppend(a: string, b: string)
    ensures Escape(a + b) == Escape(a) + Escape(b)
  {
    if a == [] {
      assert a + b == b;
    } else {
      assert (a + b)[1..] == a[1..] + b;
      EscapeAppend(a[1..], b);
    }
  }

  /** Text with none of the five characters is returned as it is, and only such text is. */
  lemma {:induction false} EscapeIdentity(text: string)
    ensures Escape(text) == text <==> forall i :: 0 <= i < |text| ==> !IsSpecial(text[i])
  {
    if text != [] {
      EscapeIdentity(text[1..]);
      assert text == [text[0]] + text[1..];
      if IsSpecial(text[0]) {
        assert |Escape(text)| > |text|;
      } else {
        assert Escape(text) == [text[0]] + Escape(text[1..]);
        if Escape(text) == text {
          assert Escape(text[1..]) == Escape(text)[1..];
        }
      }
    }
  }

  /**
   * The partner of `Escape`: reads the five entities back as the characters they stand for,
   * and copies every other character.
   */
  function Unescape(s: string): string
  {
    if s == [] then []
    else
      var (c, n) := DecodeFront(s);
      [c] + Unescape(s[n..])
  }

  /** The character at the front of `s` and how many characters of `s` encode it. */
  function DecodeFront(s: string): (r: (char, nat))
    requires s != []
    ensures 1 <= r.1 <= |s|
  {
    if Strings.StartsWith(s, "&amp;") then ('&', 5)
    else if Strings.StartsWith(s, "&lt;") then ('<', 4)
    else if Strings.StartsWith(s, "&gt;") then ('>', 4)
    else if Strings.StartsWith(s, "&quot;") then ('"', 6)
    else if Strings.StartsWith(s, "&#039;") then ('\'', 6)
    else (s[0], 1)
  }

  /** Decoding reads back the one character at the front of escaped text. */
  lemma DecodeEscaped(c: char, rest: string)
    ensures DecodeFront(EscapeChar(c) + rest) == (c, |EscapeChar(c)|)
  {
    var e := EscapeChar(c) + rest;
    if c == '&' {
      assert e[..5] == "&amp;";
    } else if c == '<' {
      assert e[..4] == "&lt;" && e[1] == 'l';
    } else if c == '>' {
      assert e[..4] == "&gt;" && e[1] == 'g';
    } else if c == '"' {
      assert e[..6] == "&quot;" && e[1] == 'q';
    } else if c == '\'' {
      assert e[..6] == "&#039;" && e[1] == '#';
    } else {
      assert e[0] == c;
    }
  }

  /** Escaping loses nothing: unescaping the output gives back the text. */
  lemma {:induction false} UnescapeEscape(text: string)
    ensures Unescape(Escape(text)) == text
  {
    if text != [] {
      UnescapeEscape(text[1..]);
      var e := Escape(text);
      var head := EscapeChar(text[0]);
      DecodeEscaped(text[0], Escape(text[1..]));
      assert e[|head|..] == Escape(text[1..]);
      assert text == [text[0]] + text[1..];
    }
  }
}
