/** The client's text utilities: escapeHtml and formatLabel (app/static/js/app.js). */
module Format {
  import opened Text

  /** The characters escapeHtml rewrites. */
  predicate IsHtmlSpecial(c: char)
  {
    c == '&' || c == '<' || c == '>' || c == '"' || c == '\''
  }

  /** Markup-significant characters that must not survive escaping. */
  predicate IsMarkup(c: char)
  {
    c == '<' || c == '>' || c == '"' || c == '\''
  }

  ghost predicate FreeOfMarkup(s: string)
  {
    forall k :: 0 <= k < |s| ==> !IsMarkup(s[k])
  }

  /** The replacement for one character: its entity, or the character itself. */
  function EscapeChar(c: char): string
  {
    match c
    case '&' => "&amp;"
    case '<' => "&lt;"
    case '>' => "&gt;"
    case '"' => "&quot;"
    case '\'' => "&#039;"
    case _ => [c]
  }

  /** escapeHtml: every special character becomes its entity; no markup character survives. */
  function EscapeHtml(text: string): (r: string)
    ensures |r| >= |text|
    ensures FreeOfMarkup(r)
    decreases |text|
  {
    if text == [] then [] else EscapeChar(text[0]) + EscapeHtml(text[1..])
  }

  /** The inverse reading of the five entities, as a browser decodes the escaped text. */
  function UnescapeHtml(s: string): string
    decreases |s|
  {
    if s == [] then []
    else if "&amp;" <= s then "&" + UnescapeHtml(s[5..])
    else if "&lt;" <= s then "<" + UnescapeHtml(s[4..])
    else if "&gt;" <= s then ">" + UnescapeHtml(s[4..])
    else if "&quot;" <= s then "\"" + UnescapeHtml(s[6..])
    else if "&#039;" <= s then "'" + UnescapeHtml(s[6..])
    else [s[0]] + UnescapeHtml(s[1..])
  }

  /** Escaping loses nothing: decoding the escaped text gives back the original. */
  lemma {:induction false} UnescapeEscape(text: string)
    ensures UnescapeHtml(EscapeHtml(text)) == text
    decreases |text|
  {
    if text != [] {
      var rest := EscapeHtml(text[1..]);
      assert EscapeHtml(text) == EscapeChar(text[0]) + rest;
      UnescapeEscapedChar(text[0], rest);
      UnescapeEscape(text[1..]);
      assert text == [text[0]] + text[1..];
    }
  }

  /** Decoding reads one escaped character back and continues after it. */
  lemma UnescapeEscapedChar(c: char, rest: string)
    ensures UnescapeHtml(EscapeChar(c) + rest) == [c] + UnescapeHtml(rest)
  {
    var s := EscapeChar(c) + rest;
    if IsHtmlSpecial(c) {
      UnescapeEntity(c, rest);
    } else {
      assert s[0] == c && c != '&' && s[1..] == rest;
      assert UnescapeHtml(s) == [s[0]] + UnescapeHtml(s[1..]);
    }
  }

  lemma UnescapeEntity(c: char, rest: string)
    requires IsHtmlSpecial(c)
    ensures UnescapeHtml(EscapeChar(c) + rest) == [c] + UnescapeHtml(rest)
  {
    var s := EscapeChar(c) + rest;
    if c == '&' {
      assert s[..5] == "&amp;" && s[5..] == rest;
      assert UnescapeHtml(s) == "&" + UnescapeHtml(s[5..]);
    } else if c == '<' {
      assert s[..4] == "&lt;" && s[4..] == rest && s[1] == 'l';
      assert UnescapeHtml(s) == "<" + UnescapeHtml(s[4..]);
    } else if c == '>' {
      assert s[..4] == "&gt;" && s[4..] == rest && s[1] == 'g';
      assert UnescapeHtml(s) == ">" + UnescapeHtml(s[4..]);
    } else if c == '"' {
      assert s[..6] == "&quot;" && s[6..] == rest && s[1] == 'q';
      assert UnescapeHtml(s) == "\"" + UnescapeHtml(s[6..]);
    } else {
      assert s[..6] == "&#039;" && s[6..] == rest && s[1] == '#';
      assert UnescapeHtml(s) == "'" + UnescapeHtml(s[6..]);
    }
  }

  /** The length of the entity escapeHtml produces that `s` starts with, or 0 when
      `s` starts with none of the five. */
  function EntityLength(s: string): (n: nat)
    ensures n <= |s|
  {
    if "&amp;" <= s then 5
    else if "&lt;" <= s || "&gt;" <= s then 4
    else if "&quot;" <= s || "&#039;" <= s then 6
    else 0
  }

  /** `s` reads as plain characters and whole entities: every ampersand starts one of
      the five entities, so an HTML parser reads back exactly what UnescapeHtml gives
      and no other character reference. */
  predicate NoBareAmpersand(s: string)
    decreases |s|
  {
    if s == [] then true
    else if s[0] != '&' then NoBareAmpersand(s[1..])
    else EntityLength(s) > 0 && NoBareAmpersand(s[EntityLength(s)..])
  }

  /** Prefixing one escaped character keeps the text free of bare ampersands. */
  lemma EscapedCharNoBareAmpersand(c: char, rest: string)
    requires NoBareAmpersand(rest)
    ensures NoBareAmpersand(EscapeChar(c) + rest)
  {
    var s := EscapeChar(c) + rest;
    if c == '&' {
      assert s[..5] == "&amp;" && s[5..] == rest;
    } else if c == '<' {
      assert s[..4] == "&lt;" && s[4..] == rest && s[1] == 'l';
    } else if c == '>' {
      assert s[..4] == "&gt;" && s[4..] == rest && s[1] == 'g';
    } else if c == '"' {
      assert s[..6] == "&quot;" && s[6..] == rest && s[1] == 'q';
    } else if c == '\'' {
      assert s[..6] == "&#039;" && s[6..] == rest && s[1] == '#';
    } else {
      assert s[0] == c && s[1..] == rest;
    }
  }

  /** escapeHtml leaves no ampersand that is not the start of one of its entities. */
  lemma {:induction false} EscapeHtmlNoBareAmpersand(text: string)
    ensures NoBareAmpersand(EscapeHtml(text))
    decreases |text|
  {
    if text != [] {
      EscapeHtmlNoBareAmpersand(text[1..]);
      EscapedCharNoBareAmpersand(text[0], EscapeHtml(text[1..]));
    }
  }

  /** Text without special characters is copied unchanged. */
  lemma {:induction false} EscapePlainText(text: string)
    requires forall k :: 0 <= k < |text| ==> !IsHtmlSpecial(text[k])
    ensures EscapeHtml(text) == text
    decreases |text|
  {
    if text != [] {
      EscapePlainText(text[1..]);
      assert text == [text[0]] + text[1..];
    }
  }

  /** Escaping distributes over concatenation, so each character is escaped on its own. */
  lemma {:induction false} EscapeConcat(a: string, b: string)
    ensures EscapeHtml(a + b) == EscapeHtml(a) + EscapeHtml(b)
    decreases |a|
  {
    if a == [] {
      assert a + b == b;
    } else {
      calc {
        EscapeHtml(a + b);
        { assert (a + b)[0] == a[0] && (a + b)[1..] == a[1..] + b; }
        EscapeChar(a[0]) + EscapeHtml(a[1..] + b);
        { EscapeConcat(a[1..], b); }
        EscapeChar(a[0]) + (EscapeHtml(a[1..]) + EscapeHtml(b));
        (EscapeChar(a[0]) + EscapeHtml(a[1..])) + EscapeHtml(b);
        EscapeHtml(a) + EscapeHtml(b);
      }
    }
  }

  /** A character of the regular-expression class \w. */
  predicate IsWordChar(c: char)
  {
    IsLower(c) || IsUpper(c) || ('0' <= c <= '9') || c == '_'
  }

  /** Position `k` of `s` matches \b\w: a word character at the start of a word. */
  predicate StartsWord(s: string, k: int)
    requires 0 <= k < |s|
  {
    IsWordChar(s[k]) && (k == 0 || !IsWordChar(s[k - 1]))
  }

  /** text.replace(/_/g, ' ') */
  function UnderscoresToSpaces(s: string): string
  {
    seq(|s|, k requires 0 <= k < |s| => if s[k] == '_' then ' ' else s[k])
  }

  /** s.replace(/\b\w/g, l => l.toUpperCase()) */
  function CapitalizeWords(s: string): string
  {
    seq(|s|, k requires 0 <= k < |s| => if StartsWord(s, k) then UpperChar(s[k]) else s[k])
  }

  /** formatLabel: "in_progress" is shown as "In Progress". */
  function FormatLabel(text: string): string
  {
    CapitalizeWords(UnderscoresToSpaces(text))
  }

  /** formatLabel keeps the length and leaves no underscore: each underscore becomes a
      space, the first character of every word is upper-cased, and every other
      character is kept as it is. */
  lemma FormatLabelSpec(text: string)
    ensures |FormatLabel(text)| == |text|
    ensures forall k :: 0 <= k < |text| ==> FormatLabel(text)[k] != '_'
    ensures forall k :: 0 <= k < |text| && text[k] == '_' ==> FormatLabel(text)[k] == ' '
    ensures forall k :: 0 <= k < |text| && StartsWord(FormatLabel(text), k) ==>
      FormatLabel(text)[k] == UpperChar(text[k]) && !IsLower(FormatLabel(text)[k])
    ensures forall k :: 0 <= k < |text| && text[k] != '_' && !StartsWord(FormatLabel(text), k) ==>
      FormatLabel(text)[k] == text[k]
  {
  }

  /** The labels the model's status and priority values get. */
  lemma FormatLabelExamples()
    ensures FormatLabel("in_progress") == "In Progress"
    ensures FormatLabel("open") == "Open"
    ensures FormatLabel("closed") == "Closed"
    ensures FormatLabel("high") == "High"
  {
  }
}
