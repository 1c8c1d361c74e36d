/** The template-literal escaper of the declaration generator, and what the language reads back. */
module TemplateLiteral {
  import opened Text

  /** `text.replace(/c/g, "\\" + c)` for one character. */
  function EscapeChar(text: string, c: char): string {
    if text == "" then ""
    else (if text[0] == c then ['\\', c] else [text[0]]) + EscapeChar(text[1..], c)
  }

  /** `text.replace(/\$\{/g, "\\${")`. */
  function EscapeOpening(text: string): string {
    if text == "" then ""
    else if |text| >= 2 && text[0] == '$' && text[1] == '{' then "\\${" + EscapeOpening(text[2..])
    else [text[0]] + EscapeOpening(text[1..])
  }

  /** The three passes, in the order they are applied. */
  function AsTemplateLiteral(text: string): string {
    EscapeOpening(EscapeChar(EscapeChar(text, '\\'), '`'))
  }

  // ----- One pass -----

  /** Whether the first character of `text` needs a backslash in front. */
  predicate NeedsEscape(text: string) {
    text != "" && (text[0] == '\\' || text[0] == '`' || (text[0] == '$' && |text| >= 2 && text[1] == '{'))
  }

  function Escape(text: string): string {
    if text == "" then ""
    else (if NeedsEscape(text) then ['\\', text[0]] else [text[0]]) + Escape(text[1..])
  }

  lemma OpeningPlain(c: char, rest: string)
    requires c != '$' || rest == "" || rest[0] != '{'
    ensures EscapeOpening([c] + rest) == [c] + EscapeOpening(rest)
  {
    assert ([c] + rest)[1..] == rest;
  }

  /** The second and third passes over a backslash put in by the first, and what stands behind it. */
  lemma PassEscaped(one: string)
    ensures EscapeOpening(EscapeChar(['\\'] + one, '`')) == ['\\'] + EscapeOpening(EscapeChar(one, '`'))
  {
    OpeningPlain('\\', EscapeChar(one, '`'));
  }

  /** The three passes over a text that starts with a backslash. */
  lemma PassBackslash(rest: string)
    ensures AsTemplateLiteral(['\\'] + rest) == ['\\', '\\'] + AsTemplateLiteral(rest)
  {
    var one := EscapeChar(rest, '\\');
    assert EscapeChar(['\\'] + rest, '\\') == ['\\'] + (['\\'] + one);
    PassEscaped(['\\'] + one);
    PassEscaped(one);
  }

  lemma PassBacktick(rest: string)
    ensures AsTemplateLiteral(['`'] + rest) == ['\\', '`'] + AsTemplateLiteral(rest)
  {
    var one := EscapeChar(rest, '\\');
    var two := EscapeChar(one, '`');
    assert EscapeChar(['`'] + rest, '\\') == ['`'] + one;
    assert EscapeChar(['`'] + one, '`') == ['\\'] + (['`'] + two);
    OpeningOfTwo(two);
  }

  lemma OpeningOfTwo(two: string)
    ensures EscapeOpening(['\\'] + (['`'] + two)) == ['\\', '`'] + EscapeOpening(two)
  {
    OpeningPlain('`', two);
    OpeningPlain('\\', ['`'] + two);
  }

  lemma PassOther(c: char, rest: string)
    requires c != '\\' && c != '`'
    ensures AsTemplateLiteral([c] + rest) ==
            (if c == '$' && rest != "" && rest[0] == '{' then ['\\', c] else [c]) + AsTemplateLiteral(rest)
  {
    var one := EscapeChar(rest, '\\');
    var two := EscapeChar(one, '`');
    if c == '$' && two != "" && two[0] == '{' {
      OpeningBrace(two);
    } else {
      OpeningPlain(c, two);
    }
  }

  /** The three passes compose to one escape per character. */
  lemma {:induction false} PassesCompose(text: string)
    ensures AsTemplateLiteral(text) == Escape(text)
  {
    if text != "" {
      var c, rest := text[0], text[1..];
      assert text == [c] + rest;
      PassesCompose(rest);
      if c == '\\' {
        PassBackslash(rest);
      } else if c == '`' {
        PassBacktick(rest);
      } else {
        PassOther(c, rest);
      }
    }
  }

  lemma OpeningBrace(two: string)
    requires two != "" && two[0] == '{'
    ensures EscapeOpening(['$'] + two) == ['\\', '$'] + EscapeOpening(two)
  {
    assert (['$'] + two)[2..] == two[1..];
    assert EscapeOpening(two) == ['{'] + EscapeOpening(two[1..]);
  }

  // ----- The language's reading -----

  /**
   The value of the characters of a template literal (section 12.9.6 of ECMA-262, 2023): `None` where they
   end the literal or open a substitution, and for the escapes that denote no single character as written.
   */
  function Cook(raw: string): Option<string>
    decreases |raw|
  {
    if raw == "" then Some("")
    else if raw[0] == '`' || (raw[0] == '$' && |raw| >= 2 && raw[1] == '{') then None
    else if raw[0] == '\\' then
      if |raw| == 1 then None
      else
        match CookEscape(raw[1])
        case None => None
        case Some(c) => Prepend(c, Cook(raw[2..]))
    else if raw[0] == '\r' then
      Prepend('\n', Cook(if |raw| >= 2 && raw[1] == '\n' then raw[2..] else raw[1..]))
    else Prepend(raw[0], Cook(raw[1..]))
  }

  function Prepend(c: char, rest: Option<string>): Option<string> {
    match rest
    case None => None
    case Some(s) => Some([c] + s)
  }

  /** The single-character escapes; digits, `x`, `u` and line continuations are not among them. */
  function CookEscape(c: char): Option<char> {
    match c
    case 'b' => Some('\U{8}')
    case 't' => Some('\t')
    case 'n' => Some('\n')
    case 'v' => Some('\U{B}')
    case 'f' => Some('\U{C}')
    case 'r' => Some('\r')
    case 'x' => None
    case 'u' => None
    case '\n' => None
    case '\r' => None
    case '\U{2028}' => None
    case '\U{2029}' => None
    case _ => if '0' <= c <= '9' then None else Some(c)
  }

  /** Line ends as the language reads them: a carriage return, alone or before a newline, is a newline. */
  function NormalizeLineEnds(text: string): string
    decreases |text|
  {
    if text == "" then ""
    else if text[0] == '\r' then
      "\n" + NormalizeLineEnds(if |text| >= 2 && text[1] == '\n' then text[2..] else text[1..])
    else [text[0]] + NormalizeLineEnds(text[1..])
  }

  /** The escaped text is read back as the text with its line ends normalized. */
  lemma {:induction false} CookEscaped(text: string)
    ensures Cook(Escape(text)) == Some(NormalizeLineEnds(text))
    decreases |text|
  {
    if text != "" {
      var c, rest := text[0], text[1..];
      var raw := Escape(text);
      if NeedsEscape(text) {
        assert raw[1] == c && raw[2..] == Escape(rest);
        CookEscaped(rest);
      } else if c == '\r' && rest != "" && rest[0] == '\n' {
        assert raw[1..] == Escape(rest) && Escape(rest) == ['\n'] + Escape(rest[1..]);
        assert raw[2..] == Escape(rest[1..]) && rest[1..] == text[2..];
        CookEscaped(rest[1..]);
      } else {
        assert raw[1..] == Escape(rest);
        CookEscaped(rest);
      }
    }
  }

  lemma {:induction false} NormalizedHasNoReturn(text: string)
    ensures '\r' !in NormalizeLineEnds(text)
    ensures '\r' !in text ==> NormalizeLineEnds(text) == text
    decreases |text|
  {
    if text != "" {
      if text[0] == '\r' {
        NormalizedHasNoReturn(if |text| >= 2 && text[1] == '\n' then text[2..] else text[1..]);
      } else {
        NormalizedHasNoReturn(text[1..]);
        assert text == [text[0]] + text[1..];
      }
    }
  }

  /**
   The committed constant has exactly the bytes of the text precisely when the text has no carriage
   return; in every case the literal is well formed and has the text's value up to line ends.
   */
  lemma LiteralIsByteExactIff(text: string)
    ensures Cook(AsTemplateLiteral(text)) == Some(NormalizeLineEnds(text))
    ensures Cook(AsTemplateLiteral(text)) == Some(text) <==> '\r' !in text
  {
    PassesCompose(text);
    CookEscaped(text);
    NormalizedHasNoReturn(text);
  }

  /** A single carriage return comes back as a newline. */
  lemma CarriageReturnIsLost()
    ensures Cook(AsTemplateLiteral("\r")) == Some("\n")
  {
    LiteralIsByteExactIff("\r");
    assert NormalizeLineEnds("\r") == "\n" + NormalizeLineEnds("\r"[1..]);
    assert "\r"[1..] == "" && "\n" + "" == "\n";
  }

  // ----- Nothing is left unescaped -----

  /** A backslash stands in front of `k` that is not itself escaped. */
  predicate Escaped(s: string, k: nat)
    requires k <= |s|
  {
    k > 0 && s[k - 1] == '\\' && !Escaped(s, k - 1)
  }

  lemma {:induction false} EscapedConcat(a: string, b: string, k: nat)
    requires k <= |b| && !Escaped(a + b, |a|)
    ensures Escaped(a + b, |a| + k) <==> Escaped(b, k)
  {
    if k > 0 {
      EscapedConcat(a, b, k - 1);
    }
  }

  /** What may not stand unescaped in a template literal. */
  predicate Ends(s: string, k: nat)
    requires k < |s|
  {
    s[k] == '`' || (s[k] == '$' && k + 1 < |s| && s[k + 1] == '{')
  }

  lemma {:induction false} NothingEnds(text: string, k: nat)
    requires k <= |Escape(text)|
    ensures k == |Escape(text)| ==> !Escaped(Escape(text), k)
    ensures k < |Escape(text)| && Ends(Escape(text), k) ==> Escaped(Escape(text), k)
  {
    if text != "" {
      var rest := Escape(text[1..]);
      var first := if NeedsEscape(text) then ['\\', text[0]] else [text[0]];
      assert Escape(text) == first + rest;
      FirstStandsAlone(first, rest);
      if k >= |first| {
        NothingEnds(text[1..], k - |first|);
        EscapedConcat(first, rest, k - |first|);
      }
    }
  }

  lemma FirstStandsAlone(first: string, rest: string)
    requires (|first| == 1 && first[0] != '\\') || (|first| == 2 && first[0] == '\\')
    ensures !Escaped(first + rest, |first|)
    ensures |first| == 2 ==> Escaped(first + rest, 1) && !Escaped(first + rest, 0)
  {
    assert Escaped(first + rest, 1) <==> first[0] == '\\';
  }

  /** The escaped text has no backtick and no `${` that is not escaped. */
  lemma NothingLeftUnescaped(text: string, k: nat)
    requires k < |AsTemplateLiteral(text)| && Ends(AsTemplateLiteral(text), k)
    ensures Escaped(AsTemplateLiteral(text), k)
  {
    PassesCompose(text);
    NothingEnds(text, k);
  }
}
