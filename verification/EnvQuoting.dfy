/** How the `.env` writer of artpm_agent/api/config_admin.py quotes a value, and a single-line reader. */
module EnvQuoting {
  import opened Common
  import opened Text

  function HexDigit(n: nat): char
    requires n < 16
  {
    "0123456789abcdef"[n]
  }

  /** `json.dumps(..., ensure_ascii=False)` of one character. */
  function EscapeChar(c: char): (e: string)
    ensures e != []
  {
    if c == '"' then ['\\', '"']
    else if c == '\\' then ['\\', '\\']
    else if c == '\n' then ['\\', 'n']
    else if c == '\r' then ['\\', 'r']
    else if c == '\t' then ['\\', 't']
    else if c == '\U{8}' then ['\\', 'b']
    else if c == '\U{c}' then ['\\', 'f']
    else if c < ' ' then "\\u00" + [HexDigit(c as int / 16), HexDigit(c as int % 16)]
    else [c]
  }

  function Escape(s: string): string {
    if s == [] then [] else EscapeChar(s[0]) + Escape(s[1..])
  }

  predicate NeedsQuotes(value: string) {
    exists c :: c in value && (IsSpace(c) || c in "#'\"\\")
  }

  function Quote(value: string): string {
    if NeedsQuotes(value) then ['"'] + Escape(value) + ['"'] else value
  }

  // ---------- The reader ----------

  function Unescaped(c: char): Option<char> {
    if c == '\\' || c == '\'' || c == '"' then Some(c)
    else if c == 'a' then Some('\U{7}')
    else if c == 'b' then Some('\U{8}')
    else if c == 'f' then Some('\U{c}')
    else if c == 'n' then Some('\n')
    else if c == 'r' then Some('\r')
    else if c == 't' then Some('\t')
    else if c == 'v' then Some('\U{b}')
    else None
  }

  /** The text up to the closing quote with its escapes decoded; an unknown escape stays as it is. */
  function ToClosingQuote(s: string): Option<string> {
    if s == [] then None
    else if s[0] == '"' then Some([])
    else if s[0] == '\\' && |s| > 1 && Unescaped(s[1]).Some? then Prepend(Unescaped(s[1]).value, ToClosingQuote(s[2..]))
    else Prepend(s[0], ToClosingQuote(s[1..]))
  }

  function Prepend(c: char, tail: Option<string>): Option<string> {
    match tail
    case None => None
    case Some(t) => Some([c] + t)
  }

  function ToSingleQuote(s: string): Option<string> {
    if s == [] then None
    else if s[0] == '\'' then Some([])
    else Prepend(s[0], ToSingleQuote(s[1..]))
  }

  /** Cuts a comment: whitespace followed by `#`. */
  function CutComment(s: string): string {
    if s == [] then []
    else if IsSpace(s[0]) && ['#'] <= StripLeft(s) then []
    else [s[0]] + CutComment(s[1..])
  }

  /** The value in the text after `=`. */
  function Unquote(text: string): string {
    var t := StripLeft(text);
    if t != [] && t[0] == '"' && ToClosingQuote(t[1..]).Some? then ToClosingQuote(t[1..]).value
    else if t != [] && t[0] == '\'' && ToSingleQuote(t[1..]).Some? then ToSingleQuote(t[1..]).value
    else StripRight(CutComment(t))
  }

  // ---------- Quoting and reading are inverse ----------

  /** A control character that JSON writes as a numeric escape, which the reader does not decode. */
  predicate Unreadable(c: char) {
    c < ' ' && c !in "\n\r\t" && c != '\U{8}' && c != '\U{c}'
  }

  /** One escaped character in front of decodable text: decoded if the reader knows the escape. */
  lemma OneEscape(c: char, rest: string)
    requires ToClosingQuote(rest).Some?
    ensures var r := ToClosingQuote(EscapeChar(c) + rest);
      && r.Some? && r.value != []
      && (if Unreadable(c) then r.value[0] == '\\' else r.value == [c] + ToClosingQuote(rest).value)
  {
    var e := EscapeChar(c);
    if Unreadable(c) {
      NumericEscapeStays(e, rest);
    } else if |e| == 2 {
      assert (e + rest)[2..] == rest;
    } else {
      assert (e + rest)[1..] == rest;
    }
  }

  lemma {:induction false} EscapesDecode(s: string)
    ensures ToClosingQuote(Escape(s) + ['"']).Some?
    ensures ToClosingQuote(Escape(s) + ['"']) == Some(s) <==> forall i :: 0 <= i < |s| ==> !Unreadable(s[i])
  {
    hide EscapeChar, Unescaped;
    if s != [] {
      EscapesDecode(s[1..]);
      var rest := Escape(s[1..]) + ['"'];
      assert Escape(s) + ['"'] == EscapeChar(s[0]) + rest;
      OneEscape(s[0], rest);
      hide ToClosingQuote;
      assert s == [s[0]] + s[1..];
      assert Unreadable(s[0]) ==> s[0] != '\\';
    }
  }

  lemma NumericEscapeStays(e: string, rest: string)
    requires |e| == 6 && e[0] == '\\' && e[1] == 'u' && forall i :: 1 <= i < 6 ==> e[i] != '"' && e[i] != '\\'
    requires ToClosingQuote(rest).Some?
    ensures ToClosingQuote(e + rest).Some? && ToClosingQuote(e + rest).value != []
    ensures ToClosingQuote(e + rest).value[0] == '\\'
  {
    PlainThenRest(e[1..], rest);
    assert (e + rest)[1..] == e[1..] + rest;
  }

  lemma {:induction false} PlainThenRest(p: string, rest: string)
    requires forall i :: 0 <= i < |p| ==> p[i] != '"' && p[i] != '\\'
    requires ToClosingQuote(rest).Some?
    ensures ToClosingQuote(p + rest).Some?
  {
    if p == [] {
      assert p + rest == rest;
    } else {
      assert (p + rest)[1..] == p[1..] + rest;
      PlainThenRest(p[1..], rest);
    }
  }

  lemma {:induction false} NothingToCut(s: string)
    requires forall c :: c in s ==> !IsSpace(c)
    ensures CutComment(s) == s && StripLeft(s) == s && StripRight(s) == s
  {
    if s != [] {
      NothingToCut(s[1..]);
      assert s == [s[0]] + s[1..];
    }
  }

  /** A value written by the in-place writer reads back as itself exactly when it is written bare or
      holds no control character that JSON escapes by number. */
  lemma UnquoteQuote(value: string)
    ensures Unquote(Quote(value)) == value <==> (!NeedsQuotes(value) || forall c :: c in value ==> !Unreadable(c))
  {
    hide Unreadable;
    if NeedsQuotes(value) {
      var q := Quote(value);
      assert StripLeft(q) == q;
      assert q[1..] == Escape(value) + ['"'];
      EscapesDecode(value);
    } else {
      NothingToCut(value);
    }
  }

  function HexValue(d: char): int {
    if '0' <= d <= '9' then d as int - '0' as int
    else if 'a' <= d <= 'f' then 10 + d as int - 'a' as int
    else -1
  }

  /** What JSON writes for a character the reader does not decode: its number in four hexadecimal digits. */
  lemma NumericEscape(c: char)
    requires Unreadable(c)
    ensures var e := EscapeChar(c);
      && |e| == 6 && e[..4] == "\\u00" && 0 <= HexValue(e[4]) < 16 && 0 <= HexValue(e[5]) < 16
      && 16 * HexValue(e[4]) + HexValue(e[5]) == c as int
  {
    HexReadsBack(c as int / 16);
    HexReadsBack(c as int % 16);
    hide HexDigit, HexValue;
    var e := EscapeChar(c);
    assert e == "\\u00" + [HexDigit(c as int / 16), HexDigit(c as int % 16)];
  }

  lemma HexReadsBack(n: nat)
    requires n < 16
    ensures HexValue(HexDigit(n)) == n
  {
  }

  // ---------- Single quotes ----------

  lemma {:induction false} UpToSingleQuote(value: string, rest: string)
    requires '\'' !in value
    ensures ToSingleQuote(value + "'" + rest) == Some(value)
  {
    var t := value + "'" + rest;
    if value != [] {
      assert t[1..] == value[1..] + "'" + rest;
      UpToSingleQuote(value[1..], rest);
      assert [value[0]] + value[1..] == value;
    }
  }

  /** Between single quotes everything stands for itself, whatever follows. */
  lemma SingleQuotedReads(lead: string, value: string, rest: string)
    requires AllSpace(lead) && '\'' !in value
    ensures Unquote(lead + ("'" + (value + "'" + rest))) == value
  {
    hide IsSpace, ToSingleQuote;
    var t := "'" + (value + "'" + rest);
    QuoteIsNoSpace();
    SpaceThenText(lead, t);
    UpToSingleQuote(value, rest);
    assert t[1..] == value + "'" + rest;
  }

  lemma QuoteIsNoSpace()
    ensures !IsSpace('\'') && !IsSpace('"')
  {
  }

  lemma {:induction false} UpToDoubleQuote(value: string, rest: string)
    requires '"' !in value && '\\' !in value
    ensures ToClosingQuote(value + "\"" + rest) == Some(value)
  {
    var t := value + "\"" + rest;
    if value != [] {
      assert t[1..] == value[1..] + "\"" + rest;
      assert value[0] in value;
      UpToDoubleQuote(value[1..], rest);
      assert [value[0]] + value[1..] == value;
    }
  }

  /** Between double quotes everything but a backslash does. */
  lemma DoubleQuotedReads(lead: string, value: string, rest: string)
    requires AllSpace(lead) && '"' !in value && '\\' !in value
    ensures Unquote(lead + ("\"" + (value + "\"" + rest))) == value
  {
    hide IsSpace, ToClosingQuote;
    var t := "\"" + (value + "\"" + rest);
    QuoteIsNoSpace();
    SpaceThenText(lead, t);
    UpToDoubleQuote(value, rest);
    assert t[1..] == value + "\"" + rest;
  }

  // ---------- Comments ----------

  /** No comment begins in the text: no `#` has whitespace right before it. */
  predicate NoComment(s: string) {
    forall i :: 0 < i < |s| && s[i] == '#' ==> !IsSpace(s[i - 1])
  }

  /** What may follow a bare value on its line: whitespace, and then a comment or nothing. */
  predicate Trails(gap: string, comment: string) {
    AllSpace(gap) && (comment == [] || (gap != [] && comment[0] == '#'))
  }

  lemma {:induction false} SpaceThenText(space: string, text: string)
    requires AllSpace(space) && (text == [] || !IsSpace(text[0]))
    ensures StripLeft(space + text) == text
  {
    hide IsSpace;
    if space == [] {
      assert space + text == text;
    } else {
      assert (space + text)[1..] == space[1..] + text;
      SpaceThenText(space[1..], text);
    }
  }

  lemma {:induction false} TextThenSpace(text: string, space: string)
    requires AllSpace(space) && (text == [] || !IsSpace(text[|text| - 1]))
    ensures StripRight(text + space) == text
  {
    hide IsSpace;
    if space == [] {
      assert text + space == text;
    } else {
      var n := |space| - 1;
      assert (text + space)[..|text + space| - 1] == text + space[..n];
      TextThenSpace(text, space[..n]);
    }
  }

  /** Behind leading whitespace, the first text of a value is no `#`. */
  lemma {:induction false} NoCommentAhead(s: string, rest: string)
    requires s != [] && IsSpace(s[0]) && !IsSpace(s[|s| - 1]) && NoComment(s)
    ensures StripLeft(s + rest) != [] && StripLeft(s + rest)[0] != '#'
  {
    hide IsSpace;
    assert (s + rest)[1..] == s[1..] + rest;
    if IsSpace(s[1]) {
      assert forall i :: 0 <= i < |s| - 1 ==> s[1..][i] == s[i + 1];
      NoCommentAhead(s[1..], rest);
    } else {
      assert (s[1..] + rest)[0] == s[1];
    }
  }

  lemma HeadStays(s: string, tail: string)
    requires s != [] && !IsSpace(s[|s| - 1]) && NoComment(s)
    ensures CutComment(s + tail) == [s[0]] + CutComment(s[1..] + tail)
  {
    hide IsSpace, StripLeft;
    assert (s + tail)[1..] == s[1..] + tail;
    if IsSpace(s[0]) {
      NoCommentAhead(s, tail);
    }
  }

  lemma {:induction false} CutsTrail(s: string, gap: string, comment: string)
    requires s == [] || !IsSpace(s[|s| - 1])
    requires NoComment(s) && Trails(gap, comment)
    ensures CutComment(s + (gap + comment)) == s + if comment == [] then gap else []
  {
    hide IsSpace, StripLeft, CutComment, Trails;
    if s == [] {
      assert s + (gap + comment) == gap + comment;
      CutsGap(gap, comment);
    } else {
      HeadStays(s, gap + comment);
      TailHasNoComment(s);
      hide NoComment;
      CutsTrail(s[1..], gap, comment);
      assert s == [s[0]] + s[1..];
    }
  }

  lemma TailHasNoComment(s: string)
    requires s != [] && NoComment(s)
    ensures NoComment(s[1..])
  {
    assert forall i :: 0 <= i < |s| - 1 ==> s[1..][i] == s[i + 1];
  }

  lemma {:induction false} CutsGap(gap: string, comment: string)
    requires Trails(gap, comment)
    ensures CutComment(gap + comment) == if comment == [] then gap else []
  {
    hide IsSpace;
    if gap != [] {
      if comment == [] {
        assert gap + comment == gap;
        SpaceThenText(gap, []);
        assert gap + [] == gap;
        assert gap[1..] + comment == gap[1..];
        CutsGap(gap[1..], comment);
      } else {
        HashIsNoSpace();
        SpaceThenText(gap, comment);
      }
    }
  }

  lemma HashIsNoSpace()
    ensures !IsSpace('#')
  {
  }

  /** A value without quotes at its front reads as itself, whatever whitespace surrounds it and whatever comment
      follows. */
  lemma BareValueReads(lead: string, value: string, gap: string, comment: string)
    requires AllSpace(lead) && Trails(gap, comment) && NoComment(value)
    requires value != [] && !IsSpace(value[0]) && !IsSpace(value[|value| - 1]) && value[0] != '"' && value[0] != '\''
    ensures Unquote(lead + (value + (gap + comment))) == value
  {
    hide IsSpace, CutComment, StripLeft, StripRight;
    var t := value + (gap + comment);
    SpaceThenText(lead, t);
    CutsTrail(value, gap, comment);
    TextThenSpace(value, if comment == [] then gap else []);
    assert t[0] == value[0];
  }

  // ---------- Quoted values and line breaks ----------

  /** The characters at which `str.splitlines` breaks. */
  predicate IsBreak(c: char) {
    '\n' <= c <= '\r' || '\U{1c}' <= c <= '\U{1e}' || c == '\U{85}' || c == '\U{2028}' || c == '\U{2029}'
  }

  /** They are these ten. */
  lemma BreaksExactly(c: char)
    ensures IsBreak(c) <==> c in {'\n', '\U{b}', '\U{c}', '\r', '\U{1c}', '\U{1d}', '\U{1e}', '\U{85}', '\U{2028}', '\U{2029}'}
  {
  }

  predicate OneLine(s: string) {
    forall c :: c in s ==> !IsBreak(c)
  }

  lemma OneLineAppend(a: string, b: string)
    ensures OneLine(a + b) <==> OneLine(a) && OneLine(b)
  {
    assert forall c :: c in a + b <==> c in a || c in b;
  }

  predicate EscapesBreak(c: char) {
    c == '\U{85}' || c == '\U{2028}' || c == '\U{2029}'
  }

  lemma EscapeCharOneLine(c: char)
    ensures OneLine(EscapeChar(c)) <==> !EscapesBreak(c)
  {
    var e := EscapeChar(c);
    if |e| == 6 {
      assert e == ['\\', 'u', '0', '0', e[4], e[5]];
    } else if |e| == 1 {
      assert e == [c] && e[0] in e;
    } else {
      assert e == [e[0], e[1]];
    }
  }

  lemma {:induction false} EscapeOneLine(s: string)
    ensures OneLine(Escape(s)) <==> forall i :: 0 <= i < |s| ==> !EscapesBreak(s[i])
  {
    if s != [] {
      EscapeOneLine(s[1..]);
      EscapeCharOneLine(s[0]);
      OneLineAppend(EscapeChar(s[0]), Escape(s[1..]));
      hide OneLine, EscapeChar, EscapesBreak;
      assert s == [s[0]] + s[1..];
    }
  }

  /** A quoted value stays on its line exactly when it holds none of the three line breaks that JSON
      leaves alone. */
  lemma QuoteOneLine(value: string)
    ensures OneLine(Quote(value)) <==> forall c :: c in value ==> !EscapesBreak(c)
  {
    if NeedsQuotes(value) {
      EscapeOneLine(value);
      var q := Quote(value);
      assert forall c :: c in q <==> c == '"' || c in Escape(value);
    } else {
      assert forall c :: c in value ==> !IsSpace(c);
      assert forall c :: IsBreak(c) ==> IsSpace(c);
    }
  }
}
