/**
 Comment stripping for JSON with comments. The reference is a grammar: plain bytes, string literals, line
 comments and block comments. Stripping keeps everything but the comments, and of those the line breaks.
 Every input has a reading by the grammar, so the results below speak of all inputs.
 */
module Jsonc {
  import opened Domain

  // ---------- The program ----------

  datatype Mode = Text | InString | Escaped | LineComment | BlockComment

  /** What one turn of the index loop writes, the mode it leaves, and how many characters it passes. */
  datatype Act = Act(out: string, mode: Mode, width: nat)

  predicate Break(c: char) {
    c == '\n' || c == '\r'
  }

  function Read(mode: Mode, c: char, next: Option<char>): (a: Act)
    ensures 1 <= a.width <= 2 && (a.width == 2 ==> next.Some?)
  {
    match mode
    case LineComment => if Break(c) then Act([c], Text, 1) else Act("", LineComment, 1)
    case BlockComment =>
      if c == '*' && next == Some('/') then Act("", Text, 2)
      else Act(if Break(c) then [c] else "", BlockComment, 1)
    case Escaped => Act([c], InString, 1)
    case InString => Act([c], if c == '\\' then Escaped else if c == '"' then Text else InString, 1)
    case Text =>
      if c == '"' then Act([c], InString, 1)
      else if c == '/' && next == Some('/') then Act("", LineComment, 2)
      else if c == '/' && next == Some('*') then Act("", BlockComment, 2)
      else Act([c], Text, 1)
  }

  function Peek(s: string): (next: Option<char>)
    ensures next.Some? <==> |s| > 1
  {
    if |s| > 1 then Some(s[1]) else None
  }

  /** What the loop still writes, from a mode and the rest of the input. */
  function Strip(mode: Mode, s: string): string
    decreases |s|
  {
    if s == "" then ""
    else
      var a := Read(mode, s[0], Peek(s));
      a.out + Strip(a.mode, s[a.width..])
  }

  function ModeOf(inString: bool, lineComment: bool, blockComment: bool, escaped: bool): Mode {
    if lineComment then LineComment else if blockComment then BlockComment
    else if inString then (if escaped then Escaped else InString) else Text
  }

  /** The same in the loop's own terms: from index `i`, with `out` already written. */
  function Resume(input: string, i: nat, mode: Mode, out: string): string
    requires i <= |input|
    decreases |input| - i
  {
    if i == |input| then out
    else
      var a := Read(mode, input[i], if i + 1 < |input| then Some(input[i + 1]) else None);
      Resume(input, i + a.width, a.mode, out + a.out)
  }

  lemma Associative(a: string, b: string, c: string)
    ensures (a + b) + c == a + (b + c)
  {
  }

  lemma {:induction false} ResumeWritesStrip(input: string, i: nat, mode: Mode, out: string)
    requires i <= |input|
    ensures Resume(input, i, mode, out) == out + Strip(mode, input[i..])
    decreases |input| - i
  {
    if i < |input| {
      var rest := input[i..];
      var a := Read(mode, rest[0], Peek(rest));
      assert rest[a.width..] == input[i + a.width..];
      ResumeWritesStrip(input, i + a.width, a.mode, out + a.out);
      Associative(out, a.out, Strip(a.mode, rest[a.width..]));
    }
  }

  method StripJSONComments(input: string) returns (out: string)
    ensures out == Strip(Text, input)
  {
    out := "";
    var inString, lineComment, blockComment, escaped := false, false, false, false;
    var i := 0;
    while i < |input|
      invariant 0 <= i <= |input|
      invariant Resume(input, i, ModeOf(inString, lineComment, blockComment, escaped), out)
          == Resume(input, 0, Text, "")
      invariant !(lineComment && blockComment) && (inString ==> !lineComment && !blockComment)
      invariant escaped ==> inString
      decreases |input| - i
    {
      var ch := input[i];
      assert out + "" == out;
      if lineComment {
        if ch == '\n' || ch == '\r' {
          lineComment := false;
          out := out + [ch];
        }
      } else if blockComment {
        if ch == '*' && i + 1 < |input| && input[i + 1] == '/' {
          blockComment := false;
          i := i + 1;
        } else if ch == '\n' || ch == '\r' {
          out := out + [ch];
        }
      } else if inString {
        out := out + [ch];
        if escaped {
          escaped := false;
        } else if ch == '\\' {
          escaped := true;
        } else if ch == '"' {
          inString := false;
        }
      } else if ch == '"' {
        inString := true;
        out := out + [ch];
      } else if ch == '/' && i + 1 < |input| && input[i + 1] == '/' {
        lineComment := true;
        i := i + 1;
      } else if ch == '/' && i + 1 < |input| && input[i + 1] == '*' {
        blockComment := true;
        i := i + 1;
      } else {
        out := out + [ch];
      }
      i := i + 1;
    }
    ResumeWritesStrip(input, 0, Text, "");
    assert input[0..] == input;
  }

  // ---------- For every input ----------

  /** The characters that end a line comment, and that a comment leaves behind. */
  predicate LineEnd(c: char) {
    c == '\r' || c == '\n'
  }

  function Breaks(s: string): string {
    if s == "" then "" else (if LineEnd(s[0]) then [s[0]] else []) + Breaks(s[1..])
  }

  lemma {:induction false} BreaksConcat(s: string, t: string)
    ensures Breaks(s + t) == Breaks(s) + Breaks(t)
  {
    if s == "" {
      assert s + t == t;
    } else {
      assert (s + t)[0] == s[0] && (s + t)[1..] == s[1..] + t;
      BreaksConcat(s[1..], t);
      Associative(if LineEnd(s[0]) then [s[0]] else [], Breaks(s[1..]), Breaks(t));
    }
  }

  lemma BreaksShort(s: string)
    requires |s| <= 2
    ensures s == "" ==> Breaks(s) == ""
    ensures |s| == 1 ==> Breaks(s) == (if LineEnd(s[0]) then s else "")
    ensures |s| == 2 && !LineEnd(s[0]) && !LineEnd(s[1]) ==> Breaks(s) == ""
  {
    if |s| == 2 {
      assert s[1..][0] == s[1] && s[1..][1..] == "";
    }
  }

  lemma ReadKeepsBreaks(mode: Mode, s: string, a: Act)
    requires s != "" && a == Read(mode, s[0], Peek(s))
    ensures Breaks(a.out) == Breaks(s[..a.width])
  {
    BreaksShort(s[..a.width]);
    BreaksShort(a.out);
  }

  /** Line numbers survive: the output holds exactly the carriage returns and newlines of the input, in order. */
  lemma {:induction false} StripKeepsBreaks(mode: Mode, s: string)
    ensures Breaks(Strip(mode, s)) == Breaks(s)
    decreases |s|
  {
    if s != "" {
      var a := Read(mode, s[0], Peek(s));
      var head, tail := s[..a.width], s[a.width..];
      assert s == head + tail;
      StripKeepsBreaks(a.mode, tail);
      BreaksConcat(head, tail);
      BreaksConcat(a.out, Strip(a.mode, tail));
      ReadKeepsBreaks(mode, s, a);
    }
  }

  /** Reading the output again: comments are gone, literals are where they were. */
  function Again(mode: Mode): Mode {
    if mode.LineComment? || mode.BlockComment? then Text else mode
  }

  lemma ReadsOn(mode: Mode, c: char, rest: string, a: Act)
    requires a == Read(mode, c, Peek([c] + rest)) && a.width == 1
    ensures Strip(mode, [c] + rest) == a.out + Strip(a.mode, rest)
  {
    assert ([c] + rest)[0] == c && ([c] + rest)[1..] == rest;
  }

  /** A kept slash never meets the next kept character to open a comment. */
  lemma SlashStaysPlain(s: string)
    requires s != "" ==> s[0] != '/' && s[0] != '*'
    ensures Strip(Text, s) != "" ==> Strip(Text, s)[0] != '/' && Strip(Text, s)[0] != '*'
  {
    if s != "" {
      assert Read(Text, s[0], Peek(s)).out == [s[0]];
    }
  }

  lemma KeptSlash(s: string, rest: string)
    requires s != "" && s[0] == '/' && Peek(s) != Some('/') && Peek(s) != Some('*')
    requires rest == Strip(Text, s[1..])
    ensures Peek([s[0]] + rest) != Some('/') && Peek([s[0]] + rest) != Some('*')
  {
    SlashStaysPlain(s[1..]);
  }

  lemma SlashKept(mode: Mode, s: string, rest: string)
    requires s != "" && Read(mode, s[0], Peek(s)).out != ""
    requires rest == Strip(Read(mode, s[0], Peek(s)).mode, s[Read(mode, s[0], Peek(s)).width..])
    ensures mode == Text && s[0] == '/' ==> Peek([s[0]] + rest) != Some('/') && Peek([s[0]] + rest) != Some('*')
  {
    if mode == Text && s[0] == '/' {
      KeptSlash(s, rest);
    }
  }

  /** A kept character is kept again, and leaves the second reading where the first one was. */
  lemma RereadKept(mode: Mode, c: char, next: Option<char>, rest: string)
    requires Read(mode, c, next).out != ""
    requires mode == Text && c == '/' ==> Peek([c] + rest) != Some('/') && Peek([c] + rest) != Some('*')
    requires Strip(Again(Read(mode, c, next).mode), rest) == rest
    ensures Strip(Again(mode), [c] + rest) == [c] + rest
  {
    ReadsOn(Again(mode), c, rest, Act([c], Again(Read(mode, c, next).mode), 1));
  }

  /** Stripping twice is stripping once. */
  lemma {:induction false} StripIsIdempotent(mode: Mode, s: string)
    ensures Strip(Again(mode), Strip(mode, s)) == Strip(mode, s)
    decreases |s|
  {
    if s != "" {
      var a := Read(mode, s[0], Peek(s));
      var rest := Strip(a.mode, s[a.width..]);
      StripIsIdempotent(a.mode, s[a.width..]);
      assert Strip(mode, s) == a.out + rest;
      if a.out != "" {
        SlashKept(mode, s, rest);
      }
      ReadTwice(mode, s[0], a, Peek(s), rest);
    }
  }

  lemma ReadTwice(mode: Mode, c: char, a: Act, next: Option<char>, rest: string)
    requires a == Read(mode, c, next) && Strip(Again(a.mode), rest) == rest
    requires a.out != "" && mode == Text && c == '/' ==> Peek([c] + rest) != Some('/') && Peek([c] + rest) != Some('*')
    ensures Strip(Again(mode), a.out + rest) == a.out + rest
  {
    if a.out == "" {
      assert a.out + rest == rest;
      assert Again(mode) == Again(a.mode);
    } else {
      assert a.out == [c];
      RereadKept(mode, c, next, rest);
    }
  }

  // ---------- The grammar ----------

  datatype StringItem = Plain(c: char) | Escape(c: char)

  /** How a string literal ends: at its quote, or cut by the end of the input, perhaps after a lone backslash. */
  datatype End = Quote | Cut | CutEscape

  /** A block comment is not closed only when the input ends in it. */
  datatype Token =
    | Byte(c: char)
    | Literal(items: seq<StringItem>, end: End)
    | Line(text: string)
    | Block(text: string, closed: bool)

  function ItemText(item: StringItem): string {
    match item
    case Plain(c) => [c]
    case Escape(c) => ['\\', c]
  }

  function ItemsText(items: seq<StringItem>): string {
    if items == [] then "" else ItemText(items[0]) + ItemsText(items[1..])
  }

  function EndText(end: End): string {
    match end
    case Quote => "\""
    case Cut => ""
    case CutEscape => "\\"
  }

  function CloseText(closed: bool): string {
    if closed then "*/" else ""
  }

  function Source(t: Token): (s: string)
    ensures s != ""
  {
    match t
    case Byte(c) => [c]
    case Literal(items, end) => "\"" + (ItemsText(items) + EndText(end))
    case Line(text) => "//" + text
    case Block(text, closed) => "/*" + (text + CloseText(closed))
  }

  predicate Comment(t: Token) {
    t.Line? || t.Block?
  }

  /** What stripping keeps of a token: all of it, or the line breaks of a comment. */
  function Kept(t: Token): string {
    if Comment(t) then Breaks(Source(t)) else Source(t)
  }

  function Sources(ts: seq<Token>): string {
    if ts == [] then "" else Source(ts[0]) + Sources(ts[1..])
  }

  function Kepts(ts: seq<Token>): string {
    if ts == [] then "" else Kept(ts[0]) + Kepts(ts[1..])
  }

  predicate PlainItems(items: seq<StringItem>) {
    forall item :: item in items && item.Plain? ==> item.c != '"' && item.c != '\\'
  }

  predicate NoBreak(text: string) {
    forall c :: c in text ==> !LineEnd(c)
  }

  /** No closing mark inside, nor one made of the last character and `after`. */
  predicate NoClose(text: string, after: string) {
    text != "" ==>
      && (text[0] == '*' ==> if |text| > 1 then text[1] != '/' else after == "" || after[0] != '/')
      && NoClose(text[1..], after)
  }

  /** A token may stand where `rest` follows it. */
  predicate Fits(t: Token, rest: string) {
    match t
    case Byte(c) => c != '"' && (c == '/' ==> rest == "" || (rest[0] != '/' && rest[0] != '*'))
    case Literal(items, end) => PlainItems(items) && (end != Quote ==> rest == "")
    case Line(text) => NoBreak(text) && (rest == "" || LineEnd(rest[0]))
    case Block(text, closed) => NoClose(text, CloseText(closed)) && (!closed ==> rest == "")
  }

  predicate WellFormed(ts: seq<Token>) {
    ts != [] ==> Fits(ts[0], Sources(ts[1..])) && WellFormed(ts[1..])
  }

  // ---------- Stripping follows the grammar ----------

  lemma StripItem(item: StringItem, rest: string)
    requires item.Plain? ==> item.c != '"' && item.c != '\\'
    ensures Strip(InString, ItemText(item) + rest) == ItemText(item) + Strip(InString, rest)
  {
    match item
    case Plain(c) =>
      ReadsOn(InString, c, rest, Act([c], InString, 1));
    case Escape(c) =>
      ReadsOn(InString, '\\', [c] + rest, Act("\\", Escaped, 1));
      ReadsOn(Escaped, c, rest, Act([c], InString, 1));
      assert ItemText(item) + rest == ['\\'] + ([c] + rest);
      assert ItemText(item) + Strip(InString, rest) == "\\" + ([c] + Strip(InString, rest));
  }

  lemma {:induction false} StripItems(items: seq<StringItem>, rest: string)
    requires PlainItems(items)
    ensures Strip(InString, ItemsText(items) + rest) == ItemsText(items) + Strip(InString, rest)
  {
    if items == [] {
      assert ItemsText(items) + rest == rest;
    } else {
      var texts := ItemsText(items[1..]);
      assert items[0] in items;
      StripItems(items[1..], rest);
      StripItem(items[0], texts + rest);
      Associative(ItemText(items[0]), texts, rest);
      Associative(ItemText(items[0]), texts, Strip(InString, rest));
    }
  }

  lemma StripEnd(end: End, rest: string)
    requires end != Quote ==> rest == ""
    ensures Strip(InString, EndText(end) + rest) == EndText(end) + Strip(Text, rest)
  {
    match end
    case Quote => ReadsOn(InString, '"', rest, Act("\"", Text, 1));
    case Cut =>
    case CutEscape => ReadsOn(InString, '\\', rest, Act("\\", Escaped, 1));
  }

  lemma {:induction false} StripLine(text: string, rest: string)
    requires NoBreak(text) && (rest == "" || LineEnd(rest[0]))
    ensures Strip(LineComment, text + rest) == Strip(Text, rest)
  {
    if text == "" {
      assert text + rest == rest;
      if rest != "" {
        assert Read(LineComment, rest[0], Peek(rest)) == Read(Text, rest[0], Peek(rest));
      }
    } else {
      assert text[0] in text;
      assert text + rest == [text[0]] + (text[1..] + rest);
      ReadsOn(LineComment, text[0], text[1..] + rest, Act("", LineComment, 1));
      StripLine(text[1..], rest);
    }
  }

  lemma {:induction false} StripBlock(text: string, closed: bool, rest: string)
    requires NoClose(text, CloseText(closed)) && (!closed ==> rest == "")
    ensures Strip(BlockComment, text + (CloseText(closed) + rest)) == Breaks(text) + Strip(Text, rest)
  {
    var after := CloseText(closed) + rest;
    if text == "" {
      assert text + after == after;
      BlockEnds(closed, rest);
    } else {
      var head := if LineEnd(text[0]) then [text[0]] else "";
      StripBlock(text[1..], closed, rest);
      BlockContinues(text, after);
      Associative(head, Breaks(text[1..]), Strip(Text, rest));
    }
  }

  lemma BlockEnds(closed: bool, rest: string)
    requires !closed ==> rest == ""
    ensures Strip(BlockComment, CloseText(closed) + rest) == Strip(Text, rest)
  {
    if closed {
      var after := CloseText(closed) + rest;
      assert after[0] == '*' && after[1] == '/' && after[2..] == rest;
    }
  }

  /** A character of a block comment that is not the start of its end. */
  lemma BlockContinues(text: string, after: string)
    requires text != ""
    requires text[0] == '*' ==> if |text| > 1 then text[1] != '/' else after == "" || after[0] != '/'
    ensures Strip(BlockComment, text + after)
         == (if LineEnd(text[0]) then [text[0]] else "") + Strip(BlockComment, text[1..] + after)
  {
    var tail := text[1..] + after;
    assert text + after == [text[0]] + tail;
    assert |text| > 1 ==> tail[0] == text[1];
    assert |text| == 1 ==> tail == after;
    ReadsOn(BlockComment, text[0], tail, Act(if LineEnd(text[0]) then [text[0]] else "", BlockComment, 1));
  }

  lemma StripComment(mark: char, inside: string)
    requires mark == '/' || mark == '*'
    ensures Strip(Text, ['/', mark] + inside) == Strip(if mark == '/' then LineComment else BlockComment, inside)
  {
    var s := ['/', mark] + inside;
    assert s[0] == '/' && s[1] == mark && s[2..] == inside;
  }

  lemma BreaksOfComment(mark: char, inside: string)
    requires mark == '/' || mark == '*'
    ensures Breaks(['/', mark] + inside) == Breaks(inside)
  {
    BreaksConcat(['/', mark], inside);
    BreaksShort(['/', mark]);
  }

  lemma {:induction false} NoBreaks(text: string)
    requires NoBreak(text)
    ensures Breaks(text) == ""
  {
    if text != "" {
      assert text[0] in text;
      NoBreaks(text[1..]);
    }
  }

  lemma StripLiteral(items: seq<StringItem>, end: End, rest: string)
    requires Fits(Literal(items, end), rest)
    ensures Strip(Text, Source(Literal(items, end)) + rest) == Source(Literal(items, end)) + Strip(Text, rest)
  {
    var texts, close := ItemsText(items), EndText(end);
    StripItems(items, close + rest);
    StripEnd(end, rest);
    LiteralShape(texts, close, rest);
    LiteralShape(texts, close, Strip(Text, rest));
    ReadsOn(Text, '"', texts + (close + rest), Act("\"", InString, 1));
  }

  lemma LiteralShape(texts: string, close: string, rest: string)
    ensures ("\"" + (texts + close)) + rest == ['"'] + (texts + (close + rest))
  {
  }

  lemma StripToken(t: Token, rest: string)
    requires Fits(t, rest)
    ensures Strip(Text, Source(t) + rest) == Kept(t) + Strip(Text, rest)
  {
    match t
    case Byte(c) =>
      ReadsOn(Text, c, rest, Act([c], Text, 1));
    case Literal(items, end) =>
      StripLiteral(items, end, rest);
    case Line(text) =>
      assert Source(t) + rest == ['/', '/'] + (text + rest);
      StripComment('/', text + rest);
      BreaksOfComment('/', text);
      StripLine(text, rest);
      NoBreaks(text);
    case Block(text, closed) =>
      StripBlockToken(text, closed, rest);
  }

  lemma KeptBlock(text: string, closed: bool)
    ensures Kept(Block(text, closed)) == Breaks(text)
  {
    BreaksOfComment('*', text + CloseText(closed));
    BreaksConcat(text, CloseText(closed));
    BreaksShort(CloseText(closed));
  }

  lemma StripBlockToken(text: string, closed: bool, rest: string)
    requires Fits(Block(text, closed), rest)
    ensures Strip(Text, Source(Block(text, closed)) + rest) == Kept(Block(text, closed)) + Strip(Text, rest)
  {
    var close := CloseText(closed);
    Associative("/*", text + close, rest);
    Associative(text, close, rest);
    StripComment('*', text + (close + rest));
    StripBlock(text, closed, rest);
    KeptBlock(text, closed);
  }

  /** For every reading of an input by the grammar, stripping keeps what the grammar says, in order. */
  lemma {:induction false} StripKeepsTokens(ts: seq<Token>)
    requires WellFormed(ts)
    ensures Strip(Text, Sources(ts)) == Kepts(ts)
  {
    if ts != [] {
      StripKeepsTokens(ts[1..]);
      StripToken(ts[0], Sources(ts[1..]));
    }
  }

  // ---------- Every input has a reading ----------

  lemma ItemsCons(item: StringItem, items: seq<StringItem>, end: End, rest: string)
    ensures ItemsText([item] + items) + (EndText(end) + rest)
        == ItemText(item) + (ItemsText(items) + (EndText(end) + rest))
    ensures PlainItems(items) && (item.Plain? ==> item.c != '"' && item.c != '\\') ==> PlainItems([item] + items)
  {
    assert ([item] + items)[1..] == items;
    Associative(ItemText(item), ItemsText(items), EndText(end) + rest);
  }

  function ScanString(s: string): (r: (seq<StringItem>, End, string))
    ensures s == ItemsText(r.0) + (EndText(r.1) + r.2)
    ensures PlainItems(r.0) && (r.1 != Quote ==> r.2 == "")
  {
    if s == "" then ([], Cut, "")
    else if s[0] == '"' then
      assert s == EndText(Quote) + s[1..];
      ([], Quote, s[1..])
    else if s == "\\" then ([], CutEscape, "")
    else if s[0] == '\\' then
      var r := ScanString(s[2..]);
      assert s == ['\\', s[1]] + s[2..];
      ItemsCons(Escape(s[1]), r.0, r.1, r.2);
      ([Escape(s[1])] + r.0, r.1, r.2)
    else
      var r := ScanString(s[1..]);
      assert s == [s[0]] + s[1..];
      ItemsCons(Plain(s[0]), r.0, r.1, r.2);
      ([Plain(s[0])] + r.0, r.1, r.2)
  }

  function ScanLine(s: string): (r: (string, string))
    ensures s == r.0 + r.1 && NoBreak(r.0) && (r.1 == "" || LineEnd(r.1[0]))
  {
    if s == "" || LineEnd(s[0]) then ("", s) else var r := ScanLine(s[1..]); ([s[0]] + r.0, r.1)
  }

  function ScanBlock(s: string): (r: (string, bool, string))
    ensures s == r.0 + (CloseText(r.1) + r.2)
    ensures NoClose(r.0, CloseText(r.1)) && (!r.1 ==> r.2 == "")
  {
    if s == "" then ("", false, "")
    else if |s| > 1 && s[0] == '*' && s[1] == '/' then
      assert s == CloseText(true) + s[2..];
      ("", true, s[2..])
    else
      var r := ScanBlock(s[1..]);
      assert s == [s[0]] + s[1..];
      assert ([s[0]] + r.0)[1..] == r.0;
      ([s[0]] + r.0, r.1, r.2)
  }

  function ScanToken(s: string): (r: (Token, string))
    requires s != ""
    ensures s == Source(r.0) + r.1 && Fits(r.0, r.1)
  {
    if s[0] == '"' then
      var r := ScanString(s[1..]);
      (Literal(r.0, r.1), r.2)
    else if s[0] == '/' && Peek(s) == Some('/') then
      var r := ScanLine(s[2..]);
      (Line(r.0), r.1)
    else if s[0] == '/' && Peek(s) == Some('*') then
      var r := ScanBlock(s[2..]);
      (Block(r.0, r.1), r.2)
    else
      (Byte(s[0]), s[1..])
  }

  function Tokens(s: string): (ts: seq<Token>)
    ensures WellFormed(ts) && Sources(ts) == s
    decreases |s|
  {
    if s == "" then []
    else
      var r := ScanToken(s);
      assert |r.1| < |s|;
      var rest := Tokens(r.1);
      assert ([r.0] + rest)[1..] == rest;
      [r.0] + rest
  }

  lemma {:induction false} KeptsLength(ts: seq<Token>)
    ensures |Kepts(ts)| <= |Sources(ts)|
    ensures |Kepts(ts)| == |Sources(ts)| <==> forall t :: t in ts ==> !Comment(t)
  {
    if ts != [] {
      KeptsLength(ts[1..]);
      KeptLength(ts[0]);
      assert ts[0] in ts;
      assert forall t :: t in ts <==> t == ts[0] || t in ts[1..];
    }
  }

  lemma {:induction false} BreaksLength(s: string)
    ensures |Breaks(s)| <= |s|
  {
    if s != "" {
      BreaksLength(s[1..]);
    }
  }

  lemma KeptLength(t: Token)
    ensures |Kept(t)| <= |Source(t)|
    ensures |Kept(t)| == |Source(t)| <==> !Comment(t)
  {
    match t
    case Byte(_) =>
    case Literal(_, _) =>
    case Line(text) =>
      BreaksOfComment('/', text);
      BreaksLength(text);
    case Block(text, closed) =>
      BreaksOfComment('*', text + CloseText(closed));
      BreaksLength(text + CloseText(closed));
  }

  lemma {:induction false} KeptsWithoutComments(ts: seq<Token>)
    requires forall t :: t in ts ==> !Comment(t)
    ensures Kepts(ts) == Sources(ts)
  {
    if ts != [] {
      assert ts[0] in ts;
      KeptsWithoutComments(ts[1..]);
    }
  }

  /**
   For every input and every reading of it (`Tokens` is one): the output is what the grammar keeps, and stripping
   leaves the input alone exactly when the reading has no comment.
   */
  lemma StripMeansGrammar(s: string, ts: seq<Token>)
    requires WellFormed(ts) && Sources(ts) == s
    ensures Strip(Text, s) == Kepts(ts)
    ensures Strip(Text, s) == s <==> forall t :: t in ts ==> !Comment(t)
  {
    StripKeepsTokens(ts);
    KeptsLength(ts);
    if forall t :: t in ts ==> !Comment(t) {
      KeptsWithoutComments(ts);
    }
  }
}
