/** What stripping and splitting do, told on the characters of a script alone. */
module SqlScripts {
  import opened SqlLexer
  import opened SqlSplit
  import opened SqlTheorems
  import opened Text

  /** A script is made of single characters, closed literals and comments; the last part may be left open. */
  datatype Part =
    | Plain(c: char)
    | Quoted(quote: char, body: string)
    | LineComment(body: string)
    | BlockComment(body: string)
    | OpenQuote(quote: char, body: string)
    | OpenLine(body: string)
    | OpenBlock(body: string)

  /** A quote inside a literal is written twice. */
  function Doubled(quote: char, body: string): string {
    if body == "" then "" else (if body[0] == quote then [quote, quote] else [body[0]]) + Doubled(quote, body[1..])
  }

  function TextOf(p: Part): string {
    match p
    case Plain(c) => [c]
    case Quoted(q, body) => [q] + Doubled(q, body) + [q]
    case LineComment(body) => "--" + body + "\n"
    case BlockComment(body) => "/*" + body + "*/"
    case OpenQuote(q, body) => [q] + Doubled(q, body)
    case OpenLine(body) => "--" + body
    case OpenBlock(body) => "/*" + body
  }

  function ScriptText(parts: seq<Part>): string {
    if parts == [] then "" else TextOf(parts[0]) + ScriptText(parts[1..])
  }

  predicate StartsWith(s: string, c: char) {
    s != "" && s[0] == c
  }

  predicate HasEnd(body: string) {
    exists i :: 0 <= i < |body| - 1 && body[i] == '*' && body[i + 1] == '/'
  }

  /** A part as it may stand before a text: quotes and comments begin where they can, and end where they first can. */
  predicate IsPart(p: Part, rest: string) {
    match p
    case Plain(c) =>
      && c != '\'' && c != '"'
      && !(c == '-' && StartsWith(rest, '-')) && !(c == '/' && StartsWith(rest, '*'))
    case Quoted(q, _) => (q == '\'' || q == '"') && !StartsWith(rest, q)
    case LineComment(body) => '\n' !in body
    case BlockComment(body) => !HasEnd(body)
    case OpenQuote(q, _) => (q == '\'' || q == '"') && rest == ""
    case OpenLine(body) => '\n' !in body && rest == ""
    case OpenBlock(body) => !HasEnd(body) && rest == ""
  }

  predicate IsScript(parts: seq<Part>) {
    parts != [] ==> IsPart(parts[0], ScriptText(parts[1..])) && IsScript(parts[1..])
  }

  // ----- every text is a script -----

  lemma ReadQuote(q: char, s: string) returns (closed: bool, body: string, rest: string)
    ensures closed ==> s == Doubled(q, body) + [q] + rest && !StartsWith(rest, q)
    ensures !closed ==> s == Doubled(q, body) && rest == ""
    decreases |s|
  {
    if s == "" {
      closed, body, rest := false, "", "";
    } else if s[0] == q && !StartsWith(s[1..], q) {
      closed, body, rest := true, "", s[1..];
      assert s == [q] + rest;
    } else {
      var n := if s[0] == q then 2 else 1;
      var inner;
      closed, inner, rest := ReadQuote(q, s[n..]);
      body := [s[0]] + inner;
      assert s == s[..n] + s[n..];
      assert Doubled(q, body) == s[..n] + Doubled(q, inner);
      if closed {
        assert s == s[..n] + (Doubled(q, inner) + [q] + rest) == Doubled(q, body) + [q] + rest;
      }
    }
  }

  lemma ReadLine(s: string) returns (closed: bool, body: string, rest: string)
    ensures '\n' !in body
    ensures if closed then s == body + "\n" + rest else s == body && rest == ""
    decreases |s|
  {
    if s == "" {
      closed, body, rest := false, "", "";
    } else if s[0] == '\n' {
      closed, body, rest := true, "", s[1..];
    } else {
      var inner;
      closed, inner, rest := ReadLine(s[1..]);
      body := [s[0]] + inner;
      assert s == [s[0]] + s[1..];
    }
  }

  lemma ReadBlock(s: string) returns (closed: bool, body: string, rest: string)
    ensures !HasEnd(body)
    ensures if closed then s == body + "*/" + rest else s == body && rest == ""
    decreases |s|
  {
    if s == "" {
      closed, body, rest := false, "", "";
    } else if s[0] == '*' && StartsWith(s[1..], '/') {
      closed, body, rest := true, "", s[2..];
      assert s == "*/" + rest;
    } else {
      var inner;
      closed, inner, rest := ReadBlock(s[1..]);
      body := [s[0]] + inner;
      assert s == [s[0]] + s[1..];
      assert inner != "" ==> s[1] == inner[0];
      forall i | 0 <= i < |body| - 1 ensures !(body[i] == '*' && body[i + 1] == '/') {
        if i > 0 {
          assert body[i] == inner[i - 1] && body[i + 1] == inner[i];
        }
      }
    }
  }

  /** Every text is made of parts. */
  lemma EveryTextIsAScript(s: string) returns (parts: seq<Part>)
    ensures IsScript(parts) && ScriptText(parts) == s
    decreases |s|
  {
    if s == "" {
      parts := [];
    } else {
      var p, rest := FirstPart(s);
      var others := EveryTextIsAScript(rest);
      parts := [p] + others;
      assert parts[1..] == others;
    }
  }

  lemma FirstPart(s: string) returns (p: Part, rest: string)
    requires s != ""
    ensures IsPart(p, rest) && s == TextOf(p) + rest && |rest| < |s|
  {
    hide HasEnd, Doubled, TextOf;
    if s[0] == '\'' || s[0] == '"' {
      p, rest := QuoteFirst(s);
    } else if s[0] == '-' && StartsWith(s[1..], '-') {
      p, rest := LineFirst(s);
    } else if s[0] == '/' && StartsWith(s[1..], '*') {
      p, rest := BlockFirst(s);
    } else {
      p, rest := PlainFirst(s);
    }
  }

  lemma PlainFirst(s: string) returns (p: Part, rest: string)
    requires s != "" && IsPart(Plain(s[0]), s[1..])
    ensures IsPart(p, rest) && s == TextOf(p) + rest && |rest| < |s|
  {
    p, rest := Plain(s[0]), s[1..];
    assert s == [s[0]] + rest;
  }

  lemma LineFirst(s: string) returns (p: Part, rest: string)
    requires |s| >= 2 && s[0] == '-' && s[1] == '-'
    ensures IsPart(p, rest) && s == TextOf(p) + rest && |rest| < |s|
  {
    assert s == "--" + s[2..];
    var closed, body, after := ReadLine(s[2..]);
    p, rest := if closed then LineComment(body) else OpenLine(body), after;
  }

  lemma BlockFirst(s: string) returns (p: Part, rest: string)
    requires |s| >= 2 && s[0] == '/' && s[1] == '*'
    ensures IsPart(p, rest) && s == TextOf(p) + rest && |rest| < |s|
  {
    hide HasEnd;
    assert s == "/*" + s[2..];
    var closed, body, after := ReadBlock(s[2..]);
    p, rest := if closed then BlockComment(body) else OpenBlock(body), after;
  }

  lemma QuoteFirst(s: string) returns (p: Part, rest: string)
    requires s != "" && (s[0] == '\'' || s[0] == '"')
    ensures IsPart(p, rest) && s == TextOf(p) + rest && |rest| < |s|
  {
    hide Doubled;
    assert s == [s[0]] + s[1..];
    var closed, body, after := ReadQuote(s[0], s[1..]);
    p, rest := if closed then Quoted(s[0], body) else OpenQuote(s[0], body), after;
    if closed {
      Assoc([s[0]], Doubled(s[0], body) + [s[0]], rest);
      Assoc([s[0]], Doubled(s[0], body), [s[0]]);
    }
  }

  // ----- how the parts are read -----

  function QuoteMode(q: char): Mode {
    if q == '\'' then Single else Double
  }

  function BodyLexemes(q: char, body: string): Lexemes {
    if body == "" then [] else
    [Lexeme(QuoteMode(q), if body[0] == q then [q, q] else [body[0]], QuoteMode(q))] + BodyLexemes(q, body[1..])
  }

  function CommentLexemes(m: Mode, body: string): Lexemes {
    if body == "" then [] else [Lexeme(m, [body[0]], m)] + CommentLexemes(m, body[1..])
  }

  function PartLexemes(p: Part): Lexemes {
    match p
    case Plain(c) => [Lexeme(Code, [c], Code)]
    case Quoted(q, body) =>
      [Lexeme(Code, [q], QuoteMode(q))] + BodyLexemes(q, body) + [Lexeme(QuoteMode(q), [q], Code)]
    case LineComment(body) => [Lexeme(Code, "--", Line)] + CommentLexemes(Line, body) + [Lexeme(Line, "\n", Code)]
    case BlockComment(body) => [Lexeme(Code, "/*", Block)] + CommentLexemes(Block, body) + [Lexeme(Block, "*/", Code)]
    case OpenQuote(q, body) => [Lexeme(Code, [q], QuoteMode(q))] + BodyLexemes(q, body)
    case OpenLine(body) => [Lexeme(Code, "--", Line)] + CommentLexemes(Line, body)
    case OpenBlock(body) => [Lexeme(Code, "/*", Block)] + CommentLexemes(Block, body)
  }

  /** Before rest, in mode m, xs are read. */
  predicate Reads(m: Mode, xs: Lexemes, rest: string) {
    Lex(true, m, Flat(xs) + rest) == xs + Lex(true, End(m, xs), rest)
  }

  lemma ReadsOne(x: Lexeme, rest: string)
    requires x.text != "" && Next(true, x.start, x.text[0], Peek(x.text + rest, 1)) == x
    ensures Reads(x.start, [x], rest)
  {
    hide Next;
    FlatOne(x);
    var s := x.text + rest;
    assert s[|x.text|..] == rest && s[0] == x.text[0];
    LexStep(true, x.start, s);
    assert End(x.start, [x]) == x.end;
  }

  lemma ReadsBoth(m: Mode, xs: Lexemes, ys: Lexemes, rest: string)
    requires Reads(m, xs, Flat(ys) + rest) && Reads(End(m, xs), ys, rest)
    ensures Reads(m, xs + ys, rest)
  {
    hide Lex, Flat, End;
    FlatConcat(xs, ys);
    EndConcat(m, xs, ys);
    Assoc(Flat(xs), Flat(ys), rest);
    Assoc(xs, ys, Lex(true, End(End(m, xs), ys), rest));
  }

  lemma {:induction false} ReadsBody(q: char, body: string, rest: string)
    requires (q == '\'' || q == '"') && (rest != "" ==> rest[0] == q && !StartsWith(rest[1..], q))
    ensures Flat(BodyLexemes(q, body)) == Doubled(q, body)
    ensures Reads(QuoteMode(q), BodyLexemes(q, body), rest) && End(QuoteMode(q), BodyLexemes(q, body)) == QuoteMode(q)
    decreases |body|
  {
    var m, xs := QuoteMode(q), BodyLexemes(q, body);
    if body == "" {
      assert Flat(xs) + rest == rest && xs + Lex(true, m, rest) == Lex(true, m, rest);
    } else {
      hide Lex, Next;
      var x, ys := xs[0], BodyLexemes(q, body[1..]);
      assert xs == [x] + ys && xs[1..] == ys;
      ReadsBody(q, body[1..], rest);
      BodyStep(q, body[0], Flat(ys) + rest);
      ReadsOne(x, Flat(ys) + rest);
      ReadsBoth(m, [x], ys, rest);
    }
  }

  lemma BodyStep(q: char, c: char, rest: string)
    requires q == '\'' || q == '"'
    ensures var x := Lexeme(QuoteMode(q), if c == q then [q, q] else [c], QuoteMode(q));
      Next(true, x.start, x.text[0], Peek(x.text + rest, 1)) == x
  {
  }

  lemma {:induction false} ReadsComment(m: Mode, body: string, rest: string)
    requires (m == Line && '\n' !in body) || (m == Block && !HasEnd(body) && (rest == "" || rest[0] == '*'))
    ensures Flat(CommentLexemes(m, body)) == body
    ensures Reads(m, CommentLexemes(m, body), rest) && End(m, CommentLexemes(m, body)) == m
    decreases |body|
  {
    var xs := CommentLexemes(m, body);
    if body == "" {
      assert Flat(xs) + rest == rest && xs + Lex(true, m, rest) == Lex(true, m, rest);
    } else {
      hide Lex, Next;
      var x, inner := xs[0], body[1..];
      var ys := CommentLexemes(m, inner);
      assert xs == [x] + ys && xs[1..] == ys && body == [body[0]] + inner;
      assert forall i :: 0 <= i < |inner| ==> inner[i] == body[i + 1];
      ReadsComment(m, inner, rest);
      CommentStep(m, body, rest);
      assert Flat(ys) + rest == inner + rest;
      ReadsOne(x, inner + rest);
      ReadsBoth(m, [x], ys, rest);
    }
  }

  lemma CommentStep(m: Mode, body: string, rest: string)
    requires (m == Line && '\n' !in body) || (m == Block && !HasEnd(body) && (rest == "" || rest[0] == '*'))
    requires body != ""
    ensures var x := Lexeme(m, [body[0]], m);
      Next(true, m, body[0], Peek(x.text + (body[1..] + rest), 1)) == x
  {
    var t := [body[0]] + (body[1..] + rest);
    assert |body| > 1 ==> t[1] == body[1];
    assert |body| == 1 && rest != "" ==> t[1] == rest[0];
  }

  lemma ReadsThree(open: Lexeme, xs: Lexemes, close: Lexeme, rest: string)
    requires open.text != "" && close.text != "" && close.start == open.end == End(open.end, xs)
    requires Next(true, open.start, open.text[0], Peek(open.text + (Flat(xs) + close.text + rest), 1)) == open
    requires Next(true, close.start, close.text[0], Peek(close.text + rest, 1)) == close
    requires Reads(open.end, xs, close.text + rest)
    ensures var ys := [open] + xs + [close];
      Flat(ys) == open.text + Flat(xs) + close.text && Reads(open.start, ys, rest) && End(open.start, ys) == close.end
  {
    hide Lex, Next, Flat, Reads;
    FlatOne(open);
    FlatOne(close);
    FlatConcat(xs, [close]);
    FlatConcat([open], xs + [close]);
    EndConcat(open.end, xs, [close]);
    EndConcat(open.start, [open], xs + [close]);
    ReadsOne(close, rest);
    ReadsBoth(open.end, xs, [close], rest);
    ReadsOne(open, Flat(xs) + close.text + rest);
    ReadsBoth(open.start, [open], xs + [close], rest);
    Assoc([open], xs, [close]);
    Assoc(open.text, Flat(xs), close.text);
  }

  lemma ReadsTwo(open: Lexeme, xs: Lexemes)
    requires open.text != "" && Reads(open.end, xs, "")
    requires Next(true, open.start, open.text[0], Peek(open.text + Flat(xs), 1)) == open
    ensures Flat([open] + xs) == open.text + Flat(xs) && Reads(open.start, [open] + xs, "")
  {
    hide Lex, Next, Flat, Reads;
    FlatOne(open);
    FlatConcat([open], xs);
    assert Flat(xs) + "" == Flat(xs);
    ReadsOne(open, Flat(xs));
    ReadsBoth(open.start, [open], xs, "");
  }

  lemma Opens(x: Lexeme, rest: string)
    requires x in {Lexeme(Code, "'", Single), Lexeme(Code, "\"", Double), Lexeme(Code, "--", Line),
                   Lexeme(Code, "/*", Block), Lexeme(Line, "\n", Code), Lexeme(Block, "*/", Code)}
    ensures Next(true, x.start, x.text[0], Peek(x.text + rest, 1)) == x
  {
  }

  lemma Closes(q: char, rest: string)
    requires (q == '\'' || q == '"') && !StartsWith(rest, q)
    ensures Next(true, QuoteMode(q), q, Peek([q] + rest, 1)) == Lexeme(QuoteMode(q), [q], Code)
  {
  }

  /** A part is read as its lexemes, whatever comes after it. */
  lemma ReadsPart(p: Part, rest: string)
    requires IsPart(p, rest)
    ensures Flat(PartLexemes(p)) == TextOf(p) && Reads(Code, PartLexemes(p), rest)
    ensures rest == "" || End(Code, PartLexemes(p)) == Code
  {
    hide Lex, Flat, Reads, Doubled, BodyLexemes, CommentLexemes;
    match p
    case Plain(c) =>
      FlatOne(Lexeme(Code, [c], Code));
      ReadsOne(Lexeme(Code, [c], Code), rest);
    case Quoted(q, body) =>
      var open := Lexeme(Code, [q], QuoteMode(q));
      Opens(open, Doubled(q, body) + [q] + rest);
      Closes(q, rest);
      assert ([q] + rest)[1..] == rest;
      ReadsBody(q, body, [q] + rest);
      ReadsThree(open, BodyLexemes(q, body), Lexeme(QuoteMode(q), [q], Code), rest);
    case LineComment(body) =>
      Opens(Lexeme(Code, "--", Line), body + "\n" + rest);
      Opens(Lexeme(Line, "\n", Code), rest);
      ReadsComment(Line, body, "\n" + rest);
      ReadsThree(Lexeme(Code, "--", Line), CommentLexemes(Line, body), Lexeme(Line, "\n", Code), rest);
    case BlockComment(body) =>
      Opens(Lexeme(Code, "/*", Block), body + "*/" + rest);
      Opens(Lexeme(Block, "*/", Code), rest);
      ReadsComment(Block, body, "*/" + rest);
      ReadsThree(Lexeme(Code, "/*", Block), CommentLexemes(Block, body), Lexeme(Block, "*/", Code), rest);
    case OpenQuote(q, body) =>
      var open := Lexeme(Code, [q], QuoteMode(q));
      Opens(open, Doubled(q, body));
      ReadsBody(q, body, "");
      ReadsTwo(open, BodyLexemes(q, body));
    case OpenLine(body) =>
      Opens(Lexeme(Code, "--", Line), body);
      ReadsComment(Line, body, "");
      ReadsTwo(Lexeme(Code, "--", Line), CommentLexemes(Line, body));
    case OpenBlock(body) =>
      Opens(Lexeme(Code, "/*", Block), body);
      ReadsComment(Block, body, "");
      ReadsTwo(Lexeme(Code, "/*", Block), CommentLexemes(Block, body));
  }

  function ScriptLexemes(parts: seq<Part>): Lexemes {
    if parts == [] then [] else PartLexemes(parts[0]) + ScriptLexemes(parts[1..])
  }

  lemma {:induction false} ScriptLexes(parts: seq<Part>)
    requires IsScript(parts)
    ensures Lex(true, Code, ScriptText(parts)) == ScriptLexemes(parts)
  {
    hide Lex, Flat, PartLexemes, TextOf, IsPart;
    if parts == [] {
      NothingToLex(true, Code);
    } else {
      var p, rest := parts[0], ScriptText(parts[1..]);
      ScriptLexes(parts[1..]);
      ReadsPart(p, rest);
      NothingToLex(true, End(Code, PartLexemes(p)));
      NothingToLex(true, Code);
    }
  }

  // ----- stripping -----

  /** What is left of a part without comments: a line break, a blank, or nothing at the end. */
  function Left(p: Part): string {
    match p
    case LineComment(_) => "\n"
    case BlockComment(_) => " "
    case OpenBlock(_) => " "
    case OpenLine(_) => ""
    case _ => TextOf(p)
  }

  function Stripped(parts: seq<Part>): string {
    if parts == [] then "" else Left(parts[0]) + Stripped(parts[1..])
  }

  lemma {:induction false} CommentsGo(m: Mode, body: string)
    requires m == Line || m == Block
    ensures Clean(CommentLexemes(m, body)) == []
  {
    if body != "" {
      CommentsGo(m, body[1..]);
      assert CommentLexemes(m, body)[1..] == CommentLexemes(m, body[1..]);
    }
  }

  lemma CleanOne(x: Lexeme)
    ensures Clean([x]) == Kept(x)
  {
    assert Clean([x]) == Kept(x) + Clean([]);
  }

  lemma CommentGoes(open: Lexeme, body: string, close: Lexemes)
    requires open.end == Line || open.end == Block
    ensures Clean([open] + CommentLexemes(open.end, body) + close) == Kept(open) + Clean(close)
    ensures Clean([open] + CommentLexemes(open.end, body)) == Kept(open)
  {
    hide Kept, CommentLexemes;
    var xs := CommentLexemes(open.end, body);
    CommentsGo(open.end, body);
    CleanConcat([open], xs);
    CleanConcat([open] + xs, close);
    CleanOne(open);
  }

  lemma {:induction false} BodyStays(q: char, body: string)
    ensures AllPlain(BodyLexemes(q, body)) && NoSemicolon(BodyLexemes(q, body))
  {
    if body != "" {
      BodyStays(q, body[1..]);
    }
  }

  lemma QuoteStays(p: Part, rest: string)
    requires IsPart(p, rest) && (p.Quoted? || p.OpenQuote?)
    ensures Clean(PartLexemes(p)) == PartLexemes(p) && Flat(PartLexemes(p)) == TextOf(p) && NoSemicolon(PartLexemes(p))
  {
    hide Lex, Flat, Doubled, Reads;
    ReadsPart(p, rest);
    BodyStays(p.quote, p.body);
    PlainIsClean(PartLexemes(p));
  }

  /** The lexemes of a part without comments, and the only one that can be a semicolon of the script. */
  lemma CleanPart(p: Part, rest: string)
    requires IsPart(p, rest)
    ensures var xs := Clean(PartLexemes(p));
      Flat(xs) == Left(p) && (if p == Plain(';') then xs == [Lexeme(Code, ";", Code)] else NoSemicolon(xs))
  {
    hide Lex, Flat, Doubled, Clean, CommentLexemes, BodyLexemes;
    match p
    case LineComment(body) =>
      CommentGoes(Lexeme(Code, "--", Line), body, [Lexeme(Line, "\n", Code)]);
      CleanOne(Lexeme(Line, "\n", Code));
      FlatOne(Lexeme(Code, "\n", Code));
      assert [] + [Lexeme(Code, "\n", Code)] == [Lexeme(Code, "\n", Code)];
    case BlockComment(body) =>
      CleanOne(Lexeme(Block, "*/", Code));
      CommentGoes(Lexeme(Code, "/*", Block), body, [Lexeme(Block, "*/", Code)]);
      FlatOne(Lexeme(Code, " ", Code));
      assert [Lexeme(Code, " ", Code)] + [] == [Lexeme(Code, " ", Code)];
    case OpenLine(body) =>
      CommentGoes(Lexeme(Code, "--", Line), body, []);
      NothingIsLeft();
    case OpenBlock(body) =>
      CommentGoes(Lexeme(Code, "/*", Block), body, []);
      FlatOne(Lexeme(Code, " ", Code));
    case Plain(c) =>
      PlainIsClean(PartLexemes(p));
      FlatOne(Lexeme(Code, [c], Code));
    case Quoted(q, body) => QuoteStays(p, rest);
    case OpenQuote(q, body) => QuoteStays(p, rest);
  }

  lemma {:induction false} CleanScript(parts: seq<Part>)
    requires IsScript(parts)
    ensures Flat(Clean(ScriptLexemes(parts))) == Stripped(parts)
  {
    hide Lex, Flat, Clean, PartLexemes, Left, TextOf, IsPart;
    if parts == [] {
      NothingIsLeft();
    } else {
      var xs, ys := PartLexemes(parts[0]), ScriptLexemes(parts[1..]);
      CleanScript(parts[1..]);
      CleanPart(parts[0], ScriptText(parts[1..]));
      CleanConcat(xs, ys);
      FlatConcat(Clean(xs), Clean(ys));
    }
  }

  lemma NothingIsLeft()
    ensures Clean([]) == [] && Flat([]) == "" && Lex(true, Code, "") == []
  {
  }

  /** Stripping a script leaves everything but its comments: for a line comment the line break, for a block comment a
      blank, and for a line comment without a line break nothing. */
  lemma StripIsStripped(parts: seq<Part>)
    requires IsScript(parts)
    ensures Strip(ScriptText(parts)) == Stripped(parts)
  {
    hide Lex, Flat, Clean, ScriptLexemes;
    ScriptLexes(parts);
    CleanScript(parts);
  }

  // ----- splitting -----

  /** The texts between the semicolons of a script: those that are plain, not in a literal nor in a comment. */
  function Pieces(parts: seq<Part>): (ts: seq<string>)
    ensures |ts| >= 1
  {
    if parts == [] then [""] else
    var ts := Pieces(parts[1..]);
    if parts[0] == Plain(';') then [""] + ts else Prepend(Left(parts[0]), ts)
  }

  lemma {:induction false} CutJoins(xs: Lexemes, ys: Lexemes)
    requires NoSemicolon(xs)
    ensures Texts(Cut(xs + ys)) == Prepend(Flat(xs), Texts(Cut(ys)))
  {
    if xs == [] {
      assert xs + ys == ys;
      PrependNothing(Texts(Cut(ys)));
    } else {
      var x, rest := xs[0], xs[1..];
      assert (xs + ys)[1..] == rest + ys;
      CutJoins(rest, ys);
      CutCons(x, rest + ys);
      TextsCons(x, Cut(rest + ys));
      PrependTwice(x.text, Flat(rest), Texts(Cut(ys)));
    }
  }

  lemma PrependNothing(ts: seq<string>)
    requires |ts| >= 1
    ensures Prepend("", ts) == ts
  {
    assert "" + ts[0] == ts[0];
  }

  lemma TextsCons(x: Lexeme, ps: seq<Lexemes>)
    requires |ps| >= 1
    ensures Texts([[x] + ps[0]] + ps[1..]) == Prepend(x.text, Texts(ps))
  {
    assert ([x] + ps[0])[1..] == ps[0];
  }

  lemma CutAtSemicolon(ys: Lexemes)
    ensures Texts(Cut([Lexeme(Code, ";", Code)] + ys)) == [""] + Texts(Cut(ys))
  {
    var x := Lexeme(Code, ";", Code);
    CutCons(x, ys);
    assert Texts([[]] + Cut(ys)) == [""] + Texts(Cut(ys));
  }

  lemma {:induction false} CutScript(parts: seq<Part>)
    requires IsScript(parts)
    ensures Texts(Cut(Clean(ScriptLexemes(parts)))) == Pieces(parts)
  {
    hide Lex, Flat, Clean, Cut, Texts, PartLexemes, Left, TextOf, IsPart, Prepend;
    if parts == [] {
      NothingIsLeft();
      NothingToCut();
    } else {
      var xs, ys := PartLexemes(parts[0]), ScriptLexemes(parts[1..]);
      CutScript(parts[1..]);
      CleanPart(parts[0], ScriptText(parts[1..]));
      CleanConcat(xs, ys);
      if parts[0] == Plain(';') {
        CutAtSemicolon(Clean(ys));
      } else {
        CutJoins(Clean(xs), Clean(ys));
      }
    }
  }

  lemma NothingToCut()
    ensures Texts(Cut([])) == [""]
  {
  }

  /** A text gives its trimmed self, or nothing if it is blank; texts are kept one by one and in order. */
  lemma KeepIsTrimmed(ts: seq<string>, t: string)
    ensures Keep([]) == []
    ensures Keep(ts + [t]) == Keep(ts) + (if Visible(t) == "" then [] else [Trim(t)])
  {
    hide Trim, Visible;
    KeepConcat(ts, [t]);
    assert [t][1..] == [];
    BlankIsTrimmedAway(t);
  }

  /** The statements of a script are the trimmed texts between its semicolons that are not blank. */
  lemma SplitIsPieces(parts: seq<Part>)
    requires IsScript(parts)
    ensures Split(ScriptText(parts)) == Keep(Pieces(parts))
  {
    hide Lex, Flat, Clean, Cut, Texts, Keep, Split, ScriptLexemes, ArePieces;
    SplitByLexemes(ScriptText(parts));
    ScriptLexes(parts);
    CutScript(parts);
  }

  // ----- literals -----

  /** The closed literals of a script, in order. */
  function ClosedLiterals(parts: seq<Part>): seq<string> {
    if parts == [] then [] else
    (if parts[0].Quoted? then [TextOf(parts[0])] else []) + ClosedLiterals(parts[1..])
  }

  lemma {:induction false} BodyOpens(q: char, body: string, open: string, ys: Lexemes)
    ensures Literals(open, BodyLexemes(q, body) + ys) == Literals(open + Flat(BodyLexemes(q, body)), ys)
    decreases |body|
  {
    var xs := BodyLexemes(q, body);
    if body == "" {
      assert xs + ys == ys && open + Flat(xs) == open;
    } else {
      var inner := BodyLexemes(q, body[1..]);
      assert (xs + ys)[1..] == inner + ys && xs[1..] == inner;
      BodyOpens(q, body[1..], open + xs[0].text, ys);
      Assoc(open, xs[0].text, Flat(inner));
    }
  }

  lemma {:induction false} CommentOpens(m: Mode, body: string, ys: Lexemes)
    requires m == Line || m == Block
    ensures Literals("", CommentLexemes(m, body) + ys) == Literals("", ys)
  {
    var xs := CommentLexemes(m, body);
    if body == "" {
      assert xs + ys == ys;
    } else {
      assert (xs + ys)[1..] == CommentLexemes(m, body[1..]) + ys;
      CommentOpens(m, body[1..], ys);
    }
  }

  /** A part that ends adds its literal, if it is one. */
  lemma PartLiteral(p: Part, rest: string, ys: Lexemes)
    requires IsPart(p, rest) && !p.OpenQuote?
    ensures Literals("", PartLexemes(p) + ys) == (if p.Quoted? then [TextOf(p)] else []) + Literals("", ys)
  {
    hide Lex, Flat, Doubled, BodyLexemes, CommentLexemes;
    var xs := PartLexemes(p);
    match p
    case Plain(c) =>
      assert (xs + ys)[1..] == ys;
    case Quoted(q, body) =>
      var close := Lexeme(QuoteMode(q), [q], Code);
      assert (xs + ys)[1..] == BodyLexemes(q, body) + ([close] + ys) && ([close] + ys)[1..] == ys;
      assert "" + [q] == [q];
      BodyOpens(q, body, [q], [close] + ys);
      QuoteStays(p, rest);
      ReadsBody(q, body, "");
    case LineComment(body) =>
      var close := Lexeme(Line, "\n", Code);
      assert (xs + ys)[1..] == CommentLexemes(Line, body) + ([close] + ys) && ([close] + ys)[1..] == ys;
      CommentOpens(Line, body, [close] + ys);
    case BlockComment(body) =>
      var close := Lexeme(Block, "*/", Code);
      assert (xs + ys)[1..] == CommentLexemes(Block, body) + ([close] + ys) && ([close] + ys)[1..] == ys;
      CommentOpens(Block, body, [close] + ys);
    case OpenLine(body) =>
      assert (xs + ys)[1..] == CommentLexemes(Line, body) + ys;
      CommentOpens(Line, body, ys);
    case OpenBlock(body) =>
      assert (xs + ys)[1..] == CommentLexemes(Block, body) + ys;
      CommentOpens(Block, body, ys);
  }

  lemma OpenLiteral(p: Part)
    requires p.OpenQuote? && IsPart(p, "")
    ensures Literals("", PartLexemes(p)) == []
  {
    hide Lex, Flat;
    var xs := BodyLexemes(p.quote, p.body);
    assert PartLexemes(p)[1..] == xs && xs + [] == xs;
    assert "" + [p.quote] == [p.quote];
    BodyOpens(p.quote, p.body, [p.quote], []);
  }

  lemma {:induction false} LiteralsOfScript(parts: seq<Part>)
    requires IsScript(parts)
    ensures Literals("", ScriptLexemes(parts)) == ClosedLiterals(parts)
  {
    hide Lex, Flat, PartLexemes, TextOf, IsPart;
    if parts != [] {
      var p, rest := parts[0], ScriptText(parts[1..]);
      LiteralsOfScript(parts[1..]);
      if p.OpenQuote? {
        NothingAfter(p, parts[1..]);
        OpenLiteral(p);
      } else {
        PartLiteral(p, rest, ScriptLexemes(parts[1..]));
      }
    }
  }

  lemma NothingAfter(p: Part, others: seq<Part>)
    requires p.OpenQuote? && IsPart(p, ScriptText(others))
    ensures others == [] && ScriptLexemes([p] + others) == PartLexemes(p)
  {
    NoEmptyScript(others);
    assert [p] + others == [p];
    assert PartLexemes(p) + [] == PartLexemes(p);
  }

  lemma NoEmptyScript(parts: seq<Part>)
    ensures ScriptText(parts) == "" ==> parts == []
  {
  }

  /** The closed literals kept by stripping and splitting are the quoted parts, text for text. */
  lemma LiteralsAreQuoted(parts: seq<Part>)
    requires IsScript(parts)
    ensures LiteralsOf(ScriptText(parts)) == ClosedLiterals(parts)
  {
    hide Lex, Literals, ScriptLexemes;
    ScriptLexes(parts);
    LiteralsOfScript(parts);
  }

  // ----- where a script may be cut -----

  predicate IsOpen(p: Part) {
    p.OpenQuote? || p.OpenLine? || p.OpenBlock?
  }

  lemma PartEnds(p: Part, rest: string)
    requires IsPart(p, rest)
    ensures End(Code, PartLexemes(p)) == Code <==> !IsOpen(p)
  {
    hide Lex, Flat, Doubled;
    match p
    case OpenQuote(q, body) =>
      assert PartLexemes(p)[1..] == BodyLexemes(q, body);
      ReadsBody(q, body, "");
    case OpenLine(body) =>
      assert PartLexemes(p)[1..] == CommentLexemes(Line, body);
      ReadsComment(Line, body, "");
    case OpenBlock(body) =>
      assert PartLexemes(p)[1..] == CommentLexemes(Block, body);
      ReadsComment(Block, body, "");
    case _ =>
      EndLast(PartLexemes(p));
  }

  lemma {:induction false} ScriptEnds(parts: seq<Part>)
    requires IsScript(parts)
    ensures End(Code, ScriptLexemes(parts)) == Code <==> parts == [] || !IsOpen(parts[|parts| - 1])
  {
    hide Lex, Flat, End, PartLexemes, TextOf, IsPart;
    if parts == [] {
      EndConcat(Code, [], []);
      NothingEnds();
    } else {
      var p, others := parts[0], parts[1..];
      ScriptEnds(others);
      PartEnds(p, ScriptText(others));
      EndConcat(Code, PartLexemes(p), ScriptLexemes(others));
      if IsOpen(p) {
        OpenIsLast(p, others);
        assert PartLexemes(p) + [] == PartLexemes(p);
      }
    }
  }

  lemma NothingEnds()
    ensures End(Code, []) == Code
  {
  }

  lemma OpenIsLast(p: Part, others: seq<Part>)
    requires IsOpen(p) && IsPart(p, ScriptText(others))
    ensures others == []
  {
    NoEmptyScript(others);
  }

  /** A script ends in code, so that a second one may follow, exactly when its last part is not left open. */
  lemma EndsInCodeExactlyWhenClosed(parts: seq<Part>)
    requires IsScript(parts)
    ensures EndsInCode(ScriptText(parts)) <==> parts == [] || !IsOpen(parts[|parts| - 1])
  {
    hide Lex, End, ScriptLexemes, ScriptText;
    ScriptLexes(parts);
    ScriptEnds(parts);
  }

  // ----- pragmas -----

  predicate IsLetter(c: char, small: char, capital: char) {
    c == small || c == capital
  }

  /** What `executescript` skips: statements that begin with the word pragma, in any mix of cases, and a blank. */
  lemma PragmaByCharacters(s: string)
    ensures IsPragma(s) <==>
      && |s| >= 7
      && IsLetter(s[0], 'p', 'P') && IsLetter(s[1], 'r', 'R') && IsLetter(s[2], 'a', 'A') && IsLetter(s[3], 'g', 'G')
      && IsLetter(s[4], 'm', 'M') && IsLetter(s[5], 'a', 'A') && s[6] == ' '
  {
    if |s| >= 7 {
      var t := Lower(s);
      assert t[..7] == [t[0], t[1], t[2], t[3], t[4], t[5], t[6]];
      assert IsPragma(s) <==> t[..7] == "pragma ";
    }
  }

  /** What is sent for a list of statements are those that are no pragmas, one by one and in order. */
  lemma BatchLeavesPragmasOut(stmts: seq<string>, last: string)
    ensures Batch([]) == []
    ensures Batch(stmts + [last]) == Batch(stmts) + (if IsPragma(last) then [] else [last])
  {
    hide IsPragma, Batch;
    BatchConcat(stmts, [last]);
    BatchOfOne(last);
  }

  lemma BatchOfOne(s: string)
    ensures Batch([]) == [] && Batch([s]) == if IsPragma(s) then [] else [s]
  {
    hide IsPragma;
    assert [s][1..] == [];
  }
}
