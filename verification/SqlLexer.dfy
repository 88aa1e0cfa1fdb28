/** SQL text cut into lexemes: code, quoted literals with doubled quotes, and the two kinds of comment. */
module SqlLexer {
  import opened Text
  import opened Wrappers

  datatype Mode = Code | Single | Double | Line | Block

  /** A piece of text with the mode before and after it. */
  datatype Lexeme = Lexeme(start: Mode, text: string, end: Mode)

  type Lexemes = seq<Lexeme>

  /** One step, with one character of lookahead; without `comments`, comment openers are ordinary code. */
  function Next(comments: bool, m: Mode, c: char, peek: Option<char>): (x: Lexeme)
    ensures x.start == m && 1 <= |x.text| <= 2 && x.text[0] == c
    ensures |x.text| == 2 ==> peek == Some(x.text[1])
  {
    match m
    case Code =>
      if c == '\'' then Lexeme(Code, [c], Single)
      else if c == '"' then Lexeme(Code, [c], Double)
      else if comments && c == '-' && peek == Some('-') then Lexeme(Code, "--", Line)
      else if comments && c == '/' && peek == Some('*') then Lexeme(Code, "/*", Block)
      else Lexeme(Code, [c], Code)
    case Single =>
      if c != '\'' then Lexeme(Single, [c], Single)
      else if peek == Some('\'') then Lexeme(Single, "''", Single)
      else Lexeme(Single, [c], Code)
    case Double =>
      if c != '"' then Lexeme(Double, [c], Double)
      else if peek == Some('"') then Lexeme(Double, "\"\"", Double)
      else Lexeme(Double, [c], Code)
    case Line =>
      Lexeme(Line, [c], if c == '\n' then Code else Line)
    case Block =>
      if c == '*' && peek == Some('/') then Lexeme(Block, "*/", Code)
      else Lexeme(Block, [c], Block)
  }

  function Peek(s: string, i: nat): Option<char> {
    if i < |s| then Some(s[i]) else None
  }

  function Lex(comments: bool, m: Mode, s: string): Lexemes
    decreases |s|
  {
    if s == "" then [] else
    var x := Next(comments, m, s[0], Peek(s, 1));
    [x] + Lex(comments, x.end, s[|x.text|..])
  }

  function Flat(xs: Lexemes): string {
    if xs == [] then "" else xs[0].text + Flat(xs[1..])
  }

  function End(m: Mode, xs: Lexemes): Mode
    decreases |xs|
  {
    if xs == [] then m else End(xs[0].end, xs[1..])
  }

  /** xs is what its own text lexes to. */
  predicate Lexed(comments: bool, m: Mode, xs: Lexemes) {
    Lex(comments, m, Flat(xs)) == xs
  }

  // ----- concatenation -----

  lemma {:induction false} FlatConcat(xs: Lexemes, ys: Lexemes)
    ensures Flat(xs + ys) == Flat(xs) + Flat(ys)
  {
    if xs == [] {
      assert xs + ys == ys;
    } else {
      FlatConcat(xs[1..], ys);
      assert (xs + ys)[1..] == xs[1..] + ys;
      Assoc(xs[0].text, Flat(xs[1..]), Flat(ys));
    }
  }

  lemma {:induction false} EndConcat(m: Mode, xs: Lexemes, ys: Lexemes)
    ensures End(m, xs + ys) == End(End(m, xs), ys)
    decreases |xs|
  {
    if xs == [] {
      assert xs + ys == ys;
    } else {
      EndConcat(xs[0].end, xs[1..], ys);
      assert (xs + ys)[1..] == xs[1..] + ys;
    }
  }

  /** A step reads the front of the text. */
  lemma NextReads(comments: bool, m: Mode, s: string)
    requires s != ""
    ensures var x := Next(comments, m, s[0], Peek(s, 1));
      |x.text| <= |s| && x.text == s[..|x.text|]
  {
    hide Next;
  }

  lemma LexStep(comments: bool, m: Mode, s: string)
    requires s != ""
    ensures var x := Next(comments, m, s[0], Peek(s, 1));
      |x.text| <= |s| && Lex(comments, m, s) == [x] + Lex(comments, x.end, s[|x.text|..])
  {
    hide Next;
  }

  lemma {:induction false} LexKeepsText(comments: bool, m: Mode, s: string)
    ensures Flat(Lex(comments, m, s)) == s
    decreases |s|
  {
    hide Next, Peek, Lex, Flat;
    if s == "" {
      NothingToLex(comments, m);
    } else {
      var x := Next(comments, m, s[0], Peek(s, 1));
      NextReads(comments, m, s);
      LexStep(comments, m, s);
      var rest := s[|x.text|..];
      LexKeepsText(comments, x.end, rest);
      FlatConcat([x], Lex(comments, x.end, rest));
      FlatOne(x);
    }
  }

  lemma NothingToLex(comments: bool, m: Mode)
    ensures Lex(comments, m, "") == [] && Flat([]) == ""
  {
  }

  /** Characters that pair with no character before them. */
  predicate Neutral(t: string) {
    t != "" ==> t[0] !in ['\'', '"', '-', '*', '/']
  }

  lemma NextAppend(comments: bool, m: Mode, s: string, t: string)
    requires s != "" && Neutral(t)
    ensures var x := Next(comments, m, s[0], Peek(s, 1));
      && |x.text| <= |s|
      && x == Next(comments, m, (s + t)[0], Peek(s + t, 1))
      && (s + t)[|x.text|..] == s[|x.text|..] + t
  {
    var x := Next(comments, m, s[0], Peek(s, 1));
    if |s| == 1 && t != "" {
      NeutralPeek(comments, m, s[0], Some(t[0]));
    }
    hide Next;
    assert |x.text| <= |s|;
    assert (s + t)[0] == s[0] && Peek(s + t, 1) == if |s| > 1 then Peek(s, 1) else Peek(t, 0);
  }

  lemma NeutralPeek(comments: bool, m: Mode, c: char, peek: Option<char>)
    requires peek.Some? ==> Neutral([peek.value])
    ensures Next(comments, m, c, peek) == Next(comments, m, c, None)
  {
  }

  /** Lexing goes on past a neutral boundary as if it had stopped there. */
  lemma {:induction false} LexAppend(comments: bool, m: Mode, s: string, t: string)
    requires Neutral(t)
    ensures Lex(comments, m, s + t) == Lex(comments, m, s) + Lex(comments, End(m, Lex(comments, m, s)), t)
    decreases |s|
  {
    if s == "" {
      assert s + t == t;
    } else {
      hide Next, Neutral;
      var x := Next(comments, m, s[0], Peek(s, 1));
      NextAppend(comments, m, s, t);
      var rest := s[|x.text|..];
      LexAppend(comments, x.end, rest, t);
      var ys := Lex(comments, x.end, rest);
      assert ([x] + ys)[1..] == ys;
      Assoc([x], ys, Lex(comments, End(x.end, ys), t));
    }
  }

  // ----- parts of a lexed text are lexed -----

  lemma LexedTail(comments: bool, m: Mode, xs: Lexemes)
    requires Lexed(comments, m, xs) && xs != []
    ensures Flat(xs) != "" && xs[0] == Next(comments, m, Flat(xs)[0], Peek(Flat(xs), 1))
    ensures Lexed(comments, xs[0].end, xs[1..])
  {
    var s := Flat(xs);
    var x := Next(comments, m, s[0], Peek(s, 1));
    assert xs == [x] + Lex(comments, x.end, s[|x.text|..]);
    assert s[|x.text|..] == Flat(xs[1..]);
  }

  lemma {:induction false} LexedPrefix(comments: bool, m: Mode, xs: Lexemes, k: nat)
    requires Lexed(comments, m, xs) && k <= |xs|
    ensures Lexed(comments, m, xs[..k])
    decreases |xs|
  {
    if k > 0 {
      var ys := xs[..k];
      LexedTail(comments, m, xs);
      LexedPrefix(comments, xs[0].end, xs[1..], k - 1);
      assert ys[1..] == xs[1..][..k - 1];
      PrefixPeeks(comments, m, xs, k);
      assert Flat(ys)[|xs[0].text|..] == Flat(ys[1..]);
    }
  }

  /** Cutting the text off after a lexeme does not change how it was read. */
  lemma PrefixPeeks(comments: bool, m: Mode, xs: Lexemes, k: nat)
    requires Lexed(comments, m, xs) && 0 < k <= |xs|
    ensures Flat(xs[..k]) != "" && xs[0] == Next(comments, m, Flat(xs[..k])[0], Peek(Flat(xs[..k]), 1))
  {
    LexedTail(comments, m, xs);
    var s, t := Flat(xs), Flat(xs[..k]);
    FlatConcat(xs[..k], xs[k..]);
    assert xs == xs[..k] + xs[k..];
    assert t == xs[0].text + Flat(xs[..k][1..]);
    assert Peek(t, 1) == Peek(s, 1) || (Peek(t, 1) == None && |xs[0].text| == 1);
  }

  lemma {:induction false} LexedSuffix(comments: bool, m: Mode, xs: Lexemes, k: nat)
    requires Lexed(comments, m, xs) && k <= |xs|
    ensures Lexed(comments, End(m, xs[..k]), xs[k..])
    decreases |xs|
  {
    hide Next, Flat;
    if k > 0 {
      LexedTail(comments, m, xs);
      LexedSuffix(comments, xs[0].end, xs[1..], k - 1);
      assert xs[..k][1..] == xs[1..][..k - 1];
      assert xs[1..][k - 1..] == xs[k..];
    }
  }

  // ----- comments taken out -----

  predicate IsPlain(x: Lexeme) {
    x.start !in {Line, Block} && x.end !in {Line, Block}
  }

  predicate AllPlain(xs: Lexemes) {
    forall x :: x in xs ==> IsPlain(x)
  }

  /** What `_strip_sql_comments` writes for a lexeme: a line comment leaves its newline, a block comment one space. */
  function Kept(x: Lexeme): Lexemes {
    if IsPlain(x) then [x]
    else if x.start == Line && x.end == Code then [Lexeme(Code, "\n", Code)]
    else if x.start == Code && x.end == Block then [Lexeme(Code, " ", Code)]
    else []
  }

  function Clean(xs: Lexemes): Lexemes {
    if xs == [] then [] else Kept(xs[0]) + Clean(xs[1..])
  }

  function CleanText(m: Mode, s: string): string {
    Flat(Clean(Lex(true, m, s)))
  }

  function Strip(s: string): string {
    CleanText(Code, s)
  }

  lemma {:induction false} CleanConcat(xs: Lexemes, ys: Lexemes)
    ensures Clean(xs + ys) == Clean(xs) + Clean(ys)
  {
    if xs == [] {
      assert xs + ys == ys;
    } else {
      hide Kept;
      CleanConcat(xs[1..], ys);
      assert (xs + ys)[1..] == xs[1..] + ys;
      Assoc(Kept(xs[0]), Clean(xs[1..]), Clean(ys));
    }
  }

  lemma {:induction false} CleanIsPlain(xs: Lexemes)
    ensures AllPlain(Clean(xs))
  {
    if xs != [] {
      CleanIsPlain(xs[1..]);
    }
  }

  lemma {:induction false} PlainIsClean(xs: Lexemes)
    requires AllPlain(xs)
    ensures Clean(xs) == xs
  {
    if xs != [] {
      PlainIsClean(xs[1..]);
    }
  }

  /** The text a lexeme leaves. */
  function Written(x: Lexeme): string {
    if IsPlain(x) then x.text
    else if x.start == Line && x.end == Code then "\n"
    else if x.start == Code && x.end == Block then " "
    else ""
  }

  lemma CleanTextStep(m: Mode, s: string)
    requires s != ""
    ensures var x := Next(true, m, s[0], Peek(s, 1));
      CleanText(m, s) == Written(x) + CleanText(x.end, s[|x.text|..])
  {
    var x := Next(true, m, s[0], Peek(s, 1));
    var rest := Lex(true, x.end, s[|x.text|..]);
    CleanCons(x, rest);
    assert Lex(true, m, s) == [x] + rest;
  }

  lemma CleanCons(x: Lexeme, rest: Lexemes)
    ensures Clean([x] + rest) == Kept(x) + Clean(rest)
    ensures Flat(Clean([x] + rest)) == Written(x) + Flat(Clean(rest))
  {
    assert ([x] + rest)[1..] == rest;
    FlatConcat(Kept(x), Clean(rest));
    if Kept(x) != [] {
      FlatOne(Kept(x)[0]);
    }
  }

  lemma FlatOne(x: Lexeme)
    ensures Flat([x]) == x.text
  {
    assert x.text + "" == x.text;
  }

  /** The mode that cleaned text is in. */
  function PlainMode(m: Mode): Mode {
    if m in {Line, Block} then Code else m
  }

  /** Cleaned text starts with the next character, or with whitespace left by a comment. */
  lemma {:induction false} HeadOfCleanText(m: Mode, s: string)
    requires m != Block
    ensures var t := CleanText(m, s);
      t == "" || t[0] == ' ' || t[0] == '\n' || (s != "" && m != Line && t[0] == s[0])
    decreases |s|
  {
    if s != "" {
      var x := Next(true, m, s[0], Peek(s, 1));
      CleanTextStep(m, s);
      if Kept(x) == [] {
        HeadOfCleanText(x.end, s[|x.text|..]);
      }
    }
  }

  /** Removing comments makes no new lexeme: the cleaned text lexes to the cleaned lexemes. */
  lemma {:induction false} CleanTextLexes(comments: bool, m: Mode, s: string)
    ensures Lex(comments, PlainMode(m), CleanText(m, s)) == Clean(Lex(true, m, s))
    decreases |s|
  {
    if s != "" {
      hide Next, Kept, Clean, Flat;
      var x := Next(true, m, s[0], Peek(s, 1));
      var t := CleanText(x.end, s[|x.text|..]);
      var rest := Lex(true, x.end, s[|x.text|..]);
      assert Lex(true, m, s) == [x] + rest;
      CleanTextLexes(comments, x.end, s[|x.text|..]);
      CleanTextStep(m, s);
      CleanCons(x, rest);
      KeptIs(true, m, s[0], Peek(s, 1));
      KeptReadsTheSame(comments, m, s);
      if Kept(x) == [] {
        assert "" + t == t && [] + Clean(rest) == Clean(rest);
      } else {
        var y := Kept(x)[0];
        var u := y.text + t;
        assert u[|y.text|..] == t && u[0] == y.text[0];
      }
    }
  }

  lemma KeptIs(comments: bool, m: Mode, c: char, peek: Option<char>)
    ensures var x := Next(comments, m, c, peek);
      && (Kept(x) == [] ==> Written(x) == "" && PlainMode(x.end) == PlainMode(m))
      && (Kept(x) != [] ==> var y := Kept(x)[0];
          Kept(x) == [y] && y.text == Written(x) && y.text != "" && y.end == PlainMode(x.end))
  {
  }

  lemma KeptReadsTheSame(comments: bool, m: Mode, s: string)
    requires s != ""
    ensures var x := Next(true, m, s[0], Peek(s, 1));
      Kept(x) != [] ==>
        var y := Kept(x)[0];
        var t := y.text + CleanText(x.end, s[|x.text|..]);
        Next(comments, PlainMode(m), t[0], Peek(t, 1)) == y
  {
    hide CleanText;
    var x := Next(true, m, s[0], Peek(s, 1));
    if Kept(x) != [] && |x.text| == 1 && x.end != Block {
      HeadOfCleanText(x.end, s[1..]);
    }
    if Kept(x) != [] {
      var y := Kept(x)[0];
      var rest := CleanText(x.end, s[|x.text|..]);
      assert Peek(y.text + rest, 1) == if |y.text| > 1 then Some(y.text[1]) else Peek(rest, 0);
    }
  }

  /** Comments can be taken out only once. */
  lemma StripTwice(s: string)
    ensures Strip(Strip(s)) == Strip(s)
  {
    CleanTextLexes(true, Code, s);
    CleanIsPlain(Lex(true, Code, s));
    PlainIsClean(Clean(Lex(true, Code, s)));
  }

  // ----- quoted literals -----

  predicate IsQuote(m: Mode) {
    m == Single || m == Double
  }

  /** The closed literals in order, quotes included; open is the literal being read. */
  function Literals(open: string, xs: Lexemes): seq<string>
    decreases |xs|
  {
    if xs == [] then [] else
    var x := xs[0];
    if !IsPlain(x) then Literals(open, xs[1..])
    else if IsQuote(x.end) then Literals(open + x.text, xs[1..])
    else if IsQuote(x.start) then [open + x.text] + Literals("", xs[1..])
    else Literals(open, xs[1..])
  }

  function LiteralsOf(s: string): seq<string> {
    Literals("", Lex(true, Code, s))
  }

  lemma {:induction false} CleanKeepsLiterals(open: string, xs: Lexemes)
    ensures Literals(open, Clean(xs)) == Literals(open, xs)
    decreases |xs|
  {
    if xs != [] {
      var x := xs[0];
      var rest := Clean(xs[1..]);
      if Kept(x) == [] {
        assert Clean(xs) == rest;
      } else {
        assert Clean(xs)[0] == Kept(x)[0] && Clean(xs)[1..] == rest;
      }
      CleanKeepsLiterals(open, xs[1..]);
      CleanKeepsLiterals(open + x.text, xs[1..]);
      CleanKeepsLiterals("", xs[1..]);
    }
  }

  /** The closed literals are the same before and after. */
  lemma StripKeepsLiterals(s: string)
    ensures LiteralsOf(Strip(s)) == LiteralsOf(s)
  {
    CleanTextLexes(true, Code, s);
    CleanKeepsLiterals("", Lex(true, Code, s));
  }

  // ----- the loop of the source -----

  function ModeOf(inSingle: bool, inDouble: bool): Mode {
    if inSingle then Single else if inDouble then Double else Code
  }

  function From(s: string, i: nat): string {
    if i <= |s| then s[i..] else ""
  }

  /** One turn of the loop: what is written, and what is left to read. */
  lemma Turn(sql: string, i: nat, m: Mode, out: string)
    requires i < |sql|
    ensures var x := Next(true, m, sql[i], Peek(sql, i + 1));
      && i + |x.text| <= |sql|
      && out + CleanText(m, From(sql, i)) == out + Written(x) + CleanText(x.end, From(sql, i + |x.text|))
  {
    hide Next, CleanText, Written;
    var rest := sql[i..];
    var x := Next(true, m, rest[0], Peek(rest, 1));
    CleanTextStep(m, rest);
    assert rest[|x.text|..] == sql[i + |x.text|..];
    var after := CleanText(x.end, From(sql, i + |x.text|));
    Assoc(out, Written(x), after);
  }

  /** A turn inside a comment writes nothing. */
  lemma SilentTurn(sql: string, i: nat, m: Mode)
    requires i < |sql|
    ensures var x := Next(true, m, sql[i], Peek(sql, i + 1));
      Written(x) == "" ==>
        i + |x.text| <= |sql| && CleanText(m, From(sql, i)) == CleanText(x.end, From(sql, i + |x.text|))
  {
    hide Next, CleanText, Written;
    Turn(sql, i, m, "");
    var x := Next(true, m, sql[i], Peek(sql, i + 1));
    assert "" + "" + CleanText(x.end, From(sql, i + |x.text|)) == CleanText(x.end, From(sql, i + |x.text|));
    assert "" + CleanText(m, From(sql, i)) == CleanText(m, From(sql, i));
  }

  /** `_strip_sql_comments`. */
  method StripSqlComments(sql: string) returns (out: string)
    ensures out == Strip(sql)
  {
    hide CleanText, Strip, Literals, From;
    out := "";
    var i, n := 0, |sql|;
    var inSingle, inDouble := false, false;
    assert out + CleanText(Code, From(sql, 0)) == Strip(sql) by { StripIsCleanText(sql); }
    while i < n
      invariant !(inSingle && inDouble)
      invariant out + CleanText(ModeOf(inSingle, inDouble), From(sql, i)) == Strip(sql)
      decreases n - i
    {
      var c := sql[i];
      var nxt := if i + 1 < n then Some(sql[i + 1]) else None;
      Turn(sql, i, ModeOf(inSingle, inDouble), out);
      if inSingle {
        if c == '\'' && nxt == Some('\'') {
          assert out + "''" == out + [c] + ['\''];
        }
        out := out + [c];
        if c == '\'' {
          if nxt == Some('\'') {
            out := out + ['\''];
            i := i + 2;
            continue;
          }
          inSingle := false;
        }
        i := i + 1;
      } else if inDouble {
        if c == '"' && nxt == Some('"') {
          assert out + "\"\"" == out + [c] + ['"'];
        }
        out := out + [c];
        if c == '"' {
          if nxt == Some('"') {
            out := out + ['"'];
            i := i + 2;
            continue;
          }
          inDouble := false;
        }
        i := i + 1;
      } else if c == '\'' {
        inSingle := true;
        out := out + [c];
        i := i + 1;
      } else if c == '"' {
        inDouble := true;
        out := out + [c];
        i := i + 1;
      } else if c == '-' && nxt == Some('-') {
        assert out + "" == out;
        i := SkipLine(sql, i + 2);
        if i < n && sql[i] == '\n' {
          Turn(sql, i, Line, out);
          out := out + "\n";
          i := i + 1;
        } else {
          NothingLeft(sql, i);
        }
      } else if c == '/' && nxt == Some('*') {
        i := SkipBlock(sql, i + 2);
        out := out + " ";
      } else {
        out := out + [c];
        i := i + 1;
      }
    }
    NothingLeft(sql, i);
  }

  lemma NothingLeft(sql: string, i: nat)
    requires i >= |sql|
    ensures forall m :: CleanText(m, From(sql, i)) == ""
  {
    EmptyText();
  }

  lemma StripIsCleanText(sql: string)
    ensures "" + CleanText(Code, From(sql, 0)) == Strip(sql)
  {
    assert sql[0..] == sql;
  }

  lemma EmptyText()
    ensures forall m :: CleanText(m, "") == ""
  {
  }

  /** The inner loop over a line comment. */
  method SkipLine(sql: string, start: nat) returns (i: nat)
    requires start <= |sql|
    ensures start <= i <= |sql| && (i < |sql| ==> sql[i] == '\n')
    ensures CleanText(Line, From(sql, start)) == CleanText(Line, From(sql, i))
  {
    hide CleanText;
    i := start;
    while i < |sql| && sql[i] != '\n'
      invariant start <= i <= |sql|
      invariant CleanText(Line, From(sql, start)) == CleanText(Line, From(sql, i))
    {
      SilentTurn(sql, i, Line);
      i := i + 1;
    }
  }

  /** The inner loop over a block comment; an unterminated one ends past the text. */
  method SkipBlock(sql: string, start: nat) returns (i: nat)
    requires start <= |sql|
    ensures i >= start
    ensures CleanText(Block, From(sql, start)) == CleanText(Code, From(sql, i))
  {
    hide CleanText, From;
    i := start;
    while i + 1 < |sql| && !(sql[i] == '*' && sql[i + 1] == '/')
      invariant start <= i <= |sql|
      invariant CleanText(Block, From(sql, start)) == CleanText(Block, From(sql, i))
    {
      SilentTurn(sql, i, Block);
      i := i + 1;
    }
    if i + 1 < |sql| {
      BlockEnds(sql, i);
    } else {
      if i < |sql| {
        SilentTurn(sql, i, Block);
      }
      NothingLeft(sql, |sql|);
      NothingLeft(sql, i + 2);
    }
    i := i + 2;
  }

  lemma BlockEnds(sql: string, i: nat)
    requires i + 1 < |sql| && sql[i] == '*' && sql[i + 1] == '/'
    ensures CleanText(Block, From(sql, i)) == CleanText(Code, From(sql, i + 2))
  {
    hide CleanText, From;
    SilentTurn(sql, i, Block);
  }
}
