/** What splitting a script promises. */
module SqlTheorems {
  import opened Text
  import opened Wrappers
  import opened SqlLexer
  import opened SqlSplit

  predicate NoSemicolon(xs: Lexemes) {
    forall x :: x in xs ==> !IsSemicolon(x)
  }

  /** Nonempty, trimmed, without comments, and every semicolon is inside quotes. */
  predicate IsStatement(q: string) {
    q != "" && IsTrimmed(q) && Strip(q) == q && NoSemicolon(Lex(true, Code, q))
  }

  predicate EndsInCode(s: string) {
    End(Code, Lex(true, Code, s)) == Code
  }

  /** Only the last statement may leave a literal open. */
  predicate AreStatements(qs: seq<string>) {
    forall i :: 0 <= i < |qs| ==> IsStatement(qs[i]) && (i + 1 < |qs| ==> EndsInCode(qs[i]))
  }

  function Join(qs: seq<string>): string {
    if qs == [] then "" else if |qs| == 1 then qs[0] else qs[0] + ";" + Join(qs[1..])
  }

  // ----- whitespace at the ends of a piece -----

  predicate IsBlank(x: Lexeme) {
    x.start == x.end && |x.text| == 1 && IsSpace(x.text[0])
  }

  function DropFront(xs: Lexemes): Lexemes {
    if xs != [] && IsBlank(xs[0]) then DropFront(xs[1..]) else xs
  }

  function DropBack(xs: Lexemes): Lexemes {
    if xs != [] && IsBlank(xs[|xs| - 1]) then DropBack(xs[..|xs| - 1]) else xs
  }

  predicate IsPiece(xs: Lexemes) {
    Lexed(true, Code, xs) && AllPlain(xs) && NoSemicolon(xs)
  }

  /** In code, a lexeme that starts with whitespace is blank. */
  lemma SpaceIsBlank(m: Mode, c: char, peek: Option<char>)
    ensures var x := Next(true, m, c, peek);
      && (IsPlain(x) ==> (IsBlank(x) <==> IsSpace(x.text[|x.text| - 1])))
      && (IsPlain(x) && IsBlank(x) ==> x.text == [c])
      && (IsPlain(x) && m == Code ==> (IsBlank(x) <==> IsSpace(c)))
  {
  }

  lemma {:induction false} DropFrontTrims(xs: Lexemes)
    requires IsPiece(xs)
    ensures Flat(DropFront(xs)) == TrimLeft(Flat(xs))
    ensures IsPiece(DropFront(xs))
    ensures Literals("", DropFront(xs)) == Literals("", xs)
    ensures End(Code, DropFront(xs)) == End(Code, xs)
    decreases |xs|
  {
    if xs != [] {
      hide Next;
      var s := Flat(xs);
      LexedTail(true, Code, xs);
      SpaceIsBlank(Code, s[0], Peek(s, 1));
      if IsBlank(xs[0]) {
        assert s[1..] == Flat(xs[1..]);
        DropFrontTrims(xs[1..]);
      }
    }
  }

  lemma FlatLast(xs: Lexemes)
    requires xs != []
    ensures var n := |xs| - 1;
      Flat(xs) == Flat(xs[..n]) + xs[n].text && Flat(xs[n..]) == xs[n].text
  {
    var n := |xs| - 1;
    assert xs == xs[..n] + [xs[n]] && xs[n..] == [xs[n]];
    FlatConcat(xs[..n], [xs[n]]);
    FlatOne(xs[n]);
  }

  /** The last lexeme is read in the mode the others end in. */
  lemma LastIsRead(xs: Lexemes) returns (c: char, peek: Option<char>)
    requires IsPiece(xs) && xs != []
    ensures xs[|xs| - 1] == Next(true, End(Code, xs[..|xs| - 1]), c, peek)
  {
    hide Next, Lex, Flat;
    var n := |xs| - 1;
    var m, last := End(Code, xs[..n]), xs[n..];
    LexedSuffix(true, Code, xs, n);
    LexedTail(true, m, last);
    c, peek := Flat(last)[0], Peek(Flat(last), 1);
  }

  lemma PiecePrefix(xs: Lexemes, n: nat)
    requires IsPiece(xs) && n < |xs|
    ensures IsPiece(xs[..n]) && IsPlain(xs[n])
  {
    hide Lex, IsSemicolon;
    LexedPrefix(true, Code, xs, n);
    assert forall x :: x in xs[..n] ==> x in xs;
  }

  lemma LastLexeme(xs: Lexemes)
    requires IsPiece(xs) && xs != []
    ensures var n := |xs| - 1;
      && IsPiece(xs[..n])
      && xs[n].text != ""
      && xs[n].start == End(Code, xs[..n]) && xs[n].end == End(Code, xs)
      && (IsBlank(xs[n]) <==> IsSpace(xs[n].text[|xs[n].text| - 1]))
  {
    hide Next, IsPiece, Flat, IsBlank, End;
    var n := |xs| - 1;
    var m := End(Code, xs[..n]);
    var c, peek := LastIsRead(xs);
    SpaceIsBlank(m, c, peek);
    EndLast(xs);
    PiecePrefix(xs, n);
  }

  lemma EndLast(xs: Lexemes)
    requires xs != []
    ensures End(Code, xs) == xs[|xs| - 1].end
  {
    var n := |xs| - 1;
    assert xs == xs[..n] + [xs[n]];
    EndConcat(Code, xs[..n], [xs[n]]);
  }

  lemma {:induction false} BlankHasNoLiteral(open: string, xs: Lexemes, b: Lexeme)
    requires IsBlank(b)
    ensures Literals(open, xs + [b]) == Literals(open, xs)
    decreases |xs|
  {
    if xs == [] {
      assert xs + [b] == [b];
    } else {
      var x := xs[0];
      assert (xs + [b])[1..] == xs[1..] + [b];
      BlankHasNoLiteral(open, xs[1..], b);
      BlankHasNoLiteral(open + x.text, xs[1..], b);
      BlankHasNoLiteral("", xs[1..], b);
    }
  }

  lemma BlankLast(xs: Lexemes)
    requires IsPiece(xs) && xs != [] && IsBlank(xs[|xs| - 1])
    ensures var before := xs[..|xs| - 1];
      && IsPiece(before) && DropBack(xs) == DropBack(before) && TrimRight(Flat(xs)) == TrimRight(Flat(before))
      && Literals("", xs) == Literals("", before) && End(Code, xs) == End(Code, before)
  {
    hide Literals, IsPiece, IsSpace, End, Flat, TrimRight;
    var before, last := xs[..|xs| - 1], xs[|xs| - 1];
    LastLexeme(xs);
    FlatLast(xs);
    TrimRightLast(Flat(before), last.text);
    assert xs == before + [last];
    BlankHasNoLiteral("", before, last);
  }

  lemma SolidLast(xs: Lexemes)
    requires IsPiece(xs) && xs != [] && !IsBlank(xs[|xs| - 1])
    ensures DropBack(xs) == xs && TrimRight(Flat(xs)) == Flat(xs)
  {
    hide IsPiece, IsBlank, IsSpace, End, Flat, TrimRight;
    LastLexeme(xs);
    FlatLast(xs);
    TrimRightLast(Flat(xs[..|xs| - 1]), xs[|xs| - 1].text);
  }

  lemma {:induction false} DropBackTrims(xs: Lexemes)
    requires IsPiece(xs)
    ensures Flat(DropBack(xs)) == TrimRight(Flat(xs))
    ensures IsPiece(DropBack(xs))
    ensures Literals("", DropBack(xs)) == Literals("", xs)
    ensures End(Code, DropBack(xs)) == End(Code, xs)
    decreases |xs|
  {
    hide Literals, IsPiece, IsBlank, End, DropBack, Flat, TrimRight;
    if xs == [] {
      NothingToDrop();
    } else if IsBlank(xs[|xs| - 1]) {
      BlankLast(xs);
      DropBackTrims(xs[..|xs| - 1]);
    } else {
      SolidLast(xs);
    }
  }

  lemma NothingToDrop()
    ensures DropBack([]) == [] && Flat([]) == "" && TrimRight("") == ""
  {
  }

  /** Trimming a piece leaves a statement or nothing, and loses no literal. */
  lemma TrimmedPiece(xs: Lexemes)
    requires IsPiece(xs)
    ensures var q := Trim(Flat(xs));
      && (q != "" ==> IsStatement(q))
      && LiteralsOf(q) == Literals("", xs)
      && (End(Code, xs) == Code <==> EndsInCode(q))
  {
    DropFrontTrims(xs);
    DropBackTrims(DropFront(xs));
    TrimIsTrimmed(Flat(xs));
    var core := DropBack(DropFront(xs));
    PlainIsClean(core);
  }

  // ----- the pieces between semicolons -----

  predicate ArePieces(ps: seq<Lexemes>) {
    forall i :: 0 <= i < |ps| ==> IsPiece(ps[i]) && (i + 1 < |ps| ==> End(Code, ps[i]) == Code)
  }

  lemma {:induction false} CutIsPrefix(xs: Lexemes)
    ensures |Cut(xs)[0]| <= |xs| && Cut(xs)[0] == xs[..|Cut(xs)[0]|]
    ensures NoSemicolon(Cut(xs)[0])
  {
    if xs != [] {
      CutIsPrefix(xs[1..]);
    }
  }

  lemma {:induction false} CutIsPieces(m: Mode, xs: Lexemes)
    requires Lexed(true, m, xs) && AllPlain(xs)
    ensures var ps := Cut(xs);
      && Lexed(true, m, ps[0]) && AllPlain(ps[0]) && NoSemicolon(ps[0])
      && (|ps| > 1 ==> End(m, ps[0]) == Code)
      && ArePieces(ps[1..])
    decreases |xs|
  {
    hide Next, Lex, Flat;
    CutIsPrefix(xs);
    LexedPrefix(true, m, xs, |Cut(xs)[0]|);
    if xs != [] {
      LexedTail(true, m, xs);
      CutIsPieces(xs[0].end, xs[1..]);
      var rest := Cut(xs[1..]);
      if IsSemicolon(xs[0]) {
        assert Cut(xs)[1..] == rest;
        assert IsPiece(rest[0]);
        assert forall i :: 1 <= i < |rest| ==> rest[i] == rest[1..][i - 1];
      } else {
        assert Cut(xs)[1..] == rest[1..];
        assert Cut(xs)[0][1..] == rest[0];
      }
    }
  }

  /** A script's statements, by its lexemes. */
  lemma SplitByLexemes(s: string)
    ensures Split(s) == Keep(Texts(Cut(Clean(Lex(true, Code, s)))))
    ensures ArePieces(Cut(Clean(Lex(true, Code, s))))
  {
    hide Next, Trim, Flat, Lex, Clean, Cut, Keep, Texts;
    var xs := Clean(Lex(true, Code, s));
    CleanTextLexes(false, Code, s);
    CleanTextLexes(true, Code, s);
    CleanIsPlain(Lex(true, Code, s));
    CutIsPieces(Code, xs);
    var ps := Cut(xs);
    assert forall i :: 1 <= i < |ps| ==> ps[i] == ps[1..][i - 1];
  }

  lemma OneMoreStatement(q: string, rest: seq<string>)
    requires IsStatement(q) && AreStatements(rest) && (rest != [] ==> EndsInCode(q))
    ensures AreStatements([q] + rest)
  {
    hide IsStatement, EndsInCode;
    assert forall i :: 1 <= i < |rest| + 1 ==> ([q] + rest)[i] == rest[i - 1];
  }

  lemma {:induction false} KeepIsStatements(ps: seq<Lexemes>)
    requires ArePieces(ps)
    ensures AreStatements(Keep(Texts(ps)))
  {
    if ps != [] {
      hide IsPiece, IsStatement, EndsInCode, Trim, Flat, End;
      TrimmedPiece(ps[0]);
      assert Texts(ps)[1..] == Texts(ps[1..]);
      assert ArePieces(ps[1..]) by {
        assert forall i :: 0 <= i < |ps| - 1 ==> ps[1..][i] == ps[i + 1];
      }
      KeepIsStatements(ps[1..]);
      var q, rest := Trim(Flat(ps[0])), Keep(Texts(ps[1..]));
      if q == "" {
        assert Keep(Texts(ps)) == rest;
      } else {
        assert rest != [] ==> |ps| > 1;
        assert Keep(Texts(ps)) == [q] + rest;
        OneMoreStatement(q, rest);
      }
    }
  }

  /** Every statement is nonempty, trimmed, free of comments and of bare semicolons. */
  lemma SplitGivesStatements(s: string)
    ensures AreStatements(Split(s))
  {
    SplitByLexemes(s);
    KeepIsStatements(Cut(Clean(Lex(true, Code, s))));
  }

  // ----- composition -----

  lemma CutCons(x: Lexeme, rest: Lexemes)
    ensures var ps := Cut(rest);
      Cut([x] + rest) == if IsSemicolon(x) then [[]] + ps else [[x] + ps[0]] + ps[1..]
  {
    assert ([x] + rest)[1..] == rest;
  }

  lemma {:induction false} CutConcat(xs: Lexemes, semi: Lexeme, ys: Lexemes)
    requires IsSemicolon(semi)
    ensures Cut(xs + [semi] + ys) == Cut(xs) + Cut(ys)
  {
    if xs == [] {
      assert xs + [semi] + ys == [semi] + ys;
      CutCons(semi, ys);
    } else {
      hide Cut, IsSemicolon;
      var x, rest := xs[0], xs[1..];
      CutConcat(rest, semi, ys);
      CutCons(x, rest);
      CutCons(x, rest + [semi] + ys);
      assert xs == [x] + rest && xs + [semi] + ys == [x] + (rest + [semi] + ys);
      ConsConcat(x, Cut(rest), Cut(ys));
    }
  }

  lemma ConsConcat(x: Lexeme, a: seq<Lexemes>, b: seq<Lexemes>)
    requires |a| >= 1
    ensures [[]] + (a + b) == [[]] + a + b
    ensures [[x] + (a + b)[0]] + (a + b)[1..] == [[x] + a[0]] + a[1..] + b
  {
    assert (a + b)[0] == a[0] && (a + b)[1..] == a[1..] + b;
  }

  lemma LexSemicolon(b: string)
    ensures Lex(true, Code, ";" + b) == [Lexeme(Code, ";", Code)] + Lex(true, Code, b)
  {
    assert (";" + b)[1..] == b;
  }

  lemma LexJoined(a: string, b: string)
    requires EndsInCode(a)
    ensures Lex(true, Code, a + ";" + b) == Lex(true, Code, a) + [Lexeme(Code, ";", Code)] + Lex(true, Code, b)
  {
    var xs, ys := Lex(true, Code, a), Lex(true, Code, b);
    assert a + ";" + b == a + (";" + b);
    LexSemicolon(b);
    hide Lex, Next;
    LexAppend(true, Code, a, ";" + b);
    assert xs + ([Lexeme(Code, ";", Code)] + ys) == xs + [Lexeme(Code, ";", Code)] + ys;
  }

  lemma CleanJoined(xs: Lexemes, semi: Lexeme, ys: Lexemes)
    requires IsSemicolon(semi)
    ensures Clean(xs + [semi] + ys) == Clean(xs) + [semi] + Clean(ys)
  {
    CleanConcat(xs + [semi], ys);
    CleanConcat(xs, [semi]);
    PlainIsClean([semi]);
  }

  lemma KeepTextsConcat(ps: seq<Lexemes>, qs: seq<Lexemes>)
    ensures Keep(Texts(ps + qs)) == Keep(Texts(ps)) + Keep(Texts(qs))
  {
    hide Trim, Flat;
    assert Texts(ps + qs) == Texts(ps) + Texts(qs);
    KeepConcat(Texts(ps), Texts(qs));
  }

  /** A semicolon in code splits a script into two that are read separately. */
  lemma SplitComposes(a: string, b: string)
    requires EndsInCode(a)
    ensures Split(a + ";" + b) == Split(a) + Split(b)
  {
    var semi := Lexeme(Code, ";", Code);
    var xs, ys := Lex(true, Code, a), Lex(true, Code, b);
    LexJoined(a, b);
    assert IsSemicolon(semi);
    hide Lex, Clean, Cut, Texts, Keep, Split;
    CleanJoined(xs, semi, ys);
    CutConcat(Clean(xs), semi, Clean(ys));
    KeepTextsConcat(Cut(Clean(xs)), Cut(Clean(ys)));
    SplitByLexemes(a);
    SplitByLexemes(b);
    SplitByLexemes(a + ";" + b);
  }

  // ----- the print/parse round trip -----

  lemma {:induction false} CutWithoutSemicolon(xs: Lexemes)
    requires NoSemicolon(xs)
    ensures Cut(xs) == [xs]
  {
    if xs != [] {
      CutWithoutSemicolon(xs[1..]);
      assert [xs[0]] + xs[1..] == xs && [xs[1..]][1..] == [];
    }
  }

  lemma SplitStatement(q: string)
    requires IsStatement(q)
    ensures Split(q) == [q]
  {
    SplitByLexemes(q);
    CleanTextLexes(true, Code, q);
    var xs := Lex(true, Code, q);
    CutWithoutSemicolon(xs);
    LexKeepsText(true, Code, q);
    assert Texts([xs]) == [q];
    TrimIsTrimmed(q);
    assert [q][1..] == [];
    assert Keep([q]) == [q] + Keep([]);
  }

  lemma {:induction false} SplitJoined(qs: seq<string>)
    requires AreStatements(qs)
    ensures Split(Join(qs)) == qs
  {
    if qs == [] {
      assert Strip("") == "";
      assert Texts([[]]) == [""];
      assert Keep([""]) == [];
    } else if |qs| == 1 {
      SplitStatement(qs[0]);
    } else {
      assert forall i :: 0 <= i < |qs| - 1 ==> qs[1..][i] == qs[i + 1];
      SplitJoined(qs[1..]);
      SplitComposes(qs[0], Join(qs[1..]));
      SplitStatement(qs[0]);
    }
  }

  /** Joining the statements with semicolons and splitting again gives the same statements. */
  lemma SplitRoundTrip(s: string)
    ensures Split(Join(Split(s))) == Split(s)
  {
    SplitGivesStatements(s);
    SplitJoined(Split(s));
  }

  // ----- literals -----

  function AllLiterals(qs: seq<string>): seq<string> {
    if qs == [] then [] else LiteralsOf(qs[0]) + AllLiterals(qs[1..])
  }

  function PieceLiterals(ps: seq<Lexemes>): seq<string> {
    if ps == [] then [] else Literals("", ps[0]) + PieceLiterals(ps[1..])
  }

  lemma {:induction false} CutKeepsLiterals(open: string, m: Mode, xs: Lexemes)
    requires Lexed(true, m, xs) && AllPlain(xs) && (m == Code ==> open == "")
    ensures Literals(open, xs) == Literals(open, Cut(xs)[0]) + PieceLiterals(Cut(xs)[1..])
    decreases |xs|
  {
    hide Next, Lex, Flat;
    if xs != [] {
      var x := xs[0];
      LexedTail(true, m, xs);
      assert IsPlain(x);
      var rest := Cut(xs[1..]);
      var open' := if IsQuote(x.end) then open + x.text else "";
      CutKeepsLiterals(open', x.end, xs[1..]);
      if IsSemicolon(x) {
        assert Cut(xs)[1..] == rest;
      } else {
        assert Cut(xs)[1..] == rest[1..];
        assert Cut(xs)[0][0] == x && Cut(xs)[0][1..] == rest[0];
      }
    }
  }

  lemma {:induction false} KeepKeepsLiterals(ps: seq<Lexemes>)
    requires ArePieces(ps)
    ensures AllLiterals(Keep(Texts(ps))) == PieceLiterals(ps)
  {
    if ps != [] {
      TrimmedPiece(ps[0]);
      assert Texts(ps)[1..] == Texts(ps[1..]);
      assert forall i :: 0 <= i < |ps| - 1 ==> ps[1..][i] == ps[i + 1];
      KeepKeepsLiterals(ps[1..]);
      hide Trim, LiteralsOf, Literals, Flat;
      var q, rest := Trim(Flat(ps[0])), Keep(Texts(ps[1..]));
      assert Keep(Texts(ps)) == (if q == "" then [] else [q]) + rest;
      if q == "" {
        NothingHasNoLiterals();
        assert Keep(Texts(ps)) == rest && [] + PieceLiterals(ps[1..]) == PieceLiterals(ps[1..]);
      } else {
        assert ([q] + rest)[1..] == rest;
      }
    }
  }

  lemma NothingHasNoLiterals()
    ensures LiteralsOf("") == []
  {
  }

  /** The closed literals of a script are those of its statements, in order. */
  lemma SplitKeepsLiterals(s: string)
    ensures AllLiterals(Split(s)) == LiteralsOf(s)
  {
    var xs := Lex(true, Code, s);
    SplitByLexemes(s);
    KeepKeepsLiterals(Cut(Clean(xs)));
    CleanTextLexes(true, Code, s);
    CleanIsPlain(xs);
    CutKeepsLiterals("", Code, Clean(xs));
    CleanKeepsLiterals("", xs);
  }

  // ----- `TursoCursor.executescript` -----

  /** `s.lower().startswith("pragma ")`. */
  predicate IsPragma(s: string) {
    "pragma " <= Lower(s)
  }

  function Batch(stmts: seq<string>): seq<string> {
    if stmts == [] then [] else (if IsPragma(stmts[0]) then [] else [stmts[0]]) + Batch(stmts[1..])
  }

  /** The statements sent in one request; nothing is sent when there are none. */
  method ExecuteScript(script: string) returns (request: Option<seq<string>>)
    ensures var batch := Batch(Split(script));
      request == if batch == [] then None else Some(batch)
  {
    hide IsPragma, Split;
    var all := SplitStatements(script);
    var stmts: seq<string> := [];
    assert all[0..] == all && [] + Batch(all) == Batch(all);
    for i := 0 to |all|
      invariant stmts + Batch(all[i..]) == Batch(all)
    {
      var s := all[i];
      BatchStep(all, i, stmts);
      if !IsPragma(s) {
        stmts := stmts + [s];
      }
    }
    assert stmts + [] == stmts;
    request := if stmts == [] then None else Some(stmts);
  }

  lemma BatchStep(all: seq<string>, i: nat, stmts: seq<string>)
    requires i < |all|
    ensures stmts + Batch(all[i..]) == (if IsPragma(all[i]) then stmts else stmts + [all[i]]) + Batch(all[i + 1..])
  {
    assert all[i..][1..] == all[i + 1..];
    assert stmts + ([all[i]] + Batch(all[i + 1..])) == stmts + [all[i]] + Batch(all[i + 1..]);
  }

  lemma {:induction false} BatchConcat(a: seq<string>, b: seq<string>)
    ensures Batch(a + b) == Batch(a) + Batch(b)
  {
    if a == [] {
      assert a + b == b;
    } else {
      hide IsPragma;
      BatchConcat(a[1..], b);
      assert (a + b)[1..] == a[1..] + b;
      var first := if IsPragma(a[0]) then [] else [a[0]];
      Assoc(first, Batch(a[1..]), Batch(b));
    }
  }

  /** Two scripts run as one send what they would send one after the other. */
  lemma BatchComposes(a: string, b: string)
    requires EndsInCode(a)
    ensures Batch(Split(a + ";" + b)) == Batch(Split(a)) + Batch(Split(b))
  {
    SplitComposes(a, b);
    BatchConcat(Split(a), Split(b));
  }
}
