/** Where a script may be cut in two: exactly where it is read as code. */
module SqlSplitPoints {
  import opened SqlLexer
  import opened SqlSplit
  import opened SqlTheorems

  lemma {:induction false} CleanEnds(m: Mode, s: string)
    ensures End(PlainMode(m), Clean(Lex(true, m, s))) == PlainMode(End(m, Lex(true, m, s)))
    decreases |s|
  {
    if s != "" {
      var x := Next(true, m, s[0], Peek(s, 1));
      var rest := Lex(true, x.end, s[|x.text|..]);
      KeptIs(true, m, s[0], Peek(s, 1));
      CleanEnds(x.end, s[|x.text|..]);
      hide Next, Kept, Clean, Flat;
      assert Lex(true, m, s) == [x] + rest && ([x] + rest)[1..] == rest;
      CleanCons(x, rest);
      if Kept(x) == [] {
        assert [] + Clean(rest) == Clean(rest);
      } else {
        assert (Kept(x) + Clean(rest))[1..] == Clean(rest);
      }
    }
  }

  function LastPiece(xs: Lexemes): Lexemes {
    Cut(xs)[|Cut(xs)| - 1]
  }

  lemma EndCons(m: Mode, x: Lexeme, rest: Lexemes)
    ensures End(m, [x] + rest) == End(x.end, rest)
  {
    assert ([x] + rest)[1..] == rest;
  }

  lemma {:induction false} CutEnds(m: Mode, xs: Lexemes)
    ensures End(m, xs) == End(if |Cut(xs)| == 1 then m else Code, LastPiece(xs))
    decreases |xs|
  {
    if xs != [] {
      hide Cut, End;
      var x, rest := xs[0], xs[1..];
      assert xs == [x] + rest;
      CutCons(x, rest);
      CutEnds(x.end, rest);
      EndCons(m, x, rest);
      EndCons(m, x, Cut(rest)[0]);
    }
  }

  /** Lexemes that are not semicolons go to the last piece. */
  lemma {:induction false} CutExtends(xs: Lexemes, ys: Lexemes)
    requires NoSemicolon(ys)
    ensures Cut(xs + ys) == Cut(xs)[..|Cut(xs)| - 1] + [LastPiece(xs) + ys]
    decreases |xs|
  {
    if xs == [] {
      assert xs + ys == ys && [] + ys == ys;
      CutWithoutSemicolon(ys);
    } else {
      hide Cut, NoSemicolon;
      var x, rest := xs[0], xs[1..];
      assert xs == [x] + rest && xs + ys == [x] + (rest + ys);
      CutCons(x, rest);
      CutCons(x, rest + ys);
      CutExtends(rest, ys);
      var ps := Cut(rest);
      if !IsSemicolon(x) && |ps| == 1 {
        assert [x] + (ps[0] + ys) == [x] + ps[0] + ys;
      }
    }
  }

  /** Text after a quote that is open, or in a comment, adds no statement. */
  lemma NoMoreStatements(a: string)
    requires !EndsInCode(a)
    ensures |Split(a + ";y")| == |Split(a)|
  {
    var m := End(Code, Lex(true, Code, a));
    var xs := Clean(Lex(true, Code, a));
    TailIsInside(m);
    LexAppend(true, Code, a, ";y");
    CleanConcat(Lex(true, Code, a), Lex(true, m, ";y"));
    SplitByLexemes(a);
    SplitByLexemes(a + ";y");
    CleanEnds(Code, a);
    hide Lex, Clean, Cut, Keep, Split, Texts, ArePieces;
    var ys := Clean(Lex(true, m, ";y"));
    if m in {Line, Block} {
      assert xs + ys == xs;
    } else {
      SameCount(xs, ys, m);
    }
  }

  lemma SameCount(xs: Lexemes, ys: Lexemes, m: Mode)
    requires m != Code && End(Code, xs) == m && End(m, ys) == m && NoSemicolon(ys)
    requires ArePieces(Cut(xs)) && ArePieces(Cut(xs + ys))
    ensures |Keep(Texts(Cut(xs + ys)))| == |Keep(Texts(Cut(xs)))|
  {
    hide Cut, Keep, Texts, IsPiece, ArePieces, End, NoSemicolon;
    CutExtends(xs, ys);
    CutEnds(Code, xs);
    var ps, p := Cut(xs)[..|Cut(xs)| - 1], LastPiece(xs);
    assert Cut(xs) == ps + [p];
    EndConcat(Code, p, ys);
    LastIsPiece(ps, p);
    LastIsPiece(ps, p + ys);
    KeepTextsConcat(ps, [p]);
    KeepTextsConcat(ps, [p + ys]);
    OpenPieceIsKept(p);
    OpenPieceIsKept(p + ys);
  }

  lemma LastIsPiece(ps: seq<Lexemes>, p: Lexemes)
    requires ArePieces(ps + [p])
    ensures IsPiece(p)
  {
    assert (ps + [p])[|ps|] == p;
  }

  lemma TailIsInside(m: Mode)
    requires m != Code
    ensures var ys := Clean(Lex(true, m, ";y"));
      if m in {Line, Block} then ys == []
      else ys == [Lexeme(m, ";", m), Lexeme(m, "y", m)] && NoSemicolon(ys) && End(m, ys) == m
  {
    assert ";y"[1..] == "y" && "y"[1..] == "";
    var first, second := Lexeme(m, ";", m), Lexeme(m, "y", m);
    assert Lex(true, m, "y") == [second];
    assert Lex(true, m, ";y") == [first] + [second];
    assert [second][1..] == [];
    CleanCons(first, [second]);
    CleanCons(second, []);
    assert [second] + [] == [second] && [first, second][1..] == [second];
    assert End(m, [second]) == End(m, []) == m;
    assert End(m, [first, second]) == End(m, [second]);
  }

  lemma OpenPieceIsKept(p: Lexemes)
    requires IsPiece(p) && End(Code, p) != Code
    ensures |Keep(Texts([p]))| == 1
  {
    hide IsPiece;
    TrimmedPiece(p);
    assert EndsInCode("");
    assert Texts([p]) == [Flat(p)] && [Flat(p)][1..] == [];
  }

  lemma OneLetter()
    ensures Split("y") == ["y"]
  {
    assert "y"[1..] == "";
    assert Lex(true, Code, "y") == [Lexeme(Code, "y", Code)];
    SplitStatement("y");
  }

  /** A script can be cut after a, whatever follows, if and only if a ends in code. */
  lemma SplitsExactlyAfterCode(a: string)
    ensures (forall b :: Split(a + ";" + b) == Split(a) + Split(b)) <==> EndsInCode(a)
  {
    hide Split, EndsInCode;
    if EndsInCode(a) {
      forall b ensures Split(a + ";" + b) == Split(a) + Split(b) {
        SplitComposes(a, b);
      }
    } else {
      NoMoreStatements(a);
      OneLetter();
      assert a + ";" + "y" == a + ";y";
      assert |Split(a + ";" + "y")| != |Split(a) + Split("y")|;
    }
  }
}
