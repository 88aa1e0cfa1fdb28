/** Splitting a SQL script into statements. */
module SqlSplit {
  import opened Text
  import opened Wrappers
  import opened SqlLexer

  predicate IsSemicolon(x: Lexeme) {
    x == Lexeme(Code, ";", Code)
  }

  /** The lexemes between semicolons that are code; there is always at least one piece. */
  function Cut(xs: Lexemes): (ps: seq<Lexemes>)
    ensures |ps| >= 1
  {
    if xs == [] then [[]] else
    var ps := Cut(xs[1..]);
    if IsSemicolon(xs[0]) then [[]] + ps else [[xs[0]] + ps[0]] + ps[1..]
  }

  function Texts(ps: seq<Lexemes>): (ts: seq<string>)
    ensures |ts| == |ps|
  {
    seq(|ps|, i requires 0 <= i < |ps| => Flat(ps[i]))
  }

  /** The trimmed pieces that are not empty. */
  function Keep(ts: seq<string>): seq<string> {
    if ts == [] then []
    else (if Trim(ts[0]) == "" then [] else [Trim(ts[0])]) + Keep(ts[1..])
  }

  function PieceTexts(m: Mode, cleaned: string): (ts: seq<string>)
    ensures |ts| >= 1
  {
    Texts(Cut(Lex(false, m, cleaned)))
  }

  function Split(script: string): seq<string> {
    Keep(PieceTexts(Code, Strip(script)))
  }

  // ----- the loop of the source -----

  function Prepend(current: string, ts: seq<string>): seq<string>
    requires |ts| >= 1
  {
    [current + ts[0]] + ts[1..]
  }

  lemma {:induction false} KeepConcat(a: seq<string>, b: seq<string>)
    ensures Keep(a + b) == Keep(a) + Keep(b)
  {
    if a == [] {
      assert a + b == b;
    } else {
      hide Trim;
      KeepConcat(a[1..], b);
      assert (a + b)[1..] == a[1..] + b;
      var kept := if Trim(a[0]) == "" then [] else [Trim(a[0])];
      Assoc(kept, Keep(a[1..]), Keep(b));
    }
  }

  lemma PieceTextsStep(m: Mode, s: string)
    requires s != ""
    ensures var x := Next(false, m, s[0], Peek(s, 1));
      var ts := PieceTexts(x.end, s[|x.text|..]);
      PieceTexts(m, s) == if IsSemicolon(x) then [""] + ts else Prepend(x.text, ts)
  {
    var x := Next(false, m, s[0], Peek(s, 1));
    var rest := Lex(false, x.end, s[|x.text|..]);
    var xs := Lex(false, m, s);
    assert xs == [x] + rest && xs[1..] == rest;
    var ps := Cut(rest);
    if !IsSemicolon(x) {
      assert ([x] + ps[0])[1..] == ps[0];
      assert Flat([x] + ps[0]) == x.text + Flat(ps[0]);
      assert Texts([[x] + ps[0]] + ps[1..]) == Prepend(x.text, Texts(ps));
    } else {
      assert Texts([[]] + ps) == [""] + Texts(ps);
    }
  }

  lemma PieceTextsFrom(m: Mode, s: string, i: nat)
    requires i < |s|
    ensures var x := Next(false, m, s[i], Peek(s, i + 1));
      && i + |x.text| <= |s|
      && (var ts := PieceTexts(x.end, From(s, i + |x.text|));
          PieceTexts(m, From(s, i)) == if IsSemicolon(x) then [""] + ts else Prepend(x.text, ts))
  {
    hide Next, PieceTexts, IsSemicolon;
    var rest := s[i..];
    var x := Next(false, m, rest[0], Peek(rest, 1));
    PieceTextsStep(m, rest);
    assert rest[|x.text|..] == s[i + |x.text|..];
  }

  /** One turn of the loop: the statements closed so far, and the one being read. */
  lemma Turn(cleaned: string, i: nat, m: Mode, statements: seq<string>, current: string)
    requires i < |cleaned|
    ensures var x := Next(false, m, cleaned[i], Peek(cleaned, i + 1));
      && i + |x.text| <= |cleaned|
      && (var before := statements + Keep(Prepend(current, PieceTexts(m, From(cleaned, i))));
          var ts := PieceTexts(x.end, From(cleaned, i + |x.text|));
          before == if IsSemicolon(x)
                    then statements + (if Trim(current) == "" then [] else [Trim(current)]) + Keep(Prepend("", ts))
                    else statements + Keep(Prepend(current + x.text, ts)))
  {
    hide Trim, PieceTexts, Keep, Next, Prepend, IsSemicolon, From;
    var x := Next(false, m, cleaned[i], Peek(cleaned, i + 1));
    PieceTextsFrom(m, cleaned, i);
    var ts := PieceTexts(x.end, From(cleaned, i + |x.text|));
    if IsSemicolon(x) {
      KeepClosed(statements, current, ts);
    } else {
      PrependTwice(current, x.text, ts);
    }
  }

  lemma PrependTwice(a: string, b: string, ts: seq<string>)
    requires |ts| >= 1
    ensures Prepend(a, Prepend(b, ts)) == Prepend(a + b, ts)
  {
    assert a + (b + ts[0]) == a + b + ts[0];
  }

  lemma KeepClosed(statements: seq<string>, current: string, ts: seq<string>)
    requires |ts| >= 1
    ensures statements + Keep(Prepend(current, [""] + ts))
      == statements + (if Trim(current) == "" then [] else [Trim(current)]) + Keep(Prepend("", ts))
  {
    assert current + "" == current && "" + ts[0] == ts[0];
    assert Prepend(current, [""] + ts) == [current] + ts && Prepend("", ts) == ts;
    KeepConcat([current], ts);
    var kept := if Trim(current) == "" then [] else [Trim(current)];
    assert Keep([current]) == kept + Keep([]) == kept;
    Assoc(statements, kept, Keep(ts));
  }

  /** `_split_statements`. */
  method SplitStatements(script: string) returns (statements: seq<string>)
    ensures statements == Split(script)
  {
    hide PieceTexts, Split, Prepend, Trim, Keep;
    var cleaned := StripSqlComments(script);
    statements := [];
    var current := "";
    var i, n := 0, |cleaned|;
    var inSingle, inDouble := false, false;
    BeforeTheLoop(script, cleaned);
    while i < n
      invariant i <= n && !(inSingle && inDouble)
      invariant statements + Keep(Prepend(current, PieceTexts(ModeOf(inSingle, inDouble), From(cleaned, i))))
        == Split(script)
    {
      var c := cleaned[i];
      var nxt := if i + 1 < n then Some(cleaned[i + 1]) else None;
      Turn(cleaned, i, ModeOf(inSingle, inDouble), statements, current);
      if inSingle {
        assert c == '\'' && nxt == Some('\'') ==> current + "''" == current + [c] + ['\''];
        current := current + [c];
        if c == '\'' {
          if nxt == Some('\'') {
            current := current + ['\''];
            i := i + 2;
            continue;
          }
          inSingle := false;
        }
        i := i + 1;
      } else if inDouble {
        assert c == '"' && nxt == Some('"') ==> current + "\"\"" == current + [c] + ['"'];
        current := current + [c];
        if c == '"' {
          if nxt == Some('"') {
            current := current + ['"'];
            i := i + 2;
            continue;
          }
          inDouble := false;
        }
        i := i + 1;
      } else if c == '\'' {
        inSingle := true;
        current := current + [c];
        i := i + 1;
      } else if c == '"' {
        inDouble := true;
        current := current + [c];
        i := i + 1;
      } else if c == ';' {
        var stmt := Trim(current);
        if stmt != "" {
          statements := statements + [stmt];
        } else {
          assert statements + [] == statements;
        }
        current := "";
        i := i + 1;
      } else {
        current := current + [c];
        i := i + 1;
      }
    }
    AfterTheLoop(ModeOf(inSingle, inDouble), current);
    assert From(cleaned, i) == "" && statements + [] == statements;
    var trailing := Trim(current);
    if trailing != "" {
      statements := statements + [trailing];
    }
  }

  lemma BeforeTheLoop(script: string, cleaned: string)
    requires cleaned == Strip(script)
    ensures [] + Keep(Prepend("", PieceTexts(Code, From(cleaned, 0)))) == Split(script)
  {
    assert cleaned[0..] == cleaned;
    var ts := PieceTexts(Code, cleaned);
    assert "" + ts[0] == ts[0];
    assert Prepend("", ts) == ts;
  }

  lemma AfterTheLoop(m: Mode, current: string)
    ensures Keep(Prepend(current, PieceTexts(m, ""))) == if Trim(current) == "" then [] else [Trim(current)]
  {
    assert Texts([[]]) == [""];
    assert current + "" == current;
    assert Prepend(current, [""]) == [current];
  }
}
