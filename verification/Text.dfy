/** Python's whitespace, and what `str.strip` leaves. */
module Text {

  /** The characters `str.strip()` removes. */
  predicate IsSpace(c: char) {
    var u := c as int;
    9 <= u <= 13 || 28 <= u <= 32 || u == 0x85 || u == 0xA0 || u == 0x1680
    || 0x2000 <= u <= 0x200A || u == 0x2028 || u == 0x2029 || u == 0x202F || u == 0x205F || u == 0x3000
  }

  lemma SpacesByCode(c: char)
    ensures IsSpace(c) <==> c as int in {
              9, 10, 11, 12, 13, 28, 29, 30, 31, 32, 133, 160, 5760, 8192, 8193, 8194, 8195, 8196, 8197, 8198, 8199,
              8200, 8201, 8202, 8232, 8233, 8239, 8287, 12288}
  {
  }

  function TrimLeft(s: string): string {
    if s != "" && IsSpace(s[0]) then TrimLeft(s[1..]) else s
  }

  function TrimRight(s: string): string {
    if s != "" && IsSpace(s[|s| - 1]) then TrimRight(s[..|s| - 1]) else s
  }

  function Trim(s: string): string {
    TrimRight(TrimLeft(s))
  }

  predicate IsTrimmed(s: string) {
    s != "" ==> !IsSpace(s[0]) && !IsSpace(s[|s| - 1])
  }

  /** `str.lower`, for ASCII letters. */
  function Lower(s: string): string {
    seq(|s|, i requires 0 <= i < |s| => if 'A' <= s[i] <= 'Z' then (s[i] as int + 32) as char else s[i])
  }

  /** The characters that are not whitespace, in order. */
  function Visible(s: string): string {
    if s == "" then "" else (if IsSpace(s[0]) then "" else [s[0]]) + Visible(s[1..])
  }

  lemma {:induction false} VisibleConcat(a: string, b: string)
    ensures Visible(a + b) == Visible(a) + Visible(b)
  {
    if a == "" {
      assert a + b == b;
    } else {
      hide IsSpace;
      VisibleConcat(a[1..], b);
      assert (a + b)[1..] == a[1..] + b;
      Assoc(if IsSpace(a[0]) then "" else [a[0]], Visible(a[1..]), Visible(b));
    }
  }

  lemma {:induction false} TrimLeftIsSuffix(s: string)
    ensures |TrimLeft(s)| <= |s| && TrimLeft(s) == s[|s| - |TrimLeft(s)|..]
    ensures TrimLeft(s) != "" ==> !IsSpace(TrimLeft(s)[0])
    ensures Visible(TrimLeft(s)) == Visible(s)
  {
    if s != "" && IsSpace(s[0]) {
      TrimLeftIsSuffix(s[1..]);
    }
  }

  lemma {:induction false} TrimRightIsPrefix(s: string)
    ensures |TrimRight(s)| <= |s| && TrimRight(s) == s[..|TrimRight(s)|]
    ensures TrimRight(s) != "" ==> !IsSpace(TrimRight(s)[|TrimRight(s)| - 1])
    ensures Visible(TrimRight(s)) == Visible(s)
  {
    hide IsSpace, Visible;
    if s != "" && IsSpace(s[|s| - 1]) {
      var t := s[..|s| - 1];
      TrimRightIsPrefix(t);
      assert s == t + [s[|s| - 1]];
      SpaceIsInvisible(t, s[|s| - 1]);
    }
  }

  lemma SpaceIsInvisible(t: string, c: char)
    requires IsSpace(c)
    ensures Visible(t + [c]) == Visible(t)
  {
    hide IsSpace;
    VisibleConcat(t, [c]);
    assert [c][1..] == "";
  }

  lemma TrimIsTrimmed(s: string)
    ensures IsTrimmed(Trim(s)) && Visible(Trim(s)) == Visible(s) && |Trim(s)| <= |s|
    ensures IsTrimmed(s) ==> Trim(s) == s
  {
    TrimLeftIsSuffix(s);
    TrimRightIsPrefix(TrimLeft(s));
  }

  /** Only a blank text is trimmed away. */
  lemma BlankIsTrimmedAway(s: string)
    ensures Trim(s) == "" <==> Visible(s) == ""
  {
    TrimIsTrimmed(s);
    if Trim(s) != "" {
      SolidIsVisible(Trim(s));
    }
  }

  lemma SolidIsVisible(s: string)
    requires s != "" && !IsSpace(s[0])
    ensures Visible(s) != ""
  {
  }

  /** What is cut off is whitespace: Trim keeps everything between the first and the last other character. */
  lemma TrimCutsBlanks(s: string) returns (a: string, b: string)
    ensures s == a + Trim(s) + b && Visible(a) == "" && Visible(b) == ""
  {
    var t := TrimLeft(s);
    TrimLeftIsSuffix(s);
    TrimRightIsPrefix(t);
    a, b := s[..|s| - |t|], t[|Trim(s)|..];
    assert s == a + t && t == Trim(s) + b;
    VisibleConcat(a, t);
    VisibleConcat(Trim(s), b);
    NothingAdded(Visible(a), Visible(t));
    NothingAfter(Visible(t), Visible(b));
  }

  lemma NothingAdded(a: string, b: string)
    requires a + b == b
    ensures a == ""
  {
    assert |a + b| == |a| + |b|;
  }

  lemma NothingAfter(a: string, b: string)
    requires a + b == a
    ensures b == ""
  {
    assert |a + b| == |a| + |b|;
  }

  lemma TrimRightLast(t: string, u: string)
    requires u != ""
    ensures !IsSpace(u[|u| - 1]) ==> TrimRight(t + u) == t + u
    ensures |u| == 1 && IsSpace(u[0]) ==> TrimRight(t + u) == TrimRight(t)
  {
    var s := t + u;
    assert s[|s| - 1] == u[|u| - 1];
    if |u| == 1 {
      assert s[..|s| - 1] == t;
    }
  }

  lemma {:induction false} TrimLeftConcat(u: string, v: string)
    ensures TrimLeft(u + v) == if Visible(u) == "" then TrimLeft(v) else TrimLeft(u) + v
  {
    hide IsSpace;
    if u == "" {
      assert u + v == v;
    } else {
      assert (u + v)[1..] == u[1..] + v;
      TrimLeftConcat(u[1..], v);
    }
  }

  lemma {:induction false} TrimRightBlank(u: string, v: string)
    requires Visible(v) == ""
    ensures TrimRight(u + v) == TrimRight(u)
  {
    hide IsSpace, TrimRight;
    if v == "" {
      assert u + v == u;
    } else {
      var w, last := v[..|v| - 1], [v[|v| - 1]];
      assert v == w + last && u + v == u + w + last;
      VisibleConcat(w, last);
      TrimRightBlank(u, w);
      TrimRightLast(u + w, last);
    }
  }

  /** Whitespace at the end does not count. */
  lemma BlankTailIsTrimmed(u: string, v: string)
    requires Visible(v) == ""
    ensures |Trim(u + v)| <= |u|
  {
    hide IsSpace, TrimLeft, TrimRight;
    TrimLeftConcat(u, v);
    TrimLeftIsSuffix(u);
    TrimLeftIsSuffix(v);
    TrimRightIsPrefix(TrimLeft(u));
    TrimRightIsPrefix(TrimLeft(v));
    TrimRightBlank(TrimLeft(u), v);
  }

  lemma Assoc<T>(a: seq<T>, b: seq<T>, c: seq<T>)
    ensures a + (b + c) == a + b + c
  {
  }
}
