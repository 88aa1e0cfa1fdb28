/** When the chunking loop ends, when its chunks are right, and the texts on which it goes wrong. */
module ChunkingLoops {
  import opened Text
  import opened Wrappers
  import opened Chunking

  /** The first turn from start on that does not move forward jumps to the last character. */
  predicate Jumps(text: string, size: nat, start: nat)
    requires size >= 1 && start <= |text|
    decreases |text| - start
  {
    start < |text|
    && (Cut(text, size, start) == -1 || (Cut(text, size, start) > start && Jumps(text, size, Cut(text, size, start))))
  }

  lemma JumpsStep(text: string, size: nat, start: nat)
    requires size >= 1 && start < |text|
    ensures Cut(text, size, start) == -1 ==> Jumps(text, size, start)
    ensures Cut(text, size, start) > start ==> Jumps(text, size, start) == Jumps(text, size, Cut(text, size, start))
    ensures 0 <= Cut(text, size, start) <= start ==> !Jumps(text, size, start)
  {
    hide Cut;
  }

  /** Once the loop has ended, watching it longer changes nothing. */
  lemma {:induction false} SlicesAgree(text: string, size: nat, start: int, t: nat, u: nat)
    requires size >= 1 && -1 <= start <= |text| && Slices(text, size, start, t).Some? && t <= u
    ensures Slices(text, size, start, u) == Slices(text, size, start, t)
    decreases t
  {
    hide Cut, Slice, Slices;
    AtTheEnd(text, size, start, t);
    AtTheEnd(text, size, start, u);
    if start < |text| {
      OneTurn(text, size, start, t);
      OneTurn(text, size, start, u);
      SlicesAgree(text, size, Cut(text, size, start), t - 1, u - 1);
    }
  }

  /** From a start that is not before the text, the loop ends only by moving forward all the way, perhaps after one
      jump. */
  lemma {:induction false} EndsOnlySo(text: string, size: nat, start: nat, turns: nat)
    requires 1 <= size < |text| && start <= |text| && Slices(text, size, start, turns).Some?
    ensures Advances(text, size, start) || (Jumps(text, size, start) && Advances(text, size, size - 1))
    decreases turns
  {
    hide Cut, Slice, Slices, Advances, Jumps;
    AdvancesStep(text, size, start);
    AtTheEnd(text, size, start, turns);
    if start < |text| {
      JumpsStep(text, size, start);
      var e := Cut(text, size, start);
      OneTurn(text, size, start, turns);
      if e == start {
        NeverEnds(text, size, start, turns);
      } else if e > start {
        EndsOnlySo(text, size, e, turns - 1);
      } else {
        AfterTheJump(text, size);
        AtTheEnd(text, size, e, turns - 1);
        OneTurn(text, size, e, turns - 1);
        EndsOnlySo(text, size, size - 1, turns - 2);
      }
    }
  }

  /** With one jump, the loop ends too; its slices are the text without its last character, and then the text from
      size - 1 on. */
  lemma {:induction false} JumpingEnds(text: string, size: nat, start: nat, turns: nat)
    requires 1 <= size < |text| && start <= |text| && Jumps(text, size, start) && Advances(text, size, size - 1)
    requires turns >= 2 * |text| + 1 - start
    ensures var r := Slices(text, size, start, turns);
      && r.Some? && start < |text| && Concat(r.value) == text[start..|text| - 1] + text[size - 1..]
      && (Visible(text[size - 1..|text| - 1]) == "" ==> TrimmedFit(r.value, size))
    decreases |text| - start
  {
    hide Cut, Slice, Slices, Advances, Jumps, Concat, Visible, Trim;
    NotAtTheEnd(text, size, start);
    JumpsStep(text, size, start);
    var e := Cut(text, size, start);
    OneTurn(text, size, start, turns);
    if e > start {
      JumpingEnds(text, size, e, turns - 1);
      CutIsBounded(text, size, start);
      var rest := Slices(text, size, e, turns - 1).value;
      ConcatMore(text[start..e], rest);
      assert text[start..e] + (text[e..|text| - 1] + text[size - 1..]) == text[start..|text| - 1] + text[size - 1..];
      TrimIsTrimmed(text[start..e]);
    } else {
      JumpIs(text, size, start, turns);
    }
  }

  lemma NotAtTheEnd(text: string, size: nat, start: nat)
    requires size >= 1 && start <= |text| && Jumps(text, size, start)
    ensures start < |text| && Cut(text, size, start) != start
  {
    hide Cut;
  }

  /** The turn that jumps, the empty turn after it, and the way to the end. */
  lemma JumpIs(text: string, size: nat, start: nat, turns: nat)
    requires 1 <= size < |text| && start < |text| && Cut(text, size, start) == -1 && Advances(text, size, size - 1)
    requires turns >= |text| + 2
    ensures var r := Slices(text, size, start, turns);
      && r.Some? && Concat(r.value) == text[start..|text| - 1] + text[size - 1..]
      && (Visible(text[size - 1..|text| - 1]) == "" ==> TrimmedFit(r.value, size))
  {
    hide Cut, Slice, Slices, Advances, Concat, Visible, Trim, TrimmedFit, AllFit;
    AdvancingCovers(text, size, size - 1, turns - 2);
    JumpTurns(text, size, start, turns);
    var rest := Slices(text, size, size - 1, turns - 2).value;
    JumpParts(text[start..|text| - 1], rest, size);
    if Visible(text[size - 1..|text| - 1]) == "" {
      JumpFits(text, size, start);
    }
  }

  lemma JumpTurns(text: string, size: nat, start: nat, turns: nat)
    requires 1 <= size < |text| && start < |text| && Cut(text, size, start) == -1 && turns >= 2
    requires Slices(text, size, size - 1, turns - 2).Some?
    ensures Slices(text, size, start, turns)
      == Some([text[start..|text| - 1]] + ([""] + Slices(text, size, size - 1, turns - 2).value))
  {
    SlicesOfTheJump(text, size, start);
    hide Cut, Slice, Slices;
    AfterTheJump(text, size);
    OneTurn(text, size, start, turns);
    OneTurn(text, size, -1, turns - 1);
  }

  lemma JumpParts(first: string, rest: seq<string>, size: nat)
    requires AllFit(rest, size)
    ensures Concat([first] + ([""] + rest)) == first + Concat(rest)
    ensures |Trim(first)| <= size ==> TrimmedFit([first] + ([""] + rest), size)
  {
    hide Concat, Trim;
    ConcatMore("", rest);
    ConcatMore(first, [""] + rest);
    ShortPartsFit(rest, size);
    TrimIsTrimmed("");
  }

  lemma SlicesOfTheJump(text: string, size: nat, start: nat)
    requires 1 <= size < |text| && start < |text|
    ensures Slice(text, start, -1) == text[start..|text| - 1] && Slice(text, -1, size - 1) == ""
  {
  }

  lemma JumpFits(text: string, size: nat, start: nat)
    requires 1 <= size < |text| && start < |text| && Visible(text[size - 1..|text| - 1]) == ""
    ensures |Trim(text[start..|text| - 1])| <= size
  {
    hide Visible, Trim;
    var blank := text[size - 1..|text| - 1];
    if start < size {
      assert text[start..|text| - 1] == text[start..size - 1] + blank;
      BlankTailIsTrimmed(text[start..size - 1], blank);
    } else {
      var skipped, tail := text[size - 1..start], text[start..|text| - 1];
      assert blank == skipped + tail && "" + tail == tail;
      VisibleConcat(skipped, tail);
      BlankTailIsTrimmed("", tail);
    }
  }

  // ----- exactly when -----

  lemma LoopEndsExactlyWhen(text: string, size: nat)
    requires 1 <= size < |text|
    ensures (exists turns: nat :: Chunks(text, size, turns).Some?)
      <==> Advances(text, size, 0) || (Jumps(text, size, 0) && Advances(text, size, size - 1))
  {
    hide Slices, Advances, Jumps;
    if turns: nat :| Chunks(text, size, turns).Some? {
      EndsOnlySo(text, size, 0, turns);
    }
    var enough := 2 * |text| + 1;
    if Advances(text, size, 0) {
      AdvancingCovers(text, size, 0, enough);
      assert Chunks(text, size, enough).Some?;
    } else if Jumps(text, size, 0) && Advances(text, size, size - 1) {
      JumpingEnds(text, size, 0, enough);
      assert Chunks(text, size, enough).Some?;
    }
  }

  /** The loop ends within so many turns and keeps its promise. */
  predicate IsProper(text: string, size: nat, turns: nat)
    requires size >= 1
  {
    var r := Chunks(text, size, turns);
    r.Some? && AreChunks(r.value, size) && Visible(Concat(r.value)) == Visible(text)
  }

  /** After a jump the visible text is repeated from size - 1 to the last character: all is well only if that is
      blank. */
  lemma ProperExactlyWhen(text: string, size: nat)
    requires 1 <= size < |text|
    ensures (exists turns: nat :: IsProper(text, size, turns))
      <==> Advances(text, size, 0)
           || (Jumps(text, size, 0) && Advances(text, size, size - 1) && Visible(text[size - 1..|text| - 1]) == "")
  {
    hide Slices, Advances, Jumps, Visible, Concat, Kept, AreChunks, Trim;
    var enough := 2 * |text| + 1;
    if turns: nat :| IsProper(text, size, turns) {
      EndsOnlySo(text, size, 0, turns);
      if !Advances(text, size, 0) {
        JumpingEnds(text, size, 0, enough);
        SlicesAgree(text, size, 0, turns, if turns < enough then enough else turns);
        JumpingEnds(text, size, 0, if turns < enough then enough else turns);
        AfterOneJump(text, size, Slices(text, size, 0, turns).value);
      }
    }
    if Advances(text, size, 0) {
      AdvancingGivesChunks(text, size, enough);
      assert IsProper(text, size, enough);
    } else if Jumps(text, size, 0) && Advances(text, size, size - 1) && Visible(text[size - 1..|text| - 1]) == "" {
      JumpingEnds(text, size, 0, enough);
      AfterOneJump(text, size, Slices(text, size, 0, enough).value);
      assert IsProper(text, size, enough);
    }
  }

  lemma AfterOneJump(text: string, size: nat, raw: seq<string>)
    requires 1 <= size < |text| && Concat(raw) == text[0..|text| - 1] + text[size - 1..]
    ensures Visible(Concat(Kept(Stripped(raw)))) == Visible(text) <==> Visible(text[size - 1..|text| - 1]) == ""
    ensures TrimmedFit(raw, size) ==> AreChunks(Kept(Stripped(raw)), size)
  {
    hide Visible, Concat, Kept, Trim, AreChunks;
    var front, last, again := text[0..|text| - 1], text[|text| - 1..], text[size - 1..|text| - 1];
    KeptIsVisible(raw, size);
    assert text == front + last && text[size - 1..] == again + last;
    VisibleConcat(front, last);
    VisibleConcat(again, last);
    VisibleConcat(front, again + last);
    Assoc(Visible(front), Visible(again), Visible(last));
    SameWithout(Visible(front), Visible(again), Visible(last));
  }

  lemma SameWithout(a: string, b: string, c: string)
    ensures a + b + c == a + c <==> b == ""
  {
    if b == "" {
      assert a + b == a;
    } else {
      assert |a + b + c| > |a + c|;
    }
  }

  // ----- texts on which it goes wrong, for every size -----

  /** Text without stars and line breaks. */
  predicate IsOrdinary(s: string) {
    '*' !in s && '\n' !in s
  }

  lemma {:induction false} OnePair(pre: string, post: string)
    requires '*' !in pre && '*' !in post
    ensures Stars(pre + "**" + post) == 1
  {
    var s := pre + "**" + post;
    if pre == "" {
      assert s[2..] == post;
      NoStarsToCount(post);
    } else {
      assert s[1..] == pre[1..] + "**" + post;
      OnePair(pre[1..], post);
    }
  }

  /** A pair that opens in a piece without line breaks and does not close in it makes the loop jump. */
  lemma OpenPairJumps(text: string, size: nat, start: nat, pre: string, post: string)
    requires size >= 2 && start + size <= |text| && text[start..start + size] == pre + "**" + post
    requires IsOrdinary(pre) && IsOrdinary(post)
    ensures Cut(text, size, start) == -1
  {
    hide Stars, Cut, Want;
    OnePair(pre, post);
    var e := start + size;
    var piece := text[start..e];
    assert forall k :: start <= k < e ==> text[k] == piece[k - start];
    assert forall c :: c in piece ==> c in pre || c == '*' || c in post;
    NoBreak(text, start, e);
    NoBreak(text, start, e - 1);
    CutIs(text, size, start, e, -1);
  }

  lemma {:induction false} NoBreak(text: string, lo: nat, hi: nat)
    requires hi <= |text| && forall k :: lo <= k < hi ==> text[k] != '\n'
    ensures LastBreak(text, lo, hi) == -1
  {
  }

  lemma OnlyBreak(text: string, lo: nat, hi: nat, n: nat)
    requires lo <= n < hi <= |text| && text[n] == '\n' && forall k :: lo <= k < hi && k != n ==> text[k] != '\n'
    ensures LastBreak(text, lo, hi) == n
  {
  }

  /** A whole piece, cut at its end, at its last line break, or by its pairs. */
  lemma CutIs(text: string, size: nat, start: nat, e: nat, k: int)
    requires size >= 1 && start + size <= |text| && start < e <= start + size
    requires var nl := LastBreak(text, start, start + size); e == if nl > start then nl else start + size
    requires k == LastBreak(text, start, e - 1)
    ensures Cut(text, size, start) == if Stars(text[start..e]) % 2 == 0 || k == 0 then e else k
  {
    hide Stars, LastBreak;
    assert Slice(text, start, e) == text[start..e];
    assert Want(text, size, start) == e;
  }

  /** A bold pair that opens right after the first line break and does not close within size characters: the loop
      never ends. */
  lemma StuckAtALineBreak(head: string, body: string, tail: string, size: nat, turns: nat)
    requires size >= 3 && 1 <= |head| < size && |body| >= size - 3 && IsOrdinary(head) && IsOrdinary(body)
    ensures Chunks(head + "\n**" + body + tail, size, turns) == None
  {
    var text, n := head + "\n**" + body + tail, |head|;
    StuckCuts(text, head, body, size);
    hide Cut, Slice, Slices;
    AtTheEnd(text, size, 0, turns);
    if turns > 0 {
      OneTurn(text, size, 0, turns);
      NeverEnds(text, size, n, turns - 1);
    }
  }

  lemma StuckCuts(text: string, head: string, body: string, size: nat)
    requires size >= 3 && 1 <= |head| < size && |body| >= size - 3 && IsOrdinary(head) && IsOrdinary(body)
    requires head + "\n**" + body <= text
    ensures Cut(text, size, 0) == |head| && Cut(text, size, |head|) == |head|
  {
    hide Stars, Cut, LastBreak;
    var n, e := |head|, |head| + size;
    var front := head + "\n**" + body;
    assert forall k :: 0 <= k < |front| ==> text[k] == front[k];
    assert forall k :: 0 <= k < e && k != n ==> front[k] in head || front[k] == '*' || front[k] in body;
    OnlyBreak(text, 0, size, n);
    OnlyBreak(text, n, e, n);
    OnlyBreak(text, n, e - 1, n);
    NoBreak(text, 0, n - 1);
    assert text[0..n] == head && text[n..e] == "\n" + "**" + body[..size - 3];
    NoStarsToCount(head);
    OnePair("\n", body[..size - 3]);
    CutIs(text, size, 0, n, -1);
    CutIs(text, size, n, e, n);
  }

  /** A bold pair that opens just after the first piece and does not close in time: the loop jumps back for ever. */
  lemma JumpsForEver(head: string, body: string, tail: string, size: nat, turns: nat)
    requires size >= 3 && |head| == size && |body| >= size - 2 && IsOrdinary(head) && IsOrdinary(body)
    ensures Chunks(head + "**" + body + tail, size, turns) == None
  {
    hide Chunks, Cut;
    var text := head + "**" + body + tail;
    FirstPieceIsPlain(text, head);
    OpenPairInside(head, "", body[..size - 2], body[size - 2..], tail, size);
    OpenPairInside(head[..size - 1], head[size - 1..], body[..size - 3], body[size - 3..], tail, size);
    assert head + "" == head == head[..size - 1] + head[size - 1..];
    assert body == body[..size - 2] + body[size - 2..] == body[..size - 3] + body[size - 3..];
    JumpsAgain(text, size, turns);
  }

  lemma OpenPairInside(x: string, pre: string, post: string, y: string, tail: string, size: nat)
    requires size >= 2 && |pre| + 2 + |post| == size && IsOrdinary(pre) && IsOrdinary(post)
    ensures Cut((x + pre) + "**" + (post + y) + tail, size, |x|) == -1
  {
    hide Cut, IsOrdinary;
    var text, piece := (x + pre) + "**" + (post + y) + tail, pre + "**" + post;
    assert text == x + piece + (y + tail);
    assert text[|x|..|x| + size] == piece;
    OpenPairJumps(text, size, |x|, pre, post);
  }

  lemma JumpsAgain(text: string, size: nat, turns: nat)
    requires 1 <= size < |text| && Cut(text, size, 0) == size
    requires Cut(text, size, size) == -1 == Cut(text, size, size - 1)
    ensures Chunks(text, size, turns) == None
  {
    hide Cut, Slices, Advances, Jumps;
    AdvancesStep(text, size, 0);
    AdvancesStep(text, size, size);
    AdvancesStep(text, size, size - 1);
    if Slices(text, size, 0, turns).Some? {
      EndsOnlySo(text, size, 0, turns);
    }
  }

  lemma FirstPieceIsPlain(text: string, head: string)
    requires IsOrdinary(head) && head != "" && head <= text
    ensures Cut(text, |head|, 0) == |head|
  {
    hide Stars;
    assert text[0..|head|] == head;
    assert forall k :: 0 <= k < |head| ==> text[k] == head[k];
    NoStarsToCount(head);
    assert Slice(text, 0, |head|) == head;
  }

  /** A text that opens with a pair and never closes it: the first chunk is all of it but its last character, whatever
      the size, and the other chunks repeat it from size - 1 on. */
  lemma JumpRepeatsText(body: string, size: nat, turns: nat)
    requires size >= 2 && |body| >= size - 1 && '*' !in body && (forall c :: c in body ==> !IsSpace(c))
    requires turns >= 2 * |body| + 5
    ensures var text := "**" + body;
      var r := Chunks(text, size, turns);
      && r.Some? && |r.value| >= 1 && r.value[0] == text[..|text| - 1]
      && Visible(Concat(r.value)) == text[..|text| - 1] + text[size - 1..]
  {
    hide Chunks, Visible, Concat;
    UnclosedPair("**" + body, body, size);
    JumpAtOnce("**" + body, size, turns);
  }

  lemma JumpAtOnce(text: string, size: nat, turns: nat)
    requires 1 <= size < |text| && turns >= 2 * |text| + 1 && forall c :: c in text ==> !IsSpace(c)
    requires Cut(text, size, 0) == -1 && Jumps(text, size, 0) && Advances(text, size, size - 1)
    ensures var r := Chunks(text, size, turns);
      && r.Some? && |r.value| >= 1 && r.value[0] == text[..|text| - 1]
      && Visible(Concat(r.value)) == text[..|text| - 1] + text[size - 1..]
  {
    hide Cut, Slices, Advances, Jumps, Concat, Kept, Stripped, IsSpace, IsTrimmed, Visible, TrimmedFit, AllFit;
    JumpingEnds(text, size, 0, turns);
    AdvancingCovers(text, size, size - 1, turns - 2);
    JumpTurns(text, size, 0, turns);
    var raw := Slices(text, size, 0, turns).value;
    KeptIsVisible(raw, size);
    VisibleTwice(text, |text| - 1, size - 1);
    FirstIsKept(raw, text[..|text| - 1]);
  }

  lemma VisibleTwice(text: string, i: nat, j: nat)
    requires 0 < i <= |text| && j <= |text| && forall c :: c in text ==> !IsSpace(c)
    ensures text[0..i] == text[..i] && IsTrimmed(text[..i])
    ensures Visible(text[..i] + text[j..]) == text[..i] + text[j..]
  {
    AllVisible(text[..i] + text[j..]);
  }

  lemma UnclosedPair(text: string, body: string, size: nat)
    requires size >= 2 && |body| >= size - 1 && '*' !in body && (forall c :: c in body ==> !IsSpace(c))
    requires text == "**" + body
    ensures Cut(text, size, 0) == -1 && Jumps(text, size, 0) && Advances(text, size, size - 1)
    ensures forall c :: c in text ==> !IsSpace(c)
  {
    hide Cut, Advances, Jumps, Stars;
    assert IsSpace('\n');
    assert text[0..size] == "" + "**" + body[..size - 2];
    OpenPairJumps(text, size, 0, "", body[..size - 2]);
    assert forall i :: 2 <= i < |text| ==> text[i] == body[i - 2];
    PlainTextAdvances(text, size, size - 1);
    JumpsStep(text, size, 0);
  }

  lemma FirstIsKept(raw: seq<string>, first: string)
    requires raw != [] && raw[0] == first != "" && IsTrimmed(first)
    ensures Kept(Stripped(raw)) != [] && Kept(Stripped(raw))[0] == first
  {
    hide Trim;
    TrimIsTrimmed(first);
  }

  lemma {:induction false} AllVisible(s: string)
    requires forall c :: c in s ==> !IsSpace(c)
    ensures Visible(s) == s
  {
    if s != "" {
      AllVisible(s[1..]);
      assert s == [s[0]] + s[1..];
    }
  }
}
