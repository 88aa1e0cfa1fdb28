/** Whether a pair of ** stays in one chunk. */
module ChunkingPairs {
  import opened Text
  import opened Chunking
  import opened ChunkingLoops

  predicate IsEven(s: string) {
    Stars(s) % 2 == 0
  }

  predicate AllEven(parts: seq<string>) {
    forall i :: 0 <= i < |parts| ==> IsEven(parts[i])
  }

  /** Markers are counted separately on both sides of a character that is not a star. */
  lemma {:induction false} StarsConcat(a: string, b: string)
    requires b == "" || b[0] != '*'
    ensures Stars(a + b) == Stars(a) + Stars(b)
    decreases |a|
  {
    if |a| == 0 {
      assert a + b == b;
    } else if |a| >= 2 && a[0] == '*' && a[1] == '*' {
      assert (a + b)[2..] == a[2..] + b;
      StarsConcat(a[2..], b);
    } else {
      assert (a + b)[1..] == a[1..] + b;
      StarsConcat(a[1..], b);
    }
  }

  lemma StarsSplit(text: string, i: nat, k: nat, j: nat)
    requires i <= k <= j <= |text| && (k == j || text[k] != '*')
    ensures Stars(text[i..j]) == Stars(text[i..k]) + Stars(text[k..j])
  {
    assert text[i..j] == text[i..k] + text[k..j];
    StarsConcat(text[i..k], text[k..j]);
  }

  // ----- one turn -----

  /** The last line break of a piece that is neither its first nor its last character. */
  predicate IsLastInside(text: string, start: nat, e: nat, k: nat) {
    start < k && k + 1 < e <= |text| && text[k] == '\n' && forall i :: k < i < e - 1 ==> text[i] != '\n'
  }

  /** The guard: the piece has an even number of **, or its last line break strictly inside cuts an odd rest off. */
  ghost predicate TurnKeepsPairs(text: string, size: nat, start: nat)
    requires size >= 1 && start < |text|
  {
    var e := Want(text, size, start);
    IsEven(text[start..e]) || (exists k: nat :: IsLastInside(text, start, e, k) && !IsEven(text[k..e]))
  }

  /** A turn moves forward by a slice with an even number of ** exactly under that guard. */
  lemma WhenASliceIsEven(text: string, size: nat, start: nat)
    requires size >= 1 && start < |text|
    ensures var e := Cut(text, size, start);
      e > start && IsEven(text[start..e]) <==> TurnKeepsPairs(text, size, start)
  {
    hide Stars;
    var e := Want(text, size, start);
    assert Slice(text, start, e) == text[start..e];
    var k := LastBreak(text, start, e - 1);
    if k > start {
      StarsSplit(text, start, k, e);
      assert IsLastInside(text, start, e, k);
    }
  }

  /** The guard holds at every turn from start on. */
  ghost predicate KeepsPairs(text: string, size: nat, start: nat)
    requires size >= 1 && start <= |text|
    decreases |text| - start
  {
    start == |text| || (TurnKeepsPairs(text, size, start) &&
      (Cut(text, size, start) > start ==> KeepsPairs(text, size, Cut(text, size, start))))
  }

  lemma {:induction false} EvenSlices(text: string, size: nat, start: nat, turns: nat)
    requires size >= 1 && start <= |text| && Advances(text, size, start) && turns >= |text| - start
    ensures var r := Slices(text, size, start, turns); r.Some? && (AllEven(r.value) <==> KeepsPairs(text, size, start))
    decreases |text| - start
  {
    hide Cut, Slices, Advances, IsEven, TurnKeepsPairs;
    AdvancesStep(text, size, start);
    if start == |text| {
      AtTheEnd(text, size, start, turns);
    } else {
      var e := Cut(text, size, start);
      CutIsBounded(text, size, start);
      OneTurn(text, size, start, turns);
      EvenSlices(text, size, e, turns - 1);
      WhenASliceIsEven(text, size, start);
      EvenMore(text[start..e], Slices(text, size, e, turns - 1).value);
    }
  }

  lemma EvenMore(piece: string, rest: seq<string>)
    ensures AllEven([piece] + rest) <==> IsEven(piece) && AllEven(rest)
  {
    hide IsEven;
    assert ([piece] + rest)[0] == piece;
    assert forall i :: 0 <= i < |rest| ==> ([piece] + rest)[i + 1] == rest[i];
  }

  lemma {:induction false} KeepingPairsAdvances(text: string, size: nat, start: nat)
    requires size >= 1 && start <= |text| && KeepsPairs(text, size, start)
    ensures Advances(text, size, start)
    decreases |text| - start
  {
    hide Cut, Advances, IsEven, TurnKeepsPairs;
    AdvancesStep(text, size, start);
    if start < |text| {
      WhenASliceIsEven(text, size, start);
      KeepingPairsAdvances(text, size, Cut(text, size, start));
    }
  }

  /** The loop ends with slices that make up the text and hold whole pairs if and only if the guard holds at every
      turn. */
  lemma PairsKeptExactlyWhen(text: string, size: nat)
    requires 1 <= size < |text|
    ensures (exists turns: nat :: Covers(text, size, turns) && AllEven(Slices(text, size, 0, turns).value))
      <==> KeepsPairs(text, size, 0)
  {
    hide Slices, Advances, KeepsPairs, AllEven, Concat;
    assert text[0..] == text;
    if turns: nat :| Covers(text, size, turns) && AllEven(Slices(text, size, 0, turns).value) {
      CoversOnlyIfAdvancing(text, size, 0, turns);
      var enough := turns + |text|;
      SlicesAgree(text, size, 0, turns, enough);
      EvenSlices(text, size, 0, enough);
    }
    if KeepsPairs(text, size, 0) {
      KeepingPairsAdvances(text, size, 0);
      AdvancingCovers(text, size, 0, |text|);
      EvenSlices(text, size, 0, |text|);
      assert Covers(text, size, |text|);
    }
  }

  // ----- texts whose pairs stay whole -----

  predicate IsLine(text: string, i: nat, j: nat) {
    && i <= j <= |text| && (i == 0 || text[i - 1] == '\n') && (j == |text| || text[j] == '\n')
    && '\n' !in text[i..j]
  }

  /** Every line is shorter than size and has an even number of **. */
  predicate HasWholeLines(text: string, size: nat) {
    forall i, j :: 0 <= i <= j <= |text| && IsLine(text, i, j) ==> j - i < size && IsEven(text[i..j])
  }

  /** Where a line may end, or the loop may stand. */
  predicate IsEdge(text: string, i: nat) {
    i <= |text| && (i == |text| || text[i] == '\n')
  }

  function LineEnd(text: string, i: nat): (j: nat)
    requires i <= |text|
    ensures i <= j && IsEdge(text, j) && '\n' !in text[i..j]
    decreases |text| - i
  {
    if IsEdge(text, i) then i else
    var j := LineEnd(text, i + 1);
    assert text[i..j] == [text[i]] + text[i + 1..j];
    j
  }

  /** Whole lines have an even number of ** together. */
  lemma {:induction false} LinesAreEven(text: string, size: nat, i: nat, e: nat)
    requires HasWholeLines(text, size) && i <= e && IsEdge(text, e) && (i == 0 || text[i - 1] == '\n')
    ensures IsEven(text[i..e])
    decreases e - i
  {
    hide Stars;
    var j := LineEnd(text, i);
    assert IsLine(text, i, j);
    assert forall k :: i <= k < j ==> text[k] == text[i..j][k - i];
    if j < e {
      StarsSplit(text, i, j, e);
      LineBreakIsNoStar(text, j, e);
      LinesAreEven(text, size, j + 1, e);
    }
  }

  lemma LineBreakIsNoStar(text: string, j: nat, e: nat)
    requires j < e <= |text| && text[j] == '\n'
    ensures Stars(text[j..e]) == Stars(text[j + 1..e])
  {
    assert text[j..e][1..] == text[j + 1..e];
  }

  /** From an edge, a turn moves forward to the next edge it can reach. */
  lemma TurnKeepsLines(text: string, size: nat, start: nat)
    requires size >= 1 && start < |text| && HasWholeLines(text, size) && (start == 0 || IsEdge(text, start))
    ensures var e := Cut(text, size, start);
      start < e <= |text| && IsEdge(text, e) && IsEven(text[start..e])
  {
    hide Stars, HasWholeLines;
    var e := Want(text, size, start);
    WantIsEdge(text, size, start);
    if start == 0 {
      LinesAreEven(text, size, 0, e);
    } else {
      LinesAreEven(text, size, start + 1, e);
      LineBreakIsNoStar(text, start, e);
    }
    assert Slice(text, start, e) == text[start..e];
  }

  lemma WantIsEdge(text: string, size: nat, start: nat)
    requires size >= 1 && start < |text| && HasWholeLines(text, size) && (start == 0 || IsEdge(text, start))
    ensures IsEdge(text, Want(text, size, start))
  {
    hide Stars;
    var first := if start == 0 && text[0] != '\n' then 0 else start + 1;
    var j := LineEnd(text, first);
    assert IsLine(text, first, j);
    assert j <= start + size;
    var end := if start + size < |text| then start + size else |text|;
    var nl := LastBreak(text, start, end);
    if nl <= start && end < |text| {
      assert forall k :: start < k < end ==> text[k] != '\n';
      assert j >= end;
    }
  }

  lemma {:induction false} WholeLinesAdvance(text: string, size: nat, start: nat, turns: nat)
    requires size >= 1 && start <= |text| && HasWholeLines(text, size) && (start == 0 || IsEdge(text, start))
    requires turns >= |text| - start
    ensures Advances(text, size, start)
    ensures var r := Slices(text, size, start, turns); r.Some? && AllEven(r.value)
    decreases |text| - start
  {
    hide Cut, Slices, Advances, HasWholeLines, IsEven;
    AdvancesStep(text, size, start);
    if start == |text| {
      AtTheEnd(text, size, start, turns);
    } else {
      TurnKeepsLines(text, size, start);
      CutIsBounded(text, size, start);
      OneTurn(text, size, start, turns);
      WholeLinesAdvance(text, size, Cut(text, size, start), turns - 1);
    }
  }

  lemma {:induction false} TrimLeftKeepsStars(s: string)
    ensures Stars(TrimLeft(s)) == Stars(s)
  {
    if s != "" && IsSpace(s[0]) {
      TrimLeftKeepsStars(s[1..]);
    }
  }

  lemma {:induction false} TrimRightKeepsStars(s: string)
    ensures Stars(TrimRight(s)) == Stars(s)
  {
    if s != "" && IsSpace(s[|s| - 1]) {
      var t, last := s[..|s| - 1], [s[|s| - 1]];
      TrimRightKeepsStars(t);
      assert s == t + last;
      StarsConcat(t, last);
    }
  }

  lemma {:induction false} KeptIsEven(raw: seq<string>)
    requires AllEven(raw)
    ensures AllEven(Kept(Stripped(raw)))
  {
    hide Trim, IsSpace, IsEven;
    if raw != [] {
      assert Stripped(raw)[1..] == Stripped(raw[1..]);
      KeptIsEven(raw[1..]);
      TrimKeepsEven(raw[0]);
    }
  }

  lemma TrimKeepsEven(s: string)
    ensures IsEven(Trim(s)) == IsEven(s)
  {
    TrimLeftKeepsStars(s);
    TrimRightKeepsStars(TrimLeft(s));
  }

  /** If every line is shorter than size and holds whole pairs, so does every chunk, and the chunks are all they
      should be. */
  lemma WholeLinesGiveWholePairs(text: string, size: nat, turns: nat)
    requires size >= 1 && turns >= |text| && HasWholeLines(text, size)
    ensures var r := Chunks(text, size, turns);
      && r.Some? && AllEven(r.value)
      && (|text| > size ==> AreChunks(r.value, size) && Visible(Concat(r.value)) == Visible(text))
  {
    hide Slices, Advances, HasWholeLines, IsEven, Kept, Stripped, Visible, Concat;
    if |text| > size {
      WholeLinesAdvance(text, size, 0, turns);
      KeptIsEven(Slices(text, size, 0, turns).value);
      AdvancingGivesChunks(text, size, turns);
    } else {
      LinesAreEven(text, size, 0, |text|);
      assert text[0..|text|] == text;
    }
  }

  // ----- texts whose pairs are broken, for every size -----

  /** A marker across the end of the first piece is itself cut in two, and the count does not see it. */
  lemma MarkerIsCut(head: string, tail: string, size: nat, turns: nat)
    requires size >= 1 && |head| == size - 1 && IsOrdinary(head)
    ensures var text := head + "**" + tail;
      && IsEven(text[..size]) && Cut(text, size, 0) == size
      && (var r := Slices(text, size, 0, turns); r.Some? ==> |r.value| >= 1 && r.value[0] == head + "*")
      && text[size] == '*'
  {
    var text := head + "**" + tail;
    hide Cut, Stars, Slices;
    assert text[0..size] == text[..size] == head + "*";
    assert forall k :: 0 <= k < size ==> text[k] == (head + "*")[k];
    NoStarsToCount(head + "*");
    NoBreak(text, 0, size);
    NoBreak(text, 0, size - 1);
    CutIs(text, size, 0, size, -1);
    FirstSlice(text, size, size, turns);
  }

  lemma FirstSlice(text: string, size: nat, e: nat, turns: nat)
    requires size >= 1 && text != "" && e <= |text| && Cut(text, size, 0) == e
    ensures var r := Slices(text, size, 0, turns); r.Some? ==> |r.value| >= 1 && r.value[0] == text[0..e]
  {
    hide Cut, Slices;
    AtTheEnd(text, size, 0, turns);
    if turns > 0 {
      OneTurn(text, size, 0, turns);
    }
  }

  /** A pair that is open at the last two line breaks of the first piece is cut at the first of them: moving back one
      line does not make the slice even. */
  lemma PairIsCutAtALineBreak(head: string, a: string, b: string, tail: string, size: nat, turns: nat)
    requires IsOrdinary(head) && IsOrdinary(a) && IsOrdinary(b) && b != ""
    requires var n := |head| + 2 + |a| + 1 + |b|;
      n < size && |tail| >= size - n && '\n' !in tail[..size - n - 1]
    ensures var text, first := head + "**" + a + "\n" + b + "\n" + tail, head + "**" + a;
      && Cut(text, size, 0) == |first| && text[..|first|] == first && Stars(first) == 1
      && (var r := Slices(text, size, 0, turns); r.Some? ==> |r.value| >= 1 && r.value[0] == first)
  {
    var text, first := head + "**" + a + "\n" + b + "\n" + tail, head + "**" + a;
    hide Cut, Stars, Slices;
    OnePair(head, a);
    TwoBreaks(text, first, b, tail, size);
    FirstSlice(text, size, |first|, turns);
  }

  lemma TwoBreaks(text: string, first: string, b: string, tail: string, size: nat)
    requires text == first + "\n" + b + "\n" + tail && '\n' !in first && IsOrdinary(b) && b != ""
    requires first != "" && Stars(first) == 1
    requires var n := |first| + 1 + |b|; n < size && |tail| >= size - n && '\n' !in tail[..size - n - 1]
    ensures Cut(text, size, 0) == |first| && text[0..|first|] == text[..|first|] == first
  {
    hide Cut, Stars, LastBreak;
    var p := |first|;
    var n := p + 1 + |b|;
    BreaksAre(text, first, b, tail, size);
    assert text[0..n] == first + ("\n" + b);
    StarsConcat(first, "\n" + b);
    NoStarsToCount("\n" + b);
    CutIs(text, size, 0, n, p);
  }

  lemma BreaksAre(text: string, first: string, b: string, tail: string, size: nat)
    requires text == first + "\n" + b + "\n" + tail && '\n' !in first && '\n' !in b && b != ""
    requires var n := |first| + 1 + |b|; n < size && |tail| >= size - n && '\n' !in tail[..size - n - 1]
    ensures var n := |first| + 1 + |b|;
      LastBreak(text, 0, size) == n && LastBreak(text, 0, n - 1) == |first|
  {
    hide LastBreak;
    var n := |first| + 1 + |b|;
    assert forall k :: |first| < k < n ==> text[k] == b[k - |first| - 1];
    assert forall k :: n < k < size ==> text[k] == tail[..size - n - 1][k - n - 1];
    OnlyLast(text, 0, size, n);
    OnlyLast(text, 0, n - 1, |first|);
  }

  lemma OnlyLast(text: string, lo: nat, hi: nat, n: nat)
    requires lo <= n < hi <= |text| && text[n] == '\n' && forall k :: n < k < hi ==> text[k] != '\n'
    ensures LastBreak(text, lo, hi) == n
  {
  }
}
