/** Where a turn of the loop ends, told on the line breaks and the markers of its piece. */
module ChunkingTurns {
  import opened Chunking
  import opened ChunkingPairs
  import opened Text
  import opened Wrappers

  function Bound(text: string, size: nat, start: nat): nat {
    if start + size < |text| then start + size else |text|
  }

  /** No line break between lo and hi. */
  predicate IsUnbroken(text: string, lo: int, hi: int)
    requires 0 <= lo && hi <= |text|
  {
    forall i :: lo <= i < hi ==> text[i] != '\n'
  }

  /** e is the last line break after start, or the end of the piece if there is none; the last piece is no exception. */
  predicate IsPieceEnd(text: string, size: nat, start: nat, e: nat) {
    && start < e <= Bound(text, size, start)
    && (if e == Bound(text, size, start) then IsUnbroken(text, start + 1, e)
        else text[e] == '\n' && IsUnbroken(text, e + 1, Bound(text, size, start)))
  }

  /** There is always exactly one such place. */
  lemma PieceEnds(text: string, size: nat, start: nat) returns (e: nat)
    requires size >= 1 && start < |text|
    ensures IsPieceEnd(text, size, start, e)
    ensures forall other: nat :: IsPieceEnd(text, size, start, other) ==> other == e
  {
    var end := Bound(text, size, start);
    var nl := LastBreak(text, start, end);
    e := if nl > start then nl else end;
    forall other: nat | IsPieceEnd(text, size, start, other) ensures other == e {
      assert other < end ==> text[other] == '\n';
      assert e < end ==> text[e] == '\n';
    }
  }

  /** A turn ends at that place if there is an even number of ** before it. If not, it ends at the last line break
      that is followed by at least one more character of the piece, unless that is the first character of the text;
      without such a line break it goes to the last character of the text. */
  lemma WhereATurnEnds(text: string, size: nat, start: nat, e: nat)
    requires size >= 1 && start < |text| && IsPieceEnd(text, size, start, e)
    ensures IsEven(text[start..e]) ==> Cut(text, size, start) == e
    ensures !IsEven(text[start..e]) ==>
      && (forall k: nat :: start <= k && k + 1 < e && text[k] == '\n' && IsUnbroken(text, k + 1, e - 1) ==>
            Cut(text, size, start) == if k == 0 then e else k)
      && (IsUnbroken(text, start, e - 1) ==> Cut(text, size, start) == -1)
  {
    hide Stars;
    var e' := PieceEnds(text, size, start);
    var end := Bound(text, size, start);
    assert Want(text, size, start) == e by {
      var nl := LastBreak(text, start, end);
      assert IsPieceEnd(text, size, start, if nl > start then nl else end);
    }
    assert Slice(text, start, e) == text[start..e];
    var k' := LastBreak(text, start, e - 1);
    forall k: nat | start <= k && k + 1 < e && text[k] == '\n' && IsUnbroken(text, k + 1, e - 1) ensures k == k' {
    }
  }

  // ----- counting markers -----

  function Run(n: nat): string {
    seq(n, i => '*')
  }

  /** A run of n stars holds n / 2 markers: they do not overlap. */
  lemma {:induction false} StarsOfRun(n: nat)
    ensures Stars(Run(n)) == n / 2
  {
    if n >= 2 {
      assert Run(n)[2..] == Run(n - 2);
      StarsOfRun(n - 2);
    }
  }

  /** Runs are counted one by one: a character that is no star parts them. */
  lemma StarsOfRuns(n: nat, c: char, rest: string)
    requires c != '*'
    ensures Stars(Run(n) + [c] + rest) == n / 2 + Stars(rest)
  {
    StarsOfRun(n);
    StarsConcat(Run(n), [c] + rest);
    assert Run(n) + [c] + rest == Run(n) + ([c] + rest);
    assert ([c] + rest)[1..] == rest;
  }

  /** Every text that is not one run begins with a run and another character. */
  lemma {:induction false} RunsOf(s: string) returns (n: nat)
    ensures n <= |s| && s[..n] == Run(n) && (n < |s| ==> s[n] != '*')
  {
    n := 0;
    if s != "" && s[0] == '*' {
      n := RunsOf(s[1..]);
      n := n + 1;
      assert s[..n] == ['*'] + s[1..][..n - 1];
      assert Run(n) == ['*'] + Run(n - 1);
    }
  }

  // ----- the whole -----

  /** A text no longer than size is sent as it is. */
  lemma ShortTextIsOneChunk(text: string, size: nat, turns: nat)
    requires size >= 1 && |text| <= size
    ensures Chunks(text, size, turns) == Some([text])
  {
  }

  /** Slices are trimmed and dropped if blank, one by one and in order. */
  lemma ChunksOfSlices(raw: seq<string>, last: string)
    ensures Kept(Stripped([])) == []
    ensures Kept(Stripped(raw + [last]))
      == Kept(Stripped(raw)) + (if Visible(last) == "" then [] else [Trim(last)])
  {
    hide Trim, Visible;
    BlankIsTrimmedAway(last);
    assert Stripped(raw + [last]) == Stripped(raw) + [Trim(last)];
    KeptMore(Stripped(raw), Trim(last));
  }

  lemma {:induction false} KeptMore(parts: seq<string>, last: string)
    ensures Kept(parts + [last]) == Kept(parts) + (if last == "" then [] else [last])
  {
    if parts == [] {
      assert parts + [last] == [last] && [last][1..] == [];
    } else {
      KeptMore(parts[1..], last);
      assert (parts + [last])[1..] == parts[1..] + [last];
    }
  }
}
