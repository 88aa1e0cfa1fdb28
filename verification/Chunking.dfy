/** Cutting a long Telegram message into pieces at line breaks. */
module Chunking {
  import opened Text
  import opened Wrappers

  /** A Python slice bound as an index. */
  function Clip(text: string, i: int): (r: nat)
    ensures r <= |text|
    ensures 0 <= i <= |text| ==> r == i
  {
    if i < 0 then (if i + |text| < 0 then 0 else i + |text|) else if i > |text| then |text| else i
  }

  /** `text[lo:hi]` with Python's bounds. */
  function Slice(text: string, lo: int, hi: int): string {
    var a, b := Clip(text, lo), Clip(text, hi);
    if a <= b then text[a..b] else ""
  }

  /** The last line break in text[lo..hi], or -1. */
  function LastBreak(text: string, lo: nat, hi: nat): (i: int)
    requires hi <= |text|
    ensures i == -1 || (lo <= i < hi && text[i] == '\n')
    ensures forall k :: lo <= k < hi && i < k ==> text[k] != '\n'
    decreases hi
  {
    if hi <= lo then -1 else if text[hi - 1] == '\n' then hi - 1 else LastBreak(text, lo, hi - 1)
  }

  /** `s.count("**")`: occurrences that do not overlap, from the left. */
  function Stars(s: string): nat {
    if |s| < 2 then 0 else if s[0] == '*' && s[1] == '*' then 1 + Stars(s[2..]) else Stars(s[1..])
  }

  /** Where a turn of the loop first wants to end: size further on, or the last line break before that. */
  function Want(text: string, size: nat, start: int): (e: int)
    requires size >= 1 && -1 <= start < |text|
    ensures 0 <= start ==> start < e <= |text| && e - start <= size
  {
    var end := if start + size < |text| then start + size else |text|;
    var nl := LastBreak(text, Clip(text, start), Clip(text, end));
    if nl > start then nl else end
  }

  /** Where a turn of the loop ends; `or` takes its second argument only when the first is 0. */
  function Cut(text: string, size: nat, start: int): (e: int)
    requires size >= 1 && -1 <= start < |text|
    ensures -1 <= e <= |text|
    ensures 0 <= start && e >= 0 ==> start <= e && e - start <= size
  {
    var e := Want(text, size, start);
    if Stars(Slice(text, start, e)) % 2 == 0 then e else
    var k := LastBreak(text, Clip(text, start), Clip(text, e - 1));
    if k != 0 then k else e
  }

  /** What has been cut so far, then the rest. */
  function Before(raw: seq<string>, rest: Option<seq<string>>): Option<seq<string>> {
    match rest
    case None => None
    case Some(parts) => Some(raw + parts)
  }

  lemma BeforeMore(raw: seq<string>, piece: string, rest: Option<seq<string>>)
    ensures Before(raw + [piece], rest) == Before(raw, Before([piece], rest))
  {
    if rest.Some? {
      Assoc(raw, [piece], rest.value);
    }
  }

  lemma BeforeNothing(rest: Option<seq<string>>)
    ensures Before([], rest) == rest
  {
    if rest.Some? {
      assert [] + rest.value == rest.value;
    }
  }

  /** The raw slices of the loop from start on, or None if it has not ended after so many turns. */
  function Slices(text: string, size: nat, start: int, turns: nat): Option<seq<string>>
    requires size >= 1 && -1 <= start <= |text|
    decreases turns
  {
    if start == |text| then Some([])
    else if turns == 0 then None
    else
      var e := Cut(text, size, start);
      Before([Slice(text, start, e)], Slices(text, size, e, turns - 1))
  }

  lemma OneTurn(text: string, size: nat, start: int, turns: nat)
    requires size >= 1 && -1 <= start < |text| && turns > 0
    ensures var e := Cut(text, size, start);
      Slices(text, size, start, turns) == Before([Slice(text, start, e)], Slices(text, size, e, turns - 1))
  {
    hide Cut, Slice;
  }

  lemma AtTheEnd(text: string, size: nat, start: int, turns: nat)
    requires size >= 1 && -1 <= start <= |text|
    ensures Slices(text, size, |text|, turns) == Some([])
    ensures start < |text| ==> Slices(text, size, start, 0) == None
  {
  }

  function Concat(parts: seq<string>): string {
    if parts == [] then "" else parts[0] + Concat(parts[1..])
  }

  function Stripped(parts: seq<string>): (r: seq<string>)
    ensures |r| == |parts|
  {
    seq(|parts|, i requires 0 <= i < |parts| => Trim(parts[i]))
  }

  /** The parts that are not empty. */
  function Kept(parts: seq<string>): seq<string> {
    if parts == [] then [] else (if parts[0] == "" then [] else [parts[0]]) + Kept(parts[1..])
  }

  /** The chunks, or None while the loop is still turning. */
  function Chunks(text: string, size: nat, turns: nat): Option<seq<string>>
    requires size >= 1
  {
    if |text| <= size then Some([text]) else
    match Slices(text, size, 0, turns)
    case None => None
    case Some(parts) => Some(Kept(Stripped(parts)))
  }

  /** `_chunk`, watched for a number of turns of its loop: None if it has not ended by then. */
  method Chunk(text: string, size: nat, turns: nat) returns (r: Option<seq<string>>)
    requires size >= 1
    ensures r == Chunks(text, size, turns)
  {
    hide Slice, LastBreak, Stars, Trim, Clip, Slices;
    if |text| <= size {
      return Some([text]);
    }
    var parts: seq<string>, start: int, left := [], 0, turns;
    ghost var raw: seq<string> := [];
    BeforeNothing(Slices(text, size, 0, turns));
    while start < |text|
      invariant -1 <= start <= |text| && parts == Stripped(raw)
      invariant Slices(text, size, 0, turns) == Before(raw, Slices(text, size, start, left))
      decreases left
    {
      if left == 0 {
        AtTheEnd(text, size, start, left);
        return None;
      }
      var end := if start + size < |text| then start + size else |text|;
      var nl := LastBreak(text, Clip(text, start), Clip(text, end));
      if nl > start {
        end := nl;
      }
      var part := Slice(text, start, end);
      if Stars(part) % 2 != 0 {
        var k := LastBreak(text, Clip(text, start), Clip(text, end - 1));
        end := if k != 0 then k else end;
      }
      parts := parts + [Trim(Slice(text, start, end))];
      OneTurn(text, size, start, left);
      BeforeMore(raw, Slice(text, start, end), Slices(text, size, end, left - 1));
      raw := raw + [Slice(text, start, end)];
      start, left := end, left - 1;
    }
    assert raw + [] == raw;
    AtTheEnd(text, size, start, left);
    return Some(Kept(parts));
  }

  // ----- when the loop does its work -----

  /** From start on, every turn moves forward. */
  predicate Advances(text: string, size: nat, start: nat)
    requires size >= 1 && start <= |text|
    decreases |text| - start
  {
    start == |text| || (Cut(text, size, start) > start && Advances(text, size, Cut(text, size, start)))
  }

  /** The guard: a turn moves forward unless its piece has an odd number of ** and no line break strictly inside,
      where a text that begins with its only line break so far is cut as if the count were even. */
  lemma WhenATurnAdvances(text: string, size: nat, start: nat)
    requires size >= 1 && start < |text|
    ensures var e := Want(text, size, start);
      Cut(text, size, start) > start
      <==> (Stars(text[start..e]) % 2 == 0
            || (exists k :: start < k < e - 1 && text[k] == '\n')
            || (start == 0 && e > 1 && text[0] == '\n'))
  {
    hide Stars;
    var e := Want(text, size, start);
    assert Slice(text, start, e) == text[start..e];
    var k := LastBreak(text, start, e - 1);
    if k > start {
      assert start < k < e - 1 && text[k] == '\n';
    }
  }

  lemma AdvancesStep(text: string, size: nat, start: nat)
    requires size >= 1 && start <= |text|
    ensures start == |text| ==> Advances(text, size, start)
    ensures start < |text| && Cut(text, size, start) > start ==>
      Advances(text, size, start) == Advances(text, size, Cut(text, size, start))
    ensures start < |text| && Cut(text, size, start) <= start ==> !Advances(text, size, start)
  {
    hide Cut;
  }

  lemma CutIsBounded(text: string, size: nat, start: nat)
    requires size >= 1 && start < |text|
    ensures var e := Cut(text, size, start);
      e > start ==> e - start <= size && Slice(text, start, e) == text[start..e]
  {
  }

  lemma ConcatNothing()
    ensures Concat([]) == ""
  {
  }

  lemma ConcatMore(piece: string, rest: seq<string>)
    ensures Concat([piece] + rest) == piece + Concat(rest)
  {
    assert ([piece] + rest)[1..] == rest;
  }

  /** No part is empty or longer than size. */
  predicate AllFit(parts: seq<string>, size: nat) {
    forall i :: 0 <= i < |parts| ==> 0 < |parts[i]| <= size
  }

  lemma {:induction false} AdvancingCovers(text: string, size: nat, start: nat, turns: nat)
    requires size >= 1 && start <= |text| && Advances(text, size, start) && turns >= |text| - start
    ensures var r := Slices(text, size, start, turns);
      && r.Some? && Concat(r.value) == text[start..]
      && AllFit(r.value, size)
    decreases |text| - start
  {
    hide Advances, Slices, Concat, Slice, Cut;
    if start == |text| {
      ConcatNothing();
      AtTheEnd(text, size, start, turns);
    } else {
      var e := Cut(text, size, start);
      AdvancesStep(text, size, start);
      CutIsBounded(text, size, start);
      OneTurn(text, size, start, turns);
      AdvancingCovers(text, size, e, turns - 1);
      ConcatMore(text[start..e], Slices(text, size, e, turns - 1).value);
      assert text[start..e] + text[e..] == text[start..];
    }
  }

  /** However the loop gets to the end, its slices are at least as long as the text, and longer after a jump back. */
  lemma {:induction false} SlicesAreLongEnough(text: string, size: nat, start: int, turns: nat)
    requires 1 <= size < |text| && -1 <= start <= |text| && Slices(text, size, start, turns).Some?
    ensures var n := |Concat(Slices(text, size, start, turns).value)|;
      if start == -1 then n >= 2 else
      n >= |text| - start && (start < |text| && Cut(text, size, start) == -1 ==> n > |text| - start)
    decreases turns
  {
    hide Cut, Concat, Slices;
    AtTheEnd(text, size, start, turns);
    if start < |text| {
      var e := Cut(text, size, start);
      if start == -1 {
        AfterTheJump(text, size);
      }
      OneTurn(text, size, start, turns);
      SlicesAreLongEnough(text, size, e, turns - 1);
      ConcatMore(Slice(text, start, e), Slices(text, size, e, turns - 1).value);
    }
  }

  /** From -1 the loop takes an empty slice and goes on at size - 1. */
  lemma AfterTheJump(text: string, size: nat)
    requires 1 <= size < |text|
    ensures Cut(text, size, -1) == size - 1
  {
    assert Slice(text, -1, size - 1) == "";
  }

  lemma NoJump(text: string, size: nat, start: nat, turns: nat)
    requires 1 <= size < |text| && start < |text|
    requires var r := Slices(text, size, start, turns); r.Some? && Concat(r.value) == text[start..]
    ensures var e := Cut(text, size, start); start <= e <= |text| && Slice(text, start, e) == text[start..e]
  {
    hide Slices, Concat, Want;
    SlicesAreLongEnough(text, size, start, turns);
  }

  lemma RestOfCover(text: string, start: nat, e: nat, rest: string)
    requires start <= e <= |text| && text[start..e] + rest == text[start..]
    ensures rest == text[e..]
  {
    assert (text[start..e] + rest)[e - start..] == rest;
    assert text[start..][e - start..] == text[e..];
  }

  lemma {:induction false} CoversOnlyIfAdvancing(text: string, size: nat, start: nat, turns: nat)
    requires 1 <= size < |text| && start <= |text|
    requires var r := Slices(text, size, start, turns); r.Some? && Concat(r.value) == text[start..]
    ensures Advances(text, size, start)
    decreases turns
  {
    hide Advances, Concat, Cut, Slices, Slice;
    if start == |text| {
      AdvancesStep(text, size, start);
    } else {
      NoJump(text, size, start, turns);
      AtTheEnd(text, size, start, turns);
      var e := Cut(text, size, start);
      OneTurn(text, size, start, turns);
      var rest := Slices(text, size, e, turns - 1).value;
      ConcatMore(text[start..e], rest);
      RestOfCover(text, start, e, Concat(rest));
      CoversOnlyIfAdvancing(text, size, e, turns - 1);
      AdvancesStep(text, size, start);
    }
  }

  /** Within so many turns the loop ends, and its slices make up the text. */
  predicate Covers(text: string, size: nat, turns: nat)
    requires size >= 1
  {
    var r := Slices(text, size, 0, turns);
    r.Some? && Concat(r.value) == text
  }

  lemma CoversExactlyWhenAdvancing(text: string, size: nat)
    requires 1 <= size < |text|
    ensures (exists turns: nat :: Covers(text, size, turns)) <==> Advances(text, size, 0)
  {
    hide Advances, Slices, Concat;
    assert text[0..] == text;
    if turns: nat :| Covers(text, size, turns) {
      CoversOnlyIfAdvancing(text, size, 0, turns);
    }
    if Advances(text, size, 0) {
      AdvancingCovers(text, size, 0, |text|);
      assert Covers(text, size, |text|);
    }
  }

  /** A turn that stays where it is turns for ever. */
  lemma {:induction false} NeverEnds(text: string, size: nat, start: int, turns: nat)
    requires size >= 1 && -1 <= start < |text| && Cut(text, size, start) == start
    ensures Slices(text, size, start, turns) == None
    decreases turns
  {
    hide Cut;
    if turns > 0 {
      NeverEnds(text, size, start, turns - 1);
    }
  }

  // ----- what comes out -----

  predicate AreChunks(parts: seq<string>, size: nat) {
    forall i :: 0 <= i < |parts| ==> 0 < |parts[i]| <= size && IsTrimmed(parts[i])
  }

  /** No part is longer than size once it is trimmed. */
  predicate TrimmedFit(raw: seq<string>, size: nat) {
    forall i :: 0 <= i < |raw| ==> |Trim(raw[i])| <= size
  }

  lemma {:induction false} KeptIsVisible(raw: seq<string>, size: nat)
    ensures TrimmedFit(raw, size) ==> AreChunks(Kept(Stripped(raw)), size)
    ensures Visible(Concat(Kept(Stripped(raw)))) == Visible(Concat(raw))
  {
    hide Visible, Trim, IsTrimmed, IsSpace;
    if raw != [] {
      var first, rest := Trim(raw[0]), Kept(Stripped(raw[1..]));
      assert Stripped(raw)[1..] == Stripped(raw[1..]);
      KeptIsVisible(raw[1..], size);
      TrimIsTrimmed(raw[0]);
      VisibleConcat(raw[0], Concat(raw[1..]));
      if first == "" {
        VisibleNothing();
        assert Kept(Stripped(raw)) == rest;
      } else {
        assert Kept(Stripped(raw)) == [first] + rest;
        ConcatMore(first, rest);
        VisibleConcat(first, Concat(rest));
      }
    }
  }

  lemma ShortPartsFit(raw: seq<string>, size: nat)
    requires AllFit(raw, size)
    ensures TrimmedFit(raw, size)
  {
    hide Trim;
    forall i | 0 <= i < |raw| ensures |Trim(raw[i])| <= size {
      TrimIsTrimmed(raw[i]);
    }
  }

  lemma VisibleNothing()
    ensures Visible("") == ""
  {
  }

  /** When every turn moves forward, the loop ends within |text| turns; its chunks are nonempty, trimmed, at most size
      long, and keep every character that is not whitespace, in order. */
  lemma AdvancingGivesChunks(text: string, size: nat, turns: nat)
    requires 1 <= size < |text| && turns >= |text| && Advances(text, size, 0)
    ensures var r := Chunks(text, size, turns);
      r.Some? && AreChunks(r.value, size) && Visible(Concat(r.value)) == Visible(text)
  {
    hide Advances, Slices, Visible, Concat, Kept;
    AdvancingCovers(text, size, 0, turns);
    assert text[0..] == text;
    ShortPartsFit(Slices(text, size, 0, turns).value, size);
    KeptIsVisible(Slices(text, size, 0, turns).value, size);
  }

  predicate HasNoStars(text: string) {
    forall i :: 0 <= i < |text| - 1 ==> text[i] != '*' || text[i + 1] != '*'
  }

  lemma {:induction false} NoStarsToCount(s: string)
    requires HasNoStars(s)
    ensures Stars(s) == 0
  {
    if |s| >= 2 {
      assert forall i :: 0 <= i < |s[1..]| ==> s[1..][i] == s[i + 1];
      NoStarsToCount(s[1..]);
    }
  }

  lemma {:induction false} PlainTextAdvances(text: string, size: nat, start: nat)
    requires size >= 1 && start <= |text| && HasNoStars(text[start..])
    ensures Advances(text, size, start)
    decreases |text| - start
  {
    hide Advances, Want, LastBreak, Stars;
    AdvancesStep(text, size, start);
    if start < |text| {
      var e := Want(text, size, start);
      assert forall i :: 0 <= i < e - start ==> text[start..e][i] == text[start..][i];
      assert forall i :: 0 <= i < |text| - e ==> text[e..][i] == text[start..][i + e - start];
      NoStarsToCount(text[start..e]);
      assert Cut(text, size, start) == e;
      PlainTextAdvances(text, size, e);
    }
  }

  /** Any text without ** is chunked properly. */
  lemma PlainTextGivesChunks(text: string, size: nat, turns: nat)
    requires 1 <= size < |text| && turns >= |text| && HasNoStars(text)
    ensures var r := Chunks(text, size, turns);
      r.Some? && AreChunks(r.value, size) && Visible(Concat(r.value)) == Visible(text)
  {
    hide Chunks;
    assert text[0..] == text;
    PlainTextAdvances(text, size, 0);
    AdvancingGivesChunks(text, size, turns);
  }
}
