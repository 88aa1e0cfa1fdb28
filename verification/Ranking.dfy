/** Python's stable sort with a negated key, and a slice from the front. */
module Ranking {

  /** x goes behind everything that ranks at least as high. */
  function Insert<T>(s: seq<T>, x: T, rank: T -> int): (r: seq<T>)
    ensures |r| == |s| + 1
  {
    if s == [] || rank(s[0]) < rank(x) then [x] + s else [s[0]] + Insert(s[1..], x, rank)
  }

  function Ranked<T>(s: seq<T>, rank: T -> int): (r: seq<T>)
    ensures |r| == |s|
  {
    if s == [] then [] else Insert(Ranked(s[..|s| - 1], rank), s[|s| - 1], rank)
  }

  /** `s[:n]`, where a negative n counts from the end. */
  function Take<T>(s: seq<T>, n: int): (r: seq<T>)
    ensures r <= s
  {
    var k := if n < 0 then n + |s| else n;
    s[..if k < 0 then 0 else if k > |s| then |s| else k]
  }

  predicate IsDescending<T>(s: seq<T>, rank: T -> int) {
    forall i, j :: 0 <= i < j < |s| ==> rank(s[i]) >= rank(s[j])
  }

  /** The items with one rank, in order. */
  function Level<T>(s: seq<T>, rank: T -> int, k: int): seq<T> {
    if s == [] then [] else Level(s[..|s| - 1], rank, k) + (if rank(s[|s| - 1]) == k then [s[|s| - 1]] else [])
  }

  lemma LevelMore<T>(s: seq<T>, x: T, rank: T -> int, k: int)
    ensures Level(s + [x], rank, k) == Level(s, rank, k) + (if rank(x) == k then [x] else [])
  {
    assert (s + [x])[..|s|] == s;
  }

  lemma {:induction false} LevelConcat<T>(s: seq<T>, t: seq<T>, rank: T -> int, k: int)
    ensures Level(s + t, rank, k) == Level(s, rank, k) + Level(t, rank, k)
    decreases |t|
  {
    if t == [] {
      assert s + t == s;
    } else {
      var u, x := t[..|t| - 1], t[|t| - 1];
      assert t == u + [x] && s + t == s + u + [x];
      LevelConcat(s, u, rank, k);
      LevelMore(s + u, x, rank, k);
      LevelMore(u, x, rank, k);
    }
  }

  /** The place where x goes. */
  lemma {:induction false} InsertedAt<T>(s: seq<T>, x: T, rank: T -> int) returns (i: nat)
    requires IsDescending(s, rank)
    ensures i <= |s| && Insert(s, x, rank) == s[..i] + [x] + s[i..]
    ensures forall j :: 0 <= j < |s| ==> if j < i then rank(s[j]) >= rank(x) else rank(s[j]) < rank(x)
  {
    i := 0;
    if s != [] && rank(s[0]) >= rank(x) {
      i := InsertedAt(s[1..], x, rank);
      i := i + 1;
      assert s[..i] == [s[0]] + s[1..][..i - 1] && s[i..] == s[1..][i - 1..];
      assert forall j :: 1 <= j < |s| ==> s[j] == s[1..][j - 1];
    }
  }

  lemma {:induction false} LevelEmpty<T>(s: seq<T>, rank: T -> int, k: int)
    requires forall j :: 0 <= j < |s| ==> rank(s[j]) != k
    ensures Level(s, rank, k) == []
  {
    if s != [] {
      LevelEmpty(s[..|s| - 1], rank, k);
    }
  }

  lemma InsertIsDescending<T>(r: seq<T>, x: T, rank: T -> int)
    requires IsDescending(r, rank)
    ensures IsDescending(Insert(r, x, rank), rank)
  {
    hide Insert;
    var i := InsertedAt(r, x, rank);
    var t := Insert(r, x, rank);
    assert forall j :: 0 <= j < |t| ==> t[j] == if j < i then r[j] else if j == i then x else r[j - 1];
    forall a, b | 0 <= a < b < |t| ensures rank(t[a]) >= rank(t[b]) {
    }
  }

  lemma {:induction false} InsertMembers<T>(r: seq<T>, x: T, rank: T -> int)
    ensures forall y :: y in Insert(r, x, rank) <==> y in r || y == x
  {
    if r != [] {
      InsertMembers(r[1..], x, rank);
      assert r == [r[0]] + r[1..];
    }
  }

  lemma InsertKeepsLevel<T>(r: seq<T>, x: T, rank: T -> int, k: int)
    requires IsDescending(r, rank)
    ensures Level(Insert(r, x, rank), rank, k) == Level(r, rank, k) + (if rank(x) == k then [x] else [])
  {
    hide Insert, Level;
    var i := InsertedAt(r, x, rank);
    var front, back := r[..i], r[i..];
    assert r == front + back && front + [x] + back == Insert(r, x, rank);
    LevelConcat(front, back, rank, k);
    LevelConcat(front + [x], back, rank, k);
    LevelMore(front, x, rank, k);
    if rank(x) == k {
      LevelEmpty(back, rank, k);
    }
  }

  /** The result holds the same items, from the highest rank to the lowest, and equal ones in their old order. */
  lemma {:induction false} RankedIsStable<T>(s: seq<T>, rank: T -> int, k: int)
    ensures IsDescending(Ranked(s, rank), rank)
    ensures forall x :: x in Ranked(s, rank) <==> x in s
    ensures Level(Ranked(s, rank), rank, k) == Level(s, rank, k)
  {
    hide Insert, Level, IsDescending;
    if s == [] {
      NothingToRank(rank);
    } else {
      var before, x := s[..|s| - 1], s[|s| - 1];
      assert s == before + [x];
      RankedIsStable(before, rank, k);
      InsertIsDescending(Ranked(before, rank), x, rank);
      InsertMembers(Ranked(before, rank), x, rank);
      InsertKeepsLevel(Ranked(before, rank), x, rank, k);
      LevelMore(before, x, rank, k);
    }
  }

  lemma NothingToRank<T>(rank: T -> int)
    ensures Ranked([], rank) == [] && IsDescending([], rank)
  {
  }

  /** x stands before y at some places of s. */
  predicate IsBefore<T(==)>(s: seq<T>, x: T, y: T) {
    exists a, b :: 0 <= a < b < |s| && s[a] == x && s[b] == y
  }

  lemma StillBefore<T>(s: seq<T>, t: seq<T>, x: T, y: T)
    requires IsBefore(s, x, y)
    ensures IsBefore(s + t, x, y)
  {
    var a, b :| 0 <= a < b < |s| && s[a] == x && s[b] == y;
    assert (s + t)[a] == x && (s + t)[b] == y;
  }

  /** Of two that rank alike, the first was first before. */
  lemma {:induction false} RankedKeepsOrder<T>(s: seq<T>, rank: T -> int, i: nat, j: nat)
    requires i < j < |s| && rank(Ranked(s, rank)[i]) == rank(Ranked(s, rank)[j])
    ensures IsBefore(s, Ranked(s, rank)[i], Ranked(s, rank)[j])
  {
    hide Insert, IsBefore, IsDescending;
    var before, x := s[..|s| - 1], s[|s| - 1];
    assert s == before + [x];
    var r, t := Ranked(before, rank), Ranked(s, rank);
    var p := LastRanked(s, rank);
    if j == p {
      assert t[i] == r[i];
      LastIsBehind(before, x, t[i]);
    } else if i != p {
      RankedKeepsOrder(before, rank, if i < p then i else i - 1, if j < p then j else j - 1);
      StillBefore(before, [x], t[i], t[j]);
    }
  }

  lemma RankedMember<T>(s: seq<T>, rank: T -> int, x: T)
    requires x in Ranked(s, rank)
    ensures x in s
  {
    RankedIsStable(s, rank, 0);
  }

  /** t is r with x added at place p, behind all that rank at least as high. */
  predicate IsRankedInto<T(==)>(t: seq<T>, r: seq<T>, x: T, p: nat, rank: T -> int) {
    && p <= |r| && |t| == |r| + 1 && t[p] == x
    && (forall k :: 0 <= k < p ==> t[k] == r[k])
    && (forall k :: p < k < |t| ==> t[k] == r[k - 1])
    && (forall k :: p <= k < |r| ==> rank(r[k]) < rank(x))
  }

  lemma LastRanked<T>(s: seq<T>, rank: T -> int) returns (p: nat)
    requires s != []
    ensures IsRankedInto(Ranked(s, rank), Ranked(s[..|s| - 1], rank), s[|s| - 1], p, rank)
    ensures var r := Ranked(s[..|s| - 1], rank); forall k :: 0 <= k < |r| ==> r[k] in s[..|s| - 1]
  {
    hide Insert, IsDescending;
    var before := s[..|s| - 1];
    var r := Ranked(before, rank);
    RankedIsStable(before, rank, 0);
    p := InsertedAt(r, s[|s| - 1], rank);
    forall k | 0 <= k < |r| ensures r[k] in before {
      RankedMember(before, rank, r[k]);
    }
  }

  /** Sorting repeats nothing. */
  lemma {:induction false} RankedIsDistinct<T>(s: seq<T>, rank: T -> int, i: nat, j: nat)
    requires i < j < |s| && forall a, b :: 0 <= a < b < |s| ==> s[a] != s[b]
    ensures Ranked(s, rank)[i] != Ranked(s, rank)[j]
  {
    hide Insert;
    var before, x := s[..|s| - 1], s[|s| - 1];
    var r := Ranked(before, rank);
    var p := LastRanked(s, rank);
    if i != p && j != p {
      RankedIsDistinct(before, rank, if i < p then i else i - 1, if j < p then j else j - 1);
    } else {
      assert (if i == p then r[j - 1] else r[i]) in before;
    }
  }

  lemma LastIsBehind<T>(s: seq<T>, x: T, y: T)
    requires y in s
    ensures IsBefore(s + [x], y, x)
  {
    var a :| 0 <= a < |s| && s[a] == y;
    assert (s + [x])[a] == y && (s + [x])[|s|] == x;
  }

  /** What is taken from the front ranks at least as high as what is left. */
  lemma TakenAreHighest<T>(s: seq<T>, rank: T -> int, n: int, x: T, y: T)
    requires x in Take(Ranked(s, rank), n) && y in s && y !in Take(Ranked(s, rank), n)
    ensures x in s && rank(x) >= rank(y)
  {
    RankedIsStable(s, rank, 0);
    var r := Ranked(s, rank);
    var t := Take(r, n);
    var i :| 0 <= i < |t| && t[i] == x;
    var j :| 0 <= j < |r| && r[j] == y;
    assert forall k :: 0 <= k < |t| ==> t[k] == r[k];
  }

  lemma TakenAreRanked<T>(s: seq<T>, rank: T -> int, n: nat)
    ensures var t := Take(Ranked(s, rank), n);
      IsDescending(t, rank) && |t| == (if n < |s| then n else |s|) && forall x :: x in t ==> x in s
  {
    RankedIsStable(s, rank, 0);
    hide Ranked;
    var r := Ranked(s, rank);
    assert Take(r, n) == r[..if n < |s| then n else |s|];
  }
}
