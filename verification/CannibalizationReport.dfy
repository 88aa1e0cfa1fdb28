/** What is reported, told on the rows of the Search Console answer. */
module CannibalizationReport {
  import opened Cannibalization
  import opened Ranking

  predicate IsRowOf(r: Row, query: string) {
    |r.keys| >= 2 && r.keys[0] == query
  }

  predicate IsRowOfPage(r: Row, query: string, page: string) {
    |r.keys| >= 2 && r.keys[0] == query && r.keys[1] == page
  }

  /** Two rows show different pages for the query. */
  predicate HasTwoPages(rows: seq<Row>, query: string) {
    exists i, j :: 0 <= i < |rows| && 0 <= j < |rows|
                   && IsRowOf(rows[i], query) && IsRowOf(rows[j], query) && rows[i].keys[1] != rows[j].keys[1]
  }

  function Impressions(rows: seq<Row>, query: string): int {
    if rows == [] then 0 else
    (if IsRowOf(rows[0], query) then rows[0].impressions else 0) + Impressions(rows[1..], query)
  }

  function Clicks(rows: seq<Row>, query: string): int {
    if rows == [] then 0 else
    (if IsRowOf(rows[0], query) then rows[0].clicks else 0) + Clicks(rows[1..], query)
  }

  function PageImpressions(rows: seq<Row>, query: string, page: string): int {
    if rows == [] then 0 else
    (if IsRowOfPage(rows[0], query, page) then rows[0].impressions else 0) + PageImpressions(rows[1..], query, page)
  }

  function PageClicks(rows: seq<Row>, query: string, page: string): int {
    if rows == [] then 0 else
    (if IsRowOfPage(rows[0], query, page) then rows[0].clicks else 0) + PageClicks(rows[1..], query, page)
  }

  // ----- sums -----

  lemma {:induction false} SumConcat(a: seq<Row>, b: seq<Row>, part: Part)
    ensures Sum(a + b, part) == Add(Sum(a, part), Sum(b, part))
    decreases |b|
  {
    hide Sum, Share;
    if b == [] {
      assert a + b == a;
      SumNothing(part);
    } else {
      var c, r := b[..|b| - 1], b[|b| - 1];
      SumConcat(a, c, part);
      SumOneMore(a + c, r, part);
      SumOneMore(c, r, part);
      assert b == c + [r];
      assert a + b == a + c + [r];
    }
  }

  lemma SumNothing(part: Part)
    ensures Sum([], part) == ZERO
  {
  }

  lemma SumOfFirst(rows: seq<Row>, part: Part)
    requires rows != []
    ensures Sum(rows, part) == Add(Share(rows[0], part), Sum(rows[1..], part))
  {
    hide Sum, Share;
    assert rows == [rows[0]] + rows[1..];
    SumConcat([rows[0]], rows[1..], part);
    SumNothing(part);
    SumOneMore([], rows[0], part);
    assert [] + [rows[0]] == [rows[0]];
  }

  lemma {:induction false} SumsAre(rows: seq<Row>, query: string)
    ensures Sum(rows, OfQuery(query)) == Totals(Impressions(rows, query), Clicks(rows, query))
  {
    hide Sum;
    if rows == [] {
      SumNothing(OfQuery(query));
    } else {
      SumsAre(rows[1..], query);
      SumOfFirst(rows, OfQuery(query));
    }
  }

  lemma {:induction false} PageSumsAre(rows: seq<Row>, query: string, page: string)
    ensures Sum(rows, OfPage(query, page))
      == Totals(PageImpressions(rows, query, page), PageClicks(rows, query, page))
  {
    hide Sum;
    if rows == [] {
      SumNothing(OfPage(query, page));
    } else {
      PageSumsAre(rows[1..], query, page);
      SumOfFirst(rows, OfPage(query, page));
    }
  }

  // ----- what is reported -----

  lemma PagesOnRows(rows: seq<Row>, query: string)
    ensures HasTwoPages(rows, query) <==> |PagesOf(rows, query)| >= 2
    ensures HasTwoPages(rows, query) ==> query in Queries(rows)
    ensures forall p :: p in PagesOf(rows, query) <==> exists i :: 0 <= i < |rows| && IsRowOfPage(rows[i], query, p)
  {
    var pages := PagesOf(rows, query);
    if |pages| >= 2 {
      var p :| p in pages;
      assert |pages - {p}| >= 1;
      var q :| q in pages - {p};
      var x :| x in rows && Belongs(x, OfQuery(query)) && x.keys[1] == p;
      var y :| y in rows && Belongs(y, OfQuery(query)) && y.keys[1] == q;
      var i :| 0 <= i < |rows| && rows[i] == x;
      var j :| 0 <= j < |rows| && rows[j] == y;
      assert IsRowOf(rows[i], query) && IsRowOf(rows[j], query);
    }
    if HasTwoPages(rows, query) {
      var i, j :| 0 <= i < |rows| && 0 <= j < |rows|
                  && IsRowOf(rows[i], query) && IsRowOf(rows[j], query) && rows[i].keys[1] != rows[j].keys[1];
      assert {rows[i].keys[1], rows[j].keys[1]} <= pages;
      TwoMembers(pages, rows[i].keys[1], rows[j].keys[1]);
    }
  }

  lemma TwoMembers(s: set<string>, x: string, y: string)
    requires x in s && y in s && x != y
    ensures |s| >= 2
  {
    assert |s - {x} - {y}| == |s| - 2;
  }

  /** A query is reported only if two of its rows have different pages and its rows add up to enough impressions; and if
      they do, it is reported, or limit others with at least as many impressions are. */
  lemma ReportOnRows(rows: seq<Row>, minImpressions: int, limit: nat)
    ensures var out := Report(rows, minImpressions, limit);
      && |out| <= limit
      && (forall i, j :: 0 <= i < j < |out| ==>
            out[i].query != out[j].query && out[i].totals.impressions >= out[j].totals.impressions)
      && (forall f :: f in out ==>
            && HasTwoPages(rows, f.query) && f.totals.impressions >= minImpressions
            && f.totals == Totals(Impressions(rows, f.query), Clicks(rows, f.query)))
      && (forall q :: HasTwoPages(rows, q) && Impressions(rows, q) >= minImpressions ==>
            || (exists f :: f in out && f.query == q)
            || (|out| == limit && forall f :: f in out ==> f.totals.impressions >= Impressions(rows, q)))
  {
    hide Sum, Impressions, Clicks, HasTwoPages, Report, FindingOf, PagesOf, Queries;
    var out := Report(rows, minImpressions, limit);
    ReportIsTop(rows, minImpressions, limit);
    ReportIsDistinct(rows, minImpressions, limit);
    forall f | f in out
      ensures HasTwoPages(rows, f.query) && f.totals.impressions >= minImpressions
      ensures f.totals == Totals(Impressions(rows, f.query), Clicks(rows, f.query))
    {
      PagesOnRows(rows, f.query);
      SumsAre(rows, f.query);
      FindingIs(rows, f.query);
    }
    forall q | HasTwoPages(rows, q) && Impressions(rows, q) >= minImpressions
      ensures || (exists f :: f in out && f.query == q)
              || (|out| == limit && forall f :: f in out ==> f.totals.impressions >= Impressions(rows, q))
    {
      PagesOnRows(rows, q);
      SumsAre(rows, q);
      FindingIs(rows, q);
      assert Competes(rows, q, minImpressions) && q in Queries(rows);
    }
  }

  lemma FindingIs(rows: seq<Row>, q: string)
    ensures FindingOf(rows, q).query == q && FindingOf(rows, q).totals == Sum(rows, OfQuery(q))
  {
  }

  lemma ReportIsDistinct(rows: seq<Row>, minImpressions: int, limit: nat)
    ensures var out := Report(rows, minImpressions, limit);
      forall i, j :: 0 <= i < j < |out| ==> out[i].query != out[j].query
  {
    hide Ranked, Findings, FindingOf, Competes, QueryOrder;
    OrdersAre(rows);
    var fs := Findings(rows, QueryOrder(rows), minImpressions);
    FindingsAre(rows, QueryOrder(rows), minImpressions);
    RankedIsStable(fs, FindingRank, 0);
    var r, out := Ranked(fs, FindingRank), Report(rows, minImpressions, limit);
    forall i, j | 0 <= i < j < |out| ensures out[i].query != out[j].query {
      RankedIsDistinct(fs, FindingRank, i, j);
      assert r[i] in r && r[j] in r;
    }
  }

  // ----- ties -----

  /** Before every row of y there is one of x. */
  predicate IsSeenFirst(rows: seq<Row>, x: string, y: string) {
    forall b :: 0 <= b < |rows| && IsRowOf(rows[b], y) ==> exists a :: 0 <= a < b && IsRowOf(rows[a], x)
  }

  predicate IsPageSeenFirst(rows: seq<Row>, query: string, x: string, y: string) {
    forall b :: 0 <= b < |rows| && IsRowOfPage(rows[b], query, y) ==>
      exists a :: 0 <= a < b && IsRowOfPage(rows[a], query, x)
  }

  lemma {:induction false} QueriesInOrder(rows: seq<Row>, i: nat, j: nat)
    requires i < j < |QueryOrder(rows)|
    ensures IsSeenFirst(rows, QueryOrder(rows)[i], QueryOrder(rows)[j])
  {
    hide IsSeenFirst;
    var before, r := rows[..|rows| - 1], rows[|rows| - 1];
    assert rows == before + [r];
    OrdersAre(before);
    var order := QueryOrder(before);
    if j < |order| {
      QueriesInOrder(before, i, j);
      SeenOneMore(before, r, order[i], order[j]);
    } else {
      assert order[i] in Queries(before) && r.keys[0] !in Queries(before);
      NewQuery(before, r, order[i]);
    }
  }

  lemma SeenOneMore(rows: seq<Row>, r: Row, x: string, y: string)
    requires IsSeenFirst(rows, x, y) && y in Queries(rows)
    ensures IsSeenFirst(rows + [r], x, y)
  {
    var all := rows + [r];
    var s :| s in rows && IsRowOf(s, y);
    var c :| 0 <= c < |rows| && rows[c] == s;
    var a :| 0 <= a < c && IsRowOf(rows[a], x);
    assert all[a] == rows[a];
    forall b | 0 <= b < |all| && IsRowOf(all[b], y) ensures exists d :: 0 <= d < b && IsRowOf(all[d], x) {
      if b < |rows| {
        var d :| 0 <= d < b && IsRowOf(rows[d], x);
        assert all[d] == rows[d];
      } else {
        assert a < b && IsRowOf(all[a], x);
      }
    }
  }

  lemma NewQuery(rows: seq<Row>, r: Row, x: string)
    requires x in Queries(rows) && |r.keys| >= 2 && r.keys[0] !in Queries(rows)
    ensures IsSeenFirst(rows + [r], x, r.keys[0])
  {
    var all := rows + [r];
    var s :| s in rows && IsRowOf(s, x);
    var a :| 0 <= a < |rows| && rows[a] == s;
    assert all[a] == s;
    assert forall b :: 0 <= b < |rows| ==> all[b] in rows;
  }

  lemma {:induction false} FindingsInOrder(rows: seq<Row>, queries: seq<string>, minImpressions: int, i: nat, j: nat)
    requires i < j < |Findings(rows, queries, minImpressions)|
    ensures var fs := Findings(rows, queries, minImpressions);
      IsBefore(queries, fs[i].query, fs[j].query)
  {
    hide IsBefore, Competes, FindingOf;
    var before, q := queries[..|queries| - 1], queries[|queries| - 1];
    assert queries == before + [q];
    var fs := Findings(rows, before, minImpressions);
    if j < |fs| {
      FindingsInOrder(rows, before, minImpressions, i, j);
      StillBefore(before, [q], fs[i].query, fs[j].query);
    } else {
      FindingIs(rows, q);
      FindingsAreOf(rows, before, minImpressions, i);
      LastIsBehind(before, q, fs[i].query);
    }
  }

  lemma {:induction false} FindingsAreOf(rows: seq<Row>, queries: seq<string>, minImpressions: int, i: nat)
    requires i < |Findings(rows, queries, minImpressions)|
    ensures Findings(rows, queries, minImpressions)[i].query in queries
  {
    hide Competes, FindingOf;
    var before, q := queries[..|queries| - 1], queries[|queries| - 1];
    assert queries == before + [q];
    if i < |Findings(rows, before, minImpressions)| {
      FindingsAreOf(rows, before, minImpressions, i);
    } else {
      FindingIs(rows, q);
    }
  }

  /** Queries with equally many impressions are reported in the order of their first rows. */
  lemma TiesInOrder(rows: seq<Row>, minImpressions: int, limit: nat, i: nat, j: nat)
    requires var out := Report(rows, minImpressions, limit);
      i < j < |out| && out[i].totals.impressions == out[j].totals.impressions
    ensures var out := Report(rows, minImpressions, limit);
      IsSeenFirst(rows, out[i].query, out[j].query)
  {
    hide Ranked, Findings, QueryOrder, IsSeenFirst;
    var order := QueryOrder(rows);
    var fs := Findings(rows, order, minImpressions);
    var out := Report(rows, minImpressions, limit);
    RankedKeepsOrder(fs, FindingRank, i, j);
    var a, b :| 0 <= a < b < |fs| && fs[a] == out[i] && fs[b] == out[j];
    FindingsInOrder(rows, order, minImpressions, a, b);
    var c, d :| 0 <= c < d < |order| && order[c] == out[i].query && order[d] == out[j].query;
    QueriesInOrder(rows, c, d);
  }

  // ----- the pages of a finding -----

  lemma {:induction false} PagesInOrder(rows: seq<Row>, query: string, i: nat, j: nat)
    requires i < j < |PageOrder(rows, query)|
    ensures IsPageSeenFirst(rows, query, PageOrder(rows, query)[i], PageOrder(rows, query)[j])
  {
    hide IsPageSeenFirst;
    var before, r := rows[..|rows| - 1], rows[|rows| - 1];
    assert rows == before + [r];
    OrdersAre(before);
    var order := PageOrder(before, query);
    if j < |order| {
      PagesInOrder(before, query, i, j);
      PageSeenOneMore(before, r, query, order[i], order[j]);
    } else {
      assert order[i] in PagesOf(before, query) && r.keys[1] !in PagesOf(before, query);
      NewPage(before, r, query, order[i]);
    }
  }

  lemma PageSeenOneMore(rows: seq<Row>, r: Row, query: string, x: string, y: string)
    requires IsPageSeenFirst(rows, query, x, y) && y in PagesOf(rows, query)
    ensures IsPageSeenFirst(rows + [r], query, x, y)
  {
    var all := rows + [r];
    var s :| s in rows && IsRowOfPage(s, query, y);
    var c :| 0 <= c < |rows| && rows[c] == s;
    var a :| 0 <= a < c && IsRowOfPage(rows[a], query, x);
    assert all[a] == rows[a];
    forall b | 0 <= b < |all| && IsRowOfPage(all[b], query, y)
      ensures exists d :: 0 <= d < b && IsRowOfPage(all[d], query, x) {
      if b < |rows| {
        var d :| 0 <= d < b && IsRowOfPage(rows[d], query, x);
        assert all[d] == rows[d];
      } else {
        assert a < b && IsRowOfPage(all[a], query, x);
      }
    }
  }

  lemma NewPage(rows: seq<Row>, r: Row, query: string, x: string)
    requires x in PagesOf(rows, query) && IsRowOf(r, query) && r.keys[1] !in PagesOf(rows, query)
    ensures IsPageSeenFirst(rows + [r], query, x, r.keys[1])
  {
    var all := rows + [r];
    var s :| s in rows && IsRowOfPage(s, query, x);
    var a :| 0 <= a < |rows| && rows[a] == s;
    assert all[a] == s;
    assert forall b :: 0 <= b < |rows| ==> all[b] in rows;
  }

  lemma LinesOnRows(rows: seq<Row>, query: string, line: PageLine)
    requires line in FindingOf(rows, query).pages
    ensures exists i :: 0 <= i < |rows| && IsRowOfPage(rows[i], query, line.page)
    ensures line.totals == Totals(PageImpressions(rows, query, line.page), PageClicks(rows, query, line.page))
  {
    hide Sum, PagesOf, FindingOf, PageImpressions, PageClicks;
    FindingHasTopPages(rows, query);
    PagesOnRows(rows, query);
    PageSumsAre(rows, query, line.page);
  }

  lemma LinesInOrder(rows: seq<Row>, query: string, i: nat, j: nat)
    requires i < j < |FindingOf(rows, query).pages|
    ensures var lines := FindingOf(rows, query).pages;
      && lines[i].page != lines[j].page && lines[i].totals.impressions >= lines[j].totals.impressions
      && (lines[i].totals.impressions == lines[j].totals.impressions ==>
            IsPageSeenFirst(rows, query, lines[i].page, lines[j].page))
  {
    hide Ranked, PageLines, Sum, PagesOf, IsPageSeenFirst, IsBefore;
    var lines, all := FindingOf(rows, query).pages, PageLines(rows, query);
    FindingHasTopPages(rows, query);
    RankedIsStable(all, LineRank, 0);
    var r := Ranked(all, LineRank);
    assert lines[i] == r[i] && lines[j] == r[j] && r[i] in r && r[j] in r;
    LinesOfPages(rows, query);
    RankedIsDistinct(all, LineRank, i, j);
    if lines[i].totals.impressions == lines[j].totals.impressions {
      RankedKeepsOrder(all, LineRank, i, j);
      LinesSeenInOrder(rows, query, lines[i], lines[j]);
    }
  }

  lemma LinesOfPages(rows: seq<Row>, query: string)
    ensures var all := PageLines(rows, query);
      && (forall a, b :: 0 <= a < b < |all| ==> all[a] != all[b])
      && (forall x, y :: x in all && y in all && x != y ==> x.page != y.page)
  {
    hide PageOrder, Sum;
    OrdersAre(rows);
    var all, order := PageLines(rows, query), PageOrder(rows, query);
    assert forall a :: 0 <= a < |all| ==> all[a].page == order[a];
  }

  lemma LinesSeenInOrder(rows: seq<Row>, query: string, x: PageLine, y: PageLine)
    requires IsBefore(PageLines(rows, query), x, y)
    ensures IsPageSeenFirst(rows, query, x.page, y.page)
  {
    hide PageOrder, Sum, IsPageSeenFirst;
    var all := PageLines(rows, query);
    var a, b :| 0 <= a < b < |all| && all[a] == x && all[b] == y;
    PagesInOrder(rows, query, a, b);
  }

  lemma MissingLine(rows: seq<Row>, query: string, i: nat)
    requires i < |rows| && IsRowOf(rows[i], query)
    ensures var lines, page := FindingOf(rows, query).pages, rows[i].keys[1];
      || (exists line :: line in lines && line.page == page)
      || (|lines| == 4 && forall line :: line in lines ==>
            line.totals.impressions >= PageImpressions(rows, query, page))
  {
    hide Ranked, Sum, PageImpressions, PageClicks;
    var page := rows[i].keys[1];
    FindingHasTopPages(rows, query);
    PageSumsAre(rows, query, page);
    assert rows[i] in rows && page in PagesOf(rows, query);
    if |PagesOf(rows, query)| < 4 {
      LinesAre(rows, query);
      RankedIsStable(PageLines(rows, query), LineRank, 0);
      assert PageLine(page, Sum(rows, OfPage(query, page))) in FindingOf(rows, query).pages;
    }
  }

  /** A reported query lists pages of its rows with the sums of those rows: all, or four that no other page exceeds,
      from the most impressions to the least, and equal ones in the order of their first rows. */
  lemma PagesOnReport(rows: seq<Row>, query: string)
    ensures var lines := FindingOf(rows, query).pages;
      && |lines| <= 4
      && (forall line :: line in lines ==>
            && (exists i :: 0 <= i < |rows| && IsRowOfPage(rows[i], query, line.page))
            && line.totals == Totals(PageImpressions(rows, query, line.page), PageClicks(rows, query, line.page)))
      && (forall i, j :: 0 <= i < j < |lines| ==>
            && lines[i].page != lines[j].page && lines[i].totals.impressions >= lines[j].totals.impressions
            && (lines[i].totals.impressions == lines[j].totals.impressions ==>
                  IsPageSeenFirst(rows, query, lines[i].page, lines[j].page)))
      && (forall i :: 0 <= i < |rows| && IsRowOf(rows[i], query) ==>
            || (exists line :: line in lines && line.page == rows[i].keys[1])
            || (|lines| == 4 && forall line :: line in lines ==>
                  line.totals.impressions >= PageImpressions(rows, query, rows[i].keys[1])))
  {
    hide FindingOf, IsRowOfPage, PageImpressions, PageClicks, IsPageSeenFirst;
    var lines := FindingOf(rows, query).pages;
    FindingHasTopPages(rows, query);
    forall line | line in lines
      ensures exists i :: 0 <= i < |rows| && IsRowOfPage(rows[i], query, line.page)
      ensures line.totals == Totals(PageImpressions(rows, query, line.page), PageClicks(rows, query, line.page))
    {
      LinesOnRows(rows, query, line);
    }
    forall i, j | 0 <= i < j < |lines|
      ensures lines[i].page != lines[j].page && lines[i].totals.impressions >= lines[j].totals.impressions
      ensures lines[i].totals.impressions == lines[j].totals.impressions ==>
        IsPageSeenFirst(rows, query, lines[i].page, lines[j].page)
    {
      LinesInOrder(rows, query, i, j);
    }
    forall i | 0 <= i < |rows| && IsRowOf(rows[i], query)
      ensures || (exists line :: line in lines && line.page == rows[i].keys[1])
              || (|lines| == 4 && forall line :: line in lines ==>
                    line.totals.impressions >= PageImpressions(rows, query, rows[i].keys[1]))
    {
      MissingLine(rows, query, i);
    }
  }
}
