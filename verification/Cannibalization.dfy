/** Grouping Search Console rows by query and page, to find pages that compete for a query. */
module Cannibalization {
  import opened Ranking
  import opened Sequences

  /** A row of the report: its keys (query and page first) and its numbers. */
  datatype Row = Row(keys: seq<string>, impressions: int, clicks: int)

  datatype Totals = Totals(impressions: int, clicks: int)

  datatype Group = Group(totals: Totals, pages: map<string, Totals>)

  datatype PageLine = PageLine(page: string, totals: Totals)

  datatype Finding = Finding(query: string, totals: Totals, pages: seq<PageLine>)

  const ZERO := Totals(0, 0)

  function Add(a: Totals, b: Totals): Totals {
    Totals(a.impressions + b.impressions, a.clicks + b.clicks)
  }

  // ----- what the report says, row by row -----

  datatype Part = OfQuery(query: string) | OfPage(query: string, page: string)

  /** Rows with fewer than two keys belong to no part. */
  predicate Belongs(r: Row, part: Part) {
    |r.keys| >= 2 && r.keys[0] == part.query && (part.OfPage? ==> r.keys[1] == part.page)
  }

  function Share(r: Row, part: Part): Totals {
    if Belongs(r, part) then Totals(r.impressions, r.clicks) else ZERO
  }

  function Sum(rows: seq<Row>, part: Part): Totals {
    if rows == [] then ZERO else Add(Sum(rows[..|rows| - 1], part), Share(rows[|rows| - 1], part))
  }

  function Queries(rows: seq<Row>): set<string> {
    set r | r in rows && |r.keys| >= 2 :: r.keys[0]
  }

  function PagesOf(rows: seq<Row>, query: string): set<string> {
    set r | r in rows && Belongs(r, OfQuery(query)) :: r.keys[1]
  }

  function GroupOf(rows: seq<Row>, query: string): Group {
    Group(Sum(rows, OfQuery(query)), map page | page in PagesOf(rows, query) :: Sum(rows, OfPage(query, page)))
  }

  function Groups(rows: seq<Row>): map<string, Group> {
    map query | query in Queries(rows) :: GroupOf(rows, query)
  }

  /** The queries in the order of their first rows. */
  function QueryOrder(rows: seq<Row>): seq<string> {
    if rows == [] then [] else
    var before, r := QueryOrder(rows[..|rows| - 1]), rows[|rows| - 1];
    if |r.keys| >= 2 && r.keys[0] !in before then before + [r.keys[0]] else before
  }

  function PageOrder(rows: seq<Row>, query: string): seq<string> {
    if rows == [] then [] else
    var before, r := PageOrder(rows[..|rows| - 1], query), rows[|rows| - 1];
    if Belongs(r, OfQuery(query)) && r.keys[1] !in before then before + [r.keys[1]] else before
  }

  function PageLines(rows: seq<Row>, query: string): seq<PageLine> {
    seq(|PageOrder(rows, query)|, i requires 0 <= i < |PageOrder(rows, query)| =>
      PageLine(PageOrder(rows, query)[i], Sum(rows, OfPage(query, PageOrder(rows, query)[i]))))
  }

  function LineRank(line: PageLine): int {
    line.totals.impressions
  }

  function FindingRank(f: Finding): int {
    f.totals.impressions
  }

  predicate Competes(rows: seq<Row>, query: string, minImpressions: int) {
    |PagesOf(rows, query)| >= 2 && Sum(rows, OfQuery(query)).impressions >= minImpressions
  }

  function FindingOf(rows: seq<Row>, query: string): Finding {
    Finding(query, Sum(rows, OfQuery(query)), Take(Ranked(PageLines(rows, query), LineRank), 4))
  }

  function Findings(rows: seq<Row>, queries: seq<string>, minImpressions: int): seq<Finding> {
    if queries == [] then [] else
    var before, q := Findings(rows, queries[..|queries| - 1], minImpressions), queries[|queries| - 1];
    if Competes(rows, q, minImpressions) then before + [FindingOf(rows, q)] else before
  }

  function Report(rows: seq<Row>, minImpressions: int, limit: int): seq<Finding> {
    Take(Ranked(Findings(rows, QueryOrder(rows), minImpressions), FindingRank), limit)
  }

  // ----- the loops -----

  /** One row added to the dictionary of queries. */
  function Credit(groups: map<string, Group>, r: Row): map<string, Group> {
    if |r.keys| < 2 then groups else
    var query, page, t := r.keys[0], r.keys[1], Totals(r.impressions, r.clicks);
    var e := if query in groups then groups[query] else Group(ZERO, map[]);
    var p := if page in e.pages then e.pages[page] else ZERO;
    groups[query := Group(Add(e.totals, t), e.pages[page := Add(p, t)])]
  }

  method GroupRows(rows: seq<Row>)
    returns (byQuery: map<string, Group>, order: seq<string>, pageOrder: map<string, seq<string>>)
    ensures byQuery == Groups(rows) && order == QueryOrder(rows)
    ensures forall q :: q in byQuery ==> q in pageOrder && pageOrder[q] == PageOrder(rows, q)
  {
    hide Credit, Groups, QueryOrder, PageOrder, Belongs;
    byQuery, order, pageOrder := map[], [], map[];
    NoGroups();
    for i := 0 to |rows|
      invariant byQuery == Groups(rows[..i]) && order == QueryOrder(rows[..i])
      invariant forall q :: q in byQuery ==> q in pageOrder && pageOrder[q] == PageOrder(rows[..i], q)
    {
      var r := rows[i];
      GroupsOneMore(rows[..i], r);
      ghost var before := rows[..i];
      OrdersOneMore(before, r);
      assert rows[..i + 1] == before + [r];
      CreditIs(byQuery, r);
      if |r.keys| >= 2 {
        var query, page := r.keys[0], r.keys[1];
        var e, pages := Group(ZERO, map[]), [];
        PlacesOf(before, query);
        if query in byQuery {
          e, pages := byQuery[query], pageOrder[query];
        } else {
          order := order + [query];
        }
        var p := ZERO;
        if page in e.pages {
          p := e.pages[page];
        } else {
          pages := pages + [page];
        }
        p := Totals(p.impressions + r.impressions, p.clicks + r.clicks);
        var t := Totals(e.totals.impressions + r.impressions, e.totals.clicks + r.clicks);
        byQuery := byQuery[query := Group(t, e.pages[page := p])];
        pageOrder := pageOrder[query := pages];
      }
    }
    assert rows[..|rows|] == rows;
  }

  /** The dictionary has the queries and pages of the report, no others. */
  lemma GroupHas(rows: seq<Row>, q: string)
    ensures q in Groups(rows) <==> q in Queries(rows)
    ensures q in Groups(rows) ==> Groups(rows)[q] == GroupOf(rows, q) && GroupOf(rows, q).pages.Keys == PagesOf(rows, q)
    ensures q !in Groups(rows) ==> PagesOf(rows, q) == {}
  {
  }

  lemma {:induction false} OrdersAre(rows: seq<Row>)
    ensures Distinct(QueryOrder(rows)) && forall q :: q in QueryOrder(rows) <==> q in Queries(rows)
    ensures forall q :: Distinct(PageOrder(rows, q)) && forall p :: p in PageOrder(rows, q) <==> p in PagesOf(rows, q)
  {
    if rows != [] {
      var before, r := rows[..|rows| - 1], rows[|rows| - 1];
      assert rows == before + [r];
      OrdersAre(before);
      QueriesOneMore(before, r);
      forall q ensures Distinct(PageOrder(rows, q)) && forall p :: p in PageOrder(rows, q) <==> p in PagesOf(rows, q) {
        PagesOneMore(before, r, q);
      }
    }
  }

  lemma QueriesOneMore(rows: seq<Row>, r: Row)
    ensures Queries(rows + [r]) == Queries(rows) + (if |r.keys| >= 2 then {r.keys[0]} else {})
  {
    assert forall x :: x in rows + [r] <==> x in rows || x == r;
  }

  lemma OrdersOneMore(rows: seq<Row>, r: Row)
    ensures QueryOrder(rows + [r])
      == if |r.keys| >= 2 && r.keys[0] !in QueryOrder(rows) then QueryOrder(rows) + [r.keys[0]] else QueryOrder(rows)
    ensures forall q :: PageOrder(rows + [r], q) == PageOrderAfter(PageOrder(rows, q), r, q)
  {
    assert (rows + [r])[..|rows|] == rows;
  }

  function PageOrderAfter(pages: seq<string>, r: Row, query: string): seq<string> {
    if |r.keys| >= 2 && r.keys[0] == query && r.keys[1] !in pages then pages + [r.keys[1]] else pages
  }

  /** A query is in the dictionary exactly when it has its place in the order, and so are its pages. */
  lemma PlacesOf(rows: seq<Row>, q: string)
    ensures q in Groups(rows) <==> q in QueryOrder(rows)
    ensures q in Groups(rows) ==> forall p :: p in Groups(rows)[q].pages <==> p in PageOrder(rows, q)
    ensures q !in Groups(rows) ==> PageOrder(rows, q) == []
  {
    OrdersAre(rows);
    GroupHas(rows, q);
    if q !in Groups(rows) {
      DistinctCount(PageOrder(rows, q), PagesOf(rows, q));
    }
  }

  lemma CreditIs(groups: map<string, Group>, r: Row)
    ensures |r.keys| < 2 ==> Credit(groups, r) == groups
    ensures |r.keys| >= 2 ==>
      var e := if r.keys[0] in groups then groups[r.keys[0]] else Group(ZERO, map[]);
      var p := if r.keys[1] in e.pages then e.pages[r.keys[1]] else ZERO;
      Credit(groups, r) == groups[r.keys[0] := Group(
        Totals(e.totals.impressions + r.impressions, e.totals.clicks + r.clicks),
        e.pages[r.keys[1] := Totals(p.impressions + r.impressions, p.clicks + r.clicks)])]
  {
  }

  /** The report: what competes, ranked by impressions and cut. */
  method GscCannibalization(rows: seq<Row>, minImpressions: int, limit: int) returns (out: seq<Finding>)
    ensures out == Report(rows, minImpressions, limit)
  {
    hide Sum, PagesOf, Queries, Groups, Findings, PageLines, Ranked, Take, QueryOrder, PageOrder;
    var byQuery, order, pageOrder := GroupRows(rows);
    OrdersAre(rows);
    out := [];
    NoFindings(rows, minImpressions);
    for n := 0 to |order|
      invariant out == Findings(rows, order[..n], minImpressions)
    {
      var q := order[n];
      OneMoreQuery(rows, order[..n], q, minImpressions);
      assert order[..n + 1] == order[..n] + [q];
      GroupHas(rows, q);
      var e := byQuery[q];
      if |e.pages| >= 2 && e.totals.impressions >= minImpressions {
        var lines := LinesOf(rows, q, e, pageOrder[q]);
        out := out + [Finding(q, e.totals, Take(Ranked(lines, LineRank), 4))];
      }
    }
    assert order[..|order|] == order;
    out := Take(Ranked(out, FindingRank), limit);
  }

  /** `e["pages"].values()`. */
  method LinesOf(rows: seq<Row>, q: string, e: Group, pages: seq<string>) returns (lines: seq<PageLine>)
    requires e == GroupOf(rows, q) && pages == PageOrder(rows, q) && forall p :: p in pages <==> p in e.pages
    ensures lines == PageLines(rows, q)
  {
    lines := seq(|pages|, i requires 0 <= i < |pages| => PageLine(pages[i], e.pages[pages[i]]));
  }

  lemma NoFindings(rows: seq<Row>, minImpressions: int)
    ensures Findings(rows, [], minImpressions) == []
  {
  }

  lemma OneMoreQuery(rows: seq<Row>, queries: seq<string>, q: string, minImpressions: int)
    ensures Findings(rows, queries + [q], minImpressions)
      == if Competes(rows, q, minImpressions) then Findings(rows, queries, minImpressions) + [FindingOf(rows, q)]
         else Findings(rows, queries, minImpressions)
  {
    assert (queries + [q])[..|queries|] == queries;
  }

  lemma {:induction false} FindingsAre(rows: seq<Row>, queries: seq<string>, minImpressions: int)
    requires Distinct(queries)
    ensures var fs := Findings(rows, queries, minImpressions);
      && Distinct(fs) && (forall i, j :: 0 <= i < j < |fs| ==> fs[i].query != fs[j].query)
      && forall f :: f in fs <==>
           f.query in queries && Competes(rows, f.query, minImpressions) && f == FindingOf(rows, f.query)
  {
    hide Competes, FindingOf;
    if queries != [] {
      var before, q := queries[..|queries| - 1], queries[|queries| - 1];
      assert queries == before + [q];
      FindingsAre(rows, before, minImpressions);
      assert FindingOf(rows, q).query == q by { QueryOfFinding(rows, q); }
    }
  }

  lemma QueryOfFinding(rows: seq<Row>, q: string)
    ensures FindingOf(rows, q).query == q
  {
  }

  /** A query competes if and only if it has two or more distinct pages and enough impressions; every reported query
      does, with its sums, from the most impressions to the least; and one that competes is left out only for others
      that have at least as many impressions, when limit of them are reported. */
  lemma ReportIsTop(rows: seq<Row>, minImpressions: int, limit: nat)
    ensures var out := Report(rows, minImpressions, limit);
      && |out| <= limit && IsDescending(out, FindingRank)
      && (forall f :: f in out ==> f.query in Queries(rows) && Competes(rows, f.query, minImpressions)
                                   && f == FindingOf(rows, f.query))
      && (forall q, f ::
            q in Queries(rows) && Competes(rows, q, minImpressions) && FindingOf(rows, q) !in out && f in out ==>
            FindingRank(f) >= Sum(rows, OfQuery(q)).impressions)
      && (forall q :: q in Queries(rows) && Competes(rows, q, minImpressions) && FindingOf(rows, q) !in out ==>
           |out| == limit)
  {
    hide Competes, Findings, Ranked, Sum, Queries, QueryOrder, IsDescending;
    OrdersAre(rows);
    var fs := Findings(rows, QueryOrder(rows), minImpressions);
    FindingsAre(rows, QueryOrder(rows), minImpressions);
    TakenAreRanked(fs, FindingRank, limit);
    RankedIsStable(fs, FindingRank, 0);
    var out := Report(rows, minImpressions, limit);
    forall q, f | q in Queries(rows) && Competes(rows, q, minImpressions) && FindingOf(rows, q) !in out && f in out
      ensures FindingRank(f) >= Sum(rows, OfQuery(q)).impressions
    {
      QueryOfFinding(rows, q);
      TakenAreHighest(fs, FindingRank, limit, f, FindingOf(rows, q));
    }
    forall q | q in Queries(rows) && Competes(rows, q, minImpressions) && FindingOf(rows, q) !in out
      ensures |out| == limit {
      QueryOfFinding(rows, q);
      assert FindingOf(rows, q) in fs;
    }
  }

  /** A reported query lists its pages with their sums, from the most impressions to the least: all of them, or the four
      that no other page exceeds. */
  lemma FindingHasTopPages(rows: seq<Row>, q: string)
    ensures var lines := FindingOf(rows, q).pages;
      && |lines| == (if |PagesOf(rows, q)| < 4 then |PagesOf(rows, q)| else 4) && IsDescending(lines, LineRank)
      && (forall line :: line in lines ==>
           line.page in PagesOf(rows, q) && line.totals == Sum(rows, OfPage(q, line.page)))
      && (forall p, line :: p in PagesOf(rows, q) && line in lines && PageLine(p, Sum(rows, OfPage(q, p))) !in lines ==>
            LineRank(line) >= Sum(rows, OfPage(q, p)).impressions)
  {
    OrdersAre(rows);
    LinesAre(rows, q);
    hide Ranked, Sum, PagesOf, PageOrder, PageLines, IsDescending;
    var all := PageLines(rows, q);
    TakenAreRanked(all, LineRank, 4);
    var lines := FindingOf(rows, q).pages;
    forall p, line | p in PagesOf(rows, q) && line in lines && PageLine(p, Sum(rows, OfPage(q, p))) !in lines
      ensures LineRank(line) >= Sum(rows, OfPage(q, p)).impressions
    {
      TakenAreHighest(all, LineRank, 4, line, PageLine(p, Sum(rows, OfPage(q, p))));
    }
  }

  lemma LinesAre(rows: seq<Row>, q: string)
    ensures |PageLines(rows, q)| == |PagesOf(rows, q)|
    ensures forall line :: line in PageLines(rows, q) <==>
      line.page in PagesOf(rows, q) && line.totals == Sum(rows, OfPage(q, line.page))
  {
    OrdersAre(rows);
    hide Sum, PagesOf, PageOrder;
    var order := PageOrder(rows, q);
    DistinctCount(order, PagesOf(rows, q));
    forall p | p in PagesOf(rows, q) ensures PageLine(p, Sum(rows, OfPage(q, p))) in PageLines(rows, q) {
      var i :| 0 <= i < |order| && order[i] == p;
      assert PageLines(rows, q)[i] == PageLine(p, Sum(rows, OfPage(q, p)));
    }
  }

  lemma {:induction false} DistinctCount(s: seq<string>, members: set<string>)
    requires Distinct(s) && forall x :: x in s <==> x in members
    ensures |s| == |members|
    decreases |s|
  {
    if s == [] {
      assert members == {};
    } else {
      var before, last := s[..|s| - 1], s[|s| - 1];
      assert s == before + [last];
      DistinctCount(before, members - {last});
    }
  }

  lemma NoGroups()
    ensures Groups([]) == map[] && QueryOrder([]) == [] && forall q :: PageOrder([], q) == []
  {
  }

  /** Adding a row to the groups gives the groups of the longer report. */
  lemma GroupsOneMore(rows: seq<Row>, r: Row)
    ensures Groups(rows + [r]) == Credit(Groups(rows), r)
  {
    var all := rows + [r];
    assert all[..|rows|] == rows;
    forall q
      ensures GroupOf(all, q)
        == if |r.keys| >= 2 && r.keys[0] == q then Credit(Groups(rows), r)[q] else GroupOf(rows, q)
    {
      GroupOneMore(rows, r, q);
    }
  }

  lemma GroupOneMore(rows: seq<Row>, r: Row, q: string)
    ensures GroupOf(rows + [r], q)
      == if |r.keys| >= 2 && r.keys[0] == q then Credit(Groups(rows), r)[q] else GroupOf(rows, q)
  {
    if Belongs(r, OfQuery(q)) {
      MoreForQuery(rows, r, q);
      NoGroup(rows, q);
      hide GroupOf;
      CreditIs(Groups(rows), r);
    } else {
      NothingForQuery(rows, r, q);
    }
  }

  lemma MoreForQuery(rows: seq<Row>, r: Row, q: string)
    requires Belongs(r, OfQuery(q))
    ensures var e, page := GroupOf(rows, q), r.keys[1];
      var p := if page in e.pages then e.pages[page] else ZERO;
      GroupOf(rows + [r], q) == Group(Add(e.totals, Totals(r.impressions, r.clicks)),
                                      e.pages[page := Add(p, Totals(r.impressions, r.clicks))])
  {
    hide Sum, PagesOf, GroupOf;
    var all, page, t := rows + [r], r.keys[1], Totals(r.impressions, r.clicks);
    GroupIs(rows, q);
    GroupIs(all, q);
    PagesOneMore(rows, r, q);
    SumOneMore(rows, r, OfQuery(q));
    var pages := GroupOf(rows, q).pages;
    NoPageNoSum(rows, q, page);
    forall x | x in GroupOf(all, q).pages
      ensures GroupOf(all, q).pages[x] == pages[page := Add(if page in pages then pages[page] else ZERO, t)][x]
    {
      SumOneMore(rows, r, OfPage(q, x));
    }
  }

  lemma GroupIs(rows: seq<Row>, q: string)
    ensures var g := GroupOf(rows, q);
      g.totals == Sum(rows, OfQuery(q)) && g.pages.Keys == PagesOf(rows, q)
      && forall x :: x in g.pages ==> g.pages[x] == Sum(rows, OfPage(q, x))
  {
  }

  lemma NoPageNoSum(rows: seq<Row>, q: string, page: string)
    ensures page !in PagesOf(rows, q) ==> Sum(rows, OfPage(q, page)) == ZERO
  {
    NothingToSum(rows, OfPage(q, page));
  }

  lemma NothingForQuery(rows: seq<Row>, r: Row, q: string)
    requires !Belongs(r, OfQuery(q))
    ensures GroupOf(rows + [r], q) == GroupOf(rows, q)
  {
    PagesOneMore(rows, r, q);
    SumOneMore(rows, r, OfQuery(q));
    hide Sum, PagesOf;
    forall x | x in PagesOf(rows, q) ensures Sum(rows + [r], OfPage(q, x)) == Sum(rows, OfPage(q, x)) {
      SumOneMore(rows, r, OfPage(q, x));
    }
  }

  lemma NoGroup(rows: seq<Row>, q: string)
    ensures q !in Queries(rows) ==> GroupOf(rows, q) == Group(ZERO, map[])
  {
    NothingToSum(rows, OfQuery(q));
  }

  lemma PagesOneMore(rows: seq<Row>, r: Row, q: string)
    ensures PagesOf(rows + [r], q) == PagesOf(rows, q) + (if Belongs(r, OfQuery(q)) then {r.keys[1]} else {})
  {
    var all := rows + [r];
    assert forall x :: x in all <==> x in rows || x == r;
  }

  lemma SumOneMore(rows: seq<Row>, r: Row, part: Part)
    ensures Sum(rows + [r], part) == Add(Sum(rows, part), Share(r, part))
  {
    assert (rows + [r])[..|rows|] == rows;
  }

  lemma {:induction false} NothingToSum(rows: seq<Row>, part: Part)
    ensures (forall r :: r in rows ==> !Belongs(r, part)) ==> Sum(rows, part) == ZERO
  {
    if rows != [] {
      NothingToSum(rows[..|rows| - 1], part);
    }
  }

  // ----- totals are conserved, in any order -----

  ghost function Total(m: map<string, Totals>): Totals {
    if m == map[] then ZERO else
    var k :| k in m;
    Add(m[k], Total(m - {k}))
  }

  lemma Picked(m: map<string, Totals>) returns (k: string)
    requires m != map[]
    ensures k in m && Total(m) == Add(m[k], Total(m - {k}))
  {
    k :| k in m && Total(m) == Add(m[k], Total(m - {k}));
  }

  lemma {:induction false} TotalWithout(m: map<string, Totals>, k: string)
    requires k in m
    ensures Total(m) == Add(m[k], Total(m - {k}))
    decreases |m|
  {
    hide Total;
    var j := Picked(m);
    if j != k {
      TotalWithout(m - {j}, k);
      TotalWithout(m - {k}, j);
      assert m - {j} - {k} == m - {k} - {j};
    } else {
      assert m - {j} == m - {k};
    }
  }

  lemma TotalWith(m: map<string, Totals>, k: string, v: Totals)
    ensures Total(m[k := v]) == Add(v, Total(m - {k}))
    ensures Total(m) == if k in m then Add(m[k], Total(m - {k})) else Total(m - {k})
  {
    hide Total;
    TotalWithout(m[k := v], k);
    assert m[k := v] - {k} == m - {k};
    if k in m {
      TotalWithout(m, k);
    } else {
      assert m - {k} == m;
    }
  }

  /** The numbers of a query are the sums over its pages. */
  lemma {:induction false} PagesAddUp(rows: seq<Row>, q: string)
    ensures Total(GroupOf(rows, q).pages) == Sum(rows, OfQuery(q)) == GroupOf(rows, q).totals
  {
    hide Total, PagesOf, Sum;
    if rows == [] {
      NoRows(q);
    } else {
      var before, r := rows[..|rows| - 1], rows[|rows| - 1];
      PagesAddUp(before, q);
      assert rows == before + [r];
      if Belongs(r, OfQuery(q)) {
        MoreForQuery(before, r, q);
        SumOneMore(before, r, OfQuery(q));
        var pages, page, t := GroupOf(before, q).pages, r.keys[1], Totals(r.impressions, r.clicks);
        TotalWith(pages, page, Add(if page in pages then pages[page] else ZERO, t));
      } else {
        NothingForQuery(before, r, q);
        SumOneMore(before, r, OfQuery(q));
      }
    }
  }

  lemma NoRows(q: string)
    ensures GroupOf([], q) == Group(ZERO, map[]) && Total(map[]) == Sum([], OfQuery(q)) == ZERO
  {
  }

  lemma {:induction false} SumWithout(rows: seq<Row>, i: nat, part: Part)
    requires i < |rows|
    ensures Sum(rows, part) == Add(Sum(rows[..i] + rows[i + 1..], part), Share(rows[i], part))
    decreases |rows|
  {
    hide Sum, Share;
    var before, last := rows[..|rows| - 1], rows[|rows| - 1];
    SumOneMore(before, last, part);
    assert rows == before + [last];
    if i == |rows| - 1 {
      assert rows[..i] + rows[i + 1..] == before;
    } else {
      SumWithout(before, i, part);
      SumOneMore(before[..i] + before[i + 1..], last, part);
      assert rows[..i] + rows[i + 1..] == before[..i] + before[i + 1..] + [last];
    }
  }

  lemma TakeOut(before: seq<Row>, r: Row, rows: seq<Row>, others: seq<Row>) returns (i: nat)
    requires rows == before + [r] && multiset(rows) == multiset(others)
    ensures i < |others| && others[i] == r && multiset(before) == multiset(others[..i] + others[i + 1..])
  {
    assert multiset(rows)[r] > 0;
    assert r in others;
    i :| 0 <= i < |others| && others[i] == r;
    assert others == others[..i] + [r] + others[i + 1..];
    assert multiset(others) == multiset(others[..i]) + multiset{r} + multiset(others[i + 1..]);
    assert multiset(rows) == multiset(before) + multiset{r};
    assert multiset(before) == multiset(others) - multiset{r};
  }

  lemma {:induction false} SumIsOrderFree(rows: seq<Row>, others: seq<Row>, part: Part)
    requires multiset(rows) == multiset(others)
    ensures Sum(rows, part) == Sum(others, part)
    decreases |rows|
  {
    if rows == [] {
      assert |others| == |multiset(others)| == 0;
    } else {
      var before, r := rows[..|rows| - 1], rows[|rows| - 1];
      var i := TakeOut(before, r, rows, others);
      var rest := others[..i] + others[i + 1..];
      SumIsOrderFree(before, rest, part);
      SumWithout(others, i, part);
    }
  }

  /** The groups do not depend on the order of the rows. */
  lemma GroupsAreOrderFree(rows: seq<Row>, others: seq<Row>)
    requires multiset(rows) == multiset(others)
    ensures Groups(rows) == Groups(others)
  {
    hide Sum;
    forall r ensures r in rows <==> r in others {
      assert r in rows <==> r in multiset(rows);
    }
    assert Queries(rows) == Queries(others);
    forall q ensures GroupOf(rows, q) == GroupOf(others, q) {
      assert PagesOf(rows, q) == PagesOf(others, q);
      SumIsOrderFree(rows, others, OfQuery(q));
      forall page ensures Sum(rows, OfPage(q, page)) == Sum(others, OfPage(q, page)) {
        SumIsOrderFree(rows, others, OfPage(q, page));
      }
      hide PagesOf;
      assert GroupOf(rows, q).pages == GroupOf(others, q).pages;
    }
  }
}
