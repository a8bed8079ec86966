/**
  The pagination driver `parsePage`, with the browser replaced by its inputs:
  the page control's option values and, for each value the control can be
  set to, the rows the listing then shows.
 */
module Pagination {
  import opened PageOptions
  import opened RowExtractor
  import opened Collector

  /** The extracted rows of the given pages, page after page. */
  function Visited(pages: seq<string>, site: string -> seq<RawRow>): seq<Row> {
    if pages == [] then []
    else Visited(pages[..|pages| - 1], site) + ExtractRows(site(pages[|pages| - 1]))
  }

  /** The collection one crawl of a listing builds: all visited rows, inserted in order into an empty collection. */
  function CrawlResult<R>(options: seq<string>, site: string -> seq<RawRow>, index: nat, mapRow: Row -> R): map<string, R> {
    InsertAll(map[], Visited(Plan(options), site), index, mapRow)
  }

  /**
    `parsePage`: reads the plan once, then for every page value in plan order
    parses the table into the one collection and reports `(page, |plan|)`.
   */
  method ParsePage<R>(options: seq<string>, site: string -> seq<RawRow>, mapRow: Row -> R, index: nat)
    returns (result: map<string, R>, progress: seq<(string, nat)>)
    ensures result == CrawlResult(options, site, index, mapRow)
    ensures |progress| == |Plan(options)|
    ensures forall i :: 0 <= i < |progress| ==> progress[i] == (Plan(options)[i], |Plan(options)|)
  {
    var choosePageSelectOptions := Plan(options);
    result, progress := VisitPages(choosePageSelectOptions, site, mapRow, index);
  }

  /** The `for (let currentPage of plan)` loop of `parsePage`, starting from an empty collection. */
  method VisitPages<R>(plan: seq<string>, site: string -> seq<RawRow>, mapRow: Row -> R, index: nat)
    returns (result: map<string, R>, progress: seq<(string, nat)>)
    ensures result == InsertAll(map[], Visited(plan, site), index, mapRow)
    ensures |progress| == |plan|
    ensures forall i :: 0 <= i < |plan| ==> progress[i] == (plan[i], |plan|)
  {
    result := map[];
    progress := [];
    for i := 0 to |plan|
      invariant result == InsertAll(map[], Visited(plan[..i], site), index, mapRow)
      invariant |progress| == i
      invariant forall j :: 0 <= j < i ==> progress[j] == (plan[j], |plan|)
    {
      var currentPage := plan[i];
      result := ParseTable(result, site(currentPage), index, mapRow);
      CrawlStep(plan, i, site, index, mapRow);
      progress := progress + [(currentPage, |plan|)];
    }
    assert plan[..|plan|] == plan;
  }

  lemma CrawlStep<R>(plan: seq<string>, i: nat, site: string -> seq<RawRow>, index: nat, mapRow: Row -> R)
    requires i < |plan|
    ensures InsertAll(map[], Visited(plan[..i + 1], site), index, mapRow)
         == InsertAll(InsertAll(map[], Visited(plan[..i], site), index, mapRow), ExtractRows(site(plan[i])), index, mapRow)
  {
    VisitedStep(plan, i, site);
    InsertAllAppend(map[], Visited(plan[..i], site), ExtractRows(site(plan[i])), index, mapRow);
  }

  lemma VisitedStep(pages: seq<string>, i: nat, site: string -> seq<RawRow>)
    requires i < |pages|
    ensures Visited(pages[..i + 1], site) == Visited(pages[..i], site) + ExtractRows(site(pages[i]))
  {
    assert pages[..i + 1][..i] == pages[..i];
  }

  /** Visiting `a` then `b` visits the rows of `a + b`. */
  lemma {:induction false} VisitedAppend(a: seq<string>, b: seq<string>, site: string -> seq<RawRow>)
    ensures Visited(a + b, site) == Visited(a, site) + Visited(b, site)
  {
    if b == [] {
      assert a + b == a;
    } else {
      var ab, init, last := a + b, b[..|b| - 1], ExtractRows(site(b[|b| - 1]));
      assert ab[..|ab| - 1] == a + init;
      assert ab[|ab| - 1] == b[|b| - 1];
      VisitedAppend(a, init, site);
      calc {
        Visited(ab, site);
        Visited(a + init, site) + last;
        (Visited(a, site) + Visited(init, site)) + last;
        Visited(a, site) + (Visited(init, site) + last);
        Visited(a, site) + Visited(b, site);
      }
    }
  }

  /** Across pages the collection only grows: no key disappears and no stored record changes. */
  lemma CrawlOnlyGrows<R>(plan: seq<string>, i: nat, j: nat, site: string -> seq<RawRow>, index: nat, mapRow: Row -> R)
    requires i <= j <= |plan|
    ensures Extends(InsertAll(map[], Visited(plan[..i], site), index, mapRow),
                    InsertAll(map[], Visited(plan[..j], site), index, mapRow))
  {
    assert plan[..j] == plan[..i] + plan[i..j];
    VisitedAppend(plan[..i], plan[i..j], site);
    InsertAllAppend(map[], Visited(plan[..i], site), Visited(plan[i..j], site), index, mapRow);
    InsertAllGrows(InsertAll(map[], Visited(plan[..i], site), index, mapRow), Visited(plan[i..j], site), index, mapRow);
  }

  /** The keys of consecutive runs of rows. */
  lemma {:induction false} KeysOfAppend(a: seq<Row>, b: seq<Row>, index: nat)
    ensures KeysOf(a + b, index) == KeysOf(a, index) + KeysOf(b, index)
  {
    if b == [] {
      assert a + b == a;
    } else {
      var ab := a + b;
      assert ab[..|ab| - 1] == a + b[..|b| - 1];
      assert ab[|ab| - 1] == b[|b| - 1];
      KeysOfAppend(a, b[..|b| - 1], index);
    }
  }

  /** Going back to a page already visited changes nothing: its keys are all taken. */
  lemma RevisitChangesNothing<R>(pages: seq<string>, k: nat, site: string -> seq<RawRow>, index: nat, mapRow: Row -> R)
    requires k < |pages|
    ensures InsertAll(map[], Visited(pages + [pages[k]], site), index, mapRow)
         == InsertAll(map[], Visited(pages, site), index, mapRow)
  {
    var page := ExtractRows(site(pages[k]));
    assert pages == pages[..k + 1] + pages[k + 1..];
    VisitedAppend(pages[..k + 1], pages[k + 1..], site);
    VisitedStep(pages, k, site);
    KeysOfAppend(Visited(pages[..k], site), page, index);
    KeysOfAppend(Visited(pages[..k + 1], site), Visited(pages[k + 1..], site), index);
    VisitedStep(pages + [pages[k]], |pages|, site);
    assert (pages + [pages[k]])[..|pages|] == pages;
    InsertAllAppend(map[], Visited(pages, site), page, index, mapRow);
    InsertAllGrows(map[], Visited(pages, site), index, mapRow);
    InsertAllPresent(InsertAll(map[], Visited(pages, site), index, mapRow), page, index, mapRow);
  }

  /**
    A listing of three pages with keys A, B / B, C / D: the collection holds
    A, B, C and D, and B keeps the record of its page-1 row.
   */
  lemma DuplicateAcrossPages<R>(plan: seq<string>, site: string -> seq<RawRow>, index: nat, mapRow: Row -> R,
                                a: Row, b1: Row, b2: Row, c: Row, d: Row)
    requires |plan| == 3
    requires Key(a, index) == "A" && Key(b1, index) == "B" && Key(b2, index) == "B"
    requires Key(c, index) == "C" && Key(d, index) == "D"
    requires ExtractRows(site(plan[0])) == [a, b1]
    requires ExtractRows(site(plan[1])) == [b2, c]
    requires ExtractRows(site(plan[2])) == [d]
    ensures InsertAll(map[], Visited(plan, site), index, mapRow).Keys == {"A", "B", "C", "D"}
    ensures InsertAll(map[], Visited(plan, site), index, mapRow)["B"] == mapRow(b1)
  {
    var rows := [a, b1, b2, c, d];
    assert Visited(plan, site) == rows by {
      VisitedThree(plan, site);
      assert [a, b1] + [b2, c] + [d] == rows;
    }
    DuplicateRows(rows, index, mapRow);
  }

  lemma VisitedThree(plan: seq<string>, site: string -> seq<RawRow>)
    requires |plan| == 3
    ensures Visited(plan, site) == ExtractRows(site(plan[0])) + ExtractRows(site(plan[1])) + ExtractRows(site(plan[2]))
  {
    var e0, e1, e2 := ExtractRows(site(plan[0])), ExtractRows(site(plan[1])), ExtractRows(site(plan[2]));
    assert Visited(plan[..0], site) == [] by { assert plan[..0] == []; }
    VisitedStep(plan, 0, site);
    assert Visited(plan[..1], site) == e0;
    VisitedStep(plan, 1, site);
    assert Visited(plan[..2], site) == e0 + e1;
    VisitedStep(plan, 2, site);
    assert plan[..3] == plan;
  }

  lemma DuplicateRows<R>(rows: seq<Row>, index: nat, mapRow: Row -> R)
    requires |rows| == 5
    requires Key(rows[0], index) == "A" && Key(rows[1], index) == "B" && Key(rows[2], index) == "B"
    requires Key(rows[3], index) == "C" && Key(rows[4], index) == "D"
    ensures InsertAll(map[], rows, index, mapRow).Keys == {"A", "B", "C", "D"}
    ensures InsertAll(map[], rows, index, mapRow)["B"] == mapRow(rows[1])
  {
    KeysOfFive(rows, index);
    InsertAllGrows(map[], rows, index, mapRow);
    FirstRowWins(map[], rows, index, mapRow, 1);
  }

  lemma KeysOfFive(rows: seq<Row>, index: nat)
    requires |rows| == 5
    ensures KeysOf(rows, index) == {Key(rows[0], index), Key(rows[1], index), Key(rows[2], index),
                                    Key(rows[3], index), Key(rows[4], index)}
  {
    var r4 := rows[..4];
    var r3 := r4[..3];
    var r2 := r3[..2];
    var r1 := r2[..1];
    assert r1[..0] == [];
    assert KeysOf(r1, index) == {Key(rows[0], index)};
    assert KeysOf(r2, index) == KeysOf(r1, index) + {Key(rows[1], index)};
    assert KeysOf(r3, index) == KeysOf(r2, index) + {Key(rows[2], index)};
    assert KeysOf(r4, index) == KeysOf(r3, index) + {Key(rows[3], index)};
  }
}
