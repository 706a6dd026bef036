/** One entry of the compiled-in tool registry. */
module Registry {
  datatype Tool = Tool(name: string, category: string, path: string)
}

/** The selection of the tools shown in the central grid: with an empty
    search query the tools of the selected category, otherwise the tools
    whose lower-cased name contains the lower-cased query. Each selected tool
    is paired with its index in the registry. */
module ToolFilter {
  import opened Registry
  import opened Text

  /** Whether the filter keeps `tool` for the given category name and query. */
  predicate Matches(tool: Tool, categoryName: string, query: string)
  {
    if |query| == 0 then tool.category == categoryName
    else Contains(Lower(tool.name), Lower(query))
  }

  /** The `(index, tool)` pairs of the registry that the filter keeps, in
      registry order. */
  function FilterTools(tools: seq<Tool>, categoryName: string, query: string): (r: seq<(nat, Tool)>)
    decreases |tools|
  {
    if |tools| == 0 then []
    else
      var last := |tools| - 1;
      FilterTools(tools[..last], categoryName, query)
        + (if Matches(tools[last], categoryName, query) then [(last, tools[last])] else [])
  }

  /** Some pair of `r` carries registry index `i`. */
  predicate Selected(r: seq<(nat, Tool)>, i: int)
  {
    exists k :: 0 <= k < |r| && r[k].0 == i
  }

  /** Each pair of `r` is an in-range registry index with its own tool, which the filter keeps. */
  predicate PairsFrom(r: seq<(nat, Tool)>, tools: seq<Tool>, categoryName: string, query: string)
  {
    forall k :: 0 <= k < |r| ==>
      r[k].0 < |tools| && tools[r[k].0] == r[k].1 && Matches(r[k].1, categoryName, query)
  }

  /** The registry indices of `r` strictly increase. */
  predicate Increasing(r: seq<(nat, Tool)>)
  {
    forall j, k :: 0 <= j < k < |r| ==> r[j].0 < r[k].0
  }

  /** Every selected pair is a registry entry, with its own index, that the filter keeps. */
  lemma {:induction false} FilterSound(tools: seq<Tool>, categoryName: string, query: string)
    ensures PairsFrom(FilterTools(tools, categoryName, query), tools, categoryName, query)
    decreases |tools|
  {
    if |tools| > 0 {
      var last := |tools| - 1;
      var prefix := FilterTools(tools[..last], categoryName, query);
      FilterSound(tools[..last], categoryName, query);
      var r := FilterTools(tools, categoryName, query);
      assert r == prefix + (if Matches(tools[last], categoryName, query) then [(last, tools[last])] else []);
      forall k | 0 <= k < |r|
        ensures r[k].0 < |tools| && tools[r[k].0] == r[k].1 && Matches(r[k].1, categoryName, query)
      {
        if k < |prefix| {
          assert r[k] == prefix[k];
          assert tools[..last][prefix[k].0] == tools[prefix[k].0];
        }
      }
    }
  }

  /** Registry indices in the result strictly increase: registry order is kept
      and no tool is listed twice. */
  lemma {:induction false} FilterOrdered(tools: seq<Tool>, categoryName: string, query: string)
    ensures Increasing(FilterTools(tools, categoryName, query))
    decreases |tools|
  {
    if |tools| > 0 {
      var last := |tools| - 1;
      var prefix := FilterTools(tools[..last], categoryName, query);
      FilterOrdered(tools[..last], categoryName, query);
      FilterSound(tools[..last], categoryName, query);
      var r := FilterTools(tools, categoryName, query);
      assert r == prefix + (if Matches(tools[last], categoryName, query) then [(last, tools[last])] else []);
      forall j, k | 0 <= j < k < |r|
        ensures r[j].0 < r[k].0
      {
        assert r[j] == prefix[j];
        if k < |prefix| {
          assert r[k] == prefix[k];
        } else {
          assert r[k].0 == last;
        }
      }
    }
  }

  /** Every registry entry that the filter keeps is selected. */
  lemma {:induction false} FilterComplete(tools: seq<Tool>, categoryName: string, query: string, i: nat)
    requires i < |tools| && Matches(tools[i], categoryName, query)
    ensures Selected(FilterTools(tools, categoryName, query), i)
    decreases |tools|
  {
    var last := |tools| - 1;
    var r := FilterTools(tools, categoryName, query);
    if i == last {
      assert r[|r| - 1].0 == i;
    } else {
      FilterComplete(tools[..last], categoryName, query, i);
      var prefix := FilterTools(tools[..last], categoryName, query);
      var k :| 0 <= k < |prefix| && prefix[k].0 == i;
      assert r[k] == prefix[k];
    }
  }

  /** A registry index is selected exactly when it is in range and the filter keeps that tool. */
  lemma FilterExact(tools: seq<Tool>, categoryName: string, query: string, i: int)
    ensures Selected(FilterTools(tools, categoryName, query), i)
      <==> 0 <= i < |tools| && Matches(tools[i], categoryName, query)
  {
    FilterSound(tools, categoryName, query);
    if 0 <= i < |tools| && Matches(tools[i], categoryName, query) {
      FilterComplete(tools, categoryName, query, i);
    }
  }

  /** With an empty query, exactly the tools of the selected category are selected. */
  lemma FilterByCategory(tools: seq<Tool>, categoryName: string, i: int)
    ensures Selected(FilterTools(tools, categoryName, ""), i)
      <==> 0 <= i < |tools| && tools[i].category == categoryName
  {
    FilterExact(tools, categoryName, "", i);
  }

  /** With a non-empty query, exactly the tools whose lower-cased name contains
      the lower-cased query are selected. */
  lemma FilterBySearch(tools: seq<Tool>, categoryName: string, query: string, i: int)
    requires |query| > 0
    ensures Selected(FilterTools(tools, categoryName, query), i)
      <==> 0 <= i < |tools| && Contains(Lower(tools[i].name), Lower(query))
  {
    FilterExact(tools, categoryName, query, i);
  }

  /** Two filters that keep the same registry entries select the same list. */
  lemma {:induction false} FilterCongruent(tools: seq<Tool>, c1: string, q1: string, c2: string, q2: string)
    requires forall i :: 0 <= i < |tools| ==> Matches(tools[i], c1, q1) == Matches(tools[i], c2, q2)
    ensures FilterTools(tools, c1, q1) == FilterTools(tools, c2, q2)
    decreases |tools|
  {
    if |tools| > 0 {
      var last := |tools| - 1;
      FilterCongruent(tools[..last], c1, q1, c2, q2);
    }
  }

  /** A non-empty query selects the same tools whatever category is selected. */
  lemma {:induction false} FilterSearchIgnoresCategory(tools: seq<Tool>, c1: string, c2: string, query: string)
    requires |query| > 0
    ensures FilterTools(tools, c1, query) == FilterTools(tools, c2, query)
  {
    FilterCongruent(tools, c1, query, c2, query);
  }

  /** The search is case-insensitive: queries that lower-case alike select the same tools. */
  lemma {:induction false} FilterCaseInsensitive(tools: seq<Tool>, categoryName: string, q1: string, q2: string)
    requires Lower(q1) == Lower(q2)
    ensures FilterTools(tools, categoryName, q1) == FilterTools(tools, categoryName, q2)
  {
    assert |q1| == |Lower(q1)| == |Lower(q2)| == |q2|;
    FilterCongruent(tools, categoryName, q1, categoryName, q2);
  }

  /** The registry used to illustrate the filter: one disk tool. */
  function DiskRegistry(): seq<Tool>
  {
    [Tool("DiskCheck", "Disk", "tools\\disk\\chk.exe")]
  }

  /** Selecting "Disk" with no query shows the disk tool. */
  lemma DiskExampleByCategory()
    ensures FilterTools(DiskRegistry(), "Disk", "") == [(0, DiskRegistry()[0])]
  {
    var tools := DiskRegistry();
    assert tools[..0] == [];
  }

  /** Searching "CHECK" finds the disk tool whatever category is selected. */
  lemma DiskExampleSearchHit(categoryName: string)
    ensures FilterTools(DiskRegistry(), categoryName, "CHECK") == [(0, DiskRegistry()[0])]
  {
    var tools := DiskRegistry();
    var name := Lower(tools[0].name);
    var query := Lower("CHECK");
    assert OccursAt(name, query, 4) by {
      forall i | 0 <= i < 5 ensures name[4 + i] == query[i] {
        assert name[4 + i] == LowerChar("DiskCheck"[4 + i]);
        assert query[i] == LowerChar("CHECK"[i]);
      }
      assert name[4..9] == query;
    }
    ContainsAtIndex(name, query, 4);
    assert tools[..0] == [];
  }

  /** Searching "xyz" finds nothing. */
  lemma DiskExampleSearchMiss(categoryName: string)
    ensures FilterTools(DiskRegistry(), categoryName, "xyz") == []
  {
    var tools := DiskRegistry();
    var name := Lower(tools[0].name);
    var query := Lower("xyz");
    assert query[0] == 'x' by {
      assert query[0] == LowerChar('x');
    }
    assert 'x' !in name by {
      forall i | 0 <= i < |name| ensures name[i] != 'x' {
        assert name[i] == LowerChar("DiskCheck"[i]);
      }
    }
    if Contains(name, query) {
      ContainsFirstChar(name, query);
      assert false;
    }
    assert tools[..0] == [];
  }
}
