/** How many pages a mapping needs (kernel/vm.c:85-165, 225-333): those of the missing tables. */
module VmSpace {
  import opened VmSpec
  import opened Basics

  // The tables below the root on the way to virtual page v, from `level` up.
  function Path(level: nat, v: nat): set<Table>
    decreases 2 - level
  {
    if level >= 2 then {} else {At(level, v)} + Path(level + 1, v)
  }

  // The tables that n virtual pages from v0 on go through, and those among them that are not
  // there.
  ghost function TablesFor(v0: nat, n: nat): set<Table> {
    if n == 0 then {} else TablesFor(v0, n - 1) + Path(0, v0 + n - 1)
  }

  ghost function MissingTables(page: map<Table, nat>, v0: nat, n: nat): set<Table> { TablesFor(v0, n) - page.Keys }

  // The free pages that n new private pages from v0 on take: their frames and tables.
  ghost function Needed(page: map<Table, nat>, v0: nat, n: nat): nat { n + |MissingTables(page, v0, n)| }

  // Exactly these tables were added.
  ghost predicate TablesAdded(page: map<Table, nat>, page': map<Table, nat>, tables: set<Table>) {
    page'.Keys == page.Keys + tables
  }

  // Some of these tables were added, but not table t.
  ghost predicate TablesShort(page: map<Table, nat>, page': map<Table, nat>, tables: set<Table>, t: Table) {
    page.Keys <= page'.Keys <= page.Keys + tables && t in tables && t !in page'
  }

  lemma TablesSize(page: map<Table, nat>, page': map<Table, nat>, tables: set<Table>)
    requires TablesAdded(page, page', tables)
    ensures |page'| == |page| + |tables - page.Keys|
  {
    assert page'.Keys == page.Keys + (tables - page.Keys);
    UnionSize(page.Keys, tables - page.Keys);
  }

  lemma ShortSize(page: map<Table, nat>, page': map<Table, nat>, tables: set<Table>, t: Table)
    requires TablesShort(page, page', tables, t)
    ensures |page'| < |page| + |tables - page.Keys|
  {
    var all := page.Keys + tables;
    assert all == page.Keys + (tables - page.Keys);
    UnionSize(page.Keys, tables - page.Keys);
    assert t in all && t !in page'.Keys;
    SubsetSize(page'.Keys, all);
  }

  lemma TablesTrans(page: map<Table, nat>, page1: map<Table, nat>, page2: map<Table, nat>, s: set<Table>, t: set<Table>)
    requires TablesAdded(page, page1, s) && TablesAdded(page1, page2, t)
    ensures TablesAdded(page, page2, s + t)
  {
  }

  lemma ShortMore(page: map<Table, nat>, page1: map<Table, nat>, page2: map<Table, nat>, s: set<Table>, t: set<Table>,
                      x: Table)
    requires TablesAdded(page, page1, s) && TablesShort(page1, page2, t, x)
    ensures TablesShort(page, page2, s + t, x)
  {
  }

  lemma MissingSum(keys: set<Table>, keys1: set<Table>, s: set<Table>, t: set<Table>)
    requires keys1 == keys + s
    ensures |(s + t) - keys| == |s - keys| + |t - keys1|
  {
    assert (s + t) - keys == (s - keys) + (t - keys1);
    UnionSize(s - keys, t - keys1);
  }

  // What is missing for n + 1 pages is what is missing for n, and what is then missing for the
  // last one.
  lemma MissingNext(page: map<Table, nat>, page1: map<Table, nat>, v0: nat, n: nat)
    requires TablesAdded(page, page1, TablesFor(v0, n))
    ensures |MissingTables(page, v0, n + 1)| == |MissingTables(page, v0, n)| + |MissingTables(page1, v0 + n, 1)|
    ensures TablesFor(v0, n + 1) == TablesFor(v0, n) + TablesFor(v0 + n, 1) && TablesFor(v0 + n, 1) == Path(0, v0 + n)
  {
    assert TablesFor(v0 + n, 0) == {};
    assert TablesFor(v0 + n, 1) == Path(0, v0 + n);
    MissingSum(page.Keys, page1.Keys, TablesFor(v0, n), Path(0, v0 + n));
  }

  // A table for page n could not be created.
  lemma ShortFor(page: map<Table, nat>, page1: map<Table, nat>, page2: map<Table, nat>, v0: nat, n: nat, t: Table)
    requires TablesAdded(page, page1, TablesFor(v0, n)) && TablesShort(page1, page2, Path(0, v0 + n), t)
    ensures |page2| < |page| + |MissingTables(page, v0, n + 1)|
  {
    hide Path, TablesAdded, TablesShort;
    MissingNext(page, page1, v0, n);
    ShortMore(page, page1, page2, TablesFor(v0, n), Path(0, v0 + n), t);
    ShortSize(page, page2, TablesFor(v0, n + 1), t);
  }

  lemma MissingStep(page: map<Table, nat>, v0: nat, n: nat)
    ensures |MissingTables(page, v0, n)| <= |MissingTables(page, v0, n + 1)|
  {
    hide Path;
    var s, t := TablesFor(v0, n), Path(0, v0 + n);
    assert TablesFor(v0, n + 1) == s + t;
    SubsetSize(s - page.Keys, s + t - page.Keys);
  }

  lemma {:induction false} MissingMore(page: map<Table, nat>, v0: nat, n: nat, m: nat)
    requires n <= m
    ensures |MissingTables(page, v0, n)| <= |MissingTables(page, v0, m)|
    decreases m
  {
    hide MissingTables;
    if n < m {
      MissingMore(page, v0, n, m - 1);
      MissingStep(page, v0, m - 1);
    }
  }
}
