/// What the `ls` listing promises about a whole shelf tree: with `-r` the
/// total is the sum of the latest prices of every entry reachable from the
/// shelf, and the multiplicities add up to the number of those entries;
/// without `-r` exactly the starting shelf's header is printed and only its
/// direct entries are grouped and summed; `-q` keeps the headers and drops
/// the entry lines.
module ListingLaws {
  import opened Records
  import opened Sorting
  import opened Shelf
  import opened Listing

  /** `f` summed over `s`. */
  function SumOf<T>(s: seq<T>, f: T -> nat): nat
  {
    if s == [] then 0 else SumOf(s[..|s| - 1], f) + f(s[|s| - 1])
  }

  /** What an entry adds to the total; shelves add nothing. */
  function PriceWeight(n: Node): nat
  {
    if IsEntry(n) then PriceOrZero(n) else 0
  }

  /** What an entry adds to the count of entries. */
  function EntryWeight(n: Node): nat
  {
    if IsEntry(n) then 1 else 0
  }

  lemma {:induction false} SumOfAppend<T>(a: seq<T>, b: seq<T>, f: T -> nat)
    ensures SumOf(a + b, f) == SumOf(a, f) + SumOf(b, f)
    decreases |b|
  {
    if b == [] {
      assert a + b == a;
    } else {
      var c := b[..|b| - 1];
      assert (a + b)[..|a + b| - 1] == a + c;
      SumOfAppend(a, c, f);
    }
  }

  /** A sum does not depend on the order of its terms. */
  lemma {:induction false} SumOfPermutation<T>(a: seq<T>, b: seq<T>, f: T -> nat)
    requires multiset(a) == multiset(b)
    ensures SumOf(a, f) == SumOf(b, f)
    decreases |a|
  {
    if a != [] {
      var x := a[0];
      assert x in multiset(b);
      var j :| 0 <= j < |b| && b[j] == x;
      RemoveMatching(a, b, j);
      SumOfPermutation(a[1..], b[..j] + b[j + 1..], f);
      SumOfAppend([x], a[1..], f);
      assert [x] + a[1..] == a;
      SumOfAppend(b[..j] + [x], b[j + 1..], f);
      SumOfAppend(b[..j], [x], f);
      SumOfAppend(b[..j], b[j + 1..], f);
      assert SumOf([x], f) == f(x);
    }
  }

  lemma {:induction false} SumOfOnes<T>(s: seq<T>, f: T -> nat)
    requires forall x :: x in s ==> f(x) == 1
    ensures SumOf(s, f) == |s|
  {
    if s != [] {
      assert forall x :: x in s[..|s| - 1] ==> x in s;
      SumOfOnes(s[..|s| - 1], f);
    }
  }

  /** The items of readable values carry the latest prices of their entries,
      and the header items are the shelves among them. */
  lemma {:induction false} ItemsSum(vs: seq<Visit>)
    requires Items(vs).Ok?
    ensures SumPrices(Items(vs).value) == SumOf(VisitNodes(vs), PriceWeight)
    ensures EntryCount(Items(vs).value) == SumOf(VisitNodes(vs), EntryWeight)
    ensures HeaderPaths(Items(vs).value) == ShelfPaths(vs)
  {
    if vs != [] {
      var init, v := vs[..|vs| - 1], vs[|vs| - 1];
      assert forall i :: 0 <= i < |init| ==> init[i] == vs[i];
      ItemsSum(init);
      var its := Items(init).value;
      var it := ItemOf(v).value;
      assert Items(vs).value == its + [it];
      assert (its + [it])[..|its|] == its;
      assert VisitNodes(init) == VisitNodes(vs)[..|vs| - 1];
      assert VisitNodes(vs)[|vs| - 1] == v.node;
    }
  }

  /** With `-r` the loop reads the whole traversal, so the total is the sum of
      the latest prices of every entry reached from the shelf, each entry once,
      every such entry has a price, and the multiplicities add up to the
      number of those entries. */
  lemma RecursiveTotal(tree: Node, shelf: seq<string>, sortBy: string)
    requires ListReport(tree, shelf, true, sortBy).Ok?
    ensures Resolve(tree, shelf).Ok?
    ensures var start := Resolve(tree, shelf).value;
            var rep := ListReport(tree, shelf, true, sortBy).value;
            && rep.total == SumOf(Reached(start), PriceWeight)
            && CountSum(rep.rows) == SumOf(Reached(start), EntryWeight)
            && (forall n :: n in Reached(start) && IsEntry(n) ==> EntryPrice(n).Ok?)
  {
    var start := Resolve(tree, shelf).value;
    var sortMethod := NormalizeSort(sortBy);
    var walk := Entries(start, shelf, sortMethod);
    var nodes := VisitNodes(walk.visits);
    WalkTotals(walk);
    ItemsPrices(walk.visits);
    EntriesYieldsReached(start, shelf, sortMethod);
    SumOfPermutation(nodes, Reached(start), PriceWeight);
    SumOfPermutation(nodes, Reached(start), EntryWeight);
    assert forall n :: n in Reached(start) ==> n in multiset(nodes);
  }

  /** A walk read to its end without error: the total and the count are sums
      over the nodes it yields. */
  lemma WalkTotals(walk: Traversal)
    requires WalkReport(walk, true).Ok?
    ensures walk.failure.None? && Items(walk.visits).Ok?
    ensures var rep := WalkReport(walk, true).value;
            && rep.total == SumOf(VisitNodes(walk.visits), PriceWeight)
            && CountSum(rep.rows) == SumOf(VisitNodes(walk.visits), EntryWeight)
  {
    var vs := walk.visits;
    assert vs[..|vs|] == vs;
    ItemsSum(vs);
    RowsCounts(Items(vs).value);
  }

  /** Every entry among readable values has a latest price. */
  lemma ItemsPrices(vs: seq<Visit>)
    requires Items(vs).Ok?
    ensures forall n :: n in VisitNodes(vs) && IsEntry(n) ==> EntryPrice(n).Ok?
  {
    forall n | n in VisitNodes(vs) && IsEntry(n)
      ensures EntryPrice(n).Ok?
    {
      var i :| 0 <= i < |vs| && VisitNodes(vs)[i] == n;
      assert ItemOf(vs[i]).Ok?;
    }
  }

  lemma {:induction false} ShelfPathsPrefix(vs: seq<Visit>, j: nat, k: nat)
    requires j <= k <= |vs|
    ensures ShelfPaths(vs[..j]) <= ShelfPaths(vs[..k])
    decreases k - j
  {
    if j < k {
      ShelfPathsPrefix(vs, j, k - 1);
      ShelfPathsSnoc(vs, k - 1);
    }
  }

  /** Without `-r` at most one header is printed, and when the shelf listed is
      not itself an entry it is exactly the header of that shelf. */
  lemma OneHeaderWithoutRecursion(tree: Node, shelf: seq<string>, sortBy: string)
    requires ListReport(tree, shelf, false, sortBy).Ok?
    ensures Resolve(tree, shelf).Ok?
    ensures var rows := ListReport(tree, shelf, false, sortBy).value.rows;
            && |HeaderRows(rows)| <= 1
            && (!IsEntry(Resolve(tree, shelf).value) ==> HeaderRows(rows) == [shelf])
  {
    var start := Resolve(tree, shelf).value;
    EntriesStart(start, shelf, NormalizeSort(sortBy));
    WalkHeaders(Entries(start, shelf, NormalizeSort(sortBy)));
  }

  /** Without `-r` the rows of a walk hold at most one header, and exactly the
      first value's when that is a shelf. */
  lemma WalkHeaders(walk: Traversal)
    requires WalkReport(walk, false).Ok?
    ensures var rows := WalkReport(walk, false).value.rows;
            && |HeaderRows(rows)| <= 1
            && (|walk.visits| > 0 && !IsEntry(walk.visits[0].node) ==> HeaderRows(rows) == [walk.visits[0].path])
  {
    var vs := walk.visits;
    var k := FirstBreak(vs, 0);
    var its := Items(vs[..k]).value;
    RowsCounts(its);
    ItemsSum(vs[..k]);
    assert vs[..k][..k] == vs[..k];
    AtMostOneShelfBeforeBreak(vs, k);
    if |vs| > 0 && !IsEntry(vs[0].node) {
      assert vs[..0] == [];
      assert !BreaksAt(vs, 0);
      ShelfPathsSnoc(vs, 0);
      ShelfPathsPrefix(vs, 1, k);
    }
  }

  /** Without `-r`, at a shelf that is not an entry and whose entries sort,
      the loop reads the shelf and its sorted entries and stops at the first
      sub-shelf. */
  lemma StopsAtFirstSubShelf(start: Node, shelf: seq<string>, sortMethod: string)
    requires start.Dir? && !IsEntry(start) && SortEntries(EntryChildren(start.children), sortMethod).Ok?
    ensures var vs := Entries(start, shelf, sortMethod).visits;
            var bse := SortEntries(EntryChildren(start.children), sortMethod).value;
            var head := [Visit(shelf, start)] + EntryVisits(shelf, bse);
            && FirstBreak(vs, 0) == |head| && vs[..|head|] == head
            && (|head| == |vs| ==> Entries(start, shelf, sortMethod).failure.None?)
  {
    var vs := Entries(start, shelf, sortMethod).visits;
    var bse := SortEntries(EntryChildren(start.children), sortMethod).value;
    EntriesSplit(start, shelf, sortMethod);
    assert forall e :: e in bse ==> e in multiset(EntryChildren(start.children));
    NoBreakInHead(vs, shelf, start, bse);
    BreakAfterHead(vs, 1 + |bse|);
  }

  /** `w` yields `h` first, then either nothing more (and no failure) or a shelf. */
  predicate OpensWith(w: Traversal, h: seq<Visit>)
  {
    && |h| <= |w.visits| && w.visits[..|h|] == h
    && (|h| < |w.visits| ==> !IsEntry(w.visits[|h|].node))
    && (|h| == |w.visits| ==> w.failure.None?)
  }

  /** The traversal of a shelf whose entries sort: the shelf, its sorted
      entries, then either nothing more (and no failure) or a sub-shelf. */
  lemma EntriesSplit(start: Node, shelf: seq<string>, sortMethod: string)
    requires start.Dir? && SortEntries(EntryChildren(start.children), sortMethod).Ok?
    ensures OpensWith(Entries(start, shelf, sortMethod),
                      [Visit(shelf, start)] + EntryVisits(shelf, SortEntries(EntryChildren(start.children), sortMethod).value))
  {
    var es := EntryChildren(start.children);
    var bse := SortEntries(es, sortMethod).value;
    var dirs := Sort(SubShelfChildren(start.children), NameKey);
    EntriesShape(start, shelf, sortMethod);
    var rest := EntriesAll(start, dirs, shelf, sortMethod);
    EntriesAllFirst(start, dirs, shelf, sortMethod);
    if |rest.visits| > 0 {
      assert dirs[0] in dirs;
    }
    SplitAfterHead([Visit(shelf, start)] + EntryVisits(shelf, bse), rest, Entries(start, shelf, sortMethod));
  }

  /** A walk that yields `h` without failing and then goes on with `rest`. */
  lemma SplitAfterHead(h: seq<Visit>, rest: Traversal, w: Traversal)
    requires w == Then(Traversal(h, None), rest)
    requires |rest.visits| == 0 ==> rest.failure.None?
    requires |rest.visits| > 0 ==> !IsEntry(rest.visits[0].node)
    ensures OpensWith(w, h)
  {
    assert w.visits == h + rest.visits;
  }

  /** A walk that opens with a shelf and meets no break before position `m`
      breaks at `m` if a shelf is there. */
  lemma BreakAfterHead(vs: seq<Visit>, m: nat)
    requires 1 <= m <= |vs| && !IsEntry(vs[0].node)
    requires forall j :: 0 <= j < m ==> !BreaksAt(vs, j)
    requires m < |vs| ==> !IsEntry(vs[m].node)
    ensures FirstBreak(vs, 0) == m
  {
    if m < |vs| {
      ShelfSeen(vs, m);
    }
    FirstBreakAt(vs, m);
  }

  /** Once past a walk's opening shelf, a shelf has been seen. */
  lemma ShelfSeen(vs: seq<Visit>, m: nat)
    requires 1 <= m <= |vs| && !IsEntry(vs[0].node)
    ensures |ShelfPaths(vs[..m])| >= 1
  {
    ShelfPathsSnoc(vs, 0);
    assert vs[..0] == [];
    ShelfPathsPrefix(vs, 1, m);
  }

  /** Nothing read before the first sub-shelf stops the loop: the shelf is the
      first header and the entries after it are entries. */
  lemma NoBreakInHead(vs: seq<Visit>, shelf: seq<string>, start: Node, bse: seq<Node>)
    requires forall e :: e in bse ==> IsEntry(e)
    requires 1 + |bse| <= |vs| && vs[..1 + |bse|] == [Visit(shelf, start)] + EntryVisits(shelf, bse)
    ensures forall j :: 0 <= j < 1 + |bse| ==> !BreaksAt(vs, j)
  {
    var head := [Visit(shelf, start)] + EntryVisits(shelf, bse);
    forall j | 0 <= j < |head|
      ensures !BreaksAt(vs, j)
    {
      if j == 0 {
        assert vs[..0] == [];
      } else {
        assert vs[j] == head[j] == EntryVisits(shelf, bse)[j - 1];
        assert bse[j - 1] in bse;
      }
    }
  }

  /** Without `-r`, for a shelf that is not an entry, the loop stops at its
      first sub-shelf: only the shelf's direct entries are grouped and summed. */
  lemma DirectEntriesWithoutRecursion(tree: Node, shelf: seq<string>, sortBy: string)
    requires Resolve(tree, shelf).Ok? && !IsEntry(Resolve(tree, shelf).value)
    requires ListReport(tree, shelf, false, sortBy).Ok?
    ensures Resolve(tree, shelf).value.Dir?
    ensures var start := Resolve(tree, shelf).value;
            var rep := ListReport(tree, shelf, false, sortBy).value;
            && rep.total == SumOf(EntryChildren(start.children), PriceWeight)
            && CountSum(rep.rows) == |EntryChildren(start.children)|
  {
    var start := Resolve(tree, shelf).value;
    var sortMethod := NormalizeSort(sortBy);
    var walk := Entries(start, shelf, sortMethod);
    var vs := walk.visits;
    EntriesStart(start, shelf, sortMethod);
    assert start.Dir? && SortEntries(EntryChildren(start.children), sortMethod).Ok? by {
      if !start.Dir? || SortEntries(EntryChildren(start.children), sortMethod).Err? {
        assert false;
      }
    }
    var es := EntryChildren(start.children);
    var bse := SortEntries(es, sortMethod).value;
    var head := [Visit(shelf, start)] + EntryVisits(shelf, bse);
    StopsAtFirstSubShelf(start, shelf, sortMethod);
    DirectSums(start, shelf, bse, es);
  }

  lemma DirectSums(start: Node, shelf: seq<string>, bse: seq<Node>, es: seq<Node>)
    requires !IsEntry(start) && multiset(bse) == multiset(es) && forall e :: e in es ==> IsEntry(e)
    requires Items([Visit(shelf, start)] + EntryVisits(shelf, bse)).Ok?
    ensures var its := Items([Visit(shelf, start)] + EntryVisits(shelf, bse)).value;
            SumPrices(its) == SumOf(es, PriceWeight) && CountSum(Rows(its)) == |es|
  {
    var head := [Visit(shelf, start)] + EntryVisits(shelf, bse);
    var its := Items(head).value;
    ItemsSum(head);
    RowsCounts(its);
    HeadNodes(shelf, start, bse);
    assert forall e :: e in bse ==> e in multiset(es);
    ShelfAddsNothing(start, bse, PriceWeight);
    ShelfAddsNothing(start, bse, EntryWeight);
    SumOfPermutation(bse, es, PriceWeight);
    SumOfOnes(bse, EntryWeight);
  }

  lemma HeadNodes(shelf: seq<string>, start: Node, bse: seq<Node>)
    ensures VisitNodes([Visit(shelf, start)] + EntryVisits(shelf, bse)) == [start] + bse
  {
  }

  lemma ShelfAddsNothing(start: Node, bse: seq<Node>, f: Node -> nat)
    requires f(start) == 0
    ensures SumOf([start] + bse, f) == SumOf(bse, f)
  {
    SumOfAppend([start], bse, f);
    assert [start][..0] == [];
  }

  /** The header lines of a list of shelf paths. */
  function HeaderLines(home: string, paths: seq<seq<string>>): (r: seq<string>)
    ensures |r| == |paths| && forall j :: 0 <= j < |paths| ==> r[j] == HeaderLine(home, paths[j])
  {
    seq(|paths|, j requires 0 <= j < |paths| => HeaderLine(home, paths[j]))
  }

  /** `-q` prints the headers, in order, and nothing else before the total. */
  lemma {:induction false} QuietShowsOnlyHeaders(rows: seq<Row>, home: string)
    requires Printable(rows)
    ensures Render(rows, true, home) == HeaderLines(home, HeaderRows(rows))
  {
    if rows != [] {
      var init := rows[..|rows| - 1];
      assert forall j :: 0 <= j < |init| ==> init[j] == rows[j];
      QuietShowsOnlyHeaders(init, home);
    }
  }

  /** An unknown sort method lists exactly as 'alpha' does. */
  lemma UnknownSortIsAlpha(tree: Node, shelf: seq<string>, recursive: bool, sortBy: string)
    requires sortBy !in AcceptableMethods
    ensures ListReport(tree, shelf, recursive, sortBy) == ListReport(tree, shelf, recursive, "alpha")
  {
  }
}
