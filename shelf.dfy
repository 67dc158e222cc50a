/// The shelf tree and its traversal: `is_bookshelf_entry`, `dirs_n_entries`,
/// `sort_by_price` and the generator `entries` of src/bookshelf.py.
///
/// The filesystem is a value: a directory is a `Dir` whose children are listed
/// in the order `iterdir` enumerates them. A directory holding a child named
/// `.bookshelf.metadata` is an entry; any other directory except `.git` is a
/// sub-shelf; plain files are neither.
module Shelf {
  import opened Records
  import opened Text
  import opened Sorting

  const MetadataFileName := ".bookshelf.metadata"
  const GitDirName := ".git"

  /** A file's content is the record it holds when it parses as one (None otherwise). */
  datatype Node =
    | File(name: string, content: Option<Metadata>)
    | Dir(name: string, children: seq<Node>)

  /** The first child called `name`: the one a path through the directory names. */
  function Child(cs: seq<Node>, name: string): (r: Option<Node>)
    ensures r.Some? ==> r.value in cs && r.value.name == name
    ensures r.None? ==> forall c :: c in cs ==> c.name != name
  {
    if cs == [] then None
    else if cs[0].name == name then Some(cs[0])
    else Child(cs[1..], name)
  }

  /** `is_bookshelf_entry(e)`: `e` is a directory with a child named `.bookshelf.metadata`. */
  predicate IsEntry(n: Node)
    ensures IsEntry(n) <==> n.Dir? && exists c :: c in n.children && c.name == MetadataFileName
  {
    n.Dir? && Child(n.children, MetadataFileName).Some?
  }

  /** The `elif` branch of `dirs_n_entries`: a directory that is not an entry and not `.git`. */
  predicate IsSubShelf(n: Node)
  {
    !IsEntry(n) && n.Dir? && n.name != GitDirName
  }

  /** The children `dirs_n_entries` puts in `bse`, in enumeration order. */
  function EntryChildren(cs: seq<Node>): (r: seq<Node>)
    ensures forall c :: c in r <==> c in cs && IsEntry(c)
  {
    if cs == [] then []
    else
      assert cs == cs[..|cs| - 1] + [cs[|cs| - 1]];
      EntryChildren(cs[..|cs| - 1]) + (if IsEntry(cs[|cs| - 1]) then [cs[|cs| - 1]] else [])
  }

  /** The children `dirs_n_entries` puts in `dirs`, in enumeration order. */
  function SubShelfChildren(cs: seq<Node>): (r: seq<Node>)
    ensures forall c :: c in r <==> c in cs && IsSubShelf(c)
  {
    if cs == [] then []
    else
      assert cs == cs[..|cs| - 1] + [cs[|cs| - 1]];
      SubShelfChildren(cs[..|cs| - 1]) + (if IsSubShelf(cs[|cs| - 1]) then [cs[|cs| - 1]] else [])
  }

  /** The children `dirs_n_entries` skips: plain files, and a `.git` directory that is not an entry. */
  function SkippedChildren(cs: seq<Node>): (r: seq<Node>)
    ensures forall c :: c in r <==> c in cs && (c.File? || (c.name == GitDirName && !IsEntry(c)))
  {
    if cs == [] then []
    else
      assert cs == cs[..|cs| - 1] + [cs[|cs| - 1]];
      var c := cs[|cs| - 1];
      SkippedChildren(cs[..|cs| - 1]) + (if !IsEntry(c) && !IsSubShelf(c) then [c] else [])
  }

  /** `dirs_n_entries(path)` over the children `iterdir` lists. */
  method DirsNEntries(children: seq<Node>) returns (dirs: seq<Node>, bse: seq<Node>)
    ensures bse == EntryChildren(children)
    ensures dirs == SubShelfChildren(children)
  {
    dirs, bse := [], [];
    for i := 0 to |children|
      invariant bse == EntryChildren(children[..i])
      invariant dirs == SubShelfChildren(children[..i])
    {
      var f := children[i];
      assert children[..i + 1][..i] == children[..i];
      if IsEntry(f) {
        bse := bse + [f];
      } else if f.Dir? && f.name != GitDirName {
        dirs := dirs + [f];
      }
    }
    assert children[..|children|] == children;
  }

  lemma ChildrenSnoc(init: seq<Node>, c: Node)
    ensures EntryChildren(init + [c]) == EntryChildren(init) + (if IsEntry(c) then [c] else [])
    ensures SubShelfChildren(init + [c]) == SubShelfChildren(init) + (if IsSubShelf(c) then [c] else [])
    ensures SkippedChildren(init + [c]) == SkippedChildren(init) + (if !IsEntry(c) && !IsSubShelf(c) then [c] else [])
  {
    assert (init + [c])[..|init|] == init;
  }

  lemma PartitionSnoc<T>(init: seq<T>, c: T, e: seq<T>, d: seq<T>, k: seq<T>, e': seq<T>, d': seq<T>, k': seq<T>)
    requires multiset(e) + multiset(d) + multiset(k) == multiset(init)
    requires (e' == e + [c] && d' == d && k' == k) || (e' == e && d' == d + [c] && k' == k)
          || (e' == e && d' == d && k' == k + [c])
    ensures multiset(e') + multiset(d') + multiset(k') == multiset(init + [c])
  {
  }

  /** Each child lands in exactly one of `bse`, `dirs` or neither: the
      entries, the sub-shelves and the skipped children (plain files, and a
      `.git` directory that is not an entry) together are the children, each
      as often as it occurs. */
  lemma {:induction false} DirsNEntriesPartition(cs: seq<Node>)
    ensures multiset(EntryChildren(cs)) + multiset(SubShelfChildren(cs)) + multiset(SkippedChildren(cs)) == multiset(cs)
  {
    if cs != [] {
      var init, c := cs[..|cs| - 1], cs[|cs| - 1];
      assert cs == init + [c];
      DirsNEntriesPartition(init);
      ChildrenSnoc(init, c);
      PartitionSnoc(init, c, EntryChildren(init), SubShelfChildren(init), SkippedChildren(init),
        EntryChildren(cs), SubShelfChildren(cs), SkippedChildren(cs));
    }
  }

  /** `json.load(open(os.path.join(e, '.bookshelf.metadata')))`: fails unless that
      child is a file holding a record. */
  function ReadMetadata(e: Node): (r: Result<Metadata>)
    ensures r.Ok? ==> IsEntry(e)
    ensures r.Err? ==> r.error == MetadataUnreadable
  {
    if !e.Dir? then Err(MetadataUnreadable)
    else
      match Child(e.children, MetadataFileName)
      case Some(File(_, Some(m))) => Ok(m)
      case _ => Err(MetadataUnreadable)
  }

  /** `sort_by_price(e)`: the latest price in the entry's record. */
  function EntryPrice(e: Node): (r: Result<nat>)
    ensures r.Ok? <==> ReadMetadata(e).Ok? && |ReadMetadata(e).value.priceHistory| > 0
    ensures r.Ok? ==> r.value == ReadMetadata(e).value.priceHistory[|ReadMetadata(e).value.priceHistory| - 1].price
    ensures r.Err? ==> r.error == MetadataUnreadable || r.error == NoPriceHistory
  {
    match ReadMetadata(e)
    case Err(x) => Err(x)
    case Ok(m) => LatestPrice(m)
  }

  /** The latest price of an entry that has one, 0 otherwise. */
  function PriceOrZero(e: Node): nat
  {
    match EntryPrice(e)
    case Ok(p) => p
    case Err(_) => 0
  }

  function NameKey(n: Node): SortKey
  {
    ByName(n.name)
  }

  function PriceKey(n: Node): SortKey
  {
    ByPrice(PriceOrZero(n))
  }

  /** The error `bse.sort(key=sort_by_price)` raises: the key of the first entry without a price. */
  function FirstPriceError(es: seq<Node>): (r: Option<Error>)
    ensures r.None? <==> forall e :: e in es ==> EntryPrice(e).Ok?
  {
    if es == [] then None
    else if EntryPrice(es[0]).Err? then Some(EntryPrice(es[0]).error)
    else
      assert forall e :: e in es ==> e == es[0] || e in es[1..];
      FirstPriceError(es[1..])
  }

  /** Lines 37-40 of `entries`: by name for 'alpha', by latest price for 'price',
      left in enumeration order for any other method. */
  function SortEntries(bse: seq<Node>, sortBy: string): (r: Result<seq<Node>>)
    ensures r.Ok? ==> multiset(r.value) == multiset(bse)
  {
    if sortBy == "alpha" then Ok(Sort(bse, NameKey))
    else if sortBy == "price" then
      match FirstPriceError(bse)
      case Some(e) => Err(e)
      case None => Ok(Sort(bse, PriceKey))
    else Ok(bse)
  }

  /** One value the generator yields: a path (as components below the home
      directory) and the node it names. */
  datatype Visit = Visit(path: seq<string>, node: Node)

  /** What a run of the generator produces: the values it yields, then the
      exception it raises when asked for more, if any. */
  datatype Traversal = Traversal(visits: seq<Visit>, failure: Option<Error>)

  /** `yield from a` then `yield from b`: `b` never starts when `a` raised. */
  function Then(a: Traversal, b: Traversal): Traversal
  {
    if a.failure.Some? then a else Traversal(a.visits + b.visits, b.failure)
  }

  /** `yield from bse` for the sorted entry children of the shelf at `path`. */
  function EntryVisits(path: seq<string>, es: seq<Node>): (r: seq<Visit>)
    ensures |r| == |es|
    ensures forall i :: 0 <= i < |es| ==> r[i] == Visit(path + [es[i].name], es[i])
  {
    if es == [] then [] else [Visit(path + [es[0].name], es[0])] + EntryVisits(path, es[1..])
  }

  /** `entries(path, sort_by)`: yields the shelf itself, then its sorted
      entries, then the traversal of each sub-shelf in ascending name order.
      Listing a plain file raises once its path has been yielded. */
  function Entries(n: Node, path: seq<string>, sortBy: string): (r: Traversal)
    ensures |r.visits| >= 1 && r.visits[0] == Visit(path, n)
    decreases n, 1
  {
    var here := [Visit(path, n)];
    if !n.Dir? then Traversal(here, Some(NotADirectory))
    else
      match SortEntries(EntryChildren(n.children), sortBy)
      case Err(e) => Traversal(here, Some(e))
      case Ok(bse) =>
        var dirs := Sort(SubShelfChildren(n.children), NameKey);
        assert forall d :: d in dirs ==> d in multiset(SubShelfChildren(n.children));
        Then(Traversal(here + EntryVisits(path, bse), None), EntriesAll(n, dirs, path, sortBy))
  }

  /** `for d in dirs: yield from entries(d, sort_by)`. */
  function EntriesAll(parent: Node, ds: seq<Node>, path: seq<string>, sortBy: string): (r: Traversal)
    requires parent.Dir? && forall d :: d in ds ==> d in parent.children
    ensures |r.visits| == 0 ==> r.failure.None?
    ensures |r.visits| > 0 ==> ds != [] && r.visits[0] == Visit(path + [ds[0].name], ds[0])
    decreases parent, 0, |ds|
  {
    if ds == [] then Traversal([], None)
    else
      assert ds[0] in parent.children;
      Then(Entries(ds[0], path + [ds[0].name], sortBy), EntriesAll(parent, ds[1..], path, sortBy))
  }

  /** Reference for the traversal, independent of sorting: the node itself, its
      entry children, then everything reached under each sub-shelf, children
      taken in enumeration order. */
  function Reached(n: Node): seq<Node>
    decreases n, 1
  {
    if !n.Dir? then [n]
    else [n] + EntryChildren(n.children) + ReachedAll(n, SubShelfChildren(n.children))
  }

  function ReachedAll(parent: Node, ds: seq<Node>): seq<Node>
    requires parent.Dir? && forall d :: d in ds ==> d in parent.children
    decreases parent, 0, |ds|
  {
    if ds == [] then []
    else
      assert ds[0] in parent.children;
      Reached(ds[0]) + ReachedAll(parent, ds[1..])
  }

  function VisitNodes(vs: seq<Visit>): (r: seq<Node>)
    ensures |r| == |vs|
    ensures forall i :: 0 <= i < |vs| ==> r[i] == vs[i].node
  {
    if vs == [] then [] else [vs[0].node] + VisitNodes(vs[1..])
  }

  lemma VisitNodesAppend(a: seq<Visit>, b: seq<Visit>)
    ensures VisitNodes(a + b) == VisitNodes(a) + VisitNodes(b)
  {
  }

  lemma {:induction false} ReachedAllAppend(parent: Node, a: seq<Node>, b: seq<Node>)
    requires parent.Dir? && forall d :: d in a + b ==> d in parent.children
    ensures ReachedAll(parent, a + b) == ReachedAll(parent, a) + ReachedAll(parent, b)
  {
    if a == [] {
      assert a + b == b;
    } else {
      assert (a + b)[0] == a[0] && (a + b)[1..] == a[1..] + b;
      ReachedAllAppend(parent, a[1..], b);
    }
  }

  /** Taking the first of `ds` out of `es`, where it sits at `j`, leaves the rest of `ds`. */
  lemma RemoveMatching<T>(ds: seq<T>, es: seq<T>, j: nat)
    requires ds != [] && j < |es| && es[j] == ds[0] && multiset(ds) == multiset(es)
    ensures es == es[..j] + [ds[0]] + es[j + 1..]
    ensures multiset(ds[1..]) == multiset(es[..j] + es[j + 1..])
  {
    var x := ds[0];
    assert es == es[..j] + [x] + es[j + 1..];
    assert ds == [x] + ds[1..];
    assert multiset(es) == multiset(es[..j]) + multiset{x} + multiset(es[j + 1..]);
    assert multiset(ds[1..]) == multiset(ds) - multiset{x};
  }

  /** The reference does not depend on the order the sub-shelves are taken in. */
  lemma {:induction false} ReachedAllPermutation(parent: Node, ds: seq<Node>, es: seq<Node>)
    requires parent.Dir? && forall d :: d in ds ==> d in parent.children
    requires multiset(ds) == multiset(es)
    ensures forall e :: e in es ==> e in parent.children
    ensures multiset(ReachedAll(parent, ds)) == multiset(ReachedAll(parent, es))
    decreases |ds|
  {
    assert forall e :: e in es ==> e in multiset(ds);
    if ds == [] {
      assert es == [];
    } else {
      var x := ds[0];
      assert x in multiset(es);
      var j :| 0 <= j < |es| && es[j] == x;
      var rest := es[..j] + es[j + 1..];
      RemoveMatching(ds, es, j);
      ReachedAllPermutation(parent, ds[1..], rest);
      ReachedAllAppend(parent, es[..j] + [x], es[j + 1..]);
      ReachedAllAppend(parent, es[..j], [x]);
      ReachedAllAppend(parent, es[..j], es[j + 1..]);
      assert ReachedAll(parent, [x]) == Reached(x);
    }
  }

  /** Without a failure, the traversal from `n` yields every shelf and entry
      reached from `n` exactly as often as the tree holds it: it never enters
      an entry directory, never skips a sub-shelf, and yields nothing twice. */
  lemma {:induction false} EntriesYieldsReached(n: Node, path: seq<string>, sortBy: string)
    requires Entries(n, path, sortBy).failure.None?
    ensures multiset(VisitNodes(Entries(n, path, sortBy).visits)) == multiset(Reached(n))
    decreases n, 1
  {
    var w := Entries(n, path, sortBy);
    var cs := n.children;
    var bse := SortEntries(EntryChildren(cs), sortBy).value;
    var subs := SubShelfChildren(cs);
    var dirs := Sort(subs, NameKey);
    assert forall d :: d in dirs ==> d in multiset(subs);
    var rest := EntriesAll(n, dirs, path, sortBy);
    EntriesAllYieldsReached(n, dirs, path, sortBy);
    ReachedAllPermutation(n, dirs, subs);
    var ev := EntryVisits(path, bse);
    assert w.visits == [Visit(path, n)] + ev + rest.visits;
    VisitNodesAppend([Visit(path, n)] + ev, rest.visits);
    VisitNodesAppend([Visit(path, n)], ev);
    assert VisitNodes(ev) == bse;
  }

  lemma {:induction false} EntriesAllYieldsReached(parent: Node, ds: seq<Node>, path: seq<string>, sortBy: string)
    requires parent.Dir? && forall d :: d in ds ==> d in parent.children
    requires EntriesAll(parent, ds, path, sortBy).failure.None?
    ensures multiset(VisitNodes(EntriesAll(parent, ds, path, sortBy).visits)) == multiset(ReachedAll(parent, ds))
    decreases parent, 0, |ds|
  {
    if ds != [] {
      assert ds[0] in parent.children;
      var a := Entries(ds[0], path + [ds[0].name], sortBy);
      var b := EntriesAll(parent, ds[1..], path, sortBy);
      EntriesYieldsReached(ds[0], path + [ds[0].name], sortBy);
      EntriesAllYieldsReached(parent, ds[1..], path, sortBy);
      VisitNodesAppend(a.visits, b.visits);
    }
  }

  /** The generator yields the shelf it was started on before anything else. */
  lemma EntriesStart(n: Node, path: seq<string>, sortBy: string)
    ensures |Entries(n, path, sortBy).visits| >= 1
    ensures Entries(n, path, sortBy).visits[0] == Visit(path, n)
  {
  }

  /** The traversal of a list of sub-shelves starts with the first of them. */
  lemma EntriesAllStart(parent: Node, ds: seq<Node>, path: seq<string>, sortBy: string)
    requires parent.Dir? && forall d :: d in ds ==> d in parent.children
    requires ds != []
    ensures |EntriesAll(parent, ds, path, sortBy).visits| >= 1
    ensures EntriesAll(parent, ds, path, sortBy).visits[0] == Visit(path + [ds[0].name], ds[0])
  {
    assert ds[0] in parent.children;
    EntriesStart(ds[0], path + [ds[0].name], sortBy);
  }

  /** The traversal of sub-shelves yields the first of them first, and ends
      without failure when it yields nothing. */
  lemma EntriesAllFirst(parent: Node, ds: seq<Node>, path: seq<string>, sortBy: string)
    requires parent.Dir? && forall d :: d in ds ==> d in parent.children
    ensures var t := EntriesAll(parent, ds, path, sortBy);
            && (|t.visits| == 0 ==> t.failure.None?)
            && (|t.visits| > 0 ==> ds != [] && t.visits[0].node == ds[0])
  {
    if ds != [] {
      EntriesAllStart(parent, ds, path, sortBy);
    }
  }

  /** How `entries` proceeds at a directory whose entries sort without error:
      the shelf itself, its sorted entry children, then the traversal of each
      sub-shelf, the sub-shelves sorted by name. */
  lemma EntriesShape(n: Node, path: seq<string>, sortBy: string)
    requires n.Dir? && SortEntries(EntryChildren(n.children), sortBy).Ok?
    ensures var bse := SortEntries(EntryChildren(n.children), sortBy).value;
            var dirs := Sort(SubShelfChildren(n.children), NameKey);
            && SortedBy(dirs, NameKey)
            && multiset(dirs) == multiset(SubShelfChildren(n.children))
            && (forall d :: d in dirs ==> d in n.children && IsSubShelf(d))
            && Entries(n, path, sortBy) ==
                 Then(Traversal([Visit(path, n)] + EntryVisits(path, bse), None), EntriesAll(n, dirs, path, sortBy))
  {
    var dirs := Sort(SubShelfChildren(n.children), NameKey);
    SortSorted(SubShelfChildren(n.children), NameKey);
    assert forall d :: d in dirs ==> d in multiset(SubShelfChildren(n.children));
  }

  /** With 'alpha', a shelf's entries come out in ascending name order, a
      permutation of the entry children in which equal names keep their
      enumeration order. */
  lemma EntriesSortedByName(es: seq<Node>)
    ensures SortEntries(es, "alpha").Ok?
    ensures var bse := SortEntries(es, "alpha").value;
            && (forall i, j :: 0 <= i < j < |bse| ==> LexLe(bse[i].name, bse[j].name))
            && multiset(bse) == multiset(es)
            && (forall k :: WithKey(bse, NameKey, k) == WithKey(es, NameKey, k))
  {
    SortSorted(es, NameKey);
    forall k {
      SortStable(es, NameKey, k);
    }
  }

  /** With 'price', a shelf's entries sort only when every one has a latest
      price; they then come out in non-decreasing price order, a permutation of
      the entry children in which equal prices keep their enumeration order. */
  lemma EntriesSortedByPrice(es: seq<Node>)
    ensures SortEntries(es, "price").Ok? <==> forall e :: e in es ==> EntryPrice(e).Ok?
    ensures SortEntries(es, "price").Ok? ==>
            var bse := SortEntries(es, "price").value;
            && (forall e :: e in bse ==> EntryPrice(e).Ok?)
            && (forall i, j :: 0 <= i < j < |bse| ==> PriceOrZero(bse[i]) <= PriceOrZero(bse[j]))
            && multiset(bse) == multiset(es)
            && (forall k :: WithKey(bse, PriceKey, k) == WithKey(es, PriceKey, k))
  {
    if SortEntries(es, "price").Ok? {
      var bse := SortEntries(es, "price").value;
      SortSorted(es, PriceKey);
      forall k {
        SortStable(es, PriceKey, k);
      }
      assert forall e :: e in bse ==> e in multiset(es);
      forall i, j | 0 <= i < j < |bse|
        ensures PriceOrZero(bse[i]) <= PriceOrZero(bse[j])
      {
        assert KeyLe(PriceKey(bse[i]), PriceKey(bse[j]));
      }
    }
  }
}
