/// `list_entries` and `print_metadata` of src/bookshelf.py: the `ls` command.
///
/// The listing walks the values `entries` yields. A yielded entry has its
/// record and latest price read; the price joins the total, and adjacent
/// entries with one `oracle_id` collapse into one output line with a
/// multiplicity. A yielded shelf ends the pending line and prints a `==>`
/// header; without `-r` the second shelf ends the walk instead.
///
/// The listing is specified in three layers: `Items` (what each yielded
/// value contributes), `Rows` (the grouping) and `Render` (the text). The
/// method `ListEntries` is the loop of `list_entries`, proved equal to them.
module Listing {
  import opened Records
  import opened Text
  import opened Shelf

  const AcceptableMethods: seq<string> := ["alpha", "price"]

  /** Line 57: a sort method other than 'alpha' or 'price' becomes 'alpha'. */
  function NormalizeSort(sortBy: string): (r: string)
    ensures r in AcceptableMethods
    ensures sortBy in AcceptableMethods ==> r == sortBy
  {
    if sortBy !in AcceptableMethods then "alpha" else sortBy
  }

  /** `os.path.join(home, shelf)`: the node the shelf components name below home.
      A missing component is `FileNotFoundError`; a component below a plain
      file is `NotADirectoryError`. Both are raised by `iterdir` once the walk
      starts. */
  function Resolve(n: Node, comps: seq<string>): (r: Result<Node>)
    ensures comps == [] ==> r == Ok(n)
    ensures r.Err? ==> r.error == ShelfNotFound || r.error == NotADirectory
    decreases |comps|
  {
    if comps == [] then Ok(n)
    else if !n.Dir? then Err(NotADirectory)
    else
      match Child(n.children, comps[0])
      case None => Err(ShelfNotFound)
      case Some(c) => Resolve(c, comps[1..])
  }

  /** Paths resolve component by component: `a + b` names what `b` names below
      what `a` names, and fails where `a` fails. */
  lemma {:induction false} ResolveAppend(n: Node, a: seq<string>, b: seq<string>)
    ensures Resolve(n, a + b) == if Resolve(n, a).Ok? then Resolve(Resolve(n, a).value, b) else Resolve(n, a)
    decreases |a|
  {
    if a != [] {
      assert (a + b)[0] == a[0] && (a + b)[1..] == a[1..] + b;
      if n.Dir? && Child(n.children, a[0]).Some? {
        ResolveAppend(Child(n.children, a[0]).value, a[1..], b);
      }
    } else {
      assert a + b == b;
    }
  }

  // ---------------------------------------------------------------------------
  // What each yielded value contributes

  /** A shelf header, or an entry with its record and latest price. */
  datatype Item = HeaderItem(path: seq<string>) | EntryItem(meta: Metadata, price: nat)

  /** The loop body's reading of one yielded path (lines 60-64, 72-80): an
      entry's record is loaded and its latest price taken, which fails for an
      unreadable record or an empty price history; anything else is a shelf. */
  function ItemOf(v: Visit): (r: Result<Item>)
    ensures !IsEntry(v.node) ==> r == Ok(HeaderItem(v.path))
    ensures IsEntry(v.node) && r.Ok? ==>
              r.value.EntryItem? && ReadMetadata(v.node) == Ok(r.value.meta)
              && LatestPrice(r.value.meta) == Ok(r.value.price)
    ensures IsEntry(v.node) ==> (r.Ok? <==> EntryPrice(v.node).Ok?)
    ensures r.Err? ==> EntryPrice(v.node) == Err(r.error)
  {
    if !IsEntry(v.node) then Ok(HeaderItem(v.path))
    else
      match ReadMetadata(v.node)
      case Err(e) => Err(e)
      case Ok(m) =>
        match LatestPrice(m)
        case Err(e) => Err(e)
        case Ok(p) => Ok(EntryItem(m, p))
  }

  /** The items of a run of yielded values; the first value that cannot be read
      ends the run with its error (see `ItemsFirstError`). */
  function Items(vs: seq<Visit>): (r: Result<seq<Item>>)
    ensures r.Ok? <==> forall i :: 0 <= i < |vs| ==> ItemOf(vs[i]).Ok?
    ensures r.Ok? ==> |r.value| == |vs| && forall i :: 0 <= i < |vs| ==> ItemOf(vs[i]) == Ok(r.value[i])
  {
    if vs == [] then Ok([])
    else
      var init := vs[..|vs| - 1];
      assert forall i :: 0 <= i < |init| ==> init[i] == vs[i];
      match Items(init)
      case Err(e) => Err(e)
      case Ok(its) =>
        match ItemOf(vs[|vs| - 1])
        case Err(e) => Err(e)
        case Ok(it) => Ok(its + [it])
  }

  /** The error of a run is the error of its first unreadable value. */
  lemma {:induction false} ItemsFirstError(vs: seq<Visit>, i: nat)
    requires i < |vs| && ItemOf(vs[i]).Err?
    requires forall j :: 0 <= j < i ==> ItemOf(vs[j]).Ok?
    ensures Items(vs) == Err(ItemOf(vs[i]).error)
  {
    var init := vs[..|vs| - 1];
    assert forall j :: 0 <= j < |init| ==> init[j] == vs[j];
    if i < |vs| - 1 {
      ItemsFirstError(init, i);
    }
  }

  lemma ItemsSnoc(vs: seq<Visit>, i: nat, its: seq<Item>, it: Item)
    requires i < |vs| && Items(vs[..i]) == Ok(its) && ItemOf(vs[i]) == Ok(it)
    ensures Items(vs[..i + 1]) == Ok(its + [it])
  {
    assert vs[..i + 1][..i] == vs[..i];
  }

  /** `price_total`: the latest prices of the entry items, summed. */
  function SumPrices(its: seq<Item>): nat
  {
    if its == [] then 0
    else SumPrices(its[..|its| - 1]) + (if its[|its| - 1].EntryItem? then its[|its| - 1].price else 0)
  }

  /** The number of entry items. */
  function EntryCount(its: seq<Item>): nat
  {
    if its == [] then 0
    else EntryCount(its[..|its| - 1]) + (if its[|its| - 1].EntryItem? then 1 else 0)
  }

  /** The paths of the header items, in order. */
  function HeaderPaths(its: seq<Item>): seq<seq<string>>
  {
    if its == [] then []
    else HeaderPaths(its[..|its| - 1]) + (if its[|its| - 1].HeaderItem? then [its[|its| - 1].path] else [])
  }

  // ---------------------------------------------------------------------------
  // Where the walk stops

  /** The paths of the yielded values that are shelves rather than entries. */
  function ShelfPaths(vs: seq<Visit>): seq<seq<string>>
  {
    if vs == [] then []
    else ShelfPaths(vs[..|vs| - 1]) + (if IsEntry(vs[|vs| - 1].node) then [] else [vs[|vs| - 1].path])
  }

  lemma ShelfPathsSnoc(vs: seq<Visit>, i: nat)
    requires i < |vs|
    ensures ShelfPaths(vs[..i + 1]) == ShelfPaths(vs[..i]) + (if IsEntry(vs[i].node) then [] else [vs[i].path])
  {
    assert vs[..i + 1][..i] == vs[..i];
  }

  /** Lines 77-78: without `-r` the loop breaks at a shelf once a shelf has been seen. */
  predicate BreaksAt(vs: seq<Visit>, i: nat)
    requires i < |vs|
  {
    !IsEntry(vs[i].node) && |ShelfPaths(vs[..i])| >= 1
  }

  /** The first position at or after `from` where the loop breaks, or `|vs|`. */
  function FirstBreak(vs: seq<Visit>, from: nat): (k: nat)
    requires from <= |vs|
    ensures from <= k <= |vs|
    ensures k < |vs| ==> BreaksAt(vs, k)
    ensures forall i :: from <= i < k ==> !BreaksAt(vs, i)
    decreases |vs| - from
  {
    if from == |vs| || BreaksAt(vs, from) then from else FirstBreak(vs, from + 1)
  }

  /** How many yielded values the loop processes: all of them with `-r`. */
  function StopIndex(vs: seq<Visit>, recursive: bool): (k: nat)
    ensures k <= |vs|
    ensures recursive ==> k == |vs|
  {
    if recursive then |vs| else FirstBreak(vs, 0)
  }

  /** Before the first break the walk has met at most one shelf. */
  lemma {:induction false} AtMostOneShelfBeforeBreak(vs: seq<Visit>, k: nat)
    requires k <= |vs|
    requires forall i :: 0 <= i < k ==> !BreaksAt(vs, i)
    ensures |ShelfPaths(vs[..k])| <= 1
  {
    if k > 0 {
      AtMostOneShelfBeforeBreak(vs, k - 1);
      ShelfPathsSnoc(vs, k - 1);
      assert !BreaksAt(vs, k - 1);
    }
  }

  // ---------------------------------------------------------------------------
  // Grouping

  /** One line of output: a shelf header, or a group of entries shown by the
      record of its first member with the group's size. */
  datatype Row = Header(path: seq<string>) | Line(meta: Metadata, count: nat)

  /** Every line stands for at least one entry, and neighbouring lines are of
      different cards: each line is a maximal run. */
  predicate Grouped(rows: seq<Row>)
  {
    && (forall j :: 0 <= j < |rows| && rows[j].Line? ==> rows[j].count >= 1)
    && (forall j :: 0 <= j < |rows| - 1 && rows[j].Line? && rows[j + 1].Line? ==>
          rows[j].meta.oracleId != rows[j + 1].meta.oracleId)
  }

  /** Every line shows a record whose price history is not empty. */
  predicate Printable(rows: seq<Row>)
  {
    forall j :: 0 <= j < |rows| && rows[j].Line? ==> |rows[j].meta.priceHistory| > 0
  }

  /** Every entry item's record has a latest price. */
  predicate Priced(its: seq<Item>)
  {
    forall i :: 0 <= i < |its| && its[i].EntryItem? ==> |its[i].meta.priceHistory| > 0
  }

  /** One pass of the loop body over the rows (lines 65-80): an entry whose
      `oracle_id` equals that of the line being built joins it; any other
      entry starts a new line; a shelf ends the line being built. */
  function Step(rows: seq<Row>, it: Item): (r: seq<Row>)
    ensures |rows| <= |r| <= |rows| + 1
    ensures |r| > 0 && (r[|r| - 1].Line? <==> it.EntryItem?)
    ensures it.HeaderItem? ==> r[|r| - 1] == Header(it.path)
    ensures it.EntryItem? ==> r[|r| - 1].meta.oracleId == it.meta.oracleId
  {
    match it
    case HeaderItem(p) => rows + [Header(p)]
    case EntryItem(m, _) =>
      if rows != [] && rows[|rows| - 1].Line? && rows[|rows| - 1].meta.oracleId == m.oracleId then
        rows[..|rows| - 1] + [Line(rows[|rows| - 1].meta, rows[|rows| - 1].count + 1)]
      else rows + [Line(m, 1)]
  }

  lemma StepGrouped(rows: seq<Row>, it: Item)
    requires Grouped(rows)
    ensures Grouped(Step(rows, it))
  {
  }

  lemma StepPrintable(rows: seq<Row>, it: Item)
    requires Printable(rows) && (it.EntryItem? ==> |it.meta.priceHistory| > 0)
    ensures Printable(Step(rows, it))
  {
  }

  /** The grouping `prev_entry` and `multiples` perform over a run of items. */
  function Rows(its: seq<Item>): (r: seq<Row>)
    ensures Priced(its) ==> Printable(r)
  {
    if its == [] then []
    else
      var init, it := its[..|its| - 1], its[|its| - 1];
      assert Priced(its) ==> Priced(init) && (it.EntryItem? ==> |it.meta.priceHistory| > 0);
      var rows := Rows(init);
      if Priced(its) then
        StepPrintable(rows, it);
        Step(rows, it)
      else Step(rows, it)
  }

  /** Every line of the grouping is a maximal run of at least one entry. */
  lemma {:induction false} RowsGrouped(its: seq<Item>)
    ensures Grouped(Rows(its))
  {
    if its != [] {
      RowsGrouped(its[..|its| - 1]);
      StepGrouped(Rows(its[..|its| - 1]), its[|its| - 1]);
    }
  }

  lemma RowsSnoc(its: seq<Item>, it: Item)
    ensures Rows(its + [it]) == Step(Rows(its), it)
  {
    assert (its + [it])[..|its|] == its;
  }

  /** The grouping key of an item: its shelf, or its card's `oracle_id`. */
  datatype GroupKey = ShelfKey(path: seq<string>) | CardKey(oracleId: string)

  function KeyOf(it: Item): GroupKey
  {
    match it
    case HeaderItem(p) => ShelfKey(p)
    case EntryItem(m, _) => CardKey(m.oracleId)
  }

  function Keys(its: seq<Item>): (r: seq<GroupKey>)
    ensures |r| == |its| && forall i :: 0 <= i < |its| ==> r[i] == KeyOf(its[i])
  {
    seq(|its|, i requires 0 <= i < |its| => KeyOf(its[i]))
  }

  function Repeat(k: GroupKey, n: nat): (r: seq<GroupKey>)
    ensures |r| == n && forall i :: 0 <= i < n ==> r[i] == k
  {
    if n == 0 then [] else Repeat(k, n - 1) + [k]
  }

  /** The keys a row stands for: a header its shelf, a line its count copies of its card. */
  function RowKeys(row: Row): seq<GroupKey>
  {
    match row
    case Header(p) => [ShelfKey(p)]
    case Line(m, n) => Repeat(CardKey(m.oracleId), n)
  }

  /** The rows read back into the sequence of keys they stand for. */
  function Expand(rows: seq<Row>): seq<GroupKey>
  {
    if rows == [] then [] else Expand(rows[..|rows| - 1]) + RowKeys(rows[|rows| - 1])
  }

  lemma ExpandSnoc(rows: seq<Row>, row: Row)
    ensures Expand(rows + [row]) == Expand(rows) + RowKeys(row)
  {
    assert (rows + [row])[..|rows|] == rows;
  }

  lemma StepExpand(rows: seq<Row>, it: Item)
    ensures Expand(Step(rows, it)) == Expand(rows) + [KeyOf(it)]
  {
    match it
    case HeaderItem(p) =>
      assert Step(rows, it) == rows + [Header(p)];
      ExpandSnoc(rows, Header(p));
    case EntryItem(m, _) =>
      if rows != [] && rows[|rows| - 1].Line? && rows[|rows| - 1].meta.oracleId == m.oracleId {
        var last := rows[|rows| - 1];
        var front := rows[..|rows| - 1];
        assert rows == front + [last];
        assert Step(rows, it) == front + [Line(last.meta, last.count + 1)];
        ExpandSnoc(front, last);
        ExpandSnoc(front, Line(last.meta, last.count + 1));
        assert Repeat(CardKey(m.oracleId), last.count + 1) == Repeat(CardKey(m.oracleId), last.count) + [CardKey(m.oracleId)];
      } else {
        assert Step(rows, it) == rows + [Line(m, 1)];
        ExpandSnoc(rows, Line(m, 1));
        assert Repeat(CardKey(m.oracleId), 1) == [CardKey(m.oracleId)];
      }
  }

  /** Grouping loses and adds nothing: expanding every line back into its
      count copies gives exactly the keys of the items, in order. With
      `Grouped` (counts at least one, neighbouring lines of different cards),
      each line is one maximal run of entries of one card. */
  lemma {:induction false} RowsExpand(its: seq<Item>)
    ensures Expand(Rows(its)) == Keys(its)
  {
    if its != [] {
      var init, it := its[..|its| - 1], its[|its| - 1];
      assert its == init + [it];
      RowsExpand(init);
      RowsSnoc(init, it);
      StepExpand(Rows(init), it);
      KeysSnoc(init, it);
    }
  }

  lemma KeysSnoc(init: seq<Item>, it: Item)
    ensures Keys(init + [it]) == Keys(init) + [KeyOf(it)]
  {
  }

  /** A line after one more item is either a line that was there, with the
      same rows before it, or the new last line the item starts. */
  lemma StepRowCases(rows: seq<Row>, it: Item, j: nat)
    requires j < |Step(rows, it)| && Step(rows, it)[j].Line?
    ensures var r := Step(rows, it);
            || (j < |rows| && rows[j].Line? && r[..j] == rows[..j] && r[j].meta == rows[j].meta)
            || (j == |rows| && it.EntryItem? && r == rows + [Line(it.meta, 1)])
  {
    var r := Step(rows, it);
    if it.EntryItem? && rows != [] && rows[|rows| - 1].Line? && rows[|rows| - 1].meta.oracleId == it.meta.oracleId {
      assert r[..j] == rows[..j];
    } else if j < |rows| {
      assert r[..j] == rows[..j];
    }
  }

  /** Each line shows the record of the first entry of its run: the item at the
      position where the line's keys begin. */
  lemma {:induction false} RowsFirstMember(its: seq<Item>, j: nat)
    requires j < |Rows(its)| && Rows(its)[j].Line?
    ensures |Expand(Rows(its)[..j])| < |its|
    ensures its[|Expand(Rows(its)[..j])|].EntryItem?
    ensures its[|Expand(Rows(its)[..j])|].meta == Rows(its)[j].meta
  {
    var init, it := its[..|its| - 1], its[|its| - 1];
    assert its == init + [it];
    var rows := Rows(init);
    RowsSnoc(init, it);
    StepRowCases(rows, it, j);
    if j < |rows| && rows[j].Line? && Rows(its)[..j] == rows[..j] && Rows(its)[j].meta == rows[j].meta {
      RowsFirstMember(init, j);
      assert its[|Expand(rows[..j])|] == init[|Expand(rows[..j])|];
    } else {
      RowsExpand(init);
      assert Rows(its)[..j] == rows;
    }
  }

  /** Sum of the line multiplicities. */
  function CountSum(rows: seq<Row>): nat
  {
    if rows == [] then 0
    else CountSum(rows[..|rows| - 1]) + (if rows[|rows| - 1].Line? then rows[|rows| - 1].count else 0)
  }

  /** The paths of the header rows, in order. */
  function HeaderRows(rows: seq<Row>): seq<seq<string>>
  {
    if rows == [] then []
    else HeaderRows(rows[..|rows| - 1]) + (if rows[|rows| - 1].Header? then [rows[|rows| - 1].path] else [])
  }

  /** The multiplicities add up to the number of entries, and every shelf
      item gives exactly one header, in order. */
  lemma {:induction false} RowsCounts(its: seq<Item>)
    ensures CountSum(Rows(its)) == EntryCount(its)
    ensures HeaderRows(Rows(its)) == HeaderPaths(its)
  {
    if its != [] {
      var init, it := its[..|its| - 1], its[|its| - 1];
      RowsCounts(init);
      var rows := Rows(init);
      match it
      case HeaderItem(p) =>
        assert (rows + [Header(p)])[..|rows|] == rows;
      case EntryItem(m, _) =>
        if rows != [] && rows[|rows| - 1].Line? && rows[|rows| - 1].meta.oracleId == m.oracleId {
          var front := rows[..|rows| - 1];
          assert (front + [Line(rows[|rows| - 1].meta, rows[|rows| - 1].count + 1)])[..|front|] == front;
        } else {
          assert (rows + [Line(m, 1)])[..|rows|] == rows;
        }
    }
  }

  // ---------------------------------------------------------------------------
  // Text

  /** `print_metadata(m, multiples)` (lines 86-93): the multiplicity, the name,
      set and collector number, the finish only when it is truthy, then the
      latest price. */
  function PrintMetadata(m: Metadata, multiples: nat): (s: string)
    requires |m.priceHistory| > 0
    ensures |s| > |NatToString(multiples)| + 1 && s[|NatToString(multiples)|] == 'x' && s[|s| - 1] == ']'
  {
    NatToString(multiples) + "x " + m.name + " [" + m.setCode + "#" + m.collectorNumber + "]"
    + (if Truthy(m.finish) then " [" + m.finish.value + "]" else "")
    + " [" + FormatCents(LatestPrice(m).value) + "]"
  }

  /** The multiplicity reads back from the digits before the first 'x'. */
  lemma PrintMetadataMultiples(m: Metadata, multiples: nat)
    requires |m.priceHistory| > 0
    ensures var s := PrintMetadata(m, multiples);
            var x := IndexOf(s, 'x');
            x < |s| && IsDigits(s[..x]) && ParseDigits(s[..x]) == multiples
  {
    var s := PrintMetadata(m, multiples);
    var w := NatToString(multiples);
    assert s[..|w|] == w && s[|w|] == 'x';
    assert IndexOf(s, 'x') == |w|;
    NatToStringRoundTrip(multiples);
  }

  /** The line ends with the latest price in brackets, and the text in the last
      brackets reads back as that price. */
  lemma PrintMetadataPrice(m: Metadata, multiples: nat)
    requires |m.priceHistory| > 0
    ensures var s := PrintMetadata(m, multiples);
            var b := LastIndexOf(s, '[');
            b < |s| - 1 && s[|s| - 1] == ']' && IsPriceText(s[b + 1..|s| - 1])
            && ParseCents(s[b + 1..|s| - 1]) == m.priceHistory[|m.priceHistory| - 1].price
  {
    var s := PrintMetadata(m, multiples);
    var p := FormatCents(LatestPrice(m).value);
    var head := s[..|s| - |p| - 2];
    assert s == head + "[" + p + "]";
    var b := LastIndexOf(s, '[');
    assert s[|head|] == '[';
    forall i | |head| < i < |s|
      ensures s[i] != '['
    {
      if i < |s| - 1 {
        assert s[i] == p[i - |head| - 1];
      }
    }
    assert b == |head|;
    assert s[b + 1..|s| - 1] == p;
    FormatCentsRoundTrip(LatestPrice(m).value);
  }

  /** After the multiplicity and its `x ` come the card's name and its
      `[set#collector_number]`, and then, for a truthy finish, the finish in
      brackets. */
  lemma PrintMetadataCard(m: Metadata, multiples: nat)
    requires |m.priceHistory| > 0
    ensures var card := NatToString(multiples) + "x " + m.name + " [" + m.setCode + "#" + m.collectorNumber + "]";
            && StartsWith(PrintMetadata(m, multiples), card)
            && (Truthy(m.finish) ==> StartsWith(PrintMetadata(m, multiples), card + " [" + m.finish.value + "]"))
  {
    var card := NatToString(multiples) + "x " + m.name + " [" + m.setCode + "#" + m.collectorNumber + "]";
    var rest := " [" + FormatCents(LatestPrice(m).value) + "]";
    if Truthy(m.finish) {
      StartsWithAppend(card, " [" + m.finish.value + "]", rest);
    } else {
      StartsWithAppend(card, rest, []);
    }
  }

  /** The finish shows on the line exactly when it is truthy: otherwise the
      line is the one a record without a finish gives. */
  lemma PrintMetadataFinish(m: Metadata, multiples: nat)
    requires |m.priceHistory| > 0
    ensures PrintMetadata(m, multiples) == PrintMetadata(m.(finish := None), multiples) <==> !Truthy(m.finish)
  {
    if Truthy(m.finish) {
      assert |PrintMetadata(m, multiples)| == |PrintMetadata(m.(finish := None), multiples)| + |m.finish.value| + 3;
    }
  }

  /** Line 79: the shelf path with the home directory's prefix removed. The
      start shelf at home itself has no such prefix and shows as home. */
  function HeaderLine(home: string, path: seq<string>): (s: string)
    ensures |s| >= 4 && s[..4] == "==> "
    ensures path != [] ==> s[4..] == Join(path, "/")
    ensures path == [] ==> s[4..] == home
  {
    "==> " + (if path == [] then home else Join(path, "/"))
  }

  /** Line 83. */
  function TotalLine(total: nat): (s: string)
    ensures |s| > 13 && s[..13] == "Total price: "
    ensures IsPriceText(s[13..]) && ParseCents(s[13..]) == total
  {
    FormatCentsRoundTrip(total);
    assert ("Total price: " + FormatCents(total))[13..] == FormatCents(total);
    "Total price: " + FormatCents(total)
  }

  function RowText(home: string, row: Row): string
    requires row.Line? ==> |row.meta.priceHistory| > 0
  {
    match row
    case Header(p) => HeaderLine(home, p)
    case Line(m, n) => PrintMetadata(m, n)
  }

  /** The printed rows: with `-q` the entry lines are left out, headers never. */
  function Render(rows: seq<Row>, quiet: bool, home: string): (r: seq<string>)
    requires Printable(rows)
    ensures !quiet ==> |r| == |rows| && forall j :: 0 <= j < |rows| ==> r[j] == RowText(home, rows[j])
  {
    if rows == [] then []
    else
      var init, last := rows[..|rows| - 1], rows[|rows| - 1];
      assert forall j :: 0 <= j < |init| ==> init[j] == rows[j];
      Render(init, quiet, home) + (if quiet && last.Line? then [] else [RowText(home, last)])
  }

  lemma RenderSnoc(rows: seq<Row>, row: Row, quiet: bool, home: string)
    requires Printable(rows) && (row.Line? ==> |row.meta.priceHistory| > 0)
    ensures Printable(rows + [row])
    ensures Render(rows + [row], quiet, home) ==
              Render(rows, quiet, home) + (if quiet && row.Line? then [] else [RowText(home, row)])
  {
    assert (rows + [row])[..|rows|] == rows;
    assert (rows + [row])[|rows|] == row;
    assert forall j :: 0 <= j < |rows| ==> (rows + [row])[j] == rows[j];
  }

  // ---------------------------------------------------------------------------
  // The listing

  /** The outcome of `ls`: the rows in output order and the price total. */
  datatype Report = Report(rows: seq<Row>, total: nat)

  lemma ItemsPriced(vs: seq<Visit>)
    requires Items(vs).Ok?
    ensures Priced(Items(vs).value)
  {
    var its := Items(vs).value;
    forall i | 0 <= i < |its| && its[i].EntryItem?
      ensures |its[i].meta.priceHistory| > 0
    {
      assert ItemOf(vs[i]) == Ok(its[i]);
    }
  }

  /** The report of a walk: the values are read up to where the loop stops;
      the first unreadable entry ends it with its error, and so does the
      traversal's own error when the loop asks for a value after the last one. */
  function WalkReport(walk: Traversal, recursive: bool): (r: Result<Report>)
    ensures r.Ok? ==> Printable(r.value.rows)
  {
    var k := StopIndex(walk.visits, recursive);
    match Items(walk.visits[..k])
    case Err(e) => Err(e)
    case Ok(its) =>
      ItemsPriced(walk.visits[..k]);
      if k == |walk.visits| && walk.failure.Some? then Err(walk.failure.value)
      else Ok(Report(Rows(its), SumPrices(its)))
  }

  /** Every line of a listing stands for a maximal run of entries of one card. */
  lemma ReportGrouped(walk: Traversal, recursive: bool)
    requires WalkReport(walk, recursive).Ok?
    ensures Grouped(WalkReport(walk, recursive).value.rows)
  {
    RowsGrouped(Items(walk.visits[..StopIndex(walk.visits, recursive)]).value);
  }

  /** `list_entries(shelf, q, r, sort_by)` as a value: the report of the walk
      from the named shelf, a missing shelf or a path through a file being an error. */
  function ListReport(tree: Node, shelf: seq<string>, recursive: bool, sortBy: string): (r: Result<Report>)
    ensures r.Ok? ==> Printable(r.value.rows)
    ensures Resolve(tree, shelf).Err? ==> r == Err(Resolve(tree, shelf).error)
  {
    match Resolve(tree, shelf)
    case Err(e) => Err(e)
    case Ok(start) => WalkReport(Entries(start, shelf, NormalizeSort(sortBy)), recursive)
  }

  /** The printed lines of a report: its rows, then the total. */
  function Output(r: Result<Report>, quiet: bool, home: string): Result<seq<string>>
    requires r.Ok? ==> Printable(r.value.rows)
  {
    match r
    case Err(e) => Err(e)
    case Ok(rep) => Ok(Render(rep.rows, quiet, home) + [TotalLine(rep.total)])
  }

  /** The first break is the break with no break before it. */
  lemma FirstBreakAt(vs: seq<Visit>, i: nat)
    requires i <= |vs| && (i < |vs| ==> BreaksAt(vs, i))
    requires forall j :: 0 <= j < i ==> !BreaksAt(vs, j)
    ensures FirstBreak(vs, 0) == i
  {
  }

  /** An entry that cannot be read, reached before the loop stops, is the listing's error. */
  lemma EarlyError(vs: seq<Visit>, recursive: bool, i: nat)
    requires i < |vs| && IsEntry(vs[i].node) && ItemOf(vs[i]).Err? && Items(vs[..i]).Ok?
    requires !recursive ==> forall j :: 0 <= j < i ==> !BreaksAt(vs, j)
    ensures StopIndex(vs, recursive) > i
    ensures Items(vs[..StopIndex(vs, recursive)]) == Err(ItemOf(vs[i]).error)
  {
    var k := StopIndex(vs, recursive);
    assert !BreaksAt(vs, i);
    assert k > i;
    var w := vs[..k];
    assert forall j :: 0 <= j < i ==> w[j] == vs[..i][j];
    ItemsFirstError(w, i);
  }

  /** The line being built, if any, appended to the finished rows. */
  function Flush(done: seq<Row>, prevEntry: Option<Metadata>, multiples: nat): seq<Row>
  {
    if prevEntry.Some? then done + [Line(prevEntry.value, multiples)] else done
  }

  /** The printed lines after `Flush`. */
  function FlushLines(lines: seq<string>, prevEntry: Option<Metadata>, multiples: nat, quiet: bool): seq<string>
    requires prevEntry.Some? ==> |prevEntry.value.priceHistory| > 0
  {
    if prevEntry.Some? && !quiet then lines + [PrintMetadata(prevEntry.value, multiples)] else lines
  }

  /** What the loop has read after the first `i` yielded values: their items,
      the total, `second_folder`, and no break so far. */
  ghost predicate Read(vs: seq<Visit>, i: nat, its: seq<Item>, priceTotal: nat, secondFolder: bool, recursive: bool)
  {
    && i <= |vs|
    && Items(vs[..i]) == Ok(its)
    && priceTotal == SumPrices(its)
    && (secondFolder <==> |ShelfPaths(vs[..i])| >= 1)
    && (!recursive ==> forall j :: 0 <= j < i ==> !BreaksAt(vs, j))
  }

  /** What the loop has printed for those items: the finished rows and their
      lines, and the line being built (`prev_entry`, `multiples`). */
  ghost predicate Grouping(its: seq<Item>, done: seq<Row>, prevEntry: Option<Metadata>, multiples: nat,
                           lines: seq<string>, quiet: bool, home: string)
  {
    && Rows(its) == Flush(done, prevEntry, multiples)
    && (prevEntry.None? ==> done == [] || done[|done| - 1].Header?)
    && Printable(done) && (prevEntry.Some? ==> |prevEntry.value.priceHistory| > 0)
    && lines == Render(done, quiet, home)
  }

  lemma FlushRender(done: seq<Row>, prevEntry: Option<Metadata>, multiples: nat, lines: seq<string>, quiet: bool, home: string)
    requires Printable(done) && (prevEntry.Some? ==> |prevEntry.value.priceHistory| > 0)
    requires lines == Render(done, quiet, home)
    ensures Printable(Flush(done, prevEntry, multiples))
    ensures FlushLines(lines, prevEntry, multiples, quiet) == Render(Flush(done, prevEntry, multiples), quiet, home)
  {
    if prevEntry.Some? {
      RenderSnoc(done, Line(prevEntry.value, multiples), quiet, home);
    }
  }

  /** The item read at one more position extends the items and the price total. */
  lemma ReadItemsSnoc(vs: seq<Visit>, i: nat, its: seq<Item>, priceTotal: nat, it: Item)
    requires i < |vs| && Items(vs[..i]) == Ok(its) && priceTotal == SumPrices(its) && ItemOf(vs[i]) == Ok(it)
    ensures Items(vs[..i + 1]) == Ok(its + [it])
    ensures SumPrices(its + [it]) == priceTotal + (if it.EntryItem? then it.price else 0)
  {
    ItemsSnoc(vs, i, its, it);
    assert (its + [it])[..|its|] == its;
  }

  /** One more position read without breaking keeps `second_folder` and the no-break fact. */
  lemma ReadShelvesSnoc(vs: seq<Visit>, i: nat, secondFolder: bool, recursive: bool)
    requires i < |vs| && (secondFolder <==> |ShelfPaths(vs[..i])| >= 1)
    requires !recursive ==> forall j :: 0 <= j < i ==> !BreaksAt(vs, j)
    requires IsEntry(vs[i].node) || !(secondFolder && !recursive)
    ensures (secondFolder || !IsEntry(vs[i].node)) <==> |ShelfPaths(vs[..i + 1])| >= 1
    ensures !recursive ==> forall j :: 0 <= j < i + 1 ==> !BreaksAt(vs, j)
  {
    ShelfPathsSnoc(vs, i);
  }

  /** Lines 60-64: reading a readable entry adds its item and its price. */
  lemma ReadEntry(vs: seq<Visit>, i: nat, its: seq<Item>, priceTotal: nat, secondFolder: bool, recursive: bool,
                  m: Metadata, p: nat)
    requires Read(vs, i, its, priceTotal, secondFolder, recursive)
    requires i < |vs| && IsEntry(vs[i].node) && ReadMetadata(vs[i].node) == Ok(m) && LatestPrice(m) == Ok(p)
    ensures Read(vs, i + 1, its + [EntryItem(m, p)], priceTotal + p, secondFolder, recursive)
    ensures |m.priceHistory| > 0
  {
    ReadItemsSnoc(vs, i, its, priceTotal, EntryItem(m, p));
    ReadShelvesSnoc(vs, i, secondFolder, recursive);
  }

  /** Lines 77-80: a shelf that does not stop the loop adds its header item. */
  lemma ReadShelf(vs: seq<Visit>, i: nat, its: seq<Item>, priceTotal: nat, secondFolder: bool, recursive: bool)
    requires Read(vs, i, its, priceTotal, secondFolder, recursive)
    requires i < |vs| && !IsEntry(vs[i].node) && !(secondFolder && !recursive)
    ensures Read(vs, i + 1, its + [HeaderItem(vs[i].path)], priceTotal, true, recursive)
  {
    ReadItemsSnoc(vs, i, its, priceTotal, HeaderItem(vs[i].path));
    ReadShelvesSnoc(vs, i, secondFolder, recursive);
  }

  /** An entry of the card of the last line adds one to its count. */
  lemma StepJoinsLine(done: seq<Row>, last: Metadata, multiples: nat, m: Metadata, p: nat)
    requires last.oracleId == m.oracleId
    ensures Step(done + [Line(last, multiples)], EntryItem(m, p)) == done + [Line(last, multiples + 1)]
  {
    assert (done + [Line(last, multiples)])[..|done|] == done;
  }

  /** An entry of another card than the line being built starts a line of its own. */
  lemma StepStartsLine(done: seq<Row>, prevEntry: Option<Metadata>, multiples: nat, m: Metadata, p: nat)
    requires prevEntry.None? ==> done == [] || done[|done| - 1].Header?
    requires !(prevEntry.Some? && prevEntry.value.oracleId == m.oracleId)
    ensures Step(Flush(done, prevEntry, multiples), EntryItem(m, p)) == Flush(done, prevEntry, multiples) + [Line(m, 1)]
  {
    var rows := Flush(done, prevEntry, multiples);
    if prevEntry.Some? {
      assert rows[|rows| - 1] == Line(prevEntry.value, multiples);
    }
  }

  /** Lines 65-66: an entry of the card of the line being built joins it. */
  lemma GroupJoin(its: seq<Item>, done: seq<Row>, prevEntry: Option<Metadata>, multiples: nat,
                  lines: seq<string>, quiet: bool, home: string, m: Metadata, p: nat)
    requires Grouping(its, done, prevEntry, multiples, lines, quiet, home)
    requires prevEntry.Some? && prevEntry.value.oracleId == m.oracleId
    ensures Grouping(its + [EntryItem(m, p)], done, prevEntry, multiples + 1, lines, quiet, home)
  {
    RowsSnoc(its, EntryItem(m, p));
    StepJoinsLine(done, prevEntry.value, multiples, m, p);
  }

  /** Lines 67-71: any other entry ends the line being built and starts its own. */
  lemma GroupStart(its: seq<Item>, done: seq<Row>, prevEntry: Option<Metadata>, multiples: nat,
                   lines: seq<string>, quiet: bool, home: string, m: Metadata, p: nat)
    requires Grouping(its, done, prevEntry, multiples, lines, quiet, home)
    requires !(prevEntry.Some? && prevEntry.value.oracleId == m.oracleId) && |m.priceHistory| > 0
    ensures Grouping(its + [EntryItem(m, p)], Flush(done, prevEntry, multiples), Some(m), 1,
                     FlushLines(lines, prevEntry, multiples, quiet), quiet, home)
  {
    RowsSnoc(its, EntryItem(m, p));
    FlushRender(done, prevEntry, multiples, lines, quiet, home);
    StepStartsLine(done, prevEntry, multiples, m, p);
  }

  /** Lines 73-80: a shelf that does not stop the loop ends the line being
      built and prints its header. */
  lemma GroupShelf(its: seq<Item>, done: seq<Row>, prevEntry: Option<Metadata>, multiples: nat,
                   lines: seq<string>, quiet: bool, home: string, path: seq<string>)
    requires Grouping(its, done, prevEntry, multiples, lines, quiet, home)
    ensures Grouping(its + [HeaderItem(path)], Flush(done, prevEntry, multiples) + [Header(path)], None, multiples,
                     FlushLines(lines, prevEntry, multiples, quiet) + [HeaderLine(home, path)], quiet, home)
  {
    RowsSnoc(its, HeaderItem(path));
    FlushRender(done, prevEntry, multiples, lines, quiet, home);
    RenderSnoc(Flush(done, prevEntry, multiples), Header(path), quiet, home);
  }

  /** Lines 73-76 and 81-82: flushing the line being built completes the rows. */
  lemma GroupEnd(its: seq<Item>, done: seq<Row>, prevEntry: Option<Metadata>, multiples: nat,
                 lines: seq<string>, quiet: bool, home: string)
    requires Grouping(its, done, prevEntry, multiples, lines, quiet, home)
    ensures Rows(its) == Flush(done, prevEntry, multiples) && Printable(Rows(its))
    ensures FlushLines(lines, prevEntry, multiples, quiet) == Render(Rows(its), quiet, home)
  {
    FlushRender(done, prevEntry, multiples, lines, quiet, home);
  }

  /** An unreadable entry before the loop stops: the listing's error. */
  lemma ReadError(vs: seq<Visit>, i: nat, its: seq<Item>, priceTotal: nat, secondFolder: bool, recursive: bool)
    requires Read(vs, i, its, priceTotal, secondFolder, recursive)
    requires i < |vs| && IsEntry(vs[i].node) && ItemOf(vs[i]).Err?
    ensures StopIndex(vs, recursive) > i
    ensures Items(vs[..StopIndex(vs, recursive)]) == Err(ItemOf(vs[i]).error)
  {
    EarlyError(vs, recursive, i);
  }

  /** Where the loop ends, by running out of values or at the break, it has
      read exactly the values before the stop index. */
  lemma ReadStops(vs: seq<Visit>, i: nat, its: seq<Item>, priceTotal: nat, secondFolder: bool, recursive: bool)
    requires Read(vs, i, its, priceTotal, secondFolder, recursive)
    requires i == |vs| || (!IsEntry(vs[i].node) && secondFolder && !recursive)
    ensures StopIndex(vs, recursive) == i
  {
    if i < |vs| {
      FirstBreakAt(vs, i);
    }
  }

  /** The report of a walk, once the loop has stopped at `k`. */
  lemma ReportAt(walk: Traversal, recursive: bool, k: nat, its: seq<Item>)
    requires StopIndex(walk.visits, recursive) == k && Items(walk.visits[..k]) == Ok(its)
    ensures WalkReport(walk, recursive) ==
              if k == |walk.visits| && walk.failure.Some? then Err(walk.failure.value)
              else Ok(Report(Rows(its), SumPrices(its)))
  {
  }

  /** The accumulators of the loop of `list_entries`. */
  datatype Acc = Acc(priceTotal: nat, multiples: nat, prevEntry: Option<Metadata>, secondFolder: bool, lines: seq<string>)

  /** Where the loop is after some values: still going, ended by an error, or
      stopped by the `break` (the line being built already printed). */
  datatype Scanned = Going(acc: Acc) | Failed(error: Error) | Stopped(acc: Acc)

  /** The line being built can be printed: it holds a price. */
  predicate Flushable(acc: Acc)
  {
    acc.prevEntry.Some? ==> |acc.prevEntry.value.priceHistory| > 0
  }

  /** One pass of the loop body (lines 58-80) on one yielded value. */
  function TakeValue(acc: Acc, v: Visit, quiet: bool, home: string, recursive: bool): (r: Scanned)
    requires Flushable(acc)
    ensures !r.Failed? ==> Flushable(r.acc)
  {
    if IsEntry(v.node) then
      match ReadMetadata(v.node)
      case Err(e) => Failed(e)
      case Ok(m) =>
        match LatestPrice(m)
        case Err(e) => Failed(e)
        case Ok(p) =>
          if acc.prevEntry.Some? && acc.prevEntry.value.oracleId == m.oracleId then
            Going(acc.(priceTotal := acc.priceTotal + p, multiples := acc.multiples + 1))
          else
            Going(Acc(acc.priceTotal + p, 1, Some(m), acc.secondFolder,
                      FlushLines(acc.lines, acc.prevEntry, acc.multiples, quiet)))
    else
      var lines := FlushLines(acc.lines, acc.prevEntry, acc.multiples, quiet);
      if acc.secondFolder && !recursive then Stopped(acc.(prevEntry := None, lines := lines))
      else Going(acc.(prevEntry := None, secondFolder := true, lines := lines + [HeaderLine(home, v.path)]))
  }

  /** The loop body ends the loop exactly at an entry without a readable
      record or price, with that error, and at a shelf that triggers the break. */
  lemma TakeValueEnds(acc: Acc, v: Visit, quiet: bool, home: string, recursive: bool)
    requires Flushable(acc)
    ensures var r := TakeValue(acc, v, quiet, home, recursive);
            && (r.Failed? <==> IsEntry(v.node) && EntryPrice(v.node).Err?)
            && (r.Failed? ==> EntryPrice(v.node) == Err(r.error))
            && (r.Stopped? <==> !IsEntry(v.node) && acc.secondFolder && !recursive)
  {
  }

  lemma TakeValueFails(acc: Acc, v: Visit, quiet: bool, home: string, recursive: bool, e: Error)
    requires Flushable(acc) && IsEntry(v.node) && EntryPrice(v.node) == Err(e)
    ensures TakeValue(acc, v, quiet, home, recursive) == Failed(e)
  {
  }

  /** The loop after the first `i` yielded values; once it has failed or
      stopped it stays so. */
  function ScanTo(vs: seq<Visit>, i: nat, quiet: bool, home: string, recursive: bool): (r: Scanned)
    requires i <= |vs|
    ensures !r.Failed? ==> Flushable(r.acc)
  {
    if i == 0 then Going(Acc(0, 1, None, false, []))
    else
      match ScanTo(vs, i - 1, quiet, home, recursive)
      case Going(acc) => TakeValue(acc, vs[i - 1], quiet, home, recursive)
      case other => other
  }

  /** What the loop prints, or the error it ends with: after a stop the total;
      at the end of the walk the failure of the walk, if any, else the line
      being built and the total. */
  function ScanOutput(walk: Traversal, quiet: bool, home: string, recursive: bool): Result<seq<string>>
  {
    match ScanTo(walk.visits, |walk.visits|, quiet, home, recursive)
    case Failed(e) => Err(e)
    case Stopped(acc) => Ok(acc.lines + [TotalLine(acc.priceTotal)])
    case Going(acc) =>
      if walk.failure.Some? then Err(walk.failure.value)
      else Ok(FlushLines(acc.lines, acc.prevEntry, acc.multiples, quiet) + [TotalLine(acc.priceTotal)])
  }

  /** One more value: the loop body applied to where the loop was. */
  lemma ScanStep(vs: seq<Visit>, i: nat, quiet: bool, home: string, recursive: bool)
    requires i < |vs| && ScanTo(vs, i, quiet, home, recursive).Going?
    ensures ScanTo(vs, i + 1, quiet, home, recursive) == TakeValue(ScanTo(vs, i, quiet, home, recursive).acc, vs[i], quiet, home, recursive)
  {
  }

  lemma {:induction false} ScanSticky(vs: seq<Visit>, i: nat, j: nat, quiet: bool, home: string, recursive: bool)
    requires i <= j <= |vs| && !ScanTo(vs, i, quiet, home, recursive).Going?
    ensures ScanTo(vs, j, quiet, home, recursive) == ScanTo(vs, i, quiet, home, recursive)
    decreases j - i
  {
    if i < j {
      ScanSticky(vs, i, j - 1, quiet, home, recursive);
    }
  }

  /** The loop is going after the first `i` values, with these accumulators. */
  ghost predicate At(vs: seq<Visit>, i: nat, quiet: bool, home: string, recursive: bool,
                     priceTotal: nat, multiples: nat, prevEntry: Option<Metadata>, secondFolder: bool, lines: seq<string>)
    requires i <= |vs|
  {
    var r := ScanTo(vs, i, quiet, home, recursive);
    && r.Going?
    && r.acc.priceTotal == priceTotal && r.acc.multiples == multiples && r.acc.prevEntry == prevEntry
    && r.acc.secondFolder == secondFolder && r.acc.lines == lines
  }

  /** Once the loop has failed, it ends with that error. */
  lemma FailedOutput(walk: Traversal, i: nat, quiet: bool, home: string, recursive: bool, e: Error)
    requires i <= |walk.visits| && ScanTo(walk.visits, i, quiet, home, recursive).Failed?
    requires ScanTo(walk.visits, i, quiet, home, recursive).error == e
    ensures ScanOutput(walk, quiet, home, recursive) == Err(e)
  {
    ScanSticky(walk.visits, i, |walk.visits|, quiet, home, recursive);
  }

  /** Once the loop has stopped, it prints the total after what it has printed. */
  lemma StoppedOutput(walk: Traversal, i: nat, quiet: bool, home: string, recursive: bool, acc: Acc)
    requires i <= |walk.visits| && ScanTo(walk.visits, i, quiet, home, recursive) == Stopped(acc)
    ensures ScanOutput(walk, quiet, home, recursive) == Ok(acc.lines + [TotalLine(acc.priceTotal)])
  {
    ScanSticky(walk.visits, i, |walk.visits|, quiet, home, recursive);
  }

  lemma ScanFails(vs: seq<Visit>, i: nat, quiet: bool, home: string, recursive: bool, e: Error)
    requires i < |vs| && ScanTo(vs, i, quiet, home, recursive).Going?
    requires IsEntry(vs[i].node) && EntryPrice(vs[i].node) == Err(e)
    ensures ScanTo(vs, i + 1, quiet, home, recursive).Failed?
    ensures ScanTo(vs, i + 1, quiet, home, recursive).error == e
  {
    ScanStep(vs, i, quiet, home, recursive);
    TakeValueFails(ScanTo(vs, i, quiet, home, recursive).acc, vs[i], quiet, home, recursive, e);
  }

  /** Lines 59-62: at an entry without a readable record or price the loop ends with that error. */
  lemma StepFails(walk: Traversal, i: nat, quiet: bool, home: string, recursive: bool, e: Error)
    requires i < |walk.visits| && ScanTo(walk.visits, i, quiet, home, recursive).Going?
    requires IsEntry(walk.visits[i].node) && EntryPrice(walk.visits[i].node) == Err(e)
    ensures ScanOutput(walk, quiet, home, recursive) == Err(e)
  {
    var vs := walk.visits;
    ScanFails(vs, i, quiet, home, recursive, e);
    FailedOutput(walk, i + 1, quiet, home, recursive, e);
  }

  /** Lines 73-78: at a second shelf without `-r` the loop prints the line
      being built and breaks; the total follows. */
  lemma StepBreaks(walk: Traversal, i: nat, quiet: bool, home: string, recursive: bool,
                   priceTotal: nat, multiples: nat, prevEntry: Option<Metadata>, secondFolder: bool, lines: seq<string>)
    requires i < |walk.visits| && At(walk.visits, i, quiet, home, recursive, priceTotal, multiples, prevEntry, secondFolder, lines)
    requires !IsEntry(walk.visits[i].node) && secondFolder && !recursive
    ensures prevEntry.Some? ==> |prevEntry.value.priceHistory| > 0
    ensures ScanOutput(walk, quiet, home, recursive) ==
              Ok(FlushLines(lines, prevEntry, multiples, quiet) + [TotalLine(priceTotal)])
  {
    ScanStep(walk.visits, i, quiet, home, recursive);
    StoppedOutput(walk, i + 1, quiet, home, recursive, ScanTo(walk.visits, i + 1, quiet, home, recursive).acc);
  }

  /** Lines 60-66: a readable entry of the card of the line being built joins it. */
  lemma StepJoins(vs: seq<Visit>, i: nat, quiet: bool, home: string, recursive: bool,
                  priceTotal: nat, multiples: nat, prevEntry: Option<Metadata>, secondFolder: bool, lines: seq<string>,
                  m: Metadata, p: nat)
    requires i < |vs| && At(vs, i, quiet, home, recursive, priceTotal, multiples, prevEntry, secondFolder, lines)
    requires IsEntry(vs[i].node) && ReadMetadata(vs[i].node) == Ok(m) && LatestPrice(m) == Ok(p)
    requires prevEntry.Some? && prevEntry.value.oracleId == m.oracleId
    ensures At(vs, i + 1, quiet, home, recursive, priceTotal + p, multiples + 1, prevEntry, secondFolder, lines)
  {
    ScanStep(vs, i, quiet, home, recursive);
  }

  /** Lines 60-71: a readable entry of another card prints the line being built and starts its own. */
  lemma StepStarts(vs: seq<Visit>, i: nat, quiet: bool, home: string, recursive: bool,
                   priceTotal: nat, multiples: nat, prevEntry: Option<Metadata>, secondFolder: bool, lines: seq<string>,
                   m: Metadata, p: nat)
    requires i < |vs| && At(vs, i, quiet, home, recursive, priceTotal, multiples, prevEntry, secondFolder, lines)
    requires IsEntry(vs[i].node) && ReadMetadata(vs[i].node) == Ok(m) && LatestPrice(m) == Ok(p)
    requires !(prevEntry.Some? && prevEntry.value.oracleId == m.oracleId)
    ensures prevEntry.Some? ==> |prevEntry.value.priceHistory| > 0
    ensures At(vs, i + 1, quiet, home, recursive, priceTotal + p, 1, Some(m), secondFolder,
               FlushLines(lines, prevEntry, multiples, quiet))
  {
    ScanStep(vs, i, quiet, home, recursive);
  }

  /** Lines 73-80: a shelf that does not stop the loop prints the line being built, then its header. */
  lemma StepShelf(vs: seq<Visit>, i: nat, quiet: bool, home: string, recursive: bool,
                  priceTotal: nat, multiples: nat, prevEntry: Option<Metadata>, secondFolder: bool, lines: seq<string>)
    requires i < |vs| && At(vs, i, quiet, home, recursive, priceTotal, multiples, prevEntry, secondFolder, lines)
    requires !IsEntry(vs[i].node) && !(secondFolder && !recursive)
    ensures prevEntry.Some? ==> |prevEntry.value.priceHistory| > 0
    ensures At(vs, i + 1, quiet, home, recursive, priceTotal, multiples, None, true,
               FlushLines(lines, prevEntry, multiples, quiet) + [HeaderLine(home, vs[i].path)])
  {
    ScanStep(vs, i, quiet, home, recursive);
  }

  /** The loop's invariant: what it has read and what it has printed after
      the first `i` values of the walk. */
  ghost predicate Listed(walk: Traversal, i: nat, its: seq<Item>, done: seq<Row>, priceTotal: nat, multiples: nat,
                         prevEntry: Option<Metadata>, secondFolder: bool, lines: seq<string>,
                         quiet: bool, home: string, recursive: bool)
  {
    && Read(walk.visits, i, its, priceTotal, secondFolder, recursive)
    && Grouping(its, done, prevEntry, multiples, lines, quiet, home)
  }

  /** Lines 60-66: a readable entry of the card of the line being built. */
  lemma ListedJoin(walk: Traversal, i: nat, its: seq<Item>, done: seq<Row>, priceTotal: nat, multiples: nat,
                   prevEntry: Option<Metadata>, secondFolder: bool, lines: seq<string>,
                   quiet: bool, home: string, recursive: bool, m: Metadata, p: nat)
    requires Listed(walk, i, its, done, priceTotal, multiples, prevEntry, secondFolder, lines, quiet, home, recursive)
    requires i < |walk.visits| && IsEntry(walk.visits[i].node)
    requires ReadMetadata(walk.visits[i].node) == Ok(m) && LatestPrice(m) == Ok(p)
    requires prevEntry.Some? && prevEntry.value.oracleId == m.oracleId
    ensures Listed(walk, i + 1, its + [EntryItem(m, p)], done, priceTotal + p, multiples + 1,
                   prevEntry, secondFolder, lines, quiet, home, recursive)
  {
    ReadEntry(walk.visits, i, its, priceTotal, secondFolder, recursive, m, p);
    GroupJoin(its, done, prevEntry, multiples, lines, quiet, home, m, p);
  }

  /** Lines 60-71: a readable entry of another card prints the line being
      built and starts its own. */
  lemma ListedStart(walk: Traversal, i: nat, its: seq<Item>, done: seq<Row>, priceTotal: nat, multiples: nat,
                    prevEntry: Option<Metadata>, secondFolder: bool, lines: seq<string>,
                    quiet: bool, home: string, recursive: bool, m: Metadata, p: nat)
    requires Listed(walk, i, its, done, priceTotal, multiples, prevEntry, secondFolder, lines, quiet, home, recursive)
    requires i < |walk.visits| && IsEntry(walk.visits[i].node)
    requires ReadMetadata(walk.visits[i].node) == Ok(m) && LatestPrice(m) == Ok(p)
    requires !(prevEntry.Some? && prevEntry.value.oracleId == m.oracleId)
    ensures prevEntry.Some? ==> |prevEntry.value.priceHistory| > 0
    ensures Listed(walk, i + 1, its + [EntryItem(m, p)], Flush(done, prevEntry, multiples), priceTotal + p, 1,
                   Some(m), secondFolder, FlushLines(lines, prevEntry, multiples, quiet), quiet, home, recursive)
  {
    ReadEntry(walk.visits, i, its, priceTotal, secondFolder, recursive, m, p);
    GroupStart(its, done, prevEntry, multiples, lines, quiet, home, m, p);
  }

  /** Lines 73-80: a shelf that does not stop the loop prints the line being
      built, then its header. */
  lemma ListedShelf(walk: Traversal, i: nat, its: seq<Item>, done: seq<Row>, priceTotal: nat, multiples: nat,
                    prevEntry: Option<Metadata>, secondFolder: bool, lines: seq<string>,
                    quiet: bool, home: string, recursive: bool)
    requires Listed(walk, i, its, done, priceTotal, multiples, prevEntry, secondFolder, lines, quiet, home, recursive)
    requires i < |walk.visits| && !IsEntry(walk.visits[i].node) && !(secondFolder && !recursive)
    ensures prevEntry.Some? ==> |prevEntry.value.priceHistory| > 0
    ensures var path := walk.visits[i].path;
            Listed(walk, i + 1, its + [HeaderItem(path)], Flush(done, prevEntry, multiples) + [Header(path)],
                   priceTotal, multiples, None, true, FlushLines(lines, prevEntry, multiples, quiet) + [HeaderLine(home, path)],
                   quiet, home, recursive)
  {
    ReadShelf(walk.visits, i, its, priceTotal, secondFolder, recursive);
    GroupShelf(its, done, prevEntry, multiples, lines, quiet, home, walk.visits[i].path);
  }

  /** Lines 59-62: an entry without a readable record or a price ends the
      listing with that error. */
  lemma ListedError(walk: Traversal, i: nat, its: seq<Item>, done: seq<Row>, priceTotal: nat, multiples: nat,
                    prevEntry: Option<Metadata>, secondFolder: bool, lines: seq<string>,
                    quiet: bool, home: string, recursive: bool, e: Error)
    requires Listed(walk, i, its, done, priceTotal, multiples, prevEntry, secondFolder, lines, quiet, home, recursive)
    requires i < |walk.visits| && IsEntry(walk.visits[i].node) && EntryPrice(walk.visits[i].node) == Err(e)
    ensures Output(WalkReport(walk, recursive), quiet, home) == Err(e)
  {
    ReadError(walk.visits, i, its, priceTotal, secondFolder, recursive);
  }

  /** Lines 73-83: where the loop stops, by the break or at the end of the
      walk, printing the line being built and the total completes the output,
      unless the walk itself failed. */
  lemma ListedStop(walk: Traversal, i: nat, its: seq<Item>, done: seq<Row>, priceTotal: nat, multiples: nat,
                   prevEntry: Option<Metadata>, secondFolder: bool, lines: seq<string>,
                   quiet: bool, home: string, recursive: bool)
    requires Listed(walk, i, its, done, priceTotal, multiples, prevEntry, secondFolder, lines, quiet, home, recursive)
    requires i == |walk.visits| || (!IsEntry(walk.visits[i].node) && secondFolder && !recursive)
    ensures prevEntry.Some? ==> |prevEntry.value.priceHistory| > 0
    ensures Output(WalkReport(walk, recursive), quiet, home) ==
              if i == |walk.visits| && walk.failure.Some? then Err(walk.failure.value)
              else Ok(FlushLines(lines, prevEntry, multiples, quiet) + [TotalLine(priceTotal)])
  {
    ReadStops(walk.visits, i, its, priceTotal, secondFolder, recursive);
    GroupEnd(its, done, prevEntry, multiples, lines, quiet, home);
    ReportAt(walk, recursive, i, its);
  }

  /** From a point where the loop is going with the invariant, the loop's
      output is the listing of the report. */
  lemma {:induction false} ScanFrom(walk: Traversal, i: nat, its: seq<Item>, done: seq<Row>,
                                    priceTotal: nat, multiples: nat, prevEntry: Option<Metadata>, secondFolder: bool,
                                    lines: seq<string>, quiet: bool, home: string, recursive: bool)
    requires i <= |walk.visits|
    requires At(walk.visits, i, quiet, home, recursive, priceTotal, multiples, prevEntry, secondFolder, lines)
    requires Listed(walk, i, its, done, priceTotal, multiples, prevEntry, secondFolder, lines, quiet, home, recursive)
    ensures ScanOutput(walk, quiet, home, recursive) == Output(WalkReport(walk, recursive), quiet, home)
    decreases |walk.visits| - i, 3
  {
    if i == |walk.visits| {
      ListedStop(walk, i, its, done, priceTotal, multiples, prevEntry, secondFolder, lines, quiet, home, recursive);
    } else if IsEntry(walk.visits[i].node) {
      ScanFromEntry(walk, i, its, done, priceTotal, multiples, prevEntry, secondFolder, lines, quiet, home, recursive);
    } else {
      ScanFromShelf(walk, i, its, done, priceTotal, multiples, prevEntry, secondFolder, lines, quiet, home, recursive);
    }
  }

  /** `ScanFrom` at an entry. */
  lemma {:induction false} ScanFromEntry(walk: Traversal, i: nat, its: seq<Item>, done: seq<Row>,
                                    priceTotal: nat, multiples: nat, prevEntry: Option<Metadata>, secondFolder: bool,
                                    lines: seq<string>, quiet: bool, home: string, recursive: bool)
    requires i < |walk.visits| && IsEntry(walk.visits[i].node)
    requires At(walk.visits, i, quiet, home, recursive, priceTotal, multiples, prevEntry, secondFolder, lines)
    requires Listed(walk, i, its, done, priceTotal, multiples, prevEntry, secondFolder, lines, quiet, home, recursive)
    ensures ScanOutput(walk, quiet, home, recursive) == Output(WalkReport(walk, recursive), quiet, home)
    decreases |walk.visits| - i, 2
  {
    var vs := walk.visits;
    var metadata := ReadMetadata(vs[i].node);
    if metadata.Err? {
      StepFails(walk, i, quiet, home, recursive, metadata.error);
      ListedError(walk, i, its, done, priceTotal, multiples, prevEntry, secondFolder, lines, quiet, home, recursive,
                  metadata.error);
    } else {
      var m := metadata.value;
      var price := LatestPrice(m);
      if price.Err? {
        StepFails(walk, i, quiet, home, recursive, price.error);
        ListedError(walk, i, its, done, priceTotal, multiples, prevEntry, secondFolder, lines, quiet, home, recursive,
                    price.error);
      } else if prevEntry.Some? && prevEntry.value.oracleId == m.oracleId {
        ScanFromJoin(walk, i, its, done, priceTotal, multiples, prevEntry, secondFolder, lines, quiet, home, recursive,
                     m, price.value);
      } else {
        ScanFromStart(walk, i, its, done, priceTotal, multiples, prevEntry, secondFolder, lines, quiet, home, recursive,
                      m, price.value);
      }
    }
  }

  /** `ScanFrom` at a readable entry of the card of the line being built. */
  lemma {:induction false} ScanFromJoin(walk: Traversal, i: nat, its: seq<Item>, done: seq<Row>,
                                    priceTotal: nat, multiples: nat, prevEntry: Option<Metadata>, secondFolder: bool,
                                    lines: seq<string>, quiet: bool, home: string, recursive: bool, m: Metadata, p: nat)
    requires i < |walk.visits| && IsEntry(walk.visits[i].node)
    requires ReadMetadata(walk.visits[i].node) == Ok(m) && LatestPrice(m) == Ok(p)
    requires prevEntry.Some? && prevEntry.value.oracleId == m.oracleId
    requires At(walk.visits, i, quiet, home, recursive, priceTotal, multiples, prevEntry, secondFolder, lines)
    requires Listed(walk, i, its, done, priceTotal, multiples, prevEntry, secondFolder, lines, quiet, home, recursive)
    ensures ScanOutput(walk, quiet, home, recursive) == Output(WalkReport(walk, recursive), quiet, home)
    decreases |walk.visits| - i, 1
  {
    StepJoins(walk.visits, i, quiet, home, recursive, priceTotal, multiples, prevEntry, secondFolder, lines, m, p);
    ScanFromJoined(walk, i, its, done, priceTotal, multiples, prevEntry, secondFolder, lines, quiet, home, recursive, m, p);
  }

  /** The second half of `ScanFromJoin`: the loop has already taken the entry. */
  lemma {:induction false} ScanFromJoined(walk: Traversal, i: nat, its: seq<Item>, done: seq<Row>,
                                    priceTotal: nat, multiples: nat, prevEntry: Option<Metadata>, secondFolder: bool,
                                    lines: seq<string>, quiet: bool, home: string, recursive: bool, m: Metadata, p: nat)
    requires i < |walk.visits| && IsEntry(walk.visits[i].node)
    requires ReadMetadata(walk.visits[i].node) == Ok(m) && LatestPrice(m) == Ok(p)
    requires prevEntry.Some? && prevEntry.value.oracleId == m.oracleId
    requires At(walk.visits, i + 1, quiet, home, recursive, priceTotal + p, multiples + 1, prevEntry, secondFolder, lines)
    requires Listed(walk, i, its, done, priceTotal, multiples, prevEntry, secondFolder, lines, quiet, home, recursive)
    ensures ScanOutput(walk, quiet, home, recursive) == Output(WalkReport(walk, recursive), quiet, home)
    decreases |walk.visits| - i, 0
  {
    ListedJoin(walk, i, its, done, priceTotal, multiples, prevEntry, secondFolder, lines, quiet, home, recursive, m, p);
    ScanFrom(walk, i + 1, its + [EntryItem(m, p)], done, priceTotal + p, multiples + 1, prevEntry, secondFolder, lines,
             quiet, home, recursive);
  }

  /** `ScanFrom` at a readable entry of another card. */
  lemma {:induction false} ScanFromStart(walk: Traversal, i: nat, its: seq<Item>, done: seq<Row>,
                                    priceTotal: nat, multiples: nat, prevEntry: Option<Metadata>, secondFolder: bool,
                                    lines: seq<string>, quiet: bool, home: string, recursive: bool, m: Metadata, p: nat)
    requires i < |walk.visits| && IsEntry(walk.visits[i].node)
    requires ReadMetadata(walk.visits[i].node) == Ok(m) && LatestPrice(m) == Ok(p)
    requires !(prevEntry.Some? && prevEntry.value.oracleId == m.oracleId)
    requires At(walk.visits, i, quiet, home, recursive, priceTotal, multiples, prevEntry, secondFolder, lines)
    requires Listed(walk, i, its, done, priceTotal, multiples, prevEntry, secondFolder, lines, quiet, home, recursive)
    ensures ScanOutput(walk, quiet, home, recursive) == Output(WalkReport(walk, recursive), quiet, home)
    decreases |walk.visits| - i, 1
  {
    StepStarts(walk.visits, i, quiet, home, recursive, priceTotal, multiples, prevEntry, secondFolder, lines, m, p);
    ScanFromStarted(walk, i, its, done, priceTotal, multiples, prevEntry, secondFolder, lines, quiet, home, recursive, m, p);
  }

  /** The second half of `ScanFromStart`: the loop has already taken the entry. */
  lemma {:induction false} ScanFromStarted(walk: Traversal, i: nat, its: seq<Item>, done: seq<Row>,
                                    priceTotal: nat, multiples: nat, prevEntry: Option<Metadata>, secondFolder: bool,
                                    lines: seq<string>, quiet: bool, home: string, recursive: bool, m: Metadata, p: nat)
    requires i < |walk.visits| && IsEntry(walk.visits[i].node)
    requires ReadMetadata(walk.visits[i].node) == Ok(m) && LatestPrice(m) == Ok(p)
    requires !(prevEntry.Some? && prevEntry.value.oracleId == m.oracleId)
    requires prevEntry.Some? ==> |prevEntry.value.priceHistory| > 0
    requires At(walk.visits, i + 1, quiet, home, recursive, priceTotal + p, 1, Some(m), secondFolder,
                FlushLines(lines, prevEntry, multiples, quiet))
    requires Listed(walk, i, its, done, priceTotal, multiples, prevEntry, secondFolder, lines, quiet, home, recursive)
    ensures ScanOutput(walk, quiet, home, recursive) == Output(WalkReport(walk, recursive), quiet, home)
    decreases |walk.visits| - i, 0
  {
    ListedStart(walk, i, its, done, priceTotal, multiples, prevEntry, secondFolder, lines, quiet, home, recursive, m, p);
    ScanFrom(walk, i + 1, its + [EntryItem(m, p)], Flush(done, prevEntry, multiples), priceTotal + p, 1, Some(m),
             secondFolder, FlushLines(lines, prevEntry, multiples, quiet), quiet, home, recursive);
  }

  /** `ScanFrom` at a shelf. */
  lemma {:induction false} ScanFromShelf(walk: Traversal, i: nat, its: seq<Item>, done: seq<Row>,
                                         priceTotal: nat, multiples: nat, prevEntry: Option<Metadata>, secondFolder: bool,
                                         lines: seq<string>, quiet: bool, home: string, recursive: bool)
    requires i < |walk.visits| && !IsEntry(walk.visits[i].node)
    requires At(walk.visits, i, quiet, home, recursive, priceTotal, multiples, prevEntry, secondFolder, lines)
    requires Listed(walk, i, its, done, priceTotal, multiples, prevEntry, secondFolder, lines, quiet, home, recursive)
    ensures ScanOutput(walk, quiet, home, recursive) == Output(WalkReport(walk, recursive), quiet, home)
    decreases |walk.visits| - i, 1
  {
    if secondFolder && !recursive {
      StepBreaks(walk, i, quiet, home, recursive, priceTotal, multiples, prevEntry, secondFolder, lines);
      ListedStop(walk, i, its, done, priceTotal, multiples, prevEntry, secondFolder, lines, quiet, home, recursive);
    } else {
      StepShelf(walk.visits, i, quiet, home, recursive, priceTotal, multiples, prevEntry, secondFolder, lines);
      ScanFromShelved(walk, i, its, done, priceTotal, multiples, prevEntry, secondFolder, lines, quiet, home, recursive);
    }
  }

  /** The second half of `ScanFromShelf`: the loop has already taken the shelf. */
  lemma {:induction false} ScanFromShelved(walk: Traversal, i: nat, its: seq<Item>, done: seq<Row>,
                                         priceTotal: nat, multiples: nat, prevEntry: Option<Metadata>, secondFolder: bool,
                                         lines: seq<string>, quiet: bool, home: string, recursive: bool)
    requires i < |walk.visits| && !IsEntry(walk.visits[i].node) && !(secondFolder && !recursive)
    requires prevEntry.Some? ==> |prevEntry.value.priceHistory| > 0
    requires At(walk.visits, i + 1, quiet, home, recursive, priceTotal, multiples, None, true,
                FlushLines(lines, prevEntry, multiples, quiet) + [HeaderLine(home, walk.visits[i].path)])
    requires Listed(walk, i, its, done, priceTotal, multiples, prevEntry, secondFolder, lines, quiet, home, recursive)
    ensures ScanOutput(walk, quiet, home, recursive) == Output(WalkReport(walk, recursive), quiet, home)
    decreases |walk.visits| - i, 0
  {
    var path := walk.visits[i].path;
    ListedShelf(walk, i, its, done, priceTotal, multiples, prevEntry, secondFolder, lines, quiet, home, recursive);
    ScanFrom(walk, i + 1, its + [HeaderItem(path)], Flush(done, prevEntry, multiples) + [Header(path)],
             priceTotal, multiples, None, true, FlushLines(lines, prevEntry, multiples, quiet) + [HeaderLine(home, path)],
             quiet, home, recursive);
  }

  /** The loop computes the listing of the report of the walk. */
  lemma ScanIsOutput(walk: Traversal, quiet: bool, home: string, recursive: bool)
    ensures ScanOutput(walk, quiet, home, recursive) == Output(WalkReport(walk, recursive), quiet, home)
  {
    assert walk.visits[..0] == [];
    ScanFrom(walk, 0, [], [], 0, 1, None, false, [], quiet, home, recursive);
  }

  /** `list_entries` (lines 52-83): the shelf named below home is walked with
      the sort method made acceptable. */
  method ListEntries(home: string, tree: Node, shelf: seq<string>, quiet: bool, recursive: bool, sortBy: string)
    returns (out: Result<seq<string>>)
    ensures out == Output(ListReport(tree, shelf, recursive, sortBy), quiet, home)
  {
    var sortMethod := NormalizeSort(sortBy);
    var start := Resolve(tree, shelf);
    if start.Err? {
      return Err(start.error);
    }
    var walk := Entries(start.value, shelf, sortMethod);
    out := ListWalk(home, walk, quiet, recursive);
    ScanIsOutput(walk, quiet, home, recursive);
  }

  /** The loop of `list_entries` over the values the walk yields, with the
      accumulators `price_total`, `multiples`, `prev_entry` and
      `second_folder`, and the early `break`. */
  method ListWalk(home: string, walk: Traversal, quiet: bool, recursive: bool) returns (out: Result<seq<string>>)
    ensures out == ScanOutput(walk, quiet, home, recursive)
  {
    var vs := walk.visits;
    var priceTotal: nat := 0;
    var multiples: nat := 1;
    var prevEntry: Option<Metadata> := None;
    var secondFolder := false;
    var lines: seq<string> := [];
    var i := 0;
    while i < |vs|
      invariant i <= |vs|
      invariant At(vs, i, quiet, home, recursive, priceTotal, multiples, prevEntry, secondFolder, lines)
    {
      var e := vs[i];
      if IsEntry(e.node) {
        var metadata := ReadMetadata(e.node);
        if metadata.Err? {
          StepFails(walk, i, quiet, home, recursive, metadata.error);
          return Err(metadata.error);
        }
        var m := metadata.value;
        var price := LatestPrice(m);
        if price.Err? {
          StepFails(walk, i, quiet, home, recursive, price.error);
          return Err(price.error);
        }
        if prevEntry.Some? && prevEntry.value.oracleId == m.oracleId {
          StepJoins(vs, i, quiet, home, recursive, priceTotal, multiples, prevEntry, secondFolder, lines, m, price.value);
          multiples := multiples + 1;
        } else {
          StepStarts(vs, i, quiet, home, recursive, priceTotal, multiples, prevEntry, secondFolder, lines, m, price.value);
          lines := FlushLines(lines, prevEntry, multiples, quiet);
          prevEntry := Some(m);
          multiples := 1;
        }
        priceTotal := priceTotal + price.value;
      } else if secondFolder && !recursive {
        StepBreaks(walk, i, quiet, home, recursive, priceTotal, multiples, prevEntry, secondFolder, lines);
        lines := FlushLines(lines, prevEntry, multiples, quiet);
        return Ok(lines + [TotalLine(priceTotal)]);
      } else {
        StepShelf(vs, i, quiet, home, recursive, priceTotal, multiples, prevEntry, secondFolder, lines);
        lines := FlushLines(lines, prevEntry, multiples, quiet);
        prevEntry := None;
        lines := lines + [HeaderLine(home, e.path)];
        secondFolder := true;
      }
      i := i + 1;
    }
    if walk.failure.Some? {
      return Err(walk.failure.value);
    }
    lines := FlushLines(lines, prevEntry, multiples, quiet);
    return Ok(lines + [TotalLine(priceTotal)]);
  }
}
