/// The add command of src/bookshelf.py (`add_entry`, lines 96-128): the
/// finish chosen from the flags, the plugin found by shelf prefix, and the
/// `times` entry directories made for the record it returns.
///
/// The prefix table (`config.shelfs`) and the home directory are parameters.
/// The names `uuid.uuid4` draws are a parameter `freshId` numbering them.
/// What is printed is returned as lines; each made directory is returned as
/// its path and the directory node it holds.
module Add {
  import opened Records
  import opened Text
  import opened Shelf
  import opened PluginMtg

  // ---------------------------------------------------------------------------
  // Finish (lines 99-106)

  /** `--foil` and `--etched` together end the command; one of them names the finish. */
  function Finish(foil: bool, etched: bool): (r: Result<Option<string>>)
    ensures r.Err? <==> foil && etched
    ensures r.Err? ==> r.error == FoilAndEtched
    ensures r.Ok? ==> (r.value == Some("foil") <==> foil) && (r.value == Some("etched") <==> etched)
    ensures r.Ok? ==> (r.value.None? <==> !foil && !etched)
  {
    if foil && etched then Err(FoilAndEtched)
    else if foil then Ok(Some("foil"))
    else if etched then Ok(Some("etched"))
    else Ok(None)
  }

  // ---------------------------------------------------------------------------
  // Dispatch (lines 109-112)

  /** What `entry_info` holds after the loop over the first entries of the
      table: every plugin whose prefix starts the shelf is asked in turn, its
      answer replacing the previous one, and an error ends the loop. */
  function Dispatch(table: seq<(string, Plugin)>, shelf: string, lookup: Lookup, cardset: Option<string>,
                    finish: Option<string>, timestamp: string): (r: Result<Option<Metadata>>)
    ensures r.Ok? && r.value.Some? ==> LastMatch(table, shelf).Some?
  {
    if table == [] then Ok(None)
    else
      var n := |table| - 1;
      var prev := Dispatch(table[..n], shelf, lookup, cardset, finish, timestamp);
      if prev.Err? then prev
      else if StartsWith(shelf, table[n].0) then EntryInfo(table[n].1, lookup, cardset, finish, timestamp)
      else prev
  }

  /** The position of the last prefix that starts the shelf, if any. */
  function LastMatch(table: seq<(string, Plugin)>, shelf: string): (r: Option<nat>)
    ensures r.Some? ==> r.value < |table| && StartsWith(shelf, table[r.value].0) &&
                        forall j :: r.value < j < |table| ==> !StartsWith(shelf, table[j].0)
    ensures r.None? ==> forall j :: 0 <= j < |table| ==> !StartsWith(shelf, table[j].0)
  {
    if table == [] then None
    else if StartsWith(shelf, table[|table| - 1].0) then Some(|table| - 1)
    else LastMatch(table[..|table| - 1], shelf)
  }

  /** When no plugin fails, the answer is that of the last matching plugin;
      with no matching plugin there is no answer. */
  lemma {:induction false} DispatchLastWins(table: seq<(string, Plugin)>, shelf: string, lookup: Lookup,
                                            cardset: Option<string>, finish: Option<string>, timestamp: string)
    requires Dispatch(table, shelf, lookup, cardset, finish, timestamp).Ok?
    ensures var last := LastMatch(table, shelf);
            Dispatch(table, shelf, lookup, cardset, finish, timestamp) ==
              if last.None? then Ok(None) else EntryInfo(table[last.value].1, lookup, cardset, finish, timestamp)
  {
    if table != [] {
      var n := |table| - 1;
      if !StartsWith(shelf, table[n].0) {
        DispatchLastWins(table[..n], shelf, lookup, cardset, finish, timestamp);
      }
    }
  }

  /** Once a plugin has failed, the loop has ended with its error. */
  lemma {:induction false} DispatchSticky(table: seq<(string, Plugin)>, i: nat, shelf: string, lookup: Lookup,
                                          cardset: Option<string>, finish: Option<string>, timestamp: string)
    requires i <= |table| && Dispatch(table[..i], shelf, lookup, cardset, finish, timestamp).Err?
    ensures Dispatch(table, shelf, lookup, cardset, finish, timestamp) ==
              Dispatch(table[..i], shelf, lookup, cardset, finish, timestamp)
    decreases |table| - i
  {
    if i < |table| {
      assert table[..i + 1][..i] == table[..i];
      DispatchSticky(table, i + 1, shelf, lookup, cardset, finish, timestamp);
    } else {
      assert table[..i] == table;
    }
  }

  /** The loop of lines 110-112. */
  method DispatchLoop(table: seq<(string, Plugin)>, shelf: string, lookup: Lookup, cardset: Option<string>,
                      finish: Option<string>, timestamp: string) returns (info: Result<Option<Metadata>>)
    ensures info == Dispatch(table, shelf, lookup, cardset, finish, timestamp)
  {
    info := Ok(None);
    for i := 0 to |table|
      invariant info.Ok? && info == Dispatch(table[..i], shelf, lookup, cardset, finish, timestamp)
    {
      assert table[..i + 1][..i] == table[..i] && table[..i + 1][i] == table[i];
      var (prefix, plugin) := table[i];
      if StartsWith(shelf, prefix) {
        var r := GetEntryInfo(plugin, lookup, cardset, finish, timestamp);
        if r.Err? {
          DispatchSticky(table, i + 1, shelf, lookup, cardset, finish, timestamp);
          return r;
        }
        info := r;
      }
    }
    assert table[..|table|] == table;
  }

  // ---------------------------------------------------------------------------
  // Copies (lines 116-128)

  /** `os.path.join(a, b)`: an absolute `b` replaces `a`; otherwise one '/' separates them. */
  function PathJoin(a: string, b: string): (r: string)
    ensures |r| >= |b| && r[|r| - |b|..] == b
    ensures StartsWith(b, "/") ==> r == b
    ensures !StartsWith(b, "/") ==> StartsWith(r, a)
  {
    if StartsWith(b, "/") then b
    else if a == [] || a[|a| - 1] == '/' then a + b
    else a + "/" + b
  }

  /** Two names that both start with '/' or both do not join to the same path only if equal. */
  lemma PathJoinInjective(a: string, b1: string, b2: string)
    requires StartsWith(b1, "/") <==> StartsWith(b2, "/")
    requires PathJoin(a, b1) == PathJoin(a, b2)
    ensures b1 == b2
  {
    var p := PathJoin(a, b1);
    if !StartsWith(b1, "/") {
      if a == [] || a[|a| - 1] == '/' {
        assert p[|a|..] == b1 && p[|a|..] == b2;
      } else {
        assert p[|a| + 1..] == b1 && p[|a| + 1..] == b2;
      }
    }
  }

  /** `f"{entry}-{uuid}"`. */
  function EntryId(entry: string, id: string): string
  {
    entry + "-" + id
  }

  /** An entry directory named `name` holding the record's metadata file. */
  function EntryDir(name: string, m: Metadata): Node
  {
    Dir(name, [File(MetadataFileName, Some(m))])
  }

  /** The directory made on pass `k` of the copy loop: its path and its content. */
  function Copy(home: string, shelf: string, entry: string, m: Metadata, freshId: nat -> string, k: nat): (string, Node)
  {
    var name := EntryId(entry, freshId(k));
    (PathJoin(PathJoin(home, shelf), name), EntryDir(name, m))
  }

  /** `int(times)` passes of the loop: none when it is not positive. */
  function Passes(times: int): nat
  {
    if times > 0 then times else 0
  }

  /** "Adding {entry}[{set}#{collector_number}] [{price}] @ {shelf}". */
  function AddingLine(entry: string, m: Metadata, price: nat, shelf: string): (s: string)
    ensures var head := "Adding " + entry + "[" + m.setCode + "#" + m.collectorNumber + "] [";
            && StartsWith(s, head)
            && |s| >= |head| + |shelf| + 4 && s[|s| - |shelf| - 4..] == "] @ " + shelf
            && IsPriceText(s[|head|..|s| - |shelf| - 4]) && ParseCents(s[|head|..|s| - |shelf| - 4]) == price
  {
    var head := "Adding " + entry + "[" + m.setCode + "#" + m.collectorNumber + "] [";
    var p := FormatCents(price);
    FormatCentsRoundTrip(price);
    Slices(head, p, "] @ " + shelf);
    head + p + ("] @ " + shelf)
  }

  /** The three parts of a concatenation read back by slicing. */
  lemma Slices(a: string, b: string, c: string)
    ensures (a + b + c)[..|a|] == a && (a + b + c)[|a|..|a| + |b|] == b && (a + b + c)[|a| + |b|..] == c
  {
  }

  /** The first `n` copies the loop makes. */
  function Copies(home: string, shelf: string, entry: string, m: Metadata, freshId: nat -> string, n: nat): seq<(string, Node)>
  {
    seq(n, k requires 0 <= k => Copy(home, shelf, entry, m, freshId, k))
  }

  /** The paths of the made directories, in the order they were printed. */
  function Paths(made: seq<(string, Node)>): seq<string>
  {
    seq(|made|, k requires 0 <= k < |made| => made[k].0)
  }

  lemma CopiesSnoc(home: string, shelf: string, entry: string, m: Metadata, freshId: nat -> string, n: nat)
    ensures Copies(home, shelf, entry, m, freshId, n + 1)
         == Copies(home, shelf, entry, m, freshId, n) + [Copy(home, shelf, entry, m, freshId, n)]
  {
  }

  lemma PathsSnoc(made: seq<(string, Node)>, c: (string, Node))
    ensures Paths(made + [c]) == Paths(made) + [c.0]
  {
  }

  /** What the command printed and the directories it made. */
  datatype Added = Added(lines: seq<string>, made: seq<(string, Node)>)

  /** `add_entry` over the inputs the command reads. */
  function AddOutcome(home: string, shelf: string, entry: string, times: int, foil: bool, etched: bool,
                      cardset: Option<string>, table: seq<(string, Plugin)>, lookup: Lookup, timestamp: string,
                      freshId: nat -> string): (r: Result<Added>)
    ensures foil && etched ==> r == Err(FoilAndEtched)
    ensures r.Err? && !(foil && etched) ==>
              r.error == NoPriceHistory ||
              Dispatch(table, shelf, lookup, cardset, Finish(foil, etched).value, timestamp) == Err(r.error)
    ensures r.Ok? ==> r.value == Added(["Nothing found."], []) || |r.value.lines| == 1 + |r.value.made|
  {
    match Finish(foil, etched)
    case Err(e) => Err(e)
    case Ok(finish) =>
      match Dispatch(table, shelf, lookup, cardset, finish, timestamp)
      case Err(e) => Err(e)
      case Ok(None) => Ok(Added(["Nothing found."], []))
      case Ok(Some(m)) =>
        match LatestPrice(m)
        case Err(e) => Err(e)
        case Ok(price) =>
          var made := Copies(home, shelf, entry, m, freshId, Passes(times));
          Ok(Added([AddingLine(entry, m, price, shelf)] + Paths(made), made))
  }

  /** The command makes `int(times)` entry directories (none when not
      positive), each an entry whose metadata reads back as the record the
      plugin built, at distinct paths when the drawn names are distinct; it
      prints one "Adding" line and then each path. */
  lemma AddMakesEntries(home: string, shelf: string, entry: string, times: int, foil: bool, etched: bool,
                        cardset: Option<string>, table: seq<(string, Plugin)>, lookup: Lookup, timestamp: string,
                        freshId: nat -> string, a: Added)
    requires AddOutcome(home, shelf, entry, times, foil, etched, cardset, table, lookup, timestamp, freshId) == Ok(a)
    requires Dispatch(table, shelf, lookup, cardset, Finish(foil, etched).value, timestamp).Ok?
    requires Dispatch(table, shelf, lookup, cardset, Finish(foil, etched).value, timestamp).value.Some?
    ensures var m := Dispatch(table, shelf, lookup, cardset, Finish(foil, etched).value, timestamp).value.value;
            && |a.made| == Passes(times) && |a.lines| == 1 + Passes(times)
            && a.lines[0] == AddingLine(entry, m, LatestPrice(m).value, shelf)
            && (forall k :: 0 <= k < |a.made| ==> IsEntry(a.made[k].1) && ReadMetadata(a.made[k].1) == Ok(m))
            && (forall k :: 0 <= k < |a.made| ==> a.lines[k + 1] == a.made[k].0)
            && (forall k :: 0 <= k < |a.made| ==>
                  a.made[k].0 == PathJoin(PathJoin(home, shelf), EntryId(entry, freshId(k))))
  {
    var m := Dispatch(table, shelf, lookup, cardset, Finish(foil, etched).value, timestamp).value.value;
    var made := Copies(home, shelf, entry, m, freshId, Passes(times));
    var line := AddingLine(entry, m, LatestPrice(m).value, shelf);
    assert Finish(foil, etched).Ok? && LatestPrice(m).Ok?;
    assert a == Added([line] + Paths(made), made);
    forall k | 0 <= k < |made|
      ensures IsEntry(made[k].1) && ReadMetadata(made[k].1) == Ok(m)
      ensures made[k].0 == PathJoin(PathJoin(home, shelf), EntryId(entry, freshId(k)))
    {
      assert made[k] == Copy(home, shelf, entry, m, freshId, k);
      EntryDirReads(EntryId(entry, freshId(k)), m);
    }
  }

  /** A made directory holds only the metadata file, so it is an entry and reads back its record. */
  lemma EntryDirReads(name: string, m: Metadata)
    ensures IsEntry(EntryDir(name, m)) && ReadMetadata(EntryDir(name, m)) == Ok(m)
  {
  }

  /** Different names from `uuid4` give different paths. */
  lemma AddPathsDistinct(home: string, shelf: string, entry: string, m: Metadata, freshId: nat -> string,
                         k1: nat, k2: nat)
    requires freshId(k1) != freshId(k2)
    ensures Copy(home, shelf, entry, m, freshId, k1).0 != Copy(home, shelf, entry, m, freshId, k2).0
  {
    var n1, n2 := EntryId(entry, freshId(k1)), EntryId(entry, freshId(k2));
    var base := PathJoin(home, shelf);
    assert StartsWith(n1, "/") <==> StartsWith(n2, "/") by {
      if entry != [] {
        assert n1[0] == entry[0] && n2[0] == entry[0];
      } else {
        assert n1[0] == '-' && n2[0] == '-';
      }
    }
    assert n1 != n2 by {
      assert n1[|entry| + 1..] == freshId(k1);
      assert n2[|entry| + 1..] == freshId(k2);
    }
    if PathJoin(base, n1) == PathJoin(base, n2) {
      PathJoinInjective(base, n1, n2);
    }
  }

  /** With no matching plugin, or none that found the card, only "Nothing
      found." is printed and nothing is made; flags that ask for both
      finishes end the command before any plugin is asked. */
  lemma AddNothing(home: string, shelf: string, entry: string, times: int, foil: bool, etched: bool,
                   cardset: Option<string>, table: seq<(string, Plugin)>, lookup: Lookup, timestamp: string,
                   freshId: nat -> string)
    ensures foil && etched ==>
              AddOutcome(home, shelf, entry, times, foil, etched, cardset, table, lookup, timestamp, freshId) ==
                Err(FoilAndEtched)
    ensures !(foil && etched) && LastMatch(table, shelf).None? ==>
              AddOutcome(home, shelf, entry, times, foil, etched, cardset, table, lookup, timestamp, freshId) ==
                Ok(Added(["Nothing found."], []))
    ensures !(foil && etched) && !Truthy(lookup.oracleId) ==>
              AddOutcome(home, shelf, entry, times, foil, etched, cardset, table, lookup, timestamp, freshId) ==
                Ok(Added(["Nothing found."], []))
  {
    if !(foil && etched) && LastMatch(table, shelf).None? {
      NoMatchNoAnswer(table, shelf, lookup, cardset, Finish(foil, etched).value, timestamp);
    }
    if !(foil && etched) && !Truthy(lookup.oracleId) {
      NoCardNoAnswer(table, shelf, lookup, cardset, Finish(foil, etched).value, timestamp);
    }
  }

  /** When the name search finds no card, every plugin asked answers None, so
      the loop ends with None whichever prefixes match. */
  lemma {:induction false} NoCardNoAnswer(table: seq<(string, Plugin)>, shelf: string, lookup: Lookup,
                                          cardset: Option<string>, finish: Option<string>, timestamp: string)
    requires !Truthy(lookup.oracleId)
    ensures Dispatch(table, shelf, lookup, cardset, finish, timestamp) == Ok(None)
  {
    if table != [] {
      NoCardNoAnswer(table[..|table| - 1], shelf, lookup, cardset, finish, timestamp);
    }
  }

  lemma {:induction false} NoMatchNoAnswer(table: seq<(string, Plugin)>, shelf: string, lookup: Lookup,
                                           cardset: Option<string>, finish: Option<string>, timestamp: string)
    requires forall j :: 0 <= j < |table| ==> !StartsWith(shelf, table[j].0)
    ensures Dispatch(table, shelf, lookup, cardset, finish, timestamp) == Ok(None)
  {
    if table != [] {
      var n := |table| - 1;
      assert forall j :: 0 <= j < n ==> table[..n][j] == table[j];
      NoMatchNoAnswer(table[..n], shelf, lookup, cardset, finish, timestamp);
    }
  }

  /** A printing whose price reads as zero gets an empty history, and adding
      it then fails on `price_history[-1]` before anything is made. */
  lemma AddZeroPriceFails(home: string, shelf: string, entry: string, times: int, foil: bool, etched: bool,
                          cardset: Option<string>, table: seq<(string, Plugin)>, lookup: Lookup, timestamp: string,
                          freshId: nat -> string, m: Metadata)
    requires !(foil && etched)
    requires Dispatch(table, shelf, lookup, cardset, Finish(foil, etched).value, timestamp) == Ok(Some(m))
    requires LastMatch(table, shelf).Some? && lookup.printings.Some?
    requires var data := lookup.printings.value;
             var plugin := table[LastMatch(table, shelf).value].1;
             Select(data, cardset).Ok? && Select(data, cardset).value < |data| &&
             GetPrice(plugin, data[Select(data, cardset).value], Finish(foil, etched).value) == Ok(0)
    ensures AddOutcome(home, shelf, entry, times, foil, etched, cardset, table, lookup, timestamp, freshId) ==
              Err(NoPriceHistory)
  {
    var finish := Finish(foil, etched).value;
    DispatchLastWins(table, shelf, lookup, cardset, finish, timestamp);
    EntryInfoLatestPrice(table[LastMatch(table, shelf).value].1, lookup, cardset, finish, timestamp, m);
  }

  /** Lines 119-126: the copy loop, one directory and one printed path per pass. */
  method MakeCopies(home: string, shelf: string, entry: string, m: Metadata, freshId: nat -> string, n: nat)
    returns (made: seq<(string, Node)>, paths: seq<string>)
    ensures made == Copies(home, shelf, entry, m, freshId, n)
    ensures paths == Paths(made)
  {
    made, paths := [], [];
    for i := 0 to n
      invariant made == Copies(home, shelf, entry, m, freshId, i)
      invariant paths == Paths(made)
    {
      CopiesSnoc(home, shelf, entry, m, freshId, i);
      PathsSnoc(made, Copy(home, shelf, entry, m, freshId, i));
      var entryId := EntryId(entry, freshId(i));
      var path := PathJoin(PathJoin(home, shelf), entryId);
      made := made + [(path, EntryDir(entryId, m))];
      paths := paths + [path];
    }
  }

  /** `add_entry`: the finish, the dispatch loop, then the copy loop. */
  method AddEntry(home: string, shelf: string, entry: string, times: int, foil: bool, etched: bool,
                  cardset: Option<string>, table: seq<(string, Plugin)>, lookup: Lookup, timestamp: string,
                  freshId: nat -> string) returns (out: Result<Added>)
    ensures out == AddOutcome(home, shelf, entry, times, foil, etched, cardset, table, lookup, timestamp, freshId)
  {
    var finish := Finish(foil, etched);
    if finish.Err? {
      return Err(finish.error);
    }
    var entryInfo := DispatchLoop(table, shelf, lookup, cardset, finish.value, timestamp);
    if entryInfo.Err? {
      return Err(entryInfo.error);
    }
    if entryInfo.value.None? {
      return Ok(Added(["Nothing found."], []));
    }
    var m := entryInfo.value.value;
    var price := LatestPrice(m);
    if price.Err? {
      return Err(price.error);
    }
    var made, paths := MakeCopies(home, shelf, entry, m, freshId, Passes(times));
    out := Ok(Added([AddingLine(entry, m, price.value, shelf)] + paths, made));
  }
}
