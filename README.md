# bookshelf: a verified model of the shelf listing and the MTG add command

`bookshelf` keeps a collection of items as a directory tree below a home
directory. Any directory that holds a `.bookshelf.metadata` JSON file is an
**entry**: one physical item. The file holds the item's record: its name,
`oracle_id`, set, collector number, finish and a price history. Every other
directory except `.git` is a **shelf**. Two commands are modelled:

- `ls [SHELF] [-q] [-r] [--sort-by=METHOD]` walks the shelf tree:
  - Each shelf's entries are sorted by name or by latest price, and then its
    sub-shelves are walked in name order.
  - Adjacent entries with the same `oracle_id` are printed as one line with a
    multiplicity, and each shelf is printed as a `==>` header. The walk ends
    with the total of the latest prices.
  - Without `-r` the walk stops at the second shelf. With `-q` the entry lines
    are left out.
- `add SHELF ENTRY [--times=N] [--foil] [--etched] [--cardset=SET]`:
  - It picks a finish from the flags, and then the plugin whose shelf prefix
    matches. The last matching prefix wins.
  - The Magic: The Gathering plugin looks the card up. It picks one printing
    by its `set#collector_number` label, reads that printing's price, and builds
    the record.
  - The command then makes `N` entry directories holding that record.

The modules follow the program's structure:

| file | module | what |
|---|---|---|
| `records.dfy` | `Records` | the metadata record, the latest price, the error outcomes |
| `text.dfy` | `Text` | Python's `str` order, decimal numerals, how a price prints |
| `sorting.dfy` | `Sorting` | Python's stable `list.sort` on a key |
| `shelf.dfy` | `Shelf` | the directory tree, `is_bookshelf_entry`, `dirs_n_entries`, `sort_by_price`, the generator `entries` |
| `listing.dfy` | `Listing` | `list_entries` and `print_metadata`: the loop as a method, and the functions that specify it in three layers (`Items`, `Rows`, `Render`) |
| `listing_laws.dfy` | `ListingLaws` | what a listing promises about a whole tree: totals, counts, headers, `-q` |
| `plugin_mtg.dfy` | `PluginMtg` | `PluginMTG.get_price` and `get_entry_info`, with the printing-selection loop as a method |
| `add.dfy` | `Add` | `add_entry`: the finish, the plugin dispatch loop and the copy loop, each a method |

The filesystem is a value. A `Node` is either a `File` (with the record its
content parses to, if any) or a `Dir` (with its children in the order
`iterdir` lists them). The generator `entries` is a `Traversal`: the values it
yields, followed by the exception it raises when asked for more, if any. This
matters because `entries` is lazy. A sub-shelf whose entries fail to sort by
price raises only when the walk reaches it, and without `-r` the listing may
stop before that point.

Copies are grouped by comparing only the `oracle_id` of adjacent entries
(src/bookshelf.py:65). Every printing and finish of one card that sort next to
each other therefore share one line. That line shows the first copy's set,
finish and price, and its count covers them all.

Prices are whole cents (`nat`). A price prints as Python prints the float
`cents / 100` (`12.5`, `12.05`, `12.0`).

## Model

| member | source | states |
|---|---|---|
| `Shelf.DirsNEntries` | src/bookshelf.py:17-25 | the loop puts exactly the entry children into `bse` and exactly the non-entry, non-`.git` directories into `dirs`, each in enumeration order |
| `Shelf.EntryChildren` | src/bookshelf.py:21-22 | a child is kept iff it is an entry |
| `Shelf.SubShelfChildren` | src/bookshelf.py:23-24 | a child is kept iff it is a directory that is neither an entry nor named `.git` |
| `Shelf.SkippedChildren` | src/bookshelf.py:20-24 | a child is skipped iff it is a plain file or a `.git` directory that is not an entry |
| `Shelf.DirsNEntriesPartition` | src/bookshelf.py:17-25 | every child lands in exactly one of `bse`, `dirs` or skipped: the three multisets add up to the children |
| `Shelf.ReadMetadata` | src/bookshelf.py:61-62 | reading a record succeeds only on an entry, and otherwise fails as unreadable metadata |
| `Shelf.FirstPriceError` | src/bookshelf.py:46-49 | there is no error iff every entry has a latest price |
| `Shelf.SortEntries` | src/bookshelf.py:37-40 | a successful sort returns a permutation of the entries |
| `Shelf.EntryVisits` | src/bookshelf.py:41 | `yield from bse` yields each sorted entry once, in order, under the shelf's path |
| `Shelf.ReachedAllPermutation` | src/bookshelf.py:42-44 | the set of shelves and entries below a directory does not depend on the order its sub-shelves are walked in |
| `Shelf.EntriesYieldsReached` | src/bookshelf.py:34-44 | a traversal that does not fail yields every shelf and entry reachable from its start exactly once (as a multiset) |
| `Shelf.EntriesAllYieldsReached` | src/bookshelf.py:42-44 | the same for the walk over a list of sub-shelves |
| `Shelf.IsEntry` | src/bookshelf.py:27-32 | a node is an entry iff it is a directory with a child named `.bookshelf.metadata` |
| `Shelf.EntryPrice` | src/bookshelf.py:46-49 | the sort key of `price` exists iff the metadata reads and has a non-empty history, and then is the last point's price; otherwise the error is unreadable metadata or no price history |
| `Shelf.Entries` | src/bookshelf.py:34-41 | the generator always yields at least one value, and the first is the shelf it starts on, at its own path |
| `Shelf.EntriesAll` | src/bookshelf.py:42-44 | the walk of sub-shelves that yields nothing has not failed; one that yields something has a first sub-shelf and yields it first, at its own path |
| `Shelf.EntriesStart` | src/bookshelf.py:35 | the generator yields the shelf it starts on before anything else |
| `Shelf.EntriesAllStart` | src/bookshelf.py:43-44 | the walk of a non-empty list of sub-shelves starts with the first of them, at its own path |
| `Shelf.EntriesAllFirst` | src/bookshelf.py:43-44 | a walk over sub-shelves that yields nothing has not failed, and one that yields something yields the first sub-shelf first |
| `Shelf.EntriesShape` | src/bookshelf.py:34-44 | at a directory whose entries sort: the shelf, then its sorted entries, then the sub-shelves sorted ascending by name, each a permutation of what `dirs_n_entries` returned |
| `Shelf.EntriesSortedByName` | src/bookshelf.py:37-38 | `alpha` never fails, gives ascending names and a permutation, and keeps entries with equal names in their order |
| `Shelf.EntriesSortedByPrice` | src/bookshelf.py:39-40 | `price` succeeds iff every entry has a latest price, and then gives ascending prices, a permutation, and keeps equal prices in their order |
| `Sorting.Insert` | src/bookshelf.py:38 | inserting an element gives a permutation of the element and the list |
| `Sorting.Sort` | src/bookshelf.py:38 | the sort returns a permutation of its input |
| `Sorting.InsertSorted` | src/bookshelf.py:38 | inserting into an ascending list keeps it ascending |
| `Sorting.SortSorted` | src/bookshelf.py:38 | the sort's result is ascending on the key |
| `Sorting.InsertStable` | src/bookshelf.py:40 | insertion keeps the relative order of elements with equal keys |
| `Sorting.SortStable` | src/bookshelf.py:40 | the sort is stable: for every key value, the elements with that key keep their original order |
| `Records.LatestPrice` | src/bookshelf.py:63 | `price_history[-1]['price']` succeeds iff the history is non-empty, and then gives the last point's price |
| `Text.NatToString` | src/bookshelf.py:88 | a count prints as a non-empty string of digits, one digit long exactly below 10 |
| `Text.NatToStringRoundTrip` | src/bookshelf.py:88 | reading the printed digits back gives the number |
| `Text.FormatCents` | src/bookshelf.py:92 | a price prints as digits and a dot only, never a bracket |
| `Text.FormatCentsRoundTrip` | src/bookshelf.py:92 | a printed price is well formed and reads back as the same number of cents |
| `Listing.Resolve` | src/bookshelf.py:59 | the empty path names the home directory; resolution fails only as a missing shelf or as a path through a plain file |
| `Listing.ResolveAppend` | src/bookshelf.py:59 | resolving `a + b` is resolving `b` below what `a` names, or the error of resolving `a` |
| `Text.TwoDecimals` | src/plugin_mtg.py:18 | Scryfall's two-decimal spelling of a price is digits, then a dot, then exactly two digits |
| `Text.TwoDecimalsRoundTrip` | src/plugin_mtg.py:18 | the two-decimal spelling is well formed and reads back as the same number of cents |
| `Listing.NormalizeSort` | src/bookshelf.py:57 | the method used is always acceptable, and an acceptable method is kept |
| `Listing.ItemOf` | src/bookshelf.py:60-64 | a shelf contributes its header, and an entry contributes its record and latest price or fails exactly as reading its price fails |
| `Listing.Items` | src/bookshelf.py:59-64 | a run of values reads iff each value reads, and then item `i` is what value `i` contributes |
| `Listing.ItemsFirstError` | src/bookshelf.py:59-63 | the error of a run is the error of its first unreadable value |
| `Listing.FirstBreak` | src/bookshelf.py:77-78 | the first position where the loop breaks, with no break before it |
| `Listing.StopIndex` | src/bookshelf.py:77-78 | with `-r` the loop processes every yielded value |
| `Listing.AtMostOneShelfBeforeBreak` | src/bookshelf.py:77-80 | before the first break the walk has met at most one shelf |
| `Listing.Step` | src/bookshelf.py:65-80 | one pass adds at most one row; the last row is a line iff the value was an entry; a shelf's last row is its header; an entry's last line shows its card |
| `Listing.StepGrouped` | src/bookshelf.py:65-80 | one pass of the loop body keeps every line a maximal run of at least one entry of one card |
| `Listing.StepPrintable` | src/bookshelf.py:65-80 | one pass keeps every printed record priced |
| `Listing.Rows` | src/bookshelf.py:65-82 | the grouping of priced items prints only priced records |
| `Listing.RowsGrouped` | src/bookshelf.py:65-76 | in the grouping, every line has a count of at least one, and no two neighbouring lines share an `oracle_id` |
| `Listing.StepExpand` | src/bookshelf.py:65-80 | one pass adds exactly the key of the new value to what the rows stand for |
| `Listing.RowsExpand` | src/bookshelf.py:65-82 | grouping loses and adds nothing: expanding each line into `count` copies of its card gives back the sequence of keys read |
| `Listing.RowsFirstMember` | src/bookshelf.py:67-71 | each line shows the record of the first entry of its run |
| `Listing.RowsCounts` | src/bookshelf.py:65-80 | the multiplicities add up to the number of entries, and the headers are the shelves read, in order |
| `Listing.PrintMetadata` | src/bookshelf.py:86-93 | the line starts with the multiplicity's digits followed by `x`, and ends with `]` |
| `Listing.HeaderLine` | src/bookshelf.py:79 | a header is `==> ` followed by the shelf path joined by `/`, or by home for the home directory itself |
| `Listing.TotalLine` | src/bookshelf.py:83 | the last line is `Total price: ` followed by a price text that reads back as the total |
| `Listing.PrintMetadataCard` | src/bookshelf.py:88-91 | after `{n}x ` the line shows the record's name and `[set#collector_number]`, followed by ` [finish]` when the finish is truthy |
| `Listing.PrintMetadataMultiples` | src/bookshelf.py:86-88 | the multiplicity reads back from the digits before the first `x` |
| `Listing.PrintMetadataPrice` | src/bookshelf.py:87-92 | the line ends with the latest price in brackets, and that text reads back as the price |
| `Listing.PrintMetadataFinish` | src/bookshelf.py:90-91 | the finish changes the line iff it is truthy |
| `Listing.Render` | src/bookshelf.py:68-82 | without `-q` each row prints exactly one line, in order |
| `Listing.ItemsPriced` | src/bookshelf.py:63 | every entry item that was read has a non-empty price history |
| `Listing.WalkReport` | src/bookshelf.py:59-83 | a listing prints only priced records |
| `Listing.ReportGrouped` | src/bookshelf.py:65-82 | every line of a listing stands for a maximal run of entries of one card |
| `Listing.ListReport` | src/bookshelf.py:52-59 | the listing of a named shelf prints only priced records; a shelf that does not resolve ends the listing with the resolution's error (missing, or below a plain file) |
| `Listing.FirstBreakAt` | src/bookshelf.py:77-78 | a break with no break before it is the first break |
| `Listing.EarlyError` | src/bookshelf.py:59-64 | an unreadable entry reached before the loop stops is the listing's error |
| `Listing.FlushRender` | src/bookshelf.py:73-76 | printing the line being built is printing the flushed rows |
| `Listing.ReadEntry` | src/bookshelf.py:60-64 | a readable entry adds its item and its price to what the loop has read |
| `Listing.ReadShelf` | src/bookshelf.py:77-80 | a shelf that does not stop the loop adds its header item and sets `second_folder` |
| `Listing.StepJoinsLine` | src/bookshelf.py:65-66 | an entry of the card of the last line adds one to that line's count |
| `Listing.StepStartsLine` | src/bookshelf.py:67-71 | an entry of another card starts a new line with count one |
| `Listing.GroupJoin` | src/bookshelf.py:65-66 | the loop's `prev_entry` and `multiples` stay the grouping of what was read when an entry of the same card comes |
| `Listing.GroupStart` | src/bookshelf.py:67-71 | the same, when an entry of another card comes: the old line is printed unless `-q`, and the new one starts |
| `Listing.GroupShelf` | src/bookshelf.py:73-80 | the same at a shelf: the line being built is printed and its header follows |
| `Listing.GroupEnd` | src/bookshelf.py:81-82 | the final flush completes the rows and their printed lines |
| `Listing.ReadError` | src/bookshelf.py:59-63 | an unreadable entry before the loop stops makes the listing fail with its error |
| `Listing.ReadStops` | src/bookshelf.py:77-78 | the loop ends, at the end of the values or at the break, exactly where `StopIndex` stops reading |
| `Listing.ReportAt` | src/bookshelf.py:77-83 | once the loop has stopped, the listing is the grouping and total of what was read, unless the generator raised at its end |
| `Listing.TakeValue` | src/bookshelf.py:59-80 | a pass of the loop body that does not fail leaves a printable line being built |
| `Listing.TakeValueEnds` | src/bookshelf.py:59-80 | the loop body fails exactly at an entry whose price cannot be read, with that error, and breaks exactly at a shelf after a shelf without `-r` |
| `Listing.TakeValueFails` | src/bookshelf.py:61-63 | an entry with an unreadable price ends the loop with that error |
| `Listing.ScanTo` | src/bookshelf.py:59-80 | the loop after any number of values that has not failed has a printable line being built |
| `Listing.ScanStep` | src/bookshelf.py:59-80 | one more value applies the loop body to where the loop was |
| `Listing.ScanSticky` | src/bookshelf.py:59-80 | once the loop has failed or stopped, later values change nothing |
| `Listing.FailedOutput` | src/bookshelf.py:61-63 | once the loop has failed, the command ends with that error |
| `Listing.StoppedOutput` | src/bookshelf.py:78-83 | once the loop has broken, the total follows what was printed |
| `Listing.ScanFails` | src/bookshelf.py:61-63 | an unreadable entry makes the loop fail with its error |
| `Listing.StepFails` | src/bookshelf.py:59-63 | the same, seen from the whole command |
| `Listing.StepBreaks` | src/bookshelf.py:73-83 | at a second shelf without `-r`, the pending line, then the total, are printed |
| `Listing.StepJoins` | src/bookshelf.py:60-66 | an entry of the pending card adds its price and one to `multiples` |
| `Listing.StepStarts` | src/bookshelf.py:60-71 | an entry of another card adds its price, prints the pending line unless `-q`, and starts its own with `multiples` one |
| `Listing.StepShelf` | src/bookshelf.py:73-80 | a shelf that does not stop the loop prints the pending line unless `-q`, then its header, and sets `second_folder` |
| `Listing.ListedJoin` | src/bookshelf.py:65-66 | the loop invariant (what was read and printed) survives an entry of the pending card |
| `Listing.ListedStart` | src/bookshelf.py:67-71 | the loop invariant survives an entry of another card |
| `Listing.ListedShelf` | src/bookshelf.py:73-80 | the loop invariant survives a shelf that does not stop the loop |
| `Listing.ListedError` | src/bookshelf.py:59-63 | under the loop invariant, an unreadable entry is the listing's error |
| `Listing.ListedStop` | src/bookshelf.py:77-83 | under the loop invariant, where the loop stops its output is the listing's rows and total, or the generator's error |
| `Listing.ScanFrom` | src/bookshelf.py:59-83 | from any point where the loop is going with its invariant, it prints the rendered `WalkReport` of the walk |
| `Listing.ScanFromEntry` | src/bookshelf.py:60-71 | the same, at an entry |
| `Listing.ScanFromJoin` | src/bookshelf.py:65-66 | the same, at an entry of the pending card |
| `Listing.ScanFromJoined` | src/bookshelf.py:65-66 | the same, after that entry has been taken |
| `Listing.ScanFromStart` | src/bookshelf.py:67-71 | the same, at an entry of another card |
| `Listing.ScanFromStarted` | src/bookshelf.py:67-71 | the same, after that entry has been taken |
| `Listing.ScanFromShelf` | src/bookshelf.py:72-80 | the same, at a shelf |
| `Listing.ScanFromShelved` | src/bookshelf.py:73-80 | the same, after that shelf has been taken |
| `Listing.ScanIsOutput` | src/bookshelf.py:59-83 | the loop prints exactly the rendered report of the walk, or fails with its error |
| `Listing.ListEntries` | src/bookshelf.py:52-83 | `list_entries` prints the rendered report of the named shelf, or fails as it does |
| `Listing.ListWalk` | src/bookshelf.py:59-83 | the loop over the yielded values computes the loop's specified output |
| `ListingLaws.SumOfPermutation` | src/bookshelf.py:64 | a total does not depend on the order the prices are added in |
| `ListingLaws.ItemsSum` | src/bookshelf.py:59-64 | the price total of readable values is the sum of their entries' latest prices, the count is their number of entries, and the headers are their shelves |
| `ListingLaws.RecursiveTotal` | src/bookshelf.py:52-83 | with `-r` the total is the sum of the latest prices of every entry reachable from the shelf, the multiplicities add up to the number of those entries, and each has a price |
| `ListingLaws.WalkTotals` | src/bookshelf.py:59-83 | a walk read to its end without error totals the prices and counts the entries of all its values |
| `ListingLaws.ItemsPrices` | src/bookshelf.py:63 | every entry among readable values has a latest price |
| `ListingLaws.OneHeaderWithoutRecursion` | src/bookshelf.py:77-80 | without `-r` at most one header is printed, and it is the listed shelf's when that is not an entry |
| `ListingLaws.WalkHeaders` | src/bookshelf.py:77-80 | without `-r` a walk prints at most one header, the first value's when that is a shelf |
| `ListingLaws.StopsAtFirstSubShelf` | src/bookshelf.py:34-44 | without `-r` the loop stops right after the shelf and its sorted entries, before any sub-shelf is walked |
| `ListingLaws.EntriesSplit` | src/bookshelf.py:34-44 | a shelf's traversal yields the shelf and its sorted entries first, then nothing more or a sub-shelf |
| `ListingLaws.BreakAfterHead` | src/bookshelf.py:77-78 | a walk that opens with a shelf breaks at the next shelf |
| `ListingLaws.ShelfSeen` | src/bookshelf.py:80 | after a walk's opening shelf, `second_folder` is set |
| `ListingLaws.NoBreakInHead` | src/bookshelf.py:77-78 | nothing in the shelf and its entries stops the loop |
| `ListingLaws.DirectEntriesWithoutRecursion` | src/bookshelf.py:52-83 | without `-r`, listing a shelf totals and counts exactly its direct entries |
| `ListingLaws.DirectSums` | src/bookshelf.py:59-71 | the shelf and its entries, in any sorted order, total their entries' prices and count their entries |
| `ListingLaws.QuietShowsOnlyHeaders` | src/bookshelf.py:68-82 | with `-q` the printed rows are exactly the headers, in order |
| `ListingLaws.UnknownSortIsAlpha` | src/bookshelf.py:57 | an unknown sort method lists exactly as `alpha` does |
| `PluginMtg.PriceKey` | src/plugin_mtg.py:14-17 | no finish reads the plain currency; a finish reads `currency_finish`, except that eur reads etched as foil |
| `PluginMtg.PriceKeyDistinguishes` | src/plugin_mtg.py:13-17 | two finishes read the same price only if both or neither are set, and two different set finishes do so only as eur etched and foil |
| `PluginMtg.GetPrice` | src/plugin_mtg.py:10-18 | a missing key (or missing `prices`) reads as zero; a null price is not a number; the only error is "not a number" |
| `PluginMtg.GetPriceReadsPrinted` | src/plugin_mtg.py:18 | a price of `c` cents reads back as `c`, spelt with two decimals as Scryfall sends it (`12.50`) or as Python prints `c / 100` (`12.5`) |
| `PluginMtg.Label` | src/plugin_mtg.py:45 | the label is the set code, `#`, then the collector number |
| `PluginMtg.Labels` | src/plugin_mtg.py:45-48 | `card_sets` holds every printing's `set#collector_number`, in order |
| `PluginMtg.MatchPositions` | src/plugin_mtg.py:44-47 | every position found is a printing's position |
| `PluginMtg.MatchPositionsExact` | src/plugin_mtg.py:44-47 | `found_pos` holds exactly the positions whose label starts with a truthy cardset, ascending |
| `PluginMtg.Pick` | src/plugin_mtg.py:52 | `[card_sets[i] for i in found_pos]`: the label at each found position |
| `PluginMtg.PickMatching` | src/plugin_mtg.py:52 | the labels reported for an ambiguous cardset are the matching labels in printing order |
| `PluginMtg.Select` | src/plugin_mtg.py:38-55 | `*` selects the first printing |
| `PluginMtg.MatchPositionsNone` | src/plugin_mtg.py:46-47 | no matching label, no position found |
| `PluginMtg.MatchPositionsOnly` | src/plugin_mtg.py:46-47 | one matching label, only its position found |
| `PluginMtg.SelectUnique` | src/plugin_mtg.py:50-55 | a cardset other than `*` selects position `k` iff `k`'s label is the only one that starts with it |
| `PluginMtg.SelectNone` | src/plugin_mtg.py:51-53 | a cardset that matches nothing, an absent or empty one included, ends reporting all labels |
| `PluginMtg.SelectAmbiguous` | src/plugin_mtg.py:51-53 | a cardset that matches two labels ends reporting the matching labels |
| `PluginMtg.SelectionSnoc` | src/plugin_mtg.py:44-48 | one more printing appends its label, and its position when it matches |
| `PluginMtg.SelectPrinting` | src/plugin_mtg.py:38-55 | the selection loop computes the selection |
| `PluginMtg.History` | src/plugin_mtg.py:59-61 | the history has one point iff the price is not zero, and that point is the price in eur at the timestamp |
| `PluginMtg.Record` | src/plugin_mtg.py:63-73 | the record is an mtg record of the plugin's version with the given `oracle_id` and finish and the printing's name, id, set and number; its latest price is the history's last, or none for an empty history |
| `PluginMtg.EntryInfo` | src/plugin_mtg.py:24-75 | a falsy `oracle_id` gives no record; a missing printing list is an error |
| `PluginMtg.EntryInfoRecord` | src/plugin_mtg.py:57-73 | the record is an mtg record of the plugin's version, with the finish asked for and the looked-up `oracle_id`, and the selected printing's name, id, set and number; its history is one eur point at the price iff the price is not zero |
| `PluginMtg.EntryInfoLatestPrice` | src/plugin_mtg.py:59-61 | a new record has a latest price iff the price read was not zero, and then it is that price |
| `PluginMtg.GetEntryInfo` | src/plugin_mtg.py:24-75 | `get_entry_info` with its selection loop computes the specified record |
| `Add.Finish` | src/bookshelf.py:99-106 | both flags end the command; otherwise the finish is foil iff `--foil`, etched iff `--etched`, none iff neither |
| `Add.Dispatch` | src/bookshelf.py:109-112 | the loop has a record only when some prefix matches the shelf |
| `Add.LastMatch` | src/bookshelf.py:110-111 | the last prefix that starts the shelf, with no later one matching, or none at all |
| `Add.DispatchLastWins` | src/bookshelf.py:109-112 | when no plugin fails, the answer is the last matching plugin's, or nothing |
| `Add.DispatchSticky` | src/bookshelf.py:110-112 | once a plugin has failed, the loop ends with its error |
| `Add.DispatchLoop` | src/bookshelf.py:109-112 | the loop over `config.shelfs` computes the dispatch |
| `Add.PathJoin` | src/bookshelf.py:121 | the joined path ends with the name; an absolute name replaces the base; a relative one follows the base |
| `Add.AddingLine` | src/bookshelf.py:118 | the line starts with `Adding `, the entry name and the record's `[set#collector_number] [`, ends with `] @ ` and the shelf, and the price text between reads back as the price |
| `Add.AddOutcome` | src/bookshelf.py:96-128 | both finish flags end the command; any other error is the missing price history or a plugin's error; a success prints "Nothing found." alone or one line more than the directories it makes |
| `Add.PathJoinInjective` | src/bookshelf.py:121 | `os.path.join` of one base with two names that are both relative or both absolute is equal only for equal names |
| `Add.AddMakesEntries` | src/bookshelf.py:116-126 | `int(times)` directories are made (none when not positive); each is an entry whose metadata reads back as the record, made at `os.path.join(home, shelf, entry_id)` with `entry_id` the entry name, `-` and the drawn uuid; the "Adding" line for the record, its latest price and the shelf is printed first, and then each path |
| `Add.EntryDirReads` | src/bookshelf.py:122-125 | a made directory is an entry that reads back the record written into it |
| `Add.AddPathsDistinct` | src/bookshelf.py:120-121 | different `uuid4` names give different paths |
| `Add.AddNothing` | src/bookshelf.py:99-128 | both finish flags end the command; with no matching plugin, or when the name search finds no card (src/plugin_mtg.py:29), only "Nothing found." is printed and nothing is made |
| `Add.NoMatchNoAnswer` | src/bookshelf.py:109-112 | with no matching prefix, `entry_info` stays None |
| `Add.NoCardNoAnswer` | src/bookshelf.py:109-112 | when the name search finds no card, `entry_info` is None whichever plugins match |
| `Add.AddZeroPriceFails` | src/bookshelf.py:116-117 | a selected printing whose price reads as zero gets an empty history, and then `price_history[-1]` ends the command with an error |
| `Add.CopiesSnoc` | src/bookshelf.py:119-126 | one more pass of the copy loop appends one copy |
| `Add.MakeCopies` | src/bookshelf.py:119-126 | the copy loop makes the `n` specified directories and prints their paths in order |
| `Add.AddEntry` | src/bookshelf.py:96-128 | `add_entry` computes the specified outcome: the error, or the printed lines and the directories made |

## Left out

- The filesystem and JSON are values. `iterdir` order is the order of a directory's children. Opening and parsing a metadata file is `ReadMetadata`. Making a directory and writing its file are returned as the copies made; they are not inserted into the tree.
- `PluginMtg.GetPrice`: prices are whole cents. Python's floats, the float sum of `price_total` and float parsing are not modelled. A price text reads as a number only in the form Scryfall prints it (digits, a dot, one or two digits). Any other spelling that `float()` would accept is treated as not a number.
- The two Scryfall HTTP requests are inputs (`Lookup`). Every plugin consulted in one `add` sees the same answers.
- `uuid.uuid4` is a parameter `freshId`, and the clock behind `get_timestamp` is a parameter `timestamp`. `AddPathsDistinct` states what holds when the drawn names differ.
- The command-line layer (`pyclicommander`, `main`), the configuration file (`config.home`, `config.shelfs`) and `print` are not modelled. Printed text is returned as lines.
- `PluginMtg.Select`: an ambiguous or unmatched cardset prints the labels and calls `sys.exit(0)`. The model ends with an error that carries those labels instead.
- `Add.Finish`: `add_entry` calls `sys.exit(1)` on both finish flags, but `sys` is never imported in src/bookshelf.py, so the command ends with a `NameError` instead. Either way it ends without doing anything more, and the model ends with `FoilAndEtched`.
- An error part-way through a command is modelled as the error alone. The lines printed before it are dropped; that includes the shelf header printed before `iterdir` raises on a missing shelf or a path through a plain file.
- `Path.mkdir` failing on an existing path is not modelled.
- `int(times)` is modelled on an integer argument; parsing a non-numeric `times` is not.
- A record's `name`, `id`, `set` and `collector_number` fields are strings. Scryfall leaving one of them out (`card_info.get` answering None) is not modelled.
- `PluginMtg.GetPrice`: a `prices` value of JSON null cannot be expressed; `prices` is either a map or missing. In the source a null `prices` makes `prices.get` raise `AttributeError` (src/plugin_mtg.py:11,18), while a missing one reads as zero.
- The shelf argument is a list of path components, resolved one by one below home. How the command line's string is split into components is not modelled, and neither is the rest of `os.path.join` and the OS's path resolution: an absolute shelf replacing home, `.`, `..` and repeated slashes.
- Symbolic links are not modelled: a `Node` is a finite tree, so a link, and a cycle of links, cannot be expressed.
- The home directory is taken to be absolute and written without a trailing slash. A relative home would break the prefix removal of the `==>` headers in the source.
- `PluginMTG.get_timestamp` is a parameter, and `PluginMTG.__init__` is `NewPlugin`, with no contract beyond its body.
