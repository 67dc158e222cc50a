/// The Magic: The Gathering plugin of src/plugin_mtg.py: which price of a
/// printing is read, which printing a cardset selects, and the record that
/// `get_entry_info` builds for the add command.
///
/// The two Scryfall requests are inputs (`Lookup`): the `oracle_id` the name
/// search answered, and the `data` list of the printings search. The
/// timestamp `get_timestamp` reads from the clock is a parameter.
module PluginMtg {
  import opened Records
  import opened Text

  /** A `PluginMTG` instance: its fields are set by `__init__` and never change. */
  datatype Plugin = Plugin(currency: string, version: string)

  /** `PluginMTG(currency)` (lines 6-8). */
  function NewPlugin(currency: string): Plugin
  {
    Plugin(currency, "1.0")
  }

  /** One element of the printings search's `data`: the fields the plugin reads.
      `prices` is None when the card data has no `prices` key; a price is None
      when it is JSON null. */
  datatype Printing = Printing(
    name: string,
    id: string,
    setCode: string,
    collectorNumber: string,
    prices: Option<map<string, Option<string>>>)

  // ---------------------------------------------------------------------------
  // get_price (lines 10-18)

  /** The finish the price is looked up under: only eur remaps etched to foil. */
  function PriceFinish(currency: string, finish: Option<string>): Option<string>
  {
    if currency == "eur" && finish == Some("etched") then Some("foil") else finish
  }

  /** The key of `prices` that `get_price` reads. */
  function PriceKey(currency: string, finish: Option<string>): (key: string)
    ensures !Truthy(finish) ==> key == currency
    ensures Truthy(finish) && !(currency == "eur" && finish.value == "etched") ==>
              key == currency + "_" + finish.value
    ensures currency == "eur" && finish == Some("etched") ==> key == "eur_foil"
  {
    var f := PriceFinish(currency, finish);
    if Truthy(f) then currency + "_" + f.value else currency
  }

  /** Under one currency, different finishes read different prices, except
      that eur reads the foil price for etched; and no finish reads a key of
      its own. */
  lemma PriceKeyDistinguishes(currency: string, f1: Option<string>, f2: Option<string>)
    requires PriceKey(currency, f1) == PriceKey(currency, f2)
    ensures Truthy(f1) <==> Truthy(f2)
    ensures Truthy(f1) && f1 != f2 ==>
              currency == "eur" && {f1.value, f2.value} == {"etched", "foil"}
  {
    var k1, k2 := PriceKey(currency, f1), PriceKey(currency, f2);
    var g1, g2 := PriceFinish(currency, f1), PriceFinish(currency, f2);
    if Truthy(g1) && Truthy(g2) {
      assert k1[|currency| + 1..] == g1.value;
      assert k2[|currency| + 1..] == g2.value;
    }
  }

  /** `float(prices.get(key, '0.0'))`: a missing key reads as zero, and a null
      or a text that is not a price is not a number. */
  function GetPrice(plugin: Plugin, card: Printing, finish: Option<string>): (r: Result<nat>)
    ensures r.Err? ==> r.error == PriceNotANumber
    ensures var prices := if card.prices.Some? then card.prices.value else map[];
            && (PriceKey(plugin.currency, finish) !in prices ==> r == Ok(0))
            && (PriceKey(plugin.currency, finish) in prices && prices[PriceKey(plugin.currency, finish)].None? ==>
                  r == Err(PriceNotANumber))
  {
    var prices := if card.prices.Some? then card.prices.value else map[];
    var key := PriceKey(plugin.currency, finish);
    if key !in prices then Ok(0)
    else
      match prices[key]
      case None => Err(PriceNotANumber)
      case Some(text) => if IsPriceText(text) then Ok(ParseCents(text)) else Err(PriceNotANumber)
  }

  /** A price of `c` cents reads back as `c`, whether it is spelt with two
      decimals as Scryfall sends it ("12.50") or as Python prints `c / 100`
      ("12.5"). */
  lemma GetPriceReadsPrinted(plugin: Plugin, card: Printing, finish: Option<string>, c: nat)
    requires card.prices.Some? && PriceKey(plugin.currency, finish) in card.prices.value
    requires card.prices.value[PriceKey(plugin.currency, finish)] in {Some(TwoDecimals(c)), Some(FormatCents(c))}
    ensures GetPrice(plugin, card, finish) == Ok(c)
  {
    TwoDecimalsRoundTrip(c);
    FormatCentsRoundTrip(c);
  }

  // ---------------------------------------------------------------------------
  // Printing selection (lines 38-55)

  /** `f"{card_data['set']}#{card_data['collector_number']}"`. */
  function Label(p: Printing): (s: string)
    ensures |s| == |p.setCode| + 1 + |p.collectorNumber| && s[|p.setCode|] == '#'
    ensures s[..|p.setCode|] == p.setCode && s[|p.setCode| + 1..] == p.collectorNumber
  {
    p.setCode + "#" + p.collectorNumber
  }

  /** `cardset and sf_card_set.startswith(cardset)`. */
  predicate Matches(cardset: Option<string>, tag: string)
  {
    Truthy(cardset) && StartsWith(tag, cardset.value)
  }

  /** `card_sets` after the loop: every printing's label, in order. */
  function Labels(data: seq<Printing>): (r: seq<string>)
    ensures |r| == |data| && forall i :: 0 <= i < |data| ==> r[i] == Label(data[i])
  {
    seq(|data|, i requires 0 <= i < |data| => Label(data[i]))
  }

  /** `found_pos` after the loop: the positions whose label matches, in order. */
  function MatchPositions(data: seq<Printing>, cardset: Option<string>): (r: seq<nat>)
    ensures forall k :: 0 <= k < |r| ==> r[k] < |data|
  {
    if data == [] then []
    else
      var n := |data| - 1;
      MatchPositions(data[..n], cardset) + (if Matches(cardset, Label(data[n])) then [n] else [])
  }

  /** The positions found are exactly the matching ones, each once, ascending. */
  lemma {:induction false} MatchPositionsExact(data: seq<Printing>, cardset: Option<string>)
    ensures forall j :: 0 <= j < |data| ==> (j in MatchPositions(data, cardset) <==> Matches(cardset, Label(data[j])))
    ensures forall a, b :: 0 <= a < b < |MatchPositions(data, cardset)| ==>
              MatchPositions(data, cardset)[a] < MatchPositions(data, cardset)[b]
  {
    if data != [] {
      var n := |data| - 1;
      MatchPositionsExact(data[..n], cardset);
      assert forall j :: 0 <= j < n ==> data[..n][j] == data[j];
    }
  }

  /** `[card_sets[i] for i in found_pos]`. */
  function Pick(labels: seq<string>, pos: seq<nat>): (r: seq<string>)
    requires forall k :: 0 <= k < |pos| ==> pos[k] < |labels|
    ensures |r| == |pos| && forall k :: 0 <= k < |pos| ==> r[k] == labels[pos[k]]
  {
    seq(|pos|, k requires 0 <= k < |pos| => labels[pos[k]])
  }

  /** The labels that start with the cardset, in the order of the printings. */
  function MatchingLabels(data: seq<Printing>, cardset: Option<string>): seq<string>
  {
    if data == [] then []
    else
      var n := |data| - 1;
      MatchingLabels(data[..n], cardset) + (if Matches(cardset, Label(data[n])) then [Label(data[n])] else [])
  }

  /** Picking from two runs of positions is picking from each in turn. */
  lemma PickAppend(labels: seq<string>, a: seq<nat>, b: seq<nat>)
    requires forall k :: 0 <= k < |a| ==> a[k] < |labels|
    requires forall k :: 0 <= k < |b| ==> b[k] < |labels|
    ensures Pick(labels, a + b) == Pick(labels, a) + Pick(labels, b)
  {
    assert forall k :: 0 <= k < |a + b| ==> (a + b)[k] < |labels|;
  }

  /** Positions among the first `n` printings pick the same labels from the
      first `n` printings as from all of them. */
  lemma PickPrefix(data: seq<Printing>, n: nat, pos: seq<nat>)
    requires n <= |data| && forall k :: 0 <= k < |pos| ==> pos[k] < n
    ensures Pick(Labels(data), pos) == Pick(Labels(data[..n]), pos)
  {
  }

  /** What an ambiguous cardset reports is the matching labels, in order. */
  lemma {:induction false} PickMatching(data: seq<Printing>, cardset: Option<string>)
    ensures Pick(Labels(data), MatchPositions(data, cardset)) == MatchingLabels(data, cardset)
  {
    if data != [] {
      var n := |data| - 1;
      var front := MatchPositions(data[..n], cardset);
      var last: seq<nat> := if Matches(cardset, Label(data[n])) then [n] else [];
      PickMatching(data[..n], cardset);
      assert MatchPositions(data, cardset) == front + last;
      PickAppend(Labels(data), front, last);
      PickPrefix(data, n, front);
      assert Pick(Labels(data), last) == if Matches(cardset, Label(data[n])) then [Label(data[n])] else [];
    }
  }

  /** The printing the cardset selects: '*' takes the first printing; any
      other cardset must be a prefix of exactly one label. With no match
      every label is reported, with several only the matching ones. */
  function Select(data: seq<Printing>, cardset: Option<string>): (r: Result<nat>)
    ensures cardset == Some("*") ==> r == Ok(0)
  {
    if cardset == Some("*") then Ok(0)
    else
      var found := MatchPositions(data, cardset);
      if |found| == 0 then Err(NoMatchingPrinting(Labels(data)))
      else if |found| > 1 then Err(AmbiguousPrinting(Pick(Labels(data), found)))
      else Ok(found[0])
  }

  /** No matching label: nothing is found. */
  lemma {:induction false} MatchPositionsNone(data: seq<Printing>, cardset: Option<string>)
    requires forall j :: 0 <= j < |data| ==> !Matches(cardset, Label(data[j]))
    ensures MatchPositions(data, cardset) == []
  {
    if data != [] {
      var n := |data| - 1;
      assert forall j :: 0 <= j < n ==> data[..n][j] == data[j];
      MatchPositionsNone(data[..n], cardset);
    }
  }

  /** Exactly one matching label: only its position is found. */
  lemma {:induction false} MatchPositionsOnly(data: seq<Printing>, cardset: Option<string>, k: nat)
    requires k < |data| && Matches(cardset, Label(data[k]))
    requires forall j :: 0 <= j < |data| && j != k ==> !Matches(cardset, Label(data[j]))
    ensures MatchPositions(data, cardset) == [k]
  {
    var n := |data| - 1;
    assert forall j :: 0 <= j < n ==> data[..n][j] == data[j];
    if n == k {
      MatchPositionsNone(data[..n], cardset);
    } else {
      MatchPositionsOnly(data[..n], cardset, k);
    }
  }

  lemma TwoMembers(s: seq<nat>, a: nat, b: nat)
    requires a in s && b in s && a != b
    ensures |s| >= 2
  {
    var i :| 0 <= i < |s| && s[i] == a;
    var j :| 0 <= j < |s| && s[j] == b;
    assert i != j;
  }

  /** A cardset other than '*' selects position `k` exactly when `k`'s label
      is the only one it is a prefix of. */
  lemma SelectUnique(data: seq<Printing>, cardset: Option<string>, k: nat)
    requires cardset != Some("*")
    ensures Select(data, cardset) == Ok(k) <==>
              k < |data| && Matches(cardset, Label(data[k])) &&
              forall j :: 0 <= j < |data| && j != k ==> !Matches(cardset, Label(data[j]))
  {
    var found := MatchPositions(data, cardset);
    MatchPositionsExact(data, cardset);
    if Select(data, cardset) == Ok(k) {
      assert found == [k];
    }
    if k < |data| && Matches(cardset, Label(data[k])) &&
       forall j :: 0 <= j < |data| && j != k ==> !Matches(cardset, Label(data[j])) {
      MatchPositionsOnly(data, cardset, k);
    }
  }

  /** A cardset that is a prefix of no label, an absent or empty one included,
      ends the attempt reporting every label. */
  lemma SelectNone(data: seq<Printing>, cardset: Option<string>)
    requires cardset != Some("*")
    requires forall j :: 0 <= j < |data| ==> !Matches(cardset, Label(data[j]))
    ensures Select(data, cardset) == Err(NoMatchingPrinting(Labels(data)))
  {
    MatchPositionsNone(data, cardset);
  }

  /** A cardset that is a prefix of two labels ends the attempt reporting the
      matching labels in their order. */
  lemma SelectAmbiguous(data: seq<Printing>, cardset: Option<string>, a: nat, b: nat)
    requires cardset != Some("*")
    requires a < b < |data| && Matches(cardset, Label(data[a])) && Matches(cardset, Label(data[b]))
    ensures Select(data, cardset) == Err(AmbiguousPrinting(MatchingLabels(data, cardset)))
  {
    MatchPositionsExact(data, cardset);
    PickMatching(data, cardset);
    TwoMembers(MatchPositions(data, cardset), a, b);
  }

  /** One more printing: its label is collected, and its position when it matches. */
  lemma SelectionSnoc(data: seq<Printing>, pos: nat, cardset: Option<string>)
    requires pos < |data|
    ensures Labels(data[..pos + 1]) == Labels(data[..pos]) + [Label(data[pos])]
    ensures MatchPositions(data[..pos + 1], cardset) ==
              MatchPositions(data[..pos], cardset) + (if Matches(cardset, Label(data[pos])) then [pos] else [])
  {
    assert data[..pos + 1][..pos] == data[..pos];
  }

  /** The selection loop of lines 38-55, collecting `card_sets` and `found_pos`. */
  method SelectPrinting(data: seq<Printing>, cardset: Option<string>) returns (r: Result<nat>)
    ensures r == Select(data, cardset)
  {
    if cardset == Some("*") {
      return Ok(0);
    }
    var cardSets: seq<string> := [];
    var foundPos: seq<nat> := [];
    for pos := 0 to |data|
      invariant cardSets == Labels(data[..pos])
      invariant foundPos == MatchPositions(data[..pos], cardset)
    {
      var tag := Label(data[pos]);
      SelectionSnoc(data, pos, cardset);
      if Matches(cardset, tag) {
        foundPos := foundPos + [pos];
      }
      cardSets := cardSets + [tag];
    }
    assert data[..|data|] == data;
    if |foundPos| == 0 {
      return Err(NoMatchingPrinting(cardSets));
    } else if |foundPos| > 1 {
      return Err(AmbiguousPrinting(Pick(cardSets, foundPos)));
    }
    return Ok(foundPos[0]);
  }

  // ---------------------------------------------------------------------------
  // get_entry_info (lines 24-75)

  /** The answers of the two Scryfall requests: the name search's `oracle_id`
      (None when absent) and the printings search's `data` (None when absent). */
  datatype Lookup = Lookup(oracleId: Option<string>, printings: Option<seq<Printing>>)

  /** Lines 59-61: one point, in eur whatever the plugin's currency, when the price is not zero. */
  function History(price: nat, timestamp: string): (h: seq<PricePoint>)
    ensures |h| <= 1 && (|h| == 1 <==> price != 0)
    ensures h != [] ==> h[0] == PricePoint(timestamp, price, "eur")
  {
    if price != 0 then [PricePoint(timestamp, price, "eur")] else []
  }

  /** Lines 63-73: the record of the selected printing. */
  function Record(plugin: Plugin, oracleId: string, card: Printing, finish: Option<string>,
                  history: seq<PricePoint>): (m: Metadata)
    ensures m.bookshelfType == "mtg" && m.version == plugin.version && m.oracleId == oracleId && m.finish == finish
    ensures m.name == card.name && m.scryfallId == card.id
    ensures m.setCode == card.setCode && m.collectorNumber == card.collectorNumber
    ensures LatestPrice(m) == if history == [] then Err(NoPriceHistory) else Ok(history[|history| - 1].price)
  {
    Metadata("mtg", plugin.version, card.name, oracleId, card.id, card.setCode, card.collectorNumber, finish, history)
  }

  /** `get_entry_info(entry, cardset, finish)` over the two answers: None when
      the name search found no card; otherwise the record of the printing the
      cardset selects, or the error that ends the attempt. */
  function EntryInfo(plugin: Plugin, lookup: Lookup, cardset: Option<string>, finish: Option<string>,
                     timestamp: string): (r: Result<Option<Metadata>>)
    ensures !Truthy(lookup.oracleId) ==> r == Ok(None)
    ensures Truthy(lookup.oracleId) && lookup.printings.None? ==> r == Err(NoPrintings)
  {
    if !Truthy(lookup.oracleId) then Ok(None)
    else if lookup.printings.None? then Err(NoPrintings)
    else
      var data := lookup.printings.value;
      match Select(data, cardset)
      case Err(e) => Err(e)
      case Ok(k) =>
        if k >= |data| then Err(NoPrintings)
        else
          match GetPrice(plugin, data[k], finish)
          case Err(e) => Err(e)
          case Ok(price) => Ok(Some(Record(plugin, lookup.oracleId.value, data[k], finish, History(price, timestamp))))
  }

  /** The record is an mtg record of the plugin's version for the looked-up
      card, of the selected printing, with the finish as requested (etched
      stays etched), and with one eur price point exactly when that
      printing's price is not zero. */
  lemma EntryInfoRecord(plugin: Plugin, lookup: Lookup, cardset: Option<string>, finish: Option<string>,
                        timestamp: string, m: Metadata)
    requires EntryInfo(plugin, lookup, cardset, finish, timestamp) == Ok(Some(m))
    ensures m.bookshelfType == "mtg" && m.version == plugin.version && m.finish == finish
    ensures Truthy(lookup.oracleId) && m.oracleId == lookup.oracleId.value
    ensures lookup.printings.Some?
    ensures var data := lookup.printings.value;
            var k := Select(data, cardset).value;
            && Select(data, cardset).Ok? && k < |data|
            && m.name == data[k].name && m.scryfallId == data[k].id
            && m.setCode == data[k].setCode && m.collectorNumber == data[k].collectorNumber
            && GetPrice(plugin, data[k], finish).Ok?
            && (|m.priceHistory| > 0 <==> GetPrice(plugin, data[k], finish).value != 0)
            && (|m.priceHistory| > 0 ==>
                  m.priceHistory == [PricePoint(timestamp, GetPrice(plugin, data[k], finish).value, "eur")])
  {
  }

  /** A freshly built record has a latest price exactly when it was not zero,
      and then that price is the one read. */
  lemma EntryInfoLatestPrice(plugin: Plugin, lookup: Lookup, cardset: Option<string>, finish: Option<string>,
                             timestamp: string, m: Metadata)
    requires EntryInfo(plugin, lookup, cardset, finish, timestamp) == Ok(Some(m))
    ensures var data := lookup.printings.value;
            var price := GetPrice(plugin, data[Select(data, cardset).value], finish).value;
            LatestPrice(m) == (if price != 0 then Ok(price) else Err(NoPriceHistory))
  {
    EntryInfoRecord(plugin, lookup, cardset, finish, timestamp, m);
  }

  /** `get_entry_info` with the selection loop and the conditional append. */
  method GetEntryInfo(plugin: Plugin, lookup: Lookup, cardset: Option<string>, finish: Option<string>,
                      timestamp: string) returns (r: Result<Option<Metadata>>)
    ensures r == EntryInfo(plugin, lookup, cardset, finish, timestamp)
  {
    if !Truthy(lookup.oracleId) {
      return Ok(None);
    }
    if lookup.printings.None? {
      return Err(NoPrintings);
    }
    var data := lookup.printings.value;
    var selected := SelectPrinting(data, cardset);
    if selected.Err? {
      return Err(selected.error);
    }
    var k := selected.value;
    if k >= |data| {
      return Err(NoPrintings);
    }
    var price := GetPrice(plugin, data[k], finish);
    if price.Err? {
      return Err(price.error);
    }
    var priceHistory: seq<PricePoint> := [];
    if price.value != 0 {
      priceHistory := priceHistory + [PricePoint(timestamp, price.value, "eur")];
    }
    assert priceHistory == History(price.value, timestamp);
    return Ok(Some(Record(plugin, lookup.oracleId.value, data[k], finish, priceHistory)));
  }
}
