/** `parse_findall` (analyze.py): the inventory dump, a sequence of sections
    `["<bag>"] = {` holding item lines `["<id>"] = <quantity>`, read into a
    table from item ID to the bags holding at least one of it. */
module Inventory {
  import opened Wrappers
  import opened Text

  /** What the two anchored patterns recognise in one line. */
  datatype InventoryLine = BagHeader(bag: string) | ItemQty(id: nat, qty: nat) | Other

  // ---------------------------------------------------------------------
  // The two patterns, piece by piece, each piece given the text it starts at
  // ---------------------------------------------------------------------

  /** `bag_pattern.match(line)`: `^\["([^"]+)"\]\s*=\s*\{` */
  function MatchHeader(line: string): (r: Option<string>)
    ensures r.Some? ==> QuoteFree(r.value)
  {
    if StartsWith(line, "[\"") then HeaderName(line[2..]) else None
  }

  /** `([^"]+)"\]` followed by the table opener */
  function HeaderName(t: string): (r: Option<string>)
    ensures r.Some? ==> QuoteFree(r.value)
  {
    var h := Run(t, NotQuote);
    if h == 0 || !StartsWith(t[h..], "\"]") || !OpensTable(t[h + 2..]) then None
    else Some(t[..h])
  }

  /** `\s*=\s*\{` */
  predicate OpensTable(t: string) {
    var e := Run(t, IsSpace);
    e < |t| && t[e] == '=' &&
    var u := t[e + 1..];
    var f := Run(u, IsSpace);
    f < |u| && u[f] == '{'
  }

  /** `item_pattern.match(line)`: `^\s*\["(\d+)"\]\s*=\s*(\d+)`, giving
      `(int(group 1), int(group 2))`. */
  function MatchItem(line: string): Option<(nat, nat)> {
    var t := line[Run(line, IsSpace)..];
    if StartsWith(t, "[\"") then ItemId(t[2..]) else None
  }

  /** `(\d+)"\]` */
  function ItemId(t: string): Option<(nat, nat)> {
    var d := Run(t, IsDigit);
    if d == 0 || !StartsWith(t[d..], "\"]") then None
    else
      assert AllDigits(t[..d]);
      ItemQuantity(DecimalValue(t[..d]), t[d + 2..])
  }

  /** `\s*=\s*(\d+)` */
  function ItemQuantity(id: nat, t: string): Option<(nat, nat)> {
    var e := Run(t, IsSpace);
    if e == |t| || t[e] != '=' then None
    else
      var u := t[e + 1..];
      var v := u[Run(u, IsSpace)..];
      var g := Run(v, IsDigit);
      if g == 0 then None
      else
        assert AllDigits(v[..g]);
        Some((id, DecimalValue(v[..g])))
  }

  /** The header test comes first; only a line that is not a header is
      tried as an item line. */
  function Classify(line: string): (r: InventoryLine)
    ensures r.BagHeader? ==> QuoteFree(r.bag)
  {
    match MatchHeader(line)
    case Some(bag) => BagHeader(bag)
    case None =>
      match MatchItem(line)
      case Some((id, qty)) => ItemQty(id, qty)
      case None => Other
  }

  function ClassifyAll(lines: seq<string>): (r: seq<InventoryLine>)
    ensures |r| == |lines|
    ensures WellFormed(r)
  {
    seq(|lines|, i requires 0 <= i < |lines| => Classify(lines[i]))
  }

  /** Every header names a bag the header pattern can capture. */
  ghost predicate WellFormed(entries: seq<InventoryLine>) {
    forall j :: 0 <= j < |entries| && entries[j].BagHeader? ==> QuoteFree(entries[j].bag)
  }

  // ---------------------------------------------------------------------
  // The round trips
  // ---------------------------------------------------------------------

  /** A section header in the dump's layout: `["<bag>"]<sp1>=<sp2>{<rest>`. */
  function HeaderText(bag: string, sp1: string, sp2: string, rest: string): string {
    "[\"" + (bag + ("\"]" + (sp1 + ("=" + (sp2 + ("{" + rest))))))
  }

  /** An item line in the dump's layout: `<lead>["<id>"]<sp1>=<sp2><qty><rest>`. */
  function ItemText(lead: string, id: nat, sp1: string, sp2: string, qty: nat, rest: string): string {
    lead + ("[\"" + (Decimal(id) + ("\"]" + (sp1 + ("=" + (sp2 + (Decimal(qty) + rest)))))))
  }

  lemma OpensTableOver(sp1: string, sp2: string, rest: string)
    requires AllSpaces(sp1) && AllSpaces(sp2)
    ensures OpensTable(sp1 + ("=" + (sp2 + ("{" + rest))))
  {
    var u := sp2 + ("{" + rest);
    var t := sp1 + ("=" + u);
    RunOver(sp1, "=" + u, IsSpace);
    assert t[|sp1|] == '=' && t[|sp1| + 1..] == u;
    RunOver(sp2, "{" + rest, IsSpace);
    assert u[|sp2|] == '{';
  }

  /** A header written out is read back as a header for that bag. */
  lemma ClassifyHeader(bag: string, sp1: string, sp2: string, rest: string)
    requires QuoteFree(bag) && AllSpaces(sp1) && AllSpaces(sp2)
    ensures Classify(HeaderText(bag, sp1, sp2, rest)) == BagHeader(bag)
  {
    var x := sp1 + ("=" + (sp2 + ("{" + rest)));
    HeaderAfterOpening(bag + ("\"]" + x));
    OpensTableOver(sp1, sp2, rest);
    HeaderNameOver(bag, x);
  }

  lemma HeaderNameOver(bag: string, x: string)
    requires QuoteFree(bag) && OpensTable(x)
    ensures HeaderName(bag + ("\"]" + x)) == Some(bag)
  {
    var t := bag + ("\"]" + x);
    RunOver(bag, "\"]" + x, NotQuote);
    assert t[|bag|..] == "\"]" + x && t[|bag| + 2..] == x && t[..|bag|] == bag;
  }

  /** An item line written out is read back as that item and quantity, and
      is not taken for a header. */
  lemma ClassifyItem(lead: string, id: nat, sp1: string, sp2: string, qty: nat, rest: string)
    requires AllSpaces(lead) && AllSpaces(sp1) && AllSpaces(sp2)
    requires rest == [] || !IsDigit(rest[0])
    ensures Classify(ItemText(lead, id, sp1, sp2, qty, rest)) == ItemQty(id, qty)
  {
    ItemNotHeader(lead, id, sp1, sp2, qty, rest);
    ItemMatches(lead, id, sp1, sp2, qty, rest);
  }

  lemma ItemNotHeader(lead: string, id: nat, sp1: string, sp2: string, qty: nat, rest: string)
    requires AllSpaces(lead) && AllSpaces(sp1) && AllSpaces(sp2)
    ensures MatchHeader(ItemText(lead, id, sp1, sp2, qty, rest)) == None
  {
    var x := Decimal(id) + ("\"]" + (sp1 + ("=" + (sp2 + (Decimal(qty) + rest)))));
    DigitsNotHeaderName(Decimal(id), sp1, sp2, Decimal(qty) + rest);
    OpeningNotHeader(lead, x);
  }

  /** An opening that is indented, or whose name is not followed by a table,
      is not a header. */
  lemma OpeningNotHeader(lead: string, x: string)
    requires AllSpaces(lead) && HeaderName(x) == None
    ensures MatchHeader(lead + ("[\"" + x)) == None
  {
    var y := "[\"" + x;
    if lead == [] {
      assert lead + y == y;
      HeaderAfterOpening(x);
    } else {
      LeadingSpaceNotHeader(lead, y);
    }
  }

  lemma LeadingSpaceNotHeader(lead: string, y: string)
    requires AllSpaces(lead) && lead != []
    ensures MatchHeader(lead + y) == None
  {
    assert (lead + y)[0] == lead[0];
  }

  lemma HeaderAfterOpening(x: string)
    ensures MatchHeader("[\"" + x) == HeaderName(x)
  {
    assert ("[\"" + x)[..2] == "[\"" && ("[\"" + x)[2..] == x;
  }

  lemma DigitsNotHeaderName(di: string, sp1: string, sp2: string, v: string)
    requires AllDigits(di) && AllSpaces(sp1) && AllSpaces(sp2) && v != [] && IsDigit(v[0])
    ensures HeaderName(di + ("\"]" + (sp1 + ("=" + (sp2 + v))))) == None
  {
    var y := sp1 + ("=" + (sp2 + v));
    var x := di + ("\"]" + y);
    RunOver(di, "\"]" + y, NotQuote);
    assert x[|di|..] == "\"]" + y && x[|di| + 2..] == y;
    NoTableBeforeDigits(sp1, sp2, v);
  }

  lemma ItemMatches(lead: string, id: nat, sp1: string, sp2: string, qty: nat, rest: string)
    requires AllSpaces(lead) && AllSpaces(sp1) && AllSpaces(sp2)
    requires rest == [] || !IsDigit(rest[0])
    ensures MatchItem(ItemText(lead, id, sp1, sp2, qty, rest)) == Some((id, qty))
  {
    var line := ItemText(lead, id, sp1, sp2, qty, rest);
    var di := Decimal(id);
    var y := sp1 + ("=" + (sp2 + (Decimal(qty) + rest)));
    var x := di + ("\"]" + y);
    RunOver(lead, "[\"" + x, IsSpace);
    assert line[|lead|..] == "[\"" + x;
    assert ("[\"" + x)[2..] == x;
    ItemIdOver(id, sp1, sp2, qty, rest);
  }

  lemma ItemIdOver(id: nat, sp1: string, sp2: string, qty: nat, rest: string)
    requires AllSpaces(sp1) && AllSpaces(sp2)
    requires rest == [] || !IsDigit(rest[0])
    ensures ItemId(Decimal(id) + ("\"]" + (sp1 + ("=" + (sp2 + (Decimal(qty) + rest)))))) == Some((id, qty))
  {
    IdStep(id, sp1 + ("=" + (sp2 + (Decimal(qty) + rest))));
    ItemQuantityOver(id, sp1, sp2, qty, rest);
  }

  /** `(\d+)"\]` consumes the written ID and its closing quote and bracket. */
  lemma IdStep(id: nat, y: string)
    ensures ItemId(Decimal(id) + ("\"]" + y)) == ItemQuantity(id, y)
  {
    var di := Decimal(id);
    var x := di + ("\"]" + y);
    RunOver(di, "\"]" + y, IsDigit);
    assert x[..|di|] == di && x[|di|..] == "\"]" + y && x[|di| + 2..] == y;
    DecimalRoundTrip(id);
  }

  lemma NoTableBeforeDigits(sp1: string, sp2: string, v: string)
    requires AllSpaces(sp1) && AllSpaces(sp2) && v != [] && IsDigit(v[0])
    ensures !OpensTable(sp1 + ("=" + (sp2 + v)))
  {
    var u := sp2 + v;
    var t := sp1 + ("=" + u);
    RunOver(sp1, "=" + u, IsSpace);
    assert t[|sp1|] == '=' && t[|sp1| + 1..] == u;
    RunOver(sp2, v, IsSpace);
    assert u[|sp2|] == v[0];
  }

  lemma ItemQuantityOver(id: nat, sp1: string, sp2: string, qty: nat, rest: string)
    requires AllSpaces(sp1) && AllSpaces(sp2)
    requires rest == [] || !IsDigit(rest[0])
    ensures ItemQuantity(id, sp1 + ("=" + (sp2 + (Decimal(qty) + rest)))) == Some((id, qty))
  {
    var dq := Decimal(qty);
    var u := sp2 + (dq + rest);
    var t := sp1 + ("=" + u);
    RunOver(sp1, "=" + u, IsSpace);
    assert t[|sp1|] == '=' && t[|sp1| + 1..] == u;
    RunOver(sp2, dq + rest, IsSpace);
    assert u[|sp2|..] == dq + rest;
    RunOver(dq, rest, IsDigit);
    assert (dq + rest)[..|dq|] == dq;
    DecimalRoundTrip(qty);
  }

  /** No line is both a header and an item line: a header's `=` is followed
      by `{` where an item line's is followed by a digit. So testing the
      header pattern first never hides an item line. */
  lemma HeaderAndItemExclusive(line: string)
    ensures !(MatchHeader(line).Some? && MatchItem(line).Some?)
  {
    if MatchHeader(line).Some? {
      assert line[0] == '[';
      assert Run(line, IsSpace) == 0;
      assert line[0..] == line;
      NamedHeaderNotItem(line[2..]);
    }
  }

  lemma NamedHeaderNotItem(t: string)
    requires HeaderName(t).Some?
    ensures ItemId(t) == None
  {
    var d := Run(t, IsDigit);
    if d > 0 && StartsWith(t[d..], "\"]") {
      HeaderTableAt(t, d);
      TableNotQuantity(t[d + 2..], DecimalValue(t[..d]));
    }
  }

  lemma HeaderTableAt(t: string, d: nat)
    requires HeaderName(t).Some?
    requires d == Run(t, IsDigit) && StartsWith(t[d..], "\"]")
    ensures d + 2 <= |t| && OpensTable(t[d + 2..])
  {
    assert t[d..][0] == '"';
    RunDigitsWithinQuoted(t, d);
  }

  lemma TableNotQuantity(x: string, id: nat)
    ensures !(OpensTable(x) && ItemQuantity(id, x).Some?)
  {
    if OpensTable(x) {
      var e := Run(x, IsSpace);
      var u := x[e + 1..];
      var f := Run(u, IsSpace);
      assert u[f..][0] == '{';
    }
  }

  /** A digit run that ends at a quote is the whole quote-free run. */
  lemma RunDigitsWithinQuoted(t: string, d: nat)
    requires d == Run(t, IsDigit) && d < |t| && t[d] == '"'
    ensures Run(t, NotQuote) == d
  {
    assert forall k :: 0 <= k < d ==> NotQuote(t[k]);
  }

  // ---------------------------------------------------------------------
  // The two-state scan
  // ---------------------------------------------------------------------

  /** The scanner's state: the bag of the most recent header (`current_bag`)
      and the table built so far (`id_to_bags`). */
  datatype ScanState = ScanState(current: Option<string>, bags: map<nat, seq<string>>)

  /** `if current_bag:` - a bag has been set and, as a Python string, is
      non-empty. */
  predicate InBag(current: Option<string>) {
    current.Some? && current.value != []
  }

  function Step(st: ScanState, e: InventoryLine): ScanState {
    match e
    case BagHeader(bag) => ScanState(Some(bag), st.bags)
    case ItemQty(id, qty) =>
      if InBag(st.current) && qty > 0 then
        var list := if id in st.bags then st.bags[id] else [];
        ScanState(st.current, st.bags[id := list + [st.current.value]])
      else st
    case Other => st
  }

  /** The state after the given lines; every list in the table is
      non-empty and so is every bag in it, and, when every header names a
      quote-free bag, so is every bag in the table. */
  function Scan(entries: seq<InventoryLine>): (r: ScanState)
    ensures forall id :: id in r.bags ==> r.bags[id] != []
    ensures forall id, b :: id in r.bags && b in r.bags[id] ==> b != []
    ensures WellFormed(entries) ==> forall id, b :: id in r.bags && b in r.bags[id] ==> QuoteFree(b)
    ensures WellFormed(entries) && r.current.Some? ==> QuoteFree(r.current.value)
  {
    if entries == [] then ScanState(None, map[])
    else
      var init := entries[..|entries| - 1];
      assert WellFormed(entries) ==> WellFormed(init) by {
        forall j | 0 <= j < |init| ensures init[j] == entries[j] { }
      }
      Step(Scan(init), entries[|entries| - 1])
  }

  /** `parse_findall`, on the dump's lines. */
  method ParseFindall(lines: seq<string>) returns (idToBags: map<nat, seq<string>>)
    ensures idToBags == Scan(ClassifyAll(lines)).bags
  {
    ghost var entries := ClassifyAll(lines);
    var current: Option<string> := None;
    idToBags := map[];
    for i := 0 to |lines|
      invariant ScanState(current, idToBags) == Scan(entries[..i])
    {
      ScanPrefix(entries, i);
      var header := MatchHeader(lines[i]);
      if header.Some? {
        assert entries[i] == BagHeader(header.value);
        current := header;
        continue;
      }
      if current.Some? && current.value != [] {
        var item := MatchItem(lines[i]);
        if item.Some? {
          assert entries[i] == ItemQty(item.value.0, item.value.1);
          var (id, qty) := item.value;
          if qty > 0 {
            var list := if id in idToBags then idToBags[id] else [];
            idToBags := idToBags[id := list + [current.value]];
          }
        }
      }
    }
    assert entries[..|lines|] == entries;
  }

  lemma ScanPrefix(entries: seq<InventoryLine>, i: nat)
    requires i < |entries|
    ensures Scan(entries[..i + 1]) == Step(Scan(entries[..i]), entries[i])
  {
    assert entries[..i + 1][..i] == entries[..i];
  }

  // ---------------------------------------------------------------------
  // What the table holds
  // ---------------------------------------------------------------------

  /** The bag of the most recent header among the given lines. */
  function LastHeader(entries: seq<InventoryLine>): Option<string> {
    if entries == [] then None
    else if entries[|entries| - 1].BagHeader? then Some(entries[|entries| - 1].bag)
    else LastHeader(entries[..|entries| - 1])
  }

  /** The current bag is always the most recent header: a header line only
      switches it, and nothing else does. */
  lemma {:induction false} CurrentIsLastHeader(entries: seq<InventoryLine>)
    ensures Scan(entries).current == LastHeader(entries)
  {
    if entries != [] {
      CurrentIsLastHeader(entries[..|entries| - 1]);
    }
  }

  /** Line `j` holds a positive quantity of `id` inside the section of bag `b`. */
  ghost predicate StockedAt(entries: seq<InventoryLine>, j: int, id: nat, b: string) {
    0 <= j < |entries| && entries[j].ItemQty? && entries[j].id == id && entries[j].qty > 0
    && LastHeader(entries[..j]) == Some(b) && b != []
  }

  /** The bags of `id`, one per line holding a positive quantity of it under
      some header, in the order of those lines. */
  ghost function BagsOf(entries: seq<InventoryLine>, id: nat): seq<string> {
    if entries == [] then []
    else
      var n := |entries| - 1;
      var h := LastHeader(entries[..n]);
      BagsOf(entries[..n], id) + (if h.Some? && StockedAt(entries, n, id, h.value) then [h.value] else [])
  }

  /** The table holds exactly the items stocked somewhere, each with its bags
      in file order, repeats kept. */
  lemma {:induction false} TableIsBagsOf(entries: seq<InventoryLine>, id: nat)
    ensures id in Scan(entries).bags <==> BagsOf(entries, id) != []
    ensures id in Scan(entries).bags ==> Scan(entries).bags[id] == BagsOf(entries, id)
  {
    if entries != [] {
      var n := |entries| - 1;
      var init := entries[..n];
      TableIsBagsOf(init, id);
      CurrentIsLastHeader(init);
      assert entries[..n] == init;
    }
  }

  /** A bag is listed for an item exactly when some line of that bag's
      section holds a positive quantity of the item; in particular a bag
      whose lines for the item all have quantity 0 is never listed. */
  lemma {:induction false} ListedIffStocked(entries: seq<InventoryLine>, id: nat, b: string)
    ensures b in BagsOf(entries, id) <==> exists j :: StockedAt(entries, j, id, b)
  {
    if entries != [] {
      var n := |entries| - 1;
      var init := entries[..n];
      ListedIffStocked(init, id, b);
      if b in BagsOf(entries, id) {
        if b in BagsOf(init, id) {
          var j :| StockedAt(init, j, id, b);
          StockedInit(entries, j, id, b);
        } else {
          assert StockedAt(entries, n, id, b);
        }
      }
      if exists j :: StockedAt(entries, j, id, b) {
        var j :| StockedAt(entries, j, id, b);
        if j < n {
          StockedInit(entries, j, id, b);
          assert b in BagsOf(init, id);
        } else {
          assert LastHeader(entries[..n]).value == b;
        }
      }
    }
  }

  lemma StockedInit(entries: seq<InventoryLine>, j: nat, id: nat, b: string)
    requires j < |entries| - 1
    ensures StockedAt(entries[..|entries| - 1], j, id, b) == StockedAt(entries, j, id, b)
  {
    assert entries[..|entries| - 1][..j] == entries[..j];
  }

  /** Item lines before the first header are ignored: while no header has
      been seen the table stays empty. */
  lemma {:induction false} NoHeaderNoBags(entries: seq<InventoryLine>)
    requires LastHeader(entries) == None
    ensures Scan(entries).bags == map[]
  {
    if entries != [] {
      var init := entries[..|entries| - 1];
      NoHeaderNoBags(init);
      CurrentIsLastHeader(init);
    }
  }
}
