/** `parse_items` (analyze.py): the item catalog, one entry per line of the
    form `[<index>] = {id=<n>,en="<name>"...`, read into a lower-cased
    name -> ID table and an ID -> name table. */
module Catalog {
  import opened Text

  /** What the catalog pattern recognises in one line. */
  datatype CatalogLine = ItemLine(index: nat, name: string) | Other

  /** The pattern `\[(\d+)\]\s*=\s*\{id=\d+,en="([^"]+)"` matched against
      the start of `t`. Each repetition in it is followed by a character its
      class excludes, so the longest run is the only one that can succeed;
      the pattern is checked piece by piece, one function per piece, each
      given the text its piece starts at. */
  function MatchAt(t: string): (r: CatalogLine)
    ensures r.ItemLine? ==> QuoteFree(r.name)
  {
    if t != [] && t[0] == '[' then MatchIndex(t[1..]) else Other
  }

  /** `(\d+)\]` */
  function MatchIndex(t: string): (r: CatalogLine)
    ensures r.ItemLine? ==> QuoteFree(r.name)
  {
    var d := Run(t, IsDigit);
    if d == 0 || d == |t| || t[d] != ']' then Other
    else
      assert AllDigits(t[..d]);
      MatchIdField(DecimalValue(t[..d]), t[d + 1..])
  }

  /** `\s*=\s*\{id=` */
  function MatchIdField(index: nat, t: string): (r: CatalogLine)
    ensures r.ItemLine? ==> QuoteFree(r.name)
  {
    var e := Run(t, IsSpace);
    if e == |t| || t[e] != '=' then Other
    else
      var u := t[e + 1..];
      var f := Run(u, IsSpace);
      if !StartsWith(u[f..], "{id=") then Other
      else MatchIdDigits(index, u[f + 4..])
  }

  /** `\d+,en="` */
  function MatchIdDigits(index: nat, t: string): (r: CatalogLine)
    ensures r.ItemLine? ==> QuoteFree(r.name)
  {
    var g := Run(t, IsDigit);
    if g == 0 || !StartsWith(t[g..], ",en=\"") then Other
    else MatchName(index, t[g + 5..])
  }

  /** `([^"]+)"` */
  function MatchName(index: nat, t: string): (r: CatalogLine)
    ensures r.ItemLine? ==> QuoteFree(r.name)
  {
    var h := Run(t, NotQuote);
    if h == 0 || h == |t| then Other else ItemLine(index, t[..h])
  }

  /** `pattern.search(line)`: the match at the leftmost position where
      there is one. */
  function SearchFrom(s: string, p: nat): (r: CatalogLine)
    requires p <= |s|
    ensures r.ItemLine? ==> QuoteFree(r.name)
    decreases |s| - p
  {
    var m := MatchAt(s[p..]);
    if m.ItemLine? || p == |s| then m else SearchFrom(s, p + 1)
  }

  function ScanLine(line: string): (r: CatalogLine)
    ensures r.ItemLine? ==> QuoteFree(r.name)
  {
    SearchFrom(line, 0)
  }

  /** A match can only start at an opening bracket. */
  lemma {:induction false} SearchSkips(s: string, p: nat, q: nat)
    requires p <= q <= |s|
    requires forall k :: p <= k < q ==> s[k] != '['
    ensures SearchFrom(s, p) == SearchFrom(s, q)
    decreases q - p
  {
    if p < q {
      assert s[p..][0] == s[p];
      SearchSkips(s, p + 1, q);
    }
  }

  /** A catalog line in the catalog's layout, `[<index>]<sp1>=<sp2>{id=<id>,en="<name>"`
      followed by `rest` (the other fields and the line end). */
  function EntryText(index: nat, id: nat, sp1: string, sp2: string, name: string, rest: string): string {
    "[" + (Decimal(index) + ("]" + (sp1 + ("=" + (sp2 + ("{id=" + (Decimal(id)
      + (",en=\"" + (name + ("\"" + rest))))))))))
  }

  /** The round trip: a catalog entry written out in the catalog's layout is
      read back as that entry, with the bracketed index (not the `id=`
      field) as its ID and the name exactly as written. */
  lemma ScanEntry(lead: string, index: nat, id: nat, sp1: string, sp2: string, name: string, rest: string)
    requires forall k :: 0 <= k < |lead| ==> lead[k] != '['
    requires AllSpaces(sp1) && AllSpaces(sp2) && QuoteFree(name)
    ensures ScanLine(lead + EntryText(index, id, sp1, sp2, name, rest)) == ItemLine(index, name)
  {
    var t := EntryText(index, id, sp1, sp2, name, rest);
    assert MatchAt(t) == ItemLine(index, name) by {
      MatchIndexOver(index, sp1, sp2, Decimal(id), name, rest);
    }
    SearchFinds(lead, t);
  }

  /** The search passes over a lead-in without brackets and stops at the
      first match. */
  lemma SearchFinds(lead: string, t: string)
    requires forall k :: 0 <= k < |lead| ==> lead[k] != '['
    requires MatchAt(t).ItemLine?
    ensures ScanLine(lead + t) == MatchAt(t)
  {
    var s := lead + t;
    assert s[|lead|..] == t;
    SearchSkips(s, 0, |lead|);
  }

  lemma MatchIndexOver(index: nat, sp1: string, sp2: string, dd: string, name: string, rest: string)
    requires AllSpaces(sp1) && AllSpaces(sp2) && AllDigits(dd) && dd != [] && QuoteFree(name)
    ensures MatchIndex(Decimal(index) + ("]" + (sp1 + ("=" + (sp2 + ("{id=" + (dd + (",en=\"" + (name + ("\"" + rest))))))))))
            == ItemLine(index, name)
  {
    var u := sp1 + ("=" + (sp2 + ("{id=" + (dd + (",en=\"" + (name + ("\"" + rest)))))));
    IndexStep(index, u);
    MatchIdFieldOver(index, sp1, sp2, dd, name, rest);
  }

  lemma MatchIdFieldOver(index: nat, sp1: string, sp2: string, dd: string, name: string, rest: string)
    requires AllSpaces(sp1) && AllSpaces(sp2) && AllDigits(dd) && dd != [] && QuoteFree(name)
    ensures MatchIdField(index, sp1 + ("=" + (sp2 + ("{id=" + (dd + (",en=\"" + (name + ("\"" + rest))))))))
            == ItemLine(index, name)
  {
    var w := dd + (",en=\"" + (name + ("\"" + rest)));
    var u := sp2 + ("{id=" + w);
    var t := sp1 + ("=" + u);
    RunOver(sp1, "=" + u, IsSpace);
    assert t[|sp1|] == '=' && t[|sp1| + 1..] == u;
    RunOver(sp2, "{id=" + w, IsSpace);
    assert u[|sp2|..] == "{id=" + w && u[|sp2| + 4..] == w;
    MatchIdDigitsOver(index, dd, name, rest);
  }

  lemma MatchIdDigitsOver(index: nat, dd: string, name: string, rest: string)
    requires AllDigits(dd) && dd != [] && QuoteFree(name)
    ensures MatchIdDigits(index, dd + (",en=\"" + (name + ("\"" + rest)))) == ItemLine(index, name)
  {
    var v := name + ("\"" + rest);
    var t := dd + (",en=\"" + v);
    RunOver(dd, ",en=\"" + v, IsDigit);
    assert t[|dd|..] == ",en=\"" + v && t[|dd| + 5..] == v;
    RunOver(name, "\"" + rest, NotQuote);
    assert v[..|name|] == name;
  }

  /** The pattern admits no blank between `{id=<n>,` and `en=`: a line
      laid out `[<index>] = {id=<id>, en=...` with no other bracket is not
      read at all. */
  lemma SpacedEntryNotRead(index: nat, id: nat, sp1: string, sp2: string, rest: string)
    requires AllSpaces(sp1) && AllSpaces(sp2) && '[' !in rest
    ensures ScanLine("[" + (Decimal(index) + ("]" + (sp1 + ("=" + (sp2 + ("{id=" + (Decimal(id)
      + (", " + rest))))))))) == Other
  {
    var t := Decimal(index) + ("]" + (sp1 + ("=" + (sp2 + ("{id=" + (Decimal(id) + (", " + rest)))))));
    var s := "[" + t;
    assert s[1..] == t;
    SpacedIndex(index, sp1, sp2, Decimal(id), rest);
    SpacedTailBracketFree(index, id, sp1, sp2, rest);
    SkipAfterOpening(t);
  }

  lemma SpacedTailBracketFree(index: nat, id: nat, sp1: string, sp2: string, rest: string)
    requires AllSpaces(sp1) && AllSpaces(sp2) && '[' !in rest
    ensures '[' !in Decimal(index) + ("]" + (sp1 + ("=" + (sp2 + ("{id=" + (Decimal(id) + (", " + rest)))))))
  {
    NoBracketIn(Decimal(index));
    NoBracketIn(Decimal(id));
    SpacesNoBracket(sp1);
    SpacesNoBracket(sp2);
  }

  /** After a bracket, the search over a bracket-free remainder finds
      nothing. */
  lemma SkipAfterOpening(t: string)
    requires '[' !in t
    ensures SearchFrom("[" + t, 1) == Other
  {
    var s := "[" + t;
    forall k | 1 <= k < |s|
      ensures s[k] != '['
    {
      assert s[k] == t[k - 1];
    }
    SearchSkips(s, 1, |s|);
    assert s[|s|..] == [];
  }

  lemma NoBracketIn(ds: string)
    requires AllDigits(ds)
    ensures '[' !in ds
  {
  }

  lemma SpacesNoBracket(sp: string)
    requires AllSpaces(sp)
    ensures '[' !in sp
  {
  }

  lemma SpacedIndex(index: nat, sp1: string, sp2: string, dd: string, rest: string)
    requires AllSpaces(sp1) && AllSpaces(sp2) && AllDigits(dd)
    ensures MatchIndex(Decimal(index) + ("]" + (sp1 + ("=" + (sp2 + ("{id=" + (dd + (", " + rest))))))))
            == Other
  {
    var u := sp1 + ("=" + (sp2 + ("{id=" + (dd + (", " + rest)))));
    IndexStep(index, u);
    SpacedIdField(index, sp1, sp2, dd, rest);
  }

  /** `(\d+)\]` consumes the written index and its bracket. */
  lemma IndexStep(index: nat, u: string)
    ensures MatchIndex(Decimal(index) + ("]" + u)) == MatchIdField(index, u)
  {
    var di := Decimal(index);
    var t := di + ("]" + u);
    RunOver(di, "]" + u, IsDigit);
    assert t[..|di|] == di && t[|di|] == ']' && t[|di| + 1..] == u;
    DecimalRoundTrip(index);
  }

  lemma SpacedIdField(index: nat, sp1: string, sp2: string, dd: string, rest: string)
    requires AllSpaces(sp1) && AllSpaces(sp2) && AllDigits(dd)
    ensures MatchIdField(index, sp1 + ("=" + (sp2 + ("{id=" + (dd + (", " + rest)))))) == Other
  {
    var w := dd + (", " + rest);
    var u := sp2 + ("{id=" + w);
    var t := sp1 + ("=" + u);
    RunOver(sp1, "=" + u, IsSpace);
    assert t[|sp1|] == '=' && t[|sp1| + 1..] == u;
    RunOver(sp2, "{id=" + w, IsSpace);
    assert u[|sp2|..] == "{id=" + w && u[|sp2| + 4..] == w;
    SpacedIdDigits(index, dd, rest);
  }

  lemma SpacedIdDigits(index: nat, dd: string, rest: string)
    requires AllDigits(dd)
    ensures MatchIdDigits(index, dd + (", " + rest)) == Other
  {
    var t := dd + (", " + rest);
    RunOver(dd, ", " + rest, IsDigit);
    assert t[|dd|..] == ", " + rest;
    assert t[|dd|..][1] == ' ';
  }

  // ---------------------------------------------------------------------
  // The two tables, as folds over the recognised lines
  // ---------------------------------------------------------------------

  /** What the pattern recognises in each line of the catalog. */
  function ScanAll(lines: seq<string>): (r: seq<CatalogLine>)
    ensures |r| == |lines|
  {
    seq(|lines|, i requires 0 <= i < |lines| => ScanLine(lines[i]))
  }

  /** `name_to_id` after the given lines: a later entry overwrites an
      earlier one with the same lower-cased name. */
  function NameToId(entries: seq<CatalogLine>): map<string, nat> {
    if entries == [] then map[]
    else
      var m := NameToId(entries[..|entries| - 1]);
      match entries[|entries| - 1]
      case ItemLine(index, name) => m[Lower(name) := index]
      case Other => m
  }

  /** `id_to_name` after the given lines: a later entry overwrites an
      earlier one with the same index. */
  function IdToName(entries: seq<CatalogLine>): map<nat, string> {
    if entries == [] then map[]
    else
      var m := IdToName(entries[..|entries| - 1]);
      match entries[|entries| - 1]
      case ItemLine(index, name) => m[index := name]
      case Other => m
  }

  /** `parse_items`, on the catalog's lines. */
  method ParseItems(lines: seq<string>) returns (nameToId: map<string, nat>, idToName: map<nat, string>)
    ensures nameToId == NameToId(ScanAll(lines)) && idToName == IdToName(ScanAll(lines))
  {
    ghost var entries := ScanAll(lines);
    nameToId, idToName := map[], map[];
    for i := 0 to |lines|
      invariant nameToId == NameToId(entries[..i])
      invariant idToName == IdToName(entries[..i])
    {
      assert entries[..i + 1][..i] == entries[..i];
      var m := ScanLine(lines[i]);
      assert entries[i] == m;
      if m.ItemLine? {
        nameToId := nameToId[Lower(m.name) := m.index];
        idToName := idToName[m.index := m.name];
      }
    }
    assert entries[..|lines|] == entries;
  }

  // ---------------------------------------------------------------------
  // What the tables hold
  // ---------------------------------------------------------------------

  /** Entry `j` is an item whose lower-cased name is `key`. */
  ghost predicate NamedAt(entries: seq<CatalogLine>, j: int, key: string) {
    0 <= j < |entries| && entries[j].ItemLine? && Lower(entries[j].name) == key
  }

  /** Entry `j` is an item with bracketed index `id`. */
  ghost predicate IndexedAt(entries: seq<CatalogLine>, j: int, id: nat) {
    0 <= j < |entries| && entries[j].ItemLine? && entries[j].index == id
  }

  /** A name is a key exactly when some entry carries it (in any casing),
      and it maps to the index of the LAST such entry. */
  lemma {:induction false} NameToIdLastWins(entries: seq<CatalogLine>, key: string)
    ensures key in NameToId(entries) <==> exists j :: NamedAt(entries, j, key)
    ensures forall j :: NamedAt(entries, j, key) && (forall j' :: j < j' ==> !NamedAt(entries, j', key))
               ==> key in NameToId(entries) && NameToId(entries)[key] == entries[j].index
  {
    if entries != [] {
      var n := |entries| - 1;
      var init := entries[..n];
      NameToIdLastWins(init, key);
      forall j | 0 <= j < n ensures NamedAt(init, j, key) == NamedAt(entries, j, key) {
        assert init[j] == entries[j];
      }
      if NamedAt(entries, n, key) {
        assert NameToId(entries) == NameToId(init)[key := entries[n].index];
      } else {
        assert key in NameToId(entries) <==> key in NameToId(init);
        assert key in NameToId(entries) ==> NameToId(entries)[key] == NameToId(init)[key];
        forall j | NamedAt(entries, j, key) && (forall j' :: j < j' ==> !NamedAt(entries, j', key))
          ensures key in NameToId(entries) && NameToId(entries)[key] == entries[j].index
        {
          assert NamedAt(init, j, key);
        }
      }
    }
  }

  /** An index is a key exactly when some entry carries it, and it maps to
      the name, in its original casing, of the LAST such entry. */
  lemma {:induction false} IdToNameLastWins(entries: seq<CatalogLine>, id: nat)
    ensures id in IdToName(entries) <==> exists j :: IndexedAt(entries, j, id)
    ensures forall j :: IndexedAt(entries, j, id) && (forall j' :: j < j' ==> !IndexedAt(entries, j', id))
               ==> id in IdToName(entries) && IdToName(entries)[id] == entries[j].name
  {
    if entries != [] {
      var n := |entries| - 1;
      var init := entries[..n];
      IdToNameLastWins(init, id);
      forall j | 0 <= j < n ensures IndexedAt(init, j, id) == IndexedAt(entries, j, id) {
        assert init[j] == entries[j];
      }
      if IndexedAt(entries, n, id) {
        assert IdToName(entries) == IdToName(init)[id := entries[n].name];
      } else {
        assert id in IdToName(entries) <==> id in IdToName(init);
        assert id in IdToName(entries) ==> IdToName(entries)[id] == IdToName(init)[id];
        forall j | IndexedAt(entries, j, id) && (forall j' :: j < j' ==> !IndexedAt(entries, j', id))
          ensures id in IdToName(entries) && IdToName(entries)[id] == entries[j].name
        {
          assert IndexedAt(init, j, id);
        }
      }
    }
  }

  /** No two entries share an index or a lower-cased name. */
  ghost predicate EntriesDistinct(entries: seq<CatalogLine>) {
    forall j, j' :: 0 <= j < j' < |entries| && entries[j].ItemLine? && entries[j'].ItemLine?
      ==> entries[j].index != entries[j'].index && Lower(entries[j].name) != Lower(entries[j'].name)
  }

  /** In a catalog whose entries are distinct, the two tables are inverse
      to each other up to case. */
  lemma TablesInverse(entries: seq<CatalogLine>)
    requires EntriesDistinct(entries)
    ensures forall id :: id in IdToName(entries) ==>
              Lower(IdToName(entries)[id]) in NameToId(entries) && NameToId(entries)[Lower(IdToName(entries)[id])] == id
    ensures forall key :: key in NameToId(entries) ==>
              NameToId(entries)[key] in IdToName(entries) && Lower(IdToName(entries)[NameToId(entries)[key]]) == key
  {
    forall id | id in IdToName(entries)
      ensures Lower(IdToName(entries)[id]) in NameToId(entries) && NameToId(entries)[Lower(IdToName(entries)[id])] == id
    {
      IdToNameLastWins(entries, id);
      var j :| IndexedAt(entries, j, id);
      var key := Lower(entries[j].name);
      NameToIdLastWins(entries, key);
      assert NamedAt(entries, j, key);
    }
    forall key | key in NameToId(entries)
      ensures NameToId(entries)[key] in IdToName(entries) && Lower(IdToName(entries)[NameToId(entries)[key]]) == key
    {
      NameToIdLastWins(entries, key);
      var j :| NamedAt(entries, j, key);
      var id := entries[j].index;
      IdToNameLastWins(entries, id);
      assert IndexedAt(entries, j, id);
    }
  }
}
