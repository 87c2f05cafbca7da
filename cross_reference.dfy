/** The cross-reference in `main` of analyze.py: the gear references are
    deduplicated, keeping the first of each `(lower-cased name, bag)` key in
    order, and each unique reference is judged against the items database and
    the inventory. */
module CrossReference {
  import opened Text
  import opened GearConfig
  import Catalog
  import Inventory

  // ---------------------------------------------------------------------
  // Deduplication
  // ---------------------------------------------------------------------

  /** The key a reference is deduplicated on: `(name.lower(), bag)`. */
  function Key(r: GearRef): (string, string) {
    (Lower(r.name), r.bag)
  }

  function KeysOf(refs: seq<GearRef>): set<(string, string)> {
    set r | r in refs :: Key(r)
  }

  lemma KeysOfSnoc(refs: seq<GearRef>, r: GearRef)
    ensures KeysOf(refs + [r]) == KeysOf(refs) + {Key(r)}
  {
    assert forall x :: x in refs + [r] <==> x in refs || x == r;
  }

  /** The references kept: each one whose key no earlier reference has. */
  function Unique(refs: seq<GearRef>): seq<GearRef> {
    if refs == [] then []
    else
      var init, r := refs[..|refs| - 1], refs[|refs| - 1];
      if Key(r) in KeysOf(init) then Unique(init) else Unique(init) + [r]
  }

  /** The deduplication loop with its `seen` set. */
  method Dedup(refs: seq<GearRef>) returns (unique: seq<GearRef>)
    ensures unique == Unique(refs)
  {
    var seen: set<(string, string)> := {};
    unique := [];
    for i := 0 to |refs|
      invariant seen == KeysOf(refs[..i])
      invariant unique == Unique(refs[..i])
    {
      assert refs[..i + 1] == refs[..i] + [refs[i]];
      KeysOfSnoc(refs[..i], refs[i]);
      var key := (Lower(refs[i].name), refs[i].bag);
      if key !in seen {
        seen := seen + {key};
        unique := unique + [refs[i]];
      }
    }
    assert refs[..|refs|] == refs;
  }

  /** `a` is `b` with some elements dropped, the rest kept in order. */
  ghost predicate IsSubseq<T>(a: seq<T>, b: seq<T>)
    decreases |b|
  {
    if b == [] then a == []
    else
      IsSubseq(a, b[..|b| - 1])
      || (a != [] && a[|a| - 1] == b[|b| - 1] && IsSubseq(a[..|a| - 1], b[..|b| - 1]))
  }

  /** The output is the input with elements dropped, order kept. */
  lemma {:induction false} UniqueIsSubseq(refs: seq<GearRef>)
    ensures IsSubseq(Unique(refs), refs)
  {
    if refs != [] {
      var init := refs[..|refs| - 1];
      UniqueIsSubseq(init);
      var u := Unique(refs);
      if u != Unique(init) {
        assert u[..|u| - 1] == Unique(init);
      }
    }
  }

  /** Every key of the input is kept. */
  lemma {:induction false} UniqueKeys(refs: seq<GearRef>)
    ensures KeysOf(Unique(refs)) == KeysOf(refs)
  {
    if refs != [] {
      var init, r := refs[..|refs| - 1], refs[|refs| - 1];
      UniqueKeys(init);
      assert refs == init + [r];
      KeysOfSnoc(init, r);
      if Key(r) !in KeysOf(init) {
        KeysOfSnoc(Unique(init), r);
      }
    }
  }

  /** No two kept references share a key. */
  lemma {:induction false} UniqueDistinct(refs: seq<GearRef>)
    ensures forall i, j :: 0 <= i < j < |Unique(refs)| ==> Key(Unique(refs)[i]) != Key(Unique(refs)[j])
  {
    if refs != [] {
      var init, r := refs[..|refs| - 1], refs[|refs| - 1];
      UniqueDistinct(init);
      if Key(r) !in KeysOf(init) {
        UniqueKeys(init);
        var u, u' := Unique(init), Unique(refs);
        forall i, j | 0 <= i < j < |u'|
          ensures Key(u'[i]) != Key(u'[j])
        {
          if j == |u| {
            assert u[i] in u;
          } else {
            assert u'[i] == u[i] && u'[j] == u[j];
          }
        }
      }
    }
  }

  /** Reference `i` is the first one with its key. */
  ghost predicate FirstOfKey(refs: seq<GearRef>, i: int) {
    0 <= i < |refs| && forall j :: 0 <= j < i ==> Key(refs[j]) != Key(refs[i])
  }

  /** What is kept is exactly the first reference of every key, spelled as
      it first appeared. */
  lemma {:induction false} UniqueKeepsFirst(refs: seq<GearRef>, r: GearRef)
    ensures r in Unique(refs) <==> exists i :: FirstOfKey(refs, i) && refs[i] == r
  {
    if refs != [] {
      var n := |refs| - 1;
      var init := refs[..n];
      UniqueKeepsFirst(init, r);
      if r in Unique(refs) {
        if r in Unique(init) {
          var i :| FirstOfKey(init, i) && init[i] == r;
          FirstOfKeyInit(refs, i);
          assert FirstOfKey(refs, i) && refs[i] == r;
        } else {
          FirstOfKeyLast(refs);
          assert FirstOfKey(refs, n) && refs[n] == r;
        }
      }
      if exists i :: FirstOfKey(refs, i) && refs[i] == r {
        var i :| FirstOfKey(refs, i) && refs[i] == r;
        if i < n {
          FirstOfKeyInit(refs, i);
          assert FirstOfKey(init, i) && init[i] == r;
        } else {
          FirstOfKeyLast(refs);
        }
      }
    }
  }

  lemma FirstOfKeyInit(refs: seq<GearRef>, i: nat)
    requires i < |refs| - 1
    ensures FirstOfKey(refs[..|refs| - 1], i) <==> FirstOfKey(refs, i)
  {
    var init := refs[..|refs| - 1];
    assert forall j :: 0 <= j <= i ==> init[j] == refs[j];
  }

  lemma FirstOfKeyLast(refs: seq<GearRef>)
    requires refs != []
    ensures FirstOfKey(refs, |refs| - 1) <==> Key(refs[|refs| - 1]) !in KeysOf(refs[..|refs| - 1])
  {
    var n := |refs| - 1;
    var init, last := refs[..n], refs[n];
    if Key(last) in KeysOf(init) {
      var x :| x in init && Key(x) == Key(last);
      var j :| 0 <= j < n && init[j] == x;
      assert refs[j] == x;
    } else {
      forall j | 0 <= j < n ensures Key(refs[j]) != Key(last) {
        assert refs[j] == init[j] && init[j] in init;
      }
    }
  }

  // ---------------------------------------------------------------------
  // Categorisation
  // ---------------------------------------------------------------------

  /** `id_to_bags.get(item_id, [])` */
  function BagsFor(id: nat, idToBags: map<nat, seq<string>>): seq<string> {
    if id in idToBags then idToBags[id] else []
  }

  /** Where one reference is reported. */
  datatype Verdict =
    | Ok(id: nat)
    | WrongBag(id: nat, actual: seq<string>)
    | Missing(id: nat)
    | Unknown

  /** The judgement of one reference; each reference gets exactly one. */
  function Judge(r: GearRef, nameToId: map<string, nat>, idToBags: map<nat, seq<string>>): (v: Verdict)
    ensures v.Unknown? <==> Lower(r.name) !in nameToId
    ensures !v.Unknown? ==> v.id == nameToId[Lower(r.name)]
    ensures v.Missing? <==> Lower(r.name) in nameToId && BagsFor(nameToId[Lower(r.name)], idToBags) == []
    ensures v.Ok? <==> Lower(r.name) in nameToId && r.bag in BagsFor(nameToId[Lower(r.name)], idToBags)
    ensures v.WrongBag? <==>
      Lower(r.name) in nameToId && BagsFor(nameToId[Lower(r.name)], idToBags) != []
      && r.bag !in BagsFor(nameToId[Lower(r.name)], idToBags)
    ensures v.WrongBag? ==> v.actual == BagsFor(nameToId[Lower(r.name)], idToBags)
  {
    var key := Lower(r.name);
    if key !in nameToId then Unknown
    else
      var id := nameToId[key];
      var actual := BagsFor(id, idToBags);
      if actual == [] then Missing(id)
      else if r.bag in actual then Ok(id)
      else WrongBag(id, actual)
  }

  /** The four lists of the report, in the order of the references. */
  datatype Report = Report(
    ok: seq<(string, string, nat)>,
    wrongBag: seq<(string, string, nat, seq<string>)>,
    missing: seq<(string, string, nat)>,
    unknown: seq<(string, string)>)

  function Total(rep: Report): nat {
    |rep.ok| + |rep.wrongBag| + |rep.missing| + |rep.unknown|
  }

  /** The report after adding one judged reference to its list. */
  function AddVerdict(rep: Report, r: GearRef, v: Verdict): Report {
    match v
    case Ok(id) => rep.(ok := rep.ok + [(r.name, r.bag, id)])
    case WrongBag(id, actual) => rep.(wrongBag := rep.wrongBag + [(r.name, r.bag, id, actual)])
    case Missing(id) => rep.(missing := rep.missing + [(r.name, r.bag, id)])
    case Unknown => rep.(unknown := rep.unknown + [(r.name, r.bag)])
  }

  function Tally(refs: seq<GearRef>, nameToId: map<string, nat>, idToBags: map<nat, seq<string>>): Report {
    if refs == [] then Report([], [], [], [])
    else
      var r := refs[|refs| - 1];
      AddVerdict(Tally(refs[..|refs| - 1], nameToId, idToBags), r, Judge(r, nameToId, idToBags))
  }

  /** The categorisation loop. */
  method Categorise(unique: seq<GearRef>, nameToId: map<string, nat>, idToBags: map<nat, seq<string>>)
    returns (report: Report)
    ensures report == Tally(unique, nameToId, idToBags)
    ensures Total(report) == |unique|
  {
    var ok: seq<(string, string, nat)> := [];
    var wrongBag: seq<(string, string, nat, seq<string>)> := [];
    var missing: seq<(string, string, nat)> := [];
    var unknown: seq<(string, string)> := [];
    for i := 0 to |unique|
      invariant Report(ok, wrongBag, missing, unknown) == Tally(unique[..i], nameToId, idToBags)
    {
      assert unique[..i + 1][..i] == unique[..i];
      var (name, expectedBag) := (unique[i].name, unique[i].bag);
      var key := Lower(name);
      if key !in nameToId {
        unknown := unknown + [(name, expectedBag)];
        continue;
      }
      var itemId := nameToId[key];
      var actualBags := if itemId in idToBags then idToBags[itemId] else [];
      if actualBags == [] {
        missing := missing + [(name, expectedBag, itemId)];
      } else if expectedBag in actualBags {
        ok := ok + [(name, expectedBag, itemId)];
      } else {
        wrongBag := wrongBag + [(name, expectedBag, itemId, actualBags)];
      }
    }
    assert unique[..|unique|] == unique;
    report := Report(ok, wrongBag, missing, unknown);
    TallyTotal(unique, nameToId, idToBags);
  }

  /** Every reference lands in exactly one list: the total is the number of
      references judged. */
  lemma {:induction false} TallyTotal(refs: seq<GearRef>, nameToId: map<string, nat>, idToBags: map<nat, seq<string>>)
    ensures Total(Tally(refs, nameToId, idToBags)) == |refs|
  {
    if refs != [] {
      TallyTotal(refs[..|refs| - 1], nameToId, idToBags);
    }
  }

  /** Each list holds exactly the references of its verdict. */
  lemma {:induction false} TallyLists(refs: seq<GearRef>, nameToId: map<string, nat>, idToBags: map<nat, seq<string>>,
                                      name: string, bag: string)
    ensures var rep, v := Tally(refs, nameToId, idToBags), Judge(GearRef(name, bag), nameToId, idToBags);
      && (forall id: nat :: (name, bag, id) in rep.ok <==> GearRef(name, bag) in refs && v == Ok(id))
      && (forall id: nat, actual :: (name, bag, id, actual) in rep.wrongBag <==> GearRef(name, bag) in refs && v == WrongBag(id, actual))
      && (forall id: nat :: (name, bag, id) in rep.missing <==> GearRef(name, bag) in refs && v == Missing(id))
      && ((name, bag) in rep.unknown <==> GearRef(name, bag) in refs && v == Unknown)
  {
    if refs != [] {
      var init := refs[..|refs| - 1];
      TallyLists(init, nameToId, idToBags, name, bag);
      assert refs == init + [refs[|refs| - 1]];
    }
  }

  // ---------------------------------------------------------------------
  // The whole analysis
  // ---------------------------------------------------------------------

  /** `main` of analyze.py, without its printing: parse the three files,
      deduplicate the gear references and judge each unique one. */
  method Analyze(items: seq<string>, dump: seq<string>, config: seq<seq<Segment>>) returns (report: Report)
    ensures report == Tally(Unique(GearRefs(config)),
                            Catalog.NameToId(Catalog.ScanAll(items)),
                            Inventory.Scan(Inventory.ClassifyAll(dump)).bags)
    ensures Total(report) == |Unique(GearRefs(config))|
  {
    var nameToId, _ := Catalog.ParseItems(items);
    var idToBags := Inventory.ParseFindall(dump);
    var gearItems := ParseGearswap(config);
    var unique := Dedup(gearItems);
    report := Categorise(unique, nameToId, idToBags);
  }
}
