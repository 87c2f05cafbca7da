/** fix.py: the corrections map built from the references whose bag is not
    where the inventory holds the item, the rewrite of the bag fields of the
    GearSwap file, and the run that backs the file up before rewriting it. */
module Corrector {
  import opened Wrappers
  import opened Text
  import opened GearConfig
  import CrossReference
  import Catalog
  import Inventory

  // ---------------------------------------------------------------------
  // `build_corrections`
  // ---------------------------------------------------------------------

  /** `(name, actual_bags[0])`: the spelling of the reference and the bag
      to move it to. */
  datatype Correction = Correction(name: string, bag: string)

  /** The reference names a known item that is stocked somewhere, but not
      in the bag the reference gives. */
  predicate Mismatch(r: GearRef, nameToId: map<string, nat>, idToBags: map<nat, seq<string>>) {
    var key := Lower(r.name);
    key in nameToId
    && CrossReference.BagsFor(nameToId[key], idToBags) != []
    && r.bag !in CrossReference.BagsFor(nameToId[key], idToBags)
  }

  /** `build_corrections`' map. Every entry is keyed by the lower-cased
      spelling it holds, for a known item with bags, and its target is the
      first bag the inventory lists for that item. */
  function Corrections(nameToId: map<string, nat>, idToBags: map<nat, seq<string>>, refs: seq<GearRef>)
    : (c: map<string, Correction>)
    ensures forall key :: key in c ==>
      && key in nameToId
      && CrossReference.BagsFor(nameToId[key], idToBags) != []
      && c[key].bag == CrossReference.BagsFor(nameToId[key], idToBags)[0]
      && Lower(c[key].name) == key
  {
    if refs == [] then map[]
    else
      var c := Corrections(nameToId, idToBags, refs[..|refs| - 1]);
      var r := refs[|refs| - 1];
      if Mismatch(r, nameToId, idToBags) then
        var key := Lower(r.name);
        c[key := Correction(r.name, CrossReference.BagsFor(nameToId[key], idToBags)[0])]
      else c
  }

  method BuildCorrections(nameToId: map<string, nat>, idToBags: map<nat, seq<string>>, gearItems: seq<GearRef>)
    returns (corrections: map<string, Correction>)
    ensures corrections == Corrections(nameToId, idToBags, gearItems)
  {
    corrections := map[];
    for i := 0 to |gearItems|
      invariant corrections == Corrections(nameToId, idToBags, gearItems[..i])
    {
      assert gearItems[..i + 1][..i] == gearItems[..i];
      var (name, expectedBag) := (gearItems[i].name, gearItems[i].bag);
      var key := Lower(name);
      if key !in nameToId {
        continue;
      }
      var itemId := nameToId[key];
      var actualBags := if itemId in idToBags then idToBags[itemId] else [];
      if actualBags == [] {
        continue;
      }
      if expectedBag !in actualBags {
        corrections := corrections[key := Correction(name, actualBags[0])];
      }
    }
    assert gearItems[..|gearItems|] == gearItems;
  }

  /** Reference `j` mismatches and is spelled `key` once lower-cased. */
  ghost predicate MismatchAt(nameToId: map<string, nat>, idToBags: map<nat, seq<string>>, refs: seq<GearRef>,
                             j: int, key: string) {
    0 <= j < |refs| && Mismatch(refs[j], nameToId, idToBags) && Lower(refs[j].name) == key
  }

  /** Reference `j` is spelled `key` once lower-cased and the analysis
      reports it in the wrong bag. */
  ghost predicate WrongBagAt(nameToId: map<string, nat>, idToBags: map<nat, seq<string>>, refs: seq<GearRef>,
                             j: int, key: string) {
    0 <= j < |refs| && Lower(refs[j].name) == key
    && CrossReference.Judge(refs[j], nameToId, idToBags).WrongBag?
  }

  /** A name has an entry exactly when one of its references is reported
      in the wrong bag by the analysis: unknown names, items with no bags
      and references already in a right bag add nothing. */
  lemma {:induction false} CorrectionKeys(nameToId: map<string, nat>, idToBags: map<nat, seq<string>>,
                                          refs: seq<GearRef>, key: string)
    ensures key in Corrections(nameToId, idToBags, refs) <==>
      exists j :: WrongBagAt(nameToId, idToBags, refs, j, key)
  {
    if refs != [] {
      var n := |refs| - 1;
      var init := refs[..n];
      CorrectionKeys(nameToId, idToBags, init, key);
      if key in Corrections(nameToId, idToBags, refs) && key !in Corrections(nameToId, idToBags, init) {
        assert WrongBagAt(nameToId, idToBags, refs, n, key);
      }
      if key in Corrections(nameToId, idToBags, init) {
        var j :| WrongBagAt(nameToId, idToBags, init, j, key);
        assert refs[j] == init[j];
        assert WrongBagAt(nameToId, idToBags, refs, j, key);
      }
      if exists j :: WrongBagAt(nameToId, idToBags, refs, j, key) {
        var j :| WrongBagAt(nameToId, idToBags, refs, j, key);
        if j < n {
          assert init[j] == refs[j];
          assert WrongBagAt(nameToId, idToBags, init, j, key);
        }
      }
    }
  }

  /** Of several mismatching references with one lower-cased name, the last
      one's spelling is kept. */
  lemma {:induction false} CorrectionLastWins(nameToId: map<string, nat>, idToBags: map<nat, seq<string>>,
                                              refs: seq<GearRef>, key: string, j: nat)
    requires MismatchAt(nameToId, idToBags, refs, j, key)
    requires forall j' :: j < j' < |refs| ==> !MismatchAt(nameToId, idToBags, refs, j', key)
    ensures key in Corrections(nameToId, idToBags, refs)
    ensures Corrections(nameToId, idToBags, refs)[key].name == refs[j].name
  {
    var n := |refs| - 1;
    var init := refs[..n];
    if j < n {
      assert !MismatchAt(nameToId, idToBags, refs, n, key);
      forall j' | j < j' < |init|
        ensures !MismatchAt(nameToId, idToBags, init, j', key)
      {
        assert init[j'] == refs[j'];
        assert !MismatchAt(nameToId, idToBags, refs, j', key);
      }
      assert init[j] == refs[j];
      CorrectionLastWins(nameToId, idToBags, init, key, j);
    }
  }

  // ---------------------------------------------------------------------
  // `apply_fixes`
  // ---------------------------------------------------------------------

  /** `replacer` changes this occurrence: its lower-cased name has a
      correction whose bag differs from the occurrence's. */
  predicate Rewrites(s: Segment, c: map<string, Correction>) {
    s.Occ? && Lower(s.name) in c && c[Lower(s.name)].bag != s.bag
  }

  /** The two segments are equal, or are occurrences that differ only in
      their bag. */
  predicate SameExceptBag(s: Segment, t: Segment) {
    s == t || (s.Occ? && t.Occ? && s.prefix == t.prefix && s.name == t.name && s.mid == t.mid)
  }

  /** `replacer`: an occurrence to correct gets the correction's bag;
      prefix, original-case name, middle and closing quote are kept. */
  function FixSegment(s: Segment, c: map<string, Correction>): (r: Segment)
    ensures SameExceptBag(s, r)
    ensures r != s <==> Rewrites(s, c)
    ensures r != s ==> r.bag == c[Lower(s.name)].bag
    ensures !Rewrites(r, c)
  {
    if Rewrites(s, c) then Occ(s.prefix, s.name, s.mid, c[Lower(s.name)].bag) else s
  }

  /** `line_pattern.sub(replacer, line)` */
  function FixSegments(segs: seq<Segment>, c: map<string, Correction>): (r: seq<Segment>)
    ensures |r| == |segs|
  {
    seq(|segs|, j requires 0 <= j < |segs| => FixSegment(segs[j], c))
  }

  /** One line of `new_lines`: a comment line as it was, any other line with
      its occurrences corrected. */
  function FixLine(segs: seq<Segment>, c: map<string, Correction>): (r: seq<Segment>)
    ensures |r| == |segs|
    ensures forall j :: 0 <= j < |segs| ==> SameExceptBag(segs[j], r[j])
    ensures IsComment(LineText(segs)) ==> r == segs
  {
    if IsComment(LineText(segs)) then segs else FixSegments(segs, c)
  }

  /** `new_lines`, one line for each line read. */
  function FixAll(config: seq<seq<Segment>>, c: map<string, Correction>): (r: seq<seq<Segment>>)
    ensures |r| == |config|
  {
    seq(|config|, i requires 0 <= i < |config| => FixLine(config[i], c))
  }

  /** How many occurrences of the line `replacer` changes. */
  function CountRewrites(segs: seq<Segment>, c: map<string, Correction>): nat {
    if segs == [] then 0
    else CountRewrites(segs[..|segs| - 1], c) + (if Rewrites(segs[|segs| - 1], c) then 1 else 0)
  }

  function LineChanges(segs: seq<Segment>, c: map<string, Correction>): nat {
    if IsComment(LineText(segs)) then 0 else CountRewrites(segs, c)
  }

  /** `apply_fixes`' return value: rewritten occurrences over the file. */
  function RewriteCount(config: seq<seq<Segment>>, c: map<string, Correction>): nat {
    if config == [] then 0
    else RewriteCount(config[..|config| - 1], c) + LineChanges(config[|config| - 1], c)
  }

  /** The substitution over one line, with the `nonlocal changes` counter. */
  method Substitute(line: seq<Segment>, c: map<string, Correction>) returns (newLine: seq<Segment>, count: nat)
    ensures newLine == FixSegments(line, c)
    ensures count == CountRewrites(line, c)
  {
    newLine := [];
    count := 0;
    for j := 0 to |line|
      invariant newLine == FixSegments(line, c)[..j]
      invariant count == CountRewrites(line[..j], c)
    {
      assert line[..j + 1][..j] == line[..j];
      var m := line[j];
      var out := m;
      if m.Occ? {
        var key := Lower(m.name);
        if key in c && c[key].bag != m.bag {
          count := count + 1;
          out := Occ(m.prefix, m.name, m.mid, c[key].bag);
        }
      }
      assert out == FixSegments(line, c)[j];
      newLine := newLine + [out];
      assert newLine == FixSegments(line, c)[..j + 1];
    }
    assert line[..|line|] == line;
  }

  /** `apply_fixes`, without the file I/O: the new lines and the number of
      occurrences rewritten. */
  method ApplyFixes(config: seq<seq<Segment>>, c: map<string, Correction>)
    returns (newLines: seq<seq<Segment>>, changes: nat)
    ensures newLines == FixAll(config, c)
    ensures changes == RewriteCount(config, c)
  {
    newLines := [];
    changes := 0;
    for i := 0 to |config|
      invariant newLines == FixAll(config[..i], c)
      invariant changes == RewriteCount(config[..i], c)
    {
      RewriteCountPrefix(config, i, c);
      FixAllPrefix(config, i, c);
      var line := config[i];
      if IsComment(LineText(line)) {
        newLines := newLines + [line];
        continue;
      }
      var newLine, count := Substitute(line, c);
      changes := changes + count;
      newLines := newLines + [newLine];
    }
    assert config[..|config|] == config;
  }

  lemma FixAllPrefix(config: seq<seq<Segment>>, i: nat, c: map<string, Correction>)
    requires i < |config|
    ensures FixAll(config[..i + 1], c) == FixAll(config[..i], c) + [FixLine(config[i], c)]
  {
    var xs, ys := FixAll(config[..i + 1], c), FixAll(config[..i], c) + [FixLine(config[i], c)];
    forall k | 0 <= k <= i
      ensures xs[k] == ys[k]
    {
      if k < i {
        assert config[..i + 1][k] == config[k] == config[..i][k];
      } else {
        assert config[..i + 1][k] == config[i];
      }
    }
    assert xs == ys;
  }

  lemma RewriteCountPrefix(config: seq<seq<Segment>>, i: nat, c: map<string, Correction>)
    requires i < |config|
    ensures RewriteCount(config[..i + 1], c) == RewriteCount(config[..i], c) + LineChanges(config[i], c)
  {
    assert config[..i + 1][..i] == config[..i];
  }

  // ---------------------------------------------------------------------
  // What `apply_fixes` promises
  // ---------------------------------------------------------------------

  /** The number of positions where the two lines differ. */
  function Differing(a: seq<Segment>, b: seq<Segment>): nat
    requires |a| == |b|
  {
    if a == [] then 0
    else Differing(a[..|a| - 1], b[..|b| - 1]) + (if a[|a| - 1] != b[|b| - 1] then 1 else 0)
  }

  /** The count is of occurrences: exactly the number of segments of the
      line whose text the substitution changes. */
  lemma {:induction false} CountIsDiffering(segs: seq<Segment>, c: map<string, Correction>)
    ensures CountRewrites(segs, c) == Differing(segs, FixSegments(segs, c))
  {
    if segs != [] {
      var n := |segs| - 1;
      CountIsDiffering(segs[..n], c);
      assert FixSegments(segs, c)[..n] == FixSegments(segs[..n], c);
    }
  }

  /** The first occurrence the substitution rewrites, or the line's length
      when there is none. */
  ghost function FirstRewrite(segs: seq<Segment>, c: map<string, Correction>): (k: nat)
    ensures k <= |segs|
    ensures forall j :: 0 <= j < k ==> !Rewrites(segs[j], c)
    ensures k < |segs| ==> Rewrites(segs[k], c)
  {
    if segs == [] then 0
    else if Rewrites(segs[0], c) then 0
    else 1 + FirstRewrite(segs[1..], c)
  }

  /** A line's text split around one segment. */
  lemma LineTextAround(segs: seq<Segment>, k: nat)
    requires k < |segs|
    ensures LineText(segs) == LineText(segs[..k]) + SegmentText(segs[k]) + LineText(segs[k + 1..])
  {
    SplitAround(segs, k);
    LineTextThree(segs[..k], segs[k], segs[k + 1..]);
  }

  lemma SplitAround(segs: seq<Segment>, k: nat)
    requires k < |segs|
    ensures segs == segs[..k] + [segs[k]] + segs[k + 1..]
  {
  }

  lemma LineTextThree(before: seq<Segment>, x: Segment, after: seq<Segment>)
    ensures LineText(before + [x] + after) == LineText(before) + SegmentText(x) + LineText(after)
  {
    LineTextAppend(before + [x], after);
    LineTextSnoc(before, x);
  }

  /** The text of a line whose segment `k` is an occurrence, cut just after
      the occurrence's prefix. */
  lemma OccTextSplit(segs: seq<Segment>, k: nat)
    requires k < |segs| && segs[k].Occ?
    ensures var s := segs[k];
      LineText(segs) == LineText(segs[..k]) + s.prefix
        + (s.name + s.mid + s.bag + "\"" + LineText(segs[k + 1..]))
  {
    LineTextAround(segs, k);
    var s := segs[k];
    Regroup(LineText(segs[..k]), s.prefix, s.name + s.mid + s.bag + "\"", LineText(segs[k + 1..]));
  }

  lemma Regroup(x: string, p: string, q: string, r: string)
    ensures x + (p + q) + r == x + p + (q + r)
  {
  }

  /** Rewriting bags never makes a line a comment or stops it being one:
      the first two non-blank characters of the line lie before or in the
      `name` that opens the first rewritten occurrence. */
  lemma FixKeepsComment(segs: seq<Segment>, c: map<string, Correction>)
    requires forall j :: 0 <= j < |segs| ==> Shaped(segs[j])
    ensures IsComment(LineText(FixSegments(segs, c))) == IsComment(LineText(segs))
  {
    var fixed := FixSegments(segs, c);
    var k := FirstRewrite(segs, c);
    UnchangedBefore(segs, c, k);
    if k < |segs| {
      assert Shaped(segs[k]);
      assert fixed[k].prefix == segs[k].prefix;
      SameUpToPrefix(segs, fixed, k);
    } else {
      assert segs[..k] == segs;
      assert fixed[..k] == fixed;
    }
  }

  /** Two lines that agree up to segment `k`, and whose segments `k` are
      occurrences with the same `name`-led prefix, are both comments or
      both not. */
  lemma SameUpToPrefix(a: seq<Segment>, b: seq<Segment>, k: nat)
    requires k < |a| && k < |b| && a[..k] == b[..k]
    requires a[k].Occ? && b[k].Occ? && a[k].prefix == b[k].prefix && StartsWith(a[k].prefix, "name")
    ensures IsComment(LineText(a)) == IsComment(LineText(b))
  {
    var s, t := a[k], b[k];
    NamePrefix(s.prefix);
    OccTextSplit(a, k);
    OccTextSplit(b, k);
    CommentSettledBy(LineText(a[..k]), s.prefix,
      s.name + s.mid + s.bag + "\"" + LineText(a[k + 1..]),
      t.name + t.mid + t.bag + "\"" + LineText(b[k + 1..]));
  }

  /** The segments before the first rewritten one are left as they were. */
  lemma UnchangedBefore(segs: seq<Segment>, c: map<string, Correction>, k: nat)
    requires k <= |segs|
    requires forall j :: 0 <= j < k ==> !Rewrites(segs[j], c)
    ensures FixSegments(segs, c)[..k] == segs[..k]
  {
    var fixed := FixSegments(segs, c);
    forall j | 0 <= j < k
      ensures fixed[j] == segs[j]
    {
    }
  }

  lemma NamePrefix(p: string)
    requires StartsWith(p, "name")
    ensures |p| >= 2 && !IsSpace(p[0])
  {
    assert p[0] == p[..4][0] == 'n';
  }

  /** Every bag an inventory table lists is non-empty and holds no quote. */
  ghost predicate BagsClean(idToBags: map<nat, seq<string>>) {
    forall id, b :: id in idToBags && b in idToBags[id] ==> b != [] && QuoteFree(b)
  }

  /** Every bag the corrections write is non-empty and holds no quote, so
      the rewritten text is read back as the rewritten occurrence. */
  ghost predicate SafeTargets(c: map<string, Correction>) {
    forall key :: key in c ==> c[key].bag != [] && QuoteFree(c[key].bag)
  }

  /** The table `parse_findall` builds from any dump is clean. */
  lemma DumpBagsClean(dump: seq<string>)
    ensures BagsClean(Inventory.Scan(Inventory.ClassifyAll(dump)).bags)
  {
  }

  /** Corrections only ever target a bag the table lists. */
  lemma CorrectionsSafe(nameToId: map<string, nat>, idToBags: map<nat, seq<string>>, refs: seq<GearRef>)
    requires BagsClean(idToBags)
    ensures SafeTargets(Corrections(nameToId, idToBags, refs))
  {
    var c := Corrections(nameToId, idToBags, refs);
    forall key | key in c
      ensures c[key].bag != [] && QuoteFree(c[key].bag)
    {
      var id := nameToId[key];
      var bags := CrossReference.BagsFor(id, idToBags);
      assert bags != [] && c[key].bag == bags[0];
      assert id in idToBags && bags == idToBags[id];
      CleanBag(idToBags, id, bags[0]);
    }
  }

  lemma CleanBag(idToBags: map<nat, seq<string>>, id: nat, b: string)
    requires BagsClean(idToBags) && id in idToBags && b in idToBags[id]
    ensures b != [] && QuoteFree(b)
  {
  }

  /** Rewriting with safe targets leaves every occurrence in the shape the
      occurrence pattern reads. */
  lemma FixKeepsShape(config: seq<seq<Segment>>, c: map<string, Correction>)
    requires WellShaped(config) && SafeTargets(c)
    ensures WellShaped(FixAll(config, c))
  {
    var fixed := FixAll(config, c);
    forall i, j | 0 <= i < |fixed| && 0 <= j < |fixed[i]|
      ensures Shaped(fixed[i][j])
    {
      ShapedAfterFix(config[i], c, j);
    }
  }

  lemma ShapedAfterFix(segs: seq<Segment>, c: map<string, Correction>, j: nat)
    requires j < |segs| && Shaped(segs[j]) && SafeTargets(c)
    ensures Shaped(FixLine(segs, c)[j])
  {
    if !IsComment(LineText(segs)) {
      assert FixLine(segs, c)[j] == FixSegment(segs[j], c);
      ShapedSegment(segs[j], c);
    }
  }

  lemma ShapedSegment(s: Segment, c: map<string, Correction>)
    requires Shaped(s) && SafeTargets(c)
    ensures Shaped(FixSegment(s, c))
  {
    if Rewrites(s, c) {
      assert c[Lower(s.name)].bag != [] && QuoteFree(c[Lower(s.name)].bag);
    }
  }

  /** Running the fix again with the same corrections changes nothing and
      counts nothing; with safe targets the fixed file is one the occurrence
      pattern reads back as the fixed segments. */
  lemma FixIdempotent(config: seq<seq<Segment>>, c: map<string, Correction>)
    requires WellShaped(config) && SafeTargets(c)
    ensures WellShaped(FixAll(config, c))
    ensures FixAll(FixAll(config, c), c) == FixAll(config, c)
    ensures RewriteCount(FixAll(config, c), c) == 0
  {
    FixKeepsShape(config, c);
    var once := FixAll(config, c);
    forall i | 0 <= i < |config|
      ensures FixLine(once[i], c) == once[i]
      ensures LineChanges(once[i], c) == 0
    {
      var line := config[i];
      if !IsComment(LineText(line)) {
        FixKeepsComment(line, c);
        NothingLeftToRewrite(once[i], line, c);
      }
    }
    var twice := FixAll(once, c);
    assert forall i :: 0 <= i < |once| ==> twice[i] == once[i];
    NoChangesCount(once, c);
  }

  lemma NothingLeftToRewrite(fixed: seq<Segment>, line: seq<Segment>, c: map<string, Correction>)
    requires fixed == FixSegments(line, c)
    ensures FixSegments(fixed, c) == fixed
    ensures CountRewrites(fixed, c) == 0
  {
    CountIsDiffering(fixed, c);
    NoDifference(fixed, FixSegments(fixed, c));
  }

  lemma {:induction false} NoDifference(a: seq<Segment>, b: seq<Segment>)
    requires a == b
    ensures Differing(a, b) == 0
  {
    if a != [] {
      NoDifference(a[..|a| - 1], b[..|b| - 1]);
    }
  }

  lemma {:induction false} NoChangesCount(config: seq<seq<Segment>>, c: map<string, Correction>)
    requires forall i :: 0 <= i < |config| ==> LineChanges(config[i], c) == 0
    ensures RewriteCount(config, c) == 0
  {
    if config != [] {
      var n := |config| - 1;
      assert forall i :: 0 <= i < n ==> config[..n][i] == config[i];
      NoChangesCount(config[..n], c);
    }
  }

  /** What a second run would find: once the file is fixed, a reference
      that still names a stocked item outside every bag holding it is one
      with no `bag` field. */
  lemma FixSettles(config: seq<seq<Segment>>, nameToId: map<string, nat>, idToBags: map<nat, seq<string>>,
                   r: GearRef)
    requires WellShaped(config) && BagsClean(idToBags)
    requires r in GearRefs(FixAll(config, Corrections(nameToId, idToBags, GearRefs(config))))
    requires Mismatch(r, nameToId, idToBags)
    ensures r.bag == "?"
  {
    var c := Corrections(nameToId, idToBags, GearRefs(config));
    var fixed := FixAll(config, c);
    GearRefsOrigin(fixed, r);
    var i, j :| RefAt(fixed, i, j, r);
    var s := config[i][j];
    assert !IsComment(LineText(config[i]));
    assert fixed[i][j] == FixSegment(s, c);
    if s.Occ? {
      assert Shaped(s);
      var r0 := GearRef(s.name, s.bag);
      assert RefAt(config, i, j, r0);
      GearRefsOrigin(config, r0);
      SettledOcc(s, r0, r, nameToId, idToBags, GearRefs(config));
    }
  }

  /** An occurrence read with a bag is corrected into a bag that holds the
      item, or already was in one; it can only mismatch afterwards when the
      bag it was given is empty and reads back as `"?"`. */
  lemma SettledOcc(s: Segment, r0: GearRef, r: GearRef, nameToId: map<string, nat>,
                   idToBags: map<nat, seq<string>>, refs: seq<GearRef>)
    requires s.Occ? && s.bag != [] && r0 == GearRef(s.name, s.bag) && r0 in refs
    requires SegmentRefs(FixSegment(s, Corrections(nameToId, idToBags, refs))) == [r]
    ensures Mismatch(r, nameToId, idToBags) ==> r.bag == "?"
  {
    var c := Corrections(nameToId, idToBags, refs);
    var t := FixSegment(s, c);
    var key := Lower(s.name);
    assert r.name == s.name;
    if key in nameToId && CrossReference.BagsFor(nameToId[key], idToBags) != [] {
      var bags := CrossReference.BagsFor(nameToId[key], idToBags);
      assert bags[0] in bags;
      if s.bag !in bags {
        var j :| 0 <= j < |refs| && refs[j] == r0;
        assert WrongBagAt(nameToId, idToBags, refs, j, key);
        CorrectionKeys(nameToId, idToBags, refs, key);
        assert t.bag == bags[0];
      } else if key in c {
        assert t.bag == s.bag || t.bag == bags[0];
      }
    }
  }

  /** A second run's corrections: every name that still has one has a
      reference with no `bag` field. A file whose only remaining problems
      are such references is backed up and rewritten, with no change, on
      every later run. */
  lemma SecondRunCorrections(config: seq<seq<Segment>>, nameToId: map<string, nat>,
                             idToBags: map<nat, seq<string>>, key: string)
    requires WellShaped(config) && BagsClean(idToBags)
    requires key in Corrections(nameToId, idToBags,
      GearRefs(FixAll(config, Corrections(nameToId, idToBags, GearRefs(config)))))
    ensures var refs := GearRefs(FixAll(config, Corrections(nameToId, idToBags, GearRefs(config))));
      exists r :: r in refs && Lower(r.name) == key && r.bag == "?"
  {
    var refs := GearRefs(FixAll(config, Corrections(nameToId, idToBags, GearRefs(config))));
    CorrectionKeys(nameToId, idToBags, refs, key);
    var j :| WrongBagAt(nameToId, idToBags, refs, j, key);
    FixSettles(config, nameToId, idToBags, refs[j]);
  }

  /** A real second run: the map is rebuilt from the fixed file, and
      applying it changes nothing and counts nothing. */
  lemma SecondRunNoChange(config: seq<seq<Segment>>, nameToId: map<string, nat>,
                          idToBags: map<nat, seq<string>>)
    requires WellShaped(config) && BagsClean(idToBags)
    ensures var once := FixAll(config, Corrections(nameToId, idToBags, GearRefs(config)));
      var again := Corrections(nameToId, idToBags, GearRefs(once));
      FixAll(once, again) == once && RewriteCount(once, again) == 0
  {
    var first := Corrections(nameToId, idToBags, GearRefs(config));
    var once := FixAll(config, first);
    var again := Corrections(nameToId, idToBags, GearRefs(once));
    forall i | 0 <= i < |once|
      ensures FixLine(once[i], again) == once[i]
      ensures LineChanges(once[i], again) == 0
    {
      if !IsComment(LineText(config[i])) {
        forall j | 0 <= j < |once[i]|
          ensures !Rewrites(once[i][j], again)
        {
          var t := once[i][j];
          assert t == FixSegment(config[i][j], first);
          if t.Occ? && Lower(t.name) in again {
            SecondKeysInFirst(config, nameToId, idToBags, Lower(t.name));
          }
        }
        NoRewritesLeft(once[i], again);
      }
    }
    assert forall i :: 0 <= i < |once| ==> FixAll(once, again)[i] == once[i];
    NoChangesCount(once, again);
  }

  /** Every name with a correction on the second run had one on the first
      run, with the same target bag. */
  lemma SecondKeysInFirst(config: seq<seq<Segment>>, nameToId: map<string, nat>,
                          idToBags: map<nat, seq<string>>, key: string)
    requires WellShaped(config) && BagsClean(idToBags)
    requires key in Corrections(nameToId, idToBags,
      GearRefs(FixAll(config, Corrections(nameToId, idToBags, GearRefs(config)))))
    ensures key in Corrections(nameToId, idToBags, GearRefs(config))
  {
    var refs := GearRefs(config);
    var once := FixAll(config, Corrections(nameToId, idToBags, refs));
    var later := GearRefs(once);
    CorrectionKeys(nameToId, idToBags, later, key);
    var k :| WrongBagAt(nameToId, idToBags, later, k, key);
    var r := later[k];
    GearRefsOrigin(once, r);
    var i, j :| RefAt(once, i, j, r);
    var s := config[i][j];
    assert !IsComment(LineText(config[i]));
    assert once[i][j] == FixSegment(s, Corrections(nameToId, idToBags, refs));
    UnfixedWhenMismatched(s, r, nameToId, idToBags, refs);
    assert RefAt(config, i, j, r);
    GearRefsOrigin(config, r);
    var k' :| 0 <= k' < |refs| && refs[k'] == r;
    assert WrongBagAt(nameToId, idToBags, refs, k', key);
    CorrectionKeys(nameToId, idToBags, refs, key);
  }

  /** A segment the fix rewrote reads back in a bag that holds its item, so
      a segment that still mismatches after the fix was left as it was. */
  lemma UnfixedWhenMismatched(s: Segment, r: GearRef, nameToId: map<string, nat>,
                              idToBags: map<nat, seq<string>>, refs: seq<GearRef>)
    requires BagsClean(idToBags)
    requires SegmentRefs(FixSegment(s, Corrections(nameToId, idToBags, refs))) == [r]
    ensures Mismatch(r, nameToId, idToBags) ==> FixSegment(s, Corrections(nameToId, idToBags, refs)) == s
  {
    var c := Corrections(nameToId, idToBags, refs);
    var t := FixSegment(s, c);
    if t != s {
      CorrectionsSafe(nameToId, idToBags, refs);
      var key := Lower(s.name);
      var bags := CrossReference.BagsFor(nameToId[key], idToBags);
      assert t.bag == c[key].bag == bags[0] && bags[0] in bags;
      assert r.bag == t.bag;
    }
  }

  /** A line none of whose segments needs rewriting is kept and counts
      nothing. */
  lemma NoRewritesLeft(segs: seq<Segment>, c: map<string, Correction>)
    requires forall j :: 0 <= j < |segs| ==> !Rewrites(segs[j], c)
    ensures FixSegments(segs, c) == segs
    ensures CountRewrites(segs, c) == 0
  {
    assert forall j :: 0 <= j < |segs| ==> FixSegments(segs, c)[j] == segs[j];
    CountIsDiffering(segs, c);
    NoDifference(segs, FixSegments(segs, c));
  }

  /** An occurrence with no `bag` field, on a line that is not a comment,
      naming a known, stocked item that no bag called `"?"` holds, always
      gets a correction, and the fix leaves it as it is; so a second run's
      map has the name again. */
  lemma NameOnlyAlwaysCorrected(config: seq<seq<Segment>>, nameToId: map<string, nat>,
                                idToBags: map<nat, seq<string>>, i: nat, j: nat)
    requires WellShaped(config)
    requires i < |config| && !IsComment(LineText(config[i])) && j < |config[i]| && config[i][j].NameOnly?
    requires Lower(config[i][j].name) in nameToId
    requires CrossReference.BagsFor(nameToId[Lower(config[i][j].name)], idToBags) != []
    requires "?" !in CrossReference.BagsFor(nameToId[Lower(config[i][j].name)], idToBags)
    ensures var c := Corrections(nameToId, idToBags, GearRefs(config));
      && Lower(config[i][j].name) in c
      && FixAll(config, c)[i][j] == config[i][j]
      && Lower(config[i][j].name) in Corrections(nameToId, idToBags, GearRefs(FixAll(config, c)))
  {
    var c := Corrections(nameToId, idToBags, GearRefs(config));
    BaglessCorrected(config, nameToId, idToBags, i, j);
    var fixed := FixAll(config, c);
    assert forall k :: 0 <= k < |config[i]| ==> Shaped(config[i][k]);
    FixKeepsComment(config[i], c);
    assert fixed[i] == FixSegments(config[i], c);
    BaglessCorrected(fixed, nameToId, idToBags, i, j);
  }

  /** The reference a bagless occurrence yields is reported in the wrong
      bag, so its name gets a correction. */
  lemma BaglessCorrected(config: seq<seq<Segment>>, nameToId: map<string, nat>,
                         idToBags: map<nat, seq<string>>, i: nat, j: nat)
    requires i < |config| && !IsComment(LineText(config[i])) && j < |config[i]| && config[i][j].NameOnly?
    requires Lower(config[i][j].name) in nameToId
    requires CrossReference.BagsFor(nameToId[Lower(config[i][j].name)], idToBags) != []
    requires "?" !in CrossReference.BagsFor(nameToId[Lower(config[i][j].name)], idToBags)
    ensures Lower(config[i][j].name) in Corrections(nameToId, idToBags, GearRefs(config))
  {
    var r := GearRef(config[i][j].name, "?");
    var key := Lower(r.name);
    var refs := GearRefs(config);
    assert RefAt(config, i, j, r);
    GearRefsOrigin(config, r);
    var k :| 0 <= k < |refs| && refs[k] == r;
    assert WrongBagAt(nameToId, idToBags, refs, k, key);
    CorrectionKeys(nameToId, idToBags, refs, key);
  }

  // ---------------------------------------------------------------------
  // `main`
  // ---------------------------------------------------------------------

  /** The GearSwap file `main` rewrites, and the `.bak` copy it makes. */
  class GearFile {
    var lines: seq<seq<Segment>>
    var backup: Option<seq<seq<Segment>>>

    constructor (lines: seq<seq<Segment>>)
      ensures this.lines == lines && backup == None
    {
      this.lines := lines;
      backup := None;
    }

    /** `main`: with nothing to correct the file and its backup are left
        alone; otherwise the file is copied to the backup first and then
        rewritten, and the count of rewritten occurrences is reported. */
    method Fix(items: seq<string>, dump: seq<string>) returns (changed: Option<nat>)
      modifies this
      ensures var c := Corrections(Catalog.NameToId(Catalog.ScanAll(items)),
                                   Inventory.Scan(Inventory.ClassifyAll(dump)).bags, GearRefs(old(lines)));
        && (c == map[] ==> changed == None && lines == old(lines) && backup == old(backup))
        && (c != map[] ==> backup == Some(old(lines)) && lines == FixAll(old(lines), c)
                           && changed == Some(RewriteCount(old(lines), c)))
      ensures WellShaped(old(lines)) ==> WellShaped(lines)
    {
      var nameToId, _ := Catalog.ParseItems(items);
      var idToBags := Inventory.ParseFindall(dump);
      var gearItems := ParseGearswap(lines);
      var corrections := BuildCorrections(nameToId, idToBags, gearItems);
      if corrections == map[] {
        return None;
      }
      backup := Some(lines);
      if WellShaped(lines) {
        DumpBagsClean(dump);
        CorrectionsSafe(nameToId, idToBags, gearItems);
        FixKeepsShape(lines, corrections);
      }
      var newLines, count := ApplyFixes(lines, corrections);
      lines := newLines;
      changed := Some(count);
    }
  }

  // ---------------------------------------------------------------------
  // Two files worked through
  // ---------------------------------------------------------------------

  const NamePrefixText: string := "name = \""
  const BagMid: string := "\", bag = \""

  /** Two wrong bags on one line: the line changes once, the count is two. */
  lemma TwoOnOneLine()
    ensures var line := [Occ(NamePrefixText, "Foo", BagMid, "wardrobe"), Plain(", "),
                         Occ(NamePrefixText, "Bar", BagMid, "wardrobe")];
      var c := map["foo" := Correction("Foo", "satchel"), "bar" := Correction("Bar", "sack")];
      RewriteCount([line], c) == 2 && FixAll([line], c) != [line]
  {
    var line := [Occ(NamePrefixText, "Foo", BagMid, "wardrobe"), Plain(", "),
                 Occ(NamePrefixText, "Bar", BagMid, "wardrobe")];
    var c := map["foo" := Correction("Foo", "satchel"), "bar" := Correction("Bar", "sack")];
    LowerFoo();
    LowerBar();
    LeadingNameNotComment(line);
    assert line[..2][..1] == line[..1];
    assert line[..1][..0] == [];
    assert Rewrites(line[0], c) && !Rewrites(line[1], c) && Rewrites(line[2], c);
    assert CountRewrites(line[..1], c) == 1;
    assert CountRewrites(line[..2], c) == 1;
    assert CountRewrites(line, c) == 2;
    var config := [line];
    assert config[..0] == [];
    assert FixAll(config, c)[0][0].bag == "satchel";
  }

  /** A bagless reference moves a reference the analysis reports as OK:
      with `Foo` held in `a` and `b`, the reference `(Foo, b)` is OK, but
      the bagless `Foo` on the line before puts `foo -> a` in the map, and
      the fix rewrites the correct `b` to `a`. */
  lemma CorrectBagMoved()
    ensures var config := [[NameOnly(NamePrefixText, "Foo")], [Occ(NamePrefixText, "Foo", BagMid, "b")]];
      var nameToId, idToBags := map["foo" := 1], map[1 := ["a", "b"]];
      var c := Corrections(nameToId, idToBags, GearRefs(config));
      && CrossReference.Judge(GearRef("Foo", "b"), nameToId, idToBags).Ok?
      && c == map["foo" := Correction("Foo", "a")]
      && FixAll(config, c)[1] == [Occ(NamePrefixText, "Foo", BagMid, "a")]
      && RewriteCount(config, c) == 1
  {
    LowerFoo();
    MovedRefs();
    MovedMap();
    MovedFix();
  }

  lemma MovedRefs()
    ensures GearRefs([[NameOnly(NamePrefixText, "Foo")], [Occ(NamePrefixText, "Foo", BagMid, "b")]])
      == [GearRef("Foo", "?"), GearRef("Foo", "b")]
  {
    var x, y := NameOnly(NamePrefixText, "Foo"), Occ(NamePrefixText, "Foo", BagMid, "b");
    assert [[x], [y]] == [[x]] + [[y]];
    GearRefsAppend([[x]], [[y]]);
    OneSegmentLine(x);
    OneSegmentLine(y);
  }

  /** A line of one occurrence opening with `name` yields its reference. */
  lemma OneSegmentLine(x: Segment)
    requires !x.Plain? && StartsWith(x.prefix, "name")
    ensures GearRefs([[x]]) == SegmentRefs(x)
  {
    LeadingNameNotComment([x]);
    SingleLine([x]);
    var line: seq<Segment> := [x];
    assert line[..0] == [] && line[0] == x;
    assert LineRefs(line) == LineRefs(line[..0]) + SegmentRefs(x);
  }

  lemma MovedMap()
    ensures Corrections(map["foo" := 1], map[1 := ["a", "b"]], [GearRef("Foo", "?"), GearRef("Foo", "b")])
      == map["foo" := Correction("Foo", "a")]
  {
    var refs := [GearRef("Foo", "?"), GearRef("Foo", "b")];
    var nameToId: map<string, nat>, idToBags: map<nat, seq<string>> := map["foo" := 1], map[1 := ["a", "b"]];
    LowerFoo();
    assert refs[..1][..0] == [] && refs[..1] == [refs[0]];
    assert Mismatch(refs[0], nameToId, idToBags) && !Mismatch(refs[1], nameToId, idToBags);
    assert Corrections(nameToId, idToBags, refs[..1]) == map["foo" := Correction("Foo", "a")];
  }

  lemma MovedFix()
    ensures var config := [[NameOnly(NamePrefixText, "Foo")], [Occ(NamePrefixText, "Foo", BagMid, "b")]];
      var c := map["foo" := Correction("Foo", "a")];
      FixAll(config, c)[1] == [Occ(NamePrefixText, "Foo", BagMid, "a")] && RewriteCount(config, c) == 1
  {
    var line1, line2 := [NameOnly(NamePrefixText, "Foo")], [Occ(NamePrefixText, "Foo", BagMid, "b")];
    var config := [line1, line2];
    var c := map["foo" := Correction("Foo", "a")];
    LowerFoo();
    LeadingNameNotComment(line1);
    LeadingNameNotComment(line2);
    assert line1[..0] == [] && line2[..0] == [];
    assert Rewrites(line2[0], c) && !Rewrites(line1[0], c);
    assert FixSegments(line2, c)[0] == Occ(NamePrefixText, "Foo", BagMid, "a");
    assert CountRewrites(line1, c) == 0;
    assert CountRewrites(line2, c) == 1;
    assert config[..1][..0] == [] && config[..1] == [line1];
    assert RewriteCount(config[..1], c) == 0;
  }

  /** A reference with no `bag` field to an item held in the inventory is
      always corrected, but no occurrence is rewritten: the map is never
      empty on this file, however often it is fixed. */
  lemma NameOnlyNeverSettles()
    ensures var config := [[NameOnly(NamePrefixText, "Foo")]];
      var nameToId, idToBags := map["foo" := 1], map[1 := ["inventory"]];
      var c := Corrections(nameToId, idToBags, GearRefs(config));
      c == map["foo" := Correction("Foo", "inventory")]
      && FixAll(config, c) == config && RewriteCount(config, c) == 0
  {
    var line := [NameOnly(NamePrefixText, "Foo")];
    var config := [line];
    var nameToId: map<string, nat>, idToBags: map<nat, seq<string>> := map["foo" := 1], map[1 := ["inventory"]];
    LowerFoo();
    LeadingNameNotComment(line);
    SingleLine(line);
    assert line[..0] == [];
    assert LineRefs(line) == [GearRef("Foo", "?")];
    var refs := GearRefs(config);
    assert refs == [GearRef("Foo", "?")];
    assert refs[..0] == [];
    assert Mismatch(refs[0], nameToId, idToBags);
    var c := Corrections(nameToId, idToBags, refs);
    assert c == map["foo" := Correction("Foo", "inventory")];
    assert FixAll(config, c)[0] == line;
    assert CountRewrites(line, c) == 0;
    assert config[..0] == [];
    assert RewriteCount(config, c) == LineChanges(line, c);
  }

  lemma LowerFoo()
    ensures Lower("Foo") == "foo"
  {
    assert Lower("Foo")[0] == 'f';
  }

  lemma LowerBar()
    ensures Lower("Bar") == "bar"
  {
    assert Lower("Bar")[0] == 'b';
  }

  /** A line that opens with a `name` occurrence is not a comment. */
  lemma LeadingNameNotComment(segs: seq<Segment>)
    requires segs != [] && !segs[0].Plain? && StartsWith(segs[0].prefix, "name")
    ensures !IsComment(LineText(segs))
  {
    var x := segs[0];
    LineTextCons(segs);
    NamePrefix(x.prefix);
    FirstOfSegment(x);
    NotCommentByFirst(LineText(segs));
  }

  lemma LineTextCons(segs: seq<Segment>)
    requires segs != []
    ensures LineText(segs) == SegmentText(segs[0]) + LineText(segs[1..])
  {
    var x := segs[0];
    assert segs == [x] + segs[1..];
    LineTextAppend([x], segs[1..]);
    LineTextSingle(x);
  }

  lemma LineTextSingle(x: Segment)
    ensures LineText([x]) == SegmentText(x)
  {
    assert [x][..0] == [];
    assert LineText([x]) == [] + SegmentText(x);
  }

  lemma FirstOfSegment(x: Segment)
    requires !x.Plain? && |x.prefix| >= 2
    ensures SegmentText(x) != [] && SegmentText(x)[0] == x.prefix[0]
  {
  }

  /** A line that starts with a character that is neither blank nor `-` is
      not a comment. */
  lemma NotCommentByFirst(t: string)
    requires t != [] && !IsSpace(t[0]) && t[0] != '-'
    ensures !IsComment(t)
  {
    CommentByLeftTrim(t);
  }
}
