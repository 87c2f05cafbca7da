/** `parse_gearswap` (analyze.py): the gear sets of the GearSwap file, read
    into the list of `(name, bag)` references they make, comment lines
    skipped. */
module GearConfig {
  import opened Text

  /** One piece of a gear-file line, as the occurrence patterns divide it:
      text outside any occurrence, a `name = "<name>"` with no `bag` field
      before the record's closing brace, or a `name = "<name>" ... bag =
      "<bag>"` occurrence. `prefix` is the `name = "` part and `mid` runs
      from the quote closing the name to the quote opening the bag; the
      quote closing the name of a `NameOnly`, and the one closing the bag of
      an `Occ`, are not stored. */
  datatype Segment =
    | Plain(text: string)
    | NameOnly(prefix: string, name: string)
    | Occ(prefix: string, name: string, mid: string, bag: string)

  function SegmentText(s: Segment): string {
    match s
    case Plain(t) => t
    case NameOnly(p, n) => p + (n + "\"")
    case Occ(p, n, m, b) => p + (n + m + b + "\"")
  }

  /** The text of a line made of the given segments. */
  function LineText(segs: seq<Segment>): string {
    if segs == [] then [] else LineText(segs[..|segs| - 1]) + SegmentText(segs[|segs| - 1])
  }

  lemma {:induction false} LineTextAppend(a: seq<Segment>, b: seq<Segment>)
    ensures LineText(a + b) == LineText(a) + LineText(b)
    decreases |b|
  {
    if b != [] {
      var b', x := b[..|b| - 1], b[|b| - 1];
      assert b == b' + [x];
      assert a + b == (a + b') + [x];
      LineTextAppend(a, b');
      LineTextSnoc(a + b', x);
      LineTextSnoc(b', x);
    } else {
      assert a + b == a;
    }
  }

  lemma LineTextSnoc(a: seq<Segment>, x: Segment)
    ensures LineText(a + [x]) == LineText(a) + SegmentText(x)
  {
    assert (a + [x])[..|a|] == a;
  }

  /** What the patterns guarantee about a segment they recognise: the prefix
      is `name\s*=\s*"`, the captured name and bag are non-empty and
      quote-free, and `mid` is `"[^}]*?bag\s*=\s*"`. */
  ghost predicate Shaped(s: Segment) {
    match s
    case Plain(_) => true
    case NameOnly(p, n) => StartsWith(p, "name") && p[|p| - 1] == '"' && n != [] && QuoteFree(n)
    case Occ(p, n, m, b) =>
      StartsWith(p, "name") && p[|p| - 1] == '"' && n != [] && b != [] && QuoteFree(n) && QuoteFree(b)
      && StartsWith(m, "\"") && m[|m| - 1] == '"' && '}' !in m
  }

  ghost predicate WellShaped(config: seq<seq<Segment>>) {
    forall i, j :: 0 <= i < |config| && 0 <= j < |config[i]| ==> Shaped(config[i][j])
  }

  /** One `(name, bag)` item of `parse_gearswap`'s result. */
  datatype GearRef = GearRef(name: string, bag: string)

  /** The reference a segment makes: `(group 1, group 2 or "?")`. */
  function SegmentRefs(s: Segment): (r: seq<GearRef>)
    ensures |r| <= 1
    ensures r != [] <==> !s.Plain?
    ensures s.NameOnly? ==> r == [GearRef(s.name, "?")]
    ensures s.Occ? && s.bag != [] ==> r == [GearRef(s.name, s.bag)]
  {
    match s
    case Plain(_) => []
    case NameOnly(_, n) => [GearRef(n, "?")]
    case Occ(_, n, _, b) => [GearRef(n, if b == [] then "?" else b)]
  }

  /** The references of one line's occurrences, left to right. */
  function LineRefs(segs: seq<Segment>): seq<GearRef> {
    if segs == [] then [] else LineRefs(segs[..|segs| - 1]) + SegmentRefs(segs[|segs| - 1])
  }

  /** What one line contributes: nothing when its stripped text starts
      with `--`, its references otherwise. */
  function LineGear(line: seq<Segment>): seq<GearRef> {
    if IsComment(LineText(line)) then [] else LineRefs(line)
  }

  function PerLine(config: seq<seq<Segment>>): (r: seq<seq<GearRef>>)
    ensures |r| == |config|
  {
    seq(|config|, i requires 0 <= i < |config| => LineGear(config[i]))
  }

  function Flatten(xs: seq<seq<GearRef>>): seq<GearRef> {
    if xs == [] then [] else Flatten(xs[..|xs| - 1]) + xs[|xs| - 1]
  }

  /** `parse_gearswap`'s result: the references of every line that is not a
      comment, in file order. */
  function GearRefs(config: seq<seq<Segment>>): seq<GearRef> {
    Flatten(PerLine(config))
  }

  /** `parse_gearswap`, on the file's lines as the pattern divides them. */
  method ParseGearswap(config: seq<seq<Segment>>) returns (items: seq<GearRef>)
    ensures items == GearRefs(config)
  {
    ghost var perLine := PerLine(config);
    items := [];
    for i := 0 to |config|
      invariant items == Flatten(perLine[..i])
    {
      assert perLine[..i + 1][..i] == perLine[..i];
      var line := config[i];
      assert perLine[i] == LineGear(line);
      if IsComment(LineText(line)) {
        continue;
      }
      var found := MatchRefs(line);
      items := items + found;
    }
    assert perLine[..|config|] == perLine;
  }

  /** The inner loop of `parse_gearswap`: one `(name, bag or "?")` pair per
      match on the line, left to right. */
  method MatchRefs(line: seq<Segment>) returns (found: seq<GearRef>)
    ensures found == LineRefs(line)
  {
    found := [];
    for j := 0 to |line|
      invariant found == LineRefs(line[..j])
    {
      assert line[..j + 1][..j] == line[..j];
      found := found + SegmentRefs(line[j]);
    }
    assert line[..|line|] == line;
  }

  // ---------------------------------------------------------------------
  // Where the references come from
  // ---------------------------------------------------------------------

  /** Segment `j` of line `i` makes the reference `r`, on a line that is not
      a comment. */
  ghost predicate RefAt(config: seq<seq<Segment>>, i: int, j: int, r: GearRef) {
    0 <= i < |config| && !IsComment(LineText(config[i])) && 0 <= j < |config[i]|
    && SegmentRefs(config[i][j]) == [r]
  }

  lemma {:induction false} LineRefsOrigin(segs: seq<Segment>, r: GearRef)
    ensures r in LineRefs(segs) <==> exists j :: 0 <= j < |segs| && SegmentRefs(segs[j]) == [r]
  {
    if segs != [] {
      var n := |segs| - 1;
      LineRefsOrigin(segs[..n], r);
      if r in LineRefs(segs) {
        var j := LineRefsWitness(segs, r);
      }
      if exists j :: 0 <= j < |segs| && SegmentRefs(segs[j]) == [r] {
        var j :| 0 <= j < |segs| && SegmentRefs(segs[j]) == [r];
        if j < n {
          assert segs[..n][j] == segs[j];
        }
        LineRefsHas(segs, j, r);
      }
    }
  }

  /** A reference of a non-empty line comes from its last segment or from
      an earlier one. */
  lemma LineRefsWitness(segs: seq<Segment>, r: GearRef) returns (j: nat)
    requires segs != [] && r in LineRefs(segs)
    requires var n := |segs| - 1;
      r in LineRefs(segs[..n]) ==> exists j :: 0 <= j < n && SegmentRefs(segs[..n][j]) == [r]
    ensures j < |segs| && SegmentRefs(segs[j]) == [r]
  {
    var n := |segs| - 1;
    var init := segs[..n];
    if r in LineRefs(init) {
      var k :| 0 <= k < n && SegmentRefs(init[k]) == [r];
      assert segs[k] == init[k];
      j := k;
    } else {
      assert r in SegmentRefs(segs[n]);
      j := n;
    }
  }

  /** A segment's reference is among the line's, given that it is among
      the references of the line without its last segment when it comes
      from there. */
  lemma LineRefsHas(segs: seq<Segment>, j: nat, r: GearRef)
    requires j < |segs| && SegmentRefs(segs[j]) == [r]
    requires j < |segs| - 1 ==> r in LineRefs(segs[..|segs| - 1])
    ensures r in LineRefs(segs)
  {
  }

  lemma {:induction false} FlattenOrigin(xs: seq<seq<GearRef>>, r: GearRef)
    ensures r in Flatten(xs) <==> exists i :: 0 <= i < |xs| && r in xs[i]
  {
    if xs != [] {
      var n := |xs| - 1;
      FlattenOrigin(xs[..n], r);
      if exists i :: 0 <= i < |xs| && r in xs[i] {
        var i :| 0 <= i < |xs| && r in xs[i];
        if i < n {
          assert xs[..n][i] == xs[i];
        }
      }
    }
  }

  /** Every reference comes from an occurrence on a line that is not a
      comment, and every such occurrence yields its reference. */
  lemma GearRefsOrigin(config: seq<seq<Segment>>, r: GearRef)
    ensures r in GearRefs(config) <==> exists i, j :: RefAt(config, i, j, r)
  {
    var xs := PerLine(config);
    FlattenOrigin(xs, r);
    if r in GearRefs(config) {
      var i :| 0 <= i < |xs| && r in xs[i];
      LineOrigin(config[i], r);
      var j :| 0 <= j < |config[i]| && SegmentRefs(config[i][j]) == [r];
      assert RefAt(config, i, j, r);
    }
    if exists i, j :: RefAt(config, i, j, r) {
      var i, j :| RefAt(config, i, j, r);
      LineOrigin(config[i], r);
      assert r in xs[i];
    }
  }

  /** Segment `j` of line `i` is an occurrence of `name`, on a line that is
      not a comment, and `bag` is what it gives: its captured bag, or `"?"`
      when the occurrence has no `bag` field or an empty one. */
  ghost predicate OccursAt(config: seq<seq<Segment>>, i: int, j: int, name: string, bag: string) {
    0 <= i < |config| && !IsComment(LineText(config[i])) && 0 <= j < |config[i]|
    && match config[i][j]
       case Plain(_) => false
       case NameOnly(_, n) => n == name && bag == "?"
       case Occ(_, n, _, b) => n == name && bag == (if b == [] then "?" else b)
  }

  /** `parse_gearswap`'s result, occurrence by occurrence: `(name, bag)` is
      listed exactly when some line that is not a comment has an
      occurrence of `name` with that bag, or one with no `bag` field and
      `bag` is `"?"`. */
  lemma GearRefsBySegment(config: seq<seq<Segment>>, name: string, bag: string)
    ensures GearRef(name, bag) in GearRefs(config) <==> exists i, j :: OccursAt(config, i, j, name, bag)
  {
    var r := GearRef(name, bag);
    GearRefsOrigin(config, r);
    if r in GearRefs(config) {
      var i, j :| RefAt(config, i, j, r);
      SegmentYields(config, i, j, name, bag);
    }
    if exists i, j :: OccursAt(config, i, j, name, bag) {
      var i, j :| OccursAt(config, i, j, name, bag);
      SegmentYields(config, i, j, name, bag);
    }
  }

  lemma SegmentYields(config: seq<seq<Segment>>, i: nat, j: nat, name: string, bag: string)
    requires i < |config| && j < |config[i]|
    ensures RefAt(config, i, j, GearRef(name, bag)) <==> OccursAt(config, i, j, name, bag)
  {
  }

  lemma LineOrigin(line: seq<Segment>, r: GearRef)
    ensures r in LineGear(line) <==> !IsComment(LineText(line)) && exists j :: 0 <= j < |line| && SegmentRefs(line[j]) == [r]
  {
    LineRefsOrigin(line, r);
  }

  lemma {:induction false} FlattenAppend(a: seq<seq<GearRef>>, b: seq<seq<GearRef>>)
    ensures Flatten(a + b) == Flatten(a) + Flatten(b)
    decreases |b|
  {
    if b == [] {
      assert a + b == a;
    } else {
      var b', x := b[..|b| - 1], b[|b| - 1];
      assert (a + b)[..|a + b| - 1] == a + b';
      FlattenAppend(a, b');
    }
  }

  lemma GearRefsAppend(a: seq<seq<Segment>>, b: seq<seq<Segment>>)
    ensures GearRefs(a + b) == GearRefs(a) + GearRefs(b)
  {
    var xs, ys := PerLine(a + b), PerLine(a) + PerLine(b);
    forall k | 0 <= k < |a + b|
      ensures xs[k] == ys[k]
    {
      if k < |a| {
        assert (a + b)[k] == a[k];
      } else {
        assert (a + b)[k] == b[k - |a|];
      }
    }
    assert xs == ys;
    FlattenAppend(PerLine(a), PerLine(b));
  }

  lemma SingleLine(line: seq<Segment>)
    ensures GearRefs([line]) == LineGear(line)
  {
    var xs := PerLine([line]);
    assert xs == [LineGear(line)];
    assert xs[..0] == [];
    assert Flatten(xs) == Flatten(xs[..0]) + xs[0];
  }

  /** A comment line contributes nothing, whatever occurrences it holds:
      the references are those of the lines around it. */
  lemma CommentLineIgnored(config: seq<seq<Segment>>, i: nat)
    requires i < |config| && IsComment(LineText(config[i]))
    ensures GearRefs(config) == GearRefs(config[..i]) + GearRefs(config[i + 1..])
  {
    var line, before, after := config[i], config[..i], config[i + 1..];
    assert config == before + ([line] + after);
    GearRefsAppend(before, [line] + after);
    GearRefsAppend([line], after);
    SingleLine(line);
    assert GearRefs([line] + after) == GearRefs(after);
  }
}
