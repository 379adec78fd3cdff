/** The selector guarantees for any text that parses. */
module SelectorRoundTrip {
  import opened Text
  import opened Sorting
  import opened Selector
  import opened SelectorText

  lemma {:induction false} AddAllWellFormed(le: Order, g: Grammar, parts: seq<string>)
    requires TotalOrder(le) && IsGrammar(le, g)
    ensures AddAll(g.add, g.read, parts).Some? ==> WellFormed(le, AddAll(g.add, g.read, parts).value)
    decreases |parts|
  {
    if parts != [] {
      var before, chip := AddAll(g.add, g.read, parts[..|parts| - 1]), g.read(parts[|parts| - 1]);
      AddAllWellFormed(le, g, parts[..|parts| - 1]);
      if before.Some? && chip.Some? {
        assert AddsAs(le, g, before.value, chip.value);
        AddChipKeeps(le, before.value, chip.value);
      }
    }
  }

  /** What parsing returns is normal, with at most one `eq` or `in` chip per key. */
  lemma ParsedIsWellFormed(le: Order, g: Grammar, raw: string, chips: seq<Chip>)
    requires TotalOrder(le) && IsGrammar(le, g) && ParsedSelector(g, raw) == Some(chips)
    ensures WellFormed(le, chips)
  {
    AddAllWellFormed(le, g, Finished(ScanFrom(START, Trim(raw, IsJsSpace))));
  }

  /** By key, and under one key by the name of the operator. */
  ghost predicate KeyOrdered(le: Order, chips: seq<Chip>) {
    forall i, j :: 0 <= i < j < |chips| ==>
      le(chips[i].key, chips[j].key) && (chips[i].key == chips[j].key ==> le(OpName(chips[i].op), OpName(chips[j].op)))
  }

  lemma SortedByKey(le: Order, chips: seq<Chip>)
    requires TotalOrder(le)
    ensures KeyOrdered(le, SortChips(le, chips))
  {
    ChipOrderIsOrder(le);
    StableSortSorts(ChipOrder(le), chips);
    var sorted := SortChips(le, chips);
    forall i, j | 0 <= i < j < |sorted|
      ensures le(sorted[i].key, sorted[j].key) && (sorted[i].key == sorted[j].key ==> le(OpName(sorted[i].op), OpName(sorted[j].op))) {
      assert ChipOrder(le)(sorted[i], sorted[j]);
      assert Comparable(le, sorted[i].key, sorted[i].key);
    }
  }

  /** For text that parses: its canonical form parses to the same chips, ordered by key and operator, and
      is its own canonical form. */
  lemma CanonicalIsFixpoint(le: Order, g: Grammar, raw: string, chips: seq<Chip>)
    requires TotalOrder(le) && IsGrammar(le, g) && ParsedSelector(g, raw) == Some(chips)
    ensures ParsedSelector(g, CanonicalSelector(le, chips)) == Some(SortChips(le, chips))
    ensures multiset(SortChips(le, chips)) == multiset(chips) && KeyOrdered(le, SortChips(le, chips))
    ensures CanonicalSelector(le, SortChips(le, chips)) == CanonicalSelector(le, chips)
  {
    ParsedIsWellFormed(le, g, raw, chips);
    SortedByKey(le, chips);
    RoundTrip(le, g, chips);
    SortedPrintsSame(le, chips);
  }

  lemma SortedPrintsSame(le: Order, chips: seq<Chip>)
    requires TotalOrder(le) && WellFormed(le, chips)
    ensures CanonicalSelector(le, SortChips(le, chips)) == CanonicalSelector(le, chips)
    ensures multiset(SortChips(le, chips)) == multiset(chips)
  {
    SortKeepsWellFormed(le, chips);
    NormalizeAllKeeps(le, chips);
    NormalizeAllKeeps(le, SortChips(le, chips));
  }

  // ---------------------------------------------------------------- what parsing does with the parts

  /** A blank text and the star select everything. */
  lemma BlankAndStar(g: Grammar, raw: string)
    requires Trim(raw, IsJsSpace) == "" || Trim(raw, IsJsSpace) == "*"
    ensures ParsedSelector(g, raw) == Some([])
  {
  }

  /** One part that cannot be read makes the whole unreadable, and nothing else does. */
  lemma {:induction false} UnreadableIff(add: Adder, read: Reader, parts: seq<string>)
    ensures AddAll(add, read, parts).None? <==> exists i :: 0 <= i < |parts| && read(parts[i]).None?
    decreases |parts|
  {
    if parts != [] {
      var front, last := parts[..|parts| - 1], parts[|parts| - 1];
      UnreadableIff(add, read, front);
      if i :| 0 <= i < |front| && read(front[i]).None? {
        assert read(parts[i]).None?;
      }
    }
  }

  /** White space around a part does not matter. */
  lemma PaddedPartReads(le: Order, g: Grammar, a: string, part: string, b: string)
    requires IsGrammar(le, g) && AllSpace(a, IsJsSpace) && AllSpace(b, IsJsSpace) && EndsWell(part)
    ensures g.read(a + part + b) == ParseRequirement(le, part)
  {
    assert ReadsPart(le, g, a + part + b);
    TrimPadded(a, part, b, IsJsSpace);
  }

  /** A comma at the very end adds no part. */
  lemma TrailingComma(labels: seq<string>)
    requires labels != [] && AllWhole(labels)
    ensures Finished(ScanFrom(START, Join(labels, ',') + ",")) == labels
  {
    JoinedScan(labels);
    ScanAppend(START, Join(labels, ','), ",");
    CommaFinishes(labels);
  }

  lemma CommaFinishes(labels: seq<string>)
    requires labels != []
    ensures Finished(ScanFrom(Scan(labels[..|labels| - 1], 0, labels[|labels| - 1]), ",")) == labels
  {
    var k := |labels| - 1;
    ScanOne(Scan(labels[..k], 0, labels[k]), ',');
    assert labels[..k] + [labels[k]] == labels;
  }

  /** Some chip on the key, of the same operator or merged with it, allows all the values. */
  ghost predicate Covered(chips: seq<Chip>, c: Chip) {
    exists i :: 0 <= i < |chips| && CoveredBy(chips[i], c)
  }

  predicate CoveredBy(wide: Chip, c: Chip) {
    wide.key == c.key && (wide.op == c.op || (Merges(wide) && Merges(c))) && forall v :: v in c.values ==> v in wide.values
  }

  lemma AddChipCovers(le: Order, chips: seq<Chip>, next: Chip, c: Chip)
    requires TotalOrder(le) && (Covered(chips, c) || NormalizeChip(le, next) == Some(c))
    ensures Covered(AddChip(le, chips, next), c)
  {
    var after := AddChip(le, chips, next);
    if NormalizeChip(le, next).Some? {
      var chip := NormalizeChip(le, next).value;
      var k := FindMerge(chips, chip.key);
      if Merges(chip) && k < |chips| {
        MergedCovers(le, chips[k], chip);
        if i :| 0 <= i < |chips| && CoveredBy(chips[i], c) {
          assert CoveredBy(after[i], c);
        } else {
          assert CoveredBy(after[k], c);
        }
      } else {
        assert after == chips + [chip];
        if i :| 0 <= i < |chips| && CoveredBy(chips[i], c) {
          assert CoveredBy(after[i], c);
        } else {
          assert CoveredBy(after[|chips|], c);
        }
      }
    }
  }

  lemma MergedCovers(le: Order, prev: Chip, chip: Chip)
    requires TotalOrder(le) && prev.key == chip.key && Merges(prev) && Merges(chip)
    ensures forall c :: CoveredBy(prev, c) || c == chip ==> CoveredBy(MergedChip(le, prev, chip), c)
  {
    forall value ensures value in MergedChip(le, prev, chip).values <==> value in prev.values || value in chip.values {
      MergeIsUnion(le, prev, chip, value);
    }
  }

  /** Every requirement that was read is covered by a chip of the result. */
  lemma {:induction false} NothingIsLost(le: Order, g: Grammar, parts: seq<string>, i: nat, c: Chip)
    requires TotalOrder(le) && IsGrammar(le, g) && i < |parts| && AddAll(g.add, g.read, parts).Some?
    requires g.read(parts[i]).Some? && NormalizeChip(le, g.read(parts[i]).value) == Some(c)
    ensures Covered(AddAll(g.add, g.read, parts).value, c)
    decreases |parts|
  {
    var k := |parts| - 1;
    var before, chip := AddAll(g.add, g.read, parts[..k]), g.read(parts[k]);
    assert AddsAs(le, g, before.value, chip.value);
    if i < k {
      NothingIsLost(le, g, parts[..k], i, c);
    }
    AddChipCovers(le, before.value, chip.value, c);
  }
}
