/** Whole selectors: splitting at top-level commas, printing, and the round trip. */
module SelectorText {
  import opened Text
  import opened Sorting
  import opened Selector

  // ---------------------------------------------------------------- splitting

  datatype Scan = Scan(parts: seq<string>, depth: nat, buf: string)

  function Feed(s: Scan, ch: char): Scan {
    var depth := if ch == '(' then s.depth + 1 else if ch == ')' && s.depth > 0 then s.depth - 1 else s.depth;
    if ch == ',' && depth == 0 then Scan(s.parts + [s.buf], depth, "") else Scan(s.parts, depth, s.buf + [ch])
  }

  function ScanFrom(s: Scan, text: string): Scan {
    if text == "" then s else Feed(ScanFrom(s, text[..|text| - 1]), text[|text| - 1])
  }

  const START := Scan([], 0, "")

  function Finished(s: Scan): seq<string> {
    if Trim(s.buf, IsJsSpace) != "" then s.parts + [s.buf] else s.parts
  }

  method SplitRequirements(text: string) returns (parts: seq<string>)
    ensures parts == Finished(ScanFrom(START, text))
  {
    parts := [];
    var depth: nat := 0;
    var buf := "";
    for i := 0 to |text|
      invariant Scan(parts, depth, buf) == ScanFrom(START, text[..i])
    {
      var ch := text[i];
      assert text[..i + 1][..i] == text[..i];
      if ch == '(' {
        depth := depth + 1;
      }
      if ch == ')' && depth > 0 {
        depth := depth - 1;
      }
      if ch == ',' && depth == 0 {
        parts := parts + [buf];
        buf := "";
        continue;
      }
      buf := buf + [ch];
    }
    assert text[..|text|] == text;
    if Trim(buf, IsJsSpace) != "" {
      parts := parts + [buf];
    }
  }

  lemma {:induction false} ScanAppend(s: Scan, a: string, b: string)
    ensures ScanFrom(s, a + b) == ScanFrom(ScanFrom(s, a), b)
    decreases |b|
  {
    if b == "" {
      assert a + b == a;
    } else {
      ScanAppend(s, a, b[..|b| - 1]);
      assert (a + b)[..|a + b| - 1] == a + b[..|b| - 1];
    }
  }

  predicate NoParen(s: string) {
    forall i :: 0 <= i < |s| ==> s[i] != '(' && s[i] != ')'
  }

  /** Text without parentheses is kept whole if it has no comma or stands inside parentheses. */
  lemma {:induction false} ScanKeeps(s: Scan, text: string)
    requires NoParen(text) && (',' !in text || s.depth > 0)
    ensures ScanFrom(s, text) == s.(buf := s.buf + text)
    decreases |text|
  {
    if text != "" {
      var front := text[..|text| - 1];
      assert text == front + [text[|text| - 1]];
      ScanKeeps(s, front);
      assert s.buf + text == s.buf + front + [text[|text| - 1]];
    } else {
      assert s.buf + text == s.buf;
    }
  }

  /** Text that a scan at top level takes into the buffer as it is. */
  ghost predicate Whole(text: string) {
    forall parts: seq<string>, buf: string :: ScanFrom(Scan(parts, 0, buf), text) == Scan(parts, 0, buf + text)
  }

  lemma PlainIsWhole(text: string)
    requires NoParen(text) && ',' !in text
    ensures Whole(text)
  {
    forall parts: seq<string>, buf: string ensures ScanFrom(Scan(parts, 0, buf), text) == Scan(parts, 0, buf + text) {
      ScanKeeps(Scan(parts, 0, buf), text);
    }
  }

  lemma {:induction false} ScanOne(s: Scan, ch: char)
    ensures ScanFrom(s, [ch]) == Feed(s, ch)
  {
    assert [ch][..0] == "";
  }

  lemma ParensAreWhole(front: string, inner: string)
    requires NoParen(front) && ',' !in front && NoParen(inner)
    ensures Whole(front + ("(" + (inner + ")")))
  {
    var text := front + ("(" + (inner + ")"));
    forall parts: seq<string>, buf: string ensures ScanFrom(Scan(parts, 0, buf), text) == Scan(parts, 0, buf + text) {
      ScanAppend(Scan(parts, 0, buf), front, "(" + (inner + ")"));
      ScanKeeps(Scan(parts, 0, buf), front);
      ScanAppend(Scan(parts, 0, buf + front), "(", inner + ")");
      ScanOne(Scan(parts, 0, buf + front), '(');
      ScanAppend(Scan(parts, 1, buf + front + "("), inner, ")");
      ScanKeeps(Scan(parts, 1, buf + front + "("), inner);
      ScanOne(Scan(parts, 1, buf + front + "(" + inner), ')');
      assert buf + text == buf + front + "(" + inner + ")";
    }
  }

  lemma {:induction false} JoinLast(parts: seq<string>, sep: char)
    requires |parts| > 1
    ensures Join(parts, sep) == Join(parts[..|parts| - 1], sep) + ([sep] + parts[|parts| - 1])
    decreases |parts|
  {
    if |parts| > 2 {
      JoinLast(parts[1..], sep);
      assert parts[1..][..|parts| - 2] == parts[..|parts| - 1][1..];
    } else {
      assert parts[..1] == [parts[0]] && parts[1..] == [parts[1]];
    }
  }

  /** A comma and a whole label after text that ends outside parentheses. */
  lemma LabelAfterComma(text: string, parts: seq<string>, buf: string, last: string)
    requires ScanFrom(START, text) == Scan(parts, 0, buf) && Whole(last)
    ensures ScanFrom(START, text + ("," + last)) == Scan(parts + [buf], 0, last)
  {
    ScanAppend(START, text, "," + last);
    ScanAppend(Scan(parts, 0, buf), ",", last);
    ScanOne(Scan(parts, 0, buf), ',');
    assert ScanFrom(Scan(parts + [buf], 0, ""), last) == Scan(parts + [buf], 0, "" + last);
  }

  /** Joining whole labels with commas and splitting again gives the labels. */
  lemma {:induction false} JoinedScan(labels: seq<string>)
    requires labels != [] && forall i :: 0 <= i < |labels| ==> Whole(labels[i])
    ensures ScanFrom(START, Join(labels, ',')) == Scan(labels[..|labels| - 1], 0, labels[|labels| - 1])
    decreases |labels|
  {
    var k := |labels| - 1;
    if k == 0 {
      assert ScanFrom(Scan([], 0, ""), labels[0]) == Scan([], 0, "" + labels[0]);
    } else {
      var front := labels[..k];
      JoinedScan(front);
      JoinLast(labels, ',');
      LabelAfterComma(Join(front, ','), front[..k - 1], front[k - 1], labels[k]);
      assert front[..k - 1] + [front[k - 1]] == front;
    }
  }

  // ---------------------------------------------------------------- parsing

  type Reader = string -> Option<Chip>
  type Adder = (seq<Chip>, Chip) -> seq<Chip>

  /** Adds the parts one by one; one that cannot be read makes the whole unreadable. */
  function AddAll(add: Adder, read: Reader, parts: seq<string>): Option<seq<Chip>> {
    if parts == [] then Some([])
    else
      var before, chip := AddAll(add, read, parts[..|parts| - 1]), read(parts[|parts| - 1]);
      if before.None? || chip.None? then None else Some(add(before.value, chip.value))
  }

  function ParsedSelector(g: Grammar, raw: string): Option<seq<Chip>> {
    var text := Trim(raw, IsJsSpace);
    if text == "" || text == "*" then Some([]) else AddAll(g.add, g.read, Finished(ScanFrom(START, text)))
  }

  /** The two functions the parser is made of. */
  datatype Grammar = Grammar(add: Adder, read: Reader)

  function GrammarOf(le: Order): Grammar {
    Grammar((chips: seq<Chip>, chip: Chip) => AddChip(le, chips, chip),
            (part: string) => ParseRequirement(le, Trim(part, IsJsSpace)))
  }

  ghost predicate AddsAs(le: Order, g: Grammar, chips: seq<Chip>, chip: Chip) {
    g.add(chips, chip) == AddChip(le, chips, chip)
  }

  ghost predicate ReadsPart(le: Order, g: Grammar, part: string) {
    g.read(part) == ParseRequirement(le, Trim(part, IsJsSpace))
  }

  /** `g` adds by `AddChip` and reads by `ParseRequirement`. */
  ghost predicate IsGrammar(le: Order, g: Grammar) {
    && (forall chips, chip :: AddsAs(le, g, chips, chip))
    && (forall part :: ReadsPart(le, g, part))
  }

  lemma GrammarOfIs(le: Order)
    ensures IsGrammar(le, GrammarOf(le))
  {
    forall chips, chip ensures AddsAs(le, GrammarOf(le), chips, chip) {
    }
    forall part ensures ReadsPart(le, GrammarOf(le), part) {
    }
  }

  method AddParts(add: Adder, read: Reader, parts: seq<string>) returns (r: Option<seq<Chip>>)
    ensures r == AddAll(add, read, parts)
  {
    var chips: seq<Chip> := [];
    for i := 0 to |parts|
      invariant AddAll(add, read, parts[..i]) == Some(chips)
    {
      assert parts[..i + 1][..i] == parts[..i];
      var chip := read(parts[i]);
      if chip.None? {
        AddAllFails(add, read, parts, i + 1);
        return None;
      }
      chips := add(chips, chip.value);
    }
    assert parts[..|parts|] == parts;
    return Some(chips);
  }

  method ParseSelector(le: Order, raw: string) returns (r: Option<seq<Chip>>)
    ensures r == ParsedSelector(GrammarOf(le), raw)
  {
    var text := Trim(raw, IsJsSpace);
    if text == "" || text == "*" {
      return Some([]);
    }
    var parts := SplitRequirements(text);
    r := AddParts(GrammarOf(le).add, GrammarOf(le).read, parts);
  }

  lemma {:induction false} AddAllFails(add: Adder, read: Reader, parts: seq<string>, k: nat)
    requires k <= |parts| && AddAll(add, read, parts[..k]).None?
    ensures AddAll(add, read, parts).None?
    decreases |parts| - k
  {
    if k == |parts| {
      assert parts[..k] == parts;
    } else {
      assert parts[..k + 1][..k] == parts[..k];
      AddAllFails(add, read, parts, k + 1);
    }
  }

  // ---------------------------------------------------------------- what parsing leaves

  /** No two `eq` or `in` chips share a key. */
  ghost predicate Merged(chips: seq<Chip>) {
    forall i, j :: 0 <= i < j < |chips| ==> !Clash(chips[i], chips[j])
  }

  predicate Clash(a: Chip, b: Chip) {
    a.key == b.key && Merges(a) && Merges(b)
  }

  ghost predicate WellFormed(le: Order, chips: seq<Chip>) {
    Merged(chips) && forall i :: 0 <= i < |chips| ==> Normal(le, chips[i])
  }

  lemma {:induction false} TrimAllGivesTrimmed(values: seq<string>)
    requires forall i :: 0 <= i < |values| ==> IsValue(values[i])
    ensures TrimAll(values) == values
    decreases |values|
  {
    if values != [] {
      TrimAllGivesTrimmed(values[1..]);
      assert IsValue(values[0]);
      TrimIdentity(values[0], IsJsSpace);
    }
  }

  lemma NormalIsFixed(le: Order, chip: Chip)
    requires TotalOrder(le) && Normal(le, chip)
    ensures NormalizeChip(le, chip) == Some(chip)
  {
    TrimIdentity(chip.key, IsJsSpace);
    TrimAllGivesTrimmed(chip.values);
    SortedIsFixed(le, chip.values);
  }

  lemma NormalizedIsNormal(le: Order, chip: Chip)
    requires TotalOrder(le) && NormalizeChip(le, chip).Some?
    ensures Normal(le, NormalizeChip(le, chip).value)
  {
    UniqueSortedIs(le, TrimAll(chip.values));
  }

  lemma MergedIsNormal(le: Order, prev: Chip, chip: Chip)
    requires TotalOrder(le) && Normal(le, prev) && Normal(le, chip) && Merges(prev) && Merges(chip)
    ensures Normal(le, MergedChip(le, prev, chip)) && Merges(MergedChip(le, prev, chip))
  {
    var values := UniqueSorted(le, prev.values + chip.values);
    UniqueSortedIs(le, prev.values + chip.values);
    forall i | 0 <= i < |values| ensures IsValue(values[i]) {
      assert values[i] in prev.values + chip.values;
    }
    assert prev.values[0] in prev.values + chip.values;
    assert prev.values[0] in values;
  }

  /** Adding keeps chips normal and at most one `eq` or `in` chip per key. */
  lemma AddChipKeeps(le: Order, chips: seq<Chip>, next: Chip)
    requires TotalOrder(le) && WellFormed(le, chips)
    ensures WellFormed(le, AddChip(le, chips, next))
  {
    if NormalizeChip(le, next).Some? {
      var chip := NormalizeChip(le, next).value;
      NormalizedIsNormal(le, next);
      var i := FindMerge(chips, chip.key);
      if Merges(chip) && i < |chips| {
        MergedIsNormal(le, chips[i], chip);
        ReplaceKeepsMerged(chips, i, MergedChip(le, chips[i], chip));
      } else {
        AppendKeepsMerged(chips, chip);
      }
    }
  }

  lemma ReplaceKeepsMerged(chips: seq<Chip>, i: nat, chip: Chip)
    requires Merged(chips) && i < |chips| && chip.key == chips[i].key && Merges(chips[i])
    ensures Merged(chips[i := chip])
  {
    var after := chips[i := chip];
    forall a, b | 0 <= a < b < |after| ensures !Clash(after[a], after[b]) {
      assert !Clash(chips[a], chips[b]);
    }
  }

  lemma AppendKeepsMerged(chips: seq<Chip>, chip: Chip)
    requires Merged(chips) && (Merges(chip) ==> FindMerge(chips, chip.key) == |chips|)
    ensures Merged(chips + [chip])
  {
  }

  /** The merged chip allows what either chip allowed. */
  lemma MergeIsUnion(le: Order, prev: Chip, chip: Chip, value: string)
    requires TotalOrder(le)
    ensures value in MergedChip(le, prev, chip).values <==> value in prev.values || value in chip.values
  {
    UniqueSortedIs(le, prev.values + chip.values);
  }

  // ---------------------------------------------------------------- printing

  function ChipLabel(le: Order, chip: Chip): string {
    var values := UniqueSorted(le, chip.values);
    var first := if values == [] then "" else values[0];
    match chip.op
    case Eq => chip.key + ("=" + first)
    case Neq => chip.key + ("!=" + first)
    case Exists => chip.key
    case Not => "!" + chip.key
    case In => chip.key + (" in " + ("(" + (Join(values, ',') + ")")))
    case NotIn => chip.key + (" notin " + ("(" + (Join(values, ',') + ")")))
  }

  function NormalizeAll(le: Order, chips: seq<Chip>): seq<Chip> {
    if chips == [] then []
    else
      var chip := NormalizeChip(le, chips[0]);
      (if chip.Some? then [chip.value] else []) + NormalizeAll(le, chips[1..])
  }

  function Labels(le: Order, chips: seq<Chip>): seq<string> {
    seq(|chips|, i requires 0 <= i < |chips| => ChipLabel(le, chips[i]))
  }

  predicate ChipLe(le: Order, a: Chip, b: Chip) {
    if a.key != b.key then le(a.key, b.key) else le(OpName(a.op), OpName(b.op))
  }

  function ChipOrder(le: Order): (Chip, Chip) -> bool {
    (a: Chip, b: Chip) => ChipLe(le, a, b)
  }

  function SortChips(le: Order, chips: seq<Chip>): seq<Chip> {
    StableSort(ChipOrder(le), chips)
  }

  function CanonicalSelector(le: Order, chips: seq<Chip>): string {
    Join(Labels(le, SortChips(le, NormalizeAll(le, chips))), ',')
  }

  // ---------------------------------------------------------------- the round trip

  lemma {:induction false} JoinChars(values: seq<string>)
    requires forall i :: 0 <= i < |values| ==> IsValue(values[i])
    ensures forall i :: 0 <= i < |Join(values, ',')| ==> KeyChar(Join(values, ',')[i]) || Join(values, ',')[i] == ','
    decreases |values|
  {
    if |values| > 1 {
      JoinChars(values[1..]);
      assert IsValue(values[0]);
    } else if |values| == 1 {
      assert IsValue(values[0]);
    }
  }

  lemma SetLabelIsWhole(key: string, word: string, inner: string)
    requires IsKey(key) && (word == " in " || word == " notin ")
    requires forall i :: 0 <= i < |inner| ==> KeyChar(inner[i]) || inner[i] == ','
    ensures Whole(key + (word + ("(" + (inner + ")"))))
  {
    var front := key + word;
    assert forall i :: 0 <= i < |front| ==> KeyChar(front[i]) || front[i] == ' ';
    ParensAreWhole(front, inner);
    assert front + ("(" + (inner + ")")) == key + (word + ("(" + (inner + ")")));
  }

  lemma PlainLabelIsWhole(shown: string)
    requires forall i :: 0 <= i < |shown| ==> KeyChar(shown[i]) || shown[i] == '=' || shown[i] == '!'
    ensures Whole(shown)
  {
    PlainIsWhole(shown);
  }

  lemma LabelIsWhole(le: Order, chip: Chip)
    requires TotalOrder(le) && Normal(le, chip)
    ensures Whole(ChipLabel(le, chip))
  {
    SortedIsFixed(le, chip.values);
    if chip.op == In || chip.op == NotIn {
      JoinChars(chip.values);
      SetLabelIsWhole(chip.key, if chip.op == In then " in " else " notin ", Join(chip.values, ','));
    } else {
      PlainLabelIsWhole(ChipLabel(le, chip));
    }
  }

  function SetLabel(key: string, word: string, inner: string): string {
    key + ((" " + word + " ") + ("(" + (inner + ")")))
  }

  lemma SetLabelIs(le: Order, chip: Chip)
    requires Normal(le, chip) && (chip.op == In || chip.op == NotIn)
    ensures ChipLabel(le, chip) == SetLabel(chip.key, OpName(chip.op), Join(chip.values, ','))
  {
    SortedIsFixed(le, chip.values);
  }

  lemma SetLabelParses(le: Order, chip: Chip)
    requires TotalOrder(le) && Normal(le, chip) && (chip.op == In || chip.op == NotIn)
    ensures ParseRequirement(le, ChipLabel(le, chip)) == Some(chip)
  {
    var inner := Join(chip.values, ',');
    JoinChars(chip.values);
    SetLabelIs(le, chip);
    SetLabelShape(chip.key, OpName(chip.op), inner);
    SetChipOfValues(le, chip);
    SetReads(le, SetLabel(chip.key, OpName(chip.op), inner), SetText(chip.key, OpName(chip.op), inner), chip);
  }

  lemma SetReads(le: Order, part: string, t: SetText, chip: Chip)
    requires SetShape(part, t) && SetChip(le, t) == Some(chip)
    ensures ParseRequirement(le, part) == Some(chip)
  {
    ParseSetIsShape(part, t);
  }

  lemma SetLabelShape(key: string, word: string, inner: string)
    requires IsKey(key) && IsSetWord(word) && ')' !in inner
    ensures SetShape(SetLabel(key, word, inner), SetText(key, word, inner))
  {
    var shown := SetLabel(key, word, inner);
    var t := SetText(key, word, inner);
    assert shown == Glued(Cut(key, " ", word, " ", "(" + inner + ")"));
    assert SetShapeWith(shown, t, " ", " ");
  }

  lemma SetChipOfValues(le: Order, chip: Chip)
    requires TotalOrder(le) && Normal(le, chip) && (chip.op == In || chip.op == NotIn)
    ensures SetChip(le, SetText(chip.key, OpName(chip.op), Join(chip.values, ','))) == Some(chip)
  {
    forall i | 0 <= i < |chip.values| ensures ',' !in chip.values[i] {
      assert IsValue(chip.values[i]);
    }
    SplitJoin(chip.values, ',');
    TrimAllGivesTrimmed(chip.values);
    NormalIsFixed(le, chip);
  }

  lemma LabelParses(le: Order, chip: Chip)
    requires TotalOrder(le) && Normal(le, chip)
    ensures ParseRequirement(le, ChipLabel(le, chip)) == Some(chip)
  {
    if chip.op == In || chip.op == NotIn {
      SetLabelParses(le, chip);
    } else {
      SortedIsFixed(le, chip.values);
      PlainShapeParses(ChipLabel(le, chip), chip);
      NoSpaceNoSet(ChipLabel(le, chip));
    }
  }

  /** Neither blank at an end nor the wildcard. */
  predicate EndsWell(s: string) {
    s != "" && !IsJsSpace(s[0]) && !IsJsSpace(s[|s| - 1]) && s[0] != '*'
  }

  lemma LabelEnds(le: Order, chip: Chip)
    requires TotalOrder(le) && Normal(le, chip)
    ensures EndsWell(ChipLabel(le, chip))
  {
    SortedIsFixed(le, chip.values);
  }

  /** `shown` is a text that reads as the chip. */
  predicate Shows(le: Order, shown: string, chip: Chip) {
    EndsWell(shown) && ParseRequirement(le, shown) == Some(chip)
  }

  predicate AllShow(le: Order, labels: seq<string>, chips: seq<Chip>) {
    |labels| == |chips| && forall i :: 0 <= i < |chips| ==> Shows(le, labels[i], chips[i])
  }

  ghost predicate AllWhole(labels: seq<string>) {
    forall i :: 0 <= i < |labels| ==> Whole(labels[i])
  }

  lemma LabelsShow(le: Order, chips: seq<Chip>)
    requires TotalOrder(le) && WellFormed(le, chips)
    ensures AllShow(le, Labels(le, chips), chips) && AllWhole(Labels(le, chips))
  {
    forall i | 0 <= i < |chips| ensures Shows(le, Labels(le, chips)[i], chips[i]) && Whole(Labels(le, chips)[i]) {
      LabelEnds(le, chips[i]);
      LabelIsWhole(le, chips[i]);
      LabelParses(le, chips[i]);
    }
  }

  ghost predicate ReadsAll(read: Reader, labels: seq<string>, chips: seq<Chip>) {
    |labels| == |chips| && forall i :: 0 <= i < |chips| ==> read(labels[i]) == Some(chips[i])
  }

  ghost predicate AddsAll(add: Adder, chips: seq<Chip>) {
    forall i :: 0 <= i < |chips| ==> add(chips[..i], chips[i]) == chips[..i + 1]
  }

  lemma LabelsRead(le: Order, g: Grammar, labels: seq<string>, chips: seq<Chip>)
    requires IsGrammar(le, g) && AllShow(le, labels, chips)
    ensures ReadsAll(g.read, labels, chips)
  {
    forall k | 0 <= k < |chips| ensures g.read(labels[k]) == Some(chips[k]) {
      assert ReadsPart(le, g, labels[k]);
      TrimIdentity(labels[k], IsJsSpace);
      assert Shows(le, labels[k], chips[k]);
    }
  }

  lemma ChipsAdd(le: Order, g: Grammar, chips: seq<Chip>)
    requires TotalOrder(le) && IsGrammar(le, g) && WellFormed(le, chips)
    ensures AddsAll(g.add, chips)
  {
    forall k | 0 <= k < |chips| ensures g.add(chips[..k], chips[k]) == chips[..k + 1] {
      assert AddsAs(le, g, chips[..k], chips[k]);
      AddsAtEnd(le, chips, k);
    }
  }

  /** Reading the labels of well-formed chips gives the chips, in that order. */
  lemma LabelsParse(le: Order, g: Grammar, labels: seq<string>, chips: seq<Chip>)
    requires TotalOrder(le) && IsGrammar(le, g) && WellFormed(le, chips) && AllShow(le, labels, chips)
    ensures AddAll(g.add, g.read, labels) == Some(chips)
  {
    LabelsRead(le, g, labels, chips);
    ChipsAdd(le, g, chips);
    AddsUp(g.add, g.read, labels, chips);
  }

  lemma AddsUp(add: Adder, read: Reader, labels: seq<string>, chips: seq<Chip>)
    requires ReadsAll(read, labels, chips) && AddsAll(add, chips)
    ensures AddAll(add, read, labels) == Some(chips)
  {
    AddsInOrder(add, read, labels, chips, |chips|);
    assert labels[..|chips|] == labels && chips[..|chips|] == chips;
  }

  lemma {:induction false} AddsInOrder(add: Adder, read: Reader, labels: seq<string>, chips: seq<Chip>, k: nat)
    requires ReadsAll(read, labels, chips) && AddsAll(add, chips) && k <= |chips|
    ensures AddAll(add, read, labels[..k]) == Some(chips[..k])
  {
    if k > 0 {
      AddsInOrder(add, read, labels, chips, k - 1);
      assert labels[..k][..k - 1] == labels[..k - 1];
      assert add(chips[..k - 1], chips[k - 1]) == chips[..k];
    }
  }

  lemma AddsAtEnd(le: Order, chips: seq<Chip>, k: nat)
    requires TotalOrder(le) && WellFormed(le, chips) && k < |chips|
    ensures AddChip(le, chips[..k], chips[k]) == chips[..k + 1]
  {
    NormalIsFixed(le, chips[k]);
    assert chips[..k] + [chips[k]] == chips[..k + 1];
    if Merges(chips[k]) {
      AppendsAtEnd(chips, k);
    }
  }

  lemma AppendsAtEnd(chips: seq<Chip>, k: nat)
    requires Merged(chips) && k < |chips| && Merges(chips[k])
    ensures FindMerge(chips[..k], chips[k].key) == k
  {
    var i := FindMerge(chips[..k], chips[k].key);
    if i < k {
      assert Clash(chips[i], chips[k]);
    }
  }

  lemma NormalizeAllKeeps(le: Order, chips: seq<Chip>)
    requires TotalOrder(le) && forall i :: 0 <= i < |chips| ==> Normal(le, chips[i])
    ensures NormalizeAll(le, chips) == chips
    decreases |chips|
  {
    if chips != [] {
      NormalIsFixed(le, chips[0]);
      NormalizeAllKeeps(le, chips[1..]);
    }
  }

  lemma ChipOrderIsOrder(le: Order)
    requires TotalOrder(le)
    ensures Preorder(ChipOrder(le))
  {
    var cmp := ChipOrder(le);
    forall a: Chip, b: Chip ensures cmp(a, b) || cmp(b, a) {
      assert Comparable(le, a.key, b.key) && Comparable(le, OpName(a.op), OpName(b.op));
    }
    forall a: Chip, b: Chip, c: Chip | cmp(a, b) && cmp(b, c) ensures cmp(a, c) {
      assert Transitive(le, a.key, b.key, c.key) && Comparable(le, a.key, b.key) && Comparable(le, b.key, c.key);
      assert Transitive(le, OpName(a.op), OpName(b.op), OpName(c.op));
    }
  }

  /** Sorting keeps chips well formed and leaves them in order. */
  lemma SortKeepsWellFormed(le: Order, chips: seq<Chip>)
    requires TotalOrder(le) && WellFormed(le, chips)
    ensures WellFormed(le, SortChips(le, chips)) && SortChips(le, SortChips(le, chips)) == SortChips(le, chips)
    ensures multiset(SortChips(le, chips)) == multiset(chips)
  {
    var cmp := ChipOrder(le);
    var sorted := SortChips(le, chips);
    assert sorted == StableSort(cmp, chips);
    ChipOrderIsOrder(le);
    StableSortSorts(cmp, chips);
    SortOfSorted(cmp, sorted);
    forall i | 0 <= i < |sorted| ensures Normal(le, sorted[i]) {
      assert sorted[i] in multiset(sorted);
      assert sorted[i] in chips;
    }
    RearrangedMerged(chips, sorted);
  }

  function MergesOn(key: string): Chip -> bool {
    (c: Chip) => c.key == key && Merges(c)
  }

  function ClashSet(chips: seq<Chip>, key: string): seq<Chip> {
    Select(MergesOn(key), chips)
  }

  lemma {:induction false} SelectCounts(p: Chip -> bool, a: seq<Chip>)
    ensures forall c :: multiset(Select(p, a))[c] == if p(c) then multiset(a)[c] else 0
    decreases |a|
  {
    if a != [] {
      SelectCounts(p, a[1..]);
      assert a == [a[0]] + a[1..];
    }
  }

  lemma {:induction false} MergedAtMostOne(chips: seq<Chip>, key: string)
    requires Merged(chips)
    ensures |ClashSet(chips, key)| <= 1
    decreases |chips|
  {
    if chips != [] {
      var rest := chips[1..];
      MergedAtMostOne(rest, key);
      if chips[0].key == key && Merges(chips[0]) {
        forall i | 0 <= i < |rest| ensures !(rest[i].key == key && Merges(rest[i])) {
          assert !Clash(chips[0], chips[i + 1]);
        }
        NoneSelected(rest, key);
      }
    }
  }

  lemma {:induction false} NoneSelected(chips: seq<Chip>, key: string)
    requires forall i :: 0 <= i < |chips| ==> !(chips[i].key == key && Merges(chips[i]))
    ensures ClashSet(chips, key) == []
    decreases |chips|
  {
    if chips != [] {
      NoneSelected(chips[1..], key);
    }
  }

  lemma {:induction false} AtMostOneMerged(chips: seq<Chip>, i: nat, j: nat)
    requires i < j < |chips| && Clash(chips[i], chips[j])
    ensures |ClashSet(chips, chips[i].key)| >= 2
    decreases |chips|
  {
    var key := chips[i].key;
    if i > 0 {
      AtMostOneMerged(chips[1..], i - 1, j - 1);
    } else {
      SomeSelected(chips[1..], j - 1, key);
    }
  }

  lemma {:induction false} SomeSelected(chips: seq<Chip>, j: nat, key: string)
    requires j < |chips| && chips[j].key == key && Merges(chips[j])
    ensures |ClashSet(chips, key)| >= 1
    decreases |chips|
  {
    if j > 0 {
      SomeSelected(chips[1..], j - 1, key);
    }
  }

  lemma SameSelected(a: seq<Chip>, b: seq<Chip>, key: string)
    requires multiset(a) == multiset(b)
    ensures |ClashSet(a, key)| == |ClashSet(b, key)|
  {
    var p := MergesOn(key);
    SelectCounts(p, a);
    SelectCounts(p, b);
    assert multiset(Select(p, a)) == multiset(Select(p, b));
    assert |multiset(Select(p, a))| == |Select(p, a)| && |multiset(Select(p, b))| == |Select(p, b)|;
  }

  lemma RearrangedMerged(chips: seq<Chip>, other: seq<Chip>)
    requires Merged(chips) && multiset(other) == multiset(chips)
    ensures Merged(other)
  {
    forall i, j | 0 <= i < j < |other| ensures !Clash(other[i], other[j]) {
      if Clash(other[i], other[j]) {
        SameSelected(chips, other, other[i].key);
        MergedAtMostOne(chips, other[i].key);
        AtMostOneMerged(other, i, j);
      }
    }
  }

  /** Printing well-formed chips and parsing the text gives the chips in sorted order. */
  lemma RoundTrip(le: Order, g: Grammar, chips: seq<Chip>)
    requires TotalOrder(le) && IsGrammar(le, g) && WellFormed(le, chips)
    ensures ParsedSelector(g, CanonicalSelector(le, chips)) == Some(SortChips(le, chips))
  {
    NormalizeAllKeeps(le, chips);
    SortKeepsWellFormed(le, chips);
    LabelsShow(le, SortChips(le, chips));
    LabelsReadBack(le, g, Labels(le, SortChips(le, chips)), SortChips(le, chips));
  }

  lemma FinishedScan(labels: seq<string>)
    requires labels != [] && EndsWell(labels[|labels| - 1])
    ensures Finished(Scan(labels[..|labels| - 1], 0, labels[|labels| - 1])) == labels
  {
    TrimIdentity(labels[|labels| - 1], IsJsSpace);
  }

  lemma JoinedSplits(labels: seq<string>)
    requires labels != [] && AllWhole(labels) && EndsWell(labels[|labels| - 1])
    ensures Finished(ScanFrom(START, Join(labels, ','))) == labels
  {
    FinishedScan(labels);
    JoinedScan(labels);
  }

  lemma TrimmedText(text: string)
    requires EndsWell(text)
    ensures Trim(text, IsJsSpace) == text && text != "" && text != "*"
  {
    TrimIdentity(text, IsJsSpace);
  }

  lemma LabelsReadBack(le: Order, g: Grammar, labels: seq<string>, chips: seq<Chip>)
    requires TotalOrder(le) && IsGrammar(le, g) && WellFormed(le, chips) && AllShow(le, labels, chips) && AllWhole(labels)
    ensures ParsedSelector(g, Join(labels, ',')) == Some(chips)
  {
    if labels == [] {
      assert Trim("", IsJsSpace) == "";
    } else {
      forall i | 0 <= i < |labels| ensures EndsWell(labels[i]) {
        assert Shows(le, labels[i], chips[i]);
      }
      TextEnds(labels);
      TrimmedText(Join(labels, ','));
      JoinedSplits(labels);
      LabelsParse(le, g, labels, chips);
    }
  }

  lemma {:induction false} TextEnds(labels: seq<string>)
    requires labels != [] && forall i :: 0 <= i < |labels| ==> EndsWell(labels[i])
    ensures EndsWell(Join(labels, ','))
    decreases |labels|
  {
    if |labels| > 1 {
      JoinLast(labels, ',');
      TextEnds(labels[..|labels| - 1]);
    }
  }

  function OfKind(key: string, op: Op): Chip -> bool {
    (c: Chip) => c.key == key && c.op == op
  }

  /** Chips of one key and operator keep their order when sorted. */
  lemma SortIsStable(le: Order, chips: seq<Chip>, key: string, op: Op)
    requires TotalOrder(le)
    ensures Select(OfKind(key, op), SortChips(le, chips)) == Select(OfKind(key, op), chips)
  {
    forall a: Chip, b: Chip | OfKind(key, op)(a) && OfKind(key, op)(b) ensures ChipOrder(le)(a, b) {
      assert Comparable(le, OpName(op), OpName(op));
    }
    StableSortIsStable(ChipOrder(le), OfKind(key, op), chips);
  }

  /** What the labels of one value look like. */
  lemma LabelOfOne(le: Order, key: string, v: string)
    ensures ChipLabel(le, Chip(key, Eq, [v])) == key + "=" + v
    ensures ChipLabel(le, Chip(key, Neq, [v])) == key + "!=" + v
    ensures ChipLabel(le, Chip(key, Not, [])) == "!" + key
    ensures ChipLabel(le, Chip(key, Exists, [])) == key
  {
    assert [v][1..] == [];
    assert UniqueSorted(le, [v]) == [v];
    assert key + ("=" + v) == key + "=" + v;
    assert key + ("!=" + v) == key + "!=" + v;
  }

  /** What the labels of two values look like: they are in order, whatever the chip's. */
  lemma LabelOfTwo(le: Order, key: string, v: string, w: string)
    requires le(v, w) && !le(w, v)
    ensures ChipLabel(le, Chip(key, In, [w, v])) == key + " in (" + v + "," + w + ")"
    ensures ChipLabel(le, Chip(key, NotIn, [w, v])) == key + " notin (" + v + "," + w + ")"
  {
    TwoSorted(le, v, w);
    JoinTwo(v, w);
    assert key + (" in " + ("(" + (v + "," + w + ")"))) == key + " in (" + v + "," + w + ")";
    assert key + (" notin " + ("(" + (v + "," + w + ")"))) == key + " notin (" + v + "," + w + ")";
  }

  lemma TwoSorted(le: Order, v: string, w: string)
    requires le(v, w) && !le(w, v)
    ensures UniqueSorted(le, [w, v]) == [v, w]
  {
    assert [w, v][1..] == [v] && [v][1..] == [];
    assert UniqueSorted(le, [v]) == [v];
    assert InsertOnce(le, w, [v]) == [v] + InsertOnce(le, w, []);
  }

  lemma JoinTwo(v: string, w: string)
    ensures Join([v, w], ',') == v + "," + w
  {
    assert [v, w][1..] == [w];
  }
}
