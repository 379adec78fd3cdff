/** The console's tag selector: text to chips and back. */
module Selector {
  import opened Text
  import opened Sorting

  datatype Op = Eq | Neq | Exists | Not | In | NotIn

  datatype Chip = Chip(key: string, op: Op, values: seq<string>)

  /** Ascending order of strings as the console's locale gives it. */
  type Order = (string, string) -> bool

  predicate KeyChar(c: char) {
    'a' <= c <= 'z' || '0' <= c <= '9' || c == '.' || c == '_' || c == '-'
  }

  predicate AllKeyChars(s: string) {
    forall i :: 0 <= i < |s| ==> KeyChar(s[i])
  }

  /** `[a-z][a-z0-9._-]{0,62}` */
  predicate IsKey(s: string) {
    1 <= |s| <= 63 && 'a' <= s[0] <= 'z' && AllKeyChars(s)
  }

  /** `[a-z0-9._-]{1,63}` */
  predicate IsValue(s: string) {
    1 <= |s| <= 63 && AllKeyChars(s)
  }

  function OpName(op: Op): string {
    match op
    case Eq => "eq" case Neq => "neq" case Exists => "exists" case Not => "not" case In => "in" case NotIn => "notin"
  }

  // ---------------------------------------------------------------- chips

  function TrimAll(values: seq<string>): seq<string> {
    if values == [] then []
    else
      var v := Trim(values[0], IsJsSpace);
      (if v == "" then [] else [v]) + TrimAll(values[1..])
  }

  predicate ValuesOk(op: Op, values: seq<string>) {
    match op
    case Eq => |values| == 1 && IsValue(values[0])
    case Neq => |values| == 1 && IsValue(values[0])
    case In => values != [] && forall i :: 0 <= i < |values| ==> IsValue(values[i])
    case NotIn => values != [] && forall i :: 0 <= i < |values| ==> IsValue(values[i])
    case Exists => values == []
    case Not => values == []
  }

  function NormalizeChip(le: Order, chip: Chip): Option<Chip> {
    var key := Trim(chip.key, IsJsSpace);
    var values := UniqueSorted(le, TrimAll(chip.values));
    if IsKey(key) && ValuesOk(chip.op, values) then Some(Chip(key, chip.op, values)) else None
  }

  /** A chip as parsing leaves it. */
  ghost predicate Normal(le: Order, chip: Chip) {
    IsKey(chip.key) && ValuesOk(chip.op, chip.values) && StrictlySorted(le, chip.values)
  }

  predicate Merges(chip: Chip) {
    chip.op == Eq || chip.op == In
  }

  /** Index of the first `eq` or `in` chip on `key`, or the length. */
  function FindMerge(chips: seq<Chip>, key: string): (i: nat)
    ensures i <= |chips|
    ensures i < |chips| ==> chips[i].key == key && Merges(chips[i])
    ensures forall j :: 0 <= j < i ==> !(chips[j].key == key && Merges(chips[j]))
  {
    if chips == [] || (chips[0].key == key && Merges(chips[0])) then 0 else 1 + FindMerge(chips[1..], key)
  }

  function AddChip(le: Order, chips: seq<Chip>, next: Chip): seq<Chip> {
    match NormalizeChip(le, next)
    case None => chips
    case Some(chip) =>
      var i := FindMerge(chips, chip.key);
      if Merges(chip) && i < |chips| then chips[i := MergedChip(le, chips[i], chip)] else chips + [chip]
  }

  function MergedChip(le: Order, prev: Chip, chip: Chip): Chip {
    var values := UniqueSorted(le, prev.values + chip.values);
    Chip(chip.key, if |values| > 1 then In else Eq, values)
  }

  // ---------------------------------------------------------------- one requirement

  /** The longest prefix of characters that satisfy `p`. */
  function TakeRun(s: string, p: char -> bool): string {
    if s == "" || !p(s[0]) then "" else [s[0]] + TakeRun(s[1..], p)
  }

  /** What is left after it. */
  function DropRun(s: string, p: char -> bool): string {
    TrimLeft(s, p)
  }

  lemma {:induction false} RunOf(a: string, rest: string, p: char -> bool)
    requires (forall i :: 0 <= i < |a| ==> p(a[i])) && (rest != "" ==> !p(rest[0]))
    ensures TakeRun(a + rest, p) == a && DropRun(a + rest, p) == rest
  {
    if a == "" {
      assert a + rest == rest;
    } else {
      RunOf(a[1..], rest, p);
      assert (a + rest)[1..] == a[1..] + rest;
    }
  }

  lemma {:induction false} RunJoins(s: string, p: char -> bool)
    ensures s == TakeRun(s, p) + DropRun(s, p)
    ensures forall i :: 0 <= i < |TakeRun(s, p)| ==> p(TakeRun(s, p)[i])
    ensures DropRun(s, p) != "" ==> !p(DropRun(s, p)[0])
  {
    if s != "" && p(s[0]) {
      RunJoins(s[1..], p);
      assert s == [s[0]] + s[1..];
    }
  }

  datatype SetText = SetText(key: string, word: string, inner: string)

  predicate InParens(tail: string) {
    |tail| >= 2 && tail[0] == '(' && tail[|tail| - 1] == ')' && ')' !in tail[1..|tail| - 1]
  }

  predicate IsSetWord(word: string) {
    word == "in" || word == "notin"
  }

  datatype Cut = Cut(key: string, a: string, word: string, b: string, tail: string)

  /** Key characters, white space, key characters, white space and the rest. */
  function CutUp(part: string): Cut {
    var r1 := DropRun(part, KeyChar);
    var r2 := DropRun(r1, IsJsSpace);
    var r3 := DropRun(r2, KeyChar);
    Cut(TakeRun(part, KeyChar), TakeRun(r1, IsJsSpace), TakeRun(r2, KeyChar), TakeRun(r3, IsJsSpace), DropRun(r3, IsJsSpace))
  }

  function Glued(c: Cut): string {
    c.key + (c.a + (c.word + (c.b + c.tail)))
  }

  lemma CutUpGlues(part: string)
    ensures Glued(CutUp(part)) == part
  {
    var r1 := DropRun(part, KeyChar);
    var r2 := DropRun(r1, IsJsSpace);
    var r3 := DropRun(r2, KeyChar);
    RunJoins(part, KeyChar);
    RunJoins(r1, IsJsSpace);
    RunJoins(r2, KeyChar);
    RunJoins(r3, IsJsSpace);
  }

  predicate AllSpaces(s: string) {
    s != "" && forall i :: 0 <= i < |s| ==> IsJsSpace(s[i])
  }

  lemma CutUpSpaces(part: string)
    ensures CutUp(part).a != "" ==> AllSpaces(CutUp(part).a)
    ensures CutUp(part).b != "" ==> AllSpaces(CutUp(part).b)
  {
    var r1 := DropRun(part, KeyChar);
    var r2 := DropRun(r1, IsJsSpace);
    RunJoins(r1, IsJsSpace);
    RunJoins(DropRun(r2, KeyChar), IsJsSpace);
  }

  lemma GluedCutsUp(c: Cut)
    requires AllKeyChars(c.key) && AllSpaces(c.a) && AllKeyChars(c.word) && c.word != "" && AllSpaces(c.b)
    requires c.tail != "" && c.tail[0] == '('
    ensures CutUp(Glued(c)) == c
  {
    var r3 := c.b + c.tail;
    var r2 := c.word + r3;
    var r1 := c.a + r2;
    assert r3[0] == c.b[0] && r2[0] == c.word[0] && r1[0] == c.a[0];
    RunOf(c.b, c.tail, IsJsSpace);
    RunOf(c.word, r3, KeyChar);
    RunOf(c.a, r2, IsJsSpace);
    RunOf(c.key, r1, KeyChar);
  }

  /** `^(key)\s+(in|notin)\s+\(([^)]*)\)$`, read from left to right. */
  function ParseSet(part: string): Option<SetText> {
    var c := CutUp(part);
    if IsKey(c.key) && c.a != "" && IsSetWord(c.word) && c.b != "" && InParens(c.tail)
    then Some(SetText(c.key, c.word, c.tail[1..|c.tail| - 1])) else None
  }

  function SetChip(le: Order, t: SetText): Option<Chip> {
    NormalizeChip(le, Chip(t.key, if t.word == "notin" then NotIn else In, TrimAll(Split(t.inner, ','))))
  }

  function ParsePlain(part: string): Option<Chip> {
    var key, rest := TakeRun(part, KeyChar), DropRun(part, KeyChar);
    if IsKey(key) && |rest| >= 2 && rest[..2] == "!=" && IsValue(rest[2..]) then Some(Chip(key, Neq, [rest[2..]]))
    else if IsKey(key) && |rest| >= 1 && rest[0] == '=' && IsValue(rest[1..]) then Some(Chip(key, Eq, [rest[1..]]))
    else if part != "" && part[0] == '!' && IsKey(part[1..]) then Some(Chip(part[1..], Not, []))
    else if IsKey(part) then Some(Chip(part, Exists, []))
    else None
  }

  function ParseRequirement(le: Order, part: string): Option<Chip> {
    match ParseSet(part)
    case Some(t) => SetChip(le, t)
    case None => ParsePlain(part)
  }

  // ---------------------------------------------------------------- the shapes, as regular expressions state them

  predicate SetShapeWith(part: string, t: SetText, a: string, b: string) {
    && part == Glued(Cut(t.key, a, t.word, b, "(" + t.inner + ")"))
    && IsKey(t.key) && AllSpaces(a) && AllSpaces(b) && IsSetWord(t.word) && ')' !in t.inner
  }

  ghost predicate SetShape(part: string, t: SetText) {
    exists a, b :: SetShapeWith(part, t, a, b)
  }

  lemma Parenthesized(inner: string)
    requires ')' !in inner
    ensures var tail := "(" + inner + ")"; InParens(tail) && tail[1..|tail| - 1] == inner
  {
    var tail := "(" + inner + ")";
    assert tail[1..|tail| - 1] == inner;
  }

  lemma Unparenthesized(tail: string)
    requires InParens(tail)
    ensures tail == "(" + tail[1..|tail| - 1] + ")"
  {
  }

  lemma SetWordIsRun(word: string)
    requires IsSetWord(word)
    ensures AllKeyChars(word) && word != ""
  {
  }

  lemma SetShapeParses(part: string, t: SetText, a: string, b: string)
    requires SetShapeWith(part, t, a, b)
    ensures ParseSet(part) == Some(t)
  {
    var c := Cut(t.key, a, t.word, b, "(" + t.inner + ")");
    Parenthesized(t.inner);
    SetWordIsRun(t.word);
    GluedCutsUp(c);
    assert CutUp(part) == c;
  }

  lemma ParsedSetHasShape(part: string)
    requires ParseSet(part).Some?
    ensures SetShape(part, ParseSet(part).value)
  {
    var c := CutUp(part);
    var t := SetText(c.key, c.word, c.tail[1..|c.tail| - 1]);
    CutUpGlues(part);
    CutUpSpaces(part);
    Unparenthesized(c.tail);
    assert c == Cut(t.key, c.a, t.word, c.b, "(" + t.inner + ")");
    assert SetShapeWith(part, t, c.a, c.b);
  }

  /** `ParseSet` finds exactly what the expression matches. */
  lemma ParseSetIsShape(part: string, t: SetText)
    ensures ParseSet(part) == Some(t) <==> SetShape(part, t)
  {
    if SetShape(part, t) {
      var a, b :| SetShapeWith(part, t, a, b);
      SetShapeParses(part, t, a, b);
    }
    if ParseSet(part) == Some(t) {
      ParsedSetHasShape(part);
    }
  }

  predicate NoSpace(s: string) {
    forall i :: 0 <= i < |s| ==> !IsJsSpace(s[i])
  }

  lemma NoSpaceNoSet(part: string)
    requires NoSpace(part)
    ensures ParseSet(part).None?
  {
    var r1 := DropRun(part, KeyChar);
    RunJoins(part, KeyChar);
    assert r1 != "" ==> r1[0] == part[|TakeRun(part, KeyChar)|];
  }

  /** What the four expressions without white space accept. */
  predicate PlainShape(part: string, chip: Chip) {
    match chip.op
    case Eq => IsKey(chip.key) && |chip.values| == 1 && IsValue(chip.values[0]) && part == chip.key + ("=" + chip.values[0])
    case Neq => IsKey(chip.key) && |chip.values| == 1 && IsValue(chip.values[0]) && part == chip.key + ("!=" + chip.values[0])
    case Not => IsKey(chip.key) && chip.values == [] && part == "!" + chip.key
    case Exists => IsKey(chip.key) && chip.values == [] && part == chip.key
    case _ => false
  }

  lemma PlainShapeParses(part: string, chip: Chip)
    requires PlainShape(part, chip)
    ensures ParsePlain(part) == Some(chip) && NoSpace(part)
  {
    assert NoSpace(part) by {
      assert forall i :: 0 <= i < |part| ==> KeyChar(part[i]) || part[i] == '=' || part[i] == '!';
    }
    match chip.op {
      case Eq =>
        assert chip.values == [chip.values[0]];
        EqParses(chip.key, chip.values[0]);
      case Neq =>
        assert chip.values == [chip.values[0]];
        NeqParses(chip.key, chip.values[0]);
      case Not => NotParses(chip);
      case Exists =>
        RunOf(part, "", KeyChar);
        assert part + "" == part;
    }
  }

  lemma EqParses(key: string, value: string)
    requires IsKey(key) && IsValue(value)
    ensures ParsePlain(key + ("=" + value)) == Some(Chip(key, Eq, [value]))
  {
    var rest := "=" + value;
    RunOf(key, rest, KeyChar);
    assert rest[1..] == value && rest[0] == '=';
    assert |rest| >= 2 ==> rest[..2][0] == '=';
  }

  lemma NeqParses(key: string, value: string)
    requires IsKey(key) && IsValue(value)
    ensures ParsePlain(key + ("!=" + value)) == Some(Chip(key, Neq, [value]))
  {
    var rest := "!=" + value;
    RunOf(key, rest, KeyChar);
    assert rest[2..] == value && rest[..2] == "!=";
  }

  lemma NotParses(chip: Chip)
    requires chip.op == Not && PlainShape("!" + chip.key, chip)
    ensures ParsePlain("!" + chip.key) == Some(chip)
  {
    var part := "!" + chip.key;
    assert !KeyChar(part[0]) && TakeRun(part, KeyChar) == "";
    assert part[1..] == chip.key;
  }

  lemma PlainParseHasShape(part: string)
    requires ParsePlain(part).Some?
    ensures PlainShape(part, ParsePlain(part).value)
  {
    var chip := ParsePlain(part).value;
    var key, rest := TakeRun(part, KeyChar), DropRun(part, KeyChar);
    RunJoins(part, KeyChar);
    match chip.op {
      case Neq => assert rest == "!=" + rest[2..];
      case Eq => assert rest == "=" + rest[1..];
      case Not => assert part == "!" + part[1..];
      case Exists =>
    }
  }

  ghost predicate SetGives(le: Order, part: string, chip: Chip) {
    exists t :: SetShape(part, t) && SetChip(le, t) == Some(chip)
  }

  /** A requirement is read exactly as one of the five expressions matches it. */
  lemma RequirementIsShape(le: Order, part: string, chip: Chip)
    ensures ParseRequirement(le, part) == Some(chip) <==> PlainShape(part, chip) || SetGives(le, part, chip)
  {
    if PlainShape(part, chip) {
      PlainShapeParses(part, chip);
      NoSpaceNoSet(part);
    }
    if SetGives(le, part, chip) {
      var t :| SetShape(part, t) && SetChip(le, t) == Some(chip);
      ParseSetIsShape(part, t);
    }
    if ParseRequirement(le, part) == Some(chip) {
      if ParseSet(part).Some? {
        ParsedSetHasShape(part);
      } else {
        PlainParseHasShape(part);
      }
    }
  }
}
