/** Five-field cron matching, with a meaning for each field that does not
    depend on the order in which the matcher tries its branches. */
module Cron {
  import opened Text
  import opened Calendar

  // ---------------------------------------------------------------- meaning

  /** `v` is one of start, start + step, start + 2 * step, ... */
  ghost predicate Stepping(start: nat, step: nat, v: nat) {
    exists k: nat :: IsStep(start, step, k, v)
  }

  predicate IsStep(start: nat, step: nat, k: nat, v: nat) {
    v == start + k * step
  }

  ghost predicate IsEvery(part: string, n: string, min: nat, v: nat) {
    part == "*/" + n && ParseU32(n).Some? && ParseU32(n).value > 0 && Stepping(min, ParseU32(n).value, v)
  }

  ghost predicate IsPair(part: string, a: string, sep: char, b: string) {
    part == a + [sep] + b && ParseU32(a).Some? && ParseU32(b).Some?
  }

  ghost predicate IsRange(part: string, a: string, b: string, v: nat) {
    IsPair(part, a, '-', b) && ParseU32(a).value <= v <= ParseU32(b).value
  }

  ghost predicate IsStartStep(part: string, a: string, b: string, max: nat, v: nat) {
    IsPair(part, a, '/', b) && ParseU32(b).value > 0
    && Stepping(ParseU32(a).value, ParseU32(b).value, v) && v <= max
  }

  ghost predicate InEvery(part: string, min: nat, v: nat) {
    exists n :: IsEvery(part, n, min, v)
  }

  ghost predicate InRange(part: string, v: nat) {
    exists a, b :: IsRange(part, a, b, v)
  }

  ghost predicate InStartStep(part: string, max: nat, v: nat) {
    exists a, b :: IsStartStep(part, a, b, max, v)
  }

  /** The values one comma-separated part stands for; a malformed part stands for none. */
  ghost predicate PartDenotes(part: string, min: nat, max: nat, v: nat) {
    InEvery(part, min, v) || InRange(part, v) || InStartStep(part, max, v) || ParseU32(part) == Some(v)
  }

  ghost predicate PieceDenotes(piece: string, min: nat, max: nat, v: nat) {
    PartDenotes(Trim(piece, IsSpace), min, max, v)
  }

  ghost predicate AnyPiece(pieces: seq<string>, min: nat, max: nat, v: nat) {
    exists i :: 0 <= i < |pieces| && PieceDenotes(pieces[i], min, max, v)
  }

  ghost predicate FieldDenotes(field: string, min: nat, max: nat, v: nat) {
    field == "*"
    || AnyPiece(Split(field, ','), min, max, v)
  }

  /** A five-field expression holds in a minute when all five parts of it do. */
  ghost predicate CronDenotes(expr: string, parts: Parts) {
    var fields := SplitSpaces(expr);
    |fields| == 5 && FieldsDenote(fields, parts)
  }

  ghost predicate FieldsDenote(fields: seq<string>, parts: Parts)
    requires |fields| == 5
  {
    && FieldDenotes(fields[0], 0, 59, parts.minute)
    && FieldDenotes(fields[1], 0, 23, parts.hour)
    && parts.day >= 0 && FieldDenotes(fields[2], 1, 31, parts.day)
    && parts.month >= 0 && FieldDenotes(fields[3], 1, 12, parts.month)
    && parts.weekday >= 0 && FieldDenotes(fields[4], 0, 6, parts.weekday)
  }

  // ---------------------------------------------------------------- numerals

  lemma NumeralChars(s: string)
    requires ParseU32(s).Some?
    ensures s != "" && '-' !in s && '/' !in s && '*' !in s && ',' !in s
  {
  }

  lemma SteppingIsMultiple(start: nat, step: nat, v: nat)
    requires step > 0
    ensures Stepping(start, step, v) <==> (v >= start && (v - start) % step == 0)
  {
    if v >= start && (v - start) % step == 0 {
      var k := (v - start) / step;
      assert IsStep(start, step, k, v);
    }
    if Stepping(start, step, v) {
      var k: nat :| IsStep(start, step, k, v);
      DivModIs(v - start, step, k, 0);
    }
  }

  // ---------------------------------------------------------------- each shape of a part

  /** A part is cut at its first separator, and the cut is forced. */
  lemma PairCut(part: string, a: string, sep: char, b: string)
    requires IsPair(part, a, sep, b) && (sep == '-' || sep == '/')
    ensures sep in part && a == part[..IndexOf(part, sep)] && b == part[IndexOf(part, sep) + 1..]
    ensures '*' !in part
    ensures sep == '-' ==> '/' !in part
    ensures sep == '/' ==> '-' !in part
  {
    NumeralChars(a);
    NumeralChars(b);
    IndexOfFirst(a, sep, b);
    assert part[|a|] == sep && part[..|a|] == a && part[|a| + 1..] == b;
  }

  /** Both sides of the cut are numbers. */
  predicate CutsIntoNumbers(part: string, sep: char) {
    var i := IndexOf(part, sep);
    i < |part| && ParseU32(part[..i]).Some? && ParseU32(part[i + 1..]).Some?
  }

  function Left(part: string, sep: char): nat
    requires CutsIntoNumbers(part, sep)
  {
    ParseU32(part[..IndexOf(part, sep)]).value
  }

  function Right(part: string, sep: char): nat
    requires CutsIntoNumbers(part, sep)
  {
    ParseU32(part[IndexOf(part, sep) + 1..]).value
  }

  lemma CutIsPair(part: string, sep: char)
    requires CutsIntoNumbers(part, sep)
    ensures IsPair(part, part[..IndexOf(part, sep)], sep, part[IndexOf(part, sep) + 1..])
  {
    CutJoins(part, IndexOf(part, sep));
  }

  lemma CutJoins(part: string, i: nat)
    requires i < |part|
    ensures part == part[..i] + [part[i]] + part[i + 1..]
  {
  }

  lemma RangeCut(part: string, v: nat)
    requires InRange(part, v)
    ensures CutsIntoNumbers(part, '-') && Left(part, '-') <= v <= Right(part, '-')
    ensures '*' !in part && '/' !in part
  {
    var a, b :| IsRange(part, a, b, v);
    PairCut(part, a, '-', b);
  }

  lemma CutIsRange(part: string, v: nat)
    requires CutsIntoNumbers(part, '-') && Left(part, '-') <= v <= Right(part, '-')
    ensures InRange(part, v)
  {
    CutIsPair(part, '-');
    assert IsRange(part, part[..IndexOf(part, '-')], part[IndexOf(part, '-') + 1..], v);
  }

  lemma RangeShape(part: string, v: nat)
    ensures InRange(part, v) <==>
      (CutsIntoNumbers(part, '-') && Left(part, '-') <= v <= Right(part, '-'))
    ensures InRange(part, v) ==> '*' !in part && '/' !in part
  {
    if InRange(part, v) {
      RangeCut(part, v);
    } else if CutsIntoNumbers(part, '-') && Left(part, '-') <= v <= Right(part, '-') {
      CutIsRange(part, v);
    }
  }

  lemma StartStepCut(part: string, max: nat, v: nat)
    requires InStartStep(part, max, v)
    ensures CutsIntoNumbers(part, '/') && Right(part, '/') > 0
    ensures Stepping(Left(part, '/'), Right(part, '/'), v) && v <= max
    ensures '*' !in part && '-' !in part
  {
    var a, b :| IsStartStep(part, a, b, max, v);
    PairCut(part, a, '/', b);
  }

  lemma StartStepShape(part: string, max: nat, v: nat)
    ensures InStartStep(part, max, v) <==>
      (CutsIntoNumbers(part, '/') && Right(part, '/') > 0
       && v >= Left(part, '/') && (v - Left(part, '/')) % Right(part, '/') == 0 && v <= max)
    ensures InStartStep(part, max, v) ==> '*' !in part && '-' !in part
  {
    if InStartStep(part, max, v) {
      StartStepCut(part, max, v);
      SteppingIsMultiple(Left(part, '/'), Right(part, '/'), v);
    } else if CutsIntoNumbers(part, '/') && Right(part, '/') > 0 && v <= max {
      CutIsStartStep(part, max, v);
    }
  }

  lemma CutIsStartStep(part: string, max: nat, v: nat)
    requires CutsIntoNumbers(part, '/') && Right(part, '/') > 0 && v <= max
    ensures v >= Left(part, '/') && (v - Left(part, '/')) % Right(part, '/') == 0 ==> InStartStep(part, max, v)
  {
    SteppingIsMultiple(Left(part, '/'), Right(part, '/'), v);
    if Stepping(Left(part, '/'), Right(part, '/'), v) {
      SteppingCut(part, max, v);
    }
  }

  lemma SteppingCut(part: string, max: nat, v: nat)
    requires CutsIntoNumbers(part, '/') && Right(part, '/') > 0
    requires Stepping(Left(part, '/'), Right(part, '/'), v) && v <= max
    ensures InStartStep(part, max, v)
  {
    CutIsPair(part, '/');
    assert IsStartStep(part, part[..IndexOf(part, '/')], part[IndexOf(part, '/') + 1..], max, v);
  }

  predicate StarSlash(part: string) {
    |part| >= 2 && part[..2] == "*/"
  }

  lemma EveryShape(part: string, min: nat, v: nat)
    ensures InEvery(part, min, v) <==>
      (StarSlash(part) && ParseU32(part[2..]).Some? && ParseU32(part[2..]).value > 0
       && v >= min && (v - min) % ParseU32(part[2..]).value == 0)
    ensures StarSlash(part) ==> '*' in part && '/' in part
  {
    if InEvery(part, min, v) {
      var n :| IsEvery(part, n, min, v);
      assert part[..2] == "*/" && part[2..] == n;
      SteppingIsMultiple(min, ParseU32(n).value, v);
    }
    if StarSlash(part) {
      assert part == "*/" + part[2..];
      assert part[0] == '*' && part[1] == '/';
      if ParseU32(part[2..]).Some? && ParseU32(part[2..]).value > 0 {
        SteppingIsMultiple(min, ParseU32(part[2..]).value, v);
        assert Stepping(min, ParseU32(part[2..]).value, v) ==> IsEvery(part, part[2..], min, v);
      }
    }
  }

  /** At most one of the four shapes can hold, so a part means what its own shape says. */
  lemma PartShapes(part: string, min: nat, max: nat, v: nat)
    ensures StarSlash(part) ==> (PartDenotes(part, min, max, v) <==> InEvery(part, min, v))
    ensures !StarSlash(part) && '-' in part ==> (PartDenotes(part, min, max, v) <==> InRange(part, v))
    ensures !StarSlash(part) && '-' !in part && '/' in part ==>
      (PartDenotes(part, min, max, v) <==> InStartStep(part, max, v))
    ensures !StarSlash(part) && '-' !in part && '/' !in part ==>
      (PartDenotes(part, min, max, v) <==> ParseU32(part) == Some(v))
  {
    EveryShape(part, min, v);
    RangeShape(part, v);
    StartStepShape(part, max, v);
  }

  /** `a-b/n` matches nothing whatever `a`, `b` and `n` are; nor do `*` in a list or an empty part. */
  lemma MalformedPartsDenoteNothing(a: string, b: string, n: string, min: nat, max: nat, v: nat)
    ensures !PartDenotes(a + "-" + b + "/" + n, min, max, v)
    ensures !PartDenotes("*", min, max, v) && !PartDenotes("", min, max, v)
  {
    var part := a + "-" + b + "/" + n;
    assert part[|a|] == '-' && part[|a| + 1 + |b|] == '/';
    PartShapes(part, min, max, v);
    RangeShape(part, v);
    if StarSlash(part) {
      assert |a| >= 2 && part[2..][|a| - 2] == '-';
      NotDigit(part[2..], '-');
      EveryShape(part, min, v);
    }
    PartShapes("*", min, max, v);
    NotDigit("*", '*');
    PartShapes("", min, max, v);
  }

  lemma EmptyPart(min: nat, max: nat, v: nat)
    ensures !PartDenotes("", min, max, v)
  {
    PartShapes("", min, max, v);
  }

  lemma NotDigit(s: string, c: char)
    requires c in s && !IsDigit(c) && c != '+'
    ensures ParseU32(s).None?
  {
  }

  // ---------------------------------------------------------------- the matcher

  lemma EveryPart(part: string, min: nat, max: nat, v: nat)
    requires StarSlash(part)
    ensures PartDenotes(part, min, max, v) <==>
      (ParseU32(part[2..]).Some? && ParseU32(part[2..]).value > 0 && v >= min && (v - min) % ParseU32(part[2..]).value == 0)
  {
    PartShapes(part, min, max, v);
    EveryShape(part, min, v);
  }

  lemma RangePart(part: string, min: nat, max: nat, v: nat)
    requires !StarSlash(part) && '-' in part
    ensures PartDenotes(part, min, max, v) <==> (CutsIntoNumbers(part, '-') && Left(part, '-') <= v <= Right(part, '-'))
  {
    PartShapes(part, min, max, v);
    RangeShape(part, v);
  }

  lemma StartStepPart(part: string, min: nat, max: nat, v: nat)
    requires !StarSlash(part) && '-' !in part && '/' in part
    ensures PartDenotes(part, min, max, v) <==>
      (CutsIntoNumbers(part, '/') && Right(part, '/') > 0
       && v >= Left(part, '/') && (v - Left(part, '/')) % Right(part, '/') == 0 && v <= max)
  {
    PartShapes(part, min, max, v);
    StartStepShape(part, max, v);
  }

  method PartMatch(part: string, value: nat, min: nat, max: nat) returns (matched: bool)
    ensures matched <==> PartDenotes(part, min, max, value)
  {
    if StarSlash(part) {
      EveryPart(part, min, max, value);
      var step := ParseU32(part[2..]);
      return step.Some? && step.value > 0 && value >= min && (value - min) % step.value == 0;
    }
    var dash := IndexOf(part, '-');
    if dash < |part| {
      RangePart(part, min, max, value);
      var lo, hi := ParseU32(part[..dash]), ParseU32(part[dash + 1..]);
      return lo.Some? && hi.Some? && value >= lo.value && value <= hi.value;
    }
    var slash := IndexOf(part, '/');
    if slash < |part| {
      StartStepPart(part, min, max, value);
      var base := part[..slash];
      if base == "*" {
        NotDigit(base, '*');
        return false;
      }
      var start, step := ParseU32(base), ParseU32(part[slash + 1..]);
      return start.Some? && step.Some? && step.value > 0 && value >= start.value
        && (value - start.value) % step.value == 0 && value <= max;
    }
    PartShapes(part, min, max, value);
    matched := ParseU32(part) == Some(value);
  }

  method FieldMatch(field: string, value: nat, min: nat, max: nat) returns (matched: bool)
    ensures matched <==> FieldDenotes(field, min, max, value)
  {
    if field == "*" {
      return true;
    }
    var parts := Split(field, ',');
    for i := 0 to |parts|
      invariant forall j :: 0 <= j < i ==> !PieceDenotes(parts[j], min, max, value)
    {
      var part := Trim(parts[i], IsSpace);
      assert PieceDenotes(parts[i], min, max, value) <==> PartDenotes(part, min, max, value);
      if part == "" {
        EmptyPart(min, max, value);
        continue;
      }
      var hit := PartMatch(part, value, min, max);
      if hit {
        return true;
      }
    }
    return false;
  }

  ghost predicate CronMatches(expr: string, unixSecs: nat) {
    CronDenotes(expr, UtcParts(unixSecs))
  }

  method CronMatch(expr: string, unixSecs: nat) returns (matched: bool)
    ensures matched <==> CronMatches(expr, unixSecs)
  {
    var fields := SplitSpaces(expr);
    if |fields| != 5 {
      return false;
    }
    var p := UtcParts(unixSecs);
    ghost var date, second := UtcPartsExact(unixSecs);
    matched := FieldMatch(fields[0], p.minute, 0, 59);
    if !matched { return; }
    matched := FieldMatch(fields[1], p.hour, 0, 23);
    if !matched { return; }
    matched := FieldMatch(fields[2], p.day, 1, 31);
    if !matched { return; }
    matched := FieldMatch(fields[3], p.month, 1, 12);
    if !matched { return; }
    matched := FieldMatch(fields[4], p.weekday, 0, 6);
  }

  /** Matching cannot tell two instants of one UTC minute apart. */
  lemma CronMatchesByMinute(expr: string, a: nat, b: nat)
    requires a / 60 == b / 60
    ensures CronMatches(expr, a) == CronMatches(expr, b)
  {
    UtcPartsOfMinute(a, b);
  }

  // ---------------------------------------------------------------- the fields, one by one

  lemma OnlyPiece(field: string, min: nat, max: nat, v: nat)
    requires field != "*" && ',' !in field && Trim(field, IsSpace) == field
    ensures FieldDenotes(field, min, max, v) <==> PartDenotes(field, min, max, v)
  {
    SplitJoin([field], ',');
    assert Join([field], ',') == field;
    assert [field][0] == field;
    assert PieceDenotes(field, min, max, v) <==> PartDenotes(field, min, max, v);
  }

  lemma NumeralIs(n: nat)
    ensures var field := Decimal(n);
      IsWord(field) && !StarSlash(field) && '-' !in field && '/' !in field && ',' !in field && field != "*" && Trim(field, IsSpace) == field
  {
    var field := Decimal(n);
    DecimalValue(n);
    forall i | 0 <= i < |field| ensures IsDigit(field[i]) {
      assert field[i] in field;
    }
    TrimIdentity(field, IsSpace);
  }

  lemma NumeralField(n: nat, min: nat, max: nat, v: nat)
    requires n <= U32_MAX
    ensures FieldDenotes(Decimal(n), min, max, v) <==> v == n
    ensures IsWord(Decimal(n))
  {
    NumeralIs(n);
    NumeralRead(n);
    OnlyPiece(Decimal(n), min, max, v);
    PartShapes(Decimal(n), min, max, v);
  }

  /** What the five fields are compared with, and where their steps start: minute, hour, day, month, weekday. */
  function PartAt(p: Parts, i: nat): int
    requires i < 5
  {
    if i == 0 then p.minute else if i == 1 then p.hour else if i == 2 then p.day else if i == 3 then p.month else p.weekday
  }

  function StartAt(i: nat): nat {
    if i == 2 || i == 3 then 1 else 0
  }

  function LastAt(i: nat): nat {
    if i == 0 then 59 else if i == 1 then 23 else if i == 2 then 31 else if i == 3 then 12 else 6
  }

  ghost predicate FieldAt(fields: seq<string>, p: Parts, i: nat)
    requires i < 5 && |fields| == 5
  {
    PartAt(p, i) >= 0 && FieldDenotes(fields[i], StartAt(i), LastAt(i), PartAt(p, i))
  }

  lemma FiveFields(fields: seq<string>, p: Parts)
    requires |fields| == 5 && forall i :: 0 <= i < 5 ==> IsWord(fields[i])
    ensures CronDenotes(Join(fields, ' '), p) <==> forall i :: 0 <= i < 5 ==> FieldAt(fields, p, i)
  {
    SplitWords(fields);
    EachField(fields, p);
  }

  lemma EachField(fields: seq<string>, p: Parts)
    requires |fields| == 5
    ensures FieldsDenote(fields, p) <==> forall i :: 0 <= i < 5 ==> FieldAt(fields, p, i)
  {
    if forall i :: 0 <= i < 5 ==> FieldAt(fields, p, i) {
      assert FieldAt(fields, p, 0) && FieldAt(fields, p, 1) && FieldAt(fields, p, 2) && FieldAt(fields, p, 3) && FieldAt(fields, p, 4);
    }
  }

  lemma PartsNonNegative(unixSecs: nat)
    ensures forall i :: 0 <= i < 5 ==> PartAt(UtcParts(unixSecs), i) >= 0
  {
    var date, second := UtcPartsExact(unixSecs);
    WeekdayNonNegative(unixSecs);
  }

  /** Five numerals name one minute, hour, day, month and weekday, in this order. */
  lemma NumeralsNameOneMinute(numbers: seq<nat>, fields: seq<string>, unixSecs: nat)
    requires |numbers| == |fields| == 5
    requires forall i :: 0 <= i < 5 ==> numbers[i] <= U32_MAX && fields[i] == Decimal(numbers[i])
    ensures CronMatches(Join(fields, ' '), unixSecs) <==> forall i :: 0 <= i < 5 ==> PartAt(UtcParts(unixSecs), i) == numbers[i]
  {
    var p := UtcParts(unixSecs);
    PartsNonNegative(unixSecs);
    forall i | 0 <= i < 5 ensures IsWord(fields[i]) && (FieldAt(fields, p, i) <==> PartAt(p, i) == numbers[i]) {
      NumeralField(numbers[i], StartAt(i), LastAt(i), PartAt(p, i));
    }
    FiveFields(fields, p);
  }

  lemma WeekdayNonNegative(unixSecs: nat)
    ensures UtcParts(unixSecs).weekday >= 0
  {
  }

  lemma StepTextIs(n: nat)
    ensures var field := StepText(n);
      IsWord(field) && StarSlash(field) && field[2..] == Decimal(n) && ',' !in field && field != "*" && Trim(field, IsSpace) == field
  {
    var field := StepText(n);
    DecimalValue(n);
    assert field[..2] == "*/" && field[2..] == Decimal(n);
    forall i | 0 <= i < |field| ensures !IsSpace(field[i]) && field[i] != ',' {
      assert i >= 2 ==> field[i] in Decimal(n);
    }
    TrimIdentity(field, IsSpace);
  }

  lemma StepField(n: nat, min: nat, max: nat, v: nat)
    requires 0 < n <= U32_MAX
    ensures FieldDenotes(StepText(n), min, max, v) <==> Stepping(min, n, v)
    ensures IsWord(StepText(n))
  {
    var field := StepText(n);
    StepTextIs(n);
    NumeralRead(n);
    OnlyPiece(field, min, max, v);
    PartShapes(field, min, max, v);
    EveryShape(field, min, v);
    SteppingIsMultiple(min, n, v);
  }

  function StepText(n: nat): string {
    "*/" + Decimal(n)
  }

  /** Steps count from 0 for minutes, hours and weekdays, and from 1 for days and months. */
  lemma StepsCountFromFieldStart(steps: seq<nat>, fields: seq<string>, unixSecs: nat)
    requires |steps| == |fields| == 5
    requires forall i :: 0 <= i < 5 ==> 0 < steps[i] <= U32_MAX && fields[i] == StepText(steps[i])
    ensures forall i :: 0 <= i < 5 ==> PartAt(UtcParts(unixSecs), i) >= 0
    ensures CronMatches(Join(fields, ' '), unixSecs)
      <==> forall i :: 0 <= i < 5 ==> Stepping(StartAt(i), steps[i], PartAt(UtcParts(unixSecs), i))
  {
    var p := UtcParts(unixSecs);
    PartsNonNegative(unixSecs);
    forall i | 0 <= i < 5 ensures IsWord(fields[i]) && (FieldAt(fields, p, i) <==> Stepping(StartAt(i), steps[i], PartAt(p, i))) {
      StepField(steps[i], StartAt(i), LastAt(i), PartAt(p, i));
    }
    FiveFields(fields, p);
  }
}
