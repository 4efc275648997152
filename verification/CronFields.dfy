/** Fields of a cron expression: lists of values, ranges and steps, parsed into sets of integers. */
module CronFields {
  import opened Text

  const MAX_INT := 0x7FFF_FFFF_FFFF_FFFF
  const MIN_INT := -0x8000_0000_0000_0000
  const TWO_TO_64 := 0x1_0000_0000_0000_0000

  /** `strconv.Atoi`: an optional sign and at least one digit, within 64 bits. */
  function Atoi(s: string): (r: Option<int>)
    ensures r.Some? ==> MIN_INT <= r.value <= MAX_INT
  {
    var signed := s != [] && (s[0] == '-' || s[0] == '+');
    var digits := if signed then s[1..] else s;
    if digits == [] || exists i :: 0 <= i < |digits| && !IsDigit(digits[i]) then None
    else
      var n := if signed && s[0] == '-' then -Number(digits) else Number(digits);
      if MIN_INT <= n <= MAX_INT then Some(n) else None
  }

  /** One list item: the values from start to end in steps; `star` if it is written with `*`. */
  datatype Item = Item(star: bool, start: int, end: int, step: int)

  predicate InRange(item: Item, min: int, max: int) {
    min <= item.start <= item.end <= max && 1 <= item.step <= MAX_INT
  }

  function Checked(item: Item, min: int, max: int): (r: Option<Item>) {
    if item.start < min || item.end > max || item.start > item.end then None else Some(item)
  }

  function ParseBase(base: string, step: int, min: int, max: int): (r: Option<Item>) {
    if base == "*" then Checked(Item(true, min, max, step), min, max)
    else if '-' in base then
      var pieces := Split(base, '-');
      if |pieces| != 2 then None
      else
        match (Atoi(pieces[0]), Atoi(pieces[1]))
        case (Some(a), Some(b)) => Checked(Item(false, a, b, step), min, max)
        case _ => None
    else
      match Atoi(base)
      case Some(v) => Checked(Item(false, v, v, step), min, max)
      case None => None
  }

  function ParseItem(text: string, min: int, max: int): (r: Option<Item>) {
    var part := Trim(text);
    if part == "" then None
    else if '/' in part then
      var pieces := Split(part, '/');
      if |pieces| != 2 then None
      else
        match Atoi(pieces[1])
        case Some(step) => if step <= 0 then None else ParseBase(pieces[0], step, min, max)
        case None => None
    else ParseBase(part, 1, min, max)
  }

  lemma ParsedItemIsInRange(text: string, min: int, max: int)
    ensures ParseItem(text, min, max).Some? ==> InRange(ParseItem(text, min, max).value, min, max)
  {
  }

  /** All items, or None if any is malformed. */
  function ParseItems(parts: seq<string>, min: int, max: int): (r: Option<seq<Item>>)
    ensures r.Some? ==> |r.value| == |parts|
  {
    if parts == [] then Some([])
    else
      match (ParseItems(parts[..|parts| - 1], min, max), ParseItem(parts[|parts| - 1], min, max))
      case (Some(items), Some(item)) => Some(items + [item])
      case _ => None
  }

  lemma {:induction false} ItemsAreInRange(parts: seq<string>, min: int, max: int)
    ensures ParseItems(parts, min, max).Some? ==>
              forall k :: 0 <= k < |ParseItems(parts, min, max).value| ==> InRange(ParseItems(parts, min, max).value[k], min, max)
  {
    if parts != [] {
      ItemsAreInRange(parts[..|parts| - 1], min, max);
      ParsedItemIsInRange(parts[|parts| - 1], min, max);
    }
  }

  lemma {:induction false} MalformedItem(parts: seq<string>, k: nat, min: int, max: int)
    requires k < |parts| && ParseItem(parts[k], min, max).None?
    ensures ParseItems(parts, min, max).None?
  {
    if k < |parts| - 1 {
      MalformedItem(parts[..|parts| - 1], k, min, max);
    }
  }

  // ----- the loop over the values of one item, with 64-bit addition -----

  function AddWrap(a: int, b: int): int {
    var sum := a + b;
    if sum > MAX_INT then sum - TWO_TO_64 else sum
  }

  /** The arguments the loop meets: values up to a small end, positive steps. */
  predicate Walkable(value: int, end: int, step: int) {
    MIN_INT <= value <= MAX_INT && 0 <= end < 0x1_0000_0000 && 1 <= step <= MAX_INT
  }

  /** Why the loop ends even though a sum can wrap: a wrap happens only for huge steps, and two such
      steps together lower the value. */
  ghost function Left(value: int, end: int, step: int): (r: nat)
    requires Walkable(value, end, step)
  {
    var next := value + step;
    if value > end then 0
    else if step <= MAX_INT - end then end - value + 1
    else if value < -0x4000_0000_0000_0000 then 3 + if next > 0 then 2 * next else 0
    else if next <= MAX_INT then 1
    else 2 * value + 2
  }

  lemma WalkShrinks(value: int, end: int, step: int)
    requires Walkable(value, end, step) && value <= end
    ensures Walkable(AddWrap(value, step), end, step)
    ensures Left(AddWrap(value, step), end, step) < Left(value, end, step)
  {
  }

  /** The values the loop inserts. */
  function Walk(value: int, end: int, step: int): (r: set<int>)
    requires Walkable(value, end, step)
    decreases Left(value, end, step)
  {
    if value > end then {}
    else
      WalkShrinks(value, end, step);
      {value} + Walk(AddWrap(value, step), end, step)
  }

  /** The values an item stands for. */
  ghost predicate InProgression(v: int, start: int, end: int, step: int) {
    v <= end && exists i: nat :: v == start + i * step
  }

  ghost predicate Denotes(item: Item, v: int) {
    InProgression(v, item.start, item.end, item.step)
  }

  lemma ProgressionStep(v: int, start: int, end: int, step: int)
    requires start <= end
    ensures InProgression(v, start, end, step) <==> v == start || InProgression(v, start + step, end, step)
  {
    if i: nat :| v == start + i * step {
      if i > 0 {
        assert v == start + step + (i - 1) * step;
      }
    }
    if i: nat :| v == start + step + i * step {
      assert v == start + (i + 1) * step;
    }
    assert start == start + 0 * step;
  }

  lemma ProgressionIsAbove(v: int, start: int, end: int, step: int)
    requires InProgression(v, start, end, step) && step >= 1
    ensures start <= v <= end
  {
    var i: nat :| v == start + i * step;
    assert i * step >= 0;
  }

  /** While no sum wraps, the loop inserts the progression. */
  lemma {:induction false} WalkIsProgression(value: int, end: int, step: int, v: int)
    requires Walkable(value, end, step)
    requires step <= MAX_INT - end || (0 <= value && value + step <= MAX_INT)
    ensures v in Walk(value, end, step) <==> InProgression(v, value, end, step)
    decreases Left(value, end, step)
  {
    if value <= end {
      WalkShrinks(value, end, step);
      ProgressionStep(v, value, end, step);
      if step <= MAX_INT - end {
        WalkIsProgression(value + step, end, step, v);
      } else {
        assert Walk(value + step, end, step) == {};
        if InProgression(v, value + step, end, step) {
          ProgressionIsAbove(v, value + step, end, step);
        }
      }
    } else if InProgression(v, value, end, step) {
      ProgressionIsAbove(v, value, end, step);
    }
  }

  /** What a caller can check about an item. */
  predicate StepFits(item: Item) {
    item.start + item.step <= MAX_INT
  }

  /** A step that wraps, but so far that what comes back lies below the field's range. */
  predicate WrapsOut(item: Item, min: int) {
    item.start + 2 * item.step - TWO_TO_64 < min
  }

  predicate Quiet(item: Item, min: int) {
    StepFits(item) || WrapsOut(item, min)
  }

  function ValuesOf(item: Item): (r: set<int>) {
    if InRange(item, 0, 0xFFFF_FFFF) then Walk(item.start, item.end, item.step) else {}
  }

  /** If the sum wraps, a negative value gets into the set. */
  lemma WrappedValue(item: Item)
    requires InRange(item, 0, 0xFFFF_FFFF) && !StepFits(item)
    ensures item.start + item.step - TWO_TO_64 < 0
    ensures item.start + item.step - TWO_TO_64 in ValuesOf(item)
  {
    var low := item.start + item.step - TWO_TO_64;
    WalkShrinks(item.start, item.end, item.step);
    assert AddWrap(item.start, item.step) == low;
    assert low in Walk(low, item.end, item.step);
  }

  lemma ItemValues(item: Item, v: int)
    requires InRange(item, 0, 0xFFFF_FFFF) && StepFits(item)
    ensures v in ValuesOf(item) <==> Denotes(item, v)
  {
    WalkIsProgression(item.start, item.end, item.step, v);
  }

  /** With a step that can wrap, the walk stays below where it is, or where one step from the far end leads. */
  lemma {:induction false} WrappedWalkFalls(value: int, end: int, step: int, v: int)
    requires Walkable(value, end, step) && step > MAX_INT - end && v in Walk(value, end, step)
    ensures v <= if value < -0x4000_0000_0000_0000 then value + step else value
    decreases Left(value, end, step)
  {
    WalkShrinks(value, end, step);
    if v != value {
      WrappedWalkFalls(AddWrap(value, step), end, step, v);
    }
  }

  /** Within the field's range an item selects what it denotes, if and only if its step does not wrap
      or wraps out of the range. */
  lemma ItemSelectsIff(item: Item, min: int, max: int)
    requires 0 <= min <= max <= 0xFFFF_FFFF && InRange(item, min, max)
    ensures (forall v :: min <= v <= max ==> (v in ValuesOf(item) <==> Denotes(item, v))) <==> Quiet(item, min)
  {
    if StepFits(item) {
      forall v | min <= v <= max ensures v in ValuesOf(item) <==> Denotes(item, v) {
        ItemValues(item, v);
      }
    } else if WrapsOut(item, min) {
      forall v | min <= v <= max ensures v in ValuesOf(item) <==> Denotes(item, v) {
        WrappedOutSelects(item, min, v);
      }
    } else {
      var back := item.start + 2 * item.step - TWO_TO_64;
      WrappedBack(item);
      assert !Denotes(item, back) by {
        if Denotes(item, back) {
          ProgressionIsAbove(back, item.start, item.end, item.step);
        }
      }
    }
  }

  lemma WrappedOutSelects(item: Item, min: int, v: int)
    requires 0 <= min <= v && InRange(item, min, 0xFFFF_FFFF) && !StepFits(item) && WrapsOut(item, min)
    ensures v in ValuesOf(item) <==> Denotes(item, v)
  {
    var low := item.start + item.step - TWO_TO_64;
    WalkShrinks(item.start, item.end, item.step);
    assert AddWrap(item.start, item.step) == low;
    if v in Walk(low, item.end, item.step) {
      WrappedWalkFalls(low, item.end, item.step, v);
    }
    assert item.start == item.start + 0 * item.step;
    if Denotes(item, v) && v != item.start {
      ProgressionStep(v, item.start, item.end, item.step);
      ProgressionIsAbove(v, item.start + item.step, item.end, item.step);
    }
  }

  /** Two wrapping steps lead back to a smaller value, which is selected. */
  lemma WrappedBack(item: Item)
    requires InRange(item, 0, 0xFFFF_FFFF) && !StepFits(item)
    ensures item.start + 2 * item.step - TWO_TO_64 in ValuesOf(item)
    ensures item.start + 2 * item.step - TWO_TO_64 < item.start
  {
    var low := item.start + item.step - TWO_TO_64;
    var back := low + item.step;
    WalkShrinks(item.start, item.end, item.step);
    assert AddWrap(item.start, item.step) == low;
    WalkShrinks(low, item.end, item.step);
    assert AddWrap(low, item.step) == back;
    assert back in Walk(back, item.end, item.step);
    assert back in Walk(low, item.end, item.step);
  }

  // ----- a whole field -----

  predicate AllInRange(items: seq<Item>) {
    forall k :: 0 <= k < |items| ==> InRange(items[k], 0, 0xFFFF_FFFF)
  }

  function UnionOf(items: seq<Item>): (r: set<int>) {
    if items == [] then {} else UnionOf(items[..|items| - 1]) + ValuesOf(items[|items| - 1])
  }

  lemma {:induction false} InUnion(items: seq<Item>, v: int)
    ensures v in UnionOf(items) <==> exists k :: 0 <= k < |items| && v in ValuesOf(items[k])
  {
    if items != [] {
      var n := |items| - 1;
      InUnion(items[..n], v);
      if k :| 0 <= k < |items| && v in ValuesOf(items[k]) {
        assert k < n ==> v in ValuesOf(items[..n][k]);
      }
      if k :| 0 <= k < n && v in ValuesOf(items[..n][k]) {
        assert v in ValuesOf(items[k]);
      }
      assert v in ValuesOf(items[n]) ==> exists k :: 0 <= k < |items| && v in ValuesOf(items[k]);
    }
  }

  ghost predicate Listed(items: seq<Item>, v: int) {
    exists k :: 0 <= k < |items| && Denotes(items[k], v)
  }

  predicate AllFit(items: seq<Item>) {
    forall k :: 0 <= k < |items| ==> StepFits(items[k])
  }

  lemma UnionWhenFit(items: seq<Item>, v: int)
    requires AllInRange(items) && AllFit(items)
    ensures v in UnionOf(items) <==> Listed(items, v)
  {
    InUnion(items, v);
    if k :| 0 <= k < |items| && v in ValuesOf(items[k]) {
      ItemValues(items[k], v);
    }
    if k :| 0 <= k < |items| && Denotes(items[k], v) {
      ItemValues(items[k], v);
    }
  }

  /** The parsed set is the union of the progressions if and only if no first step of an item wraps. */
  lemma UnionIsListedIff(items: seq<Item>)
    requires AllInRange(items)
    ensures (forall v :: v in UnionOf(items) <==> Listed(items, v)) <==> AllFit(items)
  {
    if AllFit(items) {
      forall v ensures v in UnionOf(items) <==> Listed(items, v) {
        UnionWhenFit(items, v);
      }
    } else {
      var k :| 0 <= k < |items| && !StepFits(items[k]);
      var low := items[k].start + items[k].step - TWO_TO_64;
      WrappedValue(items[k]);
      InUnion(items, low);
      assert low in UnionOf(items);
      NotListedBelow(items, low);
    }
  }

  /** The distance between the values a wrapping step comes back to. */
  function Fall(step: int): int {
    TWO_TO_64 - 2 * step
  }

  ghost predicate Falls(u: int, step: int, v: int) {
    exists j: nat :: v == u - j * Fall(step)
  }

  /** A value the item comes back to after its step has wrapped. */
  ghost predicate ComesBack(item: Item, v: int) {
    !StepFits(item) && Falls(item.start - Fall(item.step), item.step, v)
  }

  lemma FallsStep(u: int, step: int, v: int)
    ensures Falls(u, step, v) <==> v == u || Falls(u - Fall(step), step, v)
  {
    if j: nat :| v == u - j * Fall(step) {
      if j > 0 {
        assert v == u - Fall(step) - (j - 1) * Fall(step);
      }
    }
    if j: nat :| v == u - Fall(step) - j * Fall(step) {
      assert v == u - (j + 1) * Fall(step);
    }
    assert u == u - 0 * Fall(step);
  }

  lemma FallsIsBelow(u: int, step: int, v: int)
    requires Falls(u, step, v) && 1 <= step <= MAX_INT
    ensures v <= u
  {
    var j: nat :| v == u - j * Fall(step);
    assert j * Fall(step) >= 0;
  }

  /** With a step that can wrap, the walk visits, from 0 on, the values one fall apart. */
  lemma {:induction false} WrappedWalkVisits(u: int, end: int, step: int, v: int)
    requires Walkable(u, end, step) && step > MAX_INT - end && 0 <= u <= end && v >= 0
    ensures v in Walk(u, end, step) <==> Falls(u, step, v)
    decreases u
  {
    var back := u - Fall(step);
    WalkShrinks(u, end, step);
    FallsStep(u, step, v);
    if u + step <= MAX_INT {
      assert Walk(u + step, end, step) == {};
      if Falls(back, step, v) {
        FallsIsBelow(back, step, v);
      }
    } else {
      var low := u + step - TWO_TO_64;
      assert AddWrap(u, step) == low;
      WalkShrinks(low, end, step);
      assert AddWrap(low, step) == back;
      assert v in Walk(u, end, step) <==> v == u || v in Walk(back, end, step);
      if back >= 0 {
        WrappedWalkVisits(back, end, step, v);
      } else {
        if v in Walk(back, end, step) {
          WrappedWalkFalls(back, end, step, v);
        }
        if Falls(back, step, v) {
          FallsIsBelow(back, step, v);
        }
      }
    }
  }

  /** What an item selects from 0 on: what it lists, and what it comes back to. */
  lemma ItemSelects(item: Item, v: int)
    requires InRange(item, 0, 0xFFFF_FFFF) && v >= 0
    ensures v in ValuesOf(item) <==> Denotes(item, v) || ComesBack(item, v)
  {
    if StepFits(item) {
      ItemValues(item, v);
    } else {
      WrappedWalkVisits(item.start, item.end, item.step, v);
      FallsStep(item.start, item.step, v);
      ProgressionStep(v, item.start, item.end, item.step);
      if InProgression(v, item.start + item.step, item.end, item.step) {
        ProgressionIsAbove(v, item.start + item.step, item.end, item.step);
      }
    }
  }

  /** Every value in the field's range that some item comes back to is listed by some item. */
  ghost predicate ReturnsListed(items: seq<Item>, min: int) {
    forall k, v :: 0 <= k < |items| && min <= v && ComesBack(items[k], v) ==> Listed(items, v)
  }

  lemma UnionInRange(items: seq<Item>, v: int)
    requires AllInRange(items) && v >= 0
    ensures v in UnionOf(items) <==> Listed(items, v) || exists k :: 0 <= k < |items| && ComesBack(items[k], v)
  {
    InUnion(items, v);
    if k :| 0 <= k < |items| && v in ValuesOf(items[k]) {
      ItemSelects(items[k], v);
    }
    if k :| 0 <= k < |items| && Denotes(items[k], v) {
      ItemSelects(items[k], v);
    }
    if k :| 0 <= k < |items| && ComesBack(items[k], v) {
      ItemSelects(items[k], v);
    }
  }

  /** Within its range a field selects what it lists, if and only if every value in range that a wrapping
      step comes back to is listed as well. */
  lemma FieldSelectsIff(items: seq<Item>, min: int, max: int)
    requires 0 <= min <= max <= 0xFFFF_FFFF && forall k :: 0 <= k < |items| ==> InRange(items[k], min, max)
    ensures (forall v :: min <= v <= max ==> (v in UnionOf(items) <==> Listed(items, v))) <==> ReturnsListed(items, min)
  {
    if ReturnsListed(items, min) {
      forall v | min <= v <= max ensures v in UnionOf(items) <==> Listed(items, v) {
        UnionInRange(items, v);
      }
    }
    if forall v :: min <= v <= max ==> (v in UnionOf(items) <==> Listed(items, v)) {
      forall k, v | 0 <= k < |items| && min <= v && ComesBack(items[k], v) ensures Listed(items, v) {
        FallsIsBelow(items[k].start - Fall(items[k].step), items[k].step, v);
        UnionInRange(items, v);
      }
    }
  }

  lemma NotListedBelow(items: seq<Item>, v: int)
    requires AllInRange(items) && v < 0
    ensures !Listed(items, v)
  {
    if k :| 0 <= k < |items| && Denotes(items[k], v) {
      ProgressionIsAbove(v, items[k].start, items[k].end, items[k].step);
    }
  }

  /** The wrap shows: the single value 59 with the largest step also selects 57. */
  lemma WrappedStepSelectsMore()
    ensures InRange(Item(false, 59, 59, MAX_INT), 0, 59)
    ensures 57 in ValuesOf(Item(false, 59, 59, MAX_INT)) && !Denotes(Item(false, 59, 59, MAX_INT), 57)
  {
    WalkShrinks(59, 59, MAX_INT);
    var low := 59 + MAX_INT - TWO_TO_64;
    assert AddWrap(59, MAX_INT) == low;
    WalkShrinks(low, 59, MAX_INT);
    assert AddWrap(low, MAX_INT) == 57;
    assert 57 in Walk(57, 59, MAX_INT);
    assert 57 in Walk(low, 59, MAX_INT);
    if InProgression(57, 59, 59, MAX_INT) {
      ProgressionIsAbove(57, 59, 59, MAX_INT);
    }
  }

  predicate AnyStar(items: seq<Item>) {
    exists k :: 0 <= k < |items| && items[k].star
  }

  /** The values of a list and whether it has a `*`. */
  function ListValue(parts: seq<string>, min: int, max: int): (r: Option<(set<int>, bool)>)
  {
    match ParseItems(parts, min, max)
    case Some(items) => Some((UnionOf(items), AnyStar(items)))
    case None => None
  }

  function FieldValue(field: string, min: int, max: int): (r: Option<(set<int>, bool)>) {
    ListValue(Split(field, ','), min, max)
  }

  method ParsePart(text: string, minValue: int, maxValue: int) returns (item: Option<Item>)
    ensures item == ParseItem(text, minValue, maxValue)
  {
    var part := Trim(text);
    if part == "" {
      return None;
    }
    var step, base := 1, part;
    if '/' in part {
      var pieces := Split(part, '/');
      if |pieces| != 2 {
        return None;
      }
      base := pieces[0];
      var parsedStep := Atoi(pieces[1]);
      if parsedStep.None? || parsedStep.value <= 0 {
        return None;
      }
      step := parsedStep.value;
    }
    var start, end, star := minValue, maxValue, false;
    if base == "*" {
      star := true;
    } else if '-' in base {
      var pieces := Split(base, '-');
      if |pieces| != 2 {
        return None;
      }
      var first, last := Atoi(pieces[0]), Atoi(pieces[1]);
      if first.None? || last.None? {
        return None;
      }
      start, end := first.value, last.value;
    } else {
      var value := Atoi(base);
      if value.None? {
        return None;
      }
      start, end := value.value, value.value;
    }
    if start < minValue || end > maxValue || start > end {
      return None;
    }
    return Some(Item(star, start, end, step));
  }

  method ParseCronField(field: string, minValue: int, maxValue: int) returns (r: Option<(set<int>, bool)>)
    requires 0 <= minValue <= maxValue <= 0xFFFF_FFFF
    ensures r == FieldValue(field, minValue, maxValue)
  {
    var values: set<int>, star := {}, false;
    var parts := Split(field, ',');
    var k := 0;
    while k < |parts|
      invariant 0 <= k <= |parts|
      invariant ListValue(parts[..k], minValue, maxValue) == Some((values, star))
    {
      var item := ParsePart(parts[k], minValue, maxValue);
      if item.None? {
        MalformedItem(parts, k, minValue, maxValue);
        return None;
      }
      ParsedItemIsInRange(parts[k], minValue, maxValue);
      ghost var items := ParseItems(parts[..k], minValue, maxValue).value;
      assert parts[..k + 1][..k] == parts[..k];
      ParseOneMore(parts[..k + 1], items, item.value, minValue, maxValue);
      OneMoreItem(parts[..k], parts[..k + 1], items, item.value, minValue, maxValue);
      values := InsertValues(values, item.value);
      star := star || item.value.star;
      k := k + 1;
    }
    assert parts[..k] == parts;
    return Some((values, star));
  }

  lemma OneMoreItem(parts: seq<string>, parts': seq<string>, items: seq<Item>, item: Item, min: int, max: int)
    requires ParseItems(parts, min, max) == Some(items) && ParseItems(parts', min, max) == Some(items + [item])
    ensures ListValue(parts, min, max) == Some((UnionOf(items), AnyStar(items)))
    ensures ListValue(parts', min, max) == Some((UnionOf(items) + ValuesOf(item), AnyStar(items) || item.star))
  {
    UnionAppend(items, item);
    StarAppend(items, item);
  }

  lemma UnionAppend(items: seq<Item>, item: Item)
    ensures UnionOf(items + [item]) == UnionOf(items) + ValuesOf(item)
  {
    assert (items + [item])[..|items|] == items;
  }

  lemma StarAppend(items: seq<Item>, item: Item)
    ensures AnyStar(items + [item]) <==> AnyStar(items) || item.star
  {
    var all := items + [item];
    if k :| 0 <= k < |items| && items[k].star {
      assert all[k].star;
    }
    assert all[|items|] == item;
  }

  method InsertValues(values: set<int>, item: Item) returns (r: set<int>)
    requires InRange(item, 0, 0xFFFF_FFFF)
    ensures r == values + ValuesOf(item)
  {
    r := values;
    var value := item.start;
    while value <= item.end
      invariant Walkable(value, item.end, item.step)
      invariant r + Walk(value, item.end, item.step) == values + ValuesOf(item)
      decreases Left(value, item.end, item.step)
    {
      WalkShrinks(value, item.end, item.step);
      r := r + {value};
      value := AddWrap(value, item.step);
    }
  }

  // ----- writing items -----

  datatype Base = Star | Value(v: nat) | Range(first: nat, last: nat)

  datatype Written = Written(base: Base, step: Option<nat>)

  function RenderBase(base: Base): string {
    match base
    case Star => "*"
    case Value(v) => Decimal(v)
    case Range(a, b) => Decimal(a) + "-" + Decimal(b)
  }

  function Render(w: Written): string {
    if w.step.None? then RenderBase(w.base) else RenderBase(w.base) + "/" + Decimal(w.step.value)
  }

  function Meant(w: Written, min: int, max: int): Item {
    var step := if w.step.Some? then w.step.value else 1;
    match w.base
    case Star => Item(true, min, max, step)
    case Value(v) => Item(false, v, v, step)
    case Range(a, b) => Item(false, a, b, step)
  }

  predicate Writable(w: Written, min: int, max: int) {
    InRange(Meant(w, min, max), min, max)
  }

  lemma AtoiOfDecimal(n: nat)
    requires n <= MAX_INT
    ensures Atoi(Decimal(n)) == Some(n)
  {
    NumberOfDecimal(n);
    assert IsDigit(Decimal(n)[0]);
  }

  lemma SplitTwo(a: string, b: string, sep: char)
    requires sep !in a && sep !in b
    ensures Split(a + [sep] + b, sep) == [a, b]
  {
    assert [a, b][..1] == [a];
    assert Join([a, b], sep) == a + [sep] + b;
    SplitOfJoin([a, b], sep);
  }

  lemma NotDigit(n: nat, c: char)
    requires !IsDigit(c)
    ensures c !in Decimal(n)
  {
  }

  lemma ParseOfBase(base: Base, step: int, min: int, max: int)
    requires 0 <= min <= max <= 0xFFFF_FFFF && InRange(Meant(Written(base, None), min, max), min, max) && 1 <= step <= MAX_INT
    ensures ParseBase(RenderBase(base), step, min, max) == Some(Meant(Written(base, None), min, max).(step := step))
  {
    match base {
      case Star =>
      case Value(v) =>
        AtoiOfDecimal(v);
        NotDigit(v, '-');
        NotDigit(v, '*');
      case Range(a, b) =>
        AtoiOfDecimal(a);
        AtoiOfDecimal(b);
        NotDigit(a, '-');
        NotDigit(b, '-');
        SplitTwo(Decimal(a), Decimal(b), '-');
        assert (Decimal(a) + "-" + Decimal(b))[|Decimal(a)|] == '-';
    }
  }

  /** Rendered text is plain: it holds none of the characters that structure a list. */
  predicate Plain(s: string) {
    s != "" && forall c :: c in s ==> IsDigit(c) || c == '*' || c == '-' || c == '/'
  }

  lemma RenderIsPlain(w: Written)
    ensures Plain(Render(w)) && '/' !in RenderBase(w.base) && Plain(RenderBase(w.base))
  {
  }

  lemma PlainIsTrimmed(s: string)
    requires Plain(s)
    ensures Trim(s) == s
  {
    assert s[0] in s && s[|s| - 1] in s;
  }

  /** Whatever can be written is parsed as it was meant. */
  lemma ParseOfRender(w: Written, min: int, max: int)
    requires 0 <= min <= max <= 0xFFFF_FFFF && Writable(w, min, max)
    ensures ParseItem(Render(w), min, max) == Some(Meant(w, min, max))
  {
    RenderIsPlain(w);
    PlainIsTrimmed(Render(w));
    if w.step.None? {
      ParseOfBase(w.base, 1, min, max);
    } else {
      var step := w.step.value;
      ParseOfBase(w.base, step, min, max);
      NotDigit(step, '/');
      AtoiOfDecimal(step);
      SplitTwo(RenderBase(w.base), Decimal(step), '/');
      assert Render(w)[|RenderBase(w.base)|] == '/';
    }
  }

  function RenderAll(ws: seq<Written>): seq<string> {
    seq(|ws|, i requires 0 <= i < |ws| => Render(ws[i]))
  }

  function MeantAll(ws: seq<Written>, min: int, max: int): seq<Item> {
    seq(|ws|, i requires 0 <= i < |ws| => Meant(ws[i], min, max))
  }

  lemma ParseOneMore(parts: seq<string>, items: seq<Item>, item: Item, min: int, max: int)
    requires parts != [] && ParseItems(parts[..|parts| - 1], min, max) == Some(items)
    requires ParseItem(parts[|parts| - 1], min, max) == Some(item)
    ensures ParseItems(parts, min, max) == Some(items + [item])
  {
  }

  lemma RenderPrefix(ws: seq<Written>, min: int, max: int)
    requires ws != []
    ensures RenderAll(ws)[..|ws| - 1] == RenderAll(ws[..|ws| - 1])
    ensures RenderAll(ws)[|ws| - 1] == Render(ws[|ws| - 1])
    ensures MeantAll(ws, min, max) == MeantAll(ws[..|ws| - 1], min, max) + [Meant(ws[|ws| - 1], min, max)]
  {
  }

  lemma {:induction false} ParseOfRenderAll(ws: seq<Written>, min: int, max: int)
    requires 0 <= min <= max <= 0xFFFF_FFFF && forall i :: 0 <= i < |ws| ==> Writable(ws[i], min, max)
    ensures ParseItems(RenderAll(ws), min, max) == Some(MeantAll(ws, min, max))
  {
    if ws == [] {
      assert RenderAll(ws) == [] && MeantAll(ws, min, max) == [];
    } else {
      var n := |ws| - 1;
      ParseOfRenderAll(ws[..n], min, max);
      ParseOfRender(ws[n], min, max);
      RenderPrefix(ws, min, max);
      ParseOneMore(RenderAll(ws), MeantAll(ws[..n], min, max), Meant(ws[n], min, max), min, max);
    }
  }

  /** The list as a whole: rendering, joining with commas, splitting and parsing is the identity. */
  lemma FieldRoundTrip(ws: seq<Written>, min: int, max: int)
    requires ws != [] && 0 <= min <= max <= 0xFFFF_FFFF && forall i :: 0 <= i < |ws| ==> Writable(ws[i], min, max)
    ensures ParseItems(Split(Join(RenderAll(ws), ','), ','), min, max) == Some(MeantAll(ws, min, max))
  {
    forall i | 0 <= i < |ws| ensures ',' !in RenderAll(ws)[i] {
      RenderIsPlain(ws[i]);
    }
    SplitOfJoin(RenderAll(ws), ',');
    ParseOfRenderAll(ws, min, max);
  }
}
