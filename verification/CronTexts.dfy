/** Which texts a cron field accepts, and as what: the grammar of its items. */
module CronTexts {
  import opened Text
  import opened CronFields
  import opened CronSchedule

  /** Splitting loses nothing, and leaves no separator in a piece. */
  lemma {:induction false} SplitJoins(s: string, sep: char)
    ensures Join(Split(s, sep), sep) == s
    ensures forall i :: 0 <= i < |Split(s, sep)| ==> sep !in Split(s, sep)[i]
  {
    if s != [] {
      var n := |s| - 1;
      var front := Split(s[..n], sep);
      SplitJoins(s[..n], sep);
      assert s == s[..n] + [s[n]];
      if s[n] == sep {
        JoinEmpty(front, sep);
      } else {
        JoinGrow(front, [s[n]], sep);
      }
    }
  }

  lemma JoinEmpty(pieces: seq<string>, sep: char)
    requires pieces != []
    ensures Join(pieces + [""], sep) == Join(pieces, sep) + [sep]
  {
    assert (pieces + [""])[..|pieces|] == pieces;
    assert Join(pieces, sep) + [sep] + "" == Join(pieces, sep) + [sep];
  }

  lemma JoinGrow(pieces: seq<string>, text: string, sep: char)
    requires pieces != []
    ensures Join(Grow(pieces, text), sep) == Join(pieces, sep) + text
  {
    var n := |pieces| - 1;
    var grown := Grow(pieces, text);
    assert grown[..n] == pieces[..n] && grown[n] == pieces[n] + text;
    if n > 0 {
      assert Join(pieces[..n], sep) + [sep] + (pieces[n] + text) == Join(pieces[..n], sep) + [sep] + pieces[n] + text;
    }
  }

  lemma SplitsOnce(s: string, sep: char)
    ensures |Split(s, sep)| == 1 <==> sep !in s
    ensures |Split(s, sep)| == 1 ==> Split(s, sep) == [s]
    ensures |Split(s, sep)| == 2 ==> s == Split(s, sep)[0] + [sep] + Split(s, sep)[1]
  {
    SplitJoins(s, sep);
    var pieces := Split(s, sep);
    if |pieces| == 1 {
      assert pieces == [s];
    } else {
      var n := |pieces| - 1;
      assert Join(pieces, sep) == Join(pieces[..n], sep) + [sep] + pieces[n];
      assert s[|Join(pieces[..n], sep)|] == sep;
      if n == 1 {
        assert pieces[..1] == [pieces[0]];
      }
    }
  }

  // ----- the grammar -----

  /** What stands before the slash: a star, a number, or two with a dash between them. */
  datatype Spelling = Any | One(v: string) | FromTo(first: string, last: string)

  predicate Reads(b: Spelling, text: string, min: int, max: int, star: bool, start: int, end: int) {
    match b
    case Any => text == "*" && star && start == min && end == max
    case One(v) => text == v && v != "*" && '-' !in v && !star && Atoi(v) == Some(start) && end == start
    case FromTo(first, last) =>
      && text == first + "-" + last && '-' !in first && '-' !in last
      && !star && Atoi(first) == Some(start) && Atoi(last) == Some(end)
  }

  ghost predicate BaseReads(text: string, min: int, max: int, item: Item) {
    && min <= item.start <= item.end <= max
    && exists b :: Reads(b, text, min, max, item.star, item.start, item.end)
  }

  lemma RangeReads(first: string, last: string, step: int, min: int, max: int)
    requires '-' !in first && '-' !in last
    ensures ParseBase(first + "-" + last, step, min, max) ==
            match (Atoi(first), Atoi(last))
            case (Some(a), Some(b)) => Checked(Item(false, a, b, step), min, max)
            case _ => None
  {
    var text := first + "-" + last;
    assert text[|first|] == '-';
    assert text != "*";
    SplitTwo(first, last, '-');
  }

  lemma BaseParsed(text: string, step: int, min: int, max: int, item: Item) returns (b: Spelling)
    requires ParseBase(text, step, min, max) == Some(item)
    ensures item.step == step && min <= item.start <= item.end <= max
    ensures Reads(b, text, min, max, item.star, item.start, item.end)
  {
    if text == "*" {
      b := Any;
    } else if '-' in text {
      var pieces := Split(text, '-');
      SplitJoins(text, '-');
      SplitsOnce(text, '-');
      b := FromTo(pieces[0], pieces[1]);
    } else {
      b := One(text);
    }
  }

  lemma BaseParsedIff(text: string, step: int, min: int, max: int, item: Item)
    ensures ParseBase(text, step, min, max) == Some(item) <==> item.step == step && BaseReads(text, min, max, item)
  {
    if ParseBase(text, step, min, max) == Some(item) {
      var b := BaseParsed(text, step, min, max, item);
    }
    if item.step == step && BaseReads(text, min, max, item) {
      var b :| Reads(b, text, min, max, item.star, item.start, item.end);
      if b.FromTo? {
        RangeReads(b.first, b.last, step, min, max);
      }
    }
  }

  /** The text without a slash is a base, of step 1; with one it is a base and a positive step. */
  ghost predicate ItemReads(part: string, min: int, max: int, item: Item) {
    || ('/' !in part && item.step == 1 && BaseReads(part, min, max, item))
    || (exists base, step :: SlashReads(part, base, step, min, max, item))
  }

  ghost predicate SlashReads(part: string, base: string, step: string, min: int, max: int, item: Item) {
    && part == base + "/" + step && '/' !in base && '/' !in step
    && Atoi(step) == Some(item.step) && item.step >= 1 && BaseReads(base, min, max, item)
  }

  lemma NotBlank(part: string, min: int, max: int, item: Item)
    requires part == ""
    ensures !ItemReads(part, min, max, item)
  {
    if BaseReads(part, min, max, item) {
      assert false;
    }
    if base, step :| SlashReads(part, base, step, min, max, item) {
      assert false;
    }
  }

  lemma SlashParsedIff(part: string, min: int, max: int, item: Item)
    requires part != "" && Trim(part) == part && '/' in part
    ensures ParseItem(part, min, max) == Some(item) <==> exists base, step :: SlashReads(part, base, step, min, max, item)
  {
    var pieces := Split(part, '/');
    if ParseItem(part, min, max) == Some(item) {
      SplitJoins(part, '/');
      SplitsOnce(part, '/');
      BaseParsedIff(pieces[0], item.step, min, max, item);
      BaseParsedIff(pieces[0], Atoi(pieces[1]).value, min, max, item);
      assert SlashReads(part, pieces[0], pieces[1], min, max, item);
    }
    if base, step :| SlashReads(part, base, step, min, max, item) {
      SplitTwo(base, step, '/');
      BaseParsedIff(base, item.step, min, max, item);
    }
  }

  lemma NoSlash(part: string, min: int, max: int, item: Item)
    requires '/' !in part
    ensures !exists base, step :: SlashReads(part, base, step, min, max, item)
  {
    if base, step :| SlashReads(part, base, step, min, max, item) {
      assert false;
    }
  }

  /** An item's text is accepted, and as what, exactly by the grammar. */
  lemma ItemAcceptedIff(text: string, min: int, max: int, item: Item)
    ensures ParseItem(text, min, max) == Some(item) <==> ItemReads(Trim(text), min, max, item)
  {
    var part := Trim(text);
    TrimIsTrimmed(text);
    assert ParseItem(text, min, max) == ParseItem(part, min, max);
    if part == "" {
      NotBlank(part, min, max, item);
    } else if '/' in part {
      SlashParsedIff(part, min, max, item);
    } else {
      NoSlash(part, min, max, item);
      BaseParsedIff(part, 1, min, max, item);
    }
  }

  // ----- whole fields -----

  predicate Accepted(text: string, min: int, max: int) {
    ParseItem(text, min, max).Some?
  }

  lemma {:induction false} ItemsAcceptedIff(parts: seq<string>, min: int, max: int)
    ensures ParseItems(parts, min, max).Some? <==> forall k :: 0 <= k < |parts| ==> Accepted(parts[k], min, max)
    ensures ParseItems(parts, min, max).Some? ==>
              forall k :: 0 <= k < |parts| ==> ParseItem(parts[k], min, max) == Some(ParseItems(parts, min, max).value[k])
  {
    if parts != [] {
      var n := |parts| - 1;
      var front := parts[..n];
      ItemsAcceptedIff(front, min, max);
      if ParseItems(front, min, max).Some? && Accepted(parts[n], min, max) {
        forall k | 0 <= k < |parts| ensures Accepted(parts[k], min, max) {
          assert k < n ==> front[k] == parts[k];
        }
      }
      if forall k :: 0 <= k < |parts| ==> Accepted(parts[k], min, max) {
        forall k | 0 <= k < n ensures Accepted(front[k], min, max) {
          assert front[k] == parts[k];
        }
      }
    }
  }

  /** The text reads as an item. */
  ghost predicate IsItem(text: string, min: int, max: int) {
    exists item :: ItemReads(Trim(text), min, max, item)
  }

  lemma AcceptedIff(text: string, min: int, max: int)
    ensures Accepted(text, min, max) <==> IsItem(text, min, max)
  {
    if Accepted(text, min, max) {
      ItemAcceptedIff(text, min, max, ParseItem(text, min, max).value);
    }
    if item :| ItemReads(Trim(text), min, max, item) {
      ItemAcceptedIff(text, min, max, item);
    }
  }

  lemma FieldParts(field: string, parts: seq<string>, min: int, max: int)
    requires parts != [] && field == Join(parts, ',') && forall k :: 0 <= k < |parts| ==> ',' !in parts[k]
    ensures FieldValue(field, min, max).Some? <==> ParseItems(parts, min, max).Some?
  {
    SplitOfJoin(parts, ',');
  }

  /** A field is accepted exactly if every text between its commas reads as an item. */
  lemma FieldAcceptedIff(field: string, parts: seq<string>, min: int, max: int)
    requires parts != [] && field == Join(parts, ',') && forall k :: 0 <= k < |parts| ==> ',' !in parts[k]
    ensures FieldValue(field, min, max).Some? <==> forall k :: 0 <= k < |parts| ==> IsItem(parts[k], min, max)
  {
    FieldParts(field, parts, min, max);
    ItemsAcceptedIff(parts, min, max);
    forall k | 0 <= k < |parts| ensures Accepted(parts[k], min, max) <==> IsItem(parts[k], min, max) {
      AcceptedIff(parts[k], min, max);
    }
  }

  /** A numeral is read exactly if it fits 64 bits. */
  lemma DecimalReadIff(n: nat)
    ensures Atoi(Decimal(n)).Some? <==> n <= MAX_INT
    ensures n <= MAX_INT ==> Atoi(Decimal(n)) == Some(n)
  {
    NumberOfDecimal(n);
    assert IsDigit(Decimal(n)[0]);
  }

  // ----- whole expressions -----

  predicate AllWords(ws: seq<string>) {
    forall i :: 0 <= i < |ws| ==> IsWord(ws[i])
  }

  lemma {:induction false} JoinFromFirst(ws: seq<string>, sep: char)
    requires |ws| > 1
    ensures Join(ws, sep) == ws[0] + ([sep] + Join(ws[1..], sep))
  {
    var n := |ws| - 1;
    if n == 1 {
      assert ws[..1] == [ws[0]] && ws[1..] == [ws[1]];
      assert ws[0] + [sep] + ws[1] == ws[0] + ([sep] + ws[1]);
    } else {
      JoinFromFirst(ws[..n], sep);
      assert ws[..n][1..] == ws[1..][..n - 1];
      var rest := Join(ws[1..][..n - 1], sep);
      assert ws[0] + ([sep] + rest) + [sep] + ws[n] == ws[0] + ([sep] + (rest + [sep] + ws[n]));
    }
  }

  lemma {:induction false} WordsOfJoin(ws: seq<string>)
    requires ws != [] && AllWords(ws)
    ensures Words(Join(ws, ' ')) == ws && Join(ws, ' ') != "" && Join(ws, ' ')[0] == ws[0][0]
  {
    if |ws| == 1 {
      LastWord(ws[0]);
    } else {
      JoinFromFirst(ws, ' ');
      WordsOfJoin(ws[1..]);
      WordThenSpace(ws[0], Join(ws[1..], ' '));
      assert [ws[0]] + ws[1..] == ws;
    }
  }

  lemma JoinedIsTrimmed(ws: seq<string>)
    requires ws != [] && AllWords(ws)
    ensures Trim(Join(ws, ' ')) == Join(ws, ' ')
  {
    WordsOfJoin(ws);
    var s, last := Join(ws, ' '), ws[|ws| - 1];
    assert s[|s| - 1] == last[|last| - 1];
    TrimOfTrimmed(s);
  }

  /** Every text between the commas of the field reads as an item. */
  ghost predicate IsField(field: string, min: int, max: int) {
    forall k :: 0 <= k < |Split(field, ',')| ==> IsItem(Split(field, ',')[k], min, max)
  }

  lemma FieldIff(field: string, min: int, max: int)
    ensures FieldValue(field, min, max).Some? <==> IsField(field, min, max)
  {
    SplitJoins(field, ',');
    FieldAcceptedIff(field, Split(field, ','), min, max);
  }

  /** An expression is accepted exactly if it has five words, and these are fields for minutes, hours, days
      of the month, months and days of the week. */
  lemma ExpressionAcceptedIff(ws: seq<string>)
    requires ws != [] && AllWords(ws)
    ensures ScheduleOf(Join(ws, ' ')).Some? <==>
            && |ws| == 5 && IsField(ws[0], 0, 59) && IsField(ws[1], 0, 23) && IsField(ws[2], 1, 31)
            && IsField(ws[3], 1, 12) && IsField(ws[4], 0, 7)
  {
    WordsOfJoin(ws);
    JoinedIsTrimmed(ws);
    if |ws| == 5 {
      FieldIff(ws[0], 0, 59);
      FieldIff(ws[1], 0, 23);
      FieldIff(ws[2], 1, 31);
      FieldIff(ws[3], 1, 12);
      FieldIff(ws[4], 0, 7);
    }
  }
}
