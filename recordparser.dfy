/**
 * The two line-oriented record parsers: the generation-response dialect
 * (`Term: Definition: Hint: DifficultyLevel`, split on `:`) and the import
 * dialect (`Term;Definition;Hint;DifficultyLevel`, split on `;`). The text is
 * split on `\n`, every line is read on its own, rejected lines are dropped and
 * each accepted line becomes one card, with the next palette colour and the id
 * `<prefix><clock>-<line index>`.
 *
 * `Date.now()` is read once per accepted line; it is the parameter `clock`,
 * applied to the line index. A batch read within one millisecond is the
 * constant clock.
 */
module RecordParser {
  import opened Wrappers
  import opened JsString
  import opened Palette
  import opened Flashcards

  datatype Dialect = Generation | Import

  function Delimiter(d: Dialect): char {
    match d
    case Generation => ':'
    case Import => ';'
  }

  function IdPrefix(d: Dialect): string {
    match d
    case Generation => "gen-"
    case Import => "import-txt-"
  }

  /** `[1,2,3].includes(parseInt(s, 10))`, with the level when it holds: any
    * other value is dropped, never clamped. */
  function LevelOf(s: string): Option<Level> {
    match ParseInt(s)
    case Some(n) => if 1 <= n <= 3 then Some(n) else None
    case None => None
  }

  /** `h || undefined`: the empty string is falsy. */
  function OrUndefined(h: Option<string>): Option<string> {
    if h == Some("") then None else h
  }

  /** What every accepted line yields: a non-empty trimmed term and definition,
    * and a hint that, when present, is non-empty and trimmed. */
  predicate WellFormed(c: Content) {
    && c.term != "" && IsTrimmed(c.term)
    && c.definition != "" && IsTrimmed(c.definition)
    && (c.hint.Some? ==> c.hint.value != "" && IsTrimmed(c.hint.value))
  }

  /** The acceptance rule both dialects share, over the split fields: at least
    * two fields, a non-blank term and a non-blank definition. */
  predicate AcceptsFields(parts: seq<string>) {
    |parts| >= 2 && Trim(parts[0]) != "" && Trim(parts[1]) != ""
  }

  /** One line of a generation response. With four or more fields the hint `-`
    * means no hint and field 3 gives the level; with two or three fields the
    * hint is fields 2.. rejoined with `:` and there is no level. */
  function GenerationLine(line: string): Option<Content>
  {
    var parts := Split(line, ':');
    if |parts| >= 4 && Trim(parts[0]) != "" then
      var term := Trim(parts[0]);
      var definition := Trim(parts[1]);
      var trimmedHint := Trim(parts[2]);
      var hint := if trimmedHint == "-" then None else Some(trimmedHint);
      var difficultyLevel := LevelOf(Trim(parts[3]));
      if definition != "" then Some(Content(term, definition, OrUndefined(hint), difficultyLevel))
      else None
    else if |parts| >= 2 && Trim(parts[0]) != "" then
      var term := Trim(parts[0]);
      var definition := Trim(parts[1]);
      var hint := if |parts| > 2 then Some(Trim(Join(parts[2..], ':'))) else None;
      if definition != "" then Some(Content(term, definition, OrUndefined(hint), None))
      else None
    else
      None
  }

  /** One line of an imported file. The hint is field 2 when it is not blank
    * (a `-` is kept); the level comes from field 3 when it is not blank. */
  function ImportLine(line: string): Option<Content>
  {
    var parts := Split(line, ';');
    if |parts| >= 2 && Trim(parts[0]) != "" then
      var term := Trim(parts[0]);
      var definition := Trim(parts[1]);
      var hint := if |parts| > 2 && Trim(parts[2]) != "" then Some(Trim(parts[2])) else None;
      var difficultyLevel :=
        if |parts| > 3 && Trim(parts[3]) != "" then LevelOf(Trim(parts[3])) else None;
      if definition != "" then Some(Content(term, definition, hint, difficultyLevel))
      else None
    else
      None
  }

  /** The line parser of a dialect. */
  function LineParser(d: Dialect): string -> Option<Content> {
    match d
    case Generation => GenerationLine
    case Import => ImportLine
  }

  /** Both dialects accept a line exactly when it has two or more fields with a
    * non-blank term and definition; the card's term and definition are those
    * two fields trimmed, and what is kept is well formed. */
  lemma LineParserSpec(d: Dialect, line: string)
    ensures var parts := Split(line, Delimiter(d));
            var r := LineParser(d)(line);
            && (r.Some? <==> AcceptsFields(parts))
            && (r.Some? ==> r.value.term == Trim(parts[0]) && r.value.definition == Trim(parts[1]))
            && (r.Some? ==> WellFormed(r.value))
  {
    var parts := Split(line, Delimiter(d));
    TrimSpec(parts[0]);
    if |parts| > 1 {
      TrimSpec(parts[1]);
    }
    if |parts| > 2 {
      TrimSpec(Join(parts[2..], ':'));
      TrimSpec(parts[2]);
    }
  }

  /** `${prefix}${Date.now()}-${idx}`. */
  function CardId(prefix: string, stamp: nat, index: nat): string {
    prefix + NatToString(stamp) + "-" + NatToString(index)
  }

  /** The card an accepted line becomes: not editing, no snapshot. */
  function NewCard(content: Content, id: string, color: ColorIndex): Flashcard {
    Flashcard(id, content.term, content.definition, content.hint, ColorAt(color),
              content.difficultyLevel, false, None, None, None, None)
  }

  /** The cards of a batch and the palette position after it. */
  datatype Batch = Batch(cards: seq<Flashcard>, nextColor: ColorIndex)

  /** Reads `lines`, whose first element is line number `first` of the text,
    * with the line parser `parse`, drawing one colour per accepted line,
    * starting at `color`. */
  function ParseLines(parse: string -> Option<Content>, prefix: string, lines: seq<string>,
                      first: nat, clock: nat -> nat, color: ColorIndex): (r: Batch)
    ensures |r.cards| <= |lines|
    ensures r.nextColor == Advance(color, |r.cards|)
    ensures forall k :: 0 <= k < |r.cards| ==> !r.cards[k].isEditing && NoSnapshot(r.cards[k])
    decreases |lines|
  {
    if lines == [] then
      Batch([], color)
    else
      match parse(lines[0])
      case None => ParseLines(parse, prefix, lines[1..], first + 1, clock, color)
      case Some(content) =>
        var card := NewCard(content, CardId(prefix, clock(first), first), color);
        var rest := ParseLines(parse, prefix, lines[1..], first + 1, clock, NextColorIndex(color));
        Batch([card] + rest.cards, rest.nextColor)
  }

  /** `text.split('\n').map(...).filter(...)` in dialect `d`, colouring from `color`. */
  function ParseText(d: Dialect, text: string, clock: nat -> nat, color: ColorIndex): Batch {
    ParseLines(LineParser(d), IdPrefix(d), Split(text, '\n'), 0, clock, color)
  }

  // ---------------------------------------------------------------------------
  // Reference: which lines are kept
  // ---------------------------------------------------------------------------

  /** The line numbers of the lines of `lines` (numbered from `first`) that
    * `parse` accepts. */
  function AcceptedLines(parse: string -> Option<Content>, lines: seq<string>, first: nat): (r: seq<nat>)
    ensures |r| <= |lines|
    decreases |lines|
  {
    if lines == [] then []
    else
      var rest := AcceptedLines(parse, lines[1..], first + 1);
      if parse(lines[0]).Some? then [first] + rest else rest
  }

  /** `r` lists, in strictly increasing order, line numbers of lines of
    * `lines` (numbered from `first`) that `parse` accepts. */
  predicate IsOrderedAcceptedList(parse: string -> Option<Content>, lines: seq<string>, first: nat,
                                  r: seq<nat>) {
    && (forall k :: 0 <= k < |r| ==>
          first <= r[k] < first + |lines| && parse(lines[r[k] - first]).Some?)
    && (forall k1, k2 :: 0 <= k1 < k2 < |r| ==> r[k1] < r[k2])
  }

  /** Every line listed by `AcceptedLines` is accepted, in increasing order. */
  lemma {:induction false} AcceptedLinesSound(parse: string -> Option<Content>, lines: seq<string>,
                                             first: nat)
    ensures IsOrderedAcceptedList(parse, lines, first, AcceptedLines(parse, lines, first))
    decreases |lines|
  {
    if lines != [] {
      var tail := lines[1..];
      AcceptedLinesSound(parse, tail, first + 1);
      var rest := AcceptedLines(parse, tail, first + 1);
      var r := AcceptedLines(parse, lines, first);
      assert r == if parse(lines[0]).Some? then [first] + rest else rest;
      forall k | 0 <= k < |r|
        ensures first <= r[k] < first + |lines| && parse(lines[r[k] - first]).Some?
      {
        if r[k] != first {
          assert tail[r[k] - (first + 1)] == lines[r[k] - first];
        }
      }
    }
  }

  /** Every accepted line is listed by `AcceptedLines`: with the lemma above,
    * the kept lines are exactly the accepted ones, as an order-preserving
    * subsequence of the input. */
  lemma {:induction false} AcceptedLinesComplete(parse: string -> Option<Content>, lines: seq<string>,
                                                first: nat)
    ensures forall i :: 0 <= i < |lines| && parse(lines[i]).Some? ==>
              first + i in AcceptedLines(parse, lines, first)
    decreases |lines|
  {
    if lines != [] {
      var tail := lines[1..];
      AcceptedLinesComplete(parse, tail, first + 1);
      var rest := AcceptedLines(parse, tail, first + 1);
      var r := AcceptedLines(parse, lines, first);
      assert r == if parse(lines[0]).Some? then [first] + rest else rest;
      forall i | 0 <= i < |lines| && parse(lines[i]).Some?
        ensures first + i in r
      {
        if i > 0 {
          assert tail[i - 1] == lines[i];
          assert first + 1 + (i - 1) in rest;
        }
      }
    }
  }

  /** `card` is the card built from line `j` of `lines` (numbered from
    * `first`), drawn as the `k`-th card of a batch coloured from `color`. */
  predicate CardFromLine(parse: string -> Option<Content>, prefix: string, lines: seq<string>,
                         first: nat, clock: nat -> nat, color: ColorIndex,
                         card: Flashcard, j: nat, k: nat) {
    && first <= j < first + |lines| && parse(lines[j - first]).Some?
    && card == NewCard(parse(lines[j - first]).value, CardId(prefix, clock(j), j), Advance(color, k))
  }

  /** Card k comes from the k-th accepted line `acc[k]`, carries that line's
    * number in its id and has the colour k positions after `color`. */
  predicate FollowsAccepted(parse: string -> Option<Content>, prefix: string, lines: seq<string>,
                            first: nat, clock: nat -> nat, color: ColorIndex,
                            cards: seq<Flashcard>, acc: seq<nat>) {
    && |cards| == |acc|
    && forall k :: 0 <= k < |acc| ==>
         CardFromLine(parse, prefix, lines, first, clock, color, cards[k], acc[k], k)
  }

  /** A rejected first line adds nothing: what follows the accepted lines of
    * the tail follows those of the whole. */
  lemma FollowsAcceptedSkip(parse: string -> Option<Content>, prefix: string, lines: seq<string>,
                            first: nat, clock: nat -> nat, color: ColorIndex,
                            cards: seq<Flashcard>, acc: seq<nat>)
    requires lines != [] && parse(lines[0]).None?
    requires FollowsAccepted(parse, prefix, lines[1..], first + 1, clock, color, cards, acc)
    ensures FollowsAccepted(parse, prefix, lines, first, clock, color, cards, acc)
  {
    forall k | 0 <= k < |acc|
      ensures CardFromLine(parse, prefix, lines, first, clock, color, cards[k], acc[k], k)
    {
      assert CardFromLine(parse, prefix, lines[1..], first + 1, clock, color, cards[k], acc[k], k);
      assert lines[1..][acc[k] - (first + 1)] == lines[acc[k] - first];
    }
  }

  /** An accepted first line adds its card in front, one colour earlier. */
  lemma FollowsAcceptedTake(parse: string -> Option<Content>, prefix: string, lines: seq<string>,
                            first: nat, clock: nat -> nat, color: ColorIndex,
                            card: Flashcard, cards: seq<Flashcard>, acc: seq<nat>)
    requires lines != [] && parse(lines[0]).Some?
    requires FollowsAccepted(parse, prefix, lines[1..], first + 1, clock, NextColorIndex(color),
                             cards, acc)
    requires card == NewCard(parse(lines[0]).value, CardId(prefix, clock(first), first), color)
    ensures FollowsAccepted(parse, prefix, lines, first, clock, color, [card] + cards, [first] + acc)
  {
    var all, allAcc := [card] + cards, [first] + acc;
    forall k | 0 <= k < |allAcc|
      ensures CardFromLine(parse, prefix, lines, first, clock, color, all[k], allAcc[k], k)
    {
      if k > 0 {
        assert all[k] == cards[k - 1] && allAcc[k] == acc[k - 1];
        assert CardFromLine(parse, prefix, lines[1..], first + 1, clock, NextColorIndex(color),
                            cards[k - 1], acc[k - 1], k - 1);
        assert lines[1..][acc[k - 1] - (first + 1)] == lines[acc[k - 1] - first];
      }
    }
  }

  /** The batch is the accepted lines, in order. */
  lemma {:induction false} ParseLinesFollowsAccepted(parse: string -> Option<Content>, prefix: string,
                                                    lines: seq<string>, first: nat,
                                                    clock: nat -> nat, color: ColorIndex)
    ensures FollowsAccepted(parse, prefix, lines, first, clock, color,
                            ParseLines(parse, prefix, lines, first, clock, color).cards,
                            AcceptedLines(parse, lines, first))
    decreases |lines|
  {
    if lines != [] {
      var tail := lines[1..];
      if parse(lines[0]).Some? {
        var c' := NextColorIndex(color);
        ParseLinesFollowsAccepted(parse, prefix, tail, first + 1, clock, c');
        FollowsAcceptedTake(parse, prefix, lines, first, clock, color,
                            NewCard(parse(lines[0]).value, CardId(prefix, clock(first), first), color),
                            ParseLines(parse, prefix, tail, first + 1, clock, c').cards,
                            AcceptedLines(parse, tail, first + 1));
      } else {
        ParseLinesFollowsAccepted(parse, prefix, tail, first + 1, clock, color);
        FollowsAcceptedSkip(parse, prefix, lines, first, clock, color,
                            ParseLines(parse, prefix, tail, first + 1, clock, color).cards,
                            AcceptedLines(parse, tail, first + 1));
      }
    }
  }

  /** When every line is accepted, the batch has one card per line, in order,
    * each carrying its line's content. */
  lemma {:induction false} ParseLinesAllAccepted(parse: string -> Option<Content>, prefix: string,
                                                lines: seq<string>, first: nat,
                                                clock: nat -> nat, color: ColorIndex)
    requires forall i :: 0 <= i < |lines| ==> parse(lines[i]).Some?
    ensures |ParseLines(parse, prefix, lines, first, clock, color).cards| == |lines|
    ensures forall k :: 0 <= k < |lines| ==>
              ContentOf(ParseLines(parse, prefix, lines, first, clock, color).cards[k])
              == parse(lines[k]).value
    decreases |lines|
  {
    if lines != [] {
      var tail := lines[1..];
      var c' := NextColorIndex(color);
      forall i | 0 <= i < |tail|
        ensures parse(tail[i]).Some?
      {
        assert tail[i] == lines[i + 1];
      }
      ParseLinesAllAccepted(parse, prefix, tail, first + 1, clock, c');
      var r := ParseLines(parse, prefix, lines, first, clock, color);
      var rest := ParseLines(parse, prefix, tail, first + 1, clock, c');
      assert r.cards == [NewCard(parse(lines[0]).value, CardId(prefix, clock(first), first), color)]
                        + rest.cards;
      forall k | 0 <= k < |lines|
        ensures ContentOf(r.cards[k]) == parse(lines[k]).value
      {
        if k > 0 {
          assert r.cards[k] == rest.cards[k - 1] && tail[k - 1] == lines[k];
        }
      }
    }
  }

  /** What every batch holds: each card's term and definition are non-empty and
    * trimmed, and its hint, when present, is non-empty and trimmed. */
  lemma BatchWellFormed(d: Dialect, text: string, clock: nat -> nat, color: ColorIndex)
    ensures forall k :: 0 <= k < |ParseText(d, text, clock, color).cards| ==>
              WellFormed(ContentOf(ParseText(d, text, clock, color).cards[k]))
  {
    var lines := Split(text, '\n');
    var r := ParseText(d, text, clock, color);
    var acc := AcceptedLines(LineParser(d), lines, 0);
    ParseLinesFollowsAccepted(LineParser(d), IdPrefix(d), lines, 0, clock, color);
    forall k | 0 <= k < |r.cards|
      ensures WellFormed(ContentOf(r.cards[k]))
    {
      assert CardFromLine(LineParser(d), IdPrefix(d), lines, 0, clock, color, r.cards[k], acc[k], k);
      LineParserSpec(d, lines[acc[k]]);
    }
  }

  /** Every kept line draws exactly one colour: the batch moves the palette
    * position by its length modulo 15. */
  lemma BatchAdvancesColor(d: Dialect, text: string, clock: nat -> nat, color: ColorIndex)
    ensures var r := ParseText(d, text, clock, color);
            r.nextColor == (color + |r.cards|) % 15
  {
    var r := ParseLines(LineParser(d), IdPrefix(d), Split(text, '\n'), 0, clock, color);
    assert r.nextColor == Advance(color, |r.cards|);
    AdvanceIsModular(color, |r.cards|);
  }

  /** The line number is recoverable from an id: it is what follows the last `-`,
    * since neither number contains one. */
  lemma CardIdDeterminesIndex(prefix: string, s1: nat, i1: nat, s2: nat, i2: nat)
    requires CardId(prefix, s1, i1) == CardId(prefix, s2, i2)
    ensures i1 == i2
  {
    var x := CardId(prefix, s1, i1);
    var d1, d2 := NatToString(i1), NatToString(i2);
    var a1 := prefix + NatToString(s1) + "-";
    var a2 := prefix + NatToString(s2) + "-";
    assert x == a1 + d1 && x == a2 + d2;
    assert forall i :: |a1| <= i < |x| ==> x[i] == d1[i - |a1|] != '-';
    assert forall i :: |a2| <= i < |x| ==> x[i] == d2[i - |a2|] != '-';
    assert x[|a1| - 1] == '-' && x[|a2| - 1] == '-';
    assert |a1| == |a2|;
    assert d1 == x[|x| - |d1|..] == d2;
    NatToStringInjective(i1, i2);
  }

  /** Ids within one batch are pairwise distinct, whatever the clock reads. */
  lemma BatchIdsDistinct(d: Dialect, text: string, clock: nat -> nat, color: ColorIndex)
    ensures forall k1, k2 :: 0 <= k1 < k2 < |ParseText(d, text, clock, color).cards| ==>
              ParseText(d, text, clock, color).cards[k1].id != ParseText(d, text, clock, color).cards[k2].id
  {
    var lines := Split(text, '\n');
    var r := ParseText(d, text, clock, color);
    var acc := AcceptedLines(LineParser(d), lines, 0);
    ParseLinesFollowsAccepted(LineParser(d), IdPrefix(d), lines, 0, clock, color);
    AcceptedLinesSound(LineParser(d), lines, 0);
    forall k1, k2 | 0 <= k1 < k2 < |r.cards|
      ensures r.cards[k1].id != r.cards[k2].id
    {
      assert CardFromLine(LineParser(d), IdPrefix(d), lines, 0, clock, color, r.cards[k1], acc[k1], k1);
      assert CardFromLine(LineParser(d), IdPrefix(d), lines, 0, clock, color, r.cards[k2], acc[k2], k2);
      assert acc[k1] < acc[k2];
      if r.cards[k1].id == r.cards[k2].id {
        CardIdDeterminesIndex(IdPrefix(d), clock(acc[k1]), acc[k1], clock(acc[k2]), acc[k2]);
      }
    }
  }

  // ---------------------------------------------------------------------------
  // Field rules of the two dialects
  // ---------------------------------------------------------------------------

  /** The level written as a plain number is read back when it is in range. */
  lemma LevelOfDecimal(n: nat)
    ensures LevelOf(NatToString(n)) == if 1 <= n <= 3 then Some(n) else None
  {
    ParseIntOfNatToString(n);
  }

  /** A level field that starts with a digit run and goes on with something
    * else is read by the run alone: `"02"` and `"2."` are level 2, `"12"` is
    * no level. */
  lemma LevelOfDigitsThen(ds: string, rest: string)
    requires ds != [] && AllDigits(ds)
    requires rest == [] || !IsDigit(rest[0])
    ensures LevelOf(ds + rest) ==
              if 1 <= DecimalValue(ds) <= 3 then Some(DecimalValue(ds)) else None
  {
    ParseIntOfDigitsThen(ds, rest);
  }

  /** The field `2.` gives level 2. */
  lemma LevelOfTrailingDot()
    ensures LevelOf("2.") == Some(2)
  {
    LevelOfDigitsThen("2", ".");
    assert "2" + "." == "2.";
    assert "2"[..0] == "";
  }

  /** A level field with a sign: `+2` is level 2, `-2` is no level, and a
    * sign with no digit after it is no level. */
  lemma LevelOfSigned()
    ensures LevelOf("+2") == Some(2)
    ensures LevelOf("-2") == None
    ensures LevelOf("-") == None
  {
    ParseIntSigned("2", "");
    assert "+" + "2" + "" == "+2" && "-" + "2" + "" == "-2";
    assert "2"[..0] == "";
    ParseIntNoDigits("-");
  }

  /** A level field with no number in it, such as `N/A`, is no level. */
  lemma LevelOfNotANumber()
    ensures LevelOf("N/A") == None
  {
    ParseIntNoDigits("N/A");
  }

  /** Generation, four or more fields with a non-blank term: accepted exactly
    * when the definition is not blank; the hint is the trimmed field 2 unless
    * that is `-` or blank; the level is the one field 3 names, when in range. */
  lemma GenerationFourFieldRule(line: string)
    requires |Split(line, ':')| >= 4 && Trim(Split(line, ':')[0]) != ""
    ensures GenerationLine(line).Some? <==> Trim(Split(line, ':')[1]) != ""
    ensures GenerationLine(line).Some? ==>
              && GenerationLine(line).value.term == Trim(Split(line, ':')[0])
              && GenerationLine(line).value.definition == Trim(Split(line, ':')[1])
              && (GenerationLine(line).value.hint.None? <==>
                    Trim(Split(line, ':')[2]) == "-" || Trim(Split(line, ':')[2]) == "")
              && (GenerationLine(line).value.hint.Some? ==>
                    GenerationLine(line).value.hint.value == Trim(Split(line, ':')[2]))
              && GenerationLine(line).value.difficultyLevel == LevelOf(Trim(Split(line, ':')[3]))
  {
  }

  /** Generation, two or three fields with a non-blank term: the hint is field 2
    * trimmed (a `-` is kept as a hint) and there is never a level. */
  lemma GenerationFallbackRule(line: string)
    requires 2 <= |Split(line, ':')| <= 3 && Trim(Split(line, ':')[0]) != ""
    ensures GenerationLine(line).Some? <==> Trim(Split(line, ':')[1]) != ""
    ensures GenerationLine(line).Some? ==>
              && GenerationLine(line).value.term == Trim(Split(line, ':')[0])
              && GenerationLine(line).value.definition == Trim(Split(line, ':')[1])
              && GenerationLine(line).value.difficultyLevel == None
              && (|Split(line, ':')| == 2 ==> GenerationLine(line).value.hint == None)
              && (|Split(line, ':')| == 3 ==>
                    GenerationLine(line).value.hint ==
                      if Trim(Split(line, ':')[2]) == "" then None
                      else Some(Trim(Split(line, ':')[2])))
  {
    var parts := Split(line, ':');
    if |parts| == 3 {
      assert parts[2..] == [parts[2]];
    }
  }

  /** Import: the hint is field 2 trimmed when present and not blank (a `-` is
    * kept); the level is read from field 3 when present and not blank. */
  lemma ImportFieldRule(line: string)
    requires AcceptsFields(Split(line, ';'))
    ensures ImportLine(line).Some?
    ensures ImportLine(line).value.hint ==
              if |Split(line, ';')| > 2 && Trim(Split(line, ';')[2]) != ""
              then Some(Trim(Split(line, ';')[2])) else None
    ensures ImportLine(line).value.difficultyLevel ==
              if |Split(line, ';')| > 3 then LevelOf(Trim(Split(line, ';')[3])) else None
  {
    var parts := Split(line, ';');
    if |parts| > 3 && Trim(parts[3]) == "" {
      assert ParseInt("") == None;
    }
  }

  /** Fields after the fourth change nothing, in the generation dialect. */
  lemma GenerationIgnoresExtraFields(fields: seq<string>, extra: seq<string>)
    requires |fields| == 4
    requires forall i :: 0 <= i < |fields| ==> ':' !in fields[i]
    requires forall i :: 0 <= i < |extra| ==> ':' !in extra[i]
    ensures GenerationLine(Join(fields + extra, ':')) == GenerationLine(Join(fields, ':'))
  {
    var all := fields + extra;
    assert forall i :: 0 <= i < |all| ==> ':' !in all[i] by {
      forall i | 0 <= i < |all| ensures ':' !in all[i] {
        if i >= |fields| {
          assert all[i] == extra[i - |fields|];
        }
      }
    }
    SplitJoin(all, ':');
    SplitJoin(fields, ':');
  }

  /** Fields after the fourth change nothing, in the import dialect. */
  lemma ImportIgnoresExtraFields(fields: seq<string>, extra: seq<string>)
    requires |fields| == 4
    requires forall i :: 0 <= i < |fields| ==> ';' !in fields[i]
    requires forall i :: 0 <= i < |extra| ==> ';' !in extra[i]
    ensures ImportLine(Join(fields + extra, ';')) == ImportLine(Join(fields, ';'))
  {
    var all := fields + extra;
    assert forall i :: 0 <= i < |all| ==> ';' !in all[i] by {
      forall i | 0 <= i < |all| ensures ';' !in all[i] {
        if i >= |fields| {
          assert all[i] == extra[i - |fields|];
        }
      }
    }
    SplitJoin(all, ';');
    SplitJoin(fields, ';');
  }

  // ---------------------------------------------------------------------------
  // Worked lines
  // ---------------------------------------------------------------------------

  /** Four pieces joined with a separator. */
  lemma JoinFour(a: string, b: string, c: string, e: string, d: char)
    ensures Join([a, b, c, e], d) == a + [d] + b + [d] + c + [d] + e
  {
    JoinThree(b, c, e, d);
    assert [a, b, c, e][1..] == [b, c, e];
    assert a + [d] + (b + [d] + c + [d] + e) == a + [d] + b + [d] + c + [d] + e;
  }

  /** Three pieces joined with a separator. */
  lemma JoinThree(a: string, b: string, c: string, d: char)
    ensures Join([a, b, c], d) == a + [d] + b + [d] + c
  {
    assert [a, b, c][1..] == [b, c] && [b, c][1..] == [c];
    assert Join([b, c], d) == b + [d] + c;
    assert a + [d] + (b + [d] + c) == a + [d] + b + [d] + c;
  }

  /** A generation line made of four separator-free, already trimmed fields. */
  lemma GenerationOfTrimmedFields(t: string, d: string, h: string, l: string)
    requires ':' !in t && ':' !in d && ':' !in h && ':' !in l
    requires IsTrimmed(t) && IsTrimmed(d) && IsTrimmed(h) && IsTrimmed(l) && t != ""
    ensures GenerationLine(t + ":" + d + ":" + h + ":" + l) ==
              if d == "" then None
              else Some(Content(t, d, if h == "-" || h == "" then None else Some(h), LevelOf(l)))
  {
    JoinFour(t, d, h, l, ':');
    SplitJoin([t, d, h, l], ':');
    TrimSpec(t);
    TrimSpec(d);
    TrimSpec(h);
    TrimSpec(l);
  }

  /** A generation line made of three separator-free, already trimmed fields
    * (the fallback branch). */
  lemma GenerationOfThreeTrimmedFields(t: string, d: string, h: string)
    requires ':' !in t && ':' !in d && ':' !in h
    requires IsTrimmed(t) && IsTrimmed(d) && IsTrimmed(h) && t != ""
    ensures GenerationLine(t + ":" + d + ":" + h) ==
              if d == "" then None
              else Some(Content(t, d, if h == "" then None else Some(h), None))
  {
    JoinThree(t, d, h, ':');
    SplitJoin([t, d, h], ':');
    assert [t, d, h][2..] == [h];
    TrimSpec(t);
    TrimSpec(d);
    TrimSpec(h);
  }

  /** An import line made of four separator-free, already trimmed fields. */
  lemma ImportOfTrimmedFields(t: string, d: string, h: string, l: string)
    requires ';' !in t && ';' !in d && ';' !in h && ';' !in l
    requires IsTrimmed(t) && IsTrimmed(d) && IsTrimmed(h) && IsTrimmed(l) && t != ""
    ensures ImportLine(t + ";" + d + ";" + h + ";" + l) ==
              if d == "" then None
              else Some(Content(t, d, if h == "" then None else Some(h),
                                if l == "" then None else LevelOf(l)))
  {
    JoinFour(t, d, h, l, ';');
    SplitJoin([t, d, h, l], ';');
    TrimSpec(t);
    TrimSpec(d);
    TrimSpec(h);
    TrimSpec(l);
  }

  /** The pieces of the worked lines: separator-free, trimmed, and making up
    * the line. */
  lemma AppleLinePieces()
    ensures "Apple" + ":" + "A fruit" + ":" + "Grows on trees" + ":" + "1"
            == "Apple:A fruit:Grows on trees:1"
  {
  }

  lemma AppleFieldsPlain()
    ensures ':' !in "Apple" && ':' !in "A fruit" && ':' !in "Grows on trees" && ':' !in "1"
    ensures IsTrimmed("Apple") && IsTrimmed("A fruit") && IsTrimmed("Grows on trees") && IsTrimmed("1")
  {
  }

  lemma ShortLinePieces()
    ensures "X" + ":" + "Y" + ":" + "-" + ":" + "2" == "X:Y:-:2"
    ensures "X" + ":" + "Y" + ":" + "Z" + ":" + "7" == "X:Y:Z:7"
    ensures "X" + ":" + "Y" + ":" + "-" == "X:Y:-"
    ensures "X" + ";" + "Y" + ";" + "-" + ";" + "2" == "X;Y;-;2"
    ensures forall p :: p in ["X", "Y", "Z", "-", "2", "7"] ==> ':' !in p && ';' !in p && IsTrimmed(p)
  {
  }

  lemma NoDefinitionLinePieces()
    ensures "OnlyTerm" + ":" + "" + ":" + "-" + ":" + "1" == "OnlyTerm::-:1"
    ensures ':' !in "OnlyTerm" && IsTrimmed("OnlyTerm")
  {
  }

  /** `Apple:A fruit:Grows on trees:1` is one full card. */
  lemma GenerationExampleFull()
    ensures GenerationLine("Apple:A fruit:Grows on trees:1")
            == Some(Content("Apple", "A fruit", Some("Grows on trees"), Some(1)))
  {
    AppleLinePieces();
    AppleFieldsPlain();
    GenerationOfTrimmedFields("Apple", "A fruit", "Grows on trees", "1");
    LevelOfDecimal(1);
    assert NatToString(1) == "1";
  }

  /** In `X:Y:-:2` the hint `-` means no hint; the level is kept. */
  lemma GenerationExamplePlaceholder()
    ensures GenerationLine("X:Y:-:2") == Some(Content("X", "Y", None, Some(2)))
  {
    ShortLinePieces();
    GenerationOfTrimmedFields("X", "Y", "-", "2");
    LevelOfDecimal(2);
    assert NatToString(2) == "2";
  }

  /** In `X:Y:Z:7` the level 7 is dropped and the card is still made. */
  lemma GenerationExampleOutOfRange()
    ensures GenerationLine("X:Y:Z:7") == Some(Content("X", "Y", Some("Z"), None))
  {
    ShortLinePieces();
    GenerationOfTrimmedFields("X", "Y", "Z", "7");
    LevelOfDecimal(7);
    assert NatToString(7) == "7";
  }

  /** `OnlyTerm::-:1` has an empty definition and is dropped. */
  lemma GenerationExampleNoDefinition()
    ensures GenerationLine("OnlyTerm::-:1") == None
  {
    NoDefinitionLinePieces();
    ShortLinePieces();
    GenerationOfTrimmedFields("OnlyTerm", "", "-", "1");
  }

  /** In the three-field fallback `X:Y:-` the `-` stays as the hint. */
  lemma GenerationExampleFallbackKeepsDash()
    ensures GenerationLine("X:Y:-") == Some(Content("X", "Y", Some("-"), None))
  {
    ShortLinePieces();
    GenerationOfThreeTrimmedFields("X", "Y", "-");
  }

  /** The import dialect keeps a `-` hint and reads the level. */
  lemma ImportExampleKeepsDash()
    ensures ImportLine("X;Y;-;2") == Some(Content("X", "Y", Some("-"), Some(2)))
  {
    ShortLinePieces();
    ImportOfTrimmedFields("X", "Y", "-", "2");
    LevelOfDecimal(2);
    assert NatToString(2) == "2";
  }
}
