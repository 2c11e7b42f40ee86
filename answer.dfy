/** Reading the language model's reply in `handle_photo`. The prompt asks for exactly
    two labelled lines,

        Блюдо: <dish>
        Итого калорий (ккал): <number>

    and the bot takes the dish from the first line and the calories from the first
    word after the label on the second line. */
module Answer {
  import opened PyStr

  const DishLabel := "Блюдо:"
  const CaloriesLabel := "Итого калорий (ккал):"

  /** The exceptions the parsing block can raise. */
  datatype ParseError =
    | MissingLine           // `lines[0]` or `lines[1]`: IndexError, fewer than two lines
    | MissingNumber         // `.split()[0]`: IndexError, nothing after the label
    | NotAnInteger(token: string)  // `int(token)`: ValueError

  datatype Result<T> = Ok(value: T) | Failure(error: ParseError)

  /** The dish: line 0 with every `Блюдо:` removed, then stripped. */
  function DishOf(line: string): string {
    Strip(RemoveAll(line, DishLabel))
  }

  /** Line 1 with every `Итого калорий (ккал):` removed, then stripped. */
  function CaloriesText(line: string): string {
    Strip(RemoveAll(line, CaloriesLabel))
  }

  /** The answer-parsing block of `handle_photo`: `(dish, calories)` or the exception
      it raises. */
  function ParseAnswer(answer: string): (r: Result<(string, int)>)
    ensures r == Failure(MissingLine) <==> |SplitLines(answer)| < 2
    ensures r == Failure(MissingNumber) <==>
              |SplitLines(answer)| >= 2 && AllSpace(RemoveAll(SplitLines(answer)[1], CaloriesLabel))
    ensures r.Ok? <==>
              && |SplitLines(answer)| >= 2
              && Words(CaloriesText(SplitLines(answer)[1])) != []
              && ParseInt(Words(CaloriesText(SplitLines(answer)[1]))[0]).Some?
    ensures r.Failure? && r.error.NotAnInteger? ==>
              && |SplitLines(answer)| >= 2
              && Words(CaloriesText(SplitLines(answer)[1])) != []
              && r.error.token == Words(CaloriesText(SplitLines(answer)[1]))[0]
              && ParseInt(r.error.token) == None
    ensures r.Ok? ==>
              && r.value.0 == DishOf(SplitLines(answer)[0])
              && IsStripped(r.value.0) && NoLineBreak(r.value.0)
              && Words(CaloriesText(SplitLines(answer)[1])) != []
              && ParseInt(Words(CaloriesText(SplitLines(answer)[1]))[0]) == Some(r.value.1)
  {
    var lines := SplitLines(answer);
    if |lines| < 2 then Failure(MissingLine)
    else
      var dish := DishOf(lines[0]);
      var words := Words(CaloriesText(lines[1]));
      CaloriesBlank(lines[1]);
      if words == [] then Failure(MissingNumber)
      else
        match ParseInt(words[0])
        case None => Failure(NotAnInteger(words[0]))
        case Some(calories) =>
          NoLineBreakStripped(RemoveAll(lines[0], DishLabel), lines[0]);
          Ok((dish, calories))
  }

  /** Nothing follows the label exactly when the stripped remainder has no word. */
  lemma CaloriesBlank(line: string)
    ensures Words(CaloriesText(line)) == [] <==> AllSpace(RemoveAll(line, CaloriesLabel))
  {
    var t := RemoveAll(line, CaloriesLabel);
    WordsEmpty(Strip(t));
    StripBlank(t);
  }

  /** Removing text from a line and stripping it cannot introduce a line break. */
  lemma NoLineBreakStripped(removed: string, line: string)
    requires NoLineBreak(line)
    requires removed == RemoveAll(line, DishLabel)
    ensures NoLineBreak(Strip(removed))
  {
    RemoveAllKeepsNoLineBreak(line, DishLabel);
    StripKeepsNoLineBreak(removed);
  }

  lemma {:induction false} RemoveAllKeepsNoLineBreak(s: string, pat: string)
    requires pat != [] && NoLineBreak(s)
    ensures NoLineBreak(RemoveAll(s, pat))
    decreases |s|
  {
    if |s| >= |pat| {
      if s[..|pat|] == pat {
        assert NoLineBreak(s[|pat|..]) by {
          forall k | 0 <= k < |s| - |pat| ensures !IsLineBreak(s[|pat|..][k]) {
            assert s[|pat|..][k] == s[|pat| + k];
          }
        }
        RemoveAllKeepsNoLineBreak(s[|pat|..], pat);
      } else {
        assert NoLineBreak(s[1..]) by {
          forall k | 0 <= k < |s| - 1 ensures !IsLineBreak(s[1..][k]) {
            assert s[1..][k] == s[1 + k];
          }
        }
        RemoveAllKeepsNoLineBreak(s[1..], pat);
        NoLineBreakConcat([s[0]], RemoveAll(s[1..], pat));
      }
    }
  }

  // ---------------------------------------------------------------------------
  // The format the prompt asks for

  /** An answer in exactly the format the prompt demands. */
  function RenderAnswer(dish: string, calories: int): string {
    DishLabel + " " + dish + "\n" + CaloriesLabel + " " + IntToString(calories)
  }

  lemma LabelsHaveNoBreak()
    ensures NoLineBreak(DishLabel + " ")
    ensures NoLineBreak(CaloriesLabel + " ")
  {}

  lemma IntStringNoBreak(n: int)
    ensures NoLineBreak(IntToString(n)) && IntToString(n) != []
    ensures forall k :: 0 <= k < |IntToString(n)| ==> IntToString(n)[k] == '-' || IsDigit(IntToString(n)[k])
  {
    var s := IntToString(n);
    if n < 0 {
      var d := NatToString(-n);
      assert forall k :: 1 <= k < |s| ==> s[k] == d[k - 1];
    }
  }

  /** Two break-free lines joined by "\n" are the first two lines, whatever further
      lines follow. */
  lemma {:induction false} TwoLines(first: string, second: string, tail: string)
    requires NoLineBreak(first) && NoLineBreak(second)
    requires tail == [] || IsLineBreak(tail[0])
    requires second != [] || tail != []
    ensures var lines := SplitLines(first + "\n" + second + tail);
      |lines| >= 2 && lines[0] == first && lines[1] == second
  {
    assert first + "\n" + second + tail == first + "\n" + (second + tail);
    SplitLinesNewline(first, second + tail);
    if tail == [] {
      assert second + tail == second;
      SplitLinesSingle(second);
    } else {
      SplitLinesCons(second, tail);
    }
  }

  /** The first two lines of a well-formed answer: `rest` is what follows the number
      on its line, `tail` the lines after it. */
  lemma {:induction false} RenderedLines(dish: string, calories: int, rest: string, tail: string)
    requires NoLineBreak(dish) && NoLineBreak(rest)
    requires tail == [] || IsLineBreak(tail[0])
    ensures var lines := SplitLines(RenderAnswer(dish, calories) + rest + tail);
      && |lines| >= 2
      && lines[0] == DishLabel + " " + dish
      && lines[1] == CaloriesLabel + " " + IntToString(calories) + rest
  {
    var first := DishLabel + " " + dish;
    var second := CaloriesLabel + " " + IntToString(calories) + rest;
    LabelsHaveNoBreak();
    IntStringNoBreak(calories);
    NoLineBreakConcat(DishLabel + " ", dish);
    NoLineBreakConcat(CaloriesLabel + " ", IntToString(calories));
    NoLineBreakConcat(CaloriesLabel + " " + IntToString(calories), rest);
    assert RenderAnswer(dish, calories) + rest + tail == first + "\n" + second + tail;
    TwoLines(first, second, tail);
  }

  /** The dish line of a well-formed answer gives back the dish. */
  lemma DishLineRoundTrip(dish: string)
    requires IsStripped(dish) && !Occurs(dish, DishLabel)
    ensures DishOf(DishLabel + " " + dish) == dish
  {
    assert DishLabel + " " + dish == DishLabel + ([' '] + dish);
    RemoveAllLeading(DishLabel, [' '] + dish);
    AbsentAfterPrefix([' '], dish, DishLabel);
    RemoveAllAbsent([' '] + dish, DishLabel);
    StripSurrounded([' '], dish, []);
    assert [' '] + dish + [] == [' '] + dish;
  }

  /** `strip()` of a word followed by whitespace-led text keeps the word in front,
      followed by nothing or by whitespace. */
  lemma StripFirstWord(word: string, rest: string)
    requires word != [] && NoSpace(word) && (rest == [] || IsSpace(rest[0]))
    ensures var r := TrimRight(rest);
      Strip([' '] + word + rest) == word + r && (r == [] || IsSpace(r[0]))
  {
    var x := word + rest;
    assert [' '] + word + rest == [' '] + x;
    assert x[0] == word[0];
    TrimLeftSpaces([' '], x);
    TrimRightAfter(word, rest);
  }

  /** On a calories line the token that reaches `int` is the first word after the
      label, whatever whitespace-separated words follow it. */
  lemma CaloriesFirstWord(word: string, rest: string)
    requires word != [] && NoSpace(word) && (rest == [] || IsSpace(rest[0]))
    requires !Occurs(word + rest, CaloriesLabel)
    ensures var w := Words(CaloriesText(CaloriesLabel + " " + word + rest));
      w != [] && w[0] == word
  {
    var x := [' '] + word + rest;
    assert CaloriesLabel + " " + word + rest == CaloriesLabel + x;
    RemoveAllLeading(CaloriesLabel, x);
    assert x == [' '] + (word + rest);
    AbsentAfterPrefix([' '], word + rest, CaloriesLabel);
    RemoveAllAbsent(x, CaloriesLabel);
    StripFirstWord(word, rest);
    WordsFirst(word, TrimRight(rest));
  }

  /** The calories line of a well-formed answer gives back the number, whatever
      whitespace-separated words follow it ("450 ккал"). */
  lemma CaloriesLineRoundTrip(calories: int, rest: string)
    requires (rest == [] || IsSpace(rest[0])) && !Occurs(rest, CaloriesLabel)
    ensures var w := Words(CaloriesText(CaloriesLabel + " " + IntToString(calories) + rest));
      w != [] && ParseInt(w[0]) == Some(calories)
  {
    var s := IntToString(calories);
    IntStringNoBreak(calories);
    assert NoSpace(s);
    AbsentAfterPrefix(s, rest, CaloriesLabel);
    CaloriesFirstWord(s, rest);
    ParseIntOfString(calories);
  }

  /** Round trip: an answer in the demanded format parses back to its dish and calories,
      for any dish that is already stripped, has no line break and does not contain the
      label; words after the number on its line (`rest`) and further lines (`tail`) do
      not change the result. */
  lemma ParseRenderedAnswer(dish: string, calories: int, rest: string, tail: string)
    requires IsStripped(dish) && NoLineBreak(dish) && !Occurs(dish, DishLabel)
    requires NoLineBreak(rest) && (rest == [] || IsSpace(rest[0])) && !Occurs(rest, CaloriesLabel)
    requires tail == [] || IsLineBreak(tail[0])
    ensures ParseAnswer(RenderAnswer(dish, calories) + rest + tail) == Ok((dish, calories))
  {
    RenderedLines(dish, calories, rest, tail);
    DishLineRoundTrip(dish);
    CaloriesLineRoundTrip(calories, rest);
  }

  // ---------------------------------------------------------------------------
  // Answers that do not follow the format

  /** An answer on one line (or an empty one) has no second line to read. */
  lemma OneLineAnswer(answer: string)
    requires NoLineBreak(answer)
    ensures ParseAnswer(answer) == Failure(MissingLine)
  {
    if answer != [] {
      SplitLinesSingle(answer);
    }
  }

  /** Nothing but whitespace after the calories label: `split()[0]` has no word to
      take. */
  lemma NothingAfterLabel(first: string, gap: string, tail: string)
    requires NoLineBreak(first) && NoLineBreak(gap) && AllSpace(gap)
    requires tail == [] || IsLineBreak(tail[0])
    ensures ParseAnswer(first + "\n" + (CaloriesLabel + gap) + tail) == Failure(MissingNumber)
  {
    LabelsAloneNoBreak();
    NoLineBreakConcat(CaloriesLabel, gap);
    TwoLines(first, CaloriesLabel + gap, tail);
    RemoveAllLeading(CaloriesLabel, gap);
    assert !IsSpace(CaloriesLabel[0]);
    AbsentAfterPrefix(gap, [], CaloriesLabel);
    assert gap + [] == gap;
    RemoveAllAbsent(gap, CaloriesLabel);
  }

  lemma LabelsAloneNoBreak()
    ensures NoLineBreak(DishLabel) && NoLineBreak(CaloriesLabel)
  {}

  /** The bare template of the prompt, echoed back with nothing filled in, has no
      number after the calories label. */
  lemma EchoedTemplate()
    ensures ParseAnswer(DishLabel + "\n" + CaloriesLabel) == Failure(MissingNumber)
  {
    LabelsAloneNoBreak();
    NothingAfterLabel(DishLabel, [], []);
    assert DishLabel + "\n" + (CaloriesLabel + []) + [] == DishLabel + "\n" + CaloriesLabel by {}
  }

  lemma CaloriesWordNoBreak(word: string, rest: string)
    requires NoSpace(word) && NoLineBreak(rest)
    ensures NoLineBreak(CaloriesLabel + " " + word + rest)
  {
    LabelsHaveNoBreak();
    forall k | 0 <= k < |word| ensures !IsLineBreak(word[k]) {
      if IsLineBreak(word[k]) { LineBreakIsSpace(word[k]); }
    }
    NoLineBreakConcat(CaloriesLabel + " ", word);
    NoLineBreakConcat(CaloriesLabel + " " + word, rest);
  }

  /** An answer in the demanded format whose first word after the calories label is
      not an integer fails on that word, and on nothing earlier. */
  lemma WordEstimate(dish: string, word: string, rest: string, tail: string)
    requires NoLineBreak(dish) && NoLineBreak(rest)
    requires word != [] && NoSpace(word) && ParseInt(word) == None
    requires (rest == [] || IsSpace(rest[0])) && !Occurs(word + rest, CaloriesLabel)
    requires tail == [] || IsLineBreak(tail[0])
    ensures ParseAnswer(DishLabel + " " + dish + "\n" + (CaloriesLabel + " " + word + rest) + tail)
              == Failure(NotAnInteger(word))
  {
    LabelsHaveNoBreak();
    NoLineBreakConcat(DishLabel + " ", dish);
    CaloriesWordNoBreak(word, rest);
    TwoLines(DishLabel + " " + dish, CaloriesLabel + " " + word + rest, tail);
    CaloriesFirstWord(word, rest);
  }

  lemma WordIsNotInteger()
    ensures ParseInt("около") == None
  {
    StripSurrounded([], "около", []);
    assert [] + "около" + [] == "около";
  }

  /** The literal facts about the example's pieces, kept apart from the parse itself. */
  lemma WordExampleParts()
    ensures !Occurs("около" + " 300", CaloriesLabel)
    ensures NoLineBreak("суп") && NoLineBreak(" 300") && IsSpace(" 300"[0])
    ensures "около" != [] && NoSpace("около")
  {}

  /** An estimate given in words ("около 300", about 300) is not an integer. */
  lemma EstimateInWords()
    ensures ParseAnswer(DishLabel + " " + "суп" + "\n" + (CaloriesLabel + " " + "около" + " 300"))
              == Failure(NotAnInteger("около"))
  {
    WordIsNotInteger();
    WordExampleParts();
    var answer := DishLabel + " " + "суп" + "\n" + (CaloriesLabel + " " + "около" + " 300");
    assert answer + [] == answer;
    WordEstimate("суп", "около", " 300", []);
  }

  /** The literal facts about the example's pieces, kept apart from the parse itself. */
  lemma CaloriesExampleParts()
    ensures IntToString(450) == "450"
    ensures IsStripped("борщ") && NoLineBreak("борщ") && !Occurs("борщ", DishLabel)
    ensures NoLineBreak(" ккал") && IsSpace(" ккал"[0]) && !Occurs(" ккал", CaloriesLabel)
  {}

  /** A unit after the number, as in "450 ккал", is ignored. */
  lemma CaloriesWithUnit()
    ensures ParseAnswer(DishLabel + " " + "борщ" + "\n" + CaloriesLabel + " " + "450" + " ккал")
              == Ok(("борщ", 450))
  {
    CaloriesExampleParts();
    var answer := DishLabel + " " + "борщ" + "\n" + CaloriesLabel + " " + "450" + " ккал";
    assert answer + [] == answer;
    ParseRenderedAnswer("борщ", 450, " ккал", []);
  }
}
