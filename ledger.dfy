/** The meal ledger: the `data.json` store of what each user ate on each day, the
    `add_entry` read-modify-write on it, the `/today` report, and `handle_photo`, which
    parses the model's answer before it records anything. */
module Ledger {
  import opened PyStr
  import opened Users
  import opened Answer

  /** One `{"dish": ..., "calories": ...}` object of the store. */
  datatype Record = Record(dish: string, calories: int)

  /** The JSON document: user-id string -> ISO day string -> meals in insertion order. */
  type Store = map<string, map<string, seq<Record>>>

  /** `str(user_id)`, the store's key for a user. */
  function UserKey(userId: int): string {
    IntToString(userId)
  }

  /** `data.get(str(user_id), {}).get(day, [])`: a missing user or day is the empty list. */
  function MealsOn(s: Store, userId: int, day: string): seq<Record> {
    var key := UserKey(userId);
    if key in s && day in s[key] then s[key][day] else []
  }

  /** The store after `add_entry(user_id, dish, calories)` on `day`: the user's list for
      the day, created empty when missing, gets the record appended at its end, and
      nothing else changes. */
  function Recorded(s: Store, userId: int, day: string, rec: Record): (r: Store)
    ensures UserKey(userId) in r && day in r[UserKey(userId)]
    ensures r[UserKey(userId)][day] == MealsOn(s, userId, day) + [rec]
    ensures r.Keys == s.Keys + {UserKey(userId)}
    ensures forall k :: k in s && k != UserKey(userId) ==> r[k] == s[k]
    ensures UserKey(userId) in s ==> r[UserKey(userId)].Keys == s[UserKey(userId)].Keys + {day}
    ensures UserKey(userId) !in s ==> r[UserKey(userId)].Keys == {day}
    ensures forall d :: UserKey(userId) in s && d in s[UserKey(userId)] && d != day ==>
              r[UserKey(userId)][d] == s[UserKey(userId)][d]
  {
    var key := UserKey(userId);
    var days := if key in s then s[key] else map[];
    var meals := if day in days then days[day] else [];
    s[key := days[day := meals + [rec]]]
  }

  /** Adding a record on one day changes that one list, by appending the record, and the
      list of every other user and every other day stays as it was. */
  lemma {:induction false} RecordedMeals(s: Store, userId: int, day: string, rec: Record, other: int, otherDay: string)
    ensures MealsOn(Recorded(s, userId, day, rec), userId, day) == MealsOn(s, userId, day) + [rec]
    ensures other != userId || otherDay != day ==>
              MealsOn(Recorded(s, userId, day, rec), other, otherDay) == MealsOn(s, other, otherDay)
  {
    if other != userId {
      if UserKey(other) == UserKey(userId) {
        IntToStringInjective(other, userId);
      }
    }
  }

  /** No user map and no day list of the store is empty. `add_entry` only creates a key
      immediately before appending to it, so a store built by it keeps this shape. */
  ghost predicate NoEmptyLists(s: Store) {
    forall k :: k in s ==> s[k] != map[] && forall d :: d in s[k] ==> s[k][d] != []
  }

  lemma RecordedKeepsNoEmptyLists(s: Store, userId: int, day: string, rec: Record)
    requires NoEmptyLists(s)
    ensures NoEmptyLists(Recorded(s, userId, day, rec))
  {
    var r := Recorded(s, userId, day, rec);
    var key := UserKey(userId);
    forall k | k in r ensures r[k] != map[] && forall d :: d in r[k] ==> r[k][d] != [] {
      if k == key {
        assert day in r[k];
        forall d | d in r[k] ensures r[k][d] != [] {
          if d != day {
            assert key in s && d in s[key];
          }
        }
      }
    }
  }

  /** In a store of that shape, "nothing recorded yet" means that the user or the day
      has no key at all. */
  lemma EmptyMeansAbsent(s: Store, userId: int, day: string)
    requires NoEmptyLists(s)
    ensures MealsOn(s, userId, day) == [] <==> !(UserKey(userId) in s && day in s[UserKey(userId)])
  {}

  // ---------------------------------------------------------------------------
  // The /today report

  /** `sum(m["calories"] for m in meals)`. */
  function Total(meals: seq<Record>): int {
    if meals == [] then 0 else meals[0].calories + Total(meals[1..])
  }

  lemma {:induction false} TotalAppend(a: seq<Record>, b: seq<Record>)
    ensures Total(a + b) == Total(a) + Total(b)
    decreases |a|
  {
    if a == [] {
      assert a + b == b;
    } else {
      assert (a + b)[1..] == a[1..] + b;
      TotalAppend(a[1..], b);
    }
  }

  /** The day's total after `add_entry` is the old total plus the new record's calories. */
  lemma RecordedTotal(s: Store, userId: int, day: string, rec: Record)
    ensures Total(MealsOn(Recorded(s, userId, day, rec), userId, day)) ==
            Total(MealsOn(s, userId, day)) + rec.calories
  {
    RecordedMeals(s, userId, day, rec, userId, day);
    TotalAppend(MealsOn(s, userId, day), [rec]);
    assert Total([rec]) == rec.calories;
  }

  const NothingYet := "Сегодня пока ничего не записано."
  const ReportHeader := "Сегодня ты съел:"

  /** `f"• {m['dish']} — {m['calories']} ккал"` */
  function MealLine(m: Record): string {
    "• " + m.dish + " — " + IntToString(m.calories) + " ккал"
  }

  function MealLines(meals: seq<Record>): (lines: seq<string>)
    ensures |lines| == |meals|
    ensures forall i :: 0 <= i < |meals| ==> lines[i] == MealLine(meals[i])
  {
    seq(|meals|, i requires 0 <= i < |meals| => MealLine(meals[i]))
  }

  /** `f"Итого: {total} ккал"` */
  function TotalLine(total: int): string {
    "Итого: " + IntToString(total) + " ккал"
  }

  /** The reply of `/today` for the day's list of meals. */
  function TodayReply(meals: seq<Record>): string {
    if meals == [] then NothingYet
    else ReportHeader + "\n\n" + Join(MealLines(meals)) + "\n\n" + TotalLine(Total(meals))
  }

  /** The reply is the "nothing recorded yet" message exactly when the day has no meal. */
  lemma TodayReplyNothingYet(meals: seq<Record>)
    ensures TodayReply(meals) == NothingYet <==> meals == []
  {
    if meals != [] {
      assert |TotalLine(Total(meals))| >= 13;
      assert |TodayReply(meals)| > |NothingYet|;
    }
  }

  lemma FixedTextNoBreak()
    ensures NoLineBreak("• ") && NoLineBreak(" — ") && NoLineBreak(" ккал")
    ensures NoLineBreak("Итого: ") && NoLineBreak(ReportHeader)
  {}

  lemma MealLineNoBreak(m: Record)
    requires NoLineBreak(m.dish)
    ensures NoLineBreak(MealLine(m))
  {
    FixedTextNoBreak();
    IntStringNoBreak(m.calories);
    NoLineBreakConcat("• ", m.dish);
    NoLineBreakConcat("• " + m.dish, " — ");
    NoLineBreakConcat("• " + m.dish + " — ", IntToString(m.calories));
    NoLineBreakConcat("• " + m.dish + " — " + IntToString(m.calories), " ккал");
  }

  lemma ReportLinesNoBreak(meals: seq<Record>)
    requires forall m <- meals :: NoLineBreak(m.dish)
    ensures forall i :: 0 <= i < |MealLines(meals)| ==> NoLineBreak(MealLines(meals)[i])
    ensures NoLineBreak(TotalLine(Total(meals))) && TotalLine(Total(meals)) != []
  {
    var lines := MealLines(meals);
    forall i | 0 <= i < |lines| ensures NoLineBreak(lines[i]) {
      assert meals[i] in meals;
      MealLineNoBreak(meals[i]);
    }
    FixedTextNoBreak();
    IntStringNoBreak(Total(meals));
    NoLineBreakConcat("Итого: ", IntToString(Total(meals)));
    NoLineBreakConcat("Итого: " + IntToString(Total(meals)), " ккал");
  }

  lemma ReportHead(header: string, body: string)
    requires NoLineBreak(header)
    ensures SplitLines(header + "\n" + ("\n" + body)) == [header, ""] + SplitLines(body)
  {
    SplitLinesNewline(header, "\n" + body);
    SplitLinesBlank(body);
  }

  lemma ReportBody(lines: seq<string>, last: string)
    requires lines != [] && forall i :: 0 <= i < |lines| ==> NoLineBreak(lines[i])
    requires last != [] && NoLineBreak(last)
    ensures SplitLines(Join(lines) + "\n" + ("\n" + last)) == lines + ["", last]
  {
    SplitLinesJoin(lines, "\n" + last);
    SplitLinesBlank(last);
    SplitLinesSingle(last);
  }

  /** The lines of a report with the given header, meal lines and total line. */
  lemma {:induction false} ReportShapeLines(header: string, lines: seq<string>, last: string)
    requires NoLineBreak(header)
    requires lines != [] && forall i :: 0 <= i < |lines| ==> NoLineBreak(lines[i])
    requires last != [] && NoLineBreak(last)
    ensures SplitLines(header + "\n\n" + Join(lines) + "\n\n" + last) ==
              [header, ""] + lines + ["", last]
  {
    var body := Join(lines) + "\n" + ("\n" + last);
    assert header + "\n\n" + Join(lines) + "\n\n" + last == header + "\n" + ("\n" + body);
    ReportHead(header, body);
    ReportBody(lines, last);
  }

  /** Read line by line, the report is its header, a blank line, one line per meal in
      the order they were recorded, a blank line and the total line, provided no dish
      contains a line break. */
  lemma TodayReplyLines(meals: seq<Record>)
    requires meals != []
    requires forall m <- meals :: NoLineBreak(m.dish)
    ensures SplitLines(TodayReply(meals)) ==
              [ReportHeader, ""] + MealLines(meals) + ["", TotalLine(Total(meals))]
  {
    ReportLinesNoBreak(meals);
    FixedTextNoBreak();
    ReportShapeLines(ReportHeader, MealLines(meals), TotalLine(Total(meals)));
  }

  /** Every dish in the store is a single line of text, as the parser produces it. */
  ghost predicate DishesOneLine(s: Store) {
    forall k: string, d: string, m: Record :: k in s && d in s[k] && m in s[k][d] ==> NoLineBreak(m.dish)
  }

  lemma RecordedKeepsDishesOneLine(s: Store, userId: int, day: string, rec: Record)
    requires DishesOneLine(s) && NoLineBreak(rec.dish)
    ensures DishesOneLine(Recorded(s, userId, day, rec))
  {
    var r := Recorded(s, userId, day, rec);
    var key := UserKey(userId);
    forall k: string, d: string, m: Record | k in r && d in r[k] && m in r[k][d] ensures NoLineBreak(m.dish) {
      if k == key && d == day {
        assert m in MealsOn(s, userId, day) || m == rec;
      }
    }
  }

  /** In a store whose dishes are single lines, the report of any day with meals reads
      as header, blank line, the meals in order, blank line, total. */
  lemma TodayReplyOfStore(s: Store, userId: int, day: string)
    requires DishesOneLine(s) && MealsOn(s, userId, day) != []
    ensures var meals := MealsOn(s, userId, day);
      SplitLines(TodayReply(meals)) == [ReportHeader, ""] + MealLines(meals) + ["", TotalLine(Total(meals))]
  {
    var meals := MealsOn(s, userId, day);
    forall m <- meals ensures NoLineBreak(m.dish) {
      assert m in s[UserKey(userId)][day];
    }
    TodayReplyLines(meals);
  }

  /** Both shapes of the store survive `add_entry`. */
  lemma KeepsShape(s: Store, userId: int, day: string, rec: Record)
    ensures NoEmptyLists(s) ==> NoEmptyLists(Recorded(s, userId, day, rec))
    ensures DishesOneLine(s) && NoLineBreak(rec.dish) ==> DishesOneLine(Recorded(s, userId, day, rec))
  {
    if NoEmptyLists(s) {
      RecordedKeepsNoEmptyLists(s, userId, day, rec);
    }
    if DishesOneLine(s) && NoLineBreak(rec.dish) {
      RecordedKeepsDishesOneLine(s, userId, day, rec);
    }
  }

  // ---------------------------------------------------------------------------
  // handle_photo

  /** What the `chat.completions.create` call gave back. */
  datatype Estimate =
    | Answer(text: string)  // `response.choices[0].message.content`
    | NoContent             // content is None: `.splitlines()` raises AttributeError
    | RateLimited           // RateLimitError, the one exception the handler catches
    | ApiFailure            // any other exception of the call, not caught

  /** Why the handler ended with an uncaught exception. */
  datatype Crash = BadAnswer(error: ParseError) | Unparsable | CallFailed | NoUser

  /** How an update ended for the user. */
  datatype Outcome =
    | Ignored               // neither a photo nor an image document
    | Replied(text: string)
    | Raised(crash: Crash)  // the exception leaves the handler; no reply is sent

  const RateLimitReply := "⏳ Лимит запросов. Попробуй позже."

  /** `f"{name}, записал:\n{dish} — {calories} ккал"` */
  function RecordedReply(name: string, dish: string, calories: int): string {
    name + ", записал:\n" + dish + " — " + IntToString(calories) + " ккал"
  }

  /** The store behind `load_data` and `save_data`. Every `add_entry` reads the whole
      document, changes one list and writes the whole document back; `store` is that
      document between calls. */
  class MealLog {
    var store: Store

    /** `load_data` when `data.json` does not exist yet. */
    constructor ()
      ensures store == map[]
    {
      store := map[];
    }

    /** `load_data` of an existing `data.json`. */
    constructor Load(saved: Store)
      ensures store == saved
    {
      store := saved;
    }

    /** `add_entry`: `setdefault` the user's map and the day's list, append the record. */
    method AddEntry(userId: int, dish: string, calories: int, day: string)
      modifies this
      ensures store == Recorded(old(store), userId, day, Record(dish, calories))
      ensures NoEmptyLists(old(store)) ==> NoEmptyLists(store)
      ensures DishesOneLine(old(store)) && NoLineBreak(dish) ==> DishesOneLine(store)
    {
      var data := store;
      var key := UserKey(userId);
      if key !in data {
        data := data[key := map[]];
      }
      if day !in data[key] {
        data := data[key := data[key][day := []]];
      }
      ghost var days := if key in store then store[key] else map[];
      assert data == store[key := data[key]];
      assert data[key] == days[day := data[key][day]];
      assert data[key][day] == MealsOn(store, userId, day);
      ghost var appended := MealsOn(store, userId, day) + [Record(dish, calories)];
      data := data[key := data[key][day := data[key][day] + [Record(dish, calories)]]];
      assert data[key] == days[day := appended];
      assert data == store[key := days[day := appended]];
      store := data;
      KeepsShape(old(store), userId, day, Record(dish, calories));
    }

    /** `/today`: the day's meals, one line each, and their total. */
    method Today(userId: int, day: string) returns (reply: string)
      ensures reply == TodayReply(MealsOn(store, userId, day))
    {
      var meals := MealsOn(store, userId, day);
      if meals == [] {
        reply := NothingYet;
        return;
      }
      var total := Total(meals);
      var lines := MealLines(meals);
      reply := ReportHeader + "\n\n" + Join(lines);
      reply := reply + "\n\n" + TotalLine(total);
    }

    /** `handle_photo` for one update. The answer is parsed before anything is recorded,
        so the store changes only when the message carries an image, the call returned
        an answer that parses, and there is a user to record it for. */
    method HandlePhoto(user: Option<User>, hasImage: bool, estimate: Estimate, day: string)
      returns (outcome: Outcome)
      modifies this
      ensures !hasImage ==> outcome == Ignored
      ensures hasImage && estimate.RateLimited? ==> outcome == Replied(RateLimitReply)
      ensures hasImage && estimate.NoContent? ==> outcome == Raised(Unparsable)
      ensures hasImage && estimate.ApiFailure? ==> outcome == Raised(CallFailed)
      ensures hasImage && estimate.Answer? && ParseAnswer(estimate.text).Failure? ==>
                outcome == Raised(BadAnswer(ParseAnswer(estimate.text).error))
      ensures hasImage && estimate.Answer? && ParseAnswer(estimate.text).Ok? && user.None? ==>
                outcome == Raised(NoUser)
      ensures hasImage && estimate.Answer? && ParseAnswer(estimate.text).Ok? && user.Some? ==>
                var (dish, calories) := ParseAnswer(estimate.text).value;
                && store == Recorded(old(store), user.value.id, day, Record(dish, calories))
                && outcome == Replied(RecordedReply(GetUserName(user), dish, calories))
      ensures !(hasImage && estimate.Answer? && ParseAnswer(estimate.text).Ok? && user.Some?) ==>
                store == old(store)
      ensures NoEmptyLists(old(store)) ==> NoEmptyLists(store)
      ensures DishesOneLine(old(store)) ==> DishesOneLine(store)
    {
      var name := GetUserName(user);
      if !hasImage {
        return Ignored;
      }
      match estimate {
        case RateLimited =>
          outcome := Replied(RateLimitReply);
        case ApiFailure =>
          outcome := Raised(CallFailed);
        case NoContent =>
          outcome := Raised(Unparsable);
        case Answer(text) =>
          var parsed := ParseAnswer(text);
          if parsed.Failure? {
            return Raised(BadAnswer(parsed.error));
          }
          var (dish, calories) := parsed.value;
          if user.None? {
            return Raised(NoUser);
          }
          AddEntry(user.value.id, dish, calories, day);
          outcome := Replied(RecordedReply(name, dish, calories));
      }
    }
  }
}
