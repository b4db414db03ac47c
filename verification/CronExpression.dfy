/** From the text of a cron expression to the minutes at which it fires. */
module CronExpression {
  import opened Arithmetic
  import opened Calendar
  import opened Cron
  import opened CronSearch
  import opened Numerals
  import opened Text

  /** The five item lists of an expression, column by column. */
  type Columns = columns: seq<seq<Item>> | |columns| == 5 witness [[], [], [], [], []]

  /** Minute, hour, day of the month, month, day of the week with Sunday written 0 or 7. */
  const BOUNDS: seq<(nat, nat)> := [(0, 59), (0, 23), (1, 31), (1, 12), (0, 7)]

  lemma BoundsOfColumns(k: nat)
    ensures k < 5 ==> Lo(k) == BOUNDS[k].0 && Hi(k) == BOUNDS[k].1
  {}

  predicate AllFit(columns: Columns) {
    forall k: nat :: k < 5 ==> ListFits(columns[k], BOUNDS[k].0, BOUNDS[k].1)
  }

  function ShowList(items: seq<Item>): string {
    if items == [] then "" else Join(Shows(items), ',')
  }

  /** The words spell the columns. */
  predicate Spells(words: seq<string>, columns: Columns) {
    AllFit(columns) && |words| == 5 && forall k: nat :: k < 5 ==> words[k] == ShowList(columns[k])
  }

  lemma {:induction false} ColumnsAreRead(words: seq<string>)
    ensures ParseColumns(words).Ok?
      <==> forall k: nat :: k < |words| ==> ParseTokens(Tokens(words[k]), Lo(k), Hi(k)).Ok?
  {
    hide ParseTokens, Tokens;
    if words != [] {
      var front := words[..|words| - 1];
      ColumnsAreRead(front);
      assert forall k: nat :: k < |front| ==> front[k] == words[k];
    }
  }

  lemma AcceptedIsWritten(expression: string) returns (columns: Columns)
    requires FieldsOf(expression).Ok?
    ensures Spells(Words(expression), columns)
  {
    hide ParseTokens, Tokens, ParseColumns, Words, ItemFits, Shows, Join;
    var words := Words(expression);
    ColumnsAreRead(words);
    var a := ListOf(words[0], 0);
    var b := ListOf(words[1], 1);
    var c := ListOf(words[2], 2);
    var d := ListOf(words[3], 3);
    var e := ListOf(words[4], 4);
    columns := [a, b, c, d, e];
    forall k: nat | k < 5 ensures ListFits(columns[k], BOUNDS[k].0, BOUNDS[k].1) {
      BoundsOfColumns(k);
    }
  }

  lemma WrittenIsRead(expression: string, columns: Columns)
    requires Spells(Words(expression), columns)
    ensures FieldsOf(expression).Ok?
  {
    hide ParseTokens, Tokens, ParseColumns, Words, ItemFits, Shows, Join;
    var words := Words(expression);
    ColumnsAreRead(words);
    forall k: nat | k < |words| ensures ParseTokens(Tokens(words[k]), Lo(k), Hi(k)).Ok? {
      BoundsOfColumns(k);
      ListIsRead(columns[k], Lo(k), Hi(k));
    }
  }

  /** An expression is accepted exactly when its words spell five lists of well-formed items. */
  lemma ExpressionIsExact(expression: string)
    ensures FieldsOf(expression).Ok? <==> exists columns :: Spells(Words(expression), columns)
  {
    hide FieldsOf, Words, Spells;
    if FieldsOf(expression).Ok? {
      var columns := AcceptedIsWritten(expression);
    }
    forall columns | Spells(Words(expression), columns) ensures FieldsOf(expression).Ok? {
      WrittenIsRead(expression, columns);
    }
  }

  lemma ListOf(word: string, k: nat) returns (items: seq<Item>)
    requires ParseTokens(Tokens(word), Lo(k), Hi(k)).Ok?
    ensures ListFits(items, Lo(k), Hi(k)) && ShowList(items) == word
  {
    hide ParseTokens, ListHolds;
    ParseFieldIsExact(word, Lo(k), Hi(k));
    items :| ListFits(items, Lo(k), Hi(k)) && Join(Shows(items), ',') == word;
  }

  // ----- What the fields mean -----

  ghost predicate HeldIn(columns: Columns, k: nat, n: nat)
    requires AllFit(columns) && k < 5
  {
    ListHolds(columns[k], n, BOUNDS[k].0, BOUNDS[k].1)
  }

  /** A day of the week counted from Sunday, which may be written 0 or 7. */
  ghost predicate DowHeld(columns: Columns, n: nat)
    requires AllFit(columns)
  {
    HeldIn(columns, 4, n) || (n == 0 && HeldIn(columns, 4, 7))
  }

  lemma FieldsMean(expression: string, columns: Columns)
    requires Spells(Words(expression), columns)
    ensures FieldsOf(expression).Ok? && Plausible(FieldsOf(expression).value)
    ensures var f := FieldsOf(expression).value;
      && (forall n: nat :: n in f.minutes <==> HeldIn(columns, 0, n))
      && (forall n: nat :: n in f.hours <==> HeldIn(columns, 1, n))
      && (forall n: nat :: n in f.doms <==> HeldIn(columns, 2, n))
      && (forall n: nat :: n in f.months <==> HeldIn(columns, 3, n))
      && (forall n: nat :: n < 7 ==> (n in f.dows <==> DowHeld(columns, n)))
  {
    hide ParseTokens, Tokens, ParseColumns, Words, ItemFits, ListHolds, Shows, Join;
    WrittenIsRead(expression, columns);
    ParsedIsPlausible(expression);
    var words := Words(expression);
    forall k: nat | k < 5
      ensures ParseTokens(Tokens(words[k]), Lo(k), Hi(k)).Ok?
      ensures ParseColumns(words).value[k] == ParseTokens(Tokens(words[k]), Lo(k), Hi(k)).value
      ensures forall n: nat :: n in ParseColumns(words).value[k] <==> HeldIn(columns, k, n)
    {
      ColumnMeaning(words, k);
      BoundsOfColumns(k);
      ListIsRead(columns[k], Lo(k), Hi(k));
    }
  }

  ghost predicate DomsRestricted(columns: Columns)
    requires AllFit(columns)
  {
    exists n: nat :: 1 <= n <= 31 && !HeldIn(columns, 2, n)
  }

  ghost predicate DowsRestricted(columns: Columns)
    requires AllFit(columns)
  {
    exists n: nat :: n <= 6 && !DowHeld(columns, n)
  }

  /**
    An expression fires on a date and at a time exactly when its items hold that minute, hour and month,
    and the day is held by a restricted day of month, or by a restricted day of the week - the one that
    the calendar rule gives for the date - or neither is restricted.
  */
  lemma FiresAsWritten(expression: string, columns: Columns, date: Date, hour: nat, minute: nat)
    requires Spells(Words(expression), columns) && IsDate(date) && hour < 24 && minute < 60
    ensures FieldsOf(expression).Ok?
    ensures Fires(FieldsOf(expression).value, (Ordinal(date) * 24 + hour) * 60 + minute) <==>
      && HeldIn(columns, 0, minute) && HeldIn(columns, 1, hour) && HeldIn(columns, 3, date.month)
      && (|| (DomsRestricted(columns) && HeldIn(columns, 2, date.day))
          || (DowsRestricted(columns) && DowHeld(columns, DayOfWeek(date)))
          || (!DomsRestricted(columns) && !DowsRestricted(columns)))
  {
    hide FieldsOf, Words, HeldIn, DowHeld, ShowList, DayMatches, Ordinal, CronDow, DayOfWeek, DayOf, HourOf, MinuteOf;
    FieldsMean(expression, columns);
    var f := FieldsOf(expression).value;
    RestrictedAsWritten(f, columns);
    ClockAndCalendar(date, hour, minute);
    DayRule(f, Ordinal(date));
  }

  /** What the search reads off the minute of a date and a time. */
  lemma ClockAndCalendar(date: Date, hour: nat, minute: nat)
    requires IsDate(date) && hour < 24 && minute < 60
    ensures var t := (Ordinal(date) * 24 + hour) * 60 + minute;
      && DayOf(t) == Ordinal(date) && HourOf(t) == hour && MinuteOf(t) == minute
      && DateOf(Ordinal(date)) == date && CronDow(Ordinal(date)) == DayOfWeek(date)
  {
    hide Ordinal, DayOfWeek, CronDow;
    var day := Ordinal(date);
    QuotientOfSum(day * 24 + hour, minute, 60);
    QuotientOfSum(day, hour, 24);
    QuotientOfSum(day, hour * 60 + minute, 1440);
    assert (day * 24 + hour) * 60 + minute == day * 1440 + (hour * 60 + minute);
    DateOfOrdinal(date);
    DowOfDate(date);
  }

  /** Every minute is the minute of a date and a time. */
  lemma EveryMinute(t: nat) returns (date: Date, hour: nat, minute: nat)
    ensures IsDate(date) && hour < 24 && minute < 60 && t == (Ordinal(date) * 24 + hour) * 60 + minute
  {
    date, hour, minute := DateOf(t / 1440), t / 60 % 24, t % 60;
    OrdinalOfDateOf(t / 1440);
    assert t / 1440 == t / 60 / 24;
  }

  lemma RestrictedAsWritten(f: Fields, columns: Columns)
    requires AllFit(columns) && Plausible(f)
    requires forall n: nat :: n in f.doms <==> HeldIn(columns, 2, n)
    requires forall n: nat :: n < 7 ==> (n in f.dows <==> DowHeld(columns, n))
    ensures DomRestricted(f) <==> DomsRestricted(columns)
    ensures DowRestricted(f) <==> DowsRestricted(columns)
  {
    hide HeldIn, DowHeld, AllFit;
    AllDaysAre(f.doms, 1, 31);
    AllDaysAre(f.dows, 0, 6);
  }

  lemma AllDaysAre(days: set<nat>, lo: nat, hi: nat)
    requires forall n :: n in days ==> lo <= n <= hi
    ensures days == Every(lo, hi, 1) <==> forall n: nat :: lo <= n <= hi ==> n in days
  {
    assert forall n: nat :: lo <= n <= hi ==> n in Every(lo, hi, 1) by {
      assert forall n: nat :: lo <= n <= hi ==> OnGrid(n, lo, 1);
    }
  }

  // ----- White space -----

  /** Words with white space around them: some between any two, perhaps some before and after. */
  function Spaced(gaps: seq<string>, words: seq<string>): string
    requires |gaps| == |words| + 1
  {
    if words == [] then gaps[0] else gaps[0] + (words[0] + Spaced(gaps[1..], words[1..]))
  }

  predicate Separates(gaps: seq<string>, words: seq<string>) {
    && |gaps| == |words| + 1
    && (forall i :: 0 <= i < |gaps| ==> AllSpace(gaps[i]))
    && (forall i :: 0 < i < |words| ==> gaps[i] != "")
  }

  lemma {:induction false} SpacedWords(gaps: seq<string>, words: seq<string>)
    requires Separates(gaps, words) && forall w :: w in words ==> IsWord(w)
    ensures Words(Spaced(gaps, words)) == words
    decreases |words|
  {
    hide Words;
    if words == [] {
      WordsSkipSpace(gaps[0], "");
      assert gaps[0] + "" == gaps[0];
      assert Words("") == [] by { NoWords(); }
    } else {
      var rest := Spaced(gaps[1..], words[1..]);
      assert words[0] in words && forall w :: w in words[1..] ==> w in words;
      SpacedWords(gaps[1..], words[1..]);
      WordsSkipSpace(gaps[0], words[0] + rest);
      AfterWord(gaps, words);
      WordsSplitOff(words[0], rest);
    }
  }

  lemma NoWords()
    ensures Words("") == []
  {}

  lemma AfterWord(gaps: seq<string>, words: seq<string>)
    requires Separates(gaps, words) && words != []
    ensures var rest := Spaced(gaps[1..], words[1..]);
      rest != [] ==> IsSpace(rest[0])
  {
    var gap := gaps[1];
    assert gap != "" ==> gap[0] in gap;
  }

  lemma {:induction false} JoinedIsWord(parts: seq<string>)
    requires parts != [] && forall part :: part in parts ==> IsWord(part)
    ensures IsWord(Join(parts, ','))
    decreases |parts|
  {
    assert parts[0] in parts;
    if |parts| > 1 {
      assert forall part :: part in parts[1..] ==> part in parts;
      JoinedIsWord(parts[1..]);
    }
  }

  lemma ItemIsWord(item: Item, lo: nat, hi: nat)
    requires ItemFits(item, lo, hi)
    ensures IsWord(Show(item))
  {
    hide NumberOf;
    var body := ShowBody(item.body);
    assert IsWord(body);
    assert forall c :: c in Show(item) ==>
      c in body || c == '/' || (item.step.Some? && c in item.step.value);
  }

  lemma ListIsWord(items: seq<Item>, lo: nat, hi: nat)
    requires ListFits(items, lo, hi)
    ensures IsWord(ShowList(items))
  {
    hide IsWord, ItemFits, Show;
    forall part | part in Shows(items) ensures IsWord(part) {
      var i :| 0 <= i < |items| && Shows(items)[i] == part;
      assert items[i] in items;
      ItemIsWord(items[i], lo, hi);
    }
    JoinedIsWord(Shows(items));
  }

  /** Five lists of well-formed items, shown with white space between them, are accepted and mean what they say. */
  lemma WrittenIsAccepted(columns: Columns, gaps: seq<string>)
    requires AllFit(columns)
    requires Separates(gaps, seq(5, k requires 0 <= k < 5 => ShowList(columns[k])))
    ensures var words := seq(5, k requires 0 <= k < 5 => ShowList(columns[k]));
      Spells(Words(Spaced(gaps, words)), columns) && FieldsOf(Spaced(gaps, words)).Ok?
  {
    hide Words, ListFits, IsWord, FieldsOf, Spaced;
    var words := seq(5, k requires 0 <= k < 5 => ShowList(columns[k]));
    forall w | w in words ensures IsWord(w) {
      var k: nat :| k < 5 && words[k] == w;
      ListIsWord(columns[k], BOUNDS[k].0, BOUNDS[k].1);
    }
    SpacedWords(gaps, words);
    WrittenIsRead(Spaced(gaps, words), columns);
  }
}
