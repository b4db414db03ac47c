/** The five-field cron expressions of `cron_next` and the search for their next fire times. */
module Cron {
  import opened Arithmetic
  import opened Numerals
  import opened Text

  const MAX_SEARCH_DAYS: nat := 366 * 20

  datatype Problem = FieldCount | EmptyField | EmptyToken | BadStep | BadRange | BadValue

  // ----- Parsing -----

  predicate OnGrid(n: nat, first: nat, step: nat)
    requires 0 < step
  {
    (n - first) % step == 0
  }

  /** `set(range(first, last + 1, step))`. */
  function Every(first: nat, last: nat, step: nat): set<nat>
    requires 0 < step
  {
    set n: nat | first <= n <= last && OnGrid(n, first, step)
  }

  function ParseBody(body: string, step: nat, lo: nat, hi: nat): Result<set<nat>, Problem>
    requires 0 < step
  {
    if body == "*" then Ok(Every(lo, hi, step))
    else if '-' in body then
      var ends := Split(body, '-', 1);
      if !IsNumeral(ends[0]) || !IsNumeral(ends[1]) then Err(BadRange)
      else
        var first, last := NumberOf(ends[0]), NumberOf(ends[1]);
        if first > last || first < lo || last > hi then Err(BadRange) else Ok(Every(first, last, step))
    else if !IsNumeral(body) then Err(BadValue)
    else if NumberOf(body) < lo || NumberOf(body) > hi then Err(BadValue)
    else Ok(Every(NumberOf(body), NumberOf(body), step))
  }

  /** `_parse_token`. */
  function ParseToken(token: string, lo: nat, hi: nat): Result<set<nat>, Problem> {
    if token == "" then Err(EmptyToken)
    else if '/' in token then
      var halves := Split(token, '/', 1);
      if !IsNumeral(halves[1]) then Err(BadStep)
      else if NumberOf(halves[1]) < 1 then Err(BadStep)
      else ParseBody(halves[0], NumberOf(halves[1]), lo, hi)
    else ParseBody(token, 1, lo, hi)
  }

  /** What a list of tokens means, up to the first one that is refused. */
  function ParseTokens(tokens: seq<string>, lo: nat, hi: nat): Result<set<nat>, Problem>
    decreases |tokens|
  {
    if tokens == [] then Ok({}) else
      var front := ParseTokens(tokens[..|tokens| - 1], lo, hi);
      if front.Err? then front else
        var last := ParseToken(tokens[|tokens| - 1], lo, hi);
        if last.Err? then last else Ok(front.value + last.value)
  }

  function Tokens(part: string): seq<string> {
    Split(part, ',', |part|)
  }

  lemma {:induction false} EarlierErrorStays(tokens: seq<string>, k: nat, lo: nat, hi: nat)
    requires k <= |tokens| && ParseTokens(tokens[..k], lo, hi).Err?
    ensures ParseTokens(tokens, lo, hi) == ParseTokens(tokens[..k], lo, hi)
    decreases |tokens|
  {
    if k == |tokens| {
      assert tokens[..k] == tokens;
    } else {
      assert tokens[..|tokens| - 1][..k] == tokens[..k];
      EarlierErrorStays(tokens[..|tokens| - 1], k, lo, hi);
    }
  }

  /** `_parse_field` on a non-empty part, as `split` produces them. */
  method ParseField(part: string, lo: nat, hi: nat) returns (field: Result<set<nat>, Problem>)
    requires lo <= hi
    ensures part == "" ==> field == Err(EmptyField)
    ensures part != "" ==> field == ParseTokens(Tokens(part), lo, hi)
  {
    if part == "" {
      return Err(EmptyField);
    }
    var tokens := Tokens(part);
    var values: set<nat> := {};
    for k := 0 to |tokens|
      invariant ParseTokens(tokens[..k], lo, hi) == Ok(values)
      invariant k > 0 ==> values != {}
    {
      hide ParseToken;
      assert tokens[..k + 1][..k] == tokens[..k];
      var parsed := ParseToken(tokens[k], lo, hi);
      if parsed.Err? {
        EarlierErrorStays(tokens, k + 1, lo, hi);
        return parsed;
      }
      TokenIsWithinBounds(tokens[k], lo, hi);
      values := values + parsed.value;
    }
    assert tokens[..|tokens|] == tokens;
    assert values != {};
    return Ok(values);
  }

  // ----- The grammar, read from the other side -----

  datatype Body = Star | Range(left: string, right: string) | Single(value: string)

  datatype Item = Item(body: Body, step: Option<string>)

  predicate BodyFits(b: Body, lo: nat, hi: nat) {
    match b
    case Star => true
    case Range(l, r) => IsNumeral(l) && IsNumeral(r) && lo <= NumberOf(l) <= NumberOf(r) <= hi
    case Single(v) => IsNumeral(v) && lo <= NumberOf(v) <= hi
  }

  predicate ItemFits(item: Item, lo: nat, hi: nat) {
    && BodyFits(item.body, lo, hi)
    && (item.step.Some? ==> IsNumeral(item.step.value) && 1 <= NumberOf(item.step.value))
  }

  function ShowBody(b: Body): string {
    match b
    case Star => "*"
    case Range(l, r) => l + "-" + r
    case Single(v) => v
  }

  function Show(item: Item): string {
    ShowBody(item.body) + if item.step.Some? then "/" + item.step.value else ""
  }

  predicate BodyHolds(b: Body, n: nat, lo: nat, hi: nat)
    requires BodyFits(b, lo, hi)
  {
    match b
    case Star => lo <= n <= hi
    case Range(l, r) => NumberOf(l) <= n <= NumberOf(r)
    case Single(v) => n == NumberOf(v)
  }

  function FirstOf(b: Body, lo: nat, hi: nat): nat
    requires BodyFits(b, lo, hi)
  {
    match b
    case Star => lo
    case Range(l, r) => NumberOf(l)
    case Single(v) => NumberOf(v)
  }

  /** `n` is reached from `first` in whole steps. */
  ghost predicate InSteps(first: nat, step: nat, n: nat) {
    exists k: nat :: n == first + k * step
  }

  lemma GridIsSteps(n: nat, first: nat, step: nat)
    requires 0 < step && first <= n
    ensures OnGrid(n, first, step) <==> InSteps(first, step, n)
  {
    var k := (n - first) / step;
    if OnGrid(n, first, step) {
      assert n == first + k * step;
    }
    if InSteps(first, step, n) {
      var j: nat :| n == first + j * step;
      MultipleIsEven(j, step);
    }
  }

  lemma MultipleIsEven(j: nat, step: nat)
    requires 0 < step
    ensures (j * step) % step == 0
  {
    QuotientOfSum(j, 0, step);
  }

  /** An item means the numbers of its body that lie a multiple of the step from its first one. */
  ghost predicate Holds(item: Item, n: nat, lo: nat, hi: nat)
    requires ItemFits(item, lo, hi)
  {
    && BodyHolds(item.body, n, lo, hi)
    && (item.step.Some? ==> InSteps(FirstOf(item.body, lo, hi), NumberOf(item.step.value), n))
  }

  lemma NumeralHasNoPunctuation(s: string)
    requires IsNumeral(s)
    ensures s != "*" && s != "" && '-' !in s && '/' !in s && ',' !in s
  {
    assert s[0] in s;
  }

  lemma SplitOnce(head: string, sep: char, tail: string)
    requires sep !in head
    ensures sep in head + [sep] + tail
    ensures Split(head + [sep] + tail, sep, 1) == [head, tail]
  {
    SplitHead(head, sep, tail, 1);
    assert (head + [sep] + tail)[|head|] == sep;
  }

  lemma BodyIsRead(b: Body, step: nat, lo: nat, hi: nat)
    requires BodyFits(b, lo, hi) && 0 < step
    ensures ShowBody(b) != "" && '/' !in ShowBody(b) && ',' !in ShowBody(b)
    ensures var r := ParseBody(ShowBody(b), step, lo, hi);
      r.Ok? && forall n: nat :: n in r.value <==> BodyHolds(b, n, lo, hi) && OnGrid(n, FirstOf(b, lo, hi), step)
  {
    hide Split;
    match b
    case Star =>
    case Range(l, r) =>
      NumeralHasNoPunctuation(l);
      NumeralHasNoPunctuation(r);
      SplitOnce(l, '-', r);
      assert l + "-" + r == l + ['-'] + r;
      assert |ShowBody(b)| > 1;
    case Single(v) =>
      NumeralHasNoPunctuation(v);
  }

  /** Every well-formed item is accepted with its meaning. */
  lemma ItemIsRead(item: Item, lo: nat, hi: nat)
    requires ItemFits(item, lo, hi)
    ensures ',' !in Show(item)
    ensures var r := ParseToken(Show(item), lo, hi);
      r.Ok? && forall n: nat :: n in r.value <==> Holds(item, n, lo, hi)
  {
    hide Split, ParseBody, ShowBody;
    var body := ShowBody(item.body);
    if item.step.Some? {
      NumeralHasNoPunctuation(item.step.value);
      var step := NumberOf(item.step.value);
      BodyIsRead(item.body, step, lo, hi);
      SplitOnce(body, '/', item.step.value);
      assert Show(item) == body + ['/'] + item.step.value;
      forall n: nat | BodyHolds(item.body, n, lo, hi)
        ensures OnGrid(n, FirstOf(item.body, lo, hi), step) <==> InSteps(FirstOf(item.body, lo, hi), step, n)
      {
        GridIsSteps(n, FirstOf(item.body, lo, hi), step);
      }
    } else {
      BodyIsRead(item.body, 1, lo, hi);
      assert forall n: nat :: OnGrid(n, FirstOf(item.body, lo, hi), 1);
      assert Show(item) == body;
    }
  }

  lemma BodyWasWritten(body: string, step: nat, lo: nat, hi: nat) returns (b: Body)
    requires 0 < step && ParseBody(body, step, lo, hi).Ok?
    ensures BodyFits(b, lo, hi) && ShowBody(b) == body
  {
    if body == "*" {
      b := Star;
    } else if '-' in body {
      SplitGlue(body, '-', 1);
      var ends := Split(body, '-', 1);
      b := Range(ends[0], ends[1]);
    } else {
      b := Single(body);
    }
  }

  /** Only well-formed items are accepted. */
  lemma ItemWasWritten(token: string, lo: nat, hi: nat) returns (item: Item)
    requires ParseToken(token, lo, hi).Ok?
    ensures ItemFits(item, lo, hi) && Show(item) == token
  {
    hide ParseBody, ShowBody, BodyFits;
    if '/' in token {
      SplitGlue(token, '/', 1);
      var halves := Split(token, '/', 1);
      var b := BodyWasWritten(halves[0], NumberOf(halves[1]), lo, hi);
      item := Item(b, Some(halves[1]));
    } else {
      var b := BodyWasWritten(token, 1, lo, hi);
      item := Item(b, None);
    }
  }

  /** A token is accepted exactly when some well-formed item is spelled that way. */
  lemma ParseTokenIsExact(token: string, lo: nat, hi: nat)
    ensures ParseToken(token, lo, hi).Ok? <==> exists item :: ItemFits(item, lo, hi) && Show(item) == token
    ensures forall item :: ItemFits(item, lo, hi) && Show(item) == token ==>
      forall n: nat :: n in ParseToken(token, lo, hi).value <==> Holds(item, n, lo, hi)
  {
    hide ParseToken, ItemFits, Show, Holds;
    if ParseToken(token, lo, hi).Ok? {
      var item := ItemWasWritten(token, lo, hi);
    }
    forall item | ItemFits(item, lo, hi) && Show(item) == token
      ensures ParseToken(token, lo, hi).Ok?
      ensures forall n: nat :: n in ParseToken(token, lo, hi).value <==> Holds(item, n, lo, hi)
    {
      ItemIsRead(item, lo, hi);
    }
  }

  lemma TokenIsWithinBounds(token: string, lo: nat, hi: nat)
    requires ParseToken(token, lo, hi).Ok? && lo <= hi
    ensures ParseToken(token, lo, hi).value != {}
    ensures forall n: nat :: n in ParseToken(token, lo, hi).value ==> lo <= n <= hi
  {
    hide ParseToken, Show, BodyFits;
    var item := ItemWasWritten(token, lo, hi);
    ItemIsRead(item, lo, hi);
    FirstIsHeld(item, lo, hi);
  }

  lemma FirstIsHeld(item: Item, lo: nat, hi: nat)
    ensures ItemFits(item, lo, hi) && lo <= hi ==> Holds(item, FirstOf(item.body, lo, hi), lo, hi)
    ensures ItemFits(item, lo, hi) && lo <= hi ==> (forall n: nat :: Holds(item, n, lo, hi) ==> lo <= n <= hi)
  {
    if ItemFits(item, lo, hi) && item.step.Some? {
      var first, step := FirstOf(item.body, lo, hi), NumberOf(item.step.value);
      assert first == first + 0 * step;
      assert InSteps(first, step, first);
    }
  }

  /** The token is a body, or a body and a step after its first slash. */
  predicate Parts(token: string, body: string, step: Option<string>) {
    '/' !in body && token == body + if step.Some? then "/" + step.value else ""
  }

  predicate StepFits(step: Option<string>) {
    step.Some? ==> IsNumeral(step.value) && NumberOf(step.value) >= 1
  }

  /** How a token is refused: empty, for its step, else for the range or the value in its body. */
  lemma RefusalIsExact(token: string, body: string, step: Option<string>, lo: nat, hi: nat)
    requires Parts(token, body, step)
    ensures var r := ParseToken(token, lo, hi);
      && (r == Err(EmptyToken) <==> token == "")
      && (r == Err(BadStep) <==> !StepFits(step))
      && (r == Err(BadRange) <==> token != "" && r.Err? && StepFits(step) && '-' in body)
      && (r == Err(BadValue) <==> token != "" && r.Err? && StepFits(step) && '-' !in body)
  {
    hide NumberOf, Split;
    if step.Some? {
      assert token == body + ['/'] + step.value;
      SplitOnce(body, '/', step.value);
    } else {
      assert token == body;
    }
  }

  /** The first token that is refused decides how its field is refused. */
  lemma {:induction false} FirstProblem(tokens: seq<string>, lo: nat, hi: nat)
    ensures ParseTokens(tokens, lo, hi).Err? ==>
      exists i :: 0 <= i < |tokens| && ParseToken(tokens[i], lo, hi) == ParseTokens(tokens, lo, hi)
        && forall j :: 0 <= j < i ==> ParseToken(tokens[j], lo, hi).Ok?
    decreases |tokens|
  {
    hide ParseToken;
    if tokens != [] {
      var front := tokens[..|tokens| - 1];
      FirstProblem(front, lo, hi);
      TokensMeaning(front, lo, hi);
      assert forall i :: 0 <= i < |front| ==> front[i] == tokens[i] && front[i] in front;
    }
  }

  lemma {:induction false} TokensMeaning(tokens: seq<string>, lo: nat, hi: nat)
    ensures ParseTokens(tokens, lo, hi).Ok? <==> forall t :: t in tokens ==> ParseToken(t, lo, hi).Ok?
    ensures ParseTokens(tokens, lo, hi).Ok? ==>
      forall n: nat :: n in ParseTokens(tokens, lo, hi).value <==>
        exists t :: t in tokens && n in ParseToken(t, lo, hi).value
    decreases |tokens|
  {
    hide ParseToken;
    if tokens != [] {
      var front, last := tokens[..|tokens| - 1], tokens[|tokens| - 1];
      assert tokens == front + [last];
      TokensMeaning(front, lo, hi);
    }
  }

  function Shows(items: seq<Item>): seq<string> {
    seq(|items|, i requires 0 <= i < |items| => Show(items[i]))
  }

  predicate ListFits(items: seq<Item>, lo: nat, hi: nat) {
    items != [] && forall item :: item in items ==> ItemFits(item, lo, hi)
  }

  ghost predicate ListHolds(items: seq<Item>, n: nat, lo: nat, hi: nat)
    requires ListFits(items, lo, hi)
  {
    exists item :: item in items && Holds(item, n, lo, hi)
  }

  /** A comma-separated list of well-formed items means the union of its items. */
  lemma ListIsRead(items: seq<Item>, lo: nat, hi: nat)
    requires ListFits(items, lo, hi)
    ensures var r := ParseTokens(Tokens(Join(Shows(items), ',')), lo, hi);
      r.Ok? && forall n: nat :: n in r.value <==> ListHolds(items, n, lo, hi)
  {
    hide ParseToken, ParseTokens, Show, ItemFits, Holds, Split, Join;
    var tokens := Shows(items);
    forall t | t in tokens
      ensures ',' !in t && ParseToken(t, lo, hi).Ok?
      ensures exists item :: item in items && Show(item) == t
    {
      var i :| 0 <= i < |tokens| && tokens[i] == t;
      assert items[i] in items;
      ItemIsRead(items[i], lo, hi);
    }
    JoinLength(tokens, ',');
    SplitOfJoin(tokens, ',', |Join(tokens, ',')|);
    TokensMeaning(tokens, lo, hi);
    var r := ParseTokens(tokens, lo, hi);
    forall n: nat ensures n in r.value <==> ListHolds(items, n, lo, hi) {
      if n in r.value {
        var t :| t in tokens && n in ParseToken(t, lo, hi).value;
        var item :| item in items && Show(item) == t;
        ItemIsRead(item, lo, hi);
      }
      if ListHolds(items, n, lo, hi) {
        var item :| item in items && Holds(item, n, lo, hi);
        var i :| 0 <= i < |items| && items[i] == item;
        ItemIsRead(item, lo, hi);
        assert tokens[i] in tokens;
      }
    }
  }

  lemma {:induction false} TokensWereWritten(tokens: seq<string>, lo: nat, hi: nat) returns (items: seq<Item>)
    requires ParseTokens(tokens, lo, hi).Ok?
    ensures Shows(items) == tokens && forall item :: item in items ==> ItemFits(item, lo, hi)
    decreases |tokens|
  {
    hide ParseToken, Show, ItemFits;
    if tokens == [] {
      items := [];
    } else {
      var front, last := tokens[..|tokens| - 1], tokens[|tokens| - 1];
      var before := TokensWereWritten(front, lo, hi);
      var item := ItemWasWritten(last, lo, hi);
      items := before + [item];
      assert tokens == front + [last];
      assert Shows(items) == Shows(before) + [Show(item)];
    }
  }

  /** A field is accepted exactly when it spells a list of well-formed items, and means their union. */
  lemma ParseFieldIsExact(part: string, lo: nat, hi: nat)
    ensures var r := ParseTokens(Tokens(part), lo, hi);
      && (r.Ok? <==> exists items :: ListFits(items, lo, hi) && Join(Shows(items), ',') == part)
      && forall items, n: nat :: ListFits(items, lo, hi) && Join(Shows(items), ',') == part ==>
           (n in r.value <==> ListHolds(items, n, lo, hi))
  {
    hide ParseTokens, ListHolds;
    var tokens := Tokens(part);
    var r := ParseTokens(tokens, lo, hi);
    if r.Ok? {
      var items := TokensWereWritten(tokens, lo, hi);
      JoinOfSplit(part, ',', |part|);
      assert ListFits(items, lo, hi) && Join(Shows(items), ',') == part;
    }
    forall items | ListFits(items, lo, hi) && Join(Shows(items), ',') == part
      ensures r.Ok? && forall n: nat :: n in r.value <==> ListHolds(items, n, lo, hi)
    {
      ListIsRead(items, lo, hi);
    }
  }

  // ----- The five fields -----

  datatype Fields = Fields(minutes: set<nat>, hours: set<nat>, doms: set<nat>, months: set<nat>, dows: set<nat>)

  function Lo(column: nat): nat {
    if column < 2 then 0 else if column < 4 then 1 else 0
  }

  function Hi(column: nat): (hi: nat)
    ensures Lo(column) <= hi
  {
    match column
    case 0 => 59
    case 1 => 23
    case 2 => 31
    case 3 => 12
    case _ => 7
  }

  function ParseColumns(words: seq<string>): (r: Result<seq<set<nat>>, Problem>)
    ensures r.Ok? ==> |r.value| == |words|
  {
    if words == [] then Ok([]) else
      var k := |words| - 1;
      var front := ParseColumns(words[..k]);
      if front.Err? then front else
        var last := ParseTokens(Tokens(words[k]), Lo(k), Hi(k));
        if last.Err? then Err(last.error) else Ok(front.value + [last.value])
  }

  /** Sunday is stored as 0 whether it was written 0 or 7. */
  function SundayIsZero(dow: set<nat>): set<nat> {
    set value | value in dow :: if value == 7 then 0 else value
  }

  function FieldsOf(expression: string): Result<Fields, Problem> {
    var words := Words(expression);
    if |words| != 5 then Err(FieldCount) else
      var columns := ParseColumns(words);
      if columns.Err? then Err(columns.error) else
        var c := columns.value;
        Ok(Fields(c[0], c[1], c[2], c[3], SundayIsZero(c[4])))
  }

  lemma {:induction false} EarlierColumnErrorStays(words: seq<string>, k: nat)
    requires k <= |words| && ParseColumns(words[..k]).Err?
    ensures ParseColumns(words) == ParseColumns(words[..k])
  {
    if k == |words| {
      assert words[..k] == words;
    } else {
      assert words[..|words| - 1][..k] == words[..k];
      EarlierColumnErrorStays(words[..|words| - 1], k);
    }
  }

  /** `_parse_expression`. */
  method ParseExpression(expression: string) returns (fields: Result<Fields, Problem>)
    ensures fields == FieldsOf(expression)
  {
    hide ParseTokens, Tokens, Words;
    var parts := Words(expression);
    if |parts| != 5 {
      return Err(FieldCount);
    }
    var parsed: seq<set<nat>> := [];
    for k := 0 to 5
      invariant |parsed| == k && ParseColumns(parts[..k]) == Ok(parsed)
    {
      assert parts[..k + 1][..k] == parts[..k];
      assert parts[k] in parts;
      var values := ParseField(parts[k], Lo(k), Hi(k));
      if values.Err? {
        EarlierColumnErrorStays(parts, k + 1);
        return Err(values.error);
      }
      parsed := parsed + [values.value];
    }
    assert parts[..5] == parts;
    return Ok(Fields(parsed[0], parsed[1], parsed[2], parsed[3], SundayIsZero(parsed[4])));
  }

  predicate Within(values: set<nat>, lo: nat, hi: nat) {
    values != {} && forall n :: n in values ==> lo <= n <= hi
  }

  /** What the parser guarantees to the search. */
  predicate Plausible(f: Fields) {
    && Within(f.minutes, 0, 59) && Within(f.hours, 0, 23)
    && Within(f.doms, 1, 31) && Within(f.months, 1, 12) && Within(f.dows, 0, 6)
  }

  lemma FieldIsWithinBounds(part: string, lo: nat, hi: nat)
    requires lo <= hi && ParseTokens(Tokens(part), lo, hi).Ok?
    ensures Within(ParseTokens(Tokens(part), lo, hi).value, lo, hi)
  {
    hide ParseTokens, ParseToken, Split;
    var tokens := Tokens(part);
    TokensMeaning(tokens, lo, hi);
    var values := ParseTokens(tokens, lo, hi).value;
    forall n | n in values ensures lo <= n <= hi {
      var t :| t in tokens && n in ParseToken(t, lo, hi).value;
      TokenIsWithinBounds(t, lo, hi);
    }
    var t := tokens[0];
    assert t in tokens;
    TokenIsWithinBounds(t, lo, hi);
    var n :| n in ParseToken(t, lo, hi).value;
    assert n in values;
  }

  lemma {:induction false} ColumnMeaning(words: seq<string>, k: nat)
    requires k < |words|
    ensures ParseColumns(words).Ok? ==>
      var column := ParseTokens(Tokens(words[k]), Lo(k), Hi(k));
      column.Ok? && ParseColumns(words).value[k] == column.value && Within(column.value, Lo(k), Hi(k))
  {
    hide ParseTokens, Tokens, Within;
    if ParseColumns(words).Err? {
      return;
    }
    if k == |words| - 1 {
      FieldIsWithinBounds(words[k], Lo(k), Hi(k));
    } else {
      ColumnMeaning(words[..|words| - 1], k);
    }
  }

  /** Every accepted expression yields non-empty fields within their bounds, Sunday being 0 only. */
  lemma ParsedIsPlausible(expression: string)
    requires FieldsOf(expression).Ok?
    ensures Plausible(FieldsOf(expression).value)
    ensures var dow := ParseTokens(Tokens(Words(expression)[4]), 0, 7);
      && dow.Ok?
      && forall n: nat :: n < 7 ==>
           (n in FieldsOf(expression).value.dows <==> n in dow.value || (n == 0 && 7 in dow.value))
  {
    hide ParseTokens, Tokens, ParseColumns, Words;
    var words := Words(expression);
    forall k: nat | k < 5
      ensures var column := ParseTokens(Tokens(words[k]), Lo(k), Hi(k));
        column.Ok? && ParseColumns(words).value[k] == column.value && Within(column.value, Lo(k), Hi(k))
    {
      ColumnMeaning(words, k);
    }
    var c := ParseColumns(words).value;
    assert Within(c[0], 0, 59) && Within(c[1], 0, 23) && Within(c[2], 1, 31) && Within(c[3], 1, 12);
    var dow := c[4];
    assert Within(dow, 0, 7);
    var n :| n in dow;
    assert (if n == 7 then 0 else n) in SundayIsZero(dow);
  }

  /** The `k`-th word is refused, and no earlier one. */
  predicate FirstBad(words: seq<string>, k: nat, problem: Problem) {
    && k < |words| && ParseTokens(Tokens(words[k]), Lo(k), Hi(k)) == Err(problem)
    && forall j: nat :: j < k ==> ParseTokens(Tokens(words[j]), Lo(j), Hi(j)).Ok?
  }

  lemma {:induction false} FirstBadColumn(words: seq<string>)
    ensures ParseColumns(words).Err? ==> exists k: nat :: FirstBad(words, k, ParseColumns(words).error)
    ensures ParseColumns(words).Ok? ==> forall j: nat :: j < |words| ==> ParseTokens(Tokens(words[j]), Lo(j), Hi(j)).Ok?
  {
    hide ParseTokens, Tokens;
    if words != [] {
      var k, front := |words| - 1, words[..|words| - 1];
      FirstBadColumn(front);
      assert forall j: nat :: j < |front| ==> front[j] == words[j];
      if ParseColumns(front).Err? {
        var i: nat :| FirstBad(front, i, ParseColumns(front).error);
        assert FirstBad(words, i, ParseColumns(words).error);
      } else if ParseColumns(words).Err? {
        assert FirstBad(words, k, ParseColumns(words).error);
      }
    }
  }

  /** An expression is refused for the number of its words, or else as its first bad column is. */
  lemma ExpressionRefusalIsExact(expression: string)
    requires FieldsOf(expression).Err?
    ensures |Words(expression)| != 5 ==> FieldsOf(expression) == Err(FieldCount)
    ensures |Words(expression)| == 5 ==>
      exists k: nat :: FirstBad(Words(expression), k, FieldsOf(expression).error)
  {
    hide ParseTokens, Tokens, Words, FirstBad;
    if |Words(expression)| == 5 {
      FirstBadColumn(Words(expression));
    }
  }
}
