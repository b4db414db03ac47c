/** Drift between two runs: what the reported entries are enough for, and what normalising removes. */
module ReplayDiff {
  import opened Text

  // ----- Normalising -----

  /** JSON-like values; an atom is anything that is neither `None` nor a mapping nor a list. */
  datatype Value = Null | Object(members: map<string, Value>) | List(items: seq<Value>) | Atom(text: string)

  /** `_TIMESTAMP_KEYS`. */
  const TIMESTAMP_KEYS: set<string> :=
    {"timestamp", "ts", "time", "datetime", "created_at", "updated_at", "recorded_at"}

  /** `_strip_timestamps`; `fold` is the host language's case folding. */
  function StripTimestamps(v: Value, fold: string -> string): Value {
    match v
    case Object(members) =>
      Object(map k | k in members && fold(k) !in TIMESTAMP_KEYS :: StripTimestamps(members[k], fold))
    case List(items) => List(seq(|items|, i requires 0 <= i < |items| => StripTimestamps(items[i], fold)))
    case _ => v
  }

  /** Whether a key that names a timestamp is left anywhere inside. */
  predicate MentionsTimestamp(v: Value, fold: string -> string) {
    match v
    case Object(members) =>
      exists k :: k in members && (fold(k) in TIMESTAMP_KEYS || MentionsTimestamp(members[k], fold))
    case List(items) => exists i :: 0 <= i < |items| && MentionsTimestamp(items[i], fold)
    case _ => false
  }

  /** Nothing that names a timestamp is left at any depth, and a value without any is left alone. */
  lemma {:induction false} StrippedAtEveryDepth(v: Value, fold: string -> string)
    ensures !MentionsTimestamp(StripTimestamps(v, fold), fold)
    ensures !MentionsTimestamp(v, fold) <==> StripTimestamps(v, fold) == v
  {
    match v
    case Object(members) =>
      forall k | k in members
        ensures !MentionsTimestamp(StripTimestamps(members[k], fold), fold)
        ensures !MentionsTimestamp(members[k], fold) <==> StripTimestamps(members[k], fold) == members[k]
      {
        StrippedAtEveryDepth(members[k], fold);
      }
    case List(items) =>
      forall i | 0 <= i < |items|
        ensures !MentionsTimestamp(StripTimestamps(items[i], fold), fold)
        ensures !MentionsTimestamp(items[i], fold) <==> StripTimestamps(items[i], fold) == items[i]
      {
        StrippedAtEveryDepth(items[i], fold);
      }
    case _ =>
  }

  // ----- What normalising keeps, place by place -----

  datatype Step = Key(key: string) | Index(index: nat)

  datatype Shape = IsNull | IsObject | IsList(length: nat) | IsAtom(text: string)

  function ShapeOf(v: Value): Shape {
    match v
    case Null => IsNull
    case Object(_) => IsObject
    case List(items) => IsList(|items|)
    case Atom(text) => IsAtom(text)
  }

  /** What stands at a place, reached by keys and indices. */
  function ShapeAt(v: Value, path: seq<Step>): Option<Shape>
    decreases |path|
  {
    if path == [] then Some(ShapeOf(v))
    else
      match path[0]
      case Key(k) => if v.Object? && k in v.members then ShapeAt(v.members[k], path[1..]) else None
      case Index(i) => if v.List? && i < |v.items| then ShapeAt(v.items[i], path[1..]) else None
  }

  predicate NamesTime(key: string, fold: string -> string) {
    fold(key) in {"timestamp", "ts", "time", "datetime", "created_at", "updated_at", "recorded_at"}
  }

  /** No key on the way names a timestamp. */
  predicate Timeless(path: seq<Step>, fold: string -> string) {
    forall i :: 0 <= i < |path| && path[i].Key? ==> !NamesTime(path[i].key, fold)
  }

  /** Normalising leaves everything in its place, except what lies under a key that names a timestamp. */
  lemma {:induction false} StrippedByPlace(v: Value, path: seq<Step>, fold: string -> string)
    ensures ShapeAt(StripTimestamps(v, fold), path) == if Timeless(path, fold) then ShapeAt(v, path) else None
    decreases |path|
  {
    if path != [] {
      var rest := path[1..];
      TimelessRest(path, fold);
      match path[0]
      case Key(k) =>
        if v.Object? && k in v.members {
          StrippedByPlace(v.members[k], rest, fold);
        }
      case Index(i) =>
        if v.List? && i < |v.items| {
          StrippedByPlace(v.items[i], rest, fold);
        }
        if v.Object? || v.List? { assert StripTimestamps(v, fold).List? <==> v.List?; }
    }
  }

  lemma TimelessRest(path: seq<Step>, fold: string -> string)
    requires path != []
    ensures Timeless(path, fold) <==>
      (path[0].Key? ==> !NamesTime(path[0].key, fold)) && Timeless(path[1..], fold)
  {
    if (path[0].Key? ==> !NamesTime(path[0].key, fold)) && Timeless(path[1..], fold) {
      assert forall i :: 0 < i < |path| ==> path[i] == path[1..][i - 1];
    }
    assert forall i :: 0 <= i < |path| - 1 ==> path[1..][i] == path[i + 1];
  }

  ghost predicate SamePlaces(v: Value, w: Value) {
    forall path :: ShapeAt(v, path) == ShapeAt(w, path)
  }

  lemma KeyIsThere(v: Value, key: string)
    ensures v.Object? ==> (ShapeAt(v, [Key(key)]).Some? <==> key in v.members)
  {
    assert [Key(key)][1..] == [];
    assert forall w: Value :: ShapeAt(w, []) == Some(ShapeOf(w));
  }

  lemma SamePlacesAtKey(v: Value, w: Value, key: string)
    requires v.Object? && w.Object? && SamePlaces(v, w)
    ensures key in v.members <==> key in w.members
    ensures key in v.members ==> SamePlaces(v.members[key], w.members[key])
  {
    assert ShapeAt(v, [Key(key)]) == ShapeAt(w, [Key(key)]);
    KeyIsThere(v, key);
    KeyIsThere(w, key);
    forall path | key in v.members && key in w.members
      ensures ShapeAt(v.members[key], path) == ShapeAt(w.members[key], path)
    {
      assert ([Key(key)] + path)[1..] == path;
      assert ShapeAt(v, [Key(key)] + path) == ShapeAt(w, [Key(key)] + path);
    }
  }

  lemma SamePlacesAtIndex(v: Value, w: Value, i: nat)
    requires v.List? && w.List? && SamePlaces(v, w) && i < |v.items| && i < |w.items|
    ensures SamePlaces(v.items[i], w.items[i])
  {
    forall path ensures ShapeAt(v.items[i], path) == ShapeAt(w.items[i], path) {
      assert ([Index(i)] + path)[1..] == path;
      assert ShapeAt(v, [Index(i)] + path) == ShapeAt(w, [Index(i)] + path);
    }
  }

  /** A value is what stands at its places. */
  lemma {:induction false} PlacesDetermine(v: Value, w: Value)
    requires SamePlaces(v, w)
    ensures v == w
    decreases v
  {
    hide SamePlaces;
    assert ShapeOf(v) == ShapeOf(w) by { SameAtTop(v, w); }
    match v
    case Object(members) =>
      forall k ensures k in members <==> k in w.members { SamePlacesAtKey(v, w, k); }
      forall k | k in members ensures members[k] == w.members[k] {
        SamePlacesAtKey(v, w, k);
        PlacesDetermine(members[k], w.members[k]);
      }
    case List(items) =>
      forall i: nat | i < |items| ensures items[i] == w.items[i] {
        SamePlacesAtIndex(v, w, i);
        PlacesDetermine(items[i], w.items[i]);
      }
    case _ =>
  }

  lemma SameAtTop(v: Value, w: Value)
    requires SamePlaces(v, w)
    ensures ShapeOf(v) == ShapeOf(w)
  {
    assert ShapeAt(v, []) == ShapeAt(w, []);
  }

  ghost predicate SameTimelessPlaces(v: Value, w: Value, fold: string -> string) {
    forall path :: Timeless(path, fold) ==> ShapeAt(v, path) == ShapeAt(w, path)
  }

  /** Stripping makes two values equal exactly when they differ in nothing but what lies under timestamps. */
  lemma StrippedEqualIff(v: Value, w: Value, fold: string -> string)
    ensures StripTimestamps(v, fold) == StripTimestamps(w, fold) <==> SameTimelessPlaces(v, w, fold)
  {
    hide StripTimestamps, Timeless, ShapeAt;
    var a, b := StripTimestamps(v, fold), StripTimestamps(w, fold);
    forall path ensures ShapeAt(a, path) == if Timeless(path, fold) then ShapeAt(v, path) else None {
      StrippedByPlace(v, path, fold);
    }
    forall path ensures ShapeAt(b, path) == if Timeless(path, fold) then ShapeAt(w, path) else None {
      StrippedByPlace(w, path, fold);
    }
    if SameTimelessPlaces(v, w, fold) {
      assert SamePlaces(a, b);
      PlacesDetermine(a, b);
    }
  }

  /** Normalising twice is normalising once. */
  lemma StripIsIdempotent(v: Value, fold: string -> string)
    ensures StripTimestamps(StripTimestamps(v, fold), fold) == StripTimestamps(v, fold)
  {
    StrippedAtEveryDepth(v, fold);
    StrippedAtEveryDepth(StripTimestamps(v, fold), fold);
  }

  /** A normalised event. */
  datatype Event = Event(eventType: string, state: string, payload: Value)

  datatype Side = Left | Right

  datatype Refusal =
    | NotASequence(side: Side)
    | NotAnEvent(side: Side, index: nat)
    | PayloadNoMapping(side: Side, index: nat)

  /** The host language's case folding and `str`. */
  datatype Host = Host(fold: string -> string, show: Value -> string)

  /** `str(mapping.get(key, ""))`. */
  function TextAt(members: map<string, Value>, key: string, host: Host): string {
    if key in members then host.show(members[key]) else ""
  }

  /** The payload that is compared: a missing one and `None` count as empty. */
  function PayloadOf(members: map<string, Value>): Value {
    if "payload" !in members || members["payload"].Null? then Object(map[]) else members["payload"]
  }

  predicate IsEvent(v: Value) {
    v.Object? && PayloadOf(v.members).Object?
  }

  /** `_normalize_event` on an event that it does not refuse. */
  function NormalEvent(v: Value, host: Host): Event
    requires IsEvent(v)
  {
    Event(TextAt(v.members, "event_type", host), TextAt(v.members, "state", host),
          StripTimestamps(PayloadOf(v.members), host.fold))
  }

  /** The normalised events, or the refusal of the first one that is none. */
  function Normalized(items: seq<Value>, side: Side, host: Host): (r: Result<seq<Event>, Refusal>)
    ensures r.Ok? <==> forall i :: 0 <= i < |items| ==> IsEvent(items[i])
    ensures r.Ok? ==> |r.value| == |items| && forall i :: 0 <= i < |items| ==> r.value[i] == NormalEvent(items[i], host)
  {
    if items == [] then Ok([]) else
      var k := |items| - 1;
      var front := Normalized(items[..k], side, host);
      if front.Err? then front
      else if !items[k].Object? then Err(NotAnEvent(side, k))
      else if !PayloadOf(items[k].members).Object? then Err(PayloadNoMapping(side, k))
      else Ok(front.value + [NormalEvent(items[k], host)])
  }

  // ----- The diff -----

  datatype Entry =
    | Changed(index: nat, left: Event, right: Event)
    | Removed(index: nat, left: Event)
    | Added(index: nat, right: Event)

  datatype Drift = Drift(equal: bool, leftCount: nat, rightCount: nat, added: seq<nat>, removed: seq<nat>,
                         changed: seq<nat>, entries: seq<Entry>)

  function Shared(left: seq<Event>, right: seq<Event>): nat {
    if |left| <= |right| then |left| else |right|
  }

  function ChangedUpTo(left: seq<Event>, right: seq<Event>, n: nat): seq<Entry>
    requires n <= Shared(left, right)
  {
    if n == 0 then [] else
      ChangedUpTo(left, right, n - 1)
      + if left[n - 1] != right[n - 1] then [Changed(n - 1, left[n - 1], right[n - 1])] else []
  }

  function RemovedUpTo(left: seq<Event>, from: nat, n: nat): seq<Entry>
    requires from <= n <= |left|
  {
    if n == from then [] else RemovedUpTo(left, from, n - 1) + [Removed(n - 1, left[n - 1])]
  }

  function AddedUpTo(right: seq<Event>, from: nat, n: nat): seq<Entry>
    requires from <= n <= |right|
  {
    if n == from then [] else AddedUpTo(right, from, n - 1) + [Added(n - 1, right[n - 1])]
  }

  function Entries(left: seq<Event>, right: seq<Event>): seq<Entry> {
    var shared := Shared(left, right);
    ChangedUpTo(left, right, shared) + RemovedUpTo(left, shared, |left|) + AddedUpTo(right, shared, |right|)
  }

  function Indices(entries: seq<Entry>): seq<nat> {
    seq(|entries|, i requires 0 <= i < |entries| => entries[i].index)
  }

  /** `diff` on normalised events. */
  method Diff(left: seq<Event>, right: seq<Event>) returns (drift: Drift)
    ensures drift.entries == Entries(left, right) && drift.equal == (drift.entries == [])
    ensures drift.leftCount == |left| && drift.rightCount == |right|
    ensures drift.changed == Indices(ChangedUpTo(left, right, Shared(left, right)))
    ensures drift.removed == Indices(RemovedUpTo(left, Shared(left, right), |left|))
    ensures drift.added == Indices(AddedUpTo(right, Shared(left, right), |right|))
  {
    var shared := Shared(left, right);
    var entries: seq<Entry> := [];
    var added: seq<nat>, removed: seq<nat>, changed: seq<nat> := [], [], [];
    for index := 0 to shared
      invariant entries == ChangedUpTo(left, right, index) && changed == Indices(entries)
    {
      if left[index] != right[index] {
        changed := changed + [index];
        entries := entries + [Changed(index, left[index], right[index])];
      }
    }
    ghost var first := entries;
    for index := shared to |left|
      invariant entries == first + RemovedUpTo(left, shared, index)
      invariant removed == Indices(RemovedUpTo(left, shared, index))
    {
      removed := removed + [index];
      entries := entries + [Removed(index, left[index])];
    }
    ghost var second := entries;
    for index := shared to |right|
      invariant entries == second + AddedUpTo(right, shared, index)
      invariant added == Indices(AddedUpTo(right, shared, index))
    {
      added := added + [index];
      entries := entries + [Added(index, right[index])];
    }
    drift := Drift(entries == [], |left|, |right|, added, removed, changed, entries);
  }

  // ----- What the entries are enough for -----

  /** One entry applied to the run it was reported against. */
  function Patch(run: seq<Event>, e: Entry): seq<Event> {
    match e
    case Changed(i, _, r) => if i < |run| then run[i := r] else run
    case Removed(i, _) => if i < |run| then run[..i] else run
    case Added(_, r) => run + [r]
  }

  function PatchAll(run: seq<Event>, entries: seq<Entry>): seq<Event> {
    if entries == [] then run else Patch(PatchAll(run, entries[..|entries| - 1]), entries[|entries| - 1])
  }

  /** The entries as the diff in the other direction reports them. */
  function Mirrored(entries: seq<Entry>): seq<Entry> {
    seq(|entries|, i requires 0 <= i < |entries| =>
      match entries[i]
      case Changed(k, l, r) => Changed(k, r, l)
      case Removed(k, l) => Added(k, l)
      case Added(k, r) => Removed(k, r))
  }

  lemma {:induction false} PatchInTwoParts(run: seq<Event>, a: seq<Entry>, b: seq<Entry>)
    ensures PatchAll(run, a + b) == PatchAll(PatchAll(run, a), b)
    decreases |b|
  {
    if b == [] {
      assert a + b == a;
    } else {
      assert (a + b)[..|a + b| - 1] == a + b[..|b| - 1];
      PatchInTwoParts(run, a, b[..|b| - 1]);
    }
  }

  /** The left run with its first `n` events replaced by those of the right one. */
  function Replaced(left: seq<Event>, right: seq<Event>, n: nat): seq<Event>
    requires n <= Shared(left, right)
  {
    right[..n] + left[n..]
  }

  lemma {:induction false} PatchChanged(left: seq<Event>, right: seq<Event>, n: nat)
    requires n <= Shared(left, right)
    ensures PatchAll(left, ChangedUpTo(left, right, n)) == Replaced(left, right, n)
  {
    hide PatchAll, Replaced, Patch;
    if n > 0 {
      PatchChanged(left, right, n - 1);
      NextReplaced(left, right, n);
      var before := ChangedUpTo(left, right, n - 1);
      PatchOneMore(left, before, Changed(n - 1, left[n - 1], right[n - 1]));
      assert before + [] == before;
    } else {
      PatchNothing(left, right);
    }
  }

  lemma PatchNothing(left: seq<Event>, right: seq<Event>)
    ensures PatchAll(left, []) == left == Replaced(left, right, 0)
  {}

  lemma PatchOneMore(run: seq<Event>, entries: seq<Entry>, e: Entry)
    ensures PatchAll(run, entries + [e]) == Patch(PatchAll(run, entries), e)
  {
    assert (entries + [e])[..|entries|] == entries;
  }

  lemma NextReplaced(left: seq<Event>, right: seq<Event>, n: nat)
    requires 0 < n <= Shared(left, right)
    ensures Replaced(left, right, n)
      == if left[n - 1] != right[n - 1]
         then Patch(Replaced(left, right, n - 1), Changed(n - 1, left[n - 1], right[n - 1]))
         else Replaced(left, right, n - 1)
  {}

  lemma {:induction false} PatchRemoved(run: seq<Event>, left: seq<Event>, from: nat, n: nat)
    requires from <= n <= |left| == |run|
    ensures PatchAll(run, RemovedUpTo(left, from, n)) == if from < n then run[..from] else run
  {
    if from < n {
      PatchRemoved(run, left, from, n - 1);
    }
  }

  lemma {:induction false} PatchAdded(run: seq<Event>, right: seq<Event>, from: nat, n: nat)
    requires from <= n <= |right| && run == right[..from]
    ensures PatchAll(run, AddedUpTo(right, from, n)) == right[..n]
  {
    if from < n {
      PatchAdded(run, right, from, n - 1);
    }
  }

  /** The left run and the entries determine the right run. */
  lemma EntriesRebuildRight(left: seq<Event>, right: seq<Event>)
    ensures PatchAll(left, Entries(left, right)) == right
  {
    hide PatchAll, ChangedUpTo, RemovedUpTo, AddedUpTo;
    var shared := Shared(left, right);
    var changed, removed, added :=
      ChangedUpTo(left, right, shared), RemovedUpTo(left, shared, |left|), AddedUpTo(right, shared, |right|);
    PatchChanged(left, right, shared);
    PatchInTwoParts(left, changed + removed, added);
    PatchInTwoParts(left, changed, removed);
    var run := right[..shared] + left[shared..];
    PatchRemoved(run, left, shared, |left|);
    assert (if shared < |left| then run[..shared] else run) == right[..shared];
    PatchAdded(right[..shared], right, shared, |right|);
  }

  /** Runs are reported equal exactly when they are equal once normalised. */
  lemma EqualIffNoDrift(left: seq<Event>, right: seq<Event>)
    ensures Entries(left, right) == [] <==> left == right
  {
    if Entries(left, right) == [] {
      EntriesRebuildRight(left, right);
    }
    if left == right {
      NoneChanged(left, right, |left|);
    }
  }

  lemma {:induction false} NoneChanged(left: seq<Event>, right: seq<Event>, n: nat)
    requires n <= Shared(left, right) && left == right
    ensures ChangedUpTo(left, right, n) == []
  {
    if n > 0 {
      NoneChanged(left, right, n - 1);
    }
  }

  lemma {:induction false} ChangedAre(left: seq<Event>, right: seq<Event>, n: nat, e: Entry)
    requires n <= Shared(left, right)
    ensures e in ChangedUpTo(left, right, n)
      <==> e.Changed? && e.index < n && e.left == left[e.index] && e.right == right[e.index] && e.left != e.right
  {
    if n > 0 {
      ChangedAre(left, right, n - 1, e);
    }
  }

  lemma {:induction false} TailsAre(run: seq<Event>, from: nat, n: nat, e: Entry)
    requires from <= n <= |run|
    ensures e in RemovedUpTo(run, from, n) <==> e.Removed? && from <= e.index < n && e.left == run[e.index]
    ensures e in AddedUpTo(run, from, n) <==> e.Added? && from <= e.index < n && e.right == run[e.index]
  {
    if from < n {
      TailsAre(run, from, n - 1, e);
    }
  }

  /** Reported are exactly the positions where both runs have events and differ, and those where only one has any. */
  lemma DriftIsExact(left: seq<Event>, right: seq<Event>, e: Entry)
    ensures e in Entries(left, right) <==>
      match e
      case Changed(i, l, r) => i < |left| && i < |right| && l == left[i] && r == right[i] && l != r
      case Removed(i, l) => |right| <= i < |left| && l == left[i]
      case Added(i, r) => |left| <= i < |right| && r == right[i]
  {
    hide ChangedUpTo, RemovedUpTo, AddedUpTo;
    var shared := Shared(left, right);
    ChangedAre(left, right, shared, e);
    TailsAre(left, shared, |left|, e);
    TailsAre(right, shared, |right|, e);
  }

  lemma {:induction false} MirrorParts(left: seq<Event>, right: seq<Event>, n: nat)
    requires n <= Shared(left, right)
    ensures Mirrored(ChangedUpTo(left, right, n)) == ChangedUpTo(right, left, n)
  {
    if n > 0 {
      MirrorParts(left, right, n - 1);
    }
  }

  lemma {:induction false} MirrorTail(run: seq<Event>, from: nat, n: nat)
    requires from <= n <= |run|
    ensures Mirrored(RemovedUpTo(run, from, n)) == AddedUpTo(run, from, n)
    ensures Mirrored(AddedUpTo(run, from, n)) == RemovedUpTo(run, from, n)
  {
    if from < n {
      MirrorTail(run, from, n - 1);
    }
  }

  /** Swapping the runs mirrors the entries, so the entries undo what they describe. */
  lemma SwappingMirrors(left: seq<Event>, right: seq<Event>)
    ensures Entries(right, left) == Mirrored(Entries(left, right))
    ensures PatchAll(right, Mirrored(Entries(left, right))) == left
  {
    hide PatchAll, ChangedUpTo, RemovedUpTo, AddedUpTo;
    var shared := Shared(left, right);
    MirrorParts(left, right, shared);
    MirrorTail(left, shared, |left|);
    MirrorTail(right, shared, |right|);
    EmptyTails(left, right);
    EntriesRebuildRight(right, left);
  }

  lemma EmptyTails(left: seq<Event>, right: seq<Event>)
    ensures var shared := Shared(left, right);
      && (|left| <= |right| ==> RemovedUpTo(left, shared, |left|) == [])
      && (|right| <= |left| ==> AddedUpTo(right, shared, |right|) == [])
  {}

  // ----- Raw runs -----

  /** `diff`: the left run is checked and normalised before the right one. */
  method DiffRuns(left: Value, right: Value, host: Host) returns (r: Result<Drift, Refusal>)
    ensures !left.List? ==> r == Err(NotASequence(Left))
    ensures left.List? && !right.List? ==> r == Err(NotASequence(Right))
    ensures left.List? && right.List? ==>
      var l, n := Normalized(left.items, Left, host), Normalized(right.items, Right, host);
      if l.Err? then r == Err(l.error)
      else if n.Err? then r == Err(n.error)
      else r.Ok? && r.value.entries == Entries(l.value, n.value) && r.value.equal == (r.value.entries == [])
  {
    if !left.List? {
      return Err(NotASequence(Left));
    }
    if !right.List? {
      return Err(NotASequence(Right));
    }
    var l := Normalized(left.items, Left, host);
    if l.Err? {
      return Err(l.error);
    }
    var n := Normalized(right.items, Right, host);
    if n.Err? {
      return Err(n.error);
    }
    var drift := Diff(l.value, n.value);
    return Ok(drift);
  }

  /** The text under a key, where nothing stands for the empty text. */
  predicate SameText(a: map<string, Value>, b: map<string, Value>, key: string, host: Host) {
    (if key in a then host.show(a[key]) else "") == (if key in b then host.show(b[key]) else "")
  }

  /** The payload as it was recorded, where no payload and `None` stand for an empty one. */
  predicate HasPayload(v: map<string, Value>, payload: Value) {
    if "payload" in v && !v["payload"].Null? then payload == v["payload"] else payload == Object(map[])
  }

  /** Two raw events that differ in nothing but what lies under timestamps in the payload and in fields that are not
      compared. */
  ghost predicate SameButForTime(a: Value, b: Value, host: Host)
    requires a.Object? && b.Object?
  {
    && SameText(a.members, b.members, "event_type", host) && SameText(a.members, b.members, "state", host)
    && forall p, q :: HasPayload(a.members, p) && HasPayload(b.members, q) ==> SameTimelessPlaces(p, q, host.fold)
  }

  lemma NormalEventsAgree(a: Value, b: Value, host: Host)
    requires IsEvent(a) && IsEvent(b)
    ensures NormalEvent(a, host) == NormalEvent(b, host) <==> SameButForTime(a, b, host)
  {
    hide StripTimestamps, SameTimelessPlaces;
    StrippedEqualIff(PayloadOf(a.members), PayloadOf(b.members), host.fold);
    assert HasPayload(a.members, PayloadOf(a.members)) && HasPayload(b.members, PayloadOf(b.members));
  }

  /** Two raw runs are reported equal exactly when they are event for event the same but for timestamps. */
  lemma RunsAreEqualIff(left: seq<Value>, right: seq<Value>, host: Host)
    requires Normalized(left, Left, host).Ok? && Normalized(right, Right, host).Ok?
    ensures Entries(Normalized(left, Left, host).value, Normalized(right, Right, host).value) == []
      <==> |left| == |right| && forall i :: 0 <= i < |left| ==> SameButForTime(left[i], right[i], host)
  {
    hide Normalized, Entries, NormalEvent, SameButForTime;
    var l, n := Normalized(left, Left, host).value, Normalized(right, Right, host).value;
    EqualIffNoDrift(l, n);
    if |left| == |right| {
      forall i | 0 <= i < |left| ensures l[i] == n[i] <==> SameButForTime(left[i], right[i], host) {
        NormalEventsAgree(left[i], right[i], host);
      }
    }
  }

  /** A run is accepted when each item is a mapping whose payload is missing, `None` or a mapping. */
  lemma RunIsAcceptedIff(items: seq<Value>, side: Side, host: Host)
    ensures Normalized(items, side, host).Ok? <==>
      forall i :: 0 <= i < |items| ==>
        && items[i].Object?
        && ("payload" in items[i].members ==>
              items[i].members["payload"].Null? || items[i].members["payload"].Object?)
  {
    hide NormalEvent, Normalized;
  }

  /** A run is refused for its first item that is no event, or whose payload is neither missing nor a mapping. */
  lemma {:induction false} RunRefusalIsExact(items: seq<Value>, side: Side, host: Host, k: nat)
    requires k < |items| && forall i :: 0 <= i < k ==> IsEvent(items[i])
    ensures !items[k].Object? ==> Normalized(items, side, host) == Err(NotAnEvent(side, k))
    ensures items[k].Object? && "payload" in items[k].members ==>
      var payload := items[k].members["payload"];
      !payload.Null? && !payload.Object? ==> Normalized(items, side, host) == Err(PayloadNoMapping(side, k))
    decreases |items|
  {
    hide NormalEvent;
    if k < |items| - 1 {
      RunRefusalIsExact(items[..|items| - 1], side, host, k);
    }
  }
}
