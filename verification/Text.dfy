/** The string operations of the host language that the modelled code relies on. */
module Text {

  datatype Option<+T> = None | Some(value: T)

  datatype Result<+T, +E> = Ok(value: T) | Err(error: E)

  /** The code points that `str.strip` and `str.split` treat as white space. */
  predicate IsSpace(c: char) {
    || '\U{9}' <= c <= '\U{d}'
    || '\U{1c}' <= c <= ' '
    || c == '\U{85}' || c == '\U{a0}' || c == '\U{1680}'
    || '\U{2000}' <= c <= '\U{200a}'
    || c == '\U{2028}' || c == '\U{2029}' || c == '\U{202f}' || c == '\U{205f}' || c == '\U{3000}'
  }

  function LeftStrip(s: string): (r: string)
    ensures |r| <= |s| && s[|s| - |r|..] == r
    ensures r != [] ==> !IsSpace(r[0])
    ensures s != [] && !IsSpace(s[0]) ==> r == s
  {
    if s != [] && IsSpace(s[0]) then LeftStrip(s[1..]) else s
  }

  function RightStrip(s: string): (r: string)
    ensures r <= s
    ensures r != [] ==> !IsSpace(r[|r| - 1])
    ensures s != [] && !IsSpace(s[|s| - 1]) ==> r == s
  {
    if s != [] && IsSpace(s[|s| - 1]) then RightStrip(s[..|s| - 1]) else s
  }

  /** `s.strip()`. */
  function Strip(s: string): (r: string) {
    RightStrip(LeftStrip(s))
  }

  /** A string that `strip` would not change. */
  predicate Stripped(s: string) {
    s != [] ==> !IsSpace(s[0]) && !IsSpace(s[|s| - 1])
  }

  lemma StripOfStripped(s: string)
    ensures Stripped(s) ==> Strip(s) == s
  {}

  lemma {:induction false} StripIsStripped(s: string)
    ensures Stripped(Strip(s))
    ensures forall c :: c in Strip(s) ==> c in s
  {
    hide LeftStrip, RightStrip;
    var l := LeftStrip(s);
    var r := RightStrip(l);
    var from := |s| - |l|;
    assert s == s[..from] + l;
    assert r == l[..|r|];
  }

  /** The first position of `c` in `s`. */
  function IndexOf(s: string, c: char): (i: nat)
    requires c in s
    ensures i < |s| && s[i] == c && c !in s[..i]
  {
    if s[0] == c then 0 else
      var j := IndexOf(s[1..], c);
      assert s[..j + 1] == [s[0]] + s[1..][..j];
      j + 1
  }

  /** `s.split(sep, maxsplit=n)` for a one-character separator. */
  function Split(s: string, sep: char, n: nat): (parts: seq<string>)
    ensures 1 <= |parts| <= n + 1
  {
    if n == 0 || sep !in s then [s] else
      var i := IndexOf(s, sep);
      [s[..i]] + Split(s[i + 1..], sep, n - 1)
  }

  /** Splitting recovers the head that was put in front of a separator. */
  lemma SplitHead(head: string, sep: char, tail: string, n: nat)
    requires sep !in head && 0 < n
    ensures Split(head + [sep] + tail, sep, n) == [head] + Split(tail, sep, n - 1)
  {
    var s := head + [sep] + tail;
    assert s[|head|] == sep;
    var i := IndexOf(s, sep);
    assert forall k :: 0 <= k < |head| ==> s[k] == head[k] && head[k] in head;
    assert forall k :: 0 <= k < i ==> s[k] == s[..i][k];
    assert s[..i] == head && s[i + 1..] == tail;
  }

  /** Conversely the first part never holds the separator and glues back to the input. */
  lemma SplitGlue(s: string, sep: char, n: nat)
    requires 0 < n && sep in s
    ensures var i := IndexOf(s, sep);
      s == s[..i] + [sep] + s[i + 1..] && sep !in s[..i]
      && Split(s, sep, n) == [s[..i]] + Split(s[i + 1..], sep, n - 1)
  {}

  /** `sep.join(parts)` for a one-character separator. */
  function Join(parts: seq<string>, sep: char): (s: string)
    requires parts != []
  {
    if |parts| == 1 then parts[0] else parts[0] + [sep] + Join(parts[1..], sep)
  }

  lemma SplitNoMore(s: string, sep: char)
    ensures Split(s, sep, 0) == [s]
  {}

  lemma SplitNothing(s: string, sep: char, n: nat)
    ensures sep !in s ==> Split(s, sep, n) == [s]
  {}

  /** Splitting without a limit and joining are inverse to each other. */
  lemma {:induction false} SplitOfJoin(parts: seq<string>, sep: char, n: nat)
    requires parts != [] && forall part :: part in parts ==> sep !in part
    requires |parts| <= n + 1
    ensures Split(Join(parts, sep), sep, n) == parts
    decreases |parts|
  {
    hide Split;
    assert parts[0] in parts;
    if |parts| > 1 {
      var rest := parts[1..];
      assert forall part :: part in rest ==> part in parts;
      SplitHead(parts[0], sep, Join(rest, sep), n);
      SplitOfJoin(rest, sep, n - 1);
      assert parts == [parts[0]] + rest;
    } else {
      SplitNothing(parts[0], sep, n);
      assert parts == [parts[0]];
    }
  }

  lemma {:induction false} JoinOfSplit(s: string, sep: char, n: nat)
    requires |s| <= n
    ensures var parts := Split(s, sep, n);
      Join(parts, sep) == s && forall part :: part in parts ==> sep !in part
    decreases |s|
  {
    if n > 0 && sep in s {
      SplitGlue(s, sep, n);
      var i := IndexOf(s, sep);
      var rest := Split(s[i + 1..], sep, n - 1);
      JoinOfSplit(s[i + 1..], sep, n - 1);
      assert Split(s, sep, n)[1..] == rest;
    }
  }

  lemma {:induction false} JoinLength(parts: seq<string>, sep: char)
    requires parts != []
    ensures |parts| <= |Join(parts, sep)| + 1
    decreases |parts|
  {
    if |parts| > 1 {
      JoinLength(parts[1..], sep);
    }
  }

  predicate IsWord(s: string) {
    s != [] && forall c :: c in s ==> !IsSpace(c)
  }

  /** The length of the word that `s` begins with. */
  function WordLength(s: string): (n: nat)
    ensures n <= |s| && forall k :: 0 <= k < n ==> !IsSpace(s[k])
    ensures n < |s| ==> IsSpace(s[n])
  {
    if s == [] || IsSpace(s[0]) then 0 else 1 + WordLength(s[1..])
  }

  /** `s.split()`. */
  function Words(s: string): (words: seq<string>)
    ensures forall w :: w in words ==> IsWord(w)
    decreases |s|
  {
    if s == [] then []
    else if IsSpace(s[0]) then Words(s[1..])
    else
      var n := WordLength(s);
      [s[..n]] + Words(s[n..])
  }

  lemma {:induction false} WordsSkipSpace(gap: string, s: string)
    requires forall c :: c in gap ==> IsSpace(c)
    ensures Words(gap + s) == Words(s)
    decreases |gap|
  {
    if gap == [] {
      assert gap + s == s;
    } else {
      assert gap[0] in gap;
      assert (gap + s)[1..] == gap[1..] + s;
      WordsSkipSpace(gap[1..], s);
    }
  }

  /** A word followed by any white space, or by the end, is split off unchanged. */
  lemma WordsSplitOff(word: string, s: string)
    requires IsWord(word) && (s != [] ==> IsSpace(s[0]))
    ensures Words(word + s) == [word] + Words(s)
  {
    var text := word + s;
    var n := WordLength(text);
    assert text[0] == word[0] && word[0] in word;
    assert forall i :: 0 <= i < |word| ==> text[i] == word[i] && word[i] in word;
    assert s != [] ==> text[|word|] == s[0];
    assert text[..n] == word && text[n..] == s;
  }

  /** The first part of a split, and what is split further. */
  lemma FirstCut(s: string, sep: char, n: nat) returns (head: string, tail: string)
    requires sep in s && 0 < n
    ensures s == head + [sep] + tail && sep !in head
    ensures Split(s, sep, n) == [head] + Split(tail, sep, n - 1)
  {
    var i := IndexOf(s, sep);
    head, tail := s[..i], s[i + 1..];
    SplitGlue(s, sep, n);
  }

  /** `s.removeprefix(p)`. */
  function RemovePrefix(s: string, p: string): string {
    if p <= s then s[|p|..] else s
  }

  /** Code-point lexicographic order, the order in which Python sorts strings. */
  predicate StrLe(a: string, b: string) {
    a == [] || (b != [] && (a[0] < b[0] || (a[0] == b[0] && StrLe(a[1..], b[1..]))))
  }

  /** The strings agree before position `k`, and there the first one ends or has the smaller character. */
  predicate OrderedAt(a: string, b: string, k: nat) {
    && k <= |a| && k <= |b| && (forall i :: 0 <= i < k ==> a[i] == b[i])
    && (k == |a| || (k < |b| && a[k] < b[k]))
  }

  lemma OrderedLater(a: string, b: string, k: nat)
    ensures a != [] && b != [] ==>
      (OrderedAt(a, b, k + 1) <==> a[0] == b[0] && OrderedAt(a[1..], b[1..], k))
  {
    if a != [] && b != [] && a[0] == b[0] && OrderedAt(a[1..], b[1..], k) {
      assert forall i :: 0 < i < k + 1 ==> a[i] == a[1..][i - 1] && b[i] == b[1..][i - 1];
    }
  }

  /** The order is the lexicographic one. */
  lemma {:induction false} StrLeIsLexicographic(a: string, b: string)
    ensures StrLe(a, b) <==> exists k: nat :: OrderedAt(a, b, k)
    decreases |a|
  {
    hide OrderedAt;
    OrderedAtOnce(a, b);
    if a != [] && b != [] {
      StrLeIsLexicographic(a[1..], b[1..]);
      if k: nat :| OrderedAt(a, b, k) && k > 0 {
        OrderedLater(a, b, k - 1);
      }
      if k: nat :| OrderedAt(a[1..], b[1..], k) {
        OrderedLater(a, b, k);
      }
    }
  }

  lemma OrderedAtOnce(a: string, b: string)
    ensures OrderedAt(a, b, 0) <==> a == [] || (b != [] && a[0] < b[0])
    ensures a == [] || b == [] ==> forall k: nat :: k > 0 ==> !OrderedAt(a, b, k)
  {}

  lemma StrLeTotal(a: string, b: string)
    ensures StrLe(a, b) || StrLe(b, a)
  {}

  lemma StrLeReflexive(a: string)
    ensures StrLe(a, a)
  {}

  lemma {:induction false} StrLeAntisymmetric(a: string, b: string)
    requires StrLe(a, b) && StrLe(b, a)
    ensures a == b
  {
    if a != [] {
      StrLeAntisymmetric(a[1..], b[1..]);
      assert a == [a[0]] + a[1..] && b == [b[0]] + b[1..];
    }
  }

  lemma {:induction false} StrLeTransitive(a: string, b: string, c: string)
    requires StrLe(a, b) && StrLe(b, c)
    ensures StrLe(a, c)
  {
    if a != [] && a[0] == b[0] == c[0] {
      StrLeTransitive(a[1..], b[1..], c[1..]);
    }
  }

  predicate IsLeast(m: string, s: set<string>) {
    m in s && forall x :: x in s ==> StrLe(m, x)
  }

  lemma LeastExists(s: set<string>) returns (m: string)
    requires s != {}
    ensures IsLeast(m, s)
  {
    m :| m in s;
    var rest := s - {m};
    if rest == {} {
      StrLeReflexive(m);
      assert s == {m};
    } else {
      var n := LeastExists(rest);
      StrLeTotal(m, n);
      StrLeReflexive(m);
      if StrLe(m, n) {
        forall x | x in s ensures StrLe(m, x) {
          if x != m { StrLeTransitive(m, n, x); }
        }
      } else {
        m := n;
      }
    }
  }

  /** `sorted(s)` for a set of strings. */
  function Sorted(s: set<string>): (r: seq<string>)
    ensures forall x :: x in r <==> x in s
    ensures |r| == |s|
    ensures forall i, j :: 0 <= i < j < |r| ==> r[i] != r[j] && StrLe(r[i], r[j])
  {
    if s == {} then [] else
      assert exists m :: IsLeast(m, s) by { var m := LeastExists(s); }
      assert forall a, b :: IsLeast(a, s) && IsLeast(b, s) ==> a == b by {
        forall a, b | IsLeast(a, s) && IsLeast(b, s) ensures a == b { StrLeAntisymmetric(a, b); }
      }
      var m :| m in s && IsLeast(m, s);
      [m] + Sorted(s - {m})
  }

  /** Ascending, and nothing twice. */
  predicate InOrder(ids: seq<string>) {
    forall i, j :: 0 <= i < j < |ids| ==> ids[i] != ids[j] && StrLe(ids[i], ids[j])
  }

  lemma SortedIsInOrder(s: set<string>)
    ensures InOrder(Sorted(s)) && forall x :: x in Sorted(s) <==> x in s
  {
    hide StrLe;
  }

  // ----- What stripping leaves -----

  predicate AllSpace(s: string) {
    forall c :: c in s ==> IsSpace(c)
  }

  lemma {:induction false} LeftStripTakesSpace(s: string)
    ensures AllSpace(s[..|s| - |LeftStrip(s)|])
  {
    if s != [] && IsSpace(s[0]) {
      LeftStripTakesSpace(s[1..]);
      var n := |s| - |LeftStrip(s)|;
      assert s[..n] == [s[0]] + s[1..][..n - 1];
    }
  }

  lemma {:induction false} RightStripTakesSpace(s: string)
    ensures AllSpace(s[|RightStrip(s)|..])
  {
    if s != [] && IsSpace(s[|s| - 1]) {
      var front, last := s[..|s| - 1], s[|s| - 1];
      RightStripTakesSpace(front);
      var n := |RightStrip(s)|;
      assert s[n..] == front[n..] + [last];
    }
  }

  /** The string is `core` with white space around it, and `core` begins and ends with something else. */
  ghost predicate Surrounds(s: string, core: string) {
    Stripped(core) && exists a, b :: AllSpace(a) && AllSpace(b) && s == a + core + b
  }

  /** Stripping removes the white space around a string and nothing else. */
  lemma StripIsExact(s: string, core: string)
    ensures Strip(s) == core <==> Surrounds(s, core)
  {
    hide LeftStrip, RightStrip;
    var l := LeftStrip(s);
    var r := RightStrip(l);
    var a, b := s[..|s| - |l|], l[|r|..];
    LeftStripTakesSpace(s);
    RightStripTakesSpace(l);
    StripIsStripped(s);
    assert s == a + r + b;
    assert Surrounds(s, r);
    if Surrounds(s, core) {
      OneCore(s, core, r);
    }
  }

  lemma SpaceAround(a: string, core: string, b: string, k: nat)
    requires AllSpace(a) && AllSpace(b) && k < |a + core + b|
    ensures k < |a| || k >= |a + core| ==> IsSpace((a + core + b)[k])
  {
    if k < |a| {
      assert (a + core + b)[k] == a[k] && a[k] in a;
    } else if k >= |a + core| {
      assert (a + core + b)[k] == b[k - |a + core|] && b[k - |a + core|] in b;
    }
  }

  lemma CoreEnds(a: string, core: string, b: string)
    ensures core != "" ==>
      (a + core + b)[|a|] == core[0] && (a + core + b)[|a + core| - 1] == core[|core| - 1]
    ensures core == (a + core + b)[|a|..|a + core|]
  {}

  lemma CoreIsInside(a: string, x: string, b: string, c: string, y: string, d: string)
    requires a + x + b == c + y + d && AllSpace(a) && AllSpace(b) && Stripped(y) && y != ""
    ensures |a| <= |c| && |c + y| <= |a + x|
  {
    hide IsSpace;
    CoreEnds(c, y, d);
    SpaceAround(a, x, b, |c|);
    SpaceAround(a, x, b, |c + y| - 1);
  }

  /** A string has one core. */
  lemma OneCore(s: string, x: string, y: string)
    requires Surrounds(s, x) && Surrounds(s, y)
    ensures x == y
  {
    hide IsSpace, AllSpace, Stripped;
    var a, b :| AllSpace(a) && AllSpace(b) && s == a + x + b;
    var c, d :| AllSpace(c) && AllSpace(d) && s == c + y + d;
    if y != "" {
      CoreIsInside(a, x, b, c, y, d);
    }
    if x != "" {
      CoreIsInside(c, y, d, a, x, b);
    }
    CoreEnds(a, x, b);
    CoreEnds(c, y, d);
  }

  /** Only white space strips to nothing. */
  lemma BlankIsSpace(s: string)
    ensures Strip(s) == "" <==> AllSpace(s)
  {
    hide Strip;
    StripIsExact(s, "");
    if AllSpace(s) {
      var none := "";
      assert AllSpace(none) && s == s + "" + none;
    }
    if Surrounds(s, "") {
      var a, b :| AllSpace(a) && AllSpace(b) && s == a + "" + b;
      assert s == a + b;
    }
  }
}
