/** Capping a tool result at a number of UTF-8 bytes without splitting a character. */
module Utf8Cap {
  import opened Numerals

  /** What a Python string holds: any code point, surrogates included. */
  type CodePoint = c: nat | c <= 0x10FFFF

  type Byte = b: nat | b < 256

  predicate IsSurrogate(c: CodePoint) {
    0xD800 <= c <= 0xDFFF
  }

  // ----- UTF-8, section 3 of RFC 3629 -----

  function EncodeOne(c: CodePoint): (bytes: seq<Byte>)
    ensures 1 <= |bytes| <= 4
  {
    if c < 0x80 then [c]
    else if c < 0x800 then [0xC0 + c / 64, 0x80 + c % 64]
    else if c < 0x10000 then [0xE0 + c / 4096, 0x80 + c / 64 % 64, 0x80 + c % 64]
    else [0xF0 + c / 262144, 0x80 + c / 4096 % 64, 0x80 + c / 64 % 64, 0x80 + c % 64]
  }

  function Encode(text: seq<CodePoint>): seq<Byte> {
    if text == [] then [] else EncodeOne(text[0]) + Encode(text[1..])
  }

  predicate IsTail(b: Byte) {
    0x80 <= b < 0xC0
  }

  /** What is left of a byte without its fixed leading bits. */
  function Bits(b: Byte, fixed: nat): nat
    requires fixed <= b
  {
    b - fixed
  }

  datatype Decoded = Nothing | Char(c: CodePoint, size: nat)

  /** The well-formed character that `bytes` begins with: neither overlong, nor a surrogate, nor too large. */
  function DecodeOne(bytes: seq<Byte>): (d: Decoded)
    ensures d.Char? ==> 1 <= d.size <= |bytes|
  {
    if |bytes| >= 1 && bytes[0] < 0x80 then Char(bytes[0], 1)
    else if |bytes| >= 2 && 0xC2 <= bytes[0] < 0xE0 && IsTail(bytes[1]) then
      Char(Bits(bytes[0], 0xC0) * 64 + Bits(bytes[1], 0x80), 2)
    else if |bytes| >= 3 && 0xE0 <= bytes[0] < 0xF0 && IsTail(bytes[1]) && IsTail(bytes[2]) then
      var c := Bits(bytes[0], 0xE0) * 4096 + Bits(bytes[1], 0x80) * 64 + Bits(bytes[2], 0x80);
      if c < 0x800 || IsSurrogate(c) then Nothing else Char(c, 3)
    else if |bytes| >= 4 && 0xF0 <= bytes[0] < 0xF5 && IsTail(bytes[1]) && IsTail(bytes[2]) && IsTail(bytes[3]) then
      var c := Bits(bytes[0], 0xF0) * 262144 + Bits(bytes[1], 0x80) * 4096
        + Bits(bytes[2], 0x80) * 64 + Bits(bytes[3], 0x80);
      if c < 0x10000 || c > 0x10FFFF then Nothing else Char(c, 4)
    else Nothing
  }

  /** `decode("utf-8", errors="ignore")`: bytes that begin no character are skipped. */
  function DecodeIgnore(bytes: seq<Byte>): seq<CodePoint>
    decreases |bytes|
  {
    if bytes == [] then [] else
      var d := DecodeOne(bytes);
      if d.Char? then [d.c] + DecodeIgnore(bytes[d.size..]) else DecodeIgnore(bytes[1..])
  }

  /** `decode("utf-8")`, which refuses ill-formed input. */
  function DecodeStrict(bytes: seq<Byte>): (r: (bool, seq<CodePoint>))
    decreases |bytes|
  {
    if bytes == [] then (true, []) else
      var d := DecodeOne(bytes);
      if d.Nothing? then (false, []) else
        var rest := DecodeStrict(bytes[d.size..]);
        (rest.0, [d.c] + rest.1)
  }

  /** The bytes of a character as the table of the standard has them: shortest form, six bits to a tail byte. */
  lemma EncodeOneIsUtf8(c: CodePoint)
    ensures var b := EncodeOne(c);
      && |b| == (if c <= 0x7F then 1 else if c <= 0x7FF then 2 else if c <= 0xFFFF then 3 else 4)
      && (forall i :: 1 <= i < |b| ==> 0x80 <= b[i] <= 0xBF)
      && (|b| == 1 ==> b[0] == c)
      && (|b| == 2 ==> 0xC2 <= b[0] <= 0xDF && c == Bits(b[0], 0xC0) * 0x40 + Bits(b[1], 0x80))
      && (|b| == 3 ==>
            0xE0 <= b[0] <= 0xEF && c == Bits(b[0], 0xE0) * 0x1000 + Bits(b[1], 0x80) * 0x40 + Bits(b[2], 0x80))
      && (|b| == 4 ==>
            && 0xF0 <= b[0] <= 0xF4
            && c == Bits(b[0], 0xF0) * 0x40000 + Bits(b[1], 0x80) * 0x1000 + Bits(b[2], 0x80) * 0x40 + Bits(b[3], 0x80))
  {
    Split2(c);
  }

  // ----- Capping -----

  /** What `errors="replace"` makes of the code points that have no encoding. */
  function Replaced(text: seq<CodePoint>): (r: seq<CodePoint>)
    ensures |r| == |text| && forall i :: 0 <= i < |r| ==> r[i] == if IsSurrogate(text[i]) then 0x3F else text[i]
  {
    seq(|text|, i requires 0 <= i < |text| => if IsSurrogate(text[i]) then 0x3F else text[i])
  }

  function Points(s: string): seq<CodePoint> {
    seq(|s|, i requires 0 <= i < |s| => s[i] as int)
  }

  function Marker(kept: nat, total: nat): seq<CodePoint> {
    Points("\n\U{2026}[truncated: kept ") + Points(Decimal(kept)) + Points(" of ") + Points(Decimal(total))
    + Points(" bytes; raise maxResultBytes]")
  }

  /** `_cap_utf8`. */
  function Cap(encoded: seq<Byte>, maxBytes: nat, total: nat, dropped: bool): (seq<CodePoint>, bool) {
    if !dropped && |encoded| <= maxBytes then (DecodeStrict(encoded).1, false) else
      var kept := DecodeIgnore(if |encoded| <= maxBytes then encoded else encoded[..maxBytes]);
      (kept + Marker(|Encode(kept)|, total), true)
  }

  /** `truncate_utf8`. */
  function Truncate(text: seq<CodePoint>, maxBytes: nat): (seq<CodePoint>, nat) {
    var encoded := Encode(Replaced(text));
    (Cap(encoded, maxBytes, |encoded|, false).0, |encoded|)
  }

  // ----- Characters come back -----

  predicate AllScalar(text: seq<CodePoint>) {
    forall c :: c in text ==> !IsSurrogate(c)
  }

  lemma Split2(c: nat)
    ensures c == 64 * (c / 64) + c % 64
    ensures c / 64 == 64 * (c / 4096) + c / 64 % 64
    ensures c / 4096 == 64 * (c / 262144) + c / 4096 % 64
  {
    assert c / 4096 == c / 64 / 64;
    assert c / 262144 == c / 4096 / 64;
  }

  lemma OneIsDecoded(c: CodePoint, rest: seq<Byte>)
    requires !IsSurrogate(c)
    ensures DecodeOne(EncodeOne(c) + rest) == Char(c, |EncodeOne(c)|)
  {
    Split2(c);
    var bytes := EncodeOne(c) + rest;
    assert forall i :: 0 <= i < |EncodeOne(c)| ==> bytes[i] == EncodeOne(c)[i];
  }

  lemma TailIsNoStart(bytes: seq<Byte>)
    ensures bytes != [] && IsTail(bytes[0]) ==> DecodeOne(bytes) == Nothing
  {}

  lemma {:induction false} TailsAreSkipped(bytes: seq<Byte>)
    requires forall b :: b in bytes ==> IsTail(b)
    ensures DecodeIgnore(bytes) == []
    decreases |bytes|
  {
    if bytes != [] {
      TailIsNoStart(bytes);
      TailsAreSkipped(bytes[1..]);
    }
  }

  /** A character that is cut short leaves nothing behind. */
  lemma CutCharIsSkipped(c: CodePoint, k: nat)
    requires 0 < k < |EncodeOne(c)|
    ensures DecodeIgnore(EncodeOne(c)[..k]) == []
  {
    hide DecodeIgnore;
    var bytes, cut := EncodeOne(c), EncodeOne(c)[..k];
    assert forall i :: 1 <= i < |bytes| ==> IsTail(bytes[i]);
    assert DecodeOne(cut) == Nothing;
    TailsAreSkipped(cut[1..]);
    assert DecodeIgnore(cut) == DecodeIgnore(cut[1..]) by { SkipOne(cut); }
  }

  lemma SkipOne(bytes: seq<Byte>)
    ensures bytes != [] && DecodeOne(bytes) == Nothing ==> DecodeIgnore(bytes) == DecodeIgnore(bytes[1..])
  {}

  lemma TakeOne(c: CodePoint, rest: seq<Byte>)
    requires !IsSurrogate(c)
    ensures DecodeIgnore(EncodeOne(c) + rest) == [c] + DecodeIgnore(rest)
    ensures DecodeStrict(EncodeOne(c) + rest) == (DecodeStrict(rest).0, [c] + DecodeStrict(rest).1)
  {
    hide DecodeOne, EncodeOne;
    OneIsDecoded(c, rest);
    var bytes := EncodeOne(c) + rest;
    assert bytes[|EncodeOne(c)|..] == rest;
  }

  /** Encoding and decoding are inverse on texts without surrogates. */
  lemma {:induction false} DecodeOfEncode(text: seq<CodePoint>)
    requires AllScalar(text)
    ensures DecodeStrict(Encode(text)) == (true, text)
    decreases |text|
  {
    hide DecodeStrict, EncodeOne;
    if text == [] {
      assert DecodeStrict([]) == (true, []) by { NothingToDecode(); }
    } else {
      assert !IsSurrogate(text[0]) && AllScalar(text[1..]);
      DecodeOfEncode(text[1..]);
      TakeOne(text[0], Encode(text[1..]));
      assert text == [text[0]] + text[1..];
    }
  }

  lemma NothingToDecode()
    ensures DecodeStrict([]) == (true, []) && DecodeIgnore([]) == []
  {}

  // ----- The longest prefix that fits -----

  /** How many whole characters fit into `room` bytes. */
  function Fit(text: seq<CodePoint>, room: nat): (k: nat)
    ensures k <= |text|
  {
    if text == [] || |EncodeOne(text[0])| > room then 0
    else 1 + Fit(text[1..], room - |EncodeOne(text[0])|)
  }

  /** Decoding any cut of an encoded text keeps exactly the characters that fit. */
  lemma {:induction false} CutKeepsWhatFits(text: seq<CodePoint>, room: nat)
    requires AllScalar(text) && room <= |Encode(text)|
    ensures DecodeIgnore(Encode(text)[..room]) == text[..Fit(text, room)]
    decreases |text|
  {
    hide DecodeIgnore, EncodeOne;
    NothingToDecode();
    if text != [] {
      var one, rest := EncodeOne(text[0]), Encode(text[1..]);
      assert !IsSurrogate(text[0]) && AllScalar(text[1..]);
      if |one| > room {
        assert Encode(text)[..room] == one[..room];
        if room > 0 {
          CutCharIsSkipped(text[0], room);
        }
      } else {
        assert Encode(text)[..room] == one + rest[..room - |one|];
        TakeOne(text[0], rest[..room - |one|]);
        CutKeepsWhatFits(text[1..], room - |one|);
      }
    }
  }

  /** It is the longest prefix within the budget, and misses the budget by three bytes at most. */
  lemma {:induction false} FitIsLongest(text: seq<CodePoint>, room: nat)
    ensures |Encode(text[..Fit(text, room)])| <= room
    ensures forall k :: Fit(text, room) < k <= |text| ==> |Encode(text[..k])| > room
    ensures room < |Encode(text)| ==> room - |Encode(text[..Fit(text, room)])| <= 3
    ensures |Encode(text)| <= room ==> Fit(text, room) == |text|
    decreases |text|
  {
    hide EncodeOne;
    if text != [] {
      var one, rest := EncodeOne(text[0]), text[1..];
      assert forall k :: 0 < k <= |text| ==> text[..k][1..] == rest[..k - 1] && text[..k][0] == text[0];
      if |one| <= room {
        FitIsLongest(rest, room - |one|);
      }
    }
  }

  lemma ReplacedIsScalar(text: seq<CodePoint>)
    ensures AllScalar(Replaced(text))
  {}

  /** Within the budget the text comes back whole, a question mark in place of each lone surrogate. */
  lemma WithinBudget(text: seq<CodePoint>, maxBytes: nat)
    requires |Encode(Replaced(text))| <= maxBytes
    ensures Truncate(text, maxBytes).0 == Replaced(text)
    ensures Truncate(text, maxBytes).0 == text <==> AllScalar(text)
  {
    hide Encode, DecodeStrict, Marker;
    ReplacedIsScalar(text);
    DecodeOfEncode(Replaced(text));
    if AllScalar(text) {
      assert forall i :: 0 <= i < |text| ==> text[i] in text;
      assert Replaced(text) == text;
    }
  }

  /** The text of the marker, with the two sizes in decimal. */
  ghost predicate Says(marker: seq<CodePoint>, kept: nat, total: nat) {
    exists a: string, b: string ::
      && IsNumeral(a) && NumberOf(a) == kept && IsNumeral(b) && NumberOf(b) == total
      && marker == Points("\n\U{2026}[truncated: kept " + a + " of " + b + " bytes; raise maxResultBytes]")
  }

  lemma PointsOfBoth(a: string, b: string)
    ensures Points(a + b) == Points(a) + Points(b)
  {}

  lemma MarkerSays(kept: nat, total: nat)
    ensures Says(Marker(kept, total), kept, total)
  {
    hide Points, NumberOf, Decimal;
    var head, middle, tail := "\n\U{2026}[truncated: kept ", " of ", " bytes; raise maxResultBytes]";
    var a, b := Decimal(kept), Decimal(total);
    ShownIsRead(kept);
    ShownIsRead(total);
    PointsOfBoth(head, a);
    PointsOfBoth(head + a, middle);
    PointsOfBoth(head + a + middle, b);
    PointsOfBoth(head + a + middle + b, tail);
  }

  /** Over the budget the longest prefix of whole characters that fits is kept, and marked. */
  lemma OverBudget(text: seq<CodePoint>, maxBytes: nat)
    requires maxBytes < |Encode(Replaced(text))|
    ensures var whole := Replaced(text);
      var kept := whole[..Fit(whole, maxBytes)];
      && (exists marker :: Truncate(text, maxBytes) == (kept + marker, |Encode(whole)|)
            && Says(marker, |Encode(kept)|, |Encode(whole)|))
      && |Encode(kept)| <= maxBytes <= |Encode(kept)| + 3
      && (forall k :: |kept| < k <= |whole| ==> |Encode(whole[..k])| > maxBytes)
      && DecodeStrict(Encode(kept)) == (true, kept)
  {
    hide Encode, DecodeStrict, DecodeIgnore, Marker, Fit, Says;
    var whole := Replaced(text);
    MarkerSays(|Encode(whole[..Fit(whole, maxBytes)])|, |Encode(whole)|);
    ReplacedIsScalar(text);
    CutKeepsWhatFits(whole, maxBytes);
    FitIsLongest(whole, maxBytes);
    DecodeOfEncode(whole[..Fit(whole, maxBytes)]);
  }

  /** An earlier cut is marked even when what is left of it fits the budget. */
  lemma DroppedIsMarked(text: seq<CodePoint>, maxBytes: nat, total: nat)
    requires AllScalar(text) && |Encode(text)| <= maxBytes
    ensures exists marker ::
      Cap(Encode(text), maxBytes, total, true) == (text + marker, true) && Says(marker, |Encode(text)|, total)
  {
    hide Encode, DecodeIgnore, Marker, Fit, Says;
    MarkerSays(|Encode(text)|, total);
    var room := |Encode(text)|;
    CutKeepsWhatFits(text, room);
    FitIsLongest(text, room);
    assert Encode(text)[..room] == Encode(text);
    assert text[..|text|] == text;
  }
}
