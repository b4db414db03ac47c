/** Base58 over byte strings, and the positional numerals behind it. */
module Base58 {
  import opened Arithmetic
  import opened Text
  import opened BitLengths

  // ----- Positional numerals -----

  /** Big-endian value of a digit string. */
  function Value(digits: seq<nat>, base: nat): nat {
    if digits == [] then 0 else Value(digits[..|digits| - 1], base) * base + digits[|digits| - 1]
  }

  function PowerOf(base: nat, k: nat): nat {
    if k == 0 then 1 else base * PowerOf(base, k - 1)
  }

  /** The last digit counts units, the one before it multiples of the base, and so on. */
  lemma {:induction false} DigitsArePlaces(a: seq<nat>, b: seq<nat>, base: nat)
    ensures Value(a + b, base) == Value(a, base) * PowerOf(base, |b|) + Value(b, base)
    ensures |b| == 1 ==> Value(b, base) == b[0]
    decreases |b|
  {
    hide Value, PowerOf;
    if b == [] {
      assert a + b == a;
      NoDigits(base);
    } else {
      var front, last := b[..|b| - 1], b[|b| - 1];
      DigitsArePlaces(a, front, base);
      assert (a + b)[..|a + b| - 1] == a + front;
      OneMoreDigit(a + b, base);
      OneMoreDigit(b, base);
      NextPower(base, |front|);
      ShiftedPlaces(Value(a, base), PowerOf(base, |front|), Value(front, base), base, last);
      NoDigits(base);
    }
  }

  lemma NoDigits(base: nat)
    ensures Value([], base) == 0 && PowerOf(base, 0) == 1
  {}

  lemma OneMoreDigit(s: seq<nat>, base: nat)
    requires s != []
    ensures Value(s, base) == Value(s[..|s| - 1], base) * base + s[|s| - 1]
  {}

  lemma NextPower(base: nat, k: nat)
    ensures PowerOf(base, k + 1) == base * PowerOf(base, k)
  {}

  lemma ShiftedPlaces(a: nat, p: nat, b: nat, base: nat, last: nat)
    ensures (a * p + b) * base + last == a * (base * p) + (b * base + last)
  {}

  /** The numeral of `n` without leading zeros; zero is the empty numeral. */
  function Numeral(n: nat, base: nat): (digits: seq<nat>)
    requires base >= 2
    ensures forall d :: d in digits ==> d < base
    ensures digits != [] ==> digits[0] != 0
    ensures n == 0 <==> digits == []
    decreases n
  {
    if n == 0 then [] else
      QuotientAndRemainder(n, base);
      Numeral(n / base, base) + [n % base]
  }

  lemma {:induction false} ValueOfNumeral(n: nat, base: nat)
    requires base >= 2
    ensures Value(Numeral(n, base), base) == n
    decreases n
  {
    if n != 0 {
      QuotientAndRemainder(n, base);
      ValueOfNumeral(n / base, base);
      var digits := Numeral(n, base);
      assert digits[..|digits| - 1] == Numeral(n / base, base);
    }
  }

  /** A digit string without a leading zero is the numeral of its value. */
  lemma {:induction false} NumeralOfValue(digits: seq<nat>, base: nat)
    requires base >= 2 && forall d :: d in digits ==> d < base
    requires digits != [] ==> digits[0] != 0
    ensures Numeral(Value(digits, base), base) == digits
  {
    hide Numeral;
    if digits == [] {
      assert Numeral(0, base) == [];
    } else {
      var init, last := digits[..|digits| - 1], digits[|digits| - 1];
      assert last in digits && forall d :: d in init ==> d in digits;
      assert digits == init + [last] && (init != [] ==> init[0] == digits[0]);
      NumeralOfValue(init, base);
      NumeralOfSum(Value(init, base), last, base);
      assert Numeral(0, base) == [];
    }
  }

  lemma NumeralOfSum(n: nat, last: nat, base: nat)
    requires base >= 2 && last < base && (n > 0 || last > 0)
    ensures Numeral(n * base + last, base) == Numeral(n, base) + [last]
  {
    QuotientOfSum(n, last, base);
    TimesIsMonotone(1, n, base);
  }

  function Repeat<T>(x: T, n: nat): (r: seq<T>)
    ensures |r| == n && forall i :: 0 <= i < n ==> r[i] == x
  {
    seq(n, _ => x)
  }

  lemma {:induction false} ValueOfZeros(k: nat, base: nat)
    ensures Value(Repeat<nat>(0, k), base) == 0
  {
    if k > 0 {
      var zeros: seq<nat> := Repeat<nat>(0, k);
      assert zeros[..|zeros| - 1] == Repeat<nat>(0, k - 1);
      ValueOfZeros(k - 1, base);
      assert zeros[|zeros| - 1] == 0;
      assert Value(zeros, base) == 0 * base + 0;
    }
  }

  lemma {:induction false} LeadingZerosCountNothing(k: nat, digits: seq<nat>, base: nat)
    ensures Value(Repeat<nat>(0, k) + digits, base) == Value(digits, base)
  {
    var all: seq<nat> := Repeat<nat>(0, k) + digits;
    if digits == [] {
      assert all == Repeat<nat>(0, k);
      ValueOfZeros(k, base);
    } else {
      assert all[..|all| - 1] == Repeat<nat>(0, k) + digits[..|digits| - 1];
      assert all[|all| - 1] == digits[|digits| - 1];
      LeadingZerosCountNothing(k, digits[..|digits| - 1], base);
    }
  }

  /** The number of leading elements equal to `x`. */
  function Leading<T(==)>(s: seq<T>, x: T): (k: nat)
    ensures k <= |s| && (forall i :: 0 <= i < k ==> s[i] == x) && (k < |s| ==> s[k] != x)
  {
    if s != [] && s[0] == x then 1 + Leading(s[1..], x) else 0
  }

  lemma LeadingOfPadded<T>(k: nat, x: T, rest: seq<T>)
    requires rest != [] ==> rest[0] != x
    ensures Leading(Repeat(x, k) + rest, x) == k
  {
    var s := Repeat(x, k) + rest;
    var n := Leading(s, x);
    assert forall i :: 0 <= i < k ==> s[i] == Repeat(x, k)[i];
    assert rest != [] ==> s[k] == rest[0];
  }

  /** Bytes and digit strings split into their leading zeros and a numeral. */
  lemma SplitLeading(digits: seq<nat>, base: nat)
    requires base >= 2 && forall d :: d in digits ==> d < base
    ensures digits == Repeat<nat>(0, Leading(digits, 0)) + Numeral(Value(digits, base), base)
  {
    hide Value, Numeral;
    var k := Leading(digits, 0);
    var rest := digits[k..];
    assert digits == Repeat<nat>(0, k) + rest;
    assert forall d :: d in rest ==> d in digits;
    LeadingZerosCountNothing(k, rest, base);
    NumeralOfValue(rest, base);
  }

  // ----- Bytes of an integer -----

  type Byte = b: int | 0 <= b < 256

  /** `n.to_bytes(length, "big")`. */
  function ToBytes(n: nat, length: nat): (bytes: seq<Byte>)
    ensures |bytes| == length
    decreases length
  {
    if length == 0 then [] else ToBytes(n / 256, length - 1) + [n % 256]
  }

  lemma BitLengthByByte(n: nat)
    ensures 0 < n < 256 ==> 1 <= BitLength(n) <= 8
    ensures n >= 256 ==> BitLength(n) == 8 + BitLength(n / 256)
  {
    var n1, n2, n3 := n / 2, n / 2 / 2, n / 2 / 2 / 2;
    var n4 := n3 / 2;
    var n5, n6, n7 := n4 / 2, n4 / 2 / 2, n4 / 2 / 2 / 2;
    var n8 := n7 / 2;
    assert n4 == n / 16 && n8 == n4 / 16;
    assert n8 == n / 256;
    assert BitLength(n) == if n == 0 then 0 else 1 + BitLength(n1);
    assert BitLength(n1) == if n1 == 0 then 0 else 1 + BitLength(n2);
    assert BitLength(n2) == if n2 == 0 then 0 else 1 + BitLength(n3);
    assert BitLength(n3) == if n3 == 0 then 0 else 1 + BitLength(n4);
    assert BitLength(n4) == if n4 == 0 then 0 else 1 + BitLength(n5);
    assert BitLength(n5) == if n5 == 0 then 0 else 1 + BitLength(n6);
    assert BitLength(n6) == if n6 == 0 then 0 else 1 + BitLength(n7);
    assert BitLength(n7) == if n7 == 0 then 0 else 1 + BitLength(n8);
  }

  /** `(bit_length + 7) // 8` bytes are just enough: the result has no leading zero byte. */
  lemma {:induction false} ToBytesIsNumeral(n: nat)
    ensures ToBytes(n, (BitLength(n) + 7) / 8) == Numeral(n, 256)
    decreases n
  {
    BitLengthByByte(n);
    if n >= 256 {
      ToBytesIsNumeral(n / 256);
    } else if n > 0 {
      assert n / 256 == 0;
      assert ToBytes(n / 256, 0) == [];
    }
  }

  // ----- The codec -----

  /** The alphabet `1..9A..HJ..NP..Za..km..z`, range by range. */
  function CharOf(digit: nat): char
    requires digit < 58
  {
    if digit < 9 then '1' + digit as char
    else if digit < 17 then 'A' + (digit - 9) as char
    else if digit < 22 then 'J' + (digit - 17) as char
    else if digit < 33 then 'P' + (digit - 22) as char
    else if digit < 44 then 'a' + (digit - 33) as char
    else 'm' + (digit - 44) as char
  }

  /** The inverse table; `None` outside the alphabet. */
  function DigitOf(c: char): (d: Option<nat>)
    ensures d.Some? ==> d.value < 58
  {
    if '1' <= c <= '9' then Some((c - '1') as nat)
    else if 'A' <= c <= 'H' then Some((c - 'A') as nat + 9)
    else if 'J' <= c <= 'N' then Some((c - 'J') as nat + 17)
    else if 'P' <= c <= 'Z' then Some((c - 'P') as nat + 22)
    else if 'a' <= c <= 'k' then Some((c - 'a') as nat + 33)
    else if 'm' <= c <= 'z' then Some((c - 'm') as nat + 44)
    else None
  }

  predicate IsAlphanumeric(c: char) {
    '0' <= c <= '9' || 'A' <= c <= 'Z' || 'a' <= c <= 'z'
  }

  /** The alphabet is all digits and letters without the four lookalikes, in code-point order. */
  lemma AlphabetIsUnambiguous(c: char, i: nat, j: nat)
    ensures DigitOf(c).Some? <==> IsAlphanumeric(c) && c !in {'0', 'O', 'I', 'l'}
    ensures i < j < 58 ==> CharOf(i) < CharOf(j)
  {}

  lemma DigitOfChar(digit: nat)
    ensures digit < 58 ==> DigitOf(CharOf(digit)) == Some(digit)
    ensures digit < 58 ==> (CharOf(digit) == '1' <==> digit == 0)
  {}

  lemma CharOfDigit(c: char)
    ensures DigitOf(c).Some? ==> CharOf(DigitOf(c).value) == c
  {}

  predicate IsBase58(text: string) {
    forall c :: c in text ==> DigitOf(c).Some?
  }

  function Spell(digits: seq<nat>): (text: string)
    requires forall d :: d in digits ==> d < 58
    ensures |text| == |digits| && forall i :: 0 <= i < |text| ==> digits[i] in digits && text[i] == CharOf(digits[i])
  {
    seq(|digits|, i requires 0 <= i < |digits| => assert digits[i] in digits; CharOf(digits[i]))
  }

  function Digits(text: string): (digits: seq<nat>)
    requires IsBase58(text)
    ensures |digits| == |text|
    ensures forall i :: 0 <= i < |text| ==> text[i] in text && digits[i] == DigitOf(text[i]).value
    ensures forall d :: d in digits ==> d < 58
  {
    seq(|text|, i requires 0 <= i < |text| => assert text[i] in text; DigitOf(text[i]).value)
  }

  function Encode(raw: seq<Byte>): string {
    Repeat('1', Leading<nat>(raw, 0)) + Spell(Numeral(Value(raw, 256), 58))
  }

  function Decode(text: string): Option<seq<Byte>> {
    if !IsBase58(text) then None else
      var number := Value(Digits(text), 58);
      Some(Repeat<Byte>(0, Leading(text, '1')) + ToBytes(number, (BitLength(number) + 7) / 8))
  }

  lemma SpelledIsBase58(digits: seq<nat>)
    requires forall d :: d in digits ==> d < 58
    ensures IsBase58(Spell(digits)) && Digits(Spell(digits)) == digits
    ensures Leading(Spell(digits), '1') == Leading<nat>(digits, 0)
    decreases |digits|
  {
    var text := Spell(digits);
    forall i | 0 <= i < |digits| ensures digits[i] in digits && DigitOf(text[i]) == Some(digits[i]) {
      assert digits[i] in digits;
      DigitOfChar(digits[i]);
    }
    forall c | c in text ensures DigitOf(c).Some? {
      var i :| 0 <= i < |text| && text[i] == c;
    }
    if digits != [] {
      DigitOfChar(digits[0]);
      assert text[1..] == Spell(digits[1..]);
      SpelledIsBase58(digits[1..]);
    }
  }

  lemma DigitsSpellBack(text: string)
    requires IsBase58(text)
    ensures Spell(Digits(text)) == text
  {
    forall i | 0 <= i < |text| ensures Spell(Digits(text))[i] == text[i] {
      CharOfDigit(text[i]);
    }
  }

  /** The digits of an encoding: as many zeros as there are leading zero bytes, then the numeral. */
  lemma EncodingDigits(raw: seq<Byte>)
    ensures var digits := Repeat<nat>(0, Leading<nat>(raw, 0)) + Numeral(Value(raw, 256), 58);
      Encode(raw) == Spell(digits) && Value(digits, 58) == Value(raw, 256)
      && Leading<nat>(digits, 0) == Leading<nat>(raw, 0)
  {
    hide Value, Numeral;
    var k, numeral := Leading<nat>(raw, 0), Numeral(Value(raw, 256), 58);
    var digits := Repeat<nat>(0, k) + numeral;
    DigitOfChar(0);
    assert Spell(digits) == Repeat('1', k) + Spell(numeral);
    LeadingZerosCountNothing(k, numeral, 58);
    ValueOfNumeral(Value(raw, 256), 58);
    LeadingOfPadded<nat>(k, 0, numeral);
  }

  /** Decoding undoes encoding for every byte string: empty, all zero, or with leading zero bytes. */
  lemma DecodeOfEncode(raw: seq<Byte>)
    ensures Decode(Encode(raw)) == Some(raw)
  {
    hide Value, Numeral, Encode, Spell, Digits, ToBytes, BitLength;
    EncodingDigits(raw);
    var digits := Repeat<nat>(0, Leading<nat>(raw, 0)) + Numeral(Value(raw, 256), 58);
    SpelledIsBase58(digits);
    ToBytesIsNumeral(Value(raw, 256));
    SplitLeading(raw, 256);
    var k := Leading<nat>(raw, 0);
    assert Repeat<Byte>(0, k) == Repeat<nat>(0, k);
    assert Decode(Encode(raw)).value == Repeat<Byte>(0, k) + Numeral(Value(raw, 256), 256);
  }

  /** Encoding undoes decoding for every string over the alphabet. */
  lemma EncodeOfDecode(text: string)
    requires IsBase58(text)
    ensures Decode(text).Some? && Encode(Decode(text).value) == text
  {
    hide Value, Numeral, Spell, ToBytes, BitLength;
    var digits := Digits(text);
    DigitsSpellBack(text);
    SpelledIsBase58(digits);
    var number := Value(digits, 58);
    var k := Leading(text, '1');
    SplitLeading(digits, 58);
    ToBytesIsNumeral(number);
    var raw := Decode(text).value;
    assert raw == Repeat<nat>(0, k) + Numeral(number, 256);
    LeadingZerosCountNothing(k, Numeral(number, 256), 256);
    ValueOfNumeral(number, 256);
    LeadingOfPadded<nat>(k, 0, Numeral(number, 256));
    EncodingDigits(raw);
  }

  /** So encoding is a bijection between byte strings and the strings over the alphabet. */
  lemma Base58IsBijective(a: seq<Byte>, b: seq<Byte>, text: string)
    ensures Encode(a) == Encode(b) ==> a == b
    ensures IsBase58(text) <==> exists raw: seq<Byte> :: Encode(raw) == text
  {
    hide Encode, Decode;
    DecodeOfEncode(a);
    DecodeOfEncode(b);
    if IsBase58(text) {
      EncodeOfDecode(text);
    }
    forall raw: seq<Byte> ensures IsBase58(Encode(raw)) {
      EncodesIntoAlphabet(raw);
    }
  }

  lemma EncodesIntoAlphabet(raw: seq<Byte>)
    ensures IsBase58(Encode(raw))
  {
    hide Value, Numeral, Encode, Spell;
    EncodingDigits(raw);
    SpelledIsBase58(Repeat<nat>(0, Leading<nat>(raw, 0)) + Numeral(Value(raw, 256), 58));
  }

  // ----- The loops -----

  function Reversed<T>(s: seq<T>): (r: seq<T>)
    ensures |r| == |s| && forall i :: 0 <= i < |s| ==> r[i] == s[|s| - 1 - i]
  {
    seq(|s|, i requires 0 <= i < |s| => s[|s| - 1 - i])
  }

  method CountLeading<T(==)>(s: seq<T>, x: T) returns (k: nat)
    ensures k == Leading(s, x)
  {
    k := 0;
    while k < |s| && s[k] == x
      invariant k <= |s| && Leading(s, x) == k + Leading(s[k..], x)
    {
      assert s[k..][1..] == s[k + 1..];
      k := k + 1;
    }
  }

  lemma SpelledSteps(n: nat)
    ensures n == 0 ==> Spell(Numeral(n, 58)) == ""
    ensures n > 0 ==> Spell(Numeral(n, 58)) == Spell(Numeral(n / 58, 58)) + [CharOf(n % 58)]
  {
    hide CharOf;
  }

  lemma EmptyIsSpelled()
    ensures Encode([]) == ""
  {}

  /** `_b58encode`. */
  method B58Encode(raw: seq<Byte>) returns (text: string)
    ensures text == Encode(raw)
  {
    hide Spell, Value, Leading, CharOf;
    SpelledSteps(0);
    if raw == [] {
      EmptyIsSpelled();
      return "";
    }
    var leadingZeros := CountLeading<nat>(raw, 0);
    var number: nat := Value(raw, 256);
    var encodedChars: string := [];
    while number > 0
      invariant Spell(Numeral(Value(raw, 256), 58)) == Spell(Numeral(number, 58)) + Reversed(encodedChars)
    {
      ghost var chars := encodedChars;
      QuotientAndRemainder(number, 58);
      SpelledSteps(number);
      var remainder := number % 58;
      number := number / 58;
      encodedChars := encodedChars + [CharOf(remainder)];
      assert Reversed(encodedChars) == [CharOf(remainder)] + Reversed(chars);
    }
    text := Repeat('1', leadingZeros) + Reversed(encodedChars);
  }

  lemma NothingIsNoBytes()
    ensures ToBytes(0, (BitLength(0) + 7) / 8) == []
  {}

  lemma NothingSoFar(text: string)
    ensures IsBase58(text[..0]) && Value(Digits(text[..0]), 58) == 0
  {}

  /** What one more character adds to the number read so far. */
  lemma OneMoreChar(text: string, k: nat)
    requires k < |text| && IsBase58(text[..k])
    ensures DigitOf(text[k]).None? ==> !IsBase58(text)
    ensures DigitOf(text[k]).Some? ==>
      IsBase58(text[..k + 1])
      && Value(Digits(text[..k + 1]), 58) == Value(Digits(text[..k]), 58) * 58 + DigitOf(text[k]).value
  {
    hide DigitOf, Value;
    assert text[k] in text;
    if DigitOf(text[k]).Some? {
      assert text[..k + 1] == text[..k] + [text[k]];
      assert Digits(text[..k + 1]) == Digits(text[..k]) + [DigitOf(text[k]).value];
      OneMoreDigit(Digits(text[..k + 1]), 58);
      assert Digits(text[..k + 1])[..k] == Digits(text[..k]);
    }
  }

  /** `_b58decode`; `None` is the refusal of a character outside the alphabet. */
  method B58Decode(text: string) returns (raw: Option<seq<Byte>>)
    ensures raw == Decode(text)
  {
    hide ToBytes, BitLength, Leading, Repeat, DigitOf, Value, IsBase58;
    var leadingOnes := CountLeading(text, '1');
    var number: nat := 0;
    NothingSoFar(text);
    for k := 0 to |text|
      invariant IsBase58(text[..k]) && number == Value(Digits(text[..k]), 58)
    {
      var digit := DigitOf(text[k]);
      OneMoreChar(text, k);
      if digit.None? {
        return None;
      }
      number := number * 58 + digit.value;
    }
    assert text[..|text|] == text;
    if number == 0 {
      NothingIsNoBytes();
      assert Repeat<Byte>(0, leadingOnes) + [] == Repeat<Byte>(0, leadingOnes);
      return Some(Repeat<Byte>(0, leadingOnes));
    }
    return Some(Repeat<Byte>(0, leadingOnes) + ToBytes(number, (BitLength(number) + 7) / 8));
  }
}
