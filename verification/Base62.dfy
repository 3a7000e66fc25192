/** The base-62 codec of cores/util.go, with Go's 64-bit integers. */
module Base62 {

  const TWO_63 := 0x8000_0000_0000_0000
  const TWO_64 := 0x1_0000_0000_0000_0000

  predicate IsInt64(x: int) {
    -TWO_63 <= x < TWO_63
  }

  /** The int64 that two's-complement wrap-around leaves of `x`. */
  function Wrap(x: int): (r: int)
    ensures IsInt64(r)
    ensures IsInt64(x) ==> r == x
    ensures (x - r) % TWO_64 == 0
  {
    (x + TWO_63) % TWO_64 - TWO_63
  }

  lemma {:induction false} WrapStep(x: int, p: int)
    ensures Wrap(Wrap(x) * 62 + p) == Wrap(x * 62 + p)
  {
    var k := (x + TWO_63) / TWO_64;
    assert x == Wrap(x) + k * TWO_64;
    var y := Wrap(x) * 62 + p + TWO_63;
    ModShift(y, 62 * k);
    assert x * 62 + p + TWO_63 == y + 62 * k * TWO_64;
  }

  lemma {:induction false} ModShift(y: int, k: int)
    ensures (y + k * TWO_64) % TWO_64 == y % TWO_64
  {
    var q := y / TWO_64;
    assert y + k * TWO_64 == (q + k) * TWO_64 + y % TWO_64;
  }

  /** The character at position `d` of the alphabet 0-9, a-z, A-Z. */
  function Digit(d: int): (c: char)
    requires 0 <= d < 62
    ensures Position(c) == d
  {
    if d < 10 then (d + 48) as char else if d < 36 then (d + 87) as char else (d + 29) as char
  }

  /** The index of `c` in the alphabet, or -1. */
  function Position(c: char): (p: int)
    ensures -1 <= p < 62
  {
    if '0' <= c <= '9' then c as int - 48
    else if 'a' <= c <= 'z' then c as int - 87
    else if 'A' <= c <= 'Z' then c as int - 29
    else -1
  }

  predicate Alphabet(s: string) {
    forall i :: 0 <= i < |s| ==> Position(s[i]) != -1
  }

  function Pow62(n: nat): (r: nat)
    ensures r >= 1
  {
    if n == 0 then 1 else 62 * Pow62(n - 1)
  }

  /** What an alphabet string denotes, as an unbounded number. */
  function Value(s: string): (v: nat)
    requires Alphabet(s)
    ensures v < Pow62(|s|)
  {
    if s == "" then 0 else Value(s[..|s| - 1]) * 62 + Position(s[|s| - 1])
  }

  /** The digits of `n` without leading zeros; none for zero or a negative number. */
  function Digits(n: int): (s: string)
    ensures Alphabet(s)
  {
    if n <= 0 then "" else Digits(n / 62) + [Digit(n % 62)]
  }

  function Zeros(n: int): string {
    if n <= 0 then "" else Zeros(n - 1) + "0"
  }

  /** The code of `id`: digits padded with zeros on the left up to `length`. */
  function Encode(id: int, length: int): string {
    Zeros(length - |Digits(id)|) + Digits(id)
  }

  /** The number of a code as int64: -1 when a character is foreign, otherwise wrapped. */
  function Decode(s: string): int {
    if Alphabet(s) then Wrap(Value(s)) else -1
  }

  // ---- the loops of the source ----

  function Reversed(s: string): (r: string)
    ensures |r| == |s|
  {
    if s == "" then "" else [s[|s| - 1]] + Reversed(s[..|s| - 1])
  }

  lemma {:induction false} ReversedAt(s: string, k: nat)
    requires k < |s|
    ensures Reversed(s)[k] == s[|s| - 1 - k]
  {
    if k > 0 { ReversedAt(s[..|s| - 1], k - 1); }
  }

  /** Swaps from both ends towards the middle. */
  method ReverseString(s: string) returns (r: string)
    ensures r == Reversed(s)
  {
    var n := |s|;
    var runes := new char[n](i requires 0 <= i < n => s[i]);
    var i, j := 0, n - 1;
    while i < j
      invariant 0 <= i <= n && j == n - 1 - i && i <= j + 1
      invariant forall k :: i <= k <= j ==> runes[k] == s[k]
      invariant forall k :: 0 <= k < i ==> runes[k] == s[n - 1 - k]
      invariant forall k :: j < k < n ==> runes[k] == s[n - 1 - k]
    {
      runes[i], runes[j] := runes[j], runes[i];
      i, j := i + 1, j - 1;
    }
    r := runes[..];
    forall k | 0 <= k < n ensures r[k] == Reversed(s)[k] {
      ReversedAt(s, k);
    }
  }

  method ToBase62(id: int, length: int) returns (code: string)
    requires IsInt64(id)
    ensures code == Encode(id, length)
  {
    var result, tempID := "", id;
    assert Digits(id) == Digits(tempID) + Reversed(result);
    while tempID > 0
      invariant Digits(id) == Digits(tempID) + Reversed(result)
      decreases tempID
    {
      var c := Digit(tempID % 62);
      assert (result + [c])[..|result|] == result;
      assert Digits(tempID) + Reversed(result) == Digits(tempID / 62) + Reversed(result + [c]);
      result := result + [c];
      tempID := tempID / 62;
    }
    code := ReverseString(result);
    assert code == Digits(id);
    if |code| < length {
      var padding := "";
      while |padding| < length - |code|
        invariant |padding| <= length - |code| && padding == Zeros(|padding|)
      {
        padding := padding + "0";
      }
      code := padding + code;
    }
  }

  method FromBase62(shortCode: string) returns (id: int)
    ensures id == Decode(shortCode)
  {
    id := 0;
    for i := 0 to |shortCode|
      invariant Alphabet(shortCode[..i]) && id == Wrap(Value(shortCode[..i]))
    {
      var pos := Position(shortCode[i]);
      if pos == -1 {
        return -1;
      }
      assert shortCode[..i + 1][..i] == shortCode[..i];
      WrapStep(Value(shortCode[..i]), pos);
      id := Wrap(id * 62 + pos);
    }
    assert shortCode[..|shortCode|] == shortCode;
  }

  // ---- what the codec promises ----

  lemma {:induction false} ZerosLength(n: nat)
    ensures |Zeros(n)| == n && forall i :: 0 <= i < n ==> Zeros(n)[i] == '0'
  {
    if n > 0 { ZerosLength(n - 1); }
  }

  lemma {:induction false} DigitsLength(n: int, length: nat)
    requires n < Pow62(length)
    ensures |Digits(n)| <= length
  {
    if n > 0 && length > 0 {
      assert n / 62 < Pow62(length - 1) by {
        assert n < 62 * Pow62(length - 1);
      }
      DigitsLength(n / 62, length - 1);
    }
  }

  lemma {:induction false} ValuePadded(zeros: nat, n: int)
    requires n >= 0
    ensures Alphabet(Zeros(zeros) + Digits(n)) && Value(Zeros(zeros) + Digits(n)) == n
  {
    ZerosLength(zeros);
    var s := Zeros(zeros) + Digits(n);
    if n > 0 {
      ValuePadded(zeros, n / 62);
      assert s[..|s| - 1] == Zeros(zeros) + Digits(n / 62);
    } else if zeros > 0 {
      ValuePadded(zeros - 1, n);
      assert s[..|s| - 1] == Zeros(zeros - 1) + Digits(n);
    }
  }

  lemma {:induction false} EncodeValue(s: string)
    requires Alphabet(s)
    ensures Encode(Value(s), |s|) == s
  {
    if s != "" {
      var front, last := s[..|s| - 1], s[|s| - 1];
      EncodeValue(front);
      PositionInjective(Digit(Position(last)), last);
      EncodeSnoc(Value(front), Position(last), |front|);
      assert s == front + [last];
    }
  }

  lemma {:induction false} EncodeSnoc(v: nat, d: int, length: nat)
    requires 0 <= d < 62 && |Encode(v, length)| == length
    ensures Encode(v * 62 + d, length + 1) == Encode(v, length) + [Digit(d)]
  {
    var n := v * 62 + d;
    assert n / 62 == v && n % 62 == d;
    if n == 0 {
      assert Zeros(length + 1) == Zeros(length) + "0";
    } else {
      assert Digits(n) == Digits(v) + [Digit(d)];
      assert length + 1 - |Digits(n)| == length - |Digits(v)|;
    }
  }

  /** The alphabet is 0 to 9, a to z and A to Z, each in order, and positions are those in it. */
  lemma {:induction false} AlphabetOrder()
    ensures Digit(0) == '0' && Digit(9) == '9' && Digit(10) == 'a' && Digit(35) == 'z'
    ensures Digit(36) == 'A' && Digit(61) == 'Z'
    ensures forall d :: 0 <= d < 61 && d != 9 && d != 35 ==> Digit(d + 1) as int == Digit(d) as int + 1
    ensures forall c :: Position(c) != -1 <==> '0' <= c <= '9' || 'a' <= c <= 'z' || 'A' <= c <= 'Z'
  {
    forall d | 0 <= d < 61 && d != 9 && d != 35 ensures Digit(d + 1) as int == Digit(d) as int + 1 {
    }
  }

  lemma {:induction false} PositionInjective(c: char, d: char)
    requires Position(c) == Position(d) != -1
    ensures c == d
  {
  }

  /** Every non-negative int64 comes back from its code, whatever the length asked for. */
  lemma {:induction false} DecodeEncode(id: int, length: int)
    requires 0 <= id < TWO_63
    ensures Decode(Encode(id, length)) == id
  {
    var zeros := length - |Digits(id)|;
    ValuePadded(if zeros > 0 then zeros else 0, id);
  }

  /** A string comes back from its number exactly when it is an alphabet string that fits int64. */
  lemma {:induction false} EncodeDecodeIff(s: string)
    ensures Encode(Decode(s), |s|) == s <==> Alphabet(s) && Value(s) < TWO_63
  {
    var id := Decode(s);
    var zeros := |s| - |Digits(id)|;
    if !Alphabet(s) {
      NegativeIsZeros(-1, |s|);
    } else if Value(s) < TWO_63 {
      EncodeValue(s);
    } else if id < 0 {
      NegativeIsZeros(id, |s|);
    } else {
      ValuePadded(if zeros > 0 then zeros else 0, id);
    }
  }

  lemma {:induction false} NegativeIsZeros(id: int, length: nat)
    requires id < 0
    ensures Encode(id, length) == Zeros(length)
    ensures Alphabet(Zeros(length)) && Value(Zeros(length)) == 0
  {
    assert Digits(id) == "" && Digits(0) == "";
    ValuePadded(length, 0);
    assert Zeros(length) + "" == Zeros(length);
  }

  /** For lengths up to 10, Encode is a bijection from [0, 62^L) to the alphabet strings of length L. */
  lemma {:induction false} CodesAreBijective(L: nat)
    requires L <= 10
    ensures forall id :: 0 <= id < Pow62(L) ==>
      |Encode(id, L)| == L && Alphabet(Encode(id, L)) && Decode(Encode(id, L)) == id
    ensures forall s: string :: |s| == L && Alphabet(s) ==>
      0 <= Decode(s) < Pow62(L) && Encode(Decode(s), L) == s
  {
    Pow62FitsIff(L);
    forall id | 0 <= id < Pow62(L)
      ensures |Encode(id, L)| == L && Alphabet(Encode(id, L)) && Decode(Encode(id, L)) == id
    {
      EncodeExactLength(id, L);
      DecodeEncode(id, L);
    }
    forall s: string | |s| == L && Alphabet(s)
      ensures 0 <= Decode(s) < Pow62(L) && Encode(Decode(s), L) == s
    {
      EncodeValue(s);
    }
  }

  lemma {:induction false} EncodeExactLength(id: int, L: nat)
    requires 0 <= id < Pow62(L)
    ensures |Encode(id, L)| == L && Alphabet(Encode(id, L))
  {
    DigitsLength(id, L);
    ZerosLength(L - |Digits(id)|);
    ValuePadded(L - |Digits(id)|, id);
  }

  lemma {:induction false} Pow62Monotone(a: nat, b: nat)
    requires a <= b
    ensures Pow62(a) <= Pow62(b)
  {
    if a < b { Pow62Monotone(a, b - 1); }
  }

  /** Ten characters are the most whose largest code still fits int64. */
  lemma {:induction false} Pow62FitsIff(L: nat)
    ensures Pow62(L) - 1 < TWO_63 <==> L <= 10
    ensures L <= 10 ==> Pow62(L) < TWO_63
  {
    assert Pow62(5) == 916132832;
    assert Pow62(10) == 839299365868340224 by {
      assert Pow62(10) == 62 * 62 * 62 * 62 * 62 * Pow62(5);
    }
    assert Pow62(11) == 52036560683837093888;
    if L <= 10 { Pow62Monotone(L, 10); } else { Pow62Monotone(11, L); }
  }
}
