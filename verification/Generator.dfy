/** The strided batch generator of cores/gen.go. */
module Generator {
  import opened Collections
  import opened Base62

  function Repeat(c: char, n: nat): (s: string)
    ensures |s| == n && forall i :: 0 <= i < n ==> s[i] == c
  {
    seq(n, _ => c)
  }

  /** Go's division, truncating towards zero. */
  function TruncDiv(a: int, b: int): int
    requires b != 0
  {
    var q := (if a >= 0 then a else -a) / (if b >= 0 then b else -b);
    if (a >= 0) == (b >= 0) then q else -q
  }

  /** The distance between two numbers of one batch. */
  function Step(L: nat, B: int): int
    requires B >= 1
  {
    TruncDiv(Decode(Repeat('Z', L)), B)
  }

  /** The i-th number of batch `k`: `i` wrapping additions of the step. */
  function Number(step: int, k: int, i: nat): (n: int)
    ensures IsInt64(n)
  {
    if i == 0 then Wrap(k) else Wrap(Number(step, k, i - 1) + step)
  }

  lemma {:induction false} NumberClosedForm(step: int, k: int, i: nat)
    ensures Number(step, k, i) == Wrap(k + i * step)
  {
    if i == 0 {
      assert i * step == 0;
    } else {
      NumberClosedForm(step, k, i - 1);
      var before := (i - 1) * step;
      WrapAdd(k + before, step);
      assert before + step == i * step;
    }
  }

  function BatchNumbers(step: int, B: nat, k: int): (r: seq<int>)
    ensures |r| == B && forall i :: 0 <= i < B ==> r[i] == Number(step, k, i)
  {
    if B == 0 then [] else BatchNumbers(step, B - 1, k) + [Number(step, k, B - 1)]
  }

  class ShortCodeGenerator {
    const length: nat
    const step: int
    const batchSize: int

    /** A batch size of 0 divides by zero. The division cannot overflow: the largest code is odd. */
    constructor (length: nat, batchSize: int)
      requires batchSize != 0 && IsInt64(batchSize)
      ensures this.length == length && this.batchSize == batchSize
      ensures step == TruncDiv(Decode(Repeat('Z', length)), batchSize)
    {
      var largest := FromBase62(Repeat('Z', length));
      this.length, this.batchSize := length, batchSize;
      step := TruncDiv(largest, batchSize);
    }

    /** None is the "pool is exhausted" error. Otherwise make fails for a negative batch size. */
    method GenerateBatchNumbers(length: int, startIndex: int) returns (batch: Option<seq<int>>)
      requires IsInt64(startIndex) && (startIndex <= step ==> batchSize >= 0)
      ensures batch == if startIndex > step then None else Some(BatchNumbers(step, batchSize, startIndex))
    {
      if startIndex > step {
        return None;
      }
      var batchNumbers := new int[batchSize];
      var next := startIndex;
      for i := 0 to batchSize
        invariant next == Number(step, startIndex, i)
        invariant batchNumbers[..i] == BatchNumbers(step, i, startIndex)
      {
        batchNumbers[i] := next;
        next := Wrap(next + step);
      }
      assert batchNumbers[..] == batchNumbers[..batchSize];
      batch := Some(batchNumbers[..]);
    }
  }

  lemma {:induction false} WrapAdd(x: int, p: int)
    ensures Wrap(Wrap(x) + p) == Wrap(x + p)
  {
    var k := (x + TWO_63) / TWO_64;
    assert x == Wrap(x) + k * TWO_64;
    ModShift(Wrap(x) + p + TWO_63, k);
  }

  // ---- the arithmetic the lifecycle rests on ----

  lemma {:induction false} EvenShift(x: int, m: int)
    ensures (x - 2 * m) % 2 == x % 2
  {
  }

  lemma {:induction false} WrapShift(x: int)
    ensures Wrap(x) == x - 2 * (TWO_63 * ((x + TWO_63) / TWO_64))
  {
  }

  lemma {:induction false} WrapParity(x: int)
    ensures Wrap(x) % 2 == x % 2
  {
    WrapShift(x);
    EvenShift(x, TWO_63 * ((x + TWO_63) / TWO_64));
  }

  lemma {:induction false} Odd(half: int)
    ensures (2 * half - 1) % 2 == 1
  {
  }

  /** So the largest code is never -2^63, and dividing it does not overflow. */
  lemma {:induction false} LargestIsOdd(L: nat)
    requires L >= 1
    ensures Decode(Repeat('Z', L)) % 2 == 1 && Decode(Repeat('Z', L)) != -TWO_63
  {
    ValueOfLargest(L);
    Odd(31 * Pow62(L - 1));
    WrapParity(Pow62(L) - 1);
  }

  lemma {:induction false} ValueOfLargest(L: nat)
    ensures Alphabet(Repeat('Z', L)) && Value(Repeat('Z', L)) == Pow62(L) - 1
  {
    if L > 0 {
      ValueOfLargest(L - 1);
      assert Repeat('Z', L)[..L - 1] == Repeat('Z', L - 1);
    }
  }

  /**
    The largest code is read correctly exactly for lengths up to 10. Then the step is the intended
    quotient, and between 1 and B numbers of the length lie at or above B times the step.
   */
  lemma {:induction false} StepExact(L: nat, B: int)
    requires B >= 1
    ensures Decode(Repeat('Z', L)) == Pow62(L) - 1 <==> L <= 10
    ensures L <= 10 ==> Step(L, B) == (Pow62(L) - 1) / B
    ensures L <= 10 ==> Step(L, B) >= 0 && 1 <= Pow62(L) - B * Step(L, B) <= B
  {
    ValueOfLargest(L);
    Pow62FitsIff(L);
    Quotient(Pow62(L) - 1, B);
  }

  lemma {:induction false} Quotient(a: int, b: int)
    requires a >= 0 && b >= 1
    ensures a / b >= 0 && 0 <= a - b * (a / b) < b
  {
  }

  const WRAPPED_LARGEST := -3303671537291560961

  /**
    With eleven characters the largest code wraps to a negative number, and so the step is negative
    and no batch is ever produced, for every batch size up to that number.
   */
  lemma {:induction false} ElevenCharactersNeverGenerate(B: int)
    requires B >= 1
    ensures Decode(Repeat('Z', 11)) == WRAPPED_LARGEST
    ensures Step(11, B) < 0 <==> B <= -WRAPPED_LARGEST
  {
    ValueOfLargest(11);
    assert Pow62(11) == 52036560683837093888;
    assert Decode(Repeat('Z', 11)) == WRAPPED_LARGEST;
    if B <= -WRAPPED_LARGEST {
      assert -WRAPPED_LARGEST / B >= 1;
    } else {
      assert -WRAPPED_LARGEST / B == 0;
    }
  }

  lemma {:induction false} MulMono(a: int, b: int, c: int)
    requires a <= b && c >= 0
    ensures a * c <= b * c
  {
  }

  /** (k, i) -> k + i * step is a bijection from [0, step) x [0, B) onto [0, B * step). */
  lemma {:induction false} BatchBijection(step: int, B: int, k: int, i: int)
    requires 1 <= step && 0 <= k < step && 0 <= i < B
    ensures 0 <= k + i * step < B * step
    ensures (k + i * step) % step == k && (k + i * step) / step == i
    ensures forall n :: 0 <= n < B * step ==>
      0 <= n % step < step && 0 <= n / step < B && n == n % step + (n / step) * step
  {
    MulMono(i + 1, B, step);
    MulMono(0, i, step);
    assert (i + 1) * step == i * step + step;
    DivModUnique(k + i * step, step, i, k);
    forall n | 0 <= n < B * step
      ensures 0 <= n % step < step && 0 <= n / step < B && n == n % step + (n / step) * step
    {
      if n / step >= B { MulMono(B, n / step, step); }
    }
  }

  lemma {:induction false} DivModUnique(n: int, d: int, q: int, r: int)
    requires d > 0 && n == q * d + r && 0 <= r < d
    ensures n / d == q && n % d == r
  {
    var e := n / d - q;
    assert e * d == r - n % d;
    if e >= 1 { MulMono(1, e, d); }
    if e <= -1 { MulMono(e, -1, d); }
  }

  ghost predicate Shares(step: int, B: int, j: int, k: int) {
    exists a, b :: 0 <= a < B && 0 <= b < B && SameNumber(step, j, a, k, b)
  }

  predicate SameNumber(step: int, j: int, a: int, k: int, b: int) {
    j + a * step == k + b * step
  }

  lemma {:induction false} SameNumberIff(step: int, j: int, a: int, k: int, b: int)
    requires 0 <= j < k <= step
    ensures SameNumber(step, j, a, k, b) <==> j == 0 && k == step && a == b + 1
  {
    if j == 0 && k == step && a == b + 1 {
      assert (b + 1) * step == b * step + step;
    } else if SameNumber(step, j, a, k, b) {
      assert (a - b) * step == k - j;
      if a - b >= 2 { MulMono(2, a - b, step); }
      if a - b <= 0 { MulMono(a - b, 0, step); }
    }
  }

  /**
    Among the batches the generator accepts, two share a number exactly when they are the first
    and the one at index == step, and a batch has at least two numbers. So all batches below
    index step are disjoint, and the source's test `startIndex > step` lets one repetition pass.
   */
  lemma {:induction false} BatchesShareIff(step: int, B: int, j: int, k: int)
    requires B >= 1 && 0 <= j < k <= step
    ensures Shares(step, B, j, k) <==> j == 0 && k == step && B >= 2
  {
    if j == 0 && k == step && B >= 2 {
      SameNumberIff(step, j, 1, k, 0);
    }
    forall a, b | 0 <= a < B && 0 <= b < B && SameNumber(step, j, a, k, b)
      ensures j == 0 && k == step && B >= 2
    {
      SameNumberIff(step, j, a, k, b);
    }
  }

  // ---- codes ----

  /** A usable step: every number of an accepted batch is below 62^L and within int64. */
  ghost predicate Fits(L: nat, B: nat, step: int) {
    B >= 1 && step >= 0 && B * step < Pow62(L) && B * step < TWO_63
  }

  /** Every step that is not negative is usable, also where the largest code wraps. */
  lemma {:induction false} StepFits(L: nat, B: nat)
    requires B >= 1 && (L <= 10 || Step(L, B) >= 0)
    ensures Fits(L, B, Step(L, B))
  {
    if L <= 10 {
      StepExact(L, B);
      Pow62FitsIff(L);
    } else {
      WrappedStep(Decode(Repeat('Z', L)), B);
      Pow62Monotone(11, L);
      assert Pow62(11) == 52036560683837093888;
    }
  }

  lemma {:induction false} WrappedStep(largest: int, B: int)
    requires B >= 1 && largest < TWO_63 && TruncDiv(largest, B) >= 0
    ensures B * TruncDiv(largest, B) < TWO_63
  {
    if largest >= 0 { Quotient(largest, B); } else { assert TruncDiv(largest, B) == 0; }
  }

  /** No number of an accepted batch wraps; with at most ten characters nor does the increment after the last. */
  lemma {:induction false} NumbersInRange(L: nat, B: nat, step: int, k: int, i: nat)
    requires Fits(L, B, step) && 0 <= k <= step && i <= B && (i < B || L <= 10)
    ensures 0 <= k + i * step < TWO_63
    ensures Number(step, k, i) == k + i * step
    ensures i < B ==> k + i * step < Pow62(L)
  {
    Scaled(i, B, step);
    if L <= 10 { SmallPower(L); }
    NumberClosedForm(step, k, i);
  }

  lemma {:induction false} SmallPower(L: nat)
    requires L <= 10
    ensures 2 * Pow62(L) < TWO_63
  {
    Pow62Monotone(L, 10);
    assert Pow62(5) == 916132832;
    assert Pow62(10) == 839299365868340224 by {
      assert Pow62(10) == 62 * 62 * 62 * 62 * 62 * Pow62(5);
    }
  }

  lemma {:induction false} Scaled(i: int, B: int, step: int)
    requires 0 <= i <= B && 0 <= step && 1 <= B
    ensures 0 <= i * step <= B * step && step <= B * step
    ensures i < B ==> i * step + step <= B * step
  {
    MulMono(0, i, step);
    MulMono(i, B, step);
    MulMono(1, B, step);
    if i < B {
      MulMono(i + 1, B, step);
      assert (i + 1) * step == i * step + step;
    }
  }

  /** The i-th code of batch `k`. */
  function BatchCode(L: nat, step: int, k: int, i: nat): string {
    Encode(Number(step, k, i), L)
  }

  /** The first `n` codes of batch `k` in generation order. */
  function BatchCodes(L: nat, step: int, k: int, n: nat): (r: seq<string>)
    ensures |r| == n
  {
    if n == 0 then [] else BatchCodes(L, step, k, n - 1) + [BatchCode(L, step, k, n - 1)]
  }

  lemma {:induction false} BatchCodesAt(L: nat, step: int, k: int, n: nat)
    ensures forall i :: 0 <= i < n ==> BatchCodes(L, step, k, n)[i] == BatchCode(L, step, k, i)
  {
    if n > 0 { BatchCodesAt(L, step, k, n - 1); }
  }

  /** The codes of all accepted batches below `n`. */
  function AllCodes(L: nat, B: nat, step: int, n: int): seq<string>
    decreases n
  {
    if n <= 0 then []
    else AllCodes(L, B, step, n - 1) + if n - 1 > step then [] else BatchCodes(L, step, n - 1, B)
  }

  lemma {:induction false} AllCodesNext(L: nat, B: nat, step: int, n: int)
    requires 0 <= n <= step
    ensures AllCodes(L, B, step, n + 1) == AllCodes(L, B, step, n) + BatchCodes(L, step, n, B)
  {
  }

  /** How many batches can be generated before codes repeat. */
  function Capacity(B: nat, step: int): int {
    if B == 1 then step + 1 else step
  }

  lemma {:induction false} BatchCodeEq(L: nat, B: nat, step: int, j: int, a: nat, k: int, b: nat)
    requires Fits(L, B, step) && 0 <= j <= step && 0 <= k <= step && a < B && b < B
    ensures BatchCode(L, step, j, a) == BatchCode(L, step, k, b) <==> SameNumber(step, j, a, k, b)
    ensures |BatchCode(L, step, j, a)| == L
  {
    NumbersInRange(L, B, step, j, a);
    NumbersInRange(L, B, step, k, b);
    EncodeInjective(L, Number(step, j, a), Number(step, k, b));
  }

  lemma {:induction false} EncodeInjective(L: nat, x: int, y: int)
    requires 0 <= x < Pow62(L) && 0 <= y < Pow62(L) && x < TWO_63 && y < TWO_63
    ensures Encode(x, L) == Encode(y, L) <==> x == y
    ensures |Encode(x, L)| == L
  {
    DecodeEncode(x, L);
    DecodeEncode(y, L);
    EncodeExactLength(x, L);
  }

  lemma {:induction false} BatchDistinct(L: nat, B: nat, step: int, k: int)
    requires Fits(L, B, step) && 0 <= k < Capacity(B, step)
    ensures Distinct(BatchCodes(L, step, k, B))
  {
    AnyBatchDistinct(L, B, step, k);
  }

  lemma {:induction false} AnyBatchDistinct(L: nat, B: nat, step: int, k: int)
    requires Fits(L, B, step) && 0 <= k <= step && (step >= 1 || B == 1)
    ensures Distinct(BatchCodes(L, step, k, B))
  {
    BatchCodesAt(L, step, k, B);
    forall i, j | 0 <= i < j < B ensures BatchCode(L, step, k, i) != BatchCode(L, step, k, j) {
      BatchCodeEq(L, B, step, k, i, k, j);
      MulMono(1, j - i, step);
      assert j * step == i * step + (j - i) * step;
    }
  }

  /** Every code of the batches below `n`, by its batch and place. */
  lemma {:induction false} AllCodesMember(L: nat, B: nat, step: int, n: int, c: string) returns (k: int, i: nat)
    requires Fits(L, B, step) && c in AllCodes(L, B, step, n)
    ensures 0 <= k < n && k <= step && i < B && c == BatchCode(L, step, k, i) && |c| == L
    decreases n
  {
    if c in AllCodes(L, B, step, n - 1) {
      k, i := AllCodesMember(L, B, step, n - 1, c);
    } else {
      k := n - 1;
      var codes := BatchCodes(L, step, k, B);
      assert c in codes;
      BatchCodesAt(L, step, k, B);
      i :| 0 <= i < B && codes[i] == c;
      BatchCodeEq(L, B, step, k, i, k, i);
    }
  }

  lemma {:induction false} BatchMember(L: nat, B: nat, step: int, n: int, k: int, i: nat)
    requires 0 <= k < n && k <= step && i < B
    ensures BatchCode(L, step, k, i) in AllCodes(L, B, step, n)
    decreases n
  {
    if k == n - 1 {
      BatchCodesAt(L, step, k, B);
      assert BatchCodes(L, step, k, B)[i] in BatchCodes(L, step, k, B);
    } else {
      BatchMember(L, B, step, n - 1, k, i);
    }
  }

  /**
    When the index has reached the step, the strings of the length that were never issued are
    exactly those whose number is B * step or more; by StepExact that is between 1 and B strings.
   */
  lemma {:induction false} UnissuedIff(L: nat, B: nat, step: int, s: string)
    requires L <= 10 && Fits(L, B, step) && step >= 1 && |s| == L && Alphabet(s)
    ensures 0 <= Decode(s) < Pow62(L) && Encode(Decode(s), L) == s
    ensures s !in AllCodes(L, B, step, step) <==> B * step <= Decode(s)
  {
    CodesAreBijective(L);
    if Decode(s) < B * step { IssuedBelow(L, B, step, Decode(s)); }
    if s in AllCodes(L, B, step, step) { BelowWhenIssued(L, B, step, s); }
  }

  lemma {:induction false} IssuedBelow(L: nat, B: nat, step: int, n: int)
    requires Fits(L, B, step) && step >= 1 && 0 <= n < B * step
    ensures Encode(n, L) in AllCodes(L, B, step, step)
  {
    BatchBijection(step, B, 0, 0);
    NumbersInRange(L, B, step, n % step, n / step);
    BatchMember(L, B, step, step, n % step, n / step);
  }

  lemma {:induction false} BelowWhenIssued(L: nat, B: nat, step: int, s: string)
    requires Fits(L, B, step) && step >= 1 && s in AllCodes(L, B, step, step)
    ensures 0 <= Decode(s) < B * step
  {
    var k, i := AllCodesMember(L, B, step, step, s);
    BatchBijection(step, B, k, i);
    NumbersInRange(L, B, step, k, i);
    DecodeEncode(k + i * step, L);
  }

  /** A batch generated below the capacity repeats no earlier code. */
  lemma {:induction false} FreshBatch(L: nat, B: nat, step: int, n: int)
    requires Fits(L, B, step) && 0 <= n < Capacity(B, step)
    ensures Apart(AllCodes(L, B, step, n), BatchCodes(L, step, n, B))
    ensures forall c :: c in BatchCodes(L, step, n, B) ==> |c| == L
  {
    var codes := BatchCodes(L, step, n, B);
    BatchCodesAt(L, step, n, B);
    forall c | c in codes ensures c !in AllCodes(L, B, step, n) && |c| == L {
      var b :| 0 <= b < B && codes[b] == c;
      BatchCodeEq(L, B, step, n, b, n, b);
      if c in AllCodes(L, B, step, n) {
        var j, a := AllCodesMember(L, B, step, n, c);
        BatchCodeEq(L, B, step, j, a, n, b);
        SameNumberIff(step, j, a, n, b);
      }
    }
  }

  /** Up to the capacity all generated codes are distinct. */
  lemma {:induction false} AllCodesDistinct(L: nat, B: nat, step: int, n: int)
    requires Fits(L, B, step) && 0 <= n <= Capacity(B, step)
    ensures Distinct(AllCodes(L, B, step, n))
    decreases n
  {
    if n == 0 {
      assert AllCodes(L, B, step, 0) == [];
    } else {
      var m := n - 1;
      AllCodesDistinct(L, B, step, m);
      FreshBatch(L, B, step, m);
      BatchDistinct(L, B, step, m);
      NextDistinct(L, B, step, m);
      assert n == m + 1;
    }
  }

  lemma {:induction false} NextDistinct(L: nat, B: nat, step: int, n: int)
    requires 0 <= n <= step
    ensures (Distinct(AllCodes(L, B, step, n)) && Distinct(BatchCodes(L, step, n, B))
             && Apart(AllCodes(L, B, step, n), BatchCodes(L, step, n, B)))
            ==> Distinct(AllCodes(L, B, step, n + 1))
  {
    AllCodesNext(L, B, step, n);
    DistinctAppend(AllCodes(L, B, step, n), BatchCodes(L, step, n, B));
  }

  lemma {:induction false} AllCodesSize(L: nat, B: nat, step: int, n: int)
    requires 0 <= n <= step + 1
    ensures |AllCodes(L, B, step, n)| == B * n
    decreases n
  {
    if n > 0 {
      AllCodesSize(L, B, step, n - 1);
      assert B * (n - 1) + B == B * n;
    }
  }

  /** The batch at index step holds all but the first code of batch 0, followed by one new code. */
  lemma {:induction false} BatchAtStepRepeats(L: nat, B: nat, step: int)
    requires Fits(L, B, step) && step >= 1
    ensures BatchCodes(L, step, step, B)[..B - 1] == BatchCodes(L, step, 0, B)[1..]
    ensures BatchCodes(L, step, step, B)[B - 1] !in AllCodes(L, B, step, step)
  {
    BatchCodesAt(L, step, 0, B);
    BatchCodesAt(L, step, step, B);
    var first, repeated := BatchCodes(L, step, 0, B), BatchCodes(L, step, step, B);
    forall i | 0 <= i < B - 1 ensures repeated[i] == first[i + 1] {
      SameNumberIff(step, 0, i + 1, step, i);
      BatchCodeEq(L, B, step, 0, i + 1, step, i);
    }
    LastCodeIsNew(L, B, step);
  }

  lemma {:induction false} LastCodeIsNew(L: nat, B: nat, step: int)
    requires Fits(L, B, step) && step >= 1
    ensures BatchCode(L, step, step, B - 1) !in AllCodes(L, B, step, step)
  {
    var last := BatchCode(L, step, step, B - 1);
    if last in AllCodes(L, B, step, step) {
      var j, a := AllCodesMember(L, B, step, step, last);
      BatchCodeEq(L, B, step, j, a, step, B - 1);
      SameNumberIff(step, j, a, step, B - 1);
    }
  }

  lemma {:induction false} LongEncode(id: int, L: nat)
    requires IsInt64(id) && L >= 11
    ensures |Encode(id, L)| == L
  {
    Pow62Monotone(11, L);
    assert Pow62(11) == 52036560683837093888;
    DigitsLength(id, L);
    ZerosLength(L - |Digits(id)|);
  }

  /** Whatever the length, a generated code has exactly that many characters. */
  lemma {:induction false} CodeLength(L: nat, B: nat, step: int, k: int, i: nat)
    requires B >= 1 && step == Step(L, B) && 0 <= k <= step && i < B
    ensures |BatchCode(L, step, k, i)| == L
  {
    if L <= 10 {
      StepFits(L, B);
      BatchCodeEq(L, B, step, k, i, k, i);
    } else {
      NumberClosedForm(step, k, i);
      LongEncode(Number(step, k, i), L);
    }
  }

  ghost predicate OfLength(codes: seq<string>, L: int) {
    forall c :: c in codes ==> |c| == L
  }

  lemma {:induction false} OfLengthAppend(a: seq<string>, b: seq<string>, L: int)
    ensures OfLength(a, L) && OfLength(b, L) ==> OfLength(a + b, L)
  {
  }

  lemma {:induction false} BatchLength(L: nat, B: nat, step: int, k: int)
    requires B >= 1 && step == Step(L, B) && 0 <= k <= step
    ensures OfLength(BatchCodes(L, step, k, B), L)
  {
    var codes := BatchCodes(L, step, k, B);
    BatchCodesAt(L, step, k, B);
    forall c | c in codes ensures |c| == L {
      var i :| 0 <= i < B && codes[i] == c;
      CodeLength(L, B, step, k, i);
    }
  }

  lemma {:induction false} AllCodesLength(L: nat, B: nat, step: int, n: int)
    requires B >= 1 && step == Step(L, B)
    ensures OfLength(AllCodes(L, B, step, n), L)
  {
    forall k | 0 <= k <= step ensures OfLength(BatchCodes(L, step, k, B), L) {
      BatchLength(L, B, step, k);
    }
    JoinedLength(L, B, step, n);
  }

  lemma {:induction false} JoinedLength(L: nat, B: nat, step: int, n: int)
    requires forall k :: 0 <= k <= step ==> OfLength(BatchCodes(L, step, k, B), L)
    ensures OfLength(AllCodes(L, B, step, n), L)
    decreases n
  {
    if n > 0 {
      JoinedLength(L, B, step, n - 1);
      OfLengthAppend(AllCodes(L, B, step, n - 1), BatchCodes(L, step, n - 1, B), L);
      assert AllCodes(L, B, step, n - 1) + [] == AllCodes(L, B, step, n - 1);
    }
  }
}
