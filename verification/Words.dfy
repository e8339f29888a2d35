/** Machine words as numbers below 2^64, read bit by bit.

A `uint64` is an integer 0 <= w < 2^64; its bits are read by halving. The Go operators `&`, `|`
and `^` are defined on that reading, so every wrap-around is visible as arithmetic. */
module Words {

  const WORD_BITS: nat := 64
  const WORD_LIMIT: nat := 0x1_0000_0000_0000_0000

  type Word = w: nat | w < WORD_LIMIT

  function Pow2(n: nat): (p: nat)
    ensures p >= 1
  {
    if n == 0 then 1 else 2 * Pow2(n - 1)
  }

  lemma Pow2Values()
    ensures Pow2(1) == 2 && Pow2(2) == 4 && Pow2(4) == 0x10 && Pow2(8) == 0x100
    ensures Pow2(16) == 0x1_0000 && Pow2(32) == 0x1_0000_0000 && Pow2(64) == WORD_LIMIT
  {
    assert Pow2(4) == 0x10;
    Pow2Add(4, 4);
    Pow2Add(8, 8);
    Pow2Add(16, 16);
    Pow2Add(32, 32);
  }

  lemma Doubled(x: int, y: int)
    ensures x * (2 * y) == 2 * (x * y) && (2 * x) * y == 2 * (x * y)
  {
  }

  lemma {:induction false} Pow2Add(a: nat, b: nat)
    ensures Pow2(a + b) == Pow2(a) * Pow2(b)
  {
    if a > 0 {
      Pow2Add(a - 1, b);
      Doubled(Pow2(a - 1), Pow2(b));
    }
  }

  lemma {:induction false} Pow2Monotone(a: nat, b: nat)
    requires a <= b
    ensures Pow2(a) <= Pow2(b)
  {
    if a < b {
      Pow2Monotone(a, b - 1);
    }
  }

  /** Bit `k` of `w`, counting from the least significant. */
  predicate Bit(w: nat, k: nat) {
    if k == 0 then w % 2 == 1 else Bit(w / 2, k - 1)
  }

  /** The positions of the bits set in a word. */
  function Bits(w: nat): set<nat> {
    set k: nat | k < WORD_BITS && Bit(w, k)
  }

  function BitAnd(a: nat, b: nat): nat {
    if a == 0 then 0 else 2 * BitAnd(a / 2, b / 2) + (a % 2) * (b % 2)
  }

  function BitOr(a: nat, b: nat): nat
    decreases a + b
  {
    if a == 0 && b == 0 then 0
    else 2 * BitOr(a / 2, b / 2) + (if a % 2 == 1 || b % 2 == 1 then 1 else 0)
  }

  /** Go's `^w`. */
  function Not(w: Word): Word {
    WORD_LIMIT - 1 - w
  }

  /** Go's `uint64(1) << k`: shifting by the width or more leaves no bit. */
  function ShlOne(k: nat): (w: Word) {
    if k < WORD_BITS then Pow2Values(); Pow2Monotone(k, 63); Pow2(k) else 0
  }

  /** Go's `uint(n)` conversion of a signed integer. */
  function AsUint(n: int): Word {
    n % WORD_LIMIT
  }

  /** Go's `/` and `%` on signed integers truncate toward zero. */
  function TruncDiv(a: int, b: int): int
    requires b != 0
  {
    if a >= 0 then a / b else -((-a) / b)
  }

  function TruncMod(a: int, b: int): int
    requires b != 0
  {
    a - TruncDiv(a, b) * b
  }

  // ---- the bit reading determines the number ----

  lemma {:induction false} ZeroHasNoBit(k: nat)
    ensures !Bit(0, k)
  {
    if k > 0 {
      ZeroHasNoBit(k - 1);
    }
  }

  lemma {:induction false} HighBitsClear(w: nat, n: nat, k: nat)
    requires w < Pow2(n) && n <= k
    ensures !Bit(w, k)
  {
    if n == 0 {
      ZeroHasNoBit(k);
    } else {
      HighBitsClear(w / 2, n - 1, k - 1);
    }
  }

  lemma {:induction false} BitsDetermine(a: nat, b: nat, n: nat)
    requires a < Pow2(n) && b < Pow2(n)
    requires forall k: nat :: k < n ==> Bit(a, k) == Bit(b, k)
    ensures a == b
  {
    if n > 0 {
      assert Bit(a, 0) == Bit(b, 0);
      forall k: nat | k < n - 1 ensures Bit(a / 2, k) == Bit(b / 2, k) {
        assert Bit(a, k + 1) == Bit(b, k + 1);
      }
      BitsDetermine(a / 2, b / 2, n - 1);
    }
  }

  /** A word is nonzero exactly when one of its bits is set. */
  lemma NonzeroHasBit(w: Word)
    ensures w != 0 <==> Bits(w) != {}
  {
    Pow2Values();
    if w == 0 {
      forall k: nat ensures k !in Bits(0) { ZeroHasNoBit(k); }
    } else if Bits(w) == {} {
      forall k: nat | k < 64 ensures Bit(w, k) == Bit(0, k) {
        ZeroHasNoBit(k);
        assert k !in Bits(w);
      }
      BitsDetermine(w, 0, 64);
    }
  }

  lemma WordsEqualIffBits(a: Word, b: Word)
    ensures a == b <==> Bits(a) == Bits(b)
  {
    if Bits(a) == Bits(b) {
      Pow2Values();
      forall k: nat | k < 64 ensures Bit(a, k) == Bit(b, k) {
        assert k in Bits(a) <==> k in Bits(b);
      }
      BitsDetermine(a, b, 64);
    }
  }

  // ---- the operators act bit by bit ----

  lemma {:induction false} BitAndAt(a: nat, b: nat, k: nat)
    ensures Bit(BitAnd(a, b), k) == (Bit(a, k) && Bit(b, k))
  {
    if a == 0 {
      ZeroHasNoBit(k);
    } else {
      var low := (a % 2) * (b % 2);
      assert low == 0 || low == 1;
      if k > 0 {
        BitAndAt(a / 2, b / 2, k - 1);
      }
    }
  }

  lemma {:induction false} BitAndBound(a: nat, b: nat)
    ensures BitAnd(a, b) <= a
  {
    if a > 0 {
      BitAndBound(a / 2, b / 2);
      assert (a % 2) * (b % 2) <= a % 2;
    }
  }

  lemma {:induction false} BitOrAt(a: nat, b: nat, k: nat)
    ensures Bit(BitOr(a, b), k) == (Bit(a, k) || Bit(b, k))
    decreases k
  {
    if a == 0 && b == 0 {
      ZeroHasNoBit(k);
    } else if k > 0 {
      BitOrAt(a / 2, b / 2, k - 1);
    }
  }

  lemma {:induction false} BitOrBound(a: nat, b: nat, n: nat)
    requires a < Pow2(n) && b < Pow2(n)
    ensures BitOr(a, b) < Pow2(n)
  {
    if n > 0 {
      BitOrBound(a / 2, b / 2, n - 1);
    }
  }

  lemma {:induction false} ComplementAt(w: nat, n: nat, k: nat)
    requires w < Pow2(n) && k < n
    ensures Bit(Pow2(n) - 1 - w, k) == !Bit(w, k)
  {
    var c: nat := Pow2(n) - 1 - w;
    assert c % 2 == 1 - w % 2 && c / 2 == Pow2(n - 1) - 1 - w / 2;
    if k > 0 {
      ComplementAt(w / 2, n - 1, k - 1);
    }
  }

  lemma {:induction false} Pow2BitAt(n: nat, k: nat)
    ensures Bit(Pow2(n), k) == (k == n)
  {
    if n == 0 {
      if k > 0 { ZeroHasNoBit(k - 1); }
    } else if k > 0 {
      Pow2BitAt(n - 1, k - 1);
    }
  }

  /** `2^n - 1` has exactly the `n` lowest bits. */
  lemma {:induction false} LowMaskAt(n: nat, k: nat)
    ensures Bit(Pow2(n) - 1, k) == (k < n)
  {
    if n == 0 {
      ZeroHasNoBit(k);
    } else {
      assert (Pow2(n) - 1) / 2 == Pow2(n - 1) - 1;
      if k > 0 {
        LowMaskAt(n - 1, k - 1);
      }
    }
  }

  // ---- the same at word width, as sets ----

  function OrWord(a: Word, b: Word): (r: Word)
    ensures Bits(r) == Bits(a) + Bits(b)
  {
    Pow2Values();
    BitOrBound(a, b, 64);
    assert Bits(BitOr(a, b)) == Bits(a) + Bits(b) by {
      forall k: nat ensures k in Bits(BitOr(a, b)) <==> k in Bits(a) + Bits(b) { BitOrAt(a, b, k); }
    }
    BitOr(a, b)
  }

  function AndWord(a: Word, b: Word): (r: Word)
    ensures Bits(r) == Bits(a) * Bits(b)
  {
    BitAndBound(a, b);
    assert Bits(BitAnd(a, b)) == Bits(a) * Bits(b) by {
      forall k: nat ensures k in Bits(BitAnd(a, b)) <==> k in Bits(a) * Bits(b) { BitAndAt(a, b, k); }
    }
    BitAnd(a, b)
  }

  lemma NotBits(w: Word)
    ensures Bits(Not(w)) == (set k: nat | k < WORD_BITS && k !in Bits(w))
  {
    Pow2Values();
    forall k: nat | k < 64 ensures Bit(Not(w), k) == !Bit(w, k) { ComplementAt(w, 64, k); }
  }

  lemma ShlOneBits(k: nat)
    ensures Bits(ShlOne(k)) == if k < WORD_BITS then {k} else {}
  {
    forall j: nat ensures j in Bits(ShlOne(k)) <==> j < WORD_BITS && j == k {
      if k < WORD_BITS { Pow2BitAt(k, j); } else { ZeroHasNoBit(j); }
    }
  }

  /** `(1 << n) - 1`. */
  function LowOnes(n: nat): (r: Word)
    requires n < WORD_BITS
    ensures forall k: nat :: Bit(r, k) <==> k < n
  {
    var r := ShlOne(n) - 1;
    assert forall k: nat :: Bit(r, k) <==> k < n by {
      forall k: nat ensures Bit(r, k) <==> k < n { LowMaskAt(n, k); }
    }
    r
  }

  // ---- splitting a number at a bit position ----

  /** `w >> n`. */
  function Shr(w: nat, n: nat): (r: nat)
    ensures r <= w
  {
    if n == 0 then w else Shr(w / 2, n - 1)
  }

  /** The `n` lowest bits of `w`, as a number. */
  function LowPart(w: nat, n: nat): nat {
    if n == 0 then 0 else 2 * LowPart(w / 2, n - 1) + w % 2
  }

  lemma HalfOf(x: nat, low: nat)
    ensures (2 * x + low) / 2 == x + low / 2 && (2 * x + low) % 2 == low % 2
  {
  }

  /** Shifting and keeping the low part is division with remainder by `2^n`. */
  lemma {:induction false} Split(w: nat, n: nat)
    ensures w == Shr(w, n) * Pow2(n) + LowPart(w, n) && LowPart(w, n) < Pow2(n)
  {
    if n > 0 {
      Split(w / 2, n - 1);
      Doubled(Shr(w, n), Pow2(n - 1));
    }
  }

  lemma {:induction false} Compose(high: nat, low: nat, n: nat)
    requires low < Pow2(n)
    ensures high * Pow2(n) + low >= 0
    ensures Shr(high * Pow2(n) + low, n) == high && LowPart(high * Pow2(n) + low, n) == low
  {
    if n > 0 {
      Compose(high, low / 2, n - 1);
      Doubled(high, Pow2(n - 1));
      HalfOf(high * Pow2(n - 1), low);
    }
  }

  lemma {:induction false} ShrAt(w: nat, n: nat, k: nat)
    ensures Bit(Shr(w, n), k) == Bit(w, n + k)
  {
    if n > 0 {
      ShrAt(w / 2, n - 1, k);
    }
  }

  lemma {:induction false} LowPartAt(w: nat, n: nat, k: nat)
    ensures Bit(LowPart(w, n), k) == (k < n && Bit(w, k))
  {
    if n == 0 {
      ZeroHasNoBit(k);
    } else if k > 0 {
      LowPartAt(w / 2, n - 1, k - 1);
    }
  }

  /** `w & (2^n - 1)` is the remainder modulo `2^n`. */
  lemma {:induction false} LowMaskIsRemainder(w: nat, n: nat)
    ensures BitAnd(w, Pow2(n) - 1) == LowPart(w, n)
  {
    if w == 0 {
      LowPartOfZero(n);
    } else if n == 0 {
      AndZero(w);
    } else {
      LowMaskIsRemainder(w / 2, n - 1);
      var m := Pow2(n) - 1;
      assert m / 2 == Pow2(n - 1) - 1 && m % 2 == 1;
    }
  }

  lemma {:induction false} AndZero(w: nat)
    ensures BitAnd(w, 0) == 0
  {
    if w > 0 {
      AndZero(w / 2);
    }
  }

  lemma {:induction false} LowPartOfZero(n: nat)
    ensures LowPart(0, n) == 0
  {
    if n > 0 {
      LowPartOfZero(n - 1);
    }
  }

  /** `w & (w - 1)` drops exactly one set bit, the lowest. */
  lemma {:induction false} ClearLowest(w: nat) returns (low: nat)
    requires w > 0
    ensures Bit(w, low)
    ensures forall k: nat :: Bit(BitAnd(w, w - 1), k) == (Bit(w, k) && k != low)
    ensures forall k: nat :: k < low ==> !Bit(w, k)
  {
    if w % 2 == 1 {
      low := 0;
      forall k: nat ensures Bit(BitAnd(w, w - 1), k) == (Bit(w, k) && k != 0) {
        BitAndAt(w, w - 1, k);
        assert (w - 1) / 2 == w / 2;
      }
    } else {
      var h := ClearLowest(w / 2);
      low := h + 1;
      assert (w - 1) / 2 == w / 2 - 1 && (w - 1) % 2 == 1;
      assert BitAnd(w, w - 1) == 2 * BitAnd(w / 2, w / 2 - 1);
      forall k: nat ensures Bit(BitAnd(w, w - 1), k) == (Bit(w, k) && k != low) {
        if k > 0 {
          assert Bit(BitAnd(w / 2, w / 2 - 1), k - 1) == (Bit(w / 2, k - 1) && k - 1 != h);
        }
      }
      forall k: nat | k < low ensures !Bit(w, k) {
        if k > 0 { assert !Bit(w / 2, k - 1); }
      }
    }
  }
}
