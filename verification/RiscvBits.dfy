/** The words of the simulator bit by bit: what the bitwise operators and the shifts
    do at every place. */
module RiscvBits {
  import opened RiscvInstruction

  predicate Bit(w: nat, i: nat)
    decreases i
  {
    if i == 0 then w % 2 == 1 else Bit(w / 2, i - 1)
  }

  /** A word is its 32 bits. */
  lemma {:induction false} SameBits(v: nat, w: nat, n: nat)
    requires v < Pow2(n) && w < Pow2(n)
    requires forall i: nat :: i < n ==> Bit(v, i) == Bit(w, i)
    ensures v == w
  {
    if n > 0 {
      assert Bit(v, 0) == Bit(w, 0);
      forall i: nat | i < n - 1 ensures Bit(v / 2, i) == Bit(w / 2, i) {
        assert Bit(v, i + 1) == Bit(w, i + 1);
      }
      SameBits(v / 2, w / 2, n - 1);
    }
  }

  lemma {:induction false} SignBit(w: nat, n: nat)
    requires 0 < n && w < Pow2(n)
    ensures Bit(w, n - 1) <==> w >= Pow2(n - 1)
  {
    if n > 1 { SignBit(w / 2, n - 1); }
  }

  lemma {:induction false} BitwiseAt(op: AluOp, a: nat, b: nat, n: nat, i: nat)
    requires i < n
    ensures Bit(Bitwise(op, a, b, n), i) <==> BitOf(op, Bit(a, i), Bit(b, i))
  {
    if i > 0 { BitwiseAt(op, a / 2, b / 2, n - 1, i - 1); }
  }

  lemma BitwiseBits(a: Word, b: Word, i: nat)
    requires i < 32
    ensures Bit(BitAnd(a, b), i) <==> Bit(a, i) && Bit(b, i)
    ensures Bit(BitOr(a, b), i) <==> Bit(a, i) || Bit(b, i)
    ensures Bit(BitXor(a, b), i) <==> Bit(a, i) != Bit(b, i)
  {
    BitwiseAt(And, a, b, 32, i);
    BitwiseAt(Or, a, b, 32, i);
    BitwiseAt(Xor, a, b, 32, i);
  }

  /** The places below `n` do not see what is cut off above. */
  lemma {:induction false} CutAt(w: nat, n: nat, i: nat)
    requires i < n
    ensures Bit(w % Pow2(n), i) == Bit(w, i)
  {
    HalfOfCut(w, n);
    if i > 0 { CutAt(w / 2, n - 1, i - 1); }
  }

  lemma HalfOfCut(w: nat, n: nat)
    requires 0 < n
    ensures w % Pow2(n) / 2 == w / 2 % Pow2(n - 1)
    ensures w % Pow2(n) % 2 == w % 2
  {
    var p, h, r := Pow2(n - 1), w / 2, w % 2;
    var q, m := h / p, h % p;
    assert h == q * p + m;
    assert w == 2 * m + r + q * (2 * p);
    Cut(2 * m + r, q, 2 * p);
  }

  lemma Cut(low: nat, high: nat, size: nat)
    requires low < size
    ensures (low + high * size) % size == low && (low + high * size) / size == high
  {
    var w := low + high * size;
    var d := w / size - high;
    assert d * size == low - w % size;
    Multiple(d, size);
  }

  lemma Multiple(d: int, p: int)
    requires p >= 0
    ensures d >= 1 ==> d * p >= p
    ensures d <= -1 ==> d * p <= -p
  {
  }

  lemma {:induction false} LeftAt(a: Word, n: nat, i: nat)
    requires i < 32
    ensures Bit(LeftBy(a, n), i) <==> i >= n && Bit(a, i - n)
    decreases n
  {
    if n > 0 {
      var b := 2 * a % MODULUS;
      LeftAt(b, n - 1, i);
      if i >= n - 1 {
        WordSize();
        CutAt(2 * a, 32, i - (n - 1));
      }
    }
  }

  /** One place to the right, with `fill` coming in at the top. */
  lemma HalfAt(a: Word, fill: bool, i: nat)
    requires i < 32
    ensures Bit(a / 2 + (if fill then 0x8000_0000 else 0), i) <==> if i < 31 then Bit(a, i + 1) else fill
  {
    var b := a / 2 + (if fill then 0x8000_0000 else 0);
    WordSize();
    if i < 31 {
      CutAt(b, 31, i);
    } else {
      SignBit(b, 32);
    }
  }

  lemma {:induction false} RightAt(a: Word, n: nat, fill: bool, i: nat)
    requires i < 32
    ensures Bit(RightBy(a, n, fill), i) <==> if i + n < 32 then Bit(a, i + n) else fill
    decreases n
  {
    if n > 0 {
      var b := a / 2 + (if fill then 0x8000_0000 else 0);
      RightAt(b, n - 1, fill, i);
      if i + n - 1 < 32 { HalfAt(a, fill, i + n - 1); }
    }
  }

  lemma NegativeBit(a: Word)
    ensures Negative(a) == Bit(a, 31)
  {
    WordSize();
    SignBit(a, 32);
  }

  lemma ShiftBits(a: Word, b: Word, i: nat)
    requires i < 32
    ensures Bit(ShiftLeft(a, b), i) <==> i >= b % 32 && Bit(a, i - b % 32)
    ensures Bit(ShiftRight(a, b), i) <==> i + b % 32 < 32 && Bit(a, i + b % 32)
    ensures Bit(ShiftRightArithmetic(a, b), i) <==> Bit(a, if i + b % 32 < 32 then i + b % 32 else 31)
  {
    LeftAt(a, b % 32, i);
    RightAt(a, b % 32, false, i);
    RightAt(a, b % 32, Negative(a), i);
    NegativeBit(a);
  }
}
