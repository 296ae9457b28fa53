/** The software fallback of __RBIT in cmsis_gcc.h: an early-exit bit loop, proved equal to the
    plain 32-step reversal, whose bits and whose involution are proved as lemmas. */
module BitReverse {

  const LAST_BIT: bv32 := 31

  /** Bit i of v. */
  function Bit(v: bv32, i: bv32): bv32
    requires i < 32
  {
    (v >> i) & 1
  }

  /** One more bit at the low end. */
  function Push(r: bv32, b: bv32): bv32 { (r << 1) | b }

  /** n steps of the plain reversal: the low n bits of v in reverse order. */
  function Reversed(v: bv32, n: bv32): bv32
    requires n <= 32
  {
    if n == 0 then 0 else Push(Reversed(v, n - 1), Bit(v, n - 1))
  }

  /** Bits above all set bits of v reverse to zeros, so the loop may stop and shift once. */
  lemma {:induction false} HighZeros(v: bv32, n: bv32, s: bv32)
    requires n <= 32 && s <= 32 && n + s == 32 && v >> n == 0
    ensures Reversed(v, 32) == Reversed(v, n) << s
    decreases s
  {
    if s > 0 {
      HighZeros(v, n + 1, s - 1);
    }
  }

  /** The bits of the word not read yet when s shifts remain. */
  function Unread(word: bv32, s: bv32): bv32
    requires s <= 31
  {
    word >> (32 - s)
  }

  /** What the s remaining shifts will leave of r. */
  function Kept(r: bv32, s: bv32): bv32
    requires s <= 31
  {
    r << s
  }

  lemma NextStep(word: bv32, r: bv32, s: bv32)
    requires s <= 31 && Unread(word, s) != 0 && Kept(r, s) == Kept(Reversed(word, 32 - s), s)
    ensures 1 <= s && Unread(word, s) >> 1 == Unread(word, s - 1)
    ensures Kept(Push(r, Unread(word, s) & 1), s - 1) == Kept(Reversed(word, 33 - s), s - 1)
  {
    StepsRemain(word, s);
    ReversedNext(word, s);
    hide Reversed, Unread, Kept, Push;
    ShiftIn(r, Reversed(word, 32 - s), Unread(word, s) & 1, s);
  }

  lemma StepsRemain(word: bv32, s: bv32)
    requires s <= 31 && Unread(word, s) != 0
    ensures 1 <= s && Unread(word, s) >> 1 == Unread(word, s - 1)
  {
  }

  lemma ReversedNext(word: bv32, s: bv32)
    requires 1 <= s <= 31
    ensures Reversed(word, 33 - s) == Push(Reversed(word, 32 - s), Unread(word, s) & 1)
  {
    hide Reversed, Bit, Unread, Push;
    StepCount(s);
    ReversedUnfold(word, 33 - s, 32 - s);
    UnreadBit(word, s);
  }

  lemma StepCount(s: bv32)
    requires 1 <= s <= 31
    ensures 1 <= 33 - s <= 32 && 33 - s - 1 == 32 - s
  {
  }

  lemma ReversedUnfold(v: bv32, n: bv32, m: bv32)
    requires 1 <= n <= 32 && m == n - 1
    ensures m <= 32 && m < 32 && Reversed(v, n) == Push(Reversed(v, m), Bit(v, m))
  {
    hide Bit, Push;
  }

  lemma UnreadBit(word: bv32, s: bv32)
    requires 1 <= s <= 31
    ensures Bit(word, 32 - s) == Unread(word, s) & 1
  {
  }

  lemma ShiftIn(r: bv32, q: bv32, b: bv32, s: bv32)
    requires 1 <= s <= 31 && Kept(r, s) == Kept(q, s)
    ensures Kept(Push(r, b), s - 1) == Kept(Push(q, b), s - 1)
  {
    ShiftedPush(r, q, b, s);
  }

  lemma ShiftedPush(r: bv32, q: bv32, b: bv32, s: bv32)
    requires 1 <= s <= 31 && r << s == q << s
    ensures ((r << 1) | b) << (s - 1) == ((q << 1) | b) << (s - 1)
  {
  }

  lemma FirstStep(word: bv32)
    ensures Kept(word, 31) == Kept(Reversed(word, 1), 31) && word >> 1 == Unread(word, 31)
  {
    assert Reversed(word, 1) == Push(Reversed(word, 0), Bit(word, 0));
  }

  lemma LastStep(word: bv32, r: bv32, s: bv32)
    requires s <= 31 && Unread(word, s) == 0 && Kept(r, s) == Kept(Reversed(word, 32 - s), s)
    ensures r << s == Reversed(word, 32)
  {
    HighZeros(word, 32 - s, s);
  }

  method Rbit(word: bv32) returns (result: bv32)
    ensures result == Reversed(word, 32)
  {
    hide Kept, Unread, Reversed;
    var value := word;
    var s := LAST_BIT;
    result := value;
    value := value >> 1;
    FirstStep(word);
    while value != 0
      invariant s <= 31 && value == Unread(word, s)
      invariant Kept(result, s) == Kept(Reversed(word, 32 - s), s)
      decreases s
    {
      NextStep(word, result, s);
      result := result << 1;
      result := result | (value & 1);
      s := s - 1;
      value := value >> 1;
    }
    LastStep(word, result, s);
    result := result << s;
  }

  lemma {:induction false} ReversedBit(v: bv32, n: bv32, i: bv32)
    requires n <= 32 && i < 32
    ensures Bit(Reversed(v, n), i) == if i < n then Bit(v, n - 1 - i) else 0
    decreases n
  {
    if n == 0 {
      NothingReversed(v, i);
    } else {
      hide Reversed, Bit, Push;
      var m := n - 1;
      ReversedUnfold(v, n, m);
      OneBit(v, m);
      ShiftedBit(Reversed(v, m), Bit(v, m), i);
      if i > 0 {
        ReversedBit(v, m, i - 1);
        Mirrored(n, i);
      }
    }
  }

  lemma NothingReversed(v: bv32, i: bv32)
    requires i < 32
    ensures Bit(Reversed(v, 0), i) == 0
  {
  }

  lemma OneBit(v: bv32, i: bv32)
    requires i < 32
    ensures Bit(v, i) <= 1
  {
  }

  lemma Mirrored(n: bv32, i: bv32)
    requires 1 <= n <= 32 && 1 <= i < 32
    ensures (i < n <==> i - 1 < n - 1) && n - 1 - 1 - (i - 1) == n - 1 - i
  {
  }

  lemma ShiftedBit(q: bv32, b: bv32, i: bv32)
    requires i < 32 && b <= 1
    ensures Bit(Push(q, b), i) == if i == 0 then b else Bit(q, i - 1)
  {
  }

  /** Bit i of the result is bit 31 - i of the input, for every word. */
  lemma MirrorsEveryBit(v: bv32, i: bv32)
    requires i < 32
    ensures Bit(Reversed(v, 32), i) == Bit(v, 31 - i)
  {
    ReversedBit(v, 32, i);
  }

  lemma SameNextBit(a: bv32, b: bv32, n: bv32)
    requires 1 <= n <= 32 && a << (33 - n) == b << (33 - n) && (a >> (n - 1)) & 1 == (b >> (n - 1)) & 1
    ensures a << (32 - n) == b << (32 - n)
  {
  }

  /** Two words that agree bit by bit below n agree once the other bits are shifted out. */
  lemma {:induction false} SameLowBits(a: bv32, b: bv32, n: bv32)
    requires n <= 32 && forall i: bv32 :: i < n ==> Bit(a, i) == Bit(b, i)
    ensures a << (32 - n) == b << (32 - n)
    decreases n
  {
    if n > 0 {
      SameLowBits(a, b, n - 1);
      assert Bit(a, n - 1) == Bit(b, n - 1);
      SameNextBit(a, b, n);
    }
  }

  /** Reversing twice gives the word back. */
  lemma ReversalUndoesItself(v: bv32)
    ensures Reversed(Reversed(v, 32), 32) == v
  {
    hide Reversed, Bit;
    var r := Reversed(v, 32);
    forall i: bv32 | i < 32 ensures Bit(Reversed(r, 32), i) == Bit(v, i) {
      MirrorsEveryBit(r, i);
      MirrorsEveryBit(v, 31 - i);
    }
    SameLowBits(Reversed(r, 32), v, 32);
  }
}
