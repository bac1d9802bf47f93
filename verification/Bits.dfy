/** Single bits of unsigned words. */
module Bits {

  function Power(n: nat): nat { if n == 0 then 1 else 2 * Power(n - 1) }

  lemma EightMore(n: nat)
    ensures Power(n + 8) == 0x100 * Power(n)
  {
    assert Power(n + 8) == 2 * Power(n + 7) == 4 * Power(n + 6) == 8 * Power(n + 5) == 16 * Power(n + 4);
    assert Power(n + 4) == 2 * Power(n + 3) == 4 * Power(n + 2) == 8 * Power(n + 1);
  }

  lemma WordSizes()
    ensures Power(8) == 0x100
    ensures Power(64) == 0x1_0000_0000_0000_0000
  {
    EightMore(0);
    EightMore(8);
    EightMore(16);
    EightMore(24);
    EightMore(32);
    EightMore(40);
    EightMore(48);
    EightMore(56);
  }

  /** Bit `k` of a word: shift right `k` places and look at the lowest bit. */
  predicate TestBit(w: nat, k: nat)
    decreases k
  {
    if k == 0 then w % 2 == 1 else TestBit(w / 2, k - 1)
  }

  /** The word with bit `k` raised: `w | 1 << k`. */
  function RaiseBit(w: nat, k: nat): nat
    decreases k
  {
    if k == 0 then w / 2 * 2 + 1 else 2 * RaiseBit(w / 2, k - 1) + w % 2
  }

  lemma {:induction false} RaiseBitEffect(w: nat, a: nat, b: nat)
    ensures TestBit(RaiseBit(w, a), b) <==> a == b || TestBit(w, b)
    decreases a
  {
    var r := RaiseBit(w, a);
    if a == 0 {
      assert r / 2 == w / 2;
    } else {
      assert r / 2 == RaiseBit(w / 2, a - 1) && r % 2 == w % 2;
      if b > 0 {
        RaiseBitEffect(w / 2, a - 1, b - 1);
      }
    }
  }

  lemma {:induction false} RaiseBitFits(w: nat, k: nat, n: nat)
    requires k < n && w < Power(n)
    ensures RaiseBit(w, k) < Power(n)
    decreases k
  {
    if k > 0 {
      RaiseBitFits(w / 2, k - 1, n - 1);
    }
  }

  lemma {:induction false} NoBits(k: nat)
    ensures !TestBit(0, k)
  {
    if k > 0 {
      NoBits(k - 1);
    }
  }
}
