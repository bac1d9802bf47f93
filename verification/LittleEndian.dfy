/** Fixed-width unsigned numbers, least significant byte first. */
module LittleEndian {
  import opened Types

  type Bytes = seq<u8>

  const U16_LIMIT := 0x1_0000

  function Le16(x: u16): (r: Bytes)
    ensures |r| == 2
  {
    [x % 0x100, x / 0x100]
  }

  function Le32(x: u32): (r: Bytes)
    ensures |r| == 4
  {
    Le16(x % U16_LIMIT) + Le16(x / U16_LIMIT)
  }

  function Le64(x: u64): (r: Bytes)
    ensures |r| == 8
  {
    Le32(x % U32_LIMIT) + Le32(x / U32_LIMIT)
  }

  function U16At(data: Bytes, at: nat): u16
    requires at + 2 <= |data|
  {
    var b0: int, b1: int := data[at], data[at + 1];
    b0 + 0x100 * b1
  }

  function U32At(data: Bytes, at: nat): u32
    requires at + 4 <= |data|
  {
    var low: int, high: int := U16At(data, at), U16At(data, at + 2);
    low + U16_LIMIT * high
  }

  function U64At(data: Bytes, at: nat): u64
    requires at + 8 <= |data|
  {
    var low: int, high: int := U32At(data, at), U32At(data, at + 4);
    low + U32_LIMIT * high
  }

  /** Each byte counts 256 times the one before it. */
  lemma NumbersByByte(data: Bytes, at: nat)
    ensures at + 2 <= |data| ==> U16At(data, at) == Digits(data, at, 2)
    ensures at + 4 <= |data| ==> U32At(data, at) == Digits(data, at, 4)
    ensures at + 8 <= |data| ==> U64At(data, at) == Digits(data, at, 8)
  {
    if at + 2 <= |data| {
      TwoDigits(data, at);
    }
    if at + 4 <= |data| {
      FourDigits(data, at);
    }
    if at + 8 <= |data| {
      FourDigits(data, at + 4);
      assert Digits(data, at + 2, 6) == Digits(data, at + 2, 2) + 65536 * Digits(data, at + 4, 4) by {
        var a, b: int := data[at + 2], data[at + 3];
        assert Digits(data, at + 3, 5) == b + 256 * Digits(data, at + 4, 4);
      }
    }
  }

  function Digits(data: Bytes, at: nat, n: nat): nat
    requires at + n <= |data|
    decreases n
  {
    if n == 0 then 0
    else
      var first: int := data[at];
      first + 256 * Digits(data, at + 1, n - 1)
  }

  lemma TwoDigits(data: Bytes, at: nat)
    requires at + 2 <= |data|
    ensures U16At(data, at) == Digits(data, at, 2)
  {
    assert Digits(data, at + 1, 1) == data[at + 1] + 256 * Digits(data, at + 2, 0);
  }

  lemma FourDigits(data: Bytes, at: nat)
    requires at + 4 <= |data|
    ensures U32At(data, at) == Digits(data, at, 4)
  {
    TwoDigits(data, at);
    TwoDigits(data, at + 2);
    assert Digits(data, at + 1, 3) == data[at + 1] + 256 * Digits(data, at + 2, 2);
  }

  /** The bytes from `at` on start with `field`. */
  ghost predicate Starts(data: Bytes, at: nat, field: Bytes) {
    at + |field| <= |data| && forall k :: 0 <= k < |field| ==> data[at + k] == field[k]
  }

  lemma StartsBoth(data: Bytes, at: nat, a: Bytes, b: Bytes)
    ensures Starts(data, at, a + b) <==> Starts(data, at, a) && Starts(data, at + |a|, b)
  {
    if Starts(data, at, a + b) {
      forall k | 0 <= k < |a|
        ensures data[at + k] == a[k]
      {
        assert (a + b)[k] == a[k];
      }
      forall k | 0 <= k < |b|
        ensures data[at + |a| + k] == b[k]
      {
        assert (a + b)[|a| + k] == b[k] && data[at + (|a| + k)] == b[k];
      }
    }
    if Starts(data, at, a) && Starts(data, at + |a|, b) {
      forall k | 0 <= k < |a + b|
        ensures data[at + k] == (a + b)[k]
      {
        assert k >= |a| ==> data[at + |a| + (k - |a|)] == b[k - |a|];
      }
    }
  }

  // ----- a field reads as `x` exactly when its bytes are those of `x` -------------------------

  lemma Le16At(data: Bytes, at: nat, x: u16)
    requires at + 2 <= |data|
    ensures U16At(data, at) == x <==> Starts(data, at, Le16(x))
  {
    assert Starts(data, at, Le16(x)) <==> data[at + 0] == Le16(x)[0] && data[at + 1] == Le16(x)[1];
  }

  lemma Le32At(data: Bytes, at: nat, x: u32)
    requires at + 4 <= |data|
    ensures U32At(data, at) == x <==> Starts(data, at, Le32(x))
  {
    Le16At(data, at, x % U16_LIMIT);
    Le16At(data, at + 2, x / U16_LIMIT);
    StartsBoth(data, at, Le16(x % U16_LIMIT), Le16(x / U16_LIMIT));
  }

  lemma Le64At(data: Bytes, at: nat, x: u64)
    requires at + 8 <= |data|
    ensures U64At(data, at) == x <==> Starts(data, at, Le64(x))
  {
    Le32At(data, at, x % U32_LIMIT);
    Le32At(data, at + 4, x / U32_LIMIT);
    StartsBoth(data, at, Le32(x % U32_LIMIT), Le32(x / U32_LIMIT));
  }
}
