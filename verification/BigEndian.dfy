/**
 Go's byte strings and the big-endian integer fields that every on-disk format of
 the repository is built from. `Put(n, w)` writes the low `w` bytes of `n`, so a
 value that does not fit its field is truncated exactly as Go's conversions do.
 */
module BigEndian {
  newtype byte = x: int | 0 <= x < 256
  type Bytes = seq<byte>

  datatype Option<+T> = None | Some(value: T)

  const U32_LIMIT: nat := 0x1_0000_0000
  const U64_LIMIT: nat := 0x1_0000_0000_0000_0000

  function Pow256(w: nat): nat {
    if w == 0 then 1 else 256 * Pow256(w - 1)
  }

  /** The `w`-byte big-endian field holding `n` modulo 256^w. */
  function Put(n: nat, w: nat): (b: Bytes)
    ensures |b| == w
    decreases w
  {
    if w == 0 then [] else Put(n / 256, w - 1) + [(n % 256) as byte]
  }

  /** The number a big-endian field denotes. */
  function Get(b: Bytes): (n: nat) {
    if b == [] then 0 else 256 * Get(b[..|b| - 1]) + b[|b| - 1] as nat
  }

  /** Reading a field back yields the written value exactly when it fitted. */
  lemma {:induction false} GetPut(n: nat, w: nat)
    ensures Get(Put(n, w)) == n <==> n < Pow256(w)
    decreases w
  {
    GetBound(Put(n, w));
    if w > 0 && n < Pow256(w) {
      GetPut(n / 256, w - 1);
      assert Put(n, w)[..w - 1] == Put(n / 256, w - 1);
    }
  }

  lemma {:induction false} FieldWidths()
    ensures Pow256(1) == 256
    ensures Pow256(4) == U32_LIMIT
    ensures Pow256(8) == U64_LIMIT
  {
    assert Pow256(2) == 65536;
    assert Pow256(4) == 256 * (256 * Pow256(2));
    assert Pow256(6) == 256 * (256 * Pow256(4));
    assert Pow256(8) == 256 * (256 * Pow256(6));
  }

  /** A 32-bit field round-trips every value below 2^32. */
  lemma {:induction false} GetPut32(n: nat)
    ensures Get(Put(n, 4)) == n <==> n < U32_LIMIT
  {
    GetPut(n, 4);
    FieldWidths();
  }

  lemma {:induction false} GetPut64(n: nat)
    ensures Get(Put(n, 8)) == n <==> n < U64_LIMIT
  {
    GetPut(n, 8);
    FieldWidths();
  }

  /** Every byte string of a given width is the field of the number it denotes. */
  lemma {:induction false} PutGet(b: Bytes)
    ensures Put(Get(b), |b|) == b
  {
    if b != [] {
      var h := b[..|b| - 1];
      PutGet(h);
      var last := b[|b| - 1] as nat;
      assert (256 * Get(h) + last) / 256 == Get(h);
      assert (256 * Get(h) + last) % 256 == last;
      assert b == h + [b[|b| - 1]];
    }
  }

  lemma {:induction false} GetBound(b: Bytes)
    ensures Get(b) < Pow256(|b|)
  {
    if b != [] { GetBound(b[..|b| - 1]); }
  }
}
