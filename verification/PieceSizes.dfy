/** FR32 piece sizes: every 127 bytes become 128, then the size is rounded up to a power of two. */
module PieceSizes {

  function Pow2(k: nat): (r: nat)
    ensures r >= 1
  {
    if k == 0 then 1 else 2 * Pow2(k - 1)
  }

  /** A legal padded piece size. */
  ghost predicate PaddedSize(s: nat) {
    exists k: nat :: s == 128 * Pow2(k)
  }

  function Padded(raw: nat): nat {
    if raw <= 127 then 128 else 2 * Padded((raw + 1) / 2)
  }

  function Height(raw: nat): nat {
    if raw <= 127 then 0 else 1 + Height((raw + 1) / 2)
  }

  lemma {:induction false} PaddedHeight(raw: nat)
    ensures Padded(raw) == 128 * Pow2(Height(raw))
    ensures raw <= 127 * Pow2(Height(raw))
  {
    if raw > 127 {
      PaddedHeight((raw + 1) / 2);
    }
  }

  lemma {:induction false} HeightLeast(raw: nat, k: nat)
    requires raw <= 127 * Pow2(k)
    ensures Height(raw) <= k
  {
    if raw > 127 {
      assert k > 0 && 127 * Pow2(k) == 2 * (127 * Pow2(k - 1));
      HeightLeast((raw + 1) / 2, k - 1);
    }
  }

  lemma {:induction false} Pow2Monotone(a: nat, b: nat)
    requires a <= b
    ensures Pow2(a) <= Pow2(b)
    decreases b
  {
    if a < b {
      Pow2Monotone(a, b - 1);
    }
  }

  /** The padded size is the least legal size that can hold the data. */
  lemma PaddedIsLeast(raw: nat)
    ensures PaddedSize(Padded(raw)) && raw <= Padded(raw) / 128 * 127
    ensures forall s: nat :: PaddedSize(s) && raw <= s / 128 * 127 ==> Padded(raw) <= s
  {
    PaddedHeight(raw);
    forall s: nat | PaddedSize(s) && raw <= s / 128 * 127 ensures Padded(raw) <= s {
      var k: nat :| s == 128 * Pow2(k);
      HeightLeast(raw, k);
      Pow2Monotone(Height(raw), k);
    }
  }

  lemma PaddedMonotone(a: nat, b: nat)
    requires a <= b
    ensures Padded(a) <= Padded(b)
  {
    PaddedIsLeast(a);
    PaddedIsLeast(b);
  }

  function PadPieceSize(raw: nat): nat {
    if raw == 0 then 0 else Padded(raw)
  }

  /** PadPieceSize gives nothing for no data, and otherwise the least legal size that holds it. */
  lemma PadPieceSizeIsLeast(raw: nat)
    ensures PadPieceSize(raw) == 0 <==> raw == 0
    ensures raw > 0 ==> PaddedSize(PadPieceSize(raw)) && raw <= PadPieceSize(raw) / 128 * 127
    ensures raw > 0 ==> forall s: nat :: PaddedSize(s) && raw <= s / 128 * 127 ==> PadPieceSize(raw) <= s
  {
    PaddedIsLeast(raw);
  }
}
