/** Which block-linear modifiers suit an image: the block height a modifier names must not exceed
    the one the driver gives an image of that height. */
module Modifiers {
  const LINEAR: nat := 0
  const INVALID: nat := 0xff_ffff_ffff_ffff

  /** NVIDIA block-linear modifiers of the two GOB generations with eight-row GOBs. */
  predicate Covered(modifier: nat) {
    && modifier / 0x100_0000_0000_0000 == 3 && modifier / 16 % 2 == 1
    && modifier / 0x10_0000 % 4 in {0, 2}
  }

  function Pow2(n: nat): (r: nat)
    ensures r >= 1
  { if n == 0 then 1 else 2 * Pow2(n - 1) }

  function GobRows(height: nat): nat { height / 8 + if height % 8 != 0 then 1 else 0 }

  /** Halvings, rounding up, until one row of GOBs is left. */
  function CeilLog2(rows: nat): nat {
    if rows <= 1 then 0 else 1 + CeilLog2(rows / 2 + rows % 2)
  }

  lemma {:induction false} CeilLog2Meaning(rows: nat, k: nat)
    ensures k <= CeilLog2(rows) <==> k == 0 || Pow2(k - 1) < rows
    decreases rows
  {
    if rows > 1 && k > 0 {
      CeilLog2Meaning(rows / 2 + rows % 2, k - 1);
    }
  }

  /** The block height fits: the next smaller block would not hold the image. */
  predicate Fits(modifier: nat, height: nat) {
    Covered(modifier) ==> modifier % 16 == 0 || Pow2(modifier % 16 - 1) < GobRows(height)
  }

  /** In the words of the format: a modifier of vendor 3 with the block-linear bit and GOB kind 0 or 2 names blocks of
      2^k GOBs of eight rows, and for k > 0 half such a block must be lower than the image. */
  predicate BlocksFit(modifier: nat, height: nat) {
    modifier / 0x100_0000_0000_0000 != 3 || modifier / 16 % 2 != 1 || modifier / 0x10_0000 % 4 == 1
    || modifier / 0x10_0000 % 4 == 3 || modifier % 16 == 0 || 8 * Pow2(modifier % 16 - 1) < height
  }

  lemma FitsMeans(modifier: nat, height: nat)
    ensures Fits(modifier, height) <==> BlocksFit(modifier, height)
  {
    if modifier % 16 > 0 {
      var half := Pow2(modifier % 16 - 1);
      assert height == 8 * (height / 8) + height % 8;
      assert half < GobRows(height) <==> 8 * half < height;
    }
  }

  method ModifierFitsHeight(modifier: nat, height: nat) returns (fits: bool)
    ensures fits <==> Fits(modifier, height)
    ensures fits <==> BlocksFit(modifier, height)
  {
    FitsMeans(modifier, height);
    if modifier / 0x100_0000_0000_0000 != 3 || modifier / 16 % 2 == 0
       || (modifier / 0x10_0000 % 4 != 0 && modifier / 0x10_0000 % 4 != 2) {
      return true;
    }
    var rows: nat := height / 8 + if height % 8 != 0 then 1 else 0;
    var maxLog2 := 0;
    while rows > 1
      invariant maxLog2 + CeilLog2(rows) == CeilLog2(GobRows(height))
    {
      rows := rows / 2 + if rows % 2 != 0 then 1 else 0;
      maxLog2 := maxLog2 + 1;
    }
    CeilLog2Meaning(GobRows(height), modifier % 16);
    fits := modifier % 16 <= maxLog2;
  }

  /** What fits an image fits every taller one. */
  lemma FitsMonotone(modifier: nat, low: nat, high: nat)
    requires low <= high && Fits(modifier, low)
    ensures Fits(modifier, high)
  {
    assert GobRows(low) <= GobRows(high);
  }
}
