/** Byte offsets and block numbers for a given block size. */
module Offsets {

  /** The byte offset of a block. */
  function Offset(block: nat, bs: nat): nat {
    block * bs
  }

  /** The number of full blocks in `n` bytes, which is also the block that holds byte `n`. */
  function Blocks(n: nat, bs: nat): nat
    requires bs > 0
  {
    n / bs
  }

  /** The number of bytes after the last full block of `n` bytes. */
  function Extra(n: nat, bs: nat): nat
    requires bs > 0
  {
    n % bs
  }

  lemma OffsetAdd(x: nat, y: nat, bs: nat)
    ensures Offset(x + y, bs) == Offset(x, bs) + Offset(y, bs)
  {
  }

  lemma OffsetUnit(bs: nat)
    ensures Offset(0, bs) == 0 && Offset(1, bs) == bs
  {
  }

  lemma OffsetMonotonic(x: nat, y: nat, bs: nat)
    requires bs > 0
    ensures x < y <==> Offset(x, bs) < Offset(y, bs)
    ensures x < y ==> Offset(x, bs) + bs <= Offset(y, bs)
    ensures x == y <==> Offset(x, bs) == Offset(y, bs)
  {
    hide Offset;
    if x < y {
      OffsetGrows(x, y, bs);
    } else if y < x {
      OffsetGrows(y, x, bs);
    }
  }

  lemma OffsetGrows(x: nat, y: nat, bs: nat)
    requires bs > 0 && x < y
    ensures Offset(x, bs) + bs <= Offset(y, bs)
  {
    hide Offset;
    OffsetAdd(x, 1, bs);
    OffsetUnit(bs);
    OffsetAdd(x + 1, y - x - 1, bs);
  }

  lemma SplitBytes(n: nat, bs: nat)
    requires bs > 0
    ensures n == Offset(Blocks(n, bs), bs) + Extra(n, bs) && Extra(n, bs) < bs
  {
  }

  /** Byte `n` lies at or after block `b` exactly when its own block number is at least `b`. */
  lemma BlockHolds(n: nat, bs: nat, b: nat)
    requires bs > 0
    ensures b <= Blocks(n, bs) <==> Offset(b, bs) <= n
  {
    hide Offset, Blocks, Extra;
    var q := Blocks(n, bs);
    SplitBytes(n, bs);
    if b <= q {
      if b < q { OffsetGrows(b, q, bs); }
    } else {
      OffsetGrows(q, b, bs);
    }
  }

  lemma OffsetIsWhole(b: nat, bs: nat)
    requires bs > 0
    ensures Blocks(Offset(b, bs), bs) == b && Extra(Offset(b, bs), bs) == 0
  {
    hide Offset, Blocks, Extra;
    var n := Offset(b, bs);
    BlockHolds(n, bs, b);
    BlockHolds(n, bs, b + 1);
    OffsetGrows(b, b + 1, bs);
    SplitBytes(n, bs);
  }
}
