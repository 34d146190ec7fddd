/** Tile values: 0 is an empty cell, every other value is a power of two of at least 2. */
module Tiles {

  /** n is 2^k for some k >= 0. */
  predicate IsPow2(n: int)
    decreases if n < 0 then 0 else n
  {
    n == 1 || (n > 1 && n % 2 == 0 && IsPow2(n / 2))
  }

  /** A cell value that can appear on the board. */
  predicate IsTile(v: int) {
    v == 0 || (v >= 2 && IsPow2(v))
  }

  /** A freshly spawned tile is 2 or 4. */
  predicate IsSeed(v: int) {
    v == 2 || v == 4
  }

  lemma SeedIsTile(v: int)
    requires IsSeed(v)
    ensures IsTile(v) && v > 0
  {
    assert IsPow2(1);
    assert IsPow2(2);
  }

  /** Merging two equal tiles yields a tile again. */
  lemma DoubleIsTile(v: int)
    requires IsTile(v) && v != 0
    ensures IsTile(2 * v) && 2 * v > 0
  {
    assert (2 * v) / 2 == v;
  }
}
