/** The leading bits of a 64-bit hash, which choose the directory entry and the segment. */
module DashRouting {
  import opened Powers

  const WORD: nat := 64

  /** hash >> (64 - depth) */
  function Prefix(hash: nat, depth: nat): nat
    requires depth <= WORD
  {
    DivBound(hash, Pow2(WORD - depth), 0);
    hash / Pow2(WORD - depth)
  }

  /** One more bit of depth refines a prefix into its two halves. */
  lemma PrefixHalves(hash: nat, depth: nat)
    requires depth < WORD
    ensures Prefix(hash, depth) == Prefix(hash, depth + 1) / 2
    ensures Prefix(hash, depth + 1) == 2 * Prefix(hash, depth) || Prefix(hash, depth + 1) == 2 * Prefix(hash, depth) + 1
  {
    DivDiv(hash, Pow2(WORD - depth - 1), 2);
  }

  /** A shorter prefix is a longer one shifted right. */
  lemma {:induction false} PrefixOfPrefix(hash: nat, short: nat, long: nat)
    requires short <= long <= WORD
    ensures Prefix(hash, short) == Prefix(hash, long) / Pow2(long - short)
  {
    DivDiv(hash, Pow2(WORD - long), Pow2(long - short));
    Pow2Add(WORD - long, long - short);
  }

  lemma PrefixBound(hash: nat, depth: nat)
    requires depth <= WORD && hash < Pow2(WORD)
    ensures Prefix(hash, depth) < Pow2(depth)
  {
    Pow2Add(depth, WORD - depth);
    DivBound(hash, Pow2(WORD - depth), Pow2(depth));
  }
}
