/** Three-way comparison results and the laws a comparison must obey to be a
    total (pre)order, with the comparisons of naturals and of Python strings. */
module Orders {

  datatype Ordering = Less | Equal | Greater {
    function Flip(): (r: Ordering)
      ensures (r == Equal) == (this == Equal)
      ensures (r == Less) == (this == Greater)
    {
      match this
      case Less => Greater
      case Equal => Equal
      case Greater => Less
    }
  }

  /** Lexicographic combination: `second` decides only when `first` ties. */
  function Then(first: Ordering, second: Ordering): Ordering
  {
    if first == Equal then second else first
  }

  /** What transitivity demands of `ac`, the comparison of a with c, given
      `ab` (a with b) and `bc` (b with c). */
  predicate Chains(ab: Ordering, bc: Ordering, ac: Ordering)
  {
    && (ab == Equal ==> ac == bc)
    && (bc == Equal ==> ac == ab)
    && (ab == bc ==> ac == ab)
  }

  /** A lexicographic combination of transitive comparisons is transitive. */
  lemma ThenChains(ab1: Ordering, bc1: Ordering, ac1: Ordering, ab2: Ordering, bc2: Ordering, ac2: Ordering)
    requires Chains(ab1, bc1, ac1) && Chains(ab2, bc2, ac2)
    ensures Chains(Then(ab1, ab2), Then(bc1, bc2), Then(ac1, ac2))
  {
  }

  lemma ThenFlip(first: Ordering, second: Ordering)
    ensures Then(first.Flip(), second.Flip()) == Then(first, second).Flip()
  {
  }

  function CompareNat(a: nat, b: nat): (r: Ordering)
    ensures r == Less <==> a < b
    ensures r == Equal <==> a == b
    ensures r == Greater <==> a > b
  {
    if a < b then Less else if a == b then Equal else Greater
  }

  /** Python's `str` ordering: by code point, a proper prefix first. */
  function CompareText(a: string, b: string): Ordering
  {
    if a == [] && b == [] then Equal
    else if a == [] then Less
    else if b == [] then Greater
    else if a[0] < b[0] then Less
    else if a[0] > b[0] then Greater
    else CompareText(a[1..], b[1..])
  }

  lemma {:induction false} CompareTextEqual(a: string, b: string)
    ensures CompareText(a, b) == Equal <==> a == b
  {
    if a != [] && b != [] && a[0] == b[0] {
      CompareTextEqual(a[1..], b[1..]);
      assert a == [a[0]] + a[1..] && b == [b[0]] + b[1..];
    }
  }

  lemma {:induction false} CompareTextFlip(a: string, b: string)
    ensures CompareText(b, a) == CompareText(a, b).Flip()
  {
    if a != [] && b != [] && a[0] == b[0] {
      CompareTextFlip(a[1..], b[1..]);
    }
  }

  lemma {:induction false} CompareTextChains(a: string, b: string, c: string)
    ensures Chains(CompareText(a, b), CompareText(b, c), CompareText(a, c))
  {
    CompareTextEqual(a, b);
    CompareTextEqual(b, c);
    if a != [] && b != [] && c != [] && a[0] == b[0] == c[0] {
      CompareTextChains(a[1..], b[1..], c[1..]);
    }
  }

  /** A string is greater than each of its proper prefixes. */
  lemma {:induction false} CompareTextPrefix(a: string, rest: string)
    requires rest != []
    ensures CompareText(a, a + rest) == Less
  {
    if a != [] {
      assert (a + rest)[1..] == a[1..] + rest;
      CompareTextPrefix(a[1..], rest);
    }
  }
}
