/** Kodi release names and their order (kodi_addon_checker/__init__.py,
    kodi_addon_checker/KodiVersion.py, and the identical class in
    kodi_addon_checker/versions.py). */
module KodiVersions {

  import opened Outcome

  /** `ValidKodiVersions`, oldest first. */
  const ValidKodiVersions: seq<string> :=
    ["gotham", "helix", "isengard", "jarvis", "krypton", "leia", "matrix", "nexus", "omega", "piers"]

  predicate Distinct(xs: seq<string>)
  {
    forall i, j :: 0 <= i < j < |xs| ==> xs[i] != xs[j]
  }

  lemma ValidKodiVersionsDistinct()
    ensures Distinct(ValidKodiVersions)
  {
  }

  /** `xs.index(x)`: the first position of `x`, `ValueError` when absent. */
  function IndexOf(xs: seq<string>, x: string, from: nat := 0): (r: Result<nat>)
    requires from <= |xs|
    ensures r.Err? <==> x !in xs[from..]
    ensures r.Err? ==> r.error == ValueError
    ensures r.Ok? ==> from <= r.value < |xs| && xs[r.value] == x && x !in xs[from..r.value]
    decreases |xs| - from
  {
    if from == |xs| then Err(ValueError)
    else if xs[from] == x then Ok(from)
    else
      var r := IndexOf(xs, x, from + 1);
      assert xs[from..] == [xs[from]] + xs[from + 1..];
      r
  }

  /** In a list without repetitions the position of an element is the one
      index that holds it. */
  lemma IndexOfDistinct(xs: seq<string>, i: nat)
    requires Distinct(xs) && i < |xs|
    ensures IndexOf(xs, xs[i]) == Ok(i)
  {
    assert xs[0..] == xs;
    assert xs[i] in xs;
    assert forall k :: i < k <= |xs| ==> xs[0..k][i] == xs[i];
  }

  /** A KodiVersion holds a name that passed the constructor's check. */
  datatype KodiVersion = KodiVersion(version: string)

  /** `KodiVersion(name)` */
  function NewKodiVersion(name: string): (r: Result<KodiVersion>)
    ensures r.Ok? <==> name in ValidKodiVersions
    ensures r.Ok? ==> r.value.version == name
    ensures r.Err? ==> r.error == ValueError
  {
    if name !in ValidKodiVersions then Err(ValueError) else Ok(KodiVersion(name))
  }

  predicate Valid(k: KodiVersion) { k.version in ValidKodiVersions }

  /** The right-hand side of a comparison: a KodiVersion or anything else. */
  datatype Operand = Kodi(k: KodiVersion) | Foreign

  /** `ValidKodiVersions.index(self.version)` */
  function Rank(k: KodiVersion): Result<nat>
  {
    IndexOf(ValidKodiVersions, k.version)
  }

  /** The index comparison shared by the four ordering operators: the type
      test comes first, then both indices are looked up. */
  function CompareIndices(a: KodiVersion, b: Operand, holds: (nat, nat) -> bool): Result<bool>
  {
    if !b.Kodi? then Err(TypeError)
    else
      var i :- Rank(a);
      var j :- Rank(b.k);
      Ok(holds(i, j))
  }

  function Lt(a: KodiVersion, b: Operand): Result<bool> { CompareIndices(a, b, (i: nat, j: nat) => i < j) }

  function Le(a: KodiVersion, b: Operand): Result<bool> { CompareIndices(a, b, (i: nat, j: nat) => i <= j) }

  function Gt(a: KodiVersion, b: Operand): Result<bool> { CompareIndices(a, b, (i: nat, j: nat) => i > j) }

  function Ge(a: KodiVersion, b: Operand): Result<bool> { CompareIndices(a, b, (i: nat, j: nat) => i >= j) }

  /** `==` compares the names, not the indices. */
  function Eq(a: KodiVersion, b: Operand): bool { b.Kodi? && a.version == b.k.version }

  function Ne(a: KodiVersion, b: Operand): bool { !b.Kodi? || a.version != b.k.version }

  /** The position of a valid version in the list. */
  lemma RankOfValid(k: KodiVersion)
    requires Valid(k)
    ensures Rank(k).Ok? && ValidKodiVersions[Rank(k).value] == k.version
  {
  }

  /** Ordering against anything else raises `TypeError`; `==` is false and
      `!=` true. */
  lemma ForeignOperand(a: KodiVersion)
    ensures Lt(a, Foreign) == Le(a, Foreign) == Gt(a, Foreign) == Ge(a, Foreign) == Err(TypeError)
    ensures !Eq(a, Foreign) && Ne(a, Foreign)
  {
  }

  /** For valid versions the four orderings are the comparisons of list
      positions, and `==` coincides with equal positions because the names
      are distinct: exactly one of <, ==, > holds. */
  lemma OrderIsPositions(a: KodiVersion, b: KodiVersion)
    requires Valid(a) && Valid(b)
    ensures Rank(a).Ok? && Rank(b).Ok?
    ensures Lt(a, Kodi(b)) == Ok(Rank(a).value < Rank(b).value)
    ensures Le(a, Kodi(b)) == Ok(Rank(a).value <= Rank(b).value)
    ensures Gt(a, Kodi(b)) == Ok(Rank(a).value > Rank(b).value)
    ensures Ge(a, Kodi(b)) == Ok(Rank(a).value >= Rank(b).value)
    ensures Eq(a, Kodi(b)) <==> Rank(a).value == Rank(b).value
    ensures Ne(a, Kodi(b)) == !Eq(a, Kodi(b))
  {
    RankOfValid(a);
    RankOfValid(b);
  }

  /** `KodiVersion` is a total order on the valid names. */
  lemma TotalOrder(a: KodiVersion, b: KodiVersion, c: KodiVersion)
    requires Valid(a) && Valid(b) && Valid(c)
    ensures Lt(a, Kodi(b)).Ok? && Le(a, Kodi(b)).Ok? && Gt(a, Kodi(b)).Ok? && Ge(a, Kodi(b)).Ok?
    ensures Lt(a, Kodi(b)).value || Eq(a, Kodi(b)) || Gt(a, Kodi(b)).value
    ensures !(Lt(a, Kodi(b)).value && Eq(a, Kodi(b))) && !(Lt(a, Kodi(b)).value && Gt(a, Kodi(b)).value)
    ensures !(Eq(a, Kodi(b)) && Gt(a, Kodi(b)).value)
    ensures Le(a, Kodi(b)).value && Le(b, Kodi(a)).value ==> a == b
    ensures Le(a, Kodi(b)).value && Le(b, Kodi(c)).value ==> Le(a, Kodi(c)).value
    ensures Gt(a, Kodi(b)) == Lt(b, Kodi(a))
  {
    OrderIsPositions(a, b);
    OrderIsPositions(b, a);
    OrderIsPositions(b, c);
    OrderIsPositions(a, c);
  }

  /** matrix > leia (tests/test_versions.py). */
  lemma MatrixAfterLeia()
    ensures NewKodiVersion("matrix").Ok? && NewKodiVersion("leia").Ok?
    ensures Gt(NewKodiVersion("matrix").value, Kodi(NewKodiVersion("leia").value)) == Ok(true)
  {
    assert ValidKodiVersions[6] == "matrix" && ValidKodiVersions[5] == "leia";
    IndexOfDistinct(ValidKodiVersions, 6);
    IndexOfDistinct(ValidKodiVersions, 5);
  }
}
