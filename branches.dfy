/** The per-branch catalogs the cross-branch checks receive, a dict from
    branch name to repository, and the order `sorted(items, reverse=True)`
    visits them in: descending order of the name string. */
module Branches {

  import opened Orders
  import opened Repositories

  /** One item `(branch, repo)` of the dict. */
  datatype Branch = Branch(name: string, repo: Repository)

  /** No name is below a later one. */
  predicate Descending(xs: seq<Branch>)
  {
    forall i, j :: 0 <= i < j < |xs| ==> CompareText(xs[i].name, xs[j].name) != Less
  }

  lemma AtLeastChains(a: string, b: string, c: string)
    requires CompareText(a, b) != Less && CompareText(b, c) != Less
    ensures CompareText(a, c) != Less
  {
    CompareTextChains(a, b, c);
  }

  /** The first name of a descending sequence is not below any later one. */
  lemma HeadAboveTail(xs: seq<Branch>)
    requires Descending(xs) && xs != []
    ensures forall y :: y in xs[1..] ==> CompareText(xs[0].name, y.name) != Less
  {
    forall y | y in xs[1..] ensures CompareText(xs[0].name, y.name) != Less {
      var j :| 0 <= j < |xs[1..]| && xs[1..][j] == y;
      assert xs[j + 1] == y;
    }
  }

  /** `x` placed before the first name not above it. */
  function Insert(x: Branch, xs: seq<Branch>): (r: seq<Branch>)
    requires Descending(xs)
    ensures Descending(r)
    ensures multiset(r) == multiset(xs) + multiset{x}
  {
    if xs == [] then [x]
    else if CompareText(x.name, xs[0].name) != Less then
      forall j | 0 <= j < |xs| ensures CompareText(x.name, xs[j].name) != Less {
        if j > 0 {
          AtLeastChains(x.name, xs[0].name, xs[j].name);
        }
      }
      [x] + xs
    else
      var rest := Insert(x, xs[1..]);
      assert xs == [xs[0]] + xs[1..];
      CompareTextFlip(x.name, xs[0].name);
      HeadAboveTail(xs);
      forall y | y in multiset(rest) ensures CompareText(xs[0].name, y.name) != Less {
        if y != x {
          assert y in multiset(xs[1..]);
        }
      }
      forall i, j | 0 <= i < j < |[xs[0]] + rest|
        ensures CompareText(([xs[0]] + rest)[i].name, ([xs[0]] + rest)[j].name) != Less
      {
        if i == 0 {
          assert rest[j - 1] in multiset(rest);
        }
      }
      [xs[0]] + rest
  }

  /** `sorted(all_repo_addons.items(), reverse=True)`. The names are
      distinct, so the tuples never compare their repositories. */
  function SortDescending(xs: seq<Branch>): (r: seq<Branch>)
    ensures Descending(r)
    ensures multiset(r) == multiset(xs)
  {
    if xs == [] then []
    else
      assert xs == [xs[0]] + xs[1..];
      Insert(xs[0], SortDescending(xs[1..]))
  }

  /** The sort visits exactly the dict's branches. */
  lemma SortedVisitsAll(xs: seq<Branch>, b: Branch)
    ensures b in SortDescending(xs) <==> b in xs
  {
    assert b in SortDescending(xs) <==> b in multiset(SortDescending(xs));
  }

  /** The names are compared as strings: "matrix" is visited before
      "leia". */
  lemma NameOrderExample(r1: Repository, r2: Repository)
    ensures var xs := SortDescending([Branch("leia", r1), Branch("matrix", r2)]);
            xs == [Branch("matrix", r2), Branch("leia", r1)]
  {
  }
}
