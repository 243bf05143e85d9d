/** A snapshot of one branch's add-on catalog and the queries over it
    (kodi_addon_checker/addons/Repository.py). */
module Repositories {

  import opened Outcome
  import opened Orders
  import opened Versions
  import opened Addons

  /** `version` and `path` are the branch name and catalog URL, `addons` the
      catalog entries in document order; `None` when the download failed
      and the constructor returned before assigning `addons`. */
  datatype Repository = Repository(version: string, path: string, addons: Option<seq<Addon>>)

  /** What `Addon(xml)` builds from an element whose dependencies can all be
      built (see `Addons.NewAddon`). */
  predicate Reads(xml: AddonXml, a: Addon)
  {
    && a.id == Get(xml.attributes, "id")
    && a.version == Get(xml.attributes, "version")
    && |a.dependencies| == |xml.imports|
    && forall i :: 0 <= i < |xml.imports| ==> NewDependency(xml.imports[i]) == Ok(a.dependencies[i])
  }

  /** `Repository(version, path)`: `fetched` is what the download produced,
      the `addon` children of the catalog root in document order, or `None`
      when the request failed. Each child becomes an entry; the first one
      that cannot be read makes the constructor raise. */
  method NewRepository(version: string, path: string, fetched: Option<seq<AddonXml>>) returns (r: Result<Repository>)
    ensures fetched.None? ==> r == Ok(Repository(version, path, None))
    ensures r.Ok? ==> r.value.version == version && r.value.path == path
    ensures fetched.Some? && r.Ok? ==> r.value.addons.Some? && |r.value.addons.value| == |fetched.value|
    ensures fetched.Some? && r.Ok? ==> forall i :: 0 <= i < |fetched.value| ==> Reads(fetched.value[i], r.value.addons.value[i])
    ensures fetched.Some? ==> (r.Ok? <==> forall i, k :: 0 <= i < |fetched.value| && 0 <= k < |fetched.value[i].imports| ==> NewDependency(fetched.value[i].imports[k]).Ok?)
  {
    if fetched.None? {
      return Ok(Repository(version, path, None));
    }
    var xmls := fetched.value;
    var addons: seq<Addon> := [];
    var i := 0;
    while i < |xmls|
      invariant 0 <= i <= |xmls| && |addons| == i
      invariant forall j :: 0 <= j < i ==> Reads(xmls[j], addons[j])
      invariant forall j, k :: 0 <= j < i && 0 <= k < |xmls[j].imports| ==> NewDependency(xmls[j].imports[k]).Ok?
    {
      var a := NewAddon(xmls[i]);
      if a.Err? {
        return Err(a.error);
      }
      addons := addons + [a.value];
      i := i + 1;
    }
    r := Ok(Repository(version, path, Some(addons)));
  }

  /** The early-return search of `__contains__`. */
  function ContainsIn(addons: seq<Addon>, id: Option<string>, from: nat := 0): (r: bool)
    requires from <= |addons|
    ensures r <==> exists i :: from <= i < |addons| && addons[i].id == id
    decreases |addons| - from
  {
    if from == |addons| then false
    else if addons[from].id == id then true
    else ContainsIn(addons, id, from + 1)
  }

  /** `addon_id in repo`; a repository without a snapshot has no `addons`
      attribute. */
  function Contains(repo: Repository, id: Option<string>): (r: Result<bool>)
    ensures repo.addons.None? <==> r == Err(AttributeError)
    ensures repo.addons.Some? ==> r == Ok(exists a :: a in repo.addons.value && a.id == id)
  {
    if repo.addons.None? then Err(AttributeError)
    else
      var found := ContainsIn(repo.addons.value, id);
      assert found <==> exists a :: a in repo.addons.value && a.id == id;
      Ok(found)
  }

  /** The entries with the given id, in catalog order (the `addon_instances`
      list of `find`). Duplicates are kept. */
  function Instances(addons: seq<Addon>, id: Option<string>): (r: seq<Addon>)
    ensures forall a :: a in r <==> a in addons && a.id == id
  {
    if addons == [] then []
    else
      assert forall a :: a in addons <==> a == addons[0] || a in addons[1..];
      (if addons[0].id == id then [addons[0]] else []) + Instances(addons[1..], id)
  }

  /** Each entry with the id occurs in `Instances` as often as in the
      catalog. */
  lemma {:induction false} InstancesKeepDuplicates(addons: seq<Addon>, id: Option<string>, a: Addon)
    ensures multiset(Instances(addons, id))[a] == if a.id == id then multiset(addons)[a] else 0
  {
    if addons != [] {
      InstancesKeepDuplicates(addons[1..], id, a);
      assert addons == [addons[0]] + addons[1..];
    }
  }

  /** The key `AddonVersion(addon.version)` the sort of `find` computes. */
  function Key(a: Addon): (r: Result<AddonVersion>)
    ensures r.Err? ==> r.error == TypeError || r.error == InvalidVersion
  {
    AddonVersionOf(a.version)
  }

  /** Is `xs[k]` the element a stable sort in descending key order puts
      first: no key greater than its key, and every earlier key smaller? */
  predicate FirstMaximum(keys: seq<AddonVersion>, k: nat)
  {
    && k < |keys|
    && (forall j :: 0 <= j < |keys| ==> Compare(keys[j].version, keys[k].version) != Greater)
    && (forall j :: 0 <= j < k ==> Compare(keys[j].version, keys[k].version) == Less)
  }

  /** The scan that finds the element a stable descending sort puts first. */
  method FirstMaximumOf(keys: seq<AddonVersion>) returns (best: nat)
    requires |keys| > 0
    ensures best == FirstMaximumIndex(keys)
  {
    best := 0;
    CompareLaws(keys[0].version, keys[0].version, keys[0].version);
    var i := 1;
    while i < |keys|
      invariant 0 <= best < i <= |keys|
      invariant forall j :: 0 <= j < i ==> Compare(keys[j].version, keys[best].version) != Greater
      invariant forall j :: 0 <= j < best ==> Compare(keys[j].version, keys[best].version) == Less
    {
      if Compare(keys[i].version, keys[best].version) == Greater {
        forall j | 0 <= j < i
          ensures Compare(keys[j].version, keys[i].version) == Less
        {
          BelowGreater(keys[j].version, keys[best].version, keys[i].version);
        }
        CompareLaws(keys[i].version, keys[i].version, keys[i].version);
        best := i;
      }
      i := i + 1;
    }
    FirstMaximumUnique(keys, best, FirstMaximumIndex(keys));
  }

  /** The same scan as a function: the position of the first maximum. */
  function FirstMaximumFrom(keys: seq<AddonVersion>, i: nat, best: nat): (k: nat)
    requires 0 <= best < i <= |keys|
    requires forall j :: 0 <= j < i ==> Compare(keys[j].version, keys[best].version) != Greater
    requires forall j :: 0 <= j < best ==> Compare(keys[j].version, keys[best].version) == Less
    ensures FirstMaximum(keys, k)
    decreases |keys| - i
  {
    if i == |keys| then best
    else if Compare(keys[i].version, keys[best].version) == Greater then
      assert forall j :: 0 <= j < i ==> Compare(keys[j].version, keys[i].version) == Less by {
        forall j | 0 <= j < i
          ensures Compare(keys[j].version, keys[i].version) == Less
        {
          BelowGreater(keys[j].version, keys[best].version, keys[i].version);
        }
      }
      CompareLaws(keys[i].version, keys[i].version, keys[i].version);
      FirstMaximumFrom(keys, i + 1, i)
    else FirstMaximumFrom(keys, i + 1, best)
  }

  /** The position a stable sort in descending order moves to the front. */
  function FirstMaximumIndex(keys: seq<AddonVersion>): (k: nat)
    requires |keys| > 0
    ensures FirstMaximum(keys, k)
  {
    CompareLaws(keys[0].version, keys[0].version, keys[0].version);
    FirstMaximumFrom(keys, 1, 0)
  }

  /** If a is not above b and c is above b, then a is below c. */
  lemma BelowGreater(a: Pep440, b: Pep440, c: Pep440)
    requires Compare(a, b) != Greater && Compare(c, b) == Greater
    ensures Compare(a, c) == Less
  {
    CompareLaws(a, b, c);
    CompareLaws(c, b, a);
  }

  /** The first maximum is unique: the sort's choice is determined. */
  lemma FirstMaximumUnique(keys: seq<AddonVersion>, k: nat, m: nat)
    requires FirstMaximum(keys, k) && FirstMaximum(keys, m)
    ensures k == m
  {
    if k < m {
      CompareLaws(keys[k].version, keys[m].version, keys[m].version);
    } else if m < k {
      CompareLaws(keys[m].version, keys[k].version, keys[k].version);
    }
  }

  /** `repo.find(addon_id)`: `None` when no entry has the id; otherwise every
      such entry's version is parsed (the first one that fails raises) and
      the entry with the highest version is returned, the earliest in
      catalog order among equal highest versions. */
  method Find(repo: Repository, id: Option<string>) returns (r: Result<Option<Addon>>)
    ensures r == Highest(repo, id)
  {
    if repo.addons.None? {
      return Err(AttributeError);
    }
    var instances := CollectInstances(repo.addons.value, id);
    if instances == [] {
      return Ok(None);
    }
    var keys := SortKeys(instances, Key);
    if keys.Err? {
      return Err(keys.error);
    }
    var best := FirstMaximumOf(keys.value);
    r := Ok(Some(instances[best]));
  }

  /** The loop of `find` that collects `addon_instances`. */
  method CollectInstances(addons: seq<Addon>, id: Option<string>) returns (instances: seq<Addon>)
    ensures instances == Instances(addons, id)
  {
    instances := [];
    var i := 0;
    while i < |addons|
      invariant 0 <= i <= |addons|
      invariant instances == Instances(addons[..i], id)
    {
      var addon := addons[i];
      if addon.id == id {
        instances := instances + [addon];
      }
      InstancesAppend(addons[..i], addon, id);
      assert addons[..i + 1] == addons[..i] + [addon];
      i := i + 1;
    }
    assert addons[..i] == addons;
  }

  /** The keys `list.sort` computes, one per element and in order, before it
      compares any of them. */
  method SortKeys(xs: seq<Addon>, key: Addon -> Result<AddonVersion>) returns (r: Result<seq<AddonVersion>>)
    ensures r == Keys(xs, key)
  {
    var keys: seq<AddonVersion> := [];
    var i := 0;
    while i < |xs|
      invariant 0 <= i <= |xs| && |keys| == i
      invariant forall j :: 0 <= j < i ==> key(xs[j]) == Ok(keys[j])
    {
      var k := key(xs[i]);
      if k.Err? {
        KeysFirstError(xs, key, i);
        return Err(k.error);
      }
      keys := keys + [k.value];
      i := i + 1;
    }
    KeysAllOk(xs, key, keys);
    r := Ok(keys);
  }

  lemma {:induction false} KeysFirstError(xs: seq<Addon>, key: Addon -> Result<AddonVersion>, i: nat)
    requires i < |xs| && key(xs[i]).Err? && forall j :: 0 <= j < i ==> key(xs[j]).Ok?
    ensures Keys(xs, key) == Err(key(xs[i]).error)
  {
    if i > 0 {
      KeysFirstError(xs[1..], key, i - 1);
    }
  }

  lemma {:induction false} KeysAllOk(xs: seq<Addon>, key: Addon -> Result<AddonVersion>, keys: seq<AddonVersion>)
    requires |keys| == |xs| && forall j :: 0 <= j < |xs| ==> key(xs[j]) == Ok(keys[j])
    ensures Keys(xs, key) == Ok(keys)
  {
    if xs != [] {
      KeysAllOk(xs[1..], key, keys[1..]);
      assert keys == [keys[0]] + keys[1..];
    }
  }

  lemma {:induction false} InstancesAppend(addons: seq<Addon>, a: Addon, id: Option<string>)
    ensures Instances(addons + [a], id) == Instances(addons, id) + (if a.id == id then [a] else [])
  {
    if addons == [] {
      assert addons + [a] == [a];
    } else {
      assert (addons + [a])[1..] == addons[1..] + [a];
      InstancesAppend(addons[1..], a, id);
    }
  }

  /** The sort keys of the entries, or the exception of the first entry
      whose key cannot be computed. */
  function Keys(xs: seq<Addon>, key: Addon -> Result<AddonVersion>): (r: Result<seq<AddonVersion>>)
    ensures r.Ok? <==> forall j :: 0 <= j < |xs| ==> key(xs[j]).Ok?
    ensures r.Ok? ==> |r.value| == |xs| && forall j :: 0 <= j < |xs| ==> key(xs[j]) == Ok(r.value[j])
  {
    if xs == [] then Ok([])
    else
      match key(xs[0])
      case Err(e) => Err(e)
      case Ok(k) =>
        var rest := Keys(xs[1..], key);
        if rest.Err? then
          Err(rest.error)
        else
          Ok([k] + rest.value)
  }

  /** An exception from `Keys` is the one of the first entry whose key
      cannot be computed. */
  lemma {:induction false} KeysErrorOfFirst(xs: seq<Addon>, key: Addon -> Result<AddonVersion>)
    ensures Keys(xs, key).Err? ==>
              exists i :: 0 <= i < |xs| && key(xs[i]) == Err(Keys(xs, key).error) && forall j :: 0 <= j < i ==> key(xs[j]).Ok?
  {
    if xs != [] && key(xs[0]).Ok? && Keys(xs[1..], key).Err? {
      var rest := xs[1..];
      KeysErrorOfFirst(rest, key);
      var i :| 0 <= i < |rest| && key(rest[i]) == Err(Keys(rest, key).error) && forall j :: 0 <= j < i ==> key(rest[j]).Ok?;
      assert xs[i + 1] == rest[i];
      assert forall j :: 1 <= j < i + 1 ==> xs[j] == rest[j - 1];
    }
  }

  /** The outcome of `find` on a catalog, stated over `Instances` and
      `Keys`. */
  predicate FindsIn(addons: seq<Addon>, id: Option<string>, r: Result<Option<Addon>>)
  {
    var xs := Instances(addons, id);
    if xs == [] then r == Ok(None)
    else match Keys(xs, Key)
      case Err(e) => r == Err(e)
      case Ok(keys) => r.Ok? && r.value.Some? && exists k :: 0 <= k < |xs| && FirstMaximum(keys, k) && r.value.value == xs[k]
  }

  /** What `find` returns, as a function of the catalog. */
  function Highest(repo: Repository, id: Option<string>): (r: Result<Option<Addon>>)
    ensures repo.addons.None? <==> r == Err(AttributeError)
  {
    if repo.addons.None? then Err(AttributeError)
    else
      var xs := Instances(repo.addons.value, id);
      if xs == [] then Ok(None)
      else
        KeysErrorOfFirst(xs, Key);
        var keys :- Keys(xs, Key);
        Ok(Some(xs[FirstMaximumIndex(keys)]))
  }

  /** `find` on a fetched catalog: `None` without matching entries, the
      first key's exception when a version cannot be parsed, and otherwise
      the first maximum of the matching entries' versions. */
  lemma HighestFinds(repo: Repository, id: Option<string>)
    requires repo.addons.Some?
    ensures FindsIn(repo.addons.value, id, Highest(repo, id))
  {
  }

  /** When `find` returns an entry, it has the requested id, it is in the
      catalog, and no entry with that id has a higher version. */
  lemma FoundIsHighest(addons: seq<Addon>, id: Option<string>, a: Addon)
    requires FindsIn(addons, id, Ok(Some(a)))
    ensures a.id == id && a in addons
    ensures Key(a).Ok?
    ensures forall b :: b in addons && b.id == id ==> Key(b).Ok? && Compare(Key(b).value.version, Key(a).value.version) != Greater
  {
    var xs := Instances(addons, id);
    var found := Keys(xs, Key);
    assert xs != [] && found.Ok?;
    var keys := found.value;
    var k :| 0 <= k < |xs| && FirstMaximum(keys, k) && a == xs[k];
    assert xs[k] in xs;
    forall b | b in addons && b.id == id
      ensures Key(b).Ok? && Compare(Key(b).value.version, Key(a).value.version) != Greater
    {
      assert b in xs;
      EntryNotAbove(xs, keys, k, b);
    }
  }

  /** No entry of `xs` has a key above the first maximum's. */
  lemma {:induction false} EntryNotAbove(xs: seq<Addon>, keys: seq<AddonVersion>, k: nat, b: Addon)
    requires Keys(xs, Key) == Ok(keys) && FirstMaximum(keys, k) && b in xs
    ensures Key(b).Ok? && Key(xs[k]).Ok?
    ensures Compare(Key(b).value.version, Key(xs[k]).value.version) != Greater
  {
    var j: nat :| j < |xs| && xs[j] == b;
    KeyNotAbove(xs, keys, k, j);
  }

  /** The key at `j` is not above the first maximum's. */
  lemma {:induction false} KeyNotAbove(xs: seq<Addon>, keys: seq<AddonVersion>, k: nat, j: nat)
    requires Keys(xs, Key) == Ok(keys) && FirstMaximum(keys, k) && j < |xs|
    ensures Key(xs[j]) == Ok(keys[j]) && Key(xs[k]) == Ok(keys[k])
    ensures Compare(keys[j].version, keys[k].version) != Greater
  {
  }

  /** `find(id)` is `None` exactly when `id in repo` is false. */
  lemma FindNoneIffAbsent(addons: seq<Addon>, id: Option<string>, r: Result<Option<Addon>>)
    requires FindsIn(addons, id, r)
    ensures r == Ok(None) <==> !(exists a :: a in addons && a.id == id)
  {
    var xs := Instances(addons, id);
    if exists a :: a in addons && a.id == id {
      var a :| a in addons && a.id == id;
      assert a in xs;
    }
  }

  /** When the id is in a fetched catalog and every entry with that id has
      a readable version, `find` returns an entry with that id whose
      version no other such entry exceeds. */
  lemma ReadableFindsHighest(repo: Repository, id: Option<string>) returns (a: Addon)
    requires repo.addons.Some? && exists b :: b in repo.addons.value && b.id == id
    requires forall b :: b in repo.addons.value && b.id == id ==> Key(b).Ok?
    ensures Highest(repo, id) == Ok(Some(a)) && a.id == id && a in repo.addons.value && Key(a).Ok?
    ensures forall b :: b in repo.addons.value && b.id == id ==> Compare(Key(b).value.version, Key(a).value.version) != Greater
  {
    var found := Highest(repo, id);
    var xs := Instances(repo.addons.value, id);
    forall j | 0 <= j < |xs| ensures Key(xs[j]).Ok? {
      assert xs[j] in xs;
    }
    HighestFinds(repo, id);
    FindNoneIffAbsent(repo.addons.value, id, found);
    a := found.value.value;
    FoundIsHighest(repo.addons.value, id, a);
  }

  /** `rdepends(addon_id)`: the entries that depend on the id, in catalog
      order, duplicates kept. */
  function RDependsIn(addons: seq<Addon>, id: Option<string>): (r: seq<Addon>)
    ensures forall a :: a in r <==> a in addons && DependsOn(a, id)
    ensures forall a :: multiset(r)[a] == if DependsOn(a, id) then multiset(addons)[a] else 0
  {
    if addons == [] then []
    else
      assert addons == [addons[0]] + addons[1..];
      (if DependsOn(addons[0], id) then [addons[0]] else []) + RDependsIn(addons[1..], id)
  }

  function RDepends(repo: Repository, id: Option<string>): (r: Result<seq<Addon>>)
    ensures repo.addons.None? <==> r == Err(AttributeError)
    ensures repo.addons.Some? ==> r == Ok(RDependsIn(repo.addons.value, id))
  {
    if repo.addons.None? then Err(AttributeError) else Ok(RDependsIn(repo.addons.value, id))
  }
}
