/** The cross-branch check of a submitted add-on against the catalogs of all
    branches (kodi_addon_checker/check_addon_branches.py). */
module CheckAddonBranches {

  import opened Outcome
  import opened Orders
  import opened Records
  import opened Versions
  import KV = KodiVersions
  import opened Addons
  import opened Repositories
  import opened Branches
  import CheckDependencies

  /** What `_get_addon_name` reads from the submitted `addon.xml`: the `id`
      and `version` attributes, either possibly absent. */
  datatype Submission = Submission(name: Option<string>, version: Option<string>)

  const NewAddonRecord: Record := Record(INFORMATION, "This is a new addon")

  /** `%s` of a value that is a string or `None`. */
  function Pct(x: Option<string>): string { if x.None? then "None" else x.value }

  /** `_is_pythonabi_compatible(target_branch, upper_branch)`, with the
      `min_compatible` entry of each branch given as `abi`. The upper
      branch is looked up first; a branch missing from the table raises
      `KeyError`. */
  function IsPythonAbiCompatible(abi: map<string, string>, target: string, upper: string): (r: Result<bool>)
    ensures r.Ok? <==> upper in abi && target in abi
    ensures r.Err? ==> r.error == KeyError
    ensures r.Ok? ==> (r.value <==> abi[upper] == abi[target])
  {
    if upper !in abi then Err(KeyError)
    else if target !in abi then Err(KeyError)
    else Ok(abi[upper] == abi[target])
  }

  /** Lines 69-70 as written against the `VERSION_ATTRB` they import:
      the upper branch is looked up first and raises `KeyError` when the
      table has no entry for it (matrix and later); otherwise the entry is
      a version string, and indexing a string with "min_compatible" raises
      `TypeError`. */
  function IsPythonAbiCompatibleAsWritten(target: string, upper: string): (r: Result<bool>)
    ensures r.Err?
  {
    var table := CheckDependencies.VersionAttrb["xbmc.python"];
    if upper !in table then Err(KeyError) else Err(TypeError)
  }

  /** As written, a matrix branch raises `KeyError` and a leia branch
      `TypeError`; with a table of `min_compatible` versions the same
      lookups give an answer. */
  lemma AbiLookupExamples()
    ensures IsPythonAbiCompatibleAsWritten("leia", "matrix") == Err(KeyError)
    ensures IsPythonAbiCompatibleAsWritten("krypton", "leia") == Err(TypeError)
    ensures var abi := map["krypton" := "2.1.0", "leia" := "2.1.0", "matrix" := "3.0.0"];
            IsPythonAbiCompatible(abi, "leia", "matrix") == Ok(false)
            && IsPythonAbiCompatible(abi, "krypton", "leia") == Ok(true)
  {
    assert "matrix" !in CheckDependencies.VersionAttrb["xbmc.python"];
  }

  /** At most one record, a problem or an information. */
  predicate AtMostOne(rs: seq<Record>)
  {
    |rs| <= 1 && (rs != [] ==> rs[0].logLevel in {PROBLEM, INFORMATION})
  }

  /** The rule both version checks follow: with `c` the comparison of the
      submitted with the published version, a problem exactly when `c` is
      `bad` or, in `pr` mode, `Equal`, and otherwise an information exactly
      in `pr` mode. */
  predicate Decides(rs: seq<Record>, versions: (AddonVersion, AddonVersion), bad: Ordering, pr: bool)
  {
    var c := Compare(versions.0.version, versions.1.version);
    && (rs != [] && rs[0].logLevel == PROBLEM <==> c == bad || (c == Equal && pr))
    && (rs != [] && rs[0].logLevel == INFORMATION <==> !(c == bad || (c == Equal && pr)) && pr)
  }

  /** The first exception of the two `AddonVersion` constructions, left
      operand first. */
  function BothVersions(submitted: Option<string>, published: Option<string>): (r: Result<(AddonVersion, AddonVersion)>)
    ensures r.Ok? <==> AddonVersionOf(submitted).Ok? && AddonVersionOf(published).Ok?
    ensures r.Ok? ==> r.value == (AddonVersionOf(submitted).value, AddonVersionOf(published).value)
    ensures r.Err? ==> r.error == if AddonVersionOf(submitted).Err? then AddonVersionOf(submitted).error
                                  else AddonVersionOf(published).error
  {
    var s :- AddonVersionOf(submitted);
    var p :- AddonVersionOf(published);
    Ok((s, p))
  }

  /** `_check_version_higher`: for a branch at or below the target, a
      submitted version below the published one, or equal to it in `pr`
      mode, is a problem; otherwise `pr` mode notes the branch. */
  function CheckVersionHigher(sub: Submission, branch: string, published: Option<string>, pr: bool): (r: Result<seq<Record>>)
    ensures r.Err? <==> BothVersions(sub.version, published).Err?
    ensures r.Err? ==> r.error == BothVersions(sub.version, published).error
    ensures r.Ok? ==> AtMostOne(r.value)
    ensures r.Ok? ==> Decides(r.value, BothVersions(sub.version, published).value, Less, pr)
  {
    var versions :- BothVersions(sub.version, published);
    Ok(HigherRecords(sub, branch, published, versions, pr))
  }

  function HigherRecords(sub: Submission, branch: string, published: Option<string>,
                         versions: (AddonVersion, AddonVersion), pr: bool): (rs: seq<Record>)
    ensures AtMostOne(rs) && Decides(rs, versions, Less, pr)
  {
    LevelsDistinct();
    var (s, p) := versions;
    if Versions.Lt(s, Version(p)) == Ok(true) || (Versions.Eq(s, Version(p)) && pr) then
      [Record(PROBLEM, Pct(sub.name) + " addon already exists with a higher or equal version: " + Pct(published)
                       + " in " + branch + " branch. Users in " + branch
                       + " won't be able to receive the addon update.")]
    else if pr then
      [Record(INFORMATION, Pct(sub.name) + " addon also exists in " + branch
                           + " branch but with update compatible version: " + Pct(published))]
    else []
  }

  /** `_check_version_lower`: for a higher branch that is not ABI
      compatible, a submitted version above the published one, or equal to
      it in `pr` mode, is a problem; otherwise `pr` mode notes the branch. */
  function CheckVersionLower(sub: Submission, branch: string, published: Option<string>, pr: bool): (r: Result<seq<Record>>)
    ensures r.Err? <==> BothVersions(sub.version, published).Err?
    ensures r.Err? ==> r.error == BothVersions(sub.version, published).error
    ensures r.Ok? ==> AtMostOne(r.value)
    ensures r.Ok? ==> Decides(r.value, BothVersions(sub.version, published).value, Greater, pr)
  {
    var versions :- BothVersions(sub.version, published);
    Ok(LowerRecords(sub, branch, published, versions, pr))
  }

  function LowerRecords(sub: Submission, branch: string, published: Option<string>,
                        versions: (AddonVersion, AddonVersion), pr: bool): (rs: seq<Record>)
    ensures AtMostOne(rs) && Decides(rs, versions, Greater, pr)
  {
    LevelsDistinct();
    var (s, p) := versions;
    if Versions.Gt(s, Version(p)) == Ok(true) || (Versions.Eq(s, Version(p)) && pr) then
      [Record(PROBLEM, Pct(sub.name) + " addon already exists with a lower or equal version: " + Pct(published)
                       + " in " + branch + " branch. Users migrating to kodi version " + branch
                       + " won't be able to receive the addon update")]
    else if pr then
      [Record(INFORMATION, Pct(sub.name) + " addon also exists in " + branch
                           + " branch but with migration compatible version: " + Pct(published))]
    else []
  }

  /** `repo.find(addon_name).version`: the raw version of the highest
      entry. */
  function PublishedVersion(repo: Repository, id: Option<string>): (r: Result<Option<string>>)
    ensures Highest(repo, id).Ok? && Highest(repo, id).value.Some? ==> r == Ok(Highest(repo, id).value.value.version)
  {
    var found :- Highest(repo, id);
    match found
    case None => Err(AttributeError)      // `None.version`; cannot happen after `in`
    case Some(a) => Ok(a.version)
  }

  /** What one branch of the loop does: whether it clears `is_new_addon`,
      and the records it adds. */
  datatype Visit = Visit(triggered: bool, records: seq<Record>)

  /** A branch at or below the target: the version-higher check when it
      holds the id. */
  function LowerBranch(b: Branch, sub: Submission, pr: bool): (r: Result<Visit>)
    ensures r.Ok? ==> AtMostOne(r.value.records) && (r.value.records != [] ==> r.value.triggered)
    ensures r.Ok? ==> (r.value.triggered <==> Repositories.Contains(b.repo, sub.name) == Ok(true))
  {
    var contained :- Repositories.Contains(b.repo, sub.name);
    if contained then
      var published :- PublishedVersion(b.repo, sub.name);
      var rs :- CheckVersionHigher(sub, b.name, published, pr);
      Ok(Visit(true, rs))
    else Ok(Visit(false, []))
  }

  /** A branch above the target: the version-lower check when it holds the
      id and is not ABI compatible with the target. */
  function UpperBranch(b: Branch, sub: Submission, target: string, abi: map<string, string>, pr: bool): (r: Result<Visit>)
    ensures r.Ok? ==> AtMostOne(r.value.records) && (r.value.records != [] ==> r.value.triggered)
    ensures r.Ok? ==> (r.value.triggered <==>
                         Repositories.Contains(b.repo, sub.name) == Ok(true) && IsPythonAbiCompatible(abi, target, b.name) == Ok(false))
    ensures Repositories.Contains(b.repo, sub.name) == Ok(true) && IsPythonAbiCompatible(abi, target, b.name) == Ok(true) ==>
              r == Ok(Visit(false, []))
  {
    var contained :- Repositories.Contains(b.repo, sub.name);
    if !contained then Ok(Visit(false, []))
    else
      var compatible :- IsPythonAbiCompatible(abi, target, b.name);
      if compatible then Ok(Visit(false, []))
      else
        var published :- PublishedVersion(b.repo, sub.name);
        var rs :- CheckVersionLower(sub, b.name, published, pr);
        Ok(Visit(true, rs))
  }

  /** One iteration of the loop of lines 34-48 for the item `b`: the
      branch name must be a valid Kodi version. */
  function BranchVisit(b: Branch, sub: Submission, target: KV.KodiVersion, abi: map<string, string>, pr: bool): (r: Result<Visit>)
    requires KV.Valid(target)
    ensures b.name !in KV.ValidKodiVersions ==> r == Err(ValueError)
    ensures b.name in KV.ValidKodiVersions ==>
              r == if KV.Le(KV.KodiVersion(b.name), KV.Kodi(target)) == Ok(true) then LowerBranch(b, sub, pr)
                   else UpperBranch(b, sub, target.version, abi, pr)
  {
    var kb :- KV.NewKodiVersion(b.name);
    if KV.Le(kb, KV.Kodi(target)) == Ok(true) then LowerBranch(b, sub, pr)
    else UpperBranch(b, sub, target.version, abi, pr)
  }

  /** Every branch adds at most one record, a problem or an information,
      and only a branch that clears the flag adds one. A branch clears it
      exactly when it holds the id and is at or below the target, or above
      it and not ABI compatible. */
  lemma VisitShape(b: Branch, sub: Submission, target: KV.KodiVersion, abi: map<string, string>, pr: bool)
    requires KV.Valid(target)
    ensures var r := BranchVisit(b, sub, target, abi, pr);
            r.Ok? ==>
              && AtMostOne(r.value.records)
              && (r.value.records != [] ==> r.value.triggered)
              && (r.value.triggered <==>
                    Repositories.Contains(b.repo, sub.name) == Ok(true)
                    && (KV.Le(KV.KodiVersion(b.name), KV.Kodi(target)) == Ok(true)
                        || IsPythonAbiCompatible(abi, target.version, b.name) == Ok(false)))
  {
  }

  /** A higher branch whose `min_compatible` equals the target's is skipped
      entirely, whatever it holds. */
  lemma CompatibleBranchSkipped(b: Branch, sub: Submission, target: KV.KodiVersion, abi: map<string, string>, pr: bool)
    requires KV.Valid(target) && b.name in KV.ValidKodiVersions
    requires KV.Gt(KV.KodiVersion(b.name), KV.Kodi(target)) == Ok(true)
    requires b.repo.addons.Some?
    requires IsPythonAbiCompatible(abi, target.version, b.name) == Ok(true)
    ensures BranchVisit(b, sub, target, abi, pr) == Ok(Visit(false, []))
  {
    KV.TotalOrder(KV.KodiVersion(b.name), target, target);
  }

  /** The loop state after some iterations: records so far, whether the
      flag was cleared, and the exception that ended the loop. */
  datatype Scan = Scan(records: seq<Record>, triggered: bool, raised: Option<Exception>)

  /** Iterations before `rest`: their records come first. */
  function After(records: seq<Record>, triggered: bool, rest: Scan): Scan
  {
    Scan(records + rest.records, triggered || rest.triggered, rest.raised)
  }

  /** The loop over `items` in order; the first exception ends it. */
  function ScanFrom(items: seq<Branch>, visit: Branch -> Result<Visit>): (r: Scan)
    ensures r.raised.None? <==> forall i :: 0 <= i < |items| ==> visit(items[i]).Ok?
    ensures r.raised.None? ==> (r.triggered <==> exists i :: 0 <= i < |items| && visit(items[i]).value.triggered)
  {
    if items == [] then Scan([], false, None)
    else match visit(items[0])
      case Err(e) => Scan([], false, Some(e))
      case Ok(v) =>
        var rest := ScanFrom(items[1..], visit);
        assert forall i :: 1 <= i < |items| ==> items[1..][i - 1] == items[i];
        After(v.records, v.triggered, rest)
  }

  /** With at most one record per branch, at most one record per item. */
  lemma {:induction false} ScanBound(items: seq<Branch>, visit: Branch -> Result<Visit>)
    requires forall b :: visit(b).Ok? ==> |visit(b).value.records| <= 1
    ensures |ScanFrom(items, visit).records| <= |items|
  {
    if items != [] {
      ScanBound(items[1..], visit);
    }
  }

  /** The visits of one call. */
  function Visitor(sub: Submission, target: KV.KodiVersion, abi: map<string, string>, pr: bool): Branch -> Result<Visit>
    requires KV.Valid(target)
  {
    b => BranchVisit(b, sub, target, abi, pr)
  }

  /** What `check_for_existing_addon` reports: the branches' records in
      descending name order, then "This is a new addon" when no branch
      cleared the flag. */
  function ExistingAddonRun(sub: Submission, repos: seq<Branch>, target: KV.KodiVersion, abi: map<string, string>, pr: bool): Run
    requires KV.Valid(target)
  {
    var s := ScanFrom(SortDescending(repos), Visitor(sub, target, abi, pr));
    if s.raised.Some? then Run(s.records, s.raised)
    else Run(s.records + (if s.triggered then [] else [NewAddonRecord]), None)
  }

  /** The loop of lines 34-48 over the sorted items. */
  method ScanBranches(items: seq<Branch>, visit: Branch -> Result<Visit>) returns (records: seq<Record>, isNewAddon: bool, raised: Option<Exception>)
    ensures Scan(records, !isNewAddon, raised) == ScanFrom(items, visit)
  {
    records, isNewAddon, raised := [], true, None;
    var i := 0;
    while i < |items|
      invariant 0 <= i <= |items|
      invariant After(records, !isNewAddon, ScanFrom(items[i..], visit)) == ScanFrom(items, visit)
    {
      assert items[i..][0] == items[i] && items[i..][1..] == items[i + 1..];
      var v := visit(items[i]);
      if v.Err? {
        raised := Some(v.error);
        return;
      }
      if v.value.triggered {
        isNewAddon := false;
      }
      records := records + v.value.records;
      i := i + 1;
    }
    assert items[i..] == [];
  }

  /** `check_for_existing_addon(report, addon_path, all_repo_addons, pr,
      kodi_version)`; `sub` is what `_get_addon_name` read. */
  method CheckForExistingAddon(sub: Submission, repos: seq<Branch>, pr: bool, target: KV.KodiVersion, abi: map<string, string>)
    returns (run: Run)
    requires KV.Valid(target)
    ensures run == ExistingAddonRun(sub, repos, target, abi, pr)
  {
    var items := SortDescending(repos);
    var records, isNewAddon, raised := ScanBranches(items, Visitor(sub, target, abi, pr));
    if raised.Some? {
      return Run(records, raised);
    }
    if isNewAddon {
      records := records + [NewAddonRecord];
    }
    run := Run(records, None);
  }

  /** Without an exception, at most one record per branch plus the
      closing one. */
  lemma RecordBound(sub: Submission, repos: seq<Branch>, target: KV.KodiVersion, abi: map<string, string>, pr: bool)
    requires KV.Valid(target)
    ensures var run := ExistingAddonRun(sub, repos, target, abi, pr);
            |run.records| <= |repos| + 1
  {
    var items := SortDescending(repos);
    var visit := Visitor(sub, target, abi, pr);
    forall b | visit(b).Ok? ensures |visit(b).value.records| <= 1 {
      VisitShape(b, sub, target, abi, pr);
    }
    ScanBound(items, visit);
    assert |multiset(items)| == |multiset(repos)|;
  }

  /** Without an exception, the closing record is "This is a new addon"
      exactly when no branch holding the id was at or below the target or
      ABI incompatible above it. */
  lemma NewAddonExactly(sub: Submission, repos: seq<Branch>, target: KV.KodiVersion, abi: map<string, string>, pr: bool)
    requires KV.Valid(target)
    ensures var run := ExistingAddonRun(sub, repos, target, abi, pr);
            var items := SortDescending(repos);
            var s := ScanFrom(items, Visitor(sub, target, abi, pr));
            run.raised.None? ==>
              && (run.records == s.records + [NewAddonRecord] <==>
                    forall i :: 0 <= i < |items| ==> !BranchVisit(items[i], sub, target, abi, pr).value.triggered)
              && (run.records == s.records <==>
                    exists i :: 0 <= i < |items| && BranchVisit(items[i], sub, target, abi, pr).value.triggered)
  {
    var items := SortDescending(repos);
    var visit := Visitor(sub, target, abi, pr);
    ClosingRecord(items, visit);
    forall i | 0 <= i < |items| ensures visit(items[i]) == BranchVisit(items[i], sub, target, abi, pr) { }
  }

  /** The closing record of a scan without an exception is added exactly
      when no visit cleared the flag. */
  lemma ClosingRecord(items: seq<Branch>, visit: Branch -> Result<Visit>)
    ensures var s := ScanFrom(items, visit);
            var closed := s.records + (if s.triggered then [] else [NewAddonRecord]);
            s.raised.None? ==>
              && (closed == s.records + [NewAddonRecord] <==> forall i :: 0 <= i < |items| ==> !visit(items[i]).value.triggered)
              && (closed == s.records <==> exists i :: 0 <= i < |items| && visit(items[i]).value.triggered)
  {
    var s := ScanFrom(items, visit);
    assert |s.records + [NewAddonRecord]| == |s.records| + 1;
  }
}
