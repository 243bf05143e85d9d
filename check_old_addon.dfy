/** The older cross-branch check: only the first branch at or below the
    target that holds the add-on is compared (kodi_addon_checker/check_old_addon.py). */
module CheckOldAddon {

  import opened Outcome
  import opened Orders
  import opened Records
  import opened Versions
  import KV = KodiVersions
  import opened Repositories
  import opened Branches
  import opened CheckAddonBranches

  /** The rule of `_check_versions`, with `c` the comparison of the
      submitted with the published version: in `pr` mode a problem unless
      `c` is `Greater` (then only a log line); otherwise one record, a
      problem exactly when `c` is `Less` and an information else. */
  predicate Bumped(rs: seq<Record>, versions: (AddonVersion, AddonVersion), pr: bool)
  {
    var c := Compare(versions.0.version, versions.1.version);
    && |rs| <= 1
    && (pr ==> (rs == [] <==> c == Greater) && (rs != [] ==> rs[0].logLevel == PROBLEM))
    && (!pr ==> |rs| == 1 && (rs[0].logLevel == PROBLEM <==> c == Less) && (rs[0].logLevel == INFORMATION <==> c != Less))
  }

  function VersionRecords(sub: Submission, branch: string, published: Option<string>,
                          versions: (AddonVersion, AddonVersion), pr: bool): (rs: seq<Record>)
    ensures Bumped(rs, versions, pr)
  {
    LevelsDistinct();
    var (s, p) := versions;
    if pr then
      if Versions.Gt(s, Version(p)) == Ok(true) then []      // logged only
      else [Record(PROBLEM, Pct(sub.name) + " addon already exists with a higher version: " + Pct(published)
                            + " in " + branch + " branch")]
    else
      if Versions.Lt(s, Version(p)) == Ok(true) then
        [Record(PROBLEM, Pct(sub.name) + " addon already exist with a higher version: " + Pct(published)
                         + " in " + branch + " branch")]
      else
        [Record(INFORMATION, Pct(sub.name) + " addon also exists in " + branch
                             + " branch but with version: " + Pct(published))]
  }

  /** `_check_versions(report, addon_details, branch, repo_addons_version, pr)`. */
  function CheckVersions(sub: Submission, branch: string, published: Option<string>, pr: bool): (r: Result<seq<Record>>)
    ensures r.Err? <==> BothVersions(sub.version, published).Err?
    ensures r.Err? ==> r.error == BothVersions(sub.version, published).error
    ensures r.Ok? ==> Bumped(r.value, BothVersions(sub.version, published).value, pr)
  {
    var versions :- BothVersions(sub.version, published);
    Ok(VersionRecords(sub, branch, published, versions, pr))
  }

  /** Does the loop stop at `b`: a branch at or below the target that holds
      the id. */
  predicate Holds(b: Branch, sub: Submission, target: KV.KodiVersion)
  {
    && b.name in KV.ValidKodiVersions
    && KV.Le(KV.KodiVersion(b.name), KV.Kodi(target)) == Ok(true)
    && Repositories.Contains(b.repo, sub.name) == Ok(true)
  }

  /** One step of the loop of lines 32-35: does it stop at `b`? The
      repository of a branch above the target is not queried. */
  function Stops(b: Branch, sub: Submission, target: KV.KodiVersion): (r: Result<bool>)
    requires KV.Valid(target)
    ensures r == Ok(true) <==> Holds(b, sub, target)
    ensures r.Err? ==> b.name !in KV.ValidKodiVersions || Repositories.Contains(b.repo, sub.name).Err?
  {
    var kb :- KV.NewKodiVersion(b.name);
    if KV.Le(kb, KV.Kodi(target)) == Ok(true) then Repositories.Contains(b.repo, sub.name)
    else Ok(false)
  }

  /** The early-return search of lines 32-35 over `items` for a test
      `stop`: the first item it accepts, `None` when there is none, or the
      exception met on the way. */
  function FirstStop(items: seq<Branch>, stop: Branch -> Result<bool>): (r: Result<Option<Branch>>)
    ensures r.Ok? && r.value.Some? ==> r.value.value in items && stop(r.value.value) == Ok(true)
  {
    if items == [] then Ok(None)
    else
      var s :- stop(items[0]);
      if s then Ok(Some(items[0])) else FirstStop(items[1..], stop)
  }

  /** The position the search stops at: every earlier item was tested and
      passed over. */
  lemma {:induction false} FirstStopAt(items: seq<Branch>, stop: Branch -> Result<bool>, b: Branch) returns (k: nat)
    requires FirstStop(items, stop) == Ok(Some(b))
    ensures k < |items| && items[k] == b
    ensures forall j :: 0 <= j < k ==> stop(items[j]) == Ok(false)
  {
    var s := stop(items[0]);
    if s.value {
      k := 0;
    } else {
      var rest := items[1..];
      var m := FirstStopAt(rest, stop, b);
      k := m + 1;
      assert forall j :: 0 < j < k ==> items[j] == rest[j - 1];
    }
  }

  /** The test of one loop step, for a fixed submission and target. */
  function Stopper(sub: Submission, target: KV.KodiVersion): Branch -> Result<bool>
    requires KV.Valid(target)
  {
    b => Stops(b, sub, target)
  }

  /** The search of lines 32-35: the first item the loop stops at, `None`
      when there is none, or the exception met on the way. */
  function FirstHolder(items: seq<Branch>, sub: Submission, target: KV.KodiVersion): (r: Result<Option<Branch>>)
    requires KV.Valid(target)
    ensures r.Ok? && r.value.Some? ==> r.value.value in items && Holds(r.value.value, sub, target)
  {
    FirstStop(items, Stopper(sub, target))
  }

  /** The branch the search stops at comes before every other branch that
      holds the id. */
  lemma FirstHolderIsFirst(items: seq<Branch>, sub: Submission, target: KV.KodiVersion, b: Branch)
    requires KV.Valid(target)
    requires FirstHolder(items, sub, target) == Ok(Some(b))
    ensures exists k :: 0 <= k < |items| && items[k] == b && forall j :: 0 <= j < k ==> !Holds(items[j], sub, target)
  {
    var k := FirstStopAt(items, Stopper(sub, target), b);
    assert forall j :: 0 <= j < k ==> Stops(items[j], sub, target) == Ok(false);
  }

  /** A search without a result and without an exception passed only
      branches that do not hold the id. */
  lemma {:induction false} NoHolder(items: seq<Branch>, sub: Submission, target: KV.KodiVersion)
    requires KV.Valid(target)
    requires FirstHolder(items, sub, target) == Ok(None)
    ensures forall j :: 0 <= j < |items| ==> !Holds(items[j], sub, target)
  {
    if items != [] {
      var rest := items[1..];
      assert Stops(items[0], sub, target) == Ok(false);
      NoHolder(rest, sub, target);
      assert forall j :: 1 <= j < |items| ==> items[j] == rest[j - 1];
    }
  }

  /** A branch above the target is passed over whatever its repository
      holds, even one without a snapshot. */
  lemma HigherBranchPassed(b: Branch, rest: seq<Branch>, sub: Submission, target: KV.KodiVersion)
    requires KV.Valid(target) && b.name in KV.ValidKodiVersions
    requires KV.Gt(KV.KodiVersion(b.name), KV.Kodi(target)) == Ok(true)
    ensures FirstHolder([b] + rest, sub, target) == FirstHolder(rest, sub, target)
  {
    KV.TotalOrder(KV.KodiVersion(b.name), target, target);
    assert ([b] + rest)[1..] == rest;
  }

  /** What `check_for_existing_addon` reports once the search ended with
      `found`. */
  function Report(found: Result<Option<Branch>>, sub: Submission, pr: bool): Run
  {
    match found
    case Err(e) => Run([], Some(e))
    case Ok(None) => Run([NewAddonRecord], None)
    case Ok(Some(b)) =>
      match PublishedVersion(b.repo, sub.name)
      case Err(e) => Run([], Some(e))
      case Ok(published) =>
        match CheckVersions(sub, b.name, published, pr)
        case Err(e) => Run([], Some(e))
        case Ok(rs) => Run(rs, None)
  }

  /** What `check_for_existing_addon` reports. */
  function OldAddonRun(sub: Submission, repos: seq<Branch>, target: KV.KodiVersion, pr: bool): Run
    requires KV.Valid(target)
  {
    Report(FirstHolder(SortDescending(repos), sub, target), sub, pr)
  }

  /** At most one record per call; "This is a new addon" exactly when the
      search found no branch at or below the target holding the id. */
  lemma OneRecord(found: Result<Option<Branch>>, sub: Submission, pr: bool)
    ensures var run := Report(found, sub, pr);
            && |run.records| <= 1
            && (run.records == [NewAddonRecord] && run.raised.None? <==> found == Ok(None))
  {
    LevelsDistinct();
  }

  /** `check_for_existing_addon(report, addon_path, all_repo_addons, pr,
      kodi_version)` of the older module; `sub` is what `_get_addon_name`
      read. */
  method CheckForExistingAddon(sub: Submission, repos: seq<Branch>, pr: bool, target: KV.KodiVersion) returns (run: Run)
    requires KV.Valid(target)
    ensures run == OldAddonRun(sub, repos, target, pr)
  {
    var items := SortDescending(repos);
    var i := 0;
    while i < |items|
      invariant 0 <= i <= |items|
      invariant FirstHolder(items[i..], sub, target) == FirstHolder(items, sub, target)
    {
      assert items[i..][0] == items[i] && items[i..][1..] == items[i + 1..];
      var kb := KV.NewKodiVersion(items[i].name);
      if kb.Err? {
        return Run([], Some(kb.error));
      }
      if KV.Le(kb.value, KV.Kodi(target)) == Ok(true) {
        var contained := Repositories.Contains(items[i].repo, sub.name);
        if contained.Err? {
          return Run([], Some(contained.error));
        }
        if contained.value {
          var published := PublishedVersion(items[i].repo, sub.name);
          if published.Err? {
            return Run([], Some(published.error));
          }
          var rs := CheckVersions(sub, items[i].name, published.value, pr);
          if rs.Err? {
            return Run([], Some(rs.error));
          }
          return Run(rs.value, None);
        }
      }
      i := i + 1;
    }
    assert items[i..] == [];
    run := Run([NewAddonRecord], None);
  }
}
