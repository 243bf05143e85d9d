/** The dependency check of an add-on against the repository of its branch
    (kodi_addon_checker/check_dependencies.py). */
module CheckDependencies {

  import opened Outcome
  import opened Text
  import Orders
  import opened Records
  import opened Versions
  import opened Addons
  import opened Repositories

  /** `common_ignore_deps`: extension points and modules every Kodi
      provides, so they are not looked up in the repository. */
  const CommonIgnoreDeps: seq<string> := [
    "xbmc.metadata.scraper.albums", "xbmc.metadata.scraper.movies",
    "xbmc.metadata.scraper.musicvideos", "xbmc.metadata.scraper.tvshows",
    "xbmc.metadata.scraper.library", "xbmc.ui.screensaver", "xbmc.player.musicviz",
    "xbmc.python.pluginsource", "xbmc.python.script", "xbmc.python.weather", "xbmc.python.lyrics",
    "xbmc.python.library", "xbmc.python.module", "xbmc.subtitle.module", "kodi.context.item",
    "kodi.game.controller", "xbmc.gui.skin", "xbmc.webinterface", "xbmc.addon.repository",
    "xbmc.pvrclient", "kodi.gameclient", "kodi.peripheral", "kodi.resource", "xbmc.addon.video",
    "xbmc.addon.audio", "xbmc.addon.image", "xbmc.addon.executable", "kodi.addon.game",
    "kodi.audioencoder", "kodi.audiodecoder", "xbmc.service", "kodi.resource.images",
    "kodi.resource.language", "kodi.resource.uisounds", "kodi.resource.games",
    "kodi.resource.font", "kodi.inputstream", "kodi.vfs", "kodi.imagedecoder", "xbmc.addon",
    "xbmc.gui", "xbmc.json", "xbmc.metadata", "xbmc.python", "script.module.pil"]

  /** `VERSION_ATTRB`: the advised `xbmc.python` version per branch. */
  const VersionAttrb: map<string, map<string, string>> := map[
    "xbmc.python" := map[
      "gotham" := "2.14.0", "helix" := "2.19.0", "isengard" := "2.20.0",
      "jarvis" := "2.24.0", "krypton" := "2.25.0", "leia" := "2.26.0"]]

  /** What `_get_ignore_list(branch_name)` appends to the shared list. */
  function Extension(branch: string): (r: seq<string>)
    ensures branch == "leia" ==> r == ["script.module.pycryptodome"]
    ensures branch == "krypton" ==> r == ["inputstream.adaptive", "inputstream.rtmp"]
    ensures branch != "leia" && branch != "krypton" ==> r == []
  {
    if branch == "leia" then ["script.module.pycryptodome"]
    else if branch == "krypton" then ["inputstream.adaptive", "inputstream.rtmp"]
    else []
  }

  /** The module-level list `common_ignore_deps`, which `_get_ignore_list`
      extends in place. */
  class IgnoreList {
    var deps: seq<string>

    constructor ()
      ensures deps == CommonIgnoreDeps
    {
      deps := CommonIgnoreDeps;
    }

    /** `_get_ignore_list(branch_name)`: extends the shared list for leia
        and krypton and returns that same list. */
    method GetIgnoreList(branch: string) returns (r: seq<string>)
      modifies this
      ensures deps == old(deps) + Extension(branch)
      ensures r == deps
    {
      if branch == "leia" {
        deps := deps + ["script.module.pycryptodome"];
        return deps;
      } else if branch == "krypton" {
        deps := deps + ["inputstream.adaptive", "inputstream.rtmp"];
        return deps;
      } else {
        return deps;
      }
    }
  }

  /** The shared list, starting as `common`, after `_get_ignore_list` has
      been called for each of `branches` in turn: the additions persist and
      accumulate. The list itself starts as `CommonIgnoreDeps`. */
  function IgnoreAfter(common: seq<string>, branches: seq<string>): (r: seq<string>)
  {
    if branches == [] then common
    else IgnoreAfter(common, branches[..|branches| - 1]) + Extension(branches[|branches| - 1])
  }

  /** One more `GetIgnoreList` call extends the history by its branch. */
  lemma IgnoreAfterCall(common: seq<string>, branches: seq<string>, branch: string)
    ensures IgnoreAfter(common, branches + [branch]) == IgnoreAfter(common, branches) + Extension(branch)
  {
    assert (branches + [branch])[..|branches|] == branches;
  }

  /** An id is ignored after a history of calls exactly when it is a common
      one or some earlier call's branch added it, whatever branch is being
      checked now. */
  lemma {:induction false} IgnoreAfterMembers(common: seq<string>, branches: seq<string>, x: string)
    ensures x in IgnoreAfter(common, branches) <==> x in common || exists i :: 0 <= i < |branches| && x in Extension(branches[i])
  {
    if branches != [] {
      var init := branches[..|branches| - 1];
      IgnoreAfterMembers(common, init, x);
      assert forall i :: 0 <= i < |init| ==> init[i] == branches[i];
    }
  }

  /** Each call for "leia" adds one more copy of the same id: after `n`
      such calls the list holds it `n` times more than it started with. */
  lemma {:induction false} RepeatedCallsDuplicate(common: seq<string>, n: nat)
    ensures multiset(IgnoreAfter(common, seq(n, i => "leia")))["script.module.pycryptodome"]
         == multiset(common)["script.module.pycryptodome"] + n
  {
    if n > 0 {
      var calls := seq(n, i => "leia");
      assert calls[..n - 1] == seq(n - 1, i => "leia");
      RepeatedCallsDuplicate(common, n - 1);
    }
  }

  function Kind(d: Dependency): string { if IsOptional(d.optional) then "Optional" else "Required" }

  function LowerKind(d: Dependency): string { if IsOptional(d.optional) then "optional" else "required" }

  /** The level for a finding about a dependency: information for an
      optional one, `severity` for a required one. */
  function LevelFor(d: Dependency, severity: string): string
  {
    if IsOptional(d.optional) then INFORMATION else severity
  }

  /** A required dependency named in the ignore list is skipped. */
  predicate Skipped(d: Dependency, ignore: seq<string>)
  {
    d.id.Some? && d.id.value in ignore && !IsOptional(d.optional)
  }

  /** The record of the first four branches of the dependency loop: ignored,
      not available, available without a declared minimum, or the version
      comparison, which is `compare` applied to the entry `find` returned. */
  function AvailabilityRecords(d: Dependency, repo: Repository, ignore: seq<string>,
                               compare: (Dependency, Addon) -> Result<seq<Record>>): Result<seq<Record>>
  {
    if Skipped(d, ignore) then Ok([])
    else
      var contained :- Repositories.Contains(repo, d.id);
      if !contained then
        Ok([Record(LevelFor(d, PROBLEM),
                   Kind(d) + " dependency " + Show(d.id) + " is not available in current repository")])
      else
        var found :- Highest(repo, d.id);
        match found
        case None => Err(AttributeError)     // `None.version`; cannot happen after `in`
        case Some(a) =>
          if d.version.None? then
            Ok([Record(LevelFor(d, WARNING),
                       Kind(d) + " dependency " + Show(d.id) + " does not require a minimum version, available: "
                       + Show(a.version))])
          else compare(d, a)
  }

  /** The record of lines 63-66 for the declared minimum `required` and
      the entry `a`. */
  function Mismatch(d: Dependency, required: AddonVersion, a: Addon): Record
  {
    Record(LevelFor(d, PROBLEM),
           "Version mismatch for " + LowerKind(d) + " dependency " + Show(d.id) + ", required: "
           + Render(required.version) + ", Available: " + Show(a.version))
  }

  /** Line 62 as written: `repo_addons.find(id).version < dependency.version`
      puts the raw version string (or `None`) of the entry on the left of an
      `AddonVersion`. Neither `str` nor `None` orders itself against it, so
      Python calls the reflected `AddonVersion.__gt__`, which raises
      `TypeError` for an operand that is not an `AddonVersion`. */
  function CompareAsWritten(d: Dependency, a: Addon): (r: Result<seq<Record>>)
    ensures d.version.None? ==> r == Ok([])
    ensures d.version.Some? ==> r == Err(TypeError)
  {
    if d.version.None? then Ok([])
    else
      var required := d.version.value;
      match Gt(required, Foreign)
      case Err(e) => Err(e)
      case Ok(below) => Ok(if below then [Mismatch(d, required, a)] else [])
  }

  /** The evidently intended comparison: the entry's version is parsed as
      `find` itself parses it, and a version below the declared minimum is
      reported. */
  function CompareVersions(d: Dependency, a: Addon): (r: Result<seq<Record>>)
    ensures d.version.None? ==> r == Ok([])
    ensures d.version.Some? ==> (r.Err? <==> Key(a).Err?)
    ensures r.Ok? ==> |r.value| <= 1
    ensures r.Ok? && r.value != [] <==>
              d.version.Some? && Key(a).Ok? && Compare(Key(a).value.version, d.version.value.version) == Orders.Less
    ensures r.Ok? && r.value != [] ==> r.value[0].logLevel == LevelFor(d, PROBLEM)
  {
    if d.version.None? then Ok([])
    else
      var available :- Key(a);
      if Lt(available, Version(d.version.value)) == Ok(true) then Ok([Mismatch(d, d.version.value, a)]) else Ok([])
  }

  /** As written, a dependency with a declared minimum that is neither
      skipped nor missing from the catalog never passes: the check ends
      with `TypeError`, or with the exception `find` raised first. */
  lemma ComparisonAlwaysRaises(d: Dependency, repo: Repository, ignore: seq<string>)
    requires d.version.Some? && !Skipped(d, ignore)
    requires Repositories.Contains(repo, d.id) == Ok(true)
    ensures AvailabilityRecords(d, repo, ignore, CompareAsWritten).Err?
  {
    var found := Highest(repo, d.id);
    if found.Ok? {
      HighestFinds(repo, d.id);
      FindNoneIffAbsent(repo.addons.value, d.id, found);
    }
  }

  /** The chain of lines 48-66 adds at most one record; its level is
      information for an optional dependency and otherwise a problem, or a
      warning when no minimum is declared. */
  lemma ChainLevel(d: Dependency, repo: Repository, ignore: seq<string>)
    ensures var r := AvailabilityRecords(d, repo, ignore, CompareVersions);
            && (r.Ok? ==> |r.value| <= 1)
            && (r.Ok? && r.value != [] ==>
                  r.value[0].logLevel == LevelFor(d, PROBLEM) || (d.version.None? && r.value[0].logLevel == LevelFor(d, WARNING)))
  {
  }

  /** Which dependencies the chain reports: none when skipped, the missing
      snapshot raises, a dependency absent from the catalog is reported as
      a problem (information when optional), and an available one without
      a minimum is always reported. */
  lemma ChainCases(d: Dependency, repo: Repository, ignore: seq<string>)
    ensures var r := AvailabilityRecords(d, repo, ignore, CompareVersions);
            && (Skipped(d, ignore) ==> r == Ok([]))
            && (!Skipped(d, ignore) && repo.addons.None? ==> r == Err(AttributeError))
            && (!Skipped(d, ignore) && repo.addons.Some? && !(exists a :: a in repo.addons.value && a.id == d.id) ==>
                  r.Ok? && |r.value| == 1 && r.value[0].logLevel == LevelFor(d, PROBLEM))
            && (!Skipped(d, ignore) && d.version.None? && r.Ok? ==> |r.value| == 1)
  {
    if !Skipped(d, ignore) && repo.addons.Some? && exists a :: a in repo.addons.value && a.id == d.id {
      var found := Highest(repo, d.id);
      if found.Ok? {
        HighestFinds(repo, d.id);
        FindNoneIffAbsent(repo.addons.value, d.id, found);
      }
    }
  }

  /** With every catalog entry of the id readable, a required dependency
      with a declared minimum passes silently exactly when some entry of
      the id meets the minimum: the entry `find` picks is at least as high
      as any of them. */
  lemma MinimumMet(d: Dependency, repo: Repository, ignore: seq<string>)
    requires !Skipped(d, ignore) && repo.addons.Some? && d.version.Some?
    requires forall b :: b in repo.addons.value && b.id == d.id ==> Key(b).Ok?
    ensures AvailabilityRecords(d, repo, ignore, CompareVersions) == Ok([]) <==>
            exists b :: b in repo.addons.value && b.id == d.id && Compare(Key(b).value.version, d.version.value.version) != Orders.Less
  {
    var addons, req := repo.addons.value, d.version.value.version;
    if exists b :: b in addons && b.id == d.id {
      var a := ReadableFindsHighest(repo, d.id);
      ChainOfFound(d, repo, ignore, CompareVersions, a);
      forall b | b in addons && b.id == d.id && Compare(Key(b).value.version, req) != Orders.Less
        ensures Compare(Key(a).value.version, req) != Orders.Less
      {
        AtLeastCarries(req, Key(b).value.version, Key(a).value.version);
      }
    }
  }

  /** For a declared minimum, the chain ends in the comparison with the
      entry `find` returned. */
  lemma ChainOfFound(d: Dependency, repo: Repository, ignore: seq<string>,
                     compare: (Dependency, Addon) -> Result<seq<Record>>, a: Addon)
    requires !Skipped(d, ignore) && repo.addons.Some? && d.version.Some?
    requires exists b :: b in repo.addons.value && b.id == d.id
    requires Highest(repo, d.id) == Ok(Some(a))
    ensures AvailabilityRecords(d, repo, ignore, compare) == compare(d, a)
  {
  }

  lemma AtLeastCarries(req: Pep440, b: Pep440, a: Pep440)
    requires Compare(b, req) != Orders.Less && Compare(b, a) != Orders.Greater
    ensures Compare(a, req) != Orders.Less
  {
    CompareLaws(req, b, a);
    CompareLaws(b, req, a);
    CompareLaws(req, a, b);
  }

  /** A catalog holding `script.module.six` 1.0.0 and an add-on requiring
      that same version: as written the check raises `TypeError`; the
      corrected comparison finds nothing to report. */
  lemma SatisfiedDependencyRaises()
    ensures var d := Dependency(Some("script.module.six"), Some(AddonVersion(Pep440([1, 0, 0], None, None, []))), NotGiven);
            var repo := Repository("leia", "", Some([Addon(Some("script.module.six"), Some("1.0.0"), [])]));
            AvailabilityRecords(d, repo, [], CompareAsWritten) == Err(TypeError)
            && AvailabilityRecords(d, repo, [], CompareVersions) == Ok([])
  {
    var a := Addon(Some("script.module.six"), Some("1.0.0"), []);
    var repo := Repository("leia", "", Some([a]));
    var v := AddonVersion(Pep440([1, 0, 0], None, None, []));
    Reads100();
    assert Key(a) == Ok(v);
    assert Instances([a], a.id) == [a];
    KeysAllOk([a], Key, [v]);
    CompareLaws(Pep440([1, 0, 0], None, None, []), Pep440([1, 0, 0], None, None, []), Pep440([1, 0, 0], None, None, []));
    assert Highest(repo, a.id) == Ok(Some(a));
  }

  /** The advice of lines 68-75: one warning when the branch has an advised
      version for the id and `differs(advised, declared)` holds; a branch
      missing from the table is only logged. */
  function Advice(d: Dependency, branch: string, differs: (string, Option<AddonVersion>) -> bool): (r: seq<Record>)
    ensures |r| <= 1
    ensures r != [] ==> r[0].logLevel == WARNING
    ensures r != [] <==> d.id.Some? && d.id.value in VersionAttrb && branch in VersionAttrb[d.id.value]
                         && differs(VersionAttrb[d.id.value][branch], d.version)
  {
    if d.id.Some? && d.id.value in VersionAttrb then
      if branch in VersionAttrb[d.id.value] then
        var version := VersionAttrb[d.id.value][branch];
        if differs(version, d.version) then
          [Record(WARNING, "For " + branch + " it is advised to set " + d.id.value + " version to " + version)]
        else []
      else []                                   // KeyError: logged only
    else []
  }

  /** Line 71 as written: `LooseVersion(version) != dependency.version`.
      `LooseVersion` compares only with strings and other `LooseVersion`s,
      so `!=` falls back to the reflected `AddonVersion.__ne__`, which is
      true for any other class, or, against `None`, to identity, also
      true. */
  function LooseVersionDiffers(advised: string, declared: Option<AddonVersion>): (r: bool)
    ensures declared.Some? ==> r == Ne(declared.value, Foreign)
  {
    if declared.Some? then Ne(declared.value, Foreign) else true
  }

  /** The evidently intended test: the declared version is not the advised
      one (an absent version counts as different). */
  function VersionDiffers(advised: string, declared: Option<AddonVersion>): (r: bool)
    ensures declared.Some? && NewAddonVersion(advised) == Ok(declared.value) ==> !r
    ensures declared.None? ==> r
    ensures r <==> declared.None? || NewAddonVersion(advised).Err?
                   || Compare(NewAddonVersion(advised).value.version, declared.value.version) != Orders.Equal
  {
    match NewAddonVersion(advised)
    case Err(_) => true
    case Ok(v) =>
      CompareLaws(v.version, v.version, v.version);
      declared.None? || Ne(v, Version(declared.value))
  }

  /** As written, the advice fires for every `xbmc.python` import on a
      branch of the table, even one that declares exactly the advised
      version. */
  lemma AdviceAlwaysFires(d: Dependency, branch: string)
    requires d.id == Some("xbmc.python") && branch in VersionAttrb["xbmc.python"]
    ensures Advice(d, branch, LooseVersionDiffers) != []
  {
  }

  /** An import of `xbmc.python` that declares exactly the advised leia
      version: as written the advice still fires; the corrected test stays
      quiet. */
  lemma AdvisedVersionOnLeia()
    ensures var d := Dependency(Some("xbmc.python"), Some(AddonVersion(Pep440([2, 26, 0], None, None, []))), NotGiven);
            Advice(d, "leia", LooseVersionDiffers) != [] && Advice(d, "leia", VersionDiffers) == []
  {
    var p := Pep440([2, 26, 0], None, None, []);
    Reads2260();
    CompareLaws(p, p, p);
  }

  /** An import of `xbmc.python` that declares 2.25.0 on leia, where 2.26.0
      is advised: the corrected test does advise. */
  lemma AdvisedDifferentVersionOnLeia()
    ensures var d := Dependency(Some("xbmc.python"), Some(AddonVersion(Pep440([2, 25, 0], None, None, []))), NotGiven);
            Advice(d, "leia", VersionDiffers) != []
  {
    Reads2260();
  }

  /** Everything one dependency adds to the report: the record of the chain
      of lines 48-66, if any, then the advice warning, if any. */
  function DependencyRecords(d: Dependency, repo: Repository, ignore: seq<string>, branch: string): Result<seq<Record>>
  {
    var chain :- AvailabilityRecords(d, repo, ignore, CompareVersions);
    Ok(chain + Advice(d, branch, VersionDiffers))
  }

  /** The records one dependency adds, once the repository, the ignore
      list and the branch are fixed. */
  function Step(repo: Repository, ignore: seq<string>, branch: string): Dependency -> Result<seq<Record>>
  {
    d => DependencyRecords(d, repo, ignore, branch)
  }

  /** The loop over the dependencies, in order; the first exception ends it. */
  function DependenciesRun(deps: seq<Dependency>, step: Dependency -> Result<seq<Record>>): (r: Run)
    ensures r.raised.None? <==> forall i :: 0 <= i < |deps| ==> step(deps[i]).Ok?
  {
    if deps == [] then Run([], None)
    else match step(deps[0])
      case Err(e) => Run([], Some(e))
      case Ok(rs) =>
        var rest := DependenciesRun(deps[1..], step);
        assert forall i :: 1 <= i < |deps| ==> deps[1..][i - 1] == deps[i];
        Then(rs, rest)
  }

  /** Without an exception, the run's records are the dependencies'
      records concatenated in order. */
  lemma {:induction false} RunConcatenates(deps: seq<Dependency>, step: Dependency -> Result<seq<Record>>, d: Dependency)
    requires DependenciesRun(deps, step).raised.None? && step(d).Ok?
    ensures DependenciesRun(deps + [d], step) == Run(DependenciesRun(deps, step).records + step(d).value, None)
  {
    if deps == [] {
      assert ([] + [d])[1..] == [];
    } else {
      assert (deps + [d])[0] == deps[0] && (deps + [d])[1..] == deps[1..] + [d];
      RunConcatenates(deps[1..], step, d);
    }
  }

  /** The dependency loop of `check_addon_dependencies`. */
  method RunDependencies(deps: seq<Dependency>, step: Dependency -> Result<seq<Record>>) returns (run: Run)
    ensures run == DependenciesRun(deps, step)
  {
    var records: seq<Record> := [];
    var i := 0;
    while i < |deps|
      invariant 0 <= i <= |deps|
      invariant Then(records, DependenciesRun(deps[i..], step)) == DependenciesRun(deps, step)
    {
      assert deps[i..][0] == deps[i] && deps[i..][1..] == deps[i + 1..];
      var rs := step(deps[i]);
      if rs.Err? {
        return Run(records, Some(rs.error));
      }
      records := records + rs.value;
      i := i + 1;
    }
    assert deps[i..] == [];
    run := Run(records, None);
  }

  /** The add-on `Addon(xml)` builds, when it builds one. */
  predicate Builds(xml: AddonXml, a: Addon)
  {
    && (forall i :: 0 <= i < |xml.imports| ==> NewDependency(xml.imports[i]).Ok?)
    && Reads(xml, a)
  }

  /** An element reads as at most one add-on. */
  lemma ReadsUnique(xml: AddonXml, a: Addon, b: Addon)
    requires Reads(xml, a) && Reads(xml, b)
    ensures a == b
  {
    assert forall i :: 0 <= i < |xml.imports| ==> Ok(a.dependencies[i]) == NewDependency(xml.imports[i]) == Ok(b.dependencies[i]);
  }

  /** `check_addon_dependencies(report, repo_addons, parsed_xml, branch_name)`:
      builds the add-on (which may raise), extends and reads the ignore
      list, then checks each dependency in order. */
  method CheckAddonDependencies(ignoreList: IgnoreList, repo: Repository, xml: AddonXml, branch: string)
    returns (run: Run)
    modifies ignoreList
    ensures (exists i :: 0 <= i < |xml.imports| && NewDependency(xml.imports[i]).Err?) ==>
              run.records == [] && run.raised.Some? && ignoreList.deps == old(ignoreList.deps)
    ensures forall a :: Builds(xml, a) ==>
              ignoreList.deps == old(ignoreList.deps) + Extension(branch)
              && run == DependenciesRun(a.dependencies, Step(repo, ignoreList.deps, branch))
  {
    var addon := NewAddon(xml);
    if addon.Err? {
      return Run([], Some(addon.error));
    }
    forall a | Builds(xml, a) ensures a == addon.value {
      ReadsUnique(xml, a, addon.value);
    }
    var ignore := ignoreList.GetIgnoreList(branch);
    run := RunDependencies(addon.value.dependencies, Step(repo, ignore, branch));
  }
}
