/** Schema validation of addon.xml: the branch fallback for schema files
    and the bookkeeping over the extension points
    (kodi_addon_checker/schema_validation.py). The file system and the
    XML Schema validator are parameters: `isFile` answers
    `os.path.exists`, `validate` answers `_validate`. */
module SchemaValidation {

  import opened Outcome
  import opened Text
  import opened Records
  import KV = KodiVersions
  import opened Paths

  /** `xs[::-1]` */
  function Reversed(xs: seq<string>): (r: seq<string>)
    ensures |r| == |xs| && forall i :: 0 <= i < |xs| ==> r[i] == xs[|xs| - 1 - i]
  {
    if xs == [] then [] else Reversed(xs[1..]) + [xs[0]]
  }

  /** The branches `check_version` tries, lines 128-129, for the release
      list `versions`; `list.index` raises `ValueError` for an unknown
      branch. */
  function EligibleIn(versions: seq<string>, branchName: string): Result<seq<string>>
  {
    var all := Reversed(versions);
    var idx :- KV.IndexOf(all, branchName);
    Ok(all[idx..])
  }

  function Eligible(branchName: string): Result<seq<string>> { EligibleIn(KV.ValidKodiVersions, branchName) }

  /** In a list without repetitions: the target branch first, then every
      older one newest first, and no newer one. */
  lemma EligibleInIsOlder(v: seq<string>, k: nat)
    requires KV.Distinct(v) && k < |v|
    ensures EligibleIn(v, v[k]) == Ok(Reversed(v[..k + 1]))
  {
    var all := Reversed(v);
    var n := |v| - 1 - k;
    forall i, j | 0 <= i < j < |all| ensures all[i] != all[j] {
      assert all[i] == v[|v| - 1 - i] && all[j] == v[|v| - 1 - j];
    }
    assert all[n] == v[k];
    KV.IndexOfDistinct(all, n);
    var tail := all[n..];
    var want := Reversed(v[..k + 1]);
    forall i | 0 <= i < k + 1 ensures tail[i] == want[i] {
      assert tail[i] == all[n + i] == v[k - i];
      assert want[i] == v[..k + 1][k - i];
    }
    assert tail == want;
  }

  lemma EligibleInUnknown(v: seq<string>, branchName: string)
    requires branchName !in v
    ensures EligibleIn(v, branchName) == Err(ValueError)
  {
    var all := Reversed(v);
    assert all[0..] == all;
    assert branchName !in all by {
      assert forall i :: 0 <= i < |v| ==> all[i] == v[|v| - 1 - i];
    }
  }

  /** For the release list: a known branch and the ones before it, newest
      first; `ValueError` for an unknown name. */
  lemma EligibleIsOlder(branchName: string)
    ensures branchName !in KV.ValidKodiVersions ==> Eligible(branchName) == Err(ValueError)
    ensures branchName in KV.ValidKodiVersions ==>
              KV.Rank(KV.KodiVersion(branchName)).Ok? &&
              Eligible(branchName) == Ok(Reversed(KV.ValidKodiVersions[..KV.Rank(KV.KodiVersion(branchName)).value + 1]))
  {
    if branchName in KV.ValidKodiVersions {
      KV.RankOfValid(KV.KodiVersion(branchName));
      KV.ValidKodiVersionsDistinct();
      EligibleInIsOlder(KV.ValidKodiVersions, KV.Rank(KV.KodiVersion(branchName)).value);
    } else {
      EligibleInUnknown(KV.ValidKodiVersions, branchName);
    }
  }

  /** The file tried for `branch`, line 131-132. */
  function SchemaPath(schemaDir: string, branch: string, schemaFile: string): string
  {
    Join(schemaDir, branch + "_" + schemaFile)
  }

  /** The first branch of `branches` whose schema file exists. */
  function FirstExisting(branches: seq<string>, schemaDir: string, schemaFile: string, isFile: string -> bool): Option<string>
  {
    if branches == [] then None
    else if isFile(SchemaPath(schemaDir, branches[0], schemaFile)) then Some(SchemaPath(schemaDir, branches[0], schemaFile))
    else FirstExisting(branches[1..], schemaDir, schemaFile, isFile)
  }

  /** Nothing is found exactly when no branch has its schema file;
      otherwise the path found exists and belongs to a branch before which
      no branch has one. */
  lemma {:induction false} FirstExistingIsFirst(branches: seq<string>, schemaDir: string, schemaFile: string, isFile: string -> bool)
    ensures var r := FirstExisting(branches, schemaDir, schemaFile, isFile);
            && (r.None? <==> forall i :: 0 <= i < |branches| ==> !isFile(SchemaPath(schemaDir, branches[i], schemaFile)))
            && (r.Some? ==> isFile(r.value))
            && (r.Some? ==> exists k :: 0 <= k < |branches| && r.value == SchemaPath(schemaDir, branches[k], schemaFile)
                                        && forall i :: 0 <= i < k ==> !isFile(SchemaPath(schemaDir, branches[i], schemaFile)))
  {
    if branches != [] && !isFile(SchemaPath(schemaDir, branches[0], schemaFile)) {
      var rest := branches[1..];
      FirstExistingIsFirst(rest, schemaDir, schemaFile, isFile);
      var r := FirstExisting(rest, schemaDir, schemaFile, isFile);
      assert forall i :: 1 <= i < |branches| ==> branches[i] == rest[i - 1];
      if r.Some? {
        var k :| 0 <= k < |rest| && r.value == SchemaPath(schemaDir, rest[k], schemaFile)
                 && forall i :: 0 <= i < k ==> !isFile(SchemaPath(schemaDir, rest[i], schemaFile));
        assert r.value == SchemaPath(schemaDir, branches[k + 1], schemaFile);
      }
    }
  }

  /** What `check_version(branch_name, schema_file)` returns for the
      release list `versions`. */
  function SchemaFor(versions: seq<string>, branchName: string, schemaFile: string, schemaDir: string, isFile: string -> bool): Result<Option<string>>
  {
    var branches :- EligibleIn(versions, branchName);
    Ok(FirstExisting(branches, schemaDir, schemaFile, isFile))
  }

  /** `check_version(branch_name, schema_file)`: the search loop with its
      early return, over the release list `versions` (the module reads
      `ValidKodiVersions`). */
  method CheckVersion(versions: seq<string>, branchName: string, schemaFile: string, schemaDir: string, isFile: string -> bool)
    returns (r: Result<Option<string>>)
    ensures r == SchemaFor(versions, branchName, schemaFile, schemaDir, isFile)
  {
    var all := Reversed(versions);
    var idx := KV.IndexOf(all, branchName);
    if idx.Err? {
      return Err(idx.error);
    }
    var branches := all[idx.value..];
    ghost var found := FirstExisting(branches, schemaDir, schemaFile, isFile);
    assert SchemaFor(versions, branchName, schemaFile, schemaDir, isFile) == Ok(found);
    var i := 0;
    while i < |branches|
      invariant 0 <= i <= |branches|
      invariant FirstExisting(branches[i..], schemaDir, schemaFile, isFile) == found
    {
      assert branches[i..][0] == branches[i] && branches[i..][1..] == branches[i + 1..];
      var path := SchemaPath(schemaDir, branches[i], schemaFile);
      if isFile(path) {
        return Ok(Some(path));
      }
      i := i + 1;
    }
    assert branches[i..] == [];
    return Ok(None);
  }

  /** The `valid_points` table of lines 50-86: extension point to schema
      file. */
  const ValidPoints: map<string, string> := map[
    "kodi.audiodecoder" := "binary_audiodecoder.xsd",
    "kodi.audioencoder" := "binary_audioencoder.xsd",
    "kodi.context.item" := "contextitem.xsd",
    "kodi.gameclient" := "binary_gameclient.xsd",
    "kodi.game.controller" := "controller.xsd",
    "kodi.imagedecoder" := "binary_imagedecoder.xsd",
    "kodi.inputstream" := "binary_inputstream.xsd",
    "kodi.peripheral" := "binary_peripheral.xsd",
    "kodi.pvrclient" := "binary_pvr.xsd",
    "kodi.resource.games" := "games.xsd",
    "kodi.resource.images" := "images.xsd",
    "kodi.resource.language" := "language.xsd",
    "kodi.addon.metadata" := "metadata.xsd",
    "kodi.resource.uisounds" := "uisounds.xsd",
    "kodi.vfs" := "binary_vfs.xsd",
    "xbmc.addon.metadata" := "metadata.xsd",
    "xbmc.addon.repository" := "repository.xsd",
    "xbmc.gui.skin" := "skin.xsd",
    "xbmc.metadata.scraper.albums" := "scraper.xsd",
    "xbmc.metadata.scraper.artists" := "scraper.xsd",
    "xbmc.metadata.scraper.movies" := "scraper.xsd",
    "xbmc.metadata.scraper.musicvideos" := "scraper.xsd",
    "xbmc.metadata.scraper.tvshows" := "scraper.xsd",
    "xbmc.metadata.scraper.library" := "scraper.xsd",
    "xbmc.player.musicviz" := "binary_visualization.xsd",
    "xbmc.python.script" := "pythonscript.xsd",
    "xbmc.python.lyrics" := "script.xsd",
    "xbmc.python.weather" := "script.xsd",
    "xbmc.python.library" := "script.xsd",
    "xbmc.python.pluginsource" := "pluginsource.xsd",
    "xbmc.python.module" := "script.xsd",
    "xbmc.service" := "service.xsd",
    "xbmc.subtitle.module" := "script.xsd",
    "xbmc.ui.screensaver" := "script.xsd",
    "xbmc.webinterface" := "webinterface.xsd"
  ]

  predicate IsMetadata(point: string) { point == "xbmc.addon.metadata" || point == "kodi.addon.metadata" }

  /** A child of the root element: its tag, its `point` attribute and the
      rest of it, which only the validator looks at. */
  datatype Element = Element(tag: string, point: Option<string>, body: string)

  /** What `_validate` is given: the root or one extension element. */
  datatype Node = Root(children: seq<Element>) | Part(element: Element)

  /** The state of `_validation_checks` after a prefix of the children:
      its records, `failed`, `metadatacount`, `valid`, the children the
      copied tree still holds, and the exception that ended it, if any. */
  datatype Tally = Tally(records: seq<Record>, failed: seq<string>, metadataCount: nat, valid: bool,
                         kept: seq<Element>, raised: Option<Exception>)

  /** The oracles and settings one run works with; `lookup` answers
      `check_version(branch_name, schema_file)`. */
  datatype Setting = Setting(points: map<string, string>, lookup: string -> Result<Option<string>>,
                             isFile: string -> bool, validate: (Node, string) -> bool)

  /** The `lookup` of a setting is `check_version` for `branchName` over the
      schema directory `schemaDir`. */
  ghost predicate LooksUp(st: Setting, versions: seq<string>, branchName: string, schemaDir: string)
  {
    forall f :: st.lookup(f) == SchemaFor(versions, branchName, f, schemaDir, st.isFile)
  }

  /** One pass of the loop body of lines 88-110 over child `e`; a child
      that is not an `extension` is not visited and stays in the tree. */
  function Visit(t: Tally, e: Element, st: Setting): (t': Tally)
  {
    if t.raised.Some? then t
    else if e.tag != "extension" then t.(kept := t.kept + [e])
    else if e.point.None? || e.point.value !in st.points then
      t.(records := t.records + [Record(PROBLEM, Show(e.point) + " is not a valid extension point")],
         valid := false, kept := t.kept + [e])
    else
      var point := e.point.value;
      match st.lookup(st.points[point])
      case Err(x) => t.(raised := Some(x))
      case Ok(None) =>
        t.(records := t.records + [Record(PROBLEM, "schema for " + point + " doesn't exists")], kept := t.kept + [e])
      case Ok(Some(path)) =>
        var count := t.metadataCount + (if IsMetadata(point) then 1 else 0);
        if !st.isFile(path) then
          t.(records := t.records + [Record(PROBLEM, path + " doesn't exist")], metadataCount := count, kept := t.kept + [e])
        else if !st.validate(Part(e), path) then
          t.(failed := t.failed + [point], metadataCount := count, valid := false)
        else t.(metadataCount := count)
  }

  const Start: Tally := Tally([], [], 0, true, [], None)

  /** The loop of lines 88-110 over the first `|xs|` children. */
  function Checks(xs: seq<Element>, st: Setting): Tally
  {
    if xs == [] then Start else Visit(Checks(xs[..|xs| - 1], st), xs[|xs| - 1], st)
  }

  /** An exception, once raised, ends the loop. */
  lemma {:induction false} RaisedStops(xs: seq<Element>, ys: seq<Element>, st: Setting)
    requires Checks(xs, st).raised.Some?
    ensures Checks(xs + ys, st) == Checks(xs, st)
    decreases |ys|
  {
    if ys != [] {
      var init := ys[..|ys| - 1];
      assert (xs + ys)[..|xs + ys| - 1] == xs + init;
      RaisedStops(xs, init, st);
    } else {
      assert xs + ys == xs;
    }
  }

  /** The body of the loop of lines 88-110 for one child `e`. */
  method VisitChild(t: Tally, e: Element, versions: seq<string>, branchName: string, schemaDir: string, st: Setting) returns (t': Tally)
    requires LooksUp(st, versions, branchName, schemaDir) && t.raised.None?
    ensures t' == Visit(t, e, st)
  {
    t' := t;
    if e.tag != "extension" {
      t' := t'.(kept := t'.kept + [e]);
    } else if e.point.None? || e.point.value !in st.points {
      t' := t'.(records := t'.records + [Record(PROBLEM, Show(e.point) + " is not a valid extension point")]);
      t' := t'.(valid := false, kept := t'.kept + [e]);
    } else {
      var point := e.point.value;
      var schemaPath := CheckVersion(versions, branchName, st.points[point], schemaDir, st.isFile);
      assert schemaPath == st.lookup(st.points[point]);
      if schemaPath.Err? {
        return t'.(raised := Some(schemaPath.error));
      }
      if schemaPath.value.Some? {
        var path := schemaPath.value.value;
        if IsMetadata(point) {
          t' := t'.(metadataCount := t'.metadataCount + 1);
        }
        if !st.isFile(path) {
          t' := t'.(records := t'.records + [Record(PROBLEM, path + " doesn't exist")], kept := t'.kept + [e]);
        } else if !st.validate(Part(e), path) {
          t' := t'.(failed := t'.failed + [point], valid := false);
        }
      } else {
        t' := t'.(records := t'.records + [Record(PROBLEM, "schema for " + point + " doesn't exists")]);
        t' := t'.(kept := t'.kept + [e]);
      }
    }
  }

  /** `_validation_checks(report, parsed_xml, branch_name)` over the root's
      `children`, with `valid_points` as `st.points` and the release list
      `ValidKodiVersions` as `versions`: the state `failed`,
      `metadatacount` and `valid` and the copied tree form when the loop
      ends or raises. */
  method ValidationChecks(children: seq<Element>, versions: seq<string>, branchName: string, schemaDir: string, st: Setting) returns (t: Tally)
    requires LooksUp(st, versions, branchName, schemaDir)
    ensures t == Checks(children, st)
  {
    t := Start;
    var i := 0;
    while i < |children|
      invariant 0 <= i <= |children|
      invariant t == Checks(children[..i], st) && t.raised.None?
    {
      assert children[..i + 1][..i] == children[..i];
      t := VisitChild(t, children[i], versions, branchName, schemaDir, st);
      if t.raised.Some? {
        RaisedStops(children[..i + 1], children[i + 1..], st);
        assert children[..i + 1] + children[i + 1..] == children;
        return;
      }
      i := i + 1;
    }
    assert children[..i] == children;
  }

  /** One extension element judged on its own: its point is known, and its
      schema is missing or the element passes it. */
  predicate Passes(e: Element, st: Setting)
  {
    && e.point.Some? && e.point.value in st.points
    && match st.lookup(st.points[e.point.value])
       case Ok(Some(path)) => st.validate(Part(e), path)
       case _ => true
  }

  /** The schema found for a metadata extension element. */
  predicate MetadataFound(e: Element, st: Setting)
  {
    && e.tag == "extension" && e.point.Some? && e.point.value in st.points && IsMetadata(e.point.value)
    && st.lookup(st.points[e.point.value]).Ok? && st.lookup(st.points[e.point.value]).value.Some?
  }

  /** The point of an extension element that fails validation. */
  function FailedPoint(e: Element, st: Setting): seq<string>
  {
    if e.tag == "extension" && e.point.Some? && e.point.value in st.points then
      match st.lookup(st.points[e.point.value])
      case Ok(Some(path)) => if st.validate(Part(e), path) then [] else [e.point.value]
      case _ => []
    else []
  }

  function CountMetadata(xs: seq<Element>, st: Setting): nat
  {
    if xs == [] then 0 else CountMetadata(xs[..|xs| - 1], st) + (if MetadataFound(xs[|xs| - 1], st) then 1 else 0)
  }

  function FailedPoints(xs: seq<Element>, st: Setting): seq<string>
  {
    if xs == [] then [] else FailedPoints(xs[..|xs| - 1], st) + FailedPoint(xs[|xs| - 1], st)
  }

  /** A schema `check_version` returns exists, so the "doesn't exist"
      record of line 98 is never added and the element always goes on to
      validation. */
  lemma FoundSchemaExists(st: Setting, versions: seq<string>, branchName: string, schemaDir: string, f: string)
    requires LooksUp(st, versions, branchName, schemaDir)
    ensures st.lookup(f).Ok? && st.lookup(f).value.Some? ==> st.isFile(st.lookup(f).value.value)
  {
    assert st.lookup(f) == SchemaFor(versions, branchName, f, schemaDir, st.isFile);
    var branches := EligibleIn(versions, branchName);
    if branches.Ok? {
      FirstExistingIsFirst(branches.value, schemaDir, f, st.isFile);
    }
  }

  /** Without an exception, `valid` survives the loop exactly when every
      extension element passes. */
  lemma {:induction false} ValidSummary(xs: seq<Element>, st: Setting, versions: seq<string>, branchName: string, schemaDir: string)
    requires LooksUp(st, versions, branchName, schemaDir)
    ensures var t := Checks(xs, st);
            t.raised.None? ==> (t.valid <==> forall i :: 0 <= i < |xs| && xs[i].tag == "extension" ==> Passes(xs[i], st))
  {
    if xs != [] {
      var init := xs[..|xs| - 1];
      var e := xs[|xs| - 1];
      ValidSummary(init, st, versions, branchName, schemaDir);
      if Checks(init, st).raised.None? {
        assert forall i :: 0 <= i < |init| ==> init[i] == xs[i];
        if e.tag == "extension" && e.point.Some? && e.point.value in st.points {
          FoundSchemaExists(st, versions, branchName, schemaDir, st.points[e.point.value]);
        }
      }
    }
  }

  /** Without an exception, `metadatacount` counts the metadata elements
      whose schema was found. */
  lemma {:induction false} CountSummary(xs: seq<Element>, st: Setting)
    ensures var t := Checks(xs, st);
            t.raised.None? ==> t.metadataCount == CountMetadata(xs, st)
  {
    if xs != [] {
      CountSummary(xs[..|xs| - 1], st);
    }
  }

  /** Without an exception, `failed` lists the failing points in document
      order. */
  lemma {:induction false} FailedSummary(xs: seq<Element>, st: Setting, versions: seq<string>, branchName: string, schemaDir: string)
    requires LooksUp(st, versions, branchName, schemaDir)
    ensures var t := Checks(xs, st);
            t.raised.None? ==> t.failed == FailedPoints(xs, st)
  {
    if xs != [] {
      var e := xs[|xs| - 1];
      FailedSummary(xs[..|xs| - 1], st, versions, branchName, schemaDir);
      if e.tag == "extension" && e.point.Some? && e.point.value in st.points {
        FoundSchemaExists(st, versions, branchName, schemaDir, st.points[e.point.value]);
      }
    }
  }

  /** An unknown point gives one problem and clears `valid`; a known point
      without a schema gives one problem and leaves `valid` and the count
      as they were. */
  lemma VisitRecords(t: Tally, e: Element, st: Setting)
    requires t.raised.None? && e.tag == "extension"
    ensures var t' := Visit(t, e, st);
            && ((e.point.None? || e.point.value !in st.points) ==>
                  |t'.records| == |t.records| + 1 && t'.records[|t.records|].logLevel == PROBLEM && !t'.valid)
            && (e.point.Some? && e.point.value in st.points && st.lookup(st.points[e.point.value]) == Ok(None) ==>
                  |t'.records| == |t.records| + 1 && t'.records[|t.records|].logLevel == PROBLEM
                  && t'.valid == t.valid && t'.metadataCount == t.metadataCount)
  {
  }

  /** The loop only adds problems. */
  lemma {:induction false} ChecksRecords(xs: seq<Element>, st: Setting)
    ensures forall r :: r in Checks(xs, st).records ==> r.logLevel == PROBLEM
  {
    if xs != [] {
      ChecksRecords(xs[..|xs| - 1], st);
    }
  }

  const RootFailed: Record := Record(PROBLEM, "Schema validation failed for root addon element")
  const MetadataMissing: Record := Record(PROBLEM, "Metadata missing/occurred more than once")
  const ValidFile: Record := Record(INFORMATION, "Valid XML file found")

  function PointsFailed(failed: seq<string>): Record
  {
    Record(PROBLEM, "Schema validation failed for the following points: " + Concat(failed) + " ")
  }

  /** The records lines 31-41 add after the loop, with `rootValid` the
      answer for the tree the loop left. */
  function Closing(t: Tally, rootValid: bool): (rs: seq<Record>)
    ensures ValidFile in rs <==> t.valid && rootValid
    ensures (MetadataMissing in rs) <==> t.metadataCount == 0
    ensures (exists f :: PointsFailed(f) in rs) <==> !(t.valid && rootValid) && t.failed != []
  {
    LevelsDistinct();
    (if rootValid then [] else [RootFailed])
    + (if t.metadataCount == 0 then [MetadataMissing] else [])
    + (if t.valid && rootValid then [ValidFile]
       else if t.failed != [] then [PointsFailed(t.failed)]
       else [])
  }

  /** `schemas(report, parsed_xml, branch_name)` over the root's children.
      The root is validated on the copy the loop removed the validated
      extensions from. */
  function Schemas(children: seq<Element>, schemaDir: string, st: Setting): Run
  {
    var t := Checks(children, st);
    if t.raised.Some? then Run(t.records, t.raised)
    else Run(t.records + Closing(t, st.validate(Root(t.kept), Join(schemaDir, "addon.xsd"))), None)
  }

  /** "Valid XML file found" is reported exactly when every extension
      element passes and so does the root that remains. */
  lemma ValidExactly(children: seq<Element>, versions: seq<string>, branchName: string, schemaDir: string, st: Setting)
    requires LooksUp(st, versions, branchName, schemaDir)
    requires Checks(children, st).raised.None?
    ensures var t := Checks(children, st);
            ValidFile in Schemas(children, schemaDir, st).records <==>
              (forall i :: 0 <= i < |children| && children[i].tag == "extension" ==> Passes(children[i], st))
              && st.validate(Root(t.kept), Join(schemaDir, "addon.xsd"))
  {
    ValidSummary(children, st, versions, branchName, schemaDir);
    var t := Checks(children, st);
    var closing := Closing(t, st.validate(Root(t.kept), Join(schemaDir, "addon.xsd")));
    ChecksRecords(children, st);
    LevelsDistinct();
    assert ValidFile !in t.records;
    assert ValidFile in t.records + closing <==> ValidFile in closing;
  }
}
