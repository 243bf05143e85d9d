/** The file checks (kodi_addon_checker/check_files.py): the whitelist of
    file endings, the add-on id against its folder name, and the layout of
    the language directories. The file index enters as `FileEntry` values;
    the directory listing of the language folder and the result of
    `find_file` as inputs; `REL_PATH` as `relPath`. */
module CheckFiles {

  import opened Outcome
  import opened Text
  import opened Records
  import opened Common
  import opened Paths
  import opened HandleFiles

  // ---------------------------------------------------------------------
  // check_file_whitelist
  // ---------------------------------------------------------------------

  /** The alternatives of the whitelist pattern, lines 123-125, in order. */
  const Extensions: seq<string> :=
    ["py", "xml", "gif", "png", "jpg", "jpeg", "md", "txt", "po", "json", "markdown", "yml",
     "rst", "ini", "flv", "wav", "mp4", "html", "css", "lst", "pkla", "g", "template", "in",
     "cfg", "xsd", "directory",
     "help", "list", "mpeg", "pls", "info", "ttf", "xsp", "theme", "yaml", "dict", "crt", "ico"]

  /** No alternative is empty or starts with a dot. */
  predicate Words(exts: seq<string>)
  {
    forall k :: 0 <= k < |exts| ==> exts[k] != [] && exts[k][0] != '.'
  }

  /** The alternatives of the whitelist are such words. */
  lemma ExtensionsAreWords()
    ensures Words(Extensions)
  {
  }

  /** The character that a lower-case pattern letter has to equal for `c`
      to match it under `re.IGNORECASE`: ASCII capitals are lowered, and
      the four further letters Python's Unicode matching equates with
      ASCII ones map to them ('İ' and 'ı' to 'i', 'ſ' to 's', the Kelvin
      sign to 'k'). Every other character matches only itself. */
  function FoldChar(c: char): (r: char)
    ensures r == c || IsAsciiLower(r)
    ensures !IsAsciiUpper(r)
    ensures IsAsciiUpper(c) ==> r == LowerChar(c)
  {
    if c == '\U{0130}' || c == '\U{0131}' then 'i'
    else if c == '\U{017F}' then 's'
    else if c == '\U{212A}' then 'k'
    else LowerChar(c)
  }

  /** Lowering first changes nothing about what a character matches. */
  lemma FoldLower(c: char)
    ensures FoldChar(LowerChar(c)) == FoldChar(c)
  {
  }

  /** A text folded character by character. */
  function Fold(s: string): (r: string)
    ensures |r| == |s|
    ensures forall i :: 0 <= i < |s| ==> r[i] == FoldChar(s[i])
  {
    seq(|s|, i requires 0 <= i < |s| => FoldChar(s[i]))
  }

  /** `$` matches at `q`: at the end, or just before a newline that ends
      the text. */
  predicate EndAt(s: string, q: nat)
  {
    q == |s| || (q + 1 == |s| && s[q] == '\n')
  }

  /** The pattern word `w` matches `s` from position `p` on, ignoring case. */
  predicate WordAt(s: string, p: nat, w: string)
  {
    p + |w| <= |s| && forall i :: 0 <= i < |w| ==> FoldChar(s[p + i]) == w[i]
  }

  /** `(w1|w2|...)?$` with the alternatives `exts` matches `s` from
      position `p` on: the optional group is skipped, or one of its
      alternatives matches, and `$` follows. */
  predicate GroupThenEnd(s: string, p: nat, exts: seq<string>)
  {
    EndAt(s, p) || exists k :: 0 <= k < |exts| && WordAt(s, p, exts[k]) && EndAt(s, p + |exts[k]|)
  }

  /** `re.match(r"\.?(w1|w2|...)?$", s, re.IGNORECASE) is not None`: the
      optional `\.` is matched or skipped at the start, then the group and
      `$`. */
  predicate PatternMatch(s: string, exts: seq<string>)
  {
    GroupThenEnd(s, 0, exts) || (|s| > 0 && s[0] == '.' && GroupThenEnd(s, 1, exts))
  }

  /** The whitelist test of line 132. */
  predicate WhitelistMatch(ending: string)
  {
    PatternMatch(ending, Extensions)
  }

  /** A folded text that the group accepts before `$`: empty or one of the
      alternatives. */
  predicate Listed(t: string, exts: seq<string>)
  {
    t == "" || t in exts
  }

  /** The text after a dot is accepted: it folds to an empty or listed
      ending, possibly followed by one newline. */
  predicate Accepted(x: string, exts: seq<string>)
  {
    Listed(Fold(x), exts) || (|x| > 0 && x[|x| - 1] == '\n' && Listed(Fold(x[..|x| - 1]), exts))
  }

  /** A pattern word matches right after the dot and is `n` long exactly
      when the first `n` characters after the dot fold to it. */
  lemma WordAfterDot(x: string, w: string, n: nat)
    requires n <= |x|
    ensures WordAt("." + x, 1, w) && |w| == n <==> Fold(x[..n]) == w
  {
    var s := "." + x;
    if WordAt(s, 1, w) && |w| == n {
      forall i | 0 <= i < n ensures Fold(x[..n])[i] == w[i] {
        assert s[1 + i] == x[i];
      }
    }
    if Fold(x[..n]) == w {
      forall i | 0 <= i < |w| ensures FoldChar(s[1 + i]) == w[i] {
        assert s[1 + i] == x[..n][i];
      }
    }
  }

  /** Skipping the optional dot never leads to a match of an ending, since
      no alternative starts with the dot the ending starts with. */
  lemma NoMatchWithoutDot(x: string, exts: seq<string>)
    requires Words(exts)
    ensures !GroupThenEnd("." + x, 0, exts)
  {
    var s := "." + x;
    forall k | 0 <= k < |exts| ensures !(WordAt(s, 0, exts[k]) && EndAt(s, |exts[k]|)) {
      assert exts[k] != [] && exts[k][0] != '.';
      assert FoldChar(s[0]) == '.';
    }
  }

  /** A matched group and `$` after the dot: what follows the dot is
      accepted. */
  lemma MatchAfterDot(x: string, exts: seq<string>)
    requires GroupThenEnd("." + x, 1, exts)
    ensures Accepted(x, exts)
  {
    var s := "." + x;
    if EndAt(s, 1) {
      if |s| == 2 {
        assert x[..0] == "";
      }
    } else {
      var k :| 0 <= k < |exts| && WordAt(s, 1, exts[k]) && EndAt(s, 1 + |exts[k]|);
      var w := exts[k];
      if 1 + |w| == |s| {
        WordAfterDot(x, w, |x|);
        assert x[..|x|] == x;
      } else {
        WordAfterDot(x, w, |x| - 1);
        assert x[|x| - 1] == s[|s| - 1];
      }
    }
  }

  /** The `n` characters after the dot fold to an empty or listed text and
      `$` matches after them: the group and `$` match after the dot. */
  lemma ListedAfterDot(x: string, n: nat, exts: seq<string>)
    requires n <= |x| && EndAt("." + x, 1 + n) && Listed(Fold(x[..n]), exts)
    ensures GroupThenEnd("." + x, 1, exts)
  {
    var s := "." + x;
    if Fold(x[..n]) == "" {
      assert EndAt(s, 1);
    } else {
      var k :| 0 <= k < |exts| && exts[k] == Fold(x[..n]);
      WordAfterDot(x, exts[k], n);
      assert WordAt(s, 1, exts[k]) && EndAt(s, 1 + |exts[k]|);
    }
  }

  /** An ending ".x" matches the pattern exactly when `x` is accepted. */
  lemma EndingAccepted(x: string, exts: seq<string>)
    requires Words(exts)
    ensures PatternMatch("." + x, exts) <==> Accepted(x, exts)
  {
    NoMatchWithoutDot(x, exts);
    if GroupThenEnd("." + x, 1, exts) {
      MatchAfterDot(x, exts);
    }
    if Listed(Fold(x), exts) {
      assert x[..|x|] == x;
      ListedAfterDot(x, |x|, exts);
    } else if Accepted(x, exts) {
      ListedAfterDot(x, |x| - 1, exts);
    }
  }

  /** Case does not matter: an ending is accepted exactly when its
      lower-case form is. */
  lemma AcceptedIgnoresCase(x: string, exts: seq<string>)
    ensures Accepted(x, exts) <==> Accepted(Lower(x), exts)
  {
    var y := Lower(x);
    FoldLowerSame(x, |x|);
    assert x[..|x|] == x && y[..|y|] == y;
    if |x| > 0 {
      FoldLowerSame(x, |x| - 1);
      assert y[|x| - 1] == '\n' <==> x[|x| - 1] == '\n';
    }
  }

  /** Folding the lower-case form of a prefix gives the same text. */
  lemma FoldLowerSame(x: string, n: nat)
    requires n <= |x|
    ensures Fold(Lower(x)[..n]) == Fold(x[..n])
  {
    forall i | 0 <= i < n ensures Fold(Lower(x)[..n])[i] == Fold(x[..n])[i] {
      FoldLower(x[i]);
    }
  }

  /** The ending `file_name.rsplit(".")` gives, lines 129-131: a dot and
      the last piece, or nothing for a name without a dot. */
  function EndingOf(name: string): Option<string>
  {
    var parts := Split(name, '.');
    if |parts| > 1 then Some("." + parts[|parts| - 1]) else None
  }

  /** The ending is the dot and what follows the last dot of the name. */
  lemma EndingAfterLastDot(stem: string, x: string)
    requires '.' !in x
    ensures EndingOf(stem + "." + x) == Some("." + x)
  {
    assert stem + "." + x == stem + ['.'] + x;
    SplitAppend(stem, '.', x);
  }

  /** A name without a dot has no ending. */
  lemma NoDotNoEnding(name: string)
    requires '.' !in name
    ensures EndingOf(name) == None
  {
  }

  /** The warning of line 134. */
  function NotWhitelisted(e: FileEntry, relPath: string): Record
  {
    Record(WARNING, "Found non whitelisted " + "file ending in filename " + RelativePath(Join(e.path, e.name), relPath))
  }

  /** What the loop body of lines 129-135 adds for one file. */
  function WhitelistEntryRecords(e: FileEntry, relPath: string): seq<Record>
  {
    match EndingOf(e.name)
    case None => []
    case Some(ending) => if WhitelistMatch(ending) then [] else [NotWhitelisted(e, relPath)]
  }

  /** The loop body of lines 129-135 as a function of the file. */
  function WhitelistStep(relPath: string): FileEntry -> seq<Record>
  {
    e => WhitelistEntryRecords(e, relPath)
  }

  /** What `check_file_whitelist(report, file_index, addon_path)` adds. */
  function WhitelistRecords(index: seq<FileEntry>, addonPath: string, relPath: string): seq<Record>
  {
    if Contains(addonPath, ".module.") then [Record(INFORMATION, "Module skipping whitelist")]
    else Each(index, |index|, WhitelistStep(relPath))
  }

  /** `check_file_whitelist(report, file_index, addon_path)`. */
  method CheckFileWhitelist(index: seq<FileEntry>, addonPath: string, relPath: string) returns (records: seq<Record>)
    ensures records == WhitelistRecords(index, addonPath, relPath)
  {
    if Contains(addonPath, ".module.") {
      return [Record(INFORMATION, "Module skipping whitelist")];
    }
    records := [];
    var k := 0;
    while k < |index|
      invariant 0 <= k <= |index|
      invariant records == Each(index, k, WhitelistStep(relPath))
    {
      records := CheckFileEnding(records, index[k], relPath);
      assert WhitelistStep(relPath)(index[k]) == WhitelistEntryRecords(index[k], relPath);
      EachStep(index, k, WhitelistStep(relPath));
      k := k + 1;
    }
  }

  /** The body of the loop of lines 128-135, appending to what `before`
      holds. */
  method CheckFileEnding(before: seq<Record>, e: FileEntry, relPath: string) returns (records: seq<Record>)
    ensures records == before + WhitelistEntryRecords(e, relPath)
  {
    records := before;
    var parts := Split(e.name, '.');
    if |parts| > 1 {
      var ending := "." + parts[|parts| - 1];
      if !WhitelistMatch(ending) {
        records := records + [NotWhitelisted(e, relPath)];
      }
    }
  }

  /** A file whose name ends in a dot and `x` (no dot in `x`) is warned
      about exactly when `x` is not accepted. */
  lemma WhitelistVerdict(e: FileEntry, stem: string, x: string, relPath: string)
    requires e.name == stem + "." + x && '.' !in x
    ensures WhitelistEntryRecords(e, relPath) == if Accepted(x, Extensions) then [] else [NotWhitelisted(e, relPath)]
  {
    EndingAfterLastDot(stem, x);
    ExtensionsAreWords();
    EndingAccepted(x, Extensions);
  }

  /** A file name without a dot adds nothing. */
  lemma NoDotNoRecord(e: FileEntry, relPath: string)
    requires '.' !in e.name
    ensures WhitelistEntryRecords(e, relPath) == []
  {
    NoDotNoEnding(e.name);
  }

  /** "gitignore" is not an alternative of the whitelist. */
  lemma GitignoreNotListed()
    ensures !Listed("gitignore", Extensions)
  {
    var x := "gitignore";
    assert |x| == 9 && x[0] == 'g';
    assert forall k :: 0 <= k < |Extensions| && |Extensions[k]| == 9 ==> Extensions[k][0] == 'd';
  }

  /** A ".gitignore" file is warned about. */
  lemma GitignoreWarned(path: string, relPath: string)
    ensures WhitelistEntryRecords(FileEntry(path, ".gitignore"), relPath)
            == [NotWhitelisted(FileEntry(path, ".gitignore"), relPath)]
  {
    var x := "gitignore";
    assert ".gitignore" == "" + "." + x;
    assert Fold(x) == x;
    assert x[8] != '\n';
    GitignoreNotListed();
    WhitelistVerdict(FileEntry(path, ".gitignore"), "", x, relPath);
  }

  /** A name ending in a dot has the empty ending, which is accepted. */
  lemma EmptyEndingAccepted(e: FileEntry, stem: string, relPath: string)
    requires e.name == stem + "."
    ensures WhitelistEntryRecords(e, relPath) == []
  {
    assert e.name == stem + "." + "";
    assert Fold("") == "";
    WhitelistVerdict(e, stem, "", relPath);
  }

  /** Endings are compared without regard to case: a file is warned about
      exactly when the same name with a lower-case ending would be. */
  lemma EndingIgnoresCase(e: FileEntry, stem: string, x: string, relPath: string)
    requires e.name == stem + "." + x && '.' !in x
    ensures WhitelistEntryRecords(e, relPath) == [] <==>
            WhitelistEntryRecords(FileEntry(e.path, stem + "." + Lower(x)), relPath) == []
  {
    AcceptedIgnoresCase(x, Extensions);
    WhitelistVerdict(e, stem, x, relPath);
    assert '.' !in Lower(x) by {
      forall i | 0 <= i < |x| ensures Lower(x)[i] != '.' { }
    }
    WhitelistVerdict(FileEntry(e.path, stem + "." + Lower(x)), stem, Lower(x), relPath);
  }

  /** An upper-case listed ending passes: "icon.PNG" adds nothing. */
  lemma UpperCaseAccepted(path: string, relPath: string)
    ensures WhitelistEntryRecords(FileEntry(path, "icon.PNG"), relPath) == []
  {
    var y := "PNG";
    assert "icon.PNG" == "icon" + "." + y;
    assert Fold(y) == "png";
    assert Extensions[3] == "png";
    WhitelistVerdict(FileEntry(path, "icon.PNG"), "icon", y, relPath);
  }

  /** `$` also matches before a final newline, so an ending with one more
      "\n" after a listed extension passes. */
  lemma TrailingNewlineAccepted(e: FileEntry, stem: string, relPath: string)
    requires e.name == stem + "." + "py\n"
    ensures WhitelistEntryRecords(e, relPath) == []
  {
    var x := "py\n";
    assert x[..2] == "py";
    assert Fold("py") == "py";
    assert Extensions[0] == "py";
    WhitelistVerdict(e, stem, x, relPath);
  }

  /** Outside a module there is one warning per file whose ending is not
      whitelisted, and nothing else. */
  lemma WhitelistRecordsExactly(index: seq<FileEntry>, addonPath: string, relPath: string, r: Record)
    requires !Contains(addonPath, ".module.")
    ensures r in WhitelistRecords(index, addonPath, relPath) <==>
            exists k :: 0 <= k < |index| && EndingOf(index[k].name).Some?
                        && !WhitelistMatch(EndingOf(index[k].name).value) && r == NotWhitelisted(index[k], relPath)
  {
    EachFrom(index, |index|, WhitelistStep(relPath), r);
    forall k | 0 <= k < |index|
      ensures r in WhitelistStep(relPath)(index[k]) <==>
              EndingOf(index[k].name).Some? && !WhitelistMatch(EndingOf(index[k].name).value)
              && r == NotWhitelisted(index[k], relPath)
    {
      assert WhitelistStep(relPath)(index[k]) == WhitelistEntryRecords(index[k], relPath);
    }
  }

  /** The warnings follow the order of `file_index`: the check over two
      lists in a row adds the warnings of the first list, then those of the
      second. In a module nothing but the one notice is added. */
  lemma WhitelistInOrder(a: seq<FileEntry>, b: seq<FileEntry>, addonPath: string, relPath: string)
    ensures !Contains(addonPath, ".module.") ==>
            WhitelistRecords(a + b, addonPath, relPath)
            == WhitelistRecords(a, addonPath, relPath) + WhitelistRecords(b, addonPath, relPath)
    ensures Contains(addonPath, ".module.") ==>
            WhitelistRecords(a + b, addonPath, relPath) == [Record(INFORMATION, "Module skipping whitelist")]
  {
    EachAppend(a, b, WhitelistStep(relPath));
  }

  // ---------------------------------------------------------------------
  // addon_xml_matches_folder and check_addon_xml
  // ---------------------------------------------------------------------

  /** The message of lines 82-84. */
  function MismatchAdvice(addonId: Option<string>): string
  {
    "Addon id and folder name does not match. " + "Ensure folder name is " + Show(addonId)
    + " when submitting a PR " + "to Kodi's official repository."
  }

  /** What `addon_xml_matches_folder(report, addon_path, parsed_xml,
      folder_id_mismatch)` adds, with `addonId` the `id` attribute or
      `None` when it is missing. */
  function MatchesFolderRecords(addonPath: string, addonId: Option<string>, folderIdMismatch: bool): (r: seq<Record>)
    ensures |r| == 1
    ensures r[0].logLevel == INFORMATION <==> addonId == Some(FolderName(addonPath)) || folderIdMismatch
    ensures r[0].logLevel == PROBLEM <==> addonId != Some(FolderName(addonPath)) && !folderIdMismatch
    ensures addonId == Some(FolderName(addonPath)) ==> r[0].message == "Addon id matches folder name"
    ensures addonId != Some(FolderName(addonPath)) ==>
            r[0].message == if folderIdMismatch then MismatchAdvice(addonId) else "Addon id and folder name does not match."
  {
    LevelsDistinct();
    if addonId == Some(FolderName(addonPath)) then [Record(INFORMATION, "Addon id matches folder name")]
    else if folderIdMismatch then [Record(INFORMATION, MismatchAdvice(addonId))]
    else [Record(PROBLEM, "Addon id and folder name does not match.")]
  }

  /** An add-on in a folder named after its id, however the path to that
      folder is written (a plain name, a name under a directory or a name
      with a trailing separator), is reported as matching. */
  lemma FolderNamedAfterId(dir: string, id: string, folderIdMismatch: bool)
    requires id != "" && id != "." && id != ".." && '/' !in id
    ensures MatchesFolderRecords(Join(dir, id), Some(id), folderIdMismatch) == [Record(INFORMATION, "Addon id matches folder name")]
    ensures MatchesFolderRecords(id + "/", Some(id), folderIdMismatch) == [Record(INFORMATION, "Addon id matches folder name")]
  {
    FolderNameOfJoin(dir, id);
  }

  /** A missing id never matches: the add-on is refused unless a mismatch
      is allowed, and then the advice names "None". */
  lemma MissingIdNeverMatches(addonPath: string, folderIdMismatch: bool)
    ensures MatchesFolderRecords(addonPath, None, folderIdMismatch)
            == if folderIdMismatch then [Record(INFORMATION, MismatchAdvice(None))]
               else [Record(PROBLEM, "Addon id and folder name does not match.")]
  {
  }

  /** What `check_addon_xml(report, addon_path, parsed_xml,
      folder_id_mismatch)` adds, with `addonXmlFound` whether `find_file`
      found a name matching `addon\.xml` and `providerName` the
      `provider-name` attribute: the problem of `addon_file_exists` when
      there is no such file (it prints the pattern as it is), the author,
      then the folder record. */
  function AddonXmlRecords(addonPath: string, addonXmlFound: bool, providerName: Option<string>,
                           addonId: Option<string>, folderIdMismatch: bool, relPath: string): (r: seq<Record>)
    ensures |r| == if addonXmlFound then 2 else 3
    ensures !addonXmlFound ==> r[0] == Record(PROBLEM, "Not found addon\\.xml in folder " + RelativePath(addonPath, relPath))
    ensures r[|r| - 2] == Record(INFORMATION, "Created by " + Show(providerName))
    ensures r[|r| - 1..] == MatchesFolderRecords(addonPath, addonId, folderIdMismatch)
  {
    (if addonXmlFound then [] else [Record(PROBLEM, "Not found addon\\.xml in folder " + RelativePath(addonPath, relPath))])
    + [Record(INFORMATION, "Created by " + Show(providerName))]
    + MatchesFolderRecords(addonPath, addonId, folderIdMismatch)
  }

  // ---------------------------------------------------------------------
  // check_for_new_language_directory_structure
  // ---------------------------------------------------------------------

  /** What the file system holds at `resources/language`: nothing, a
      non-directory (for which `os.walk` yields nothing, so `next` raises),
      or a directory with these sub-directories, in listing order. */
  datatype LanguageDir = Missing | NotADirectory | Subdirs(names: seq<string>)

  /** `os.path.join(addon_path, "resources", "language")`. */
  function LanguagePath(addonPath: string): string
  {
    Join(Join(addonPath, "resources"), "language")
  }

  /** The problem of lines 100-102. */
  function OldStructure(dirPath: string): Record
  {
    Record(PROBLEM, "Using the old language " + "directory structure in " + dirPath
                    + ", please move " + "to the new one.")
  }

  /** The problem of lines 104-109; as written, the last two pieces of the
      message join without a space ("...move the addon toan upper..."). */
  function NewStructure(dirPath: string): Record
  {
    Record(PROBLEM, "Using the new language " + "directory structure " + "in " + dirPath + " "
                    + "for a Kodi version " + "that does not support it. "
                    + "Please use the old " + "language file structure " + "or move the addon to"
                    + "an upper branch/" + "kodi version.")
  }

  /** Is `directory` named in the new style? */
  predicate NewStyle(directory: string)
  {
    Contains(directory, "resource.language.")
  }

  /** What the loop body of lines 99-109 adds for one sub-directory. */
  function LanguageEntryRecords(languagePath: string, directory: string, supported: bool): seq<Record>
  {
    if !NewStyle(directory) && supported then [OldStructure(Join(languagePath, directory))]
    else if NewStyle(directory) && !supported then [NewStructure(Join(languagePath, directory))]
    else []
  }

  /** The loop body of lines 99-109 as a function of the sub-directory. */
  function LanguageStep(languagePath: string, supported: bool): string -> seq<Record>
  {
    directory => LanguageEntryRecords(languagePath, directory, supported)
  }

  /** What `check_for_new_language_directory_structure(report, addon_path,
      supported)` adds, and the exception that ends it, if any. */
  function LanguageRun(addonPath: string, dir: LanguageDir, supported: bool): Run
  {
    match dir
    case Missing => Run([], None)
    case NotADirectory => Run([], Some(StopIteration))
    case Subdirs(names) => Run(Each(names, |names|, LanguageStep(LanguagePath(addonPath), supported)), None)
  }

  /** `check_for_new_language_directory_structure(report, addon_path,
      supported)`. */
  method CheckLanguageDirectories(addonPath: string, dir: LanguageDir, supported: bool) returns (run: Run)
    ensures run == LanguageRun(addonPath, dir, supported)
  {
    var languagePath := Join(Join(addonPath, "resources"), "language");
    if dir.Missing? {
      return Run([], None);
    }
    if dir.NotADirectory? {
      return Run([], Some(StopIteration));
    }
    var names := dir.names;
    var records := [];
    var k := 0;
    while k < |names|
      invariant 0 <= k <= |names|
      invariant records == Each(names, k, LanguageStep(languagePath, supported))
    {
      records := CheckLanguageEntry(records, languagePath, names[k], supported);
      assert LanguageStep(languagePath, supported)(names[k]) == LanguageEntryRecords(languagePath, names[k], supported);
      EachStep(names, k, LanguageStep(languagePath, supported));
      k := k + 1;
    }
    run := Run(records, None);
  }

  /** The body of the loop of lines 98-109, appending to what `before`
      holds. */
  method CheckLanguageEntry(before: seq<Record>, languagePath: string, directory: string, supported: bool)
    returns (records: seq<Record>)
    ensures records == before + LanguageEntryRecords(languagePath, directory, supported)
  {
    records := before;
    if !Contains(directory, "resource.language.") && supported {
      records := records + [OldStructure(Join(languagePath, directory))];
    } else if Contains(directory, "resource.language.") && !supported {
      records := records + [NewStructure(Join(languagePath, directory))];
    }
  }

  /** Is `directory` in the layout that `supported` rules out? */
  predicate WrongLayout(directory: string, supported: bool)
  {
    if supported then !NewStyle(directory) else NewStyle(directory)
  }

  /** The problem reported for a sub-directory in the wrong layout. */
  function LayoutProblem(dirPath: string, supported: bool): Record
  {
    if supported then OldStructure(dirPath) else NewStructure(dirPath)
  }

  /** One sub-directory gets the problem for its layout when that layout
      is ruled out, and nothing otherwise. */
  lemma LanguageEntryExactly(languagePath: string, directory: string, supported: bool)
    ensures LanguageEntryRecords(languagePath, directory, supported)
            == if WrongLayout(directory, supported) then [LayoutProblem(Join(languagePath, directory), supported)] else []
  {
  }

  /** Where `supported` holds, each old-style sub-directory gets one
      problem and nothing else is reported; where it does not, each
      new-style one does. */
  lemma LanguageRecordsExactly(addonPath: string, names: seq<string>, supported: bool, r: Record)
    ensures LanguageRun(addonPath, Subdirs(names), supported).raised == None
    ensures r in LanguageRun(addonPath, Subdirs(names), supported).records <==>
            exists k :: 0 <= k < |names| && WrongLayout(names[k], supported)
                        && r == LayoutProblem(Join(LanguagePath(addonPath), names[k]), supported)
  {
    LanguageStepsExactly(LanguagePath(addonPath), names, supported, r);
  }

  /** The loop over the sub-directories adds exactly the problems of those
      in the wrong layout. */
  lemma LanguageStepsExactly(path: string, names: seq<string>, supported: bool, r: Record)
    ensures r in Each(names, |names|, LanguageStep(path, supported)) <==>
            exists k :: 0 <= k < |names| && WrongLayout(names[k], supported) && r == LayoutProblem(Join(path, names[k]), supported)
  {
    if r in Each(names, |names|, LanguageStep(path, supported)) {
      var k := LanguageProblemOrigin(path, names, supported, r);
    }
    if exists k :: 0 <= k < |names| && WrongLayout(names[k], supported) && r == LayoutProblem(Join(path, names[k]), supported) {
      var k :| 0 <= k < |names| && WrongLayout(names[k], supported) && r == LayoutProblem(Join(path, names[k]), supported);
      LanguageProblemIn(path, names, supported, k);
    }
  }

  /** Each record of the loop is the problem of a sub-directory in the
      wrong layout. */
  lemma LanguageProblemOrigin(path: string, names: seq<string>, supported: bool, r: Record) returns (k: nat)
    requires r in Each(names, |names|, LanguageStep(path, supported))
    ensures k < |names| && WrongLayout(names[k], supported) && r == LayoutProblem(Join(path, names[k]), supported)
  {
    var step := LanguageStep(path, supported);
    EachFrom(names, |names|, step, r);
    k :| 0 <= k < |names| && r in step(names[k]);
    assert step(names[k]) == LanguageEntryRecords(path, names[k], supported);
    LanguageEntryExactly(path, names[k], supported);
  }

  /** The problem of each sub-directory in the wrong layout is added. */
  lemma LanguageProblemIn(path: string, names: seq<string>, supported: bool, k: nat)
    requires k < |names| && WrongLayout(names[k], supported)
    ensures LayoutProblem(Join(path, names[k]), supported) in Each(names, |names|, LanguageStep(path, supported))
  {
    var step := LanguageStep(path, supported);
    EachFrom(names, |names|, step, LayoutProblem(Join(path, names[k]), supported));
    assert step(names[k]) == LanguageEntryRecords(path, names[k], supported);
    LanguageEntryExactly(path, names[k], supported);
  }

  /** Every sub-directory is reported under exactly one of the two
      settings of `supported`: the old-style ones when the new layout is
      supported, the new-style ones when it is not. */
  lemma EachDirectoryFlaggedOnce(languagePath: string, directory: string)
    ensures |LanguageEntryRecords(languagePath, directory, true)| + |LanguageEntryRecords(languagePath, directory, false)| == 1
    ensures NewStyle(directory) <==> LanguageEntryRecords(languagePath, directory, true) == []
  {
  }

  /** Sub-directories are reported in listing order, and without a
      language folder there is nothing to report. */
  lemma LanguageInOrder(addonPath: string, a: seq<string>, b: seq<string>, supported: bool)
    ensures LanguageRun(addonPath, Subdirs(a + b), supported).records
            == LanguageRun(addonPath, Subdirs(a), supported).records
               + LanguageRun(addonPath, Subdirs(b), supported).records
    ensures LanguageRun(addonPath, Missing, supported) == Run([], None)
  {
    EachAppend(a, b, LanguageStep(LanguagePath(addonPath), supported));
  }
}
