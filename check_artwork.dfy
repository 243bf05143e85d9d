/** The artwork checks (kodi_addon_checker/check_artwork.py). The parsed
    addon.xml enters as the `<assets>` children of its `extension`
    elements; the file system as an `isFile` oracle; PIL's `Image.open` as
    an `open` oracle giving the picture, or `None` where it raises
    `IOError`. */
module CheckArtwork {

  import opened Outcome
  import opened Text
  import opened Records
  import opened Common
  import opened Paths
  import opened HandleFiles

  /** One child of an `<assets>` element: its tag and its text, `None` for
      an empty element. */
  datatype Asset = Asset(tag: string, text: Option<string>)

  /** What PIL reports of an opened image: its size, its mode and the
      values of its last band. */
  datatype Picture = Picture(width: nat, height: nat, mode: string, alpha: seq<int>)

  /** The file-system and image oracles, and the `REL_PATH` the messages
      are relative to. */
  datatype Disk = Disk(isFile: string -> bool, open: string -> Option<Picture>, relPath: string)

  /** `[image.text for image in parsed_xml.findall("./extension/assets/" + image_type)]`. */
  function Declared(assets: seq<Asset>, imageType: string): (r: seq<Option<string>>)
    ensures |r| <= |assets|
  {
    if assets == [] then []
    else Declared(assets[..|assets| - 1], imageType)
         + (if assets[|assets| - 1].tag == imageType then [assets[|assets| - 1].text] else [])
  }

  /** The add-on types that need no fanart, line 99. */
  const SkipAddonTypes: seq<string> := [".module.", "metadata.", "context.", ".language."]

  /** Is the add-on at `addonPath` one of the types of line 99? */
  predicate NeedsNoFanart(addonPath: string)
  {
    exists k :: 0 <= k < |SkipAddonTypes| && Contains(addonPath, SkipAddonTypes[k])
  }

  /** What `_assests(image_type, parsed_xml, addon_path)` returns. */
  function AssetsOf(imageType: string, assets: seq<Asset>, addonPath: string): (bool, seq<Option<string>>)
  {
    var images := Declared(assets, imageType);
    if images == [] && imageType == "icon" then (true, [Some("icon.png")])
    else if images == [] && imageType == "fanart" then
      if NeedsNoFanart(addonPath) then (false, []) else (true, [Some("fanart.jpg")])
    else (false, images)
  }

  /** `_assests(image_type, parsed_xml, addon_path)`, with the for-else
      over the add-on types that need no fanart. */
  method Assests(imageType: string, assets: seq<Asset>, addonPath: string) returns (fallback: bool, images: seq<Option<string>>)
    ensures (fallback, images) == AssetsOf(imageType, assets, addonPath)
  {
    images := Declared(assets, imageType);
    fallback := false;
    if images == [] && imageType == "icon" {
      fallback := true;
      images := images + [Some("icon.png")];
      assert images == [Some("icon.png")];
    } else if images == [] && imageType == "fanart" {
      var k := 0;
      while k < |SkipAddonTypes|
        invariant 0 <= k <= |SkipAddonTypes|
        invariant forall j :: 0 <= j < k ==> !Contains(addonPath, SkipAddonTypes[j])
      {
        if Contains(addonPath, SkipAddonTypes[k]) {
          return;
        }
        k := k + 1;
      }
      fallback := true;
      images := images + [Some("fanart.jpg")];
      assert images == [Some("fanart.jpg")];
    }
  }

  /** No declared icon: the fallback "icon.png". */
  lemma IconFallback(assets: seq<Asset>, addonPath: string)
    requires Declared(assets, "icon") == []
    ensures AssetsOf("icon", assets, addonPath) == (true, [Some("icon.png")])
  {
  }

  /** No declared fanart: nothing for modules, metadata, context and
      language add-ons, otherwise the fallback "fanart.jpg". */
  lemma FanartFallback(assets: seq<Asset>, addonPath: string)
    requires Declared(assets, "fanart") == []
    ensures var skipped := Contains(addonPath, ".module.") || Contains(addonPath, "metadata.")
                           || Contains(addonPath, "context.") || Contains(addonPath, ".language.");
            AssetsOf("fanart", assets, addonPath) == if skipped then (false, []) else (true, [Some("fanart.jpg")])
  {
    var skipped := Contains(addonPath, ".module.") || Contains(addonPath, "metadata.")
                   || Contains(addonPath, "context.") || Contains(addonPath, ".language.");
    if skipped {
      if Contains(addonPath, ".module.") {
        assert Contains(addonPath, SkipAddonTypes[0]);
      } else if Contains(addonPath, "metadata.") {
        assert Contains(addonPath, SkipAddonTypes[1]);
      } else if Contains(addonPath, "context.") {
        assert Contains(addonPath, SkipAddonTypes[2]);
      } else {
        assert Contains(addonPath, SkipAddonTypes[3]);
      }
    }
  }

  /** Declared assets are used as they are, in document order, and are no
      fallback; a screenshot never has one. */
  lemma DeclaredVerbatim(imageType: string, assets: seq<Asset>, addonPath: string)
    requires Declared(assets, imageType) != [] || (imageType != "icon" && imageType != "fanart")
    ensures AssetsOf(imageType, assets, addonPath) == (false, Declared(assets, imageType))
  {
  }

  /** The values of the declared elements with tag `imageType`, in order. */
  lemma {:induction false} DeclaredSelects(assets: seq<Asset>, imageType: string, x: Option<string>)
    ensures x in Declared(assets, imageType) <==> exists k :: 0 <= k < |assets| && assets[k] == Asset(imageType, x)
  {
    if assets != [] {
      var init := assets[..|assets| - 1];
      DeclaredSelects(init, imageType, x);
      assert forall k :: 0 <= k < |init| ==> init[k] == assets[k];
    }
  }

  // ----- sizes -----

  /** `"%dx%d" % (width, height)`. */
  function Dimensions(width: nat, height: nat): string
  {
    NatToString(width) + "x" + NatToString(height)
  }

  const IconSizes: seq<(nat, nat)> := [(256, 256), (512, 512)]

  const FanartSizes: seq<(nat, nat)> := [(1280, 720), (1920, 1080), (3840, 2160)]

  /** The size record of `_check_icon`. */
  function IconSizeRecord(width: nat, height: nat): (r: Record)
  {
    if (width, height) !in IconSizes then
      Record(PROBLEM, "Icon should have either 256x256 or 512x512" + " but it has " + Dimensions(width, height))
    else Record(INFORMATION, "Icon dimensions are fine " + Dimensions(width, height))
  }

  /** The transparency problem of `_check_icon`. */
  const IconTransparent: Record := Record(PROBLEM, "Icon.png should be solid." + " It has transparency.")

  /** `_check_icon(report, im, width, height)`. */
  function IconRecords(p: Picture): seq<Record>
  {
    (if HasTransparency(p.mode, p.alpha) then [IconTransparent] else [])
    + [IconSizeRecord(p.width, p.height)]
  }

  /** An icon gives exactly one size record, the last, and it is
      information exactly for 256x256 and 512x512; before it comes a
      problem exactly when the icon has transparency. */
  lemma IconRules(p: Picture)
    ensures var rs := IconRecords(p);
            && |rs| == (if HasTransparency(p.mode, p.alpha) then 2 else 1)
            && (rs[|rs| - 1].logLevel == INFORMATION <==> (p.width == 256 && p.height == 256) || (p.width == 512 && p.height == 512))
            && (rs[|rs| - 1].logLevel == PROBLEM <==> !((p.width == 256 && p.height == 256) || (p.width == 512 && p.height == 512)))
            && (|rs| == 2 ==> rs[0] == IconTransparent)
  {
    LevelsDistinct();
  }

  /** `fanart_sizes_str`, line 137: the " or " join of the fanart sizes,
      written out. */
  const FanartSizesText: string := "1280x720 or 1920x1080 or 3840x2160"

  /** `_check_fanart(report, width, height)`. */
  function FanartRecords(width: nat, height: nat): seq<Record>
  {
    if (width, height) !in FanartSizes then
      [Record(PROBLEM, "Fanart should have either " + FanartSizesText + " but it has " + Dimensions(width, height))]
    else [Record(INFORMATION, "Fanart dimensions are fine " + Dimensions(width, height))]
  }

  /** Fanart gives one record, information exactly for 1280x720, 1920x1080
      and 3840x2160 and a problem otherwise. */
  lemma FanartRules(width: nat, height: nat)
    ensures var rs := FanartRecords(width, height);
            && |rs| == 1
            && (rs[0].logLevel == INFORMATION <==>
                  (width == 1280 && height == 720) || (width == 1920 && height == 1080) || (width == 3840 && height == 2160))
            && (rs[0].logLevel == PROBLEM <==> rs[0].logLevel != INFORMATION)
  {
    LevelsDistinct();
  }

  // ----- _check_image_type -----

  /** The branches that did not yet ask for declared artwork, line 53. */
  const OldBranches: seq<string> := ["gotham", "helix", "isengard", "jarvis"]

  /** The records for an image opened as `p`. */
  function OpenedRecords(imageType: string, image: string, p: Picture): seq<Record>
  {
    if imageType == "icon" then IconRecords(p)
    else if imageType == "fanart" then FanartRecords(p.width, p.height)
    else if HasTransparency(p.mode, p.alpha) then [Record(PROBLEM, image + " should be solid. It has transparency.")]
    else []
  }

  /** The problem of lines 54-55. */
  function DeclareRecord(imageType: string): Record
  {
    Record(PROBLEM, "Image " + imageType + " should be explicitly declared in addon.xml <assets>.")
  }

  /** The records of the loop body of lines 48-86 for one image. */
  function ImageRecords(imageType: string, image: Option<string>, fallback: bool, addonPath: string,
                        branchName: string, disk: Disk): seq<Record>
  {
    if image.None? || image.value == "" then [Record(WARNING, "Empty image tag found for " + imageType)]
    else
      var filepath := Join(addonPath, image.value);
      if disk.isFile(filepath) then
        [Record(INFORMATION, "Image " + imageType + " exists")]
        + (if fallback && branchName !in OldBranches then [DeclareRecord(imageType)] else [])
        + OpenRecords(imageType, image.value, filepath, disk)
      else if fallback then [Record(INFORMATION, "You might want to add a " + imageType)]
      else [Record(PROBLEM, imageType + " does not exist at specified path.")]
  }

  /** The loop body of lines 48-86 as a function of the image. */
  function ImageStep(imageType: string, fallback: bool, addonPath: string, branchName: string, disk: Disk): Option<string> -> seq<Record>
  {
    image => ImageRecords(imageType, image, fallback, addonPath, branchName, disk)
  }

  /** What `_check_image_type(report, image_type, parsed_xml, addon_path,
      branch_name)` adds. */
  function ImageTypeRecords(imageType: string, assets: seq<Asset>, addonPath: string, branchName: string, disk: Disk): seq<Record>
  {
    var (fallback, images) := AssetsOf(imageType, assets, addonPath);
    Each(images, |images|, ImageStep(imageType, fallback, addonPath, branchName, disk))
  }

  /** `_check_image_type(report, image_type, parsed_xml, addon_path,
      branch_name)`. */
  method CheckImageType(imageType: string, assets: seq<Asset>, addonPath: string, branchName: string, disk: Disk)
    returns (records: seq<Record>)
    ensures records == ImageTypeRecords(imageType, assets, addonPath, branchName, disk)
  {
    var fallback, images := Assests(imageType, assets, addonPath);
    records := [];
    var i := 0;
    while i < |images|
      invariant 0 <= i <= |images|
      invariant records == Each(images, i, ImageStep(imageType, fallback, addonPath, branchName, disk))
    {
      records := CheckImage(records, imageType, images[i], fallback, addonPath, branchName, disk);
      assert ImageStep(imageType, fallback, addonPath, branchName, disk)(images[i])
             == ImageRecords(imageType, images[i], fallback, addonPath, branchName, disk);
      EachStep(images, i, ImageStep(imageType, fallback, addonPath, branchName, disk));
      i := i + 1;
    }
  }

  /** The body of the loop of lines 47-86, appending to what `before` holds. */
  method CheckImage(before: seq<Record>, imageType: string, image: Option<string>, fallback: bool,
                    addonPath: string, branchName: string, disk: Disk)
    returns (records: seq<Record>)
    ensures records == before + ImageRecords(imageType, image, fallback, addonPath, branchName, disk)
  {
    if image.None? || image.value == "" {
      return before + [Record(WARNING, "Empty image tag found for " + imageType)];
    }
    var filepath := Join(addonPath, image.value);
    if !disk.isFile(filepath) {
      if fallback {
        return before + [Record(INFORMATION, "You might want to add a " + imageType)];
      }
      return before + [Record(PROBLEM, imageType + " does not exist at specified path.")];
    }
    var declare := fallback && branchName !in OldBranches;
    var added := [Record(INFORMATION, "Image " + imageType + " exists")];
    if declare {
      added := added + [DeclareRecord(imageType)];
    }
    assert added == [Record(INFORMATION, "Image " + imageType + " exists")] + (if declare then [DeclareRecord(imageType)] else []);
    assert ImageRecords(imageType, image, fallback, addonPath, branchName, disk)
           == added + OpenRecords(imageType, image.value, filepath, disk);
    var im := disk.open(filepath);
    if im.None? {
      added := added + [Record(PROBLEM, "Could not open image," + " is the file corrupted? " + RelativePath(filepath, disk.relPath))];
    } else {
      added := added + OpenedRecords(imageType, image.value, im.value);
    }
    records := before + added;
  }

  /** The records after "Image ... exists" for an image file, by what
      `Image.open` gives. */
  function OpenRecords(imageType: string, image: string, filepath: string, disk: Disk): seq<Record>
  {
    match disk.open(filepath)
    case None => [Record(PROBLEM, "Could not open image," + " is the file corrupted? " + RelativePath(filepath, disk.relPath))]
    case Some(p) => OpenedRecords(imageType, image, p)
  }

  /** The second character of a message that starts with `prefix`. */
  lemma SecondChar(prefix: string, rest: string)
    requires |prefix| > 1
    ensures |prefix + rest| > 1 && (prefix + rest)[1] == prefix[1]
  {
  }

  /** No icon record reads "Image ...". */
  lemma IconRecordsNotImage(p: Picture)
    ensures forall r :: r in IconRecords(p) ==> |r.message| > 1 && r.message[1] != 'm'
  {
    var size := IconSizeRecord(p.width, p.height);
    var d := Dimensions(p.width, p.height);
    if (p.width, p.height) !in IconSizes {
      SecondChar("Icon should have either 256x256 or 512x512", " but it has " + d);
    } else {
      SecondChar("Icon dimensions are fine ", d);
    }
    SecondChar("Icon.png should be solid.", " It has transparency.");
    assert IconRecords(p) == [size] || IconRecords(p) == [IconTransparent, size];
  }

  /** No fanart record reads "Image ...". */
  lemma FanartRecordsNotImage(width: nat, height: nat)
    ensures forall r :: r in FanartRecords(width, height) ==> |r.message| > 1 && r.message[1] != 'm'
  {
    var d := Dimensions(width, height);
    if (width, height) !in FanartSizes {
      SecondChar("Fanart should have either ", FanartSizesText + " but it has " + d);
    } else {
      SecondChar("Fanart dimensions are fine ", d);
    }
  }

  /** The icon and fanart records never read "Image ...". */
  lemma OpenRecordsNotImage(imageType: string, image: string, filepath: string, disk: Disk)
    requires imageType == "icon" || imageType == "fanart"
    ensures forall r :: r in OpenRecords(imageType, image, filepath, disk) ==> |r.message| > 1 && r.message[1] != 'm'
  {
    match disk.open(filepath)
    case None =>
      SecondChar("Could not open image,", " is the file corrupted? " + RelativePath(filepath, disk.relPath));
    case Some(p) =>
      if imageType == "icon" {
        IconRecordsNotImage(p);
      } else {
        FanartRecordsNotImage(p.width, p.height);
      }
  }

  /** An existing fallback icon or fanart is reported as existing, and is
      a problem ("should be explicitly declared") exactly when the branch
      is not gotham, helix, isengard or jarvis. */
  lemma FallbackMustBeDeclared(imageType: string, image: string, addonPath: string, branchName: string, disk: Disk)
    requires imageType == "icon" || imageType == "fanart"
    requires image != "" && disk.isFile(Join(addonPath, image))
    ensures var rs := ImageRecords(imageType, Some(image), true, addonPath, branchName, disk);
            && rs != [] && rs[0] == Record(INFORMATION, "Image " + imageType + " exists")
            && (DeclareRecord(imageType) in rs
                <==> branchName != "gotham" && branchName != "helix" && branchName != "isengard" && branchName != "jarvis")
  {
    var filepath := Join(addonPath, image);
    var existsRecord := Record(INFORMATION, "Image " + imageType + " exists");
    var afterOpen := OpenRecords(imageType, image, filepath, disk);
    var oldBranch := branchName in OldBranches;
    assert oldBranch <==> branchName == "gotham" || branchName == "helix" || branchName == "isengard" || branchName == "jarvis";
    var rs := ImageRecords(imageType, Some(image), true, addonPath, branchName, disk);
    assert rs == [existsRecord] + (if !oldBranch then [DeclareRecord(imageType)] else []) + afterOpen;
    if oldBranch {
      LevelsDistinct();
      OpenRecordsNotImage(imageType, image, filepath, disk);
      assert DeclareRecord(imageType).message[1] == 'm';
      assert DeclareRecord(imageType) != existsRecord;
      assert DeclareRecord(imageType) !in afterOpen;
    }
  }

  /** An empty tag is a warning and nothing else; any other image gives
      no warning. A missing image file is information when it is a
      fallback and a problem when it was declared. */
  lemma MissingImages(imageType: string, image: Option<string>, fallback: bool, addonPath: string, branchName: string, disk: Disk)
    ensures var rs := ImageRecords(imageType, image, fallback, addonPath, branchName, disk);
            && (image.None? || image == Some("") ==> rs == [Record(WARNING, "Empty image tag found for " + imageType)])
            && (image.Some? && image.value != "" ==> forall r :: r in rs ==> r.logLevel != WARNING)
            && (image.Some? && image.value != "" && !disk.isFile(Join(addonPath, image.value)) ==>
                  rs == [if fallback then Record(INFORMATION, "You might want to add a " + imageType)
                         else Record(PROBLEM, imageType + " does not exist at specified path.")])
  {
    LevelsDistinct();
    if image.Some? && image.value != "" {
      var filepath := Join(addonPath, image.value);
      if disk.isFile(filepath) {
        var afterOpen := OpenRecords(imageType, image.value, filepath, disk);
        OpenRecordsLevels(imageType, image.value, filepath, disk);
        var head := [Record(INFORMATION, "Image " + imageType + " exists")]
                    + (if fallback && branchName !in OldBranches then [DeclareRecord(imageType)] else []);
        assert ImageRecords(imageType, image, fallback, addonPath, branchName, disk) == head + afterOpen;
        assert forall r :: r in head ==> r.logLevel != WARNING;
      }
    }
  }

  /** The records after "Image ... exists" are problems and information. */
  lemma OpenRecordsLevels(imageType: string, image: string, filepath: string, disk: Disk)
    ensures forall r :: r in OpenRecords(imageType, image, filepath, disk) ==> r.logLevel == PROBLEM || r.logLevel == INFORMATION
  {
    match disk.open(filepath)
    case None =>
    case Some(p) =>
      if imageType == "icon" {
        var size := IconSizeRecord(p.width, p.height);
        assert forall r :: r in IconRecords(p) ==> r == size || r == IconTransparent;
      }
  }

  // ----- check_artwork -----

  /** `re.match(r"(?!fanart\.jpg|icon\.png).*\.(png|jpg|jpeg|gif)$", name)`:
      the name does not start with "fanart.jpg" or "icon.png" (the
      look-ahead), and up to an optional final line feed (`$`) it is a
      line (`.*` stops at a line feed) ending in one of the extensions. */
  predicate ImageName(name: string)
  {
    var body := if name != [] && name[|name| - 1] == '\n' then name[..|name| - 1] else name;
    && !StartsWith(name, "fanart.jpg") && !StartsWith(name, "icon.png")
    && '\n' !in body
    && (EndsWith(body, ".png") || EndsWith(body, ".jpg") || EndsWith(body, ".jpeg") || EndsWith(body, ".gif"))
  }

  lemma ImageNamesAccepted()
    ensures ImageName("a.jpg") && ImageName("b.jpeg") && ImageName("c.png\n") && ImageName("d.gif")
  {
    assert "a.jpg"[1..] == ".jpg";
    assert "b.jpeg"[1..] == ".jpeg";
    assert "c.png\n"[..5] == "c.png" && "c.png"[1..] == ".png";
    assert "d.gif"[1..] == ".gif";
  }

  /** The look-ahead tests the start of the name only. */
  lemma ImageNamesRejectedAtStart()
    ensures !ImageName("icon.png") && !ImageName("fanart.jpg") && !ImageName("fanart.jpg.png")
  {
    assert "icon.png"[..8] == "icon.png";
    assert "fanart.jpg"[..10] == "fanart.jpg";
    assert "fanart.jpg.png"[..10] == "fanart.jpg";
  }

  /** The extensions are case-sensitive. */
  lemma ImageNamesRejectedCase()
    ensures !ImageName("e.PNG") && !ImageName("g.txt")
  {
    assert "e.PNG"[1..][1] == 'P';
    assert "g.txt"[1..][1] == 't';
  }

  /** `$` allows one final line feed, not two. */
  lemma ImageNamesRejectedNewlines()
    ensures !ImageName("f.png\n\n")
  {
    assert "f.png\n\n"[..6] == "f.png\n" && "f.png\n"[5] == '\n';
  }

  /** The record of lines 33-39 for one entry of the index: a problem for
      an image name that does not open. */
  function EntryRecords(e: FileEntry, disk: Disk): seq<Record>
  {
    if ImageName(e.name) && disk.open(Join(e.path, e.name)).None?
    then [Record(PROBLEM, "Could not open image, is the file corrupted ? " + RelativePath(Join(e.path, e.name), disk.relPath))]
    else []
  }

  /** The loop body of lines 33-39 as a function of the entry. */
  function EntryStep(disk: Disk): FileEntry -> seq<Record>
  {
    e => EntryRecords(e, disk)
  }

  /** The scan gives exactly one problem per image file of the index that
      does not open, and nothing for other files. */
  lemma CorruptRecordsExactly(index: seq<FileEntry>, disk: Disk, r: Record)
    ensures r in Each(index, |index|, EntryStep(disk)) <==>
            exists k :: 0 <= k < |index| && ImageName(index[k].name) && disk.open(Join(index[k].path, index[k].name)).None?
                        && r == Record(PROBLEM, "Could not open image, is the file corrupted ? "
                                                + RelativePath(Join(index[k].path, index[k].name), disk.relPath))
  {
    EachFrom(index, |index|, EntryStep(disk), r);
  }

  /** The image types of line 28, in the order they are checked. */
  const ArtTypes: seq<string> := ["icon", "fanart", "screenshot"]

  /** The loop body of lines 29-30 as a function of the image type. */
  function TypeStep(assets: seq<Asset>, addonPath: string, branchName: string, disk: Disk): string -> seq<Record>
  {
    imageType => ImageTypeRecords(imageType, assets, addonPath, branchName, disk)
  }

  /** What `check_artwork(report, addon_path, parsed_xml, file_index,
      branch_name)` adds. */
  function ArtworkRecords(addonPath: string, assets: seq<Asset>, index: seq<FileEntry>, branchName: string, disk: Disk): seq<Record>
  {
    Each(ArtTypes, |ArtTypes|, TypeStep(assets, addonPath, branchName, disk)) + Each(index, |index|, EntryStep(disk))
  }

  /** The icon is checked first, then the fanart, then the screenshots,
      then the images of the index. */
  lemma ArtworkOrder(addonPath: string, assets: seq<Asset>, index: seq<FileEntry>, branchName: string, disk: Disk)
    ensures ArtworkRecords(addonPath, assets, index, branchName, disk)
            == ImageTypeRecords("icon", assets, addonPath, branchName, disk)
               + ImageTypeRecords("fanart", assets, addonPath, branchName, disk)
               + ImageTypeRecords("screenshot", assets, addonPath, branchName, disk)
               + Each(index, |index|, EntryStep(disk))
  {
    assert ArtTypes[0] == "icon" && ArtTypes[1] == "fanart" && ArtTypes[2] == "screenshot";
    assert Each(ArtTypes, 1, TypeStep(assets, addonPath, branchName, disk))
           == ImageTypeRecords("icon", assets, addonPath, branchName, disk);
    assert Each(ArtTypes, 2, TypeStep(assets, addonPath, branchName, disk))
           == Each(ArtTypes, 1, TypeStep(assets, addonPath, branchName, disk))
              + ImageTypeRecords("fanart", assets, addonPath, branchName, disk);
    assert Each(ArtTypes, 3, TypeStep(assets, addonPath, branchName, disk))
           == Each(ArtTypes, 2, TypeStep(assets, addonPath, branchName, disk))
              + ImageTypeRecords("screenshot", assets, addonPath, branchName, disk);
  }

  /** `check_artwork(report, addon_path, parsed_xml, file_index, branch_name)`. */
  method CheckArtwork(addonPath: string, assets: seq<Asset>, index: seq<FileEntry>, branchName: string, disk: Disk)
    returns (records: seq<Record>)
    ensures records == ArtworkRecords(addonPath, assets, index, branchName, disk)
  {
    records := [];
    var t := 0;
    while t < |ArtTypes|
      invariant 0 <= t <= |ArtTypes|
      invariant records == Each(ArtTypes, t, TypeStep(assets, addonPath, branchName, disk))
    {
      var rs := CheckImageType(ArtTypes[t], assets, addonPath, branchName, disk);
      assert TypeStep(assets, addonPath, branchName, disk)(ArtTypes[t])
             == ImageTypeRecords(ArtTypes[t], assets, addonPath, branchName, disk);
      EachStep(ArtTypes, t, TypeStep(assets, addonPath, branchName, disk));
      records := records + rs;
      t := t + 1;
    }
    records := ScanIndex(records, index, disk);
  }

  /** The loop of lines 32-39 over `file_index`, appending to what
      `before` holds. */
  method ScanIndex(before: seq<Record>, index: seq<FileEntry>, disk: Disk) returns (records: seq<Record>)
    ensures records == before + Each(index, |index|, EntryStep(disk))
  {
    var added := [];
    var k := 0;
    while k < |index|
      invariant 0 <= k <= |index|
      invariant added == Each(index, k, EntryStep(disk))
    {
      added := ScanEntry(added, index[k], disk);
      assert EntryStep(disk)(index[k]) == EntryRecords(index[k], disk);
      EachStep(index, k, EntryStep(disk));
      k := k + 1;
    }
    records := before + added;
  }

  /** The body of the loop of lines 32-39, appending to what `before`
      holds. */
  method ScanEntry(before: seq<Record>, e: FileEntry, disk: Disk) returns (records: seq<Record>)
    ensures records == before + EntryRecords(e, disk)
  {
    records := before;
    if ImageName(e.name) {
      var imagePath := Join(e.path, e.name);
      if disk.open(imagePath).None? {
        records := records + [Record(PROBLEM, "Could not open image, is the file corrupted ? " + RelativePath(imagePath, disk.relPath))];
      }
    }
  }


}
