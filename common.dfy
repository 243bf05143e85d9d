/** Helpers shared by the checks (kodi_addon_checker/common/__init__.py). */
module Common {

  import opened Outcome
  import opened Text

  /** `relative_path(file_path)`: "." followed by the path without its first
      `len(REL_PATH)` characters. `REL_PATH` is the module-level setting the
      caller assigns before the checks run; it is a parameter here. The
      prefix is cut by length alone, without checking that it matches. */
  function RelativePath(filePath: string, relPath: string): string
  {
    "." + (if |relPath| <= |filePath| then filePath[|relPath|..] else "")
  }

  /** Only the length of `REL_PATH` matters: two settings of the same
      length print every path alike, whether or not either is a prefix. */
  lemma RelativePathByLength(filePath: string, relPath: string, other: string)
    requires |other| == |relPath|
    ensures RelativePath(filePath, relPath) == RelativePath(filePath, other)
  {
  }

  /** When `REL_PATH` is a prefix of the path, the result is "." and the
      remainder. */
  lemma RelativePathOfPrefix(relPath: string, rest: string)
    ensures RelativePath(relPath + rest, relPath) == "." + rest
  {
    assert (relPath + rest)[|relPath|..] == rest;
  }

  /** With the default `REL_PATH = ""` the path is printed after a ".". */
  lemma RelativePathDefault(filePath: string)
    ensures RelativePath(filePath, "") == "." + filePath
  {
    RelativePathOfPrefix("", filePath);
    assert "" + filePath == filePath;
  }

  /** `next(i for i, a in enumerate(alpha) if a < 255)`, with `None` for
      the `StopIteration` the search raises when there is no such pixel. */
  function FirstTransparent(alpha: seq<int>, from: nat := 0): Option<nat>
    requires from <= |alpha|
    decreases |alpha| - from
  {
    if from == |alpha| then None
    else if alpha[from] < 255 then Some(from)
    else FirstTransparent(alpha, from + 1)
  }

  /** The search finds the first pixel from `from` on that is below 255,
      and nothing exactly when there is none. */
  lemma {:induction false} FirstTransparentFinds(alpha: seq<int>, from: nat)
    requires from <= |alpha|
    ensures var r := FirstTransparent(alpha, from);
            && (r.None? <==> forall i :: from <= i < |alpha| ==> alpha[i] >= 255)
            && (r.Some? ==> from <= r.value < |alpha| && alpha[r.value] < 255
                            && forall i :: from <= i < r.value ==> alpha[i] >= 255)
    decreases |alpha| - from
  {
    if from < |alpha| && alpha[from] >= 255 {
      FirstTransparentFinds(alpha, from + 1);
    }
  }

  /** `has_transparency(im)` for an image with mode `mode` whose last band
      has the values `alpha`. The index of the first transparent pixel
      is never `None`, so even a transparent pixel at index 0 counts. */
  function HasTransparency(mode: string, alpha: seq<int>): bool
  {
    if mode == "RGBA" then
      match FirstTransparent(alpha)
      case None => false       // StopIteration
      case Some(_) => true
    else false
  }

  /** Transparent exactly when the mode is RGBA and some alpha value is
      below 255. */
  lemma HasTransparencyMeans(mode: string, alpha: seq<int>)
    ensures HasTransparency(mode, alpha) <==> mode == "RGBA" && exists i :: 0 <= i < |alpha| && alpha[i] < 255
  {
    FirstTransparentFinds(alpha, 0);
  }

  /** An RGB image, or an RGBA image whose every pixel is opaque, has no
      transparency. */
  lemma OpaqueImages(alpha: seq<int>)
    ensures !HasTransparency("RGB", alpha)
    ensures (forall i :: 0 <= i < |alpha| ==> alpha[i] == 255) ==> !HasTransparency("RGBA", alpha)
  {
    FirstTransparentFinds(alpha, 0);
  }
}
