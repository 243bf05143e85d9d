/** The POSIX path operations the checker relies on: `os.path.join`,
    `os.path.basename(os.path.normpath(p))`, `str.split("/")` and
    `pathlib.PurePath.suffix`, over path strings. */
module Paths {

  import opened Text

  /** `os.path.join(a, b)`: an absolute `b` replaces `a`; otherwise one
      separator is put between them unless `a` is empty or ends with one. */
  function Join(a: string, b: string): string
  {
    if |b| > 0 && b[0] == '/' then b
    else if a == [] || a[|a| - 1] == '/' then a + b
    else a + "/" + b
  }

  /** An absolute second part is the result; otherwise the result starts
      with the first part and ends with the second, with a separator added
      between them exactly when the first part is non-empty and does not
      end with one. */
  lemma JoinParts(a: string, b: string)
    ensures StartsWith(b, "/") ==> Join(a, b) == b
    ensures !StartsWith(b, "/") ==> StartsWith(Join(a, b), a) && EndsWith(Join(a, b), b)
    ensures !StartsWith(b, "/") ==> (|Join(a, b)| == |a| + |b| + 1 <==> a != [] && !EndsWith(a, "/"))
  {
    if !StartsWith(b, "/") {
      var r := Join(a, b);
      if a == [] || a[|a| - 1] == '/' {
        assert r[..|a|] == a && r[|r| - |b|..] == b;
      } else {
        assert r[..|a|] == a && r[|r| - |b|..] == b;
        assert a[|a| - 1..] == [a[|a| - 1]];
      }
    }
  }

  /** `"/".join(parts)` with any one-character separator. */
  function JoinWith(parts: seq<string>, sep: char): string
    requires |parts| >= 1
  {
    if |parts| == 1 then parts[0] else parts[0] + [sep] + JoinWith(parts[1..], sep)
  }

  /** `s.split(sep)` for a one-character separator: the pieces between the
      separators, so always at least one. */
  function Split(s: string, sep: char): (parts: seq<string>)
    ensures |parts| >= 1
    ensures forall i :: 0 <= i < |parts| ==> sep !in parts[i]
    ensures |parts| == 1 <==> sep !in s
  {
    if s == [] then [""]
    else
      var rest := Split(s[1..], sep);
      assert sep in s <==> s[0] == sep || sep in s[1..] by { assert s == [s[0]] + s[1..]; }
      if s[0] == sep then [""] + rest
      else [[s[0]] + rest[0]] + rest[1..]
  }

  /** Joining the pieces again gives back the text. */
  lemma {:induction false} JoinSplit(s: string, sep: char)
    ensures JoinWith(Split(s, sep), sep) == s
  {
    if s != [] {
      JoinSplit(s[1..], sep);
      var rest := Split(s[1..], sep);
      if s[0] == sep {
        assert ([""] + rest)[1..] == rest;
      } else if |rest| == 1 {
        assert s == [s[0]] + s[1..];
      } else {
        var parts := [[s[0]] + rest[0]] + rest[1..];
        assert parts[1..] == rest[1..];
        assert JoinWith(rest, sep) == rest[0] + [sep] + JoinWith(rest[1..], sep);
        assert JoinWith(parts, sep) == [s[0]] + (rest[0] + [sep] + JoinWith(rest[1..], sep));
        assert s == [s[0]] + s[1..];
      }
    }
  }

  /** `Split` of a text that ends with a separator and a further piece. */
  lemma {:induction false} SplitAppend(s: string, sep: char, last: string)
    requires sep !in last
    ensures Split(s + [sep] + last, sep) == Split(s, sep) + [last]
  {
    if s == [] {
      assert [sep] + last == [] + [sep] + last;
      SplitNoSep(last, sep);
      assert ([sep] + last)[1..] == last;
    } else {
      assert (s + [sep] + last)[1..] == s[1..] + [sep] + last;
      SplitAppend(s[1..], sep, last);
    }
  }

  lemma {:induction false} SplitNoSep(s: string, sep: char)
    requires sep !in s
    ensures Split(s, sep) == [s]
  {
    if s != [] {
      assert sep !in s[1..] by { assert forall x :: x in s[1..] ==> x in s; }
      SplitNoSep(s[1..], sep);
      assert s == [s[0]] + s[1..];
    }
  }

  /** The component list that `os.path.normpath` builds: empty and "."
      components are dropped, and ".." removes the component before it
      unless there is none to remove (then it is kept for a relative path
      and dropped for a rooted one) or that one is itself "..". */
  function NormFold(comps: seq<string>, rooted: bool, acc: seq<string>): seq<string>
    decreases |comps|
  {
    if comps == [] then acc
    else
      var c := comps[0];
      var acc' :=
        if c == "" || c == "." then acc
        else if c != ".." || (!rooted && acc == []) || (acc != [] && acc[|acc| - 1] == "..") then acc + [c]
        else if acc != [] then acc[..|acc| - 1]
        else acc;
      NormFold(comps[1..], rooted, acc')
  }

  lemma {:induction false} NormFoldAppend(comps: seq<string>, rooted: bool, acc: seq<string>, c: string)
    requires c != "" && c != "." && c != ".."
    ensures NormFold(comps + [c], rooted, acc) == NormFold(comps, rooted, acc) + [c]
    decreases |comps|
  {
    if comps == [] {
      assert [] + [c] == [c];
    } else {
      assert (comps + [c])[1..] == comps[1..] + [c];
      var x := comps[0];
      var acc' :=
        if x == "" || x == "." then acc
        else if x != ".." || (!rooted && acc == []) || (acc != [] && acc[|acc| - 1] == "..") then acc + [x]
        else if acc != [] then acc[..|acc| - 1]
        else acc;
      NormFoldAppend(comps[1..], rooted, acc', c);
    }
  }

  lemma {:induction false} NormFoldEmpty(comps: seq<string>, rooted: bool, acc: seq<string>)
    ensures NormFold(comps + [""], rooted, acc) == NormFold(comps, rooted, acc)
    decreases |comps|
  {
    if comps == [] {
      assert [] + [""] == [""];
    } else {
      assert (comps + [""])[1..] == comps[1..] + [""];
      var x := comps[0];
      var acc' :=
        if x == "" || x == "." then acc
        else if x != ".." || (!rooted && acc == []) || (acc != [] && acc[|acc| - 1] == "..") then acc + [x]
        else if acc != [] then acc[..|acc| - 1]
        else acc;
      NormFoldEmpty(comps[1..], rooted, acc');
    }
  }

  /** `os.path.basename(os.path.normpath(path))`: the last component left
      after normalisation; "." when nothing is left of a relative path and
      "" when nothing is left of a rooted one. */
  function FolderName(path: string): string
  {
    var rooted := |path| > 0 && path[0] == '/';
    var comps := NormFold(Split(path, '/'), rooted, []);
    if comps != [] then comps[|comps| - 1] else if rooted then "" else "."
  }

  /** A plain name (no separator, not "." or "..") is its own folder name,
      and stays the folder name when a directory is put before it or a
      trailing separator after it. */
  lemma FolderNameOfJoin(dir: string, name: string)
    requires name != "" && name != "." && name != ".." && '/' !in name
    ensures FolderName(name) == name
    ensures FolderName(Join(dir, name)) == name
    ensures FolderName(name + "/") == name
  {
    SplitNoSep(name, '/');
    NormFoldAppend([], false, [], name);
    assert [] + [name] == [name];
    SplitAppend(name, '/', "");
    assert name + "/" == name + ['/'] + "";
    NormFoldEmpty([name], false, []);
    if dir != [] && dir[|dir| - 1] == '/' {
      var d := dir[..|dir| - 1];
      assert dir + name == d + ['/'] + name;
      SplitAppend(d, '/', name);
      NormFoldAppend(Split(d, '/'), |d + ['/'] + name| > 0 && (d + ['/'] + name)[0] == '/', [], name);
    } else if dir != [] {
      assert dir + "/" + name == dir + ['/'] + name;
      SplitAppend(dir, '/', name);
      NormFoldAppend(Split(dir, '/'), |dir + ['/'] + name| > 0 && (dir + ['/'] + name)[0] == '/', [], name);
    } else {
      assert Join(dir, name) == name;
    }
  }

  /** `pathlib.PurePath(name).suffix` of a bare file name: from the last
      "." on, provided that dot is neither the first nor the last character. */
  function Suffix(name: string): string
  {
    match LastIndexOf(name, '.')
    case None => ""
    case Some(i) =>
      if 0 < i < |name| - 1 then name[i..] else ""
  }

  /** A suffix is empty or a dot, then at least one character that is not
      a dot, ending a longer name. */
  lemma SuffixIsEnding(name: string)
    ensures var r := Suffix(name);
            r == "" || (r[0] == '.' && 1 < |r| < |name| && EndsWith(name, r) && '.' !in r[1..])
  {
    LastIndexOfFinds(name, '.', |name|);
  }
}
