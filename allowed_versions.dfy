/** The syntax an add-on version must have and the check that reports a
    version outside it (kodi_addon_checker/check_allowed_versions.py). */
module AllowedVersions {

  import opened Outcome
  import opened Text
  import opened Records

  /** `[+~\w]`, with `\w` taken as ASCII letters, digits and `_`. */
  predicate IsSuffixChar(c: char) { c == '+' || c == '~' || c == '_' || IsAsciiAlnum(c) }

  /** `\d+` as a whole string. */
  predicate IsRun(s: string) { s != "" && forall i :: 0 <= i < |s| ==> IsDigit(s[i]) }

  /** `$` of a pattern without MULTILINE: the end of the string, or a single
      newline that ends it. */
  predicate AtEnd(s: string) { s == "" || s == "\n" }

  // The backtracking matcher: each predicate says whether the rest of the
  // pattern, from one point on, matches a suffix `s` of the input.

  /** `\d+$` */
  predicate DigitsEnd(s: string)
    decreases |s|
  {
    |s| > 0 && IsDigit(s[0]) && (AtEnd(s[1..]) || DigitsEnd(s[1..]))
  }

  /** `(\.\d+)?$` */
  predicate LastEnd(s: string)
  {
    AtEnd(s) || (|s| > 0 && s[0] == '.' && DigitsEnd(s[1..]))
  }

  /** `[+~\w]+(\.\d+)?$` */
  predicate SuffixEnd(s: string)
    decreases |s|
  {
    |s| > 0 && IsSuffixChar(s[0]) && (LastEnd(s[1..]) || SuffixEnd(s[1..]))
  }

  /** `([+~\w]+(\.\d+)?)?$` */
  predicate TailEnd(s: string)
  {
    AtEnd(s) || SuffixEnd(s)
  }

  /** `(\.\d+){0,n}([+~\w]+(\.\d+)?)?$` */
  predicate GroupsEnd(s: string, n: nat)
    decreases |s|, 1
  {
    TailEnd(s) || (n > 0 && |s| > 0 && s[0] == '.' && RunGroupsEnd(s[1..], n - 1))
  }

  /** `\d+(\.\d+){0,n}([+~\w]+(\.\d+)?)?$` */
  predicate RunGroupsEnd(s: string, n: nat)
    decreases |s|, 0
  {
    |s| > 0 && IsDigit(s[0]) && (GroupsEnd(s[1..], n) || RunGroupsEnd(s[1..], n))
  }

  /** `\d+\.\d+(\.\d+){0,4}([+~\w]+(\.\d+)?)?$` */
  predicate FirstRunEnd(s: string)
    decreases |s|
  {
    |s| > 0 && IsDigit(s[0]) && ((|s| > 1 && s[1] == '.' && RunGroupsEnd(s[2..], 4)) || FirstRunEnd(s[1..]))
  }

  /** `version_is_valid(version)`: `re.match` anchors the pattern at the
      start; the pattern's own `$` anchors its end. */
  predicate VersionIsValid(version: string)
  {
    FirstRunEnd(version)
  }

  // The shape of an accepted version, stated without the matcher.

  /** What follows the dotted runs: an optional run of `[+~\w]`, an optional
      `.digits` after it, and the newline `$` lets through. */
  datatype Tail = Tail(suffix: string, last: Option<string>, newline: bool)

  predicate WellTail(t: Tail)
  {
    && (forall i :: 0 <= i < |t.suffix| ==> IsSuffixChar(t.suffix[i]))
    && (t.last.Some? ==> t.suffix != "" && IsRun(t.last.value))
  }

  function Nl(newline: bool): string { if newline then "\n" else "" }

  function LastText(last: Option<string>): string { if last.Some? then "." + last.value else "" }

  function TailText(t: Tail): string { t.suffix + LastText(t.last) + Nl(t.newline) }

  /** `.r1.r2...` */
  function DotRuns(rs: seq<string>): string
  {
    if rs == [] then "" else "." + rs[0] + DotRuns(rs[1..])
  }

  predicate AllRuns(rs: seq<string>) { forall i :: 0 <= i < |rs| ==> IsRun(rs[i]) }

  /** 2 to 6 dot-separated digit runs, then the tail. */
  datatype Shape = Shape(first: string, more: seq<string>, tail: Tail)

  predicate WellShaped(sh: Shape)
  {
    IsRun(sh.first) && 1 <= |sh.more| <= 5 && AllRuns(sh.more) && WellTail(sh.tail)
  }

  function Spell(sh: Shape): string { sh.first + DotRuns(sh.more) + TailText(sh.tail) }

  // Every accepted string has a shape.

  lemma {:induction false} DigitsEndParse(s: string) returns (d: string, nl: bool)
    requires DigitsEnd(s)
    ensures IsRun(d) && s == d + Nl(nl)
    decreases |s|
  {
    if AtEnd(s[1..]) {
      d, nl := [s[0]], s[1..] == "\n";
    } else {
      var d', nl' := DigitsEndParse(s[1..]);
      d, nl := [s[0]] + d', nl';
      assert s == [s[0]] + s[1..];
    }
  }

  lemma LastEndParse(s: string) returns (last: Option<string>, nl: bool)
    requires LastEnd(s)
    ensures (last.Some? ==> IsRun(last.value)) && s == LastText(last) + Nl(nl)
  {
    if AtEnd(s) {
      last, nl := None, s == "\n";
    } else {
      var d, nl' := DigitsEndParse(s[1..]);
      last, nl := Some(d), nl';
      assert s == "." + s[1..];
    }
  }

  lemma {:induction false} SuffixEndParse(s: string) returns (t: Tail)
    requires SuffixEnd(s)
    ensures WellTail(t) && t.suffix != "" && s == TailText(t)
    decreases |s|
  {
    assert s == [s[0]] + s[1..];
    if LastEnd(s[1..]) {
      var last, nl := LastEndParse(s[1..]);
      t := Tail([s[0]], last, nl);
    } else {
      var t' := SuffixEndParse(s[1..]);
      t := Tail([s[0]] + t'.suffix, t'.last, t'.newline);
      ConsSuffix(s[0], t');
    }
  }

  lemma ConsSuffix(c: char, t: Tail)
    requires IsSuffixChar(c) && WellTail(t)
    ensures var t' := Tail([c] + t.suffix, t.last, t.newline);
            WellTail(t') && TailText(t') == [c] + TailText(t)
  {
    var t' := Tail([c] + t.suffix, t.last, t.newline);
    assert forall i :: 1 <= i < |t'.suffix| ==> t'.suffix[i] == t.suffix[i - 1];
  }

  lemma TailEndParse(s: string) returns (t: Tail)
    requires TailEnd(s)
    ensures WellTail(t) && s == TailText(t)
  {
    if AtEnd(s) {
      t := Tail("", None, s == "\n");
    } else {
      t := SuffixEndParse(s);
    }
  }

  lemma {:induction false} GroupsEndParse(s: string, n: nat) returns (rs: seq<string>, t: Tail)
    requires GroupsEnd(s, n)
    ensures |rs| <= n && AllRuns(rs) && WellTail(t) && s == DotRuns(rs) + TailText(t)
    decreases |s|, 1
  {
    if TailEnd(s) {
      rs := [];
      t := TailEndParse(s);
    } else {
      var r, rs', t' := RunGroupsEndParse(s[1..], n - 1);
      rs, t := [r] + rs', t';
      assert rs[1..] == rs';
      assert s == "." + s[1..];
    }
  }

  lemma {:induction false} RunGroupsEndParse(s: string, n: nat) returns (r: string, rs: seq<string>, t: Tail)
    requires RunGroupsEnd(s, n)
    ensures IsRun(r) && |rs| <= n && AllRuns(rs) && WellTail(t) && s == r + DotRuns(rs) + TailText(t)
    decreases |s|, 0
  {
    assert s == [s[0]] + s[1..];
    if GroupsEnd(s[1..], n) {
      rs, t := GroupsEndParse(s[1..], n);
      r := [s[0]];
    } else {
      var r';
      r', rs, t := RunGroupsEndParse(s[1..], n);
      r := [s[0]] + r';
    }
  }

  lemma {:induction false} FirstRunEndParse(s: string) returns (sh: Shape)
    requires FirstRunEnd(s)
    ensures WellShaped(sh) && Spell(sh) == s
    decreases |s|
  {
    assert s == [s[0]] + s[1..];
    if |s| > 1 && s[1] == '.' && RunGroupsEnd(s[2..], 4) {
      var r, rs, t := RunGroupsEndParse(s[2..], 4);
      sh := Shape([s[0]], [r] + rs, t);
      assert sh.more[1..] == rs;
      assert s == [s[0]] + "." + s[2..];
    } else {
      var sh' := FirstRunEndParse(s[1..]);
      sh := Shape([s[0]] + sh'.first, sh'.more, sh'.tail);
    }
  }

  // Every shape is accepted.

  lemma {:induction false} DigitsEndSpells(d: string, nl: bool)
    requires IsRun(d)
    ensures DigitsEnd(d + Nl(nl))
    decreases |d|
  {
    var s := d + Nl(nl);
    if |d| == 1 {
      assert s[1..] == Nl(nl);
    } else {
      DigitsEndSpells(d[1..], nl);
      assert s[1..] == d[1..] + Nl(nl);
    }
  }

  lemma LastEndSpells(last: Option<string>, nl: bool)
    requires last.Some? ==> IsRun(last.value)
    ensures LastEnd(LastText(last) + Nl(nl))
  {
    if last.Some? {
      DigitsEndSpells(last.value, nl);
      assert (LastText(last) + Nl(nl))[1..] == last.value + Nl(nl);
    }
  }

  lemma {:induction false} SuffixEndSpells(t: Tail)
    requires WellTail(t) && t.suffix != ""
    ensures SuffixEnd(TailText(t))
    decreases |t.suffix|
  {
    var s := TailText(t);
    assert s[0] == t.suffix[0];
    if |t.suffix| == 1 {
      LastEndSpells(t.last, t.newline);
      assert s[1..] == LastText(t.last) + Nl(t.newline);
    } else {
      var t' := Tail(t.suffix[1..], t.last, t.newline);
      SuffixEndSpells(t');
      assert s[1..] == TailText(t');
    }
  }

  lemma TailEndSpells(t: Tail)
    requires WellTail(t)
    ensures TailEnd(TailText(t))
  {
    if t.suffix != "" {
      SuffixEndSpells(t);
    }
  }

  lemma {:induction false} GroupsEndSpells(rs: seq<string>, t: Tail, n: nat)
    requires |rs| <= n && AllRuns(rs) && WellTail(t)
    ensures GroupsEnd(DotRuns(rs) + TailText(t), n)
    decreases |rs|, 0
  {
    if rs == [] {
      TailEndSpells(t);
      assert DotRuns(rs) + TailText(t) == TailText(t);
    } else {
      RunGroupsEndSpells(rs[0], rs[1..], t, n - 1);
      DotRunsTail(rs, TailText(t));
    }
  }

  lemma DotRunsTail(rs: seq<string>, x: string)
    requires rs != []
    ensures var s := DotRuns(rs) + x; |s| > 0 && s[0] == '.' && s[1..] == rs[0] + DotRuns(rs[1..]) + x
  {
    assert DotRuns(rs) + x == "." + (rs[0] + DotRuns(rs[1..]) + x);
  }

  lemma {:induction false} RunGroupsEndSpells(r: string, rs: seq<string>, t: Tail, n: nat)
    requires IsRun(r) && |rs| <= n && AllRuns(rs) && WellTail(t)
    ensures RunGroupsEnd(r + DotRuns(rs) + TailText(t), n)
    decreases |rs|, 1, |r|
  {
    var s := r + DotRuns(rs) + TailText(t);
    assert s[0] == r[0];
    if |r| == 1 {
      GroupsEndSpells(rs, t, n);
      assert s[1..] == DotRuns(rs) + TailText(t);
    } else {
      RunGroupsEndSpells(r[1..], rs, t, n);
      assert s[1..] == r[1..] + DotRuns(rs) + TailText(t);
    }
  }

  lemma {:induction false} FirstRunEndSpells(sh: Shape)
    requires WellShaped(sh)
    ensures FirstRunEnd(Spell(sh))
    decreases |sh.first|
  {
    var s := Spell(sh);
    assert s[0] == sh.first[0];
    if |sh.first| == 1 {
      RunGroupsEndSpells(sh.more[0], sh.more[1..], sh.tail, 4);
      assert s[1] == '.';
      assert s[2..] == sh.more[0] + DotRuns(sh.more[1..]) + TailText(sh.tail);
    } else {
      var sh' := Shape(sh.first[1..], sh.more, sh.tail);
      FirstRunEndSpells(sh');
      assert s[1..] == Spell(sh');
    }
  }

  /** The recogniser accepts exactly the strings of the shape: 2 to 6
      dot-separated digit runs, then optionally a run of `[+~\w]`, then
      optionally `.digits` after it, then optionally one newline. */
  lemma ValidIffShaped(s: string)
    ensures VersionIsValid(s) <==> exists sh :: WellShaped(sh) && Spell(sh) == s
  {
    if VersionIsValid(s) {
      var sh := FirstRunEndParse(s);
    }
    forall sh | WellShaped(sh) && Spell(sh) == s ensures VersionIsValid(s) {
      FirstRunEndSpells(sh);
    }
  }

  /** The characters an accepted string can hold. */
  predicate Allowed(c: char) { c == '.' || c == '\n' || IsSuffixChar(c) }

  lemma {:induction false} DotRunsAllowed(rs: seq<string>)
    requires AllRuns(rs)
    ensures forall i :: 0 <= i < |DotRuns(rs)| ==> Allowed(DotRuns(rs)[i])
  {
    if rs != [] {
      DotRunsAllowed(rs[1..]);
      var s := DotRuns(rs);
      forall i | 0 <= i < |s| ensures Allowed(s[i]) {
        if 1 <= i < 1 + |rs[0]| {
          assert s[i] == rs[0][i - 1];
        } else if i > 0 {
          assert s[i] == DotRuns(rs[1..])[i - 1 - |rs[0]|];
        }
      }
    }
  }

  /** Only digits, letters, `_`, `+`, `~`, `.` and one final newline occur in
      an accepted version: a `-` never does. */
  lemma ValidChars(s: string)
    ensures VersionIsValid(s) ==> forall i :: 0 <= i < |s| ==> Allowed(s[i])
    ensures VersionIsValid(s) ==> |s| >= 3 && IsDigit(s[0])
  {
    if VersionIsValid(s) {
      ValidCharsOf(s);
    }
  }

  lemma ValidCharsOf(s: string)
    requires VersionIsValid(s)
    ensures forall i :: 0 <= i < |s| ==> Allowed(s[i])
    ensures |s| >= 3 && IsDigit(s[0])
  {
    var sh := FirstRunEndParse(s);
    DotRunsAllowed(sh.more);
    var a, b, c := sh.first, DotRuns(sh.more), TailText(sh.tail);
    assert s == a + b + c;
    forall i | 0 <= i < |s| ensures Allowed(s[i]) {
      if i < |a| {
        assert s[i] == a[i];
      } else if i < |a| + |b| {
        assert s[i] == b[i - |a|];
      } else {
        var j := i - |a| - |b|;
        assert s[i] == c[j];
        var t := sh.tail;
        if j < |t.suffix| {
          assert c[j] == t.suffix[j];
        } else if j >= |t.suffix| + |LastText(t.last)| {
          assert c[j] == Nl(t.newline)[j - |t.suffix| - |LastText(t.last)|];
        } else if t.last.Some? && j > |t.suffix| {
          assert c[j] == t.last.value[j - |t.suffix| - 1];
        }
      }
    }
    assert b[0] == '.' && b[1] == sh.more[0][0];
  }

  /** The versions of tests/test_allowed_versions.py. */
  lemma AcceptedExamples()
    ensures VersionIsValid("1.0.1")
    ensures VersionIsValid("1.0.1+matrix.1")
    ensures VersionIsValid("1.0.1+matrix.2")
  {
    LocalVersionAccepted("1");
    LocalVersionAccepted("2");
    assert "1.0.1+matrix." + "1" == "1.0.1+matrix.1";
    assert "1.0.1+matrix." + "2" == "1.0.1+matrix.2";
  }

  /** Any digit run is accepted as the last part of a local version. */
  lemma LocalVersionAccepted(k: string)
    requires IsRun(k)
    ensures VersionIsValid("1.0.1+matrix." + k)
  {
    var sh := Shape("1", ["0", "1"], Tail("+matrix", Some(k), false));
    FirstRunEndSpells(sh);
    assert Spell(sh) == "1.0.1+matrix." + k;
  }

  lemma RejectedExamples()
    ensures !VersionIsValid("someinvalidversion")
    ensures !VersionIsValid("2.3.0-backported-Leia")
    ensures !VersionIsValid("") && !VersionIsValid("1")
  {
    var s := "2.3.0-backported-Leia";
    assert s[5] == '-';
    ValidChars(s);
    assert !Allowed(s[5]);
    var w := "someinvalidversion";
    assert w[0] == 's' && !FirstRunEnd(w);
    assert !FirstRunEnd("1") by {
      assert "1"[1..] == "";
      assert !FirstRunEnd("");
    }
  }

  /** `$` lets one trailing newline through. */
  lemma TrailingNewlineAccepted()
    ensures VersionIsValid("1.0.0\n")
  {
    var sh := Shape("1", ["0", "0"], Tail("", None, true));
    FirstRunEndSpells(sh);
    assert Spell(sh) == "1.0.0\n";
  }

  const MissingVersion: Record := Record(PROBLEM, "Missing version in addon.xml")

  function InvalidVersion(version: string): Record
  {
    Record(PROBLEM, "Invalid version " + version + " in addon.xml. Please use the major.minor.revision (e.g. 1.0.0) format or "
                    + "major.minor.revision+localversion_identifier (e.g. 1.0.0+matrix.1)")
  }

  /** `check_version(report, parsed_xml)`, with the root element's
      attributes as `attrib`: the records it adds. */
  function CheckVersion(attrib: map<string, string>): (rs: seq<Record>)
    ensures "version" !in attrib ==> rs == [MissingVersion]
    ensures "version" in attrib ==> (rs == [] <==> VersionIsValid(attrib["version"]))
    ensures "version" in attrib && !VersionIsValid(attrib["version"]) ==> rs == [InvalidVersion(attrib["version"])]
    ensures |rs| <= 1 && forall r :: r in rs ==> r.logLevel == PROBLEM
  {
    if "version" !in attrib then [MissingVersion]
    else if !VersionIsValid(attrib["version"]) then [InvalidVersion(attrib["version"])]
    else []
  }

  /** A version with a `-` is always reported. */
  lemma DashReported(attrib: map<string, string>, i: nat)
    requires "version" in attrib && i < |attrib["version"]| && attrib["version"][i] == '-'
    ensures CheckVersion(attrib) == [InvalidVersion(attrib["version"])]
  {
    ValidChars(attrib["version"]);
  }
}
