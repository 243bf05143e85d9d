/** `AddonVersion` (kodi_addon_checker/versions.py): an add-on version string,
    normalised and then ordered as PEP 440 orders versions.

    The PEP 440 part is the subset the ordering rules of add-on versions rely
    on: a release segment; an `a`/`b`/`rc` pre-release (also spelled `alpha`,
    `beta`, `c`) right after it, whose number may follow a `-`, `_` or `.`;
    an implicit `-N` or a `.postN` post-release; and a `+label` local
    version whose segments are separated by `.`, `-` or `_`. A normalised
    string outside that subset is an `InvalidVersion`. */
module Versions {

  import opened Outcome
  import opened Text
  import opened Orders

  datatype PreKind = Alpha | Beta | Candidate

  datatype Pre = Pre(kind: PreKind, number: nat)

  /** A dot-separated part of a local version label: all digits, or not. */
  datatype LocalSegment = Numeric(value: nat) | Alphanumeric(text: string)

  /** A parsed PEP 440 version; `local == []` means "no local label". */
  datatype Pep440 = Pep440(release: seq<nat>, pre: Option<Pre>, post: Option<nat>, local: seq<LocalSegment>)

  // ---------------------------------------------------------------------
  // The PEP 440 ordering ("Final releases", "Pre-releases", "Post-releases",
  // "Local version identifiers")
  // ---------------------------------------------------------------------

  function Rest(s: seq<nat>): seq<nat> { if s == [] then [] else s[1..] }

  function Head(s: seq<nat>): nat { if s == [] then 0 else s[0] }

  /** Release segments compared left to right, the shorter padded with zeros. */
  function CompareRelease(a: seq<nat>, b: seq<nat>): Ordering
    decreases |a| + |b|
  {
    if a == [] && b == [] then Equal
    else Then(CompareNat(Head(a), Head(b)), CompareRelease(Rest(a), Rest(b)))
  }

  function PreRank(k: PreKind): nat
  {
    match k
    case Alpha => 0
    case Beta => 1
    case Candidate => 2
  }

  /** No pre-release sorts after every pre-release of the same release. */
  function ComparePre(a: Option<Pre>, b: Option<Pre>): Ordering
  {
    match (a, b)
    case (None, None) => Equal
    case (None, Some(_)) => Greater
    case (Some(_), None) => Less
    case (Some(p), Some(q)) => Then(CompareNat(PreRank(p.kind), PreRank(q.kind)), CompareNat(p.number, q.number))
  }

  /** No post-release sorts before every post-release of the same version. */
  function ComparePost(a: Option<nat>, b: Option<nat>): Ordering
  {
    match (a, b)
    case (None, None) => Equal
    case (None, Some(_)) => Less
    case (Some(_), None) => Greater
    case (Some(m), Some(n)) => CompareNat(m, n)
  }

  /** Numeric segments compare as numbers and above alphanumeric ones. */
  function CompareSegment(x: LocalSegment, y: LocalSegment): Ordering
  {
    match (x, y)
    case (Numeric(m), Numeric(n)) => CompareNat(m, n)
    case (Alphanumeric(_), Numeric(_)) => Less
    case (Numeric(_), Alphanumeric(_)) => Greater
    case (Alphanumeric(s), Alphanumeric(t)) => CompareText(s, t)
  }

  /** Local labels compare segment by segment; a proper prefix is smaller, and
      no label at all is smaller than any label. */
  function CompareLocal(a: seq<LocalSegment>, b: seq<LocalSegment>): Ordering
  {
    if a == [] && b == [] then Equal
    else if a == [] then Less
    else if b == [] then Greater
    else Then(CompareSegment(a[0], b[0]), CompareLocal(a[1..], b[1..]))
  }

  /** packaging's comparison key: release, then pre, then post, then local. */
  function Compare(a: Pep440, b: Pep440): Ordering
  {
    Then(CompareRelease(a.release, b.release),
         Then(ComparePre(a.pre, b.pre),
              Then(ComparePost(a.post, b.post), CompareLocal(a.local, b.local))))
  }

  // --- laws of the component comparisons

  lemma {:induction false} CompareReleaseLaws(a: seq<nat>, b: seq<nat>, c: seq<nat>)
    ensures CompareRelease(a, a) == Equal
    ensures CompareRelease(b, a) == CompareRelease(a, b).Flip()
    ensures Chains(CompareRelease(a, b), CompareRelease(b, c), CompareRelease(a, c))
    decreases |a| + |b| + |c|
  {
    if a == [] && b == [] && c == [] {
    } else {
      CompareReleaseLaws(Rest(a), Rest(b), Rest(c));
      ThenFlip(CompareNat(Head(a), Head(b)), CompareRelease(Rest(a), Rest(b)));
      ThenChains(CompareNat(Head(a), Head(b)), CompareNat(Head(b), Head(c)), CompareNat(Head(a), Head(c)),
                 CompareRelease(Rest(a), Rest(b)), CompareRelease(Rest(b), Rest(c)), CompareRelease(Rest(a), Rest(c)));
      if a == [] && b == [] {
        assert CompareRelease(a, b) == Equal;
      } else if b == [] && c == [] {
        assert CompareRelease(b, c) == Equal;
      } else if a == [] && c == [] {
        assert CompareRelease(a, c) == Equal;
      }
    }
  }

  /** Trailing zero segments never change the comparison ("Final releases"). */
  lemma {:induction false} CompareReleaseZeroPadding(a: seq<nat>, b: seq<nat>)
    ensures CompareRelease(a + [0], b) == CompareRelease(a, b)
    decreases |a| + |b|
  {
    if a == [] {
      assert Rest(a + [0]) == [];
      if b != [] {
        CompareReleaseZeroPadding([], Rest(b));
      } else {
        assert CompareRelease([0], []) == Then(Equal, CompareRelease([], []));
      }
    } else {
      assert Head(a + [0]) == Head(a) && Rest(a + [0]) == Rest(a) + [0];
      CompareReleaseZeroPadding(Rest(a), Rest(b));
    }
  }

  lemma PreLaws(a: Option<Pre>, b: Option<Pre>, c: Option<Pre>)
    ensures ComparePre(a, a) == Equal
    ensures ComparePre(b, a) == ComparePre(a, b).Flip()
    ensures Chains(ComparePre(a, b), ComparePre(b, c), ComparePre(a, c))
  {
    if a.Some? && b.Some? && c.Some? {
      var p, q, r := a.value, b.value, c.value;
      ThenFlip(CompareNat(PreRank(p.kind), PreRank(q.kind)), CompareNat(p.number, q.number));
      ThenChains(CompareNat(PreRank(p.kind), PreRank(q.kind)), CompareNat(PreRank(q.kind), PreRank(r.kind)),
                 CompareNat(PreRank(p.kind), PreRank(r.kind)),
                 CompareNat(p.number, q.number), CompareNat(q.number, r.number), CompareNat(p.number, r.number));
    } else if a.Some? && b.Some? {
      ThenFlip(CompareNat(PreRank(a.value.kind), PreRank(b.value.kind)), CompareNat(a.value.number, b.value.number));
    }
  }

  lemma PostLaws(a: Option<nat>, b: Option<nat>, c: Option<nat>)
    ensures ComparePost(a, a) == Equal
    ensures ComparePost(b, a) == ComparePost(a, b).Flip()
    ensures Chains(ComparePost(a, b), ComparePost(b, c), ComparePost(a, c))
  {
  }

  lemma SegmentLaws(x: LocalSegment, y: LocalSegment, z: LocalSegment)
    ensures CompareSegment(x, x) == Equal
    ensures CompareSegment(y, x) == CompareSegment(x, y).Flip()
    ensures Chains(CompareSegment(x, y), CompareSegment(y, z), CompareSegment(x, z))
  {
    if x.Alphanumeric? {
      CompareTextEqual(x.text, x.text);
    }
    if x.Alphanumeric? && y.Alphanumeric? {
      CompareTextFlip(x.text, y.text);
    }
    if x.Alphanumeric? && y.Alphanumeric? && z.Alphanumeric? {
      CompareTextChains(x.text, y.text, z.text);
    }
  }

  lemma {:induction false} CompareLocalLaws(a: seq<LocalSegment>, b: seq<LocalSegment>, c: seq<LocalSegment>)
    ensures CompareLocal(a, a) == Equal
    ensures CompareLocal(b, a) == CompareLocal(a, b).Flip()
    ensures Chains(CompareLocal(a, b), CompareLocal(b, c), CompareLocal(a, c))
    decreases |a| + |b| + |c|
  {
    if a != [] && b != [] && c != [] {
      CompareLocalLaws(a[1..], b[1..], c[1..]);
      SegmentLaws(a[0], b[0], c[0]);
      ThenFlip(CompareSegment(a[0], b[0]), CompareLocal(a[1..], b[1..]));
      ThenChains(CompareSegment(a[0], b[0]), CompareSegment(b[0], c[0]), CompareSegment(a[0], c[0]),
                 CompareLocal(a[1..], b[1..]), CompareLocal(b[1..], c[1..]), CompareLocal(a[1..], c[1..]));
    } else if a != [] && b != [] {
      CompareLocalLaws(a[1..], b[1..], []);
      SegmentLaws(a[0], b[0], a[0]);
      ThenFlip(CompareSegment(a[0], b[0]), CompareLocal(a[1..], b[1..]));
    } else if a != [] {
      CompareLocalLaws(a[1..], [], []);
      SegmentLaws(a[0], a[0], a[0]);
    }
  }

  /** The version comparison is a total preorder: reflexive, antisymmetric in
      the sense of `Flip`, and transitive (PEP 440 "Summary of permitted
      suffixes and relative ordering"). */
  lemma CompareLaws(a: Pep440, b: Pep440, c: Pep440)
    ensures Compare(a, a) == Equal
    ensures Compare(b, a) == Compare(a, b).Flip()
    ensures Chains(Compare(a, b), Compare(b, c), Compare(a, c))
  {
    CompareReleaseLaws(a.release, b.release, c.release);
    PreLaws(a.pre, b.pre, c.pre);
    PostLaws(a.post, b.post, c.post);
    CompareLocalLaws(a.local, b.local, c.local);
    var lb, lc, la := CompareLocal(a.local, b.local), CompareLocal(b.local, c.local), CompareLocal(a.local, c.local);
    var pb, pc, pa := ComparePost(a.post, b.post), ComparePost(b.post, c.post), ComparePost(a.post, c.post);
    var rb, rc, ra := ComparePre(a.pre, b.pre), ComparePre(b.pre, c.pre), ComparePre(a.pre, c.pre);
    var sb, sc, sa := CompareRelease(a.release, b.release), CompareRelease(b.release, c.release), CompareRelease(a.release, c.release);
    ThenChains(pb, pc, pa, lb, lc, la);
    ThenChains(rb, rc, ra, Then(pb, lb), Then(pc, lc), Then(pa, la));
    ThenChains(sb, sc, sa, Then(rb, Then(pb, lb)), Then(rc, Then(pc, lc)), Then(ra, Then(pa, la)));
    ThenFlip(pb, lb);
    ThenFlip(rb, Then(pb, lb));
    ThenFlip(sb, Then(rb, Then(pb, lb)));
  }

  // ---------------------------------------------------------------------
  // Parsing the modelled PEP 440 subset
  // ---------------------------------------------------------------------

  predicate IsLocalChar(c: char) { IsDigit(c) || IsAsciiLower(c) }

  /** `[-_\.]`, the separators packaging's pattern allows between the
      segments of a local label and before a pre-release number. */
  predicate IsSeparator(c: char) { c == '.' || c == '-' || c == '_' }

  /** The text of an alphanumeric local segment: lower-case letters and
      digits, not all of them digits (those are `Numeric`). */
  predicate ValidLabel(t: string)
  {
    && |t| > 0
    && (forall k :: 0 <= k < |t| ==> IsLocalChar(t[k]))
    && exists k :: 0 <= k < |t| && !IsDigit(t[k])
  }

  predicate SegmentWellFormed(x: LocalSegment) { x.Alphanumeric? ==> ValidLabel(x.text) }

  /** The versions `parse` can produce. */
  predicate WellFormed(v: Pep440)
  {
    |v.release| > 0 && forall k :: 0 <= k < |v.local| ==> SegmentWellFormed(v.local[k])
  }

  /** Length of the run of digits starting at `i`. */
  function DigitRun(s: string, i: nat): (n: nat)
    requires i <= |s|
    ensures i + n <= |s|
    decreases |s| - i
  {
    if i < |s| && IsDigit(s[i]) then 1 + DigitRun(s, i + 1) else 0
  }

  lemma {:induction false} DigitRunDigits(s: string, i: nat)
    requires i <= |s|
    ensures forall k :: i <= k < i + DigitRun(s, i) ==> IsDigit(s[k])
    ensures i + DigitRun(s, i) < |s| ==> !IsDigit(s[i + DigitRun(s, i)])
    decreases |s| - i
  {
    if i < |s| && IsDigit(s[i]) {
      DigitRunDigits(s, i + 1);
    }
  }

  function DigitOf(c: char): nat
  {
    if IsDigit(c) then DigitValue(c) else 0
  }

  /** `int(s[i..i+n])` for a run of digits. */
  function DecimalValue(s: string, i: nat, n: nat): nat
    requires i + n <= |s|
  {
    if n == 0 then 0 else 10 * DecimalValue(s, i, n - 1) + DigitOf(s[i + n - 1])
  }

  /** A parsed component and the position after it. */
  datatype Parsed<T> = Parsed(value: T, next: nat)

  function ParseRelease(s: string, i: nat): (r: Parsed<seq<nat>>)
    requires i < |s| && IsDigit(s[i])
    ensures i < r.next <= |s| && |r.value| > 0
    decreases |s| - i
  {
    var n := DigitRun(s, i);
    var v := DecimalValue(s, i, n);
    var j := i + n;
    if j + 1 < |s| && s[j] == '.' && IsDigit(s[j + 1]) then
      var rest := ParseRelease(s, j + 1);
      Parsed([v] + rest.value, rest.next)
    else
      Parsed([v], j)
  }

  predicate KeywordAt(s: string, i: nat, w: string)
  {
    i + |w| <= |s| && OccursAt(s, w, i)
  }

  /** The pre-release letter at `i` and its length, longest spelling first
      ("Pre-release spelling": alpha = a, beta = b, c = rc). */
  function PreLetter(s: string, i: nat): Option<Parsed<PreKind>>
  {
    if KeywordAt(s, i, "alpha") then Some(Parsed(Alpha, i + 5))
    else if KeywordAt(s, i, "a") then Some(Parsed(Alpha, i + 1))
    else if KeywordAt(s, i, "beta") then Some(Parsed(Beta, i + 4))
    else if KeywordAt(s, i, "b") then Some(Parsed(Beta, i + 1))
    else if KeywordAt(s, i, "rc") then Some(Parsed(Candidate, i + 2))
    else if KeywordAt(s, i, "c") then Some(Parsed(Candidate, i + 1))
    else None
  }

  /** Where the number of a pre-release letter ending before `j` starts: a
      separator between the two belongs to the pre-release when digits
      follow it, as the greedy `[-_\.]?` of the pattern takes it. */
  function PreNumberStart(s: string, j: nat): (k: nat)
    requires j <= |s|
    ensures j <= k <= |s|
  {
    if j + 1 < |s| && IsSeparator(s[j]) && IsDigit(s[j + 1]) then j + 1 else j
  }

  /** An optional pre-release; a missing number means 0. */
  function ParsePre(s: string, i: nat): (r: Parsed<Option<Pre>>)
    requires i <= |s|
    ensures i <= r.next <= |s|
  {
    match PreLetter(s, i)
    case None => Parsed(None, i)
    case Some(letter) =>
      assert letter.next <= |s|;
      var j := PreNumberStart(s, letter.next);
      var n := DigitRun(s, j);
      Parsed(Some(Pre(letter.value, DecimalValue(s, j, n))), j + n)
  }

  /** An optional post-release: the implicit `-N` or `.postN` (a missing
      number means 0). */
  function ParsePost(s: string, i: nat): (r: Parsed<Option<nat>>)
    requires i <= |s|
    ensures i <= r.next <= |s|
  {
    if i + 1 < |s| && s[i] == '-' && IsDigit(s[i + 1]) then
      var n := DigitRun(s, i + 1);
      Parsed(Some(DecimalValue(s, i + 1, n)), i + 1 + n)
    else if KeywordAt(s, i, ".post") then
      var n := DigitRun(s, i + 5);
      Parsed(Some(DecimalValue(s, i + 5, n)), i + 5 + n)
    else
      Parsed(None, i)
  }

  function LocalRun(s: string, i: nat): (n: nat)
    requires i <= |s|
    ensures i + n <= |s|
    decreases |s| - i
  {
    if i < |s| && IsLocalChar(s[i]) then 1 + LocalRun(s, i + 1) else 0
  }

  lemma {:induction false} LocalRunChars(s: string, i: nat)
    requires i <= |s|
    ensures forall k :: i <= k < i + LocalRun(s, i) ==> IsLocalChar(s[k])
    decreases |s| - i
  {
    if i < |s| && IsLocalChar(s[i]) {
      LocalRunChars(s, i + 1);
    }
  }

  function AllDigitsBetween(s: string, i: nat, j: nat): bool
    requires i <= j <= |s|
    decreases j - i
  {
    i == j || (IsDigit(s[i]) && AllDigitsBetween(s, i + 1, j))
  }

  lemma {:induction false} AllDigitsBetweenMeaning(s: string, i: nat, j: nat)
    requires i <= j <= |s|
    ensures AllDigitsBetween(s, i, j) <==> forall k :: i <= k < j ==> IsDigit(s[k])
    decreases j - i
  {
    if i < j {
      AllDigitsBetweenMeaning(s, i + 1, j);
    }
  }

  function Segment(s: string, i: nat, n: nat): LocalSegment
    requires i + n <= |s|
  {
    if AllDigitsBetween(s, i, i + n) then Numeric(DecimalValue(s, i, n)) else Alphanumeric(s[i..i + n])
  }

  /** Segments of a local label, starting at a local character. */
  function ParseSegments(s: string, i: nat): (r: Parsed<seq<LocalSegment>>)
    requires i < |s| && IsLocalChar(s[i])
    ensures i < r.next <= |s| && |r.value| > 0
    decreases |s| - i
  {
    var n := LocalRun(s, i);
    var seg := Segment(s, i, n);
    var j := i + n;
    if j + 1 < |s| && IsSeparator(s[j]) && IsLocalChar(s[j + 1]) then
      var rest := ParseSegments(s, j + 1);
      Parsed([seg] + rest.value, rest.next)
    else
      Parsed([seg], j)
  }

  /** An optional `+label`. */
  function ParseLocal(s: string, i: nat): (r: Parsed<seq<LocalSegment>>)
    requires i <= |s|
    ensures i <= r.next <= |s|
  {
    if i + 1 < |s| && s[i] == '+' && IsLocalChar(s[i + 1]) then ParseSegments(s, i + 1)
    else Parsed([], i)
  }

  /** `packaging.version.parse`, restricted to the modelled subset. */
  function Parse(s: string): (r: Result<Pep440>)
    ensures r.Ok? ==> |r.value.release| > 0
    ensures r.Err? ==> r.error == InvalidVersion
    ensures s == [] || !IsDigit(s[0]) ==> r.Err?
  {
    if s == [] || !IsDigit(s[0]) then Err(InvalidVersion)
    else
      var release := ParseRelease(s, 0);
      var pre := ParsePre(s, release.next);
      var post := ParsePost(s, pre.next);
      var local := ParseLocal(s, post.next);
      if local.next == |s| then Ok(Pep440(release.value, pre.value, post.value, local.value))
      else Err(InvalidVersion)
  }

  lemma SegmentParsedWellFormed(s: string, i: nat, n: nat)
    requires i + n <= |s|
    requires n > 0 && forall k :: i <= k < i + n ==> IsLocalChar(s[k])
    ensures SegmentWellFormed(Segment(s, i, n))
  {
    AllDigitsBetweenMeaning(s, i, i + n);
    if !AllDigitsBetween(s, i, i + n) {
      var k :| i <= k < i + n && !IsDigit(s[k]);
      assert s[i..i + n][k - i] == s[k];
    }
  }

  lemma {:induction false} SegmentsParsedWellFormed(s: string, i: nat)
    requires i < |s| && IsLocalChar(s[i])
    ensures forall k :: 0 <= k < |ParseSegments(s, i).value| ==> SegmentWellFormed(ParseSegments(s, i).value[k])
    decreases |s| - i
  {
    var n := LocalRun(s, i);
    LocalRunChars(s, i);
    SegmentParsedWellFormed(s, i, n);
    var j := i + n;
    if j + 1 < |s| && IsSeparator(s[j]) && IsLocalChar(s[j + 1]) {
      SegmentsParsedWellFormed(s, j + 1);
    }
  }

  /** Whatever `parse` accepts is a well-formed version. */
  lemma ParseWellFormed(s: string)
    ensures Parse(s).Ok? ==> WellFormed(Parse(s).value)
  {
    if Parse(s).Ok? {
      var release := ParseRelease(s, 0);
      var pre := ParsePre(s, release.next);
      var post := ParsePost(s, pre.next);
      if post.next + 1 < |s| && s[post.next] == '+' && IsLocalChar(s[post.next + 1]) {
        SegmentsParsedWellFormed(s, post.next + 1);
      }
    }
  }

  // ---------------------------------------------------------------------
  // packaging's canonical text of a version, and the round trip
  // ---------------------------------------------------------------------

  function JoinRelease(rel: seq<nat>): (r: string)
    ensures |rel| > 0 ==> |r| > 0 && IsDigit(r[0])
  {
    if rel == [] then "" else if |rel| == 1 then NatToString(rel[0]) else NatToString(rel[0]) + "." + JoinRelease(rel[1..])
  }

  function PreLetterText(k: PreKind): string
  {
    match k
    case Alpha => "a"
    case Beta => "b"
    case Candidate => "rc"
  }

  function RenderPre(p: Option<Pre>): string
  {
    match p
    case None => ""
    case Some(q) => PreLetterText(q.kind) + NatToString(q.number)
  }

  function RenderPost(p: Option<nat>): string
  {
    match p
    case None => ""
    case Some(n) => ".post" + NatToString(n)
  }

  function SegmentText(x: LocalSegment): string
  {
    match x
    case Numeric(n) => NatToString(n)
    case Alphanumeric(t) => t
  }

  function JoinLocal(segs: seq<LocalSegment>): string
    requires |segs| > 0
  {
    if |segs| == 1 then SegmentText(segs[0]) else SegmentText(segs[0]) + "." + JoinLocal(segs[1..])
  }

  function RenderLocal(local: seq<LocalSegment>): string
  {
    if local == [] then "" else "+" + JoinLocal(local)
  }

  /** `str(Version)`: release, pre-release, `.postN`, `+label`. */
  function Render(v: Pep440): string
  {
    JoinRelease(v.release) + RenderPre(v.pre) + RenderPost(v.post) + RenderLocal(v.local)
  }

  /** `x` is found in `s` at position `i`. */
  predicate At(s: string, i: nat, x: string)
  {
    i + |x| <= |s| && OccursAt(s, x, i)
  }

  lemma AtSlice(s: string, i: nat, x: string)
    ensures At(s, i, x) <==> i + |x| <= |s| && s[i..i + |x|] == x
  {
    if i + |x| <= |s| {
      OccursFromSlice(s, x, i, 0);
      assert x[0..] == x;
    }
  }

  lemma AtSplit(s: string, i: nat, x: string, y: string)
    requires At(s, i, x + y)
    ensures At(s, i, x) && At(s, i + |x|, y)
  {
    AtSlice(s, i, x + y);
    AtSlice(s, i, x);
    AtSlice(s, i + |x|, y);
    assert s[i..i + |x|] == s[i..i + |x| + |y|][..|x|];
    assert s[i + |x|..i + |x| + |y|] == s[i..i + |x| + |y|][|x|..];
  }

  lemma AtChar(s: string, i: nat, x: string, k: nat)
    requires At(s, i, x) && k < |x|
    ensures s[i + k] == x[k]
  {
    AtSlice(s, i, x);
    assert s[i..i + |x|][k] == s[i + k];
  }

  lemma AtKeyword(s: string, i: nat, w: string)
    requires At(s, i, w)
    ensures KeywordAt(s, i, w)
  {
  }

  lemma KeywordMismatch(s: string, i: nat, w: string, k: nat)
    requires k < |w| && i + k < |s| && s[i + k] != w[k]
    ensures !KeywordAt(s, i, w)
  {
    if i + |w| <= |s| {
      OccursAtChars(s, w, i);
    }
  }

  lemma {:induction false} DigitRunExact(s: string, i: nat, m: nat)
    requires i + m <= |s|
    requires forall k :: i <= k < i + m ==> IsDigit(s[k])
    requires i + m < |s| ==> !IsDigit(s[i + m])
    ensures DigitRun(s, i) == m
    decreases m
  {
    if m > 0 {
      DigitRunExact(s, i + 1, m - 1);
    }
  }

  lemma {:induction false} DecimalOfDigits(s: string, i: nat, n: nat)
    requires At(s, i, NatToString(n))
    ensures forall k :: i <= k < i + |NatToString(n)| ==> IsDigit(s[k])
    ensures DecimalValue(s, i, |NatToString(n)|) == n
    decreases n
  {
    var d := NatToString(n);
    forall k | i <= k < i + |d|
      ensures IsDigit(s[k])
    {
      AtChar(s, i, d, k - i);
    }
    AtChar(s, i, d, |d| - 1);
    if n >= 10 {
      var h := NatToString(n / 10);
      assert d == h + [DigitChar(n % 10)];
      AtSplit(s, i, h, [DigitChar(n % 10)]);
      DecimalOfDigits(s, i, n / 10);
    }
  }

  /** The decimal text of `n`, not followed by a digit, reads back as `n`. */
  lemma NumberAt(s: string, i: nat, n: nat)
    requires At(s, i, NatToString(n))
    requires i + |NatToString(n)| < |s| ==> !IsDigit(s[i + |NatToString(n)|])
    ensures DigitRun(s, i) == |NatToString(n)|
    ensures DecimalValue(s, i, |NatToString(n)|) == n
  {
    DecimalOfDigits(s, i, n);
    DigitRunExact(s, i, |NatToString(n)|);
  }

  lemma ConsSplit<T>(xs: seq<T>)
    requires |xs| > 0
    ensures [xs[0]] + xs[1..] == xs
  {
  }

  lemma Singleton<T>(xs: seq<T>)
    requires |xs| == 1
    ensures xs == [xs[0]]
  {
  }

  predicate ReleaseEnds(s: string, j: nat)
  {
    && (j < |s| ==> !IsDigit(s[j]))
    && !(j + 1 < |s| && s[j] == '.' && IsDigit(s[j + 1]))
  }

  lemma ReleaseStop(s: string, i: nat, x: nat, m: nat)
    requires i < |s| && IsDigit(s[i])
    requires DigitRun(s, i) == m && DecimalValue(s, i, m) == x
    requires ReleaseEnds(s, i + m)
    ensures ParseRelease(s, i) == Parsed([x], i + m)
  {
  }

  lemma ReleaseContinue(s: string, i: nat, x: nat, m: nat, rest: seq<nat>, next: nat)
    requires i < |s| && IsDigit(s[i])
    requires DigitRun(s, i) == m && DecimalValue(s, i, m) == x
    requires i + m + 1 < |s| && s[i + m] == '.' && IsDigit(s[i + m + 1])
    requires ParseRelease(s, i + m + 1) == Parsed(rest, next)
    ensures ParseRelease(s, i) == Parsed([x] + rest, next)
  {
  }

  lemma DotSplit(s: string, i: nat, t: string, more: string)
    requires At(s, i, t + ("." + more))
    ensures At(s, i, t) && At(s, i + |t| + 1, more) && s[i + |t|] == '.'
  {
    AtSplit(s, i, t, "." + more);
    AtSplit(s, i + |t|, ".", more);
    AtChar(s, i + |t|, ".", 0);
  }

  lemma ReleaseLast(s: string, i: nat, x: nat)
    requires At(s, i, NatToString(x))
    requires ReleaseEnds(s, i + |NatToString(x)|)
    requires i < |s| && IsDigit(s[i])
    ensures ParseRelease(s, i) == Parsed([x], i + |NatToString(x)|)
  {
    NumberAt(s, i, x);
    ReleaseStop(s, i, x, |NatToString(x)|);
  }

  lemma {:induction false} ReleaseRoundTrip(s: string, i: nat, rel: seq<nat>)
    requires |rel| > 0 && At(s, i, JoinRelease(rel))
    requires ReleaseEnds(s, i + |JoinRelease(rel)|)
    requires i < |s| && IsDigit(s[i])
    ensures ParseRelease(s, i) == Parsed(rel, i + |JoinRelease(rel)|)
    decreases |rel|
  {
    var d := NatToString(rel[0]);
    if |rel| == 1 {
      ReleaseLast(s, i, rel[0]);
      Singleton(rel);
    } else {
      var more := JoinRelease(rel[1..]);
      var j := i + |d|;
      assert JoinRelease(rel) == d + ("." + more);
      DotSplit(s, i, d, more);
      AtChar(s, j + 1, more, 0);
      NumberAt(s, i, rel[0]);
      ReleaseRoundTrip(s, j + 1, rel[1..]);
      ReleaseContinue(s, i, rel[0], |d|, rel[1..], i + |JoinRelease(rel)|);
      ConsSplit(rel);
    }
  }

  predicate PreEnds(s: string, j: nat)
  {
    j < |s| ==> s[j] == '.' || s[j] == '-' || s[j] == '+'
  }

  /** A rendered pre-release letter followed by a digit is read as that letter. */
  lemma PreLetterAt(s: string, i: nat, k: PreKind)
    requires At(s, i, PreLetterText(k))
    requires i + |PreLetterText(k)| < |s| && IsDigit(s[i + |PreLetterText(k)|])
    ensures PreLetter(s, i) == Some(Parsed(k, i + |PreLetterText(k)|))
  {
    var letter := PreLetterText(k);
    AtChar(s, i, letter, 0);
    AtKeyword(s, i, letter);
    match k {
      case Alpha =>
        KeywordMismatch(s, i, "alpha", 1);
      case Beta =>
        KeywordMismatch(s, i, "alpha", 0);
        KeywordMismatch(s, i, "a", 0);
        KeywordMismatch(s, i, "beta", 1);
      case Candidate =>
        KeywordMismatch(s, i, "alpha", 0);
        KeywordMismatch(s, i, "a", 0);
        KeywordMismatch(s, i, "beta", 0);
        KeywordMismatch(s, i, "b", 0);
    }
  }

  lemma PreNumber(s: string, i: nat, k: PreKind, j: nat, m: nat, n: nat)
    requires i <= |s| && PreLetter(s, i) == Some(Parsed(k, j)) && j <= |s|
    requires PreNumberStart(s, j) == j
    requires DigitRun(s, j) == m && DecimalValue(s, j, m) == n
    ensures ParsePre(s, i) == Parsed(Some(Pre(k, n)), j + m)
  {
  }

  lemma PreAbsent(s: string, i: nat)
    requires i <= |s| && PreEnds(s, i)
    ensures ParsePre(s, i) == Parsed(None, i)
  {
    if i < |s| {
      KeywordMismatch(s, i, "alpha", 0);
      KeywordMismatch(s, i, "a", 0);
      KeywordMismatch(s, i, "beta", 0);
      KeywordMismatch(s, i, "b", 0);
      KeywordMismatch(s, i, "rc", 0);
      KeywordMismatch(s, i, "c", 0);
    }
  }

  lemma PrePresent(s: string, i: nat, q: Pre)
    requires At(s, i, RenderPre(Some(q))) && PreEnds(s, i + |RenderPre(Some(q))|)
    ensures ParsePre(s, i) == Parsed(Some(q), i + |RenderPre(Some(q))|)
  {
    var letter, d := PreLetterText(q.kind), NatToString(q.number);
    AtSplit(s, i, letter, d);
    AtChar(s, i + |letter|, d, 0);
    PreLetterAt(s, i, q.kind);
    NumberAt(s, i + |letter|, q.number);
    PreNumber(s, i, q.kind, i + |letter|, |d|, q.number);
  }

  lemma PreRoundTrip(s: string, i: nat, p: Option<Pre>)
    requires At(s, i, RenderPre(p)) && PreEnds(s, i + |RenderPre(p)|)
    ensures ParsePre(s, i) == Parsed(p, i + |RenderPre(p)|)
  {
    if p.None? {
      PreAbsent(s, i);
    } else {
      PrePresent(s, i, p.value);
    }
  }

  predicate PostEnds(s: string, j: nat)
  {
    j < |s| ==> s[j] == '+'
  }

  lemma PostRoundTrip(s: string, i: nat, p: Option<nat>)
    requires At(s, i, RenderPost(p)) && PostEnds(s, i + |RenderPost(p)|)
    ensures ParsePost(s, i) == Parsed(p, i + |RenderPost(p)|)
  {
    match p
    case None =>
      if i < |s| {
        KeywordMismatch(s, i, ".post", 0);
      }
    case Some(n) =>
      var d := NatToString(n);
      AtSplit(s, i, ".post", d);
      AtChar(s, i, ".post", 0);
      AtKeyword(s, i, ".post");
      NumberAt(s, i + 5, n);
  }

  lemma {:induction false} LocalRunExact(s: string, i: nat, m: nat)
    requires i + m <= |s|
    requires forall k :: i <= k < i + m ==> IsLocalChar(s[k])
    requires i + m < |s| ==> !IsLocalChar(s[i + m])
    ensures LocalRun(s, i) == m
    decreases m
  {
    if m > 0 {
      LocalRunExact(s, i + 1, m - 1);
    }
  }

  /** A well-formed segment's text, followed by a non-local character or the
      end, reads back as the segment. */
  lemma SegmentAt(s: string, i: nat, x: LocalSegment)
    requires SegmentWellFormed(x) && At(s, i, SegmentText(x))
    requires i + |SegmentText(x)| < |s| ==> !IsLocalChar(s[i + |SegmentText(x)|])
    ensures i < |s| && IsLocalChar(s[i])
    ensures LocalRun(s, i) == |SegmentText(x)|
    ensures Segment(s, i, |SegmentText(x)|) == x
  {
    var t := SegmentText(x);
    forall k | i <= k < i + |t|
      ensures IsLocalChar(s[k])
    {
      AtChar(s, i, t, k - i);
    }
    LocalRunExact(s, i, |t|);
    AllDigitsBetweenMeaning(s, i, i + |t|);
    match x
    case Numeric(n) =>
      DecimalOfDigits(s, i, n);
    case Alphanumeric(_) =>
      var k :| 0 <= k < |t| && !IsDigit(t[k]);
      AtChar(s, i, t, k);
      AtSlice(s, i, t);
  }

  lemma SegmentsStop(s: string, i: nat, m: nat, x: LocalSegment)
    requires i < |s| && IsLocalChar(s[i])
    requires LocalRun(s, i) == m && i + m == |s| && Segment(s, i, m) == x
    ensures ParseSegments(s, i) == Parsed([x], |s|)
  {
  }

  lemma SegmentsContinue(s: string, i: nat, m: nat, x: LocalSegment, rest: seq<LocalSegment>)
    requires i < |s| && IsLocalChar(s[i])
    requires LocalRun(s, i) == m && Segment(s, i, m) == x
    requires i + m + 1 < |s| && s[i + m] == '.' && IsLocalChar(s[i + m + 1])
    requires ParseSegments(s, i + m + 1) == Parsed(rest, |s|)
    ensures ParseSegments(s, i) == Parsed([x] + rest, |s|)
  {
  }

  lemma {:induction false} SegmentsRoundTrip(s: string, i: nat, segs: seq<LocalSegment>)
    requires |segs| > 0 && forall k :: 0 <= k < |segs| ==> SegmentWellFormed(segs[k])
    requires At(s, i, JoinLocal(segs)) && i + |JoinLocal(segs)| == |s|
    ensures i < |s| && IsLocalChar(s[i])
    ensures ParseSegments(s, i) == Parsed(segs, |s|)
    decreases |segs|
  {
    var x := segs[0];
    var t := SegmentText(x);
    assert SegmentWellFormed(x);
    if |segs| == 1 {
      assert JoinLocal(segs) == t;
      Singleton(segs);
      SegmentAt(s, i, x);
      SegmentsStop(s, i, |t|, x);
    } else {
      var more := JoinLocal(segs[1..]);
      assert JoinLocal(segs) == t + ("." + more);
      DotSplit(s, i, t, more);
      SegmentAt(s, i, x);
      SegmentsRoundTrip(s, i + |t| + 1, segs[1..]);
      SegmentsContinue(s, i, |t|, x, segs[1..]);
      ConsSplit(segs);
    }
  }

  lemma LocalRoundTrip(s: string, i: nat, local: seq<LocalSegment>)
    requires forall k :: 0 <= k < |local| ==> SegmentWellFormed(local[k])
    requires At(s, i, RenderLocal(local)) && i + |RenderLocal(local)| == |s|
    ensures ParseLocal(s, i) == Parsed(local, |s|)
  {
    if local != [] {
      AtSplit(s, i, "+", JoinLocal(local));
      AtChar(s, i, "+", 0);
      SegmentsRoundTrip(s, i + 1, local);
    }
  }

  lemma ParseSteps(s: string, rel: seq<nat>, pre: Option<Pre>, post: Option<nat>, local: seq<LocalSegment>, j1: nat, j2: nat, j3: nat)
    requires s != [] && IsDigit(s[0])
    requires ParseRelease(s, 0) == Parsed(rel, j1)
    requires j1 <= |s| && ParsePre(s, j1) == Parsed(pre, j2)
    requires j2 <= |s| && ParsePost(s, j2) == Parsed(post, j3)
    requires j3 <= |s| && ParseLocal(s, j3) == Parsed(local, |s|)
    ensures Parse(s) == Ok(Pep440(rel, pre, post, local))
  {
  }

  lemma PostEndsAt(s: string, i: nat, d: string)
    requires At(s, i, d) && |s| == i + |d|
    requires d != [] ==> d[0] == '+'
    ensures PostEnds(s, i)
  {
    if d != [] {
      AtChar(s, i, d, 0);
    }
  }

  lemma PreEndsAt(s: string, i: nat, c: string, d: string)
    requires At(s, i, c) && At(s, i + |c|, d) && |s| == i + |c| + |d|
    requires c != [] ==> c[0] == '.'
    requires d != [] ==> d[0] == '+'
    ensures PreEnds(s, i)
  {
    if c != [] {
      AtChar(s, i, c, 0);
    } else if d != [] {
      AtChar(s, i, d, 0);
    }
  }

  lemma ReleaseEndsAt(s: string, i: nat, b: string, c: string, d: string)
    requires At(s, i, b) && At(s, i + |b|, c) && At(s, i + |b| + |c|, d) && |s| == i + |b| + |c| + |d|
    requires b != [] ==> IsAsciiLower(b[0])
    requires c != [] ==> |c| > 1 && c[0] == '.' && c[1] == 'p'
    requires d != [] ==> d[0] == '+'
    ensures ReleaseEnds(s, i)
  {
    if b != [] {
      AtChar(s, i, b, 0);
    } else if c != [] {
      AtChar(s, i, c, 0);
      AtChar(s, i, c, 1);
    } else if d != [] {
      AtChar(s, i, d, 0);
    }
  }

  lemma RenderFirstChars(v: Pep440)
    ensures RenderPre(v.pre) != [] ==> IsAsciiLower(RenderPre(v.pre)[0])
    ensures RenderPost(v.post) != [] ==> |RenderPost(v.post)| > 1 && RenderPost(v.post)[0] == '.' && RenderPost(v.post)[1] == 'p'
    ensures RenderLocal(v.local) != [] ==> RenderLocal(v.local)[0] == '+'
  {
  }

  lemma RenderPieces(v: Pep440, s: string, a: string, b: string, c: string, d: string)
    requires |v.release| > 0 && s == Render(v)
    requires a == JoinRelease(v.release) && b == RenderPre(v.pre) && c == RenderPost(v.post) && d == RenderLocal(v.local)
    ensures |s| == |a| + |b| + |c| + |d|
    ensures At(s, 0, a) && At(s, |a|, b) && At(s, |a| + |b|, c) && At(s, |a| + |b| + |c|, d)
  {
    AtSlice(s, 0, s);
    AtSplit(s, 0, a + b + c, d);
    AtSplit(s, 0, a + b, c);
    AtSplit(s, 0, a, b);
  }

  lemma TailRoundTrip(s: string, i: nat, post: Option<nat>, local: seq<LocalSegment>, c: string, d: string)
    requires forall k :: 0 <= k < |local| ==> SegmentWellFormed(local[k])
    requires c == RenderPost(post) && d == RenderLocal(local)
    requires At(s, i, c) && At(s, i + |c|, d) && |s| == i + |c| + |d|
    requires PostEnds(s, i + |c|)
    ensures ParsePost(s, i) == Parsed(post, i + |c|)
    ensures ParseLocal(s, i + |c|) == Parsed(local, |s|)
  {
    PostRoundTrip(s, i, post);
    LocalRoundTrip(s, i + |c|, local);
  }

  lemma LayoutEnds(v: Pep440, s: string, a: string, b: string, c: string, d: string)
    requires |v.release| > 0
    requires a == JoinRelease(v.release) && b == RenderPre(v.pre) && c == RenderPost(v.post) && d == RenderLocal(v.local)
    requires |s| == |a| + |b| + |c| + |d|
    requires At(s, 0, a) && At(s, |a|, b) && At(s, |a| + |b|, c) && At(s, |a| + |b| + |c|, d)
    ensures s != [] && IsDigit(s[0])
    ensures ReleaseEnds(s, |a|) && PreEnds(s, |a| + |b|) && PostEnds(s, |a| + |b| + |c|)
  {
    AtChar(s, 0, a, 0);
    RenderFirstChars(v);
    PostEndsAt(s, |a| + |b| + |c|, d);
    PreEndsAt(s, |a| + |b|, c, d);
    ReleaseEndsAt(s, |a|, b, c, d);
  }

  lemma ReleaseAt(s: string, rel: seq<nat>, a: string)
    requires |rel| > 0 && a == JoinRelease(rel) && At(s, 0, a) && ReleaseEnds(s, |a|)
    requires s != [] && IsDigit(s[0])
    ensures ParseRelease(s, 0) == Parsed(rel, |a|)
  {
    ReleaseRoundTrip(s, 0, rel);
  }

  lemma PreAt(s: string, i: nat, p: Option<Pre>, b: string)
    requires b == RenderPre(p) && At(s, i, b) && PreEnds(s, i + |b|)
    ensures ParsePre(s, i) == Parsed(p, i + |b|)
  {
    PreRoundTrip(s, i, p);
  }

  lemma HeadRoundTrip(v: Pep440, s: string, a: string, b: string, c: string, d: string)
    requires |v.release| > 0
    requires a == JoinRelease(v.release) && b == RenderPre(v.pre) && c == RenderPost(v.post) && d == RenderLocal(v.local)
    requires |s| == |a| + |b| + |c| + |d|
    requires At(s, 0, a) && At(s, |a|, b) && At(s, |a| + |b|, c) && At(s, |a| + |b| + |c|, d)
    ensures |s| > 0 && IsDigit(s[0])
    ensures ParseRelease(s, 0) == Parsed(v.release, |a|)
    ensures ParsePre(s, |a|) == Parsed(v.pre, |a| + |b|)
    ensures PostEnds(s, |a| + |b| + |c|)
  {
    LayoutEnds(v, s, a, b, c, d);
    ReleaseAt(s, v.release, a);
    PreAt(s, |a|, v.pre, b);
  }

  /** A text laid out as the four rendered parts of `v` parses as `v`. */
  lemma ParseLayout(v: Pep440, s: string, a: string, b: string, c: string, d: string)
    requires WellFormed(v)
    requires a == JoinRelease(v.release) && b == RenderPre(v.pre) && c == RenderPost(v.post) && d == RenderLocal(v.local)
    requires |s| == |a| + |b| + |c| + |d|
    requires At(s, 0, a) && At(s, |a|, b) && At(s, |a| + |b|, c) && At(s, |a| + |b| + |c|, d)
    ensures Parse(s) == Ok(v)
  {
    HeadRoundTrip(v, s, a, b, c, d);
    TailRoundTrip(s, |a| + |b|, v.post, v.local, c, d);
    ParseSteps(s, v.release, v.pre, v.post, v.local, |a|, |a| + |b|, |a| + |b| + |c|);
  }

  /** Every version `parse` can return is read back from its canonical text:
      `parse(str(v)) == v`. */
  lemma ParseRender(v: Pep440)
    requires WellFormed(v)
    ensures Parse(Render(v)) == Ok(v)
  {
    var s, a, b, c, d := Render(v), JoinRelease(v.release), RenderPre(v.pre), RenderPost(v.post), RenderLocal(v.local);
    RenderPieces(v, s, a, b, c, d);
    ParseLayout(v, s, a, b, c, d);
  }

  // ---------------------------------------------------------------------
  // AddonVersion
  // ---------------------------------------------------------------------

  datatype AddonVersion = AddonVersion(version: Pep440)

  /** Does the string carry a legacy `~beta` or `~alpha` marker? */
  predicate HasTildeMarker(s: string)
  {
    Contains(s, "~beta") || Contains(s, "~alpha")
  }

  /** The string AddonVersion hands to `parse`: every `~` removed when a
      legacy marker is present, then lower-cased (versions.py:17-20). */
  function Normalize(s: string): (r: string)
    ensures forall i :: 0 <= i < |r| ==> !IsAsciiUpper(r[i])
    ensures HasTildeMarker(s) ==> '~' !in r
    ensures !HasTildeMarker(s) ==> r == Lower(s)
    ensures '~' !in s ==> r == Lower(s)
  {
    Lower(if HasTildeMarker(s) then RemoveAll(s, '~') else s)
  }

  /** `AddonVersion(s)` for a string `s`. */
  function NewAddonVersion(s: string): Result<AddonVersion>
  {
    var v :- Parse(Normalize(s));
    Ok(AddonVersion(v))
  }

  /** `AddonVersion(x)` for an attribute value that may be `None`: the
      substring test on `None` raises `TypeError`. */
  function AddonVersionOf(x: Option<string>): (r: Result<AddonVersion>)
    ensures x.None? ==> r == Err(TypeError)
    ensures x.Some? ==> r == NewAddonVersion(x.value)
  {
    if x.None? then Err(TypeError) else NewAddonVersion(x.value)
  }

  /** The right-hand side of a comparison: an AddonVersion or anything else. */
  datatype Operand = Version(v: AddonVersion) | Foreign

  function Lt(a: AddonVersion, b: Operand): Result<bool>
  {
    if !b.Version? then Err(TypeError) else Ok(Compare(a.version, b.v.version) == Less)
  }

  function Le(a: AddonVersion, b: Operand): Result<bool>
  {
    if !b.Version? then Err(TypeError) else Ok(Compare(a.version, b.v.version) != Greater)
  }

  function Eq(a: AddonVersion, b: Operand): bool
  {
    b.Version? && Compare(a.version, b.v.version) == Equal
  }

  function Ne(a: AddonVersion, b: Operand): bool
  {
    !b.Version? || Compare(a.version, b.v.version) != Equal
  }

  function Gt(a: AddonVersion, b: Operand): Result<bool>
  {
    if !b.Version? then Err(TypeError) else Ok(Compare(a.version, b.v.version) == Greater)
  }

  function Ge(a: AddonVersion, b: Operand): Result<bool>
  {
    if !b.Version? then Err(TypeError) else Ok(Compare(a.version, b.v.version) != Less)
  }

  /** Ordering an AddonVersion against anything else raises `TypeError`;
      equality is false and inequality true. */
  lemma ForeignOperand(a: AddonVersion)
    ensures Lt(a, Foreign) == Le(a, Foreign) == Gt(a, Foreign) == Ge(a, Foreign) == Err(TypeError)
    ensures !Eq(a, Foreign) && Ne(a, Foreign)
  {
  }

  /** Between two AddonVersions the six operators agree with one another:
      exactly one of <, ==, > holds, <= and >= are their unions, > is < with
      the operands swapped, and != is the negation of ==. */
  lemma OperatorLaws(a: AddonVersion, b: AddonVersion)
    ensures Lt(a, Version(b)).Ok? && Le(a, Version(b)).Ok? && Gt(a, Version(b)).Ok? && Ge(a, Version(b)).Ok?
    ensures Lt(a, Version(b)).value || Eq(a, Version(b)) || Gt(a, Version(b)).value
    ensures !(Lt(a, Version(b)).value && Eq(a, Version(b)))
    ensures !(Lt(a, Version(b)).value && Gt(a, Version(b)).value)
    ensures !(Eq(a, Version(b)) && Gt(a, Version(b)).value)
    ensures Le(a, Version(b)).value <==> Lt(a, Version(b)).value || Eq(a, Version(b))
    ensures Ge(a, Version(b)).value <==> Gt(a, Version(b)).value || Eq(a, Version(b))
    ensures Gt(a, Version(b)) == Lt(b, Version(a))
    ensures Eq(a, Version(b)) == Eq(b, Version(a))
    ensures Ne(a, Version(b)) == !Eq(a, Version(b))
  {
    CompareLaws(a.version, b.version, b.version);
  }

  /** `<` between AddonVersions is a strict order and `==` an equivalence. */
  lemma OrderLaws(a: AddonVersion, b: AddonVersion, c: AddonVersion)
    ensures !Lt(a, Version(a)).value && Eq(a, Version(a))
    ensures Lt(a, Version(b)).value && Lt(b, Version(c)).value ==> Lt(a, Version(c)).value
    ensures Le(a, Version(b)).value && Le(b, Version(c)).value ==> Le(a, Version(c)).value
    ensures Eq(a, Version(b)) && Eq(b, Version(c)) ==> Eq(a, Version(c))
    ensures Eq(a, Version(b)) ==> Lt(a, Version(c)) == Lt(b, Version(c))
  {
    CompareLaws(a.version, b.version, c.version);
    CompareLaws(a.version, a.version, a.version);
    var ab, bc, ac := Compare(a.version, b.version), Compare(b.version, c.version), Compare(a.version, c.version);
    if ab != Greater && bc != Greater && ab != bc && ab != Equal && bc != Equal {
      assert false;
    }
  }

  /** Lower-casing commutes with removing `~`. */
  lemma {:induction false} RemoveFromLower(s: string, i: nat)
    requires i <= |s|
    ensures RemoveFrom(Lower(s), '~', i) == Lower(RemoveFrom(s, '~', i))
    decreases |s| - i
  {
    if i < |s| {
      RemoveFromLower(s, i + 1);
    }
  }

  /** Case does not matter as long as the legacy marker is detected alike in
      `s` and in `s.lower()` (versions.py:17-20). */
  lemma CaseInsensitive(s: string)
    requires HasTildeMarker(s) == HasTildeMarker(Lower(s))
    ensures Normalize(Lower(s)) == Normalize(s)
    ensures NewAddonVersion(Lower(s)) == NewAddonVersion(s)
  {
    LowerIdempotent(s);
    if HasTildeMarker(s) {
      assert s[0..] == s;
      assert Lower(s)[0..] == Lower(s);
      RemoveFromLower(s, 0);
      LowerIdempotent(RemoveAll(s, '~'));
    }
  }

  /** `1.0` followed by neither a digit nor `.digit` is the release [1, 0]. */
  lemma ReleaseOneZero(s: string)
    requires 3 <= |s| && s[0] == '1' && s[1] == '.' && s[2] == '0' && ReleaseEnds(s, 3)
    ensures ParseRelease(s, 0) == Parsed([1, 0], 3)
  {
    DigitRunExact(s, 0, 1);
    DigitRunExact(s, 2, 1);
    assert DecimalValue(s, 0, 1) == 1 && DecimalValue(s, 2, 1) == 0;
    ReleaseStop(s, 2, 0, 1);
    ReleaseContinue(s, 0, 1, 1, [0], 3);
    assert [1] + [0] == [1, 0];
  }

  /** With the marker in upper case no `~` is removed. */
  lemma UpperCaseMarkerKept()
    ensures !HasTildeMarker("1.0~BETA1")
    ensures Normalize("1.0~BETA1") == Lower("1.0~BETA1") == "1.0~beta1"
  {
    var upper := "1.0~BETA1";
    NotContainsMissingChar(upper, "~beta", 1);
    NotContainsMissingChar(upper, "~alpha", 1);
    assert Lower(upper) == "1.0~beta1";
  }

  /** A `~` left in place makes `1.0~beta1` no version at all. */
  lemma TildeRejected()
    ensures Parse("1.0~beta1") == Err(InvalidVersion)
  {
    var s := "1.0~beta1";
    assert |s| == 9 && s[3] == '~';
    ReleaseOneZero(s);
    KeywordMismatch(s, 3, "alpha", 0);
    KeywordMismatch(s, 3, "a", 0);
    KeywordMismatch(s, 3, "beta", 0);
    KeywordMismatch(s, 3, "b", 0);
    KeywordMismatch(s, 3, "rc", 0);
    KeywordMismatch(s, 3, "c", 0);
    KeywordMismatch(s, 3, ".post", 0);
    assert PreLetter(s, 3).None?;
    assert ParsePre(s, 3) == Parsed(None, 3);
    assert ParsePost(s, 3) == Parsed(None, 3);
    assert ParseLocal(s, 3) == Parsed([], 3);
  }

  lemma UpperCaseMarkerRejected()
    ensures NewAddonVersion("1.0~BETA1") == Err(InvalidVersion)
  {
    UpperCaseMarkerKept();
    TildeRejected();
  }

  /** The lower-case marker is detected and every `~` removed. */
  lemma LowerCaseMarkerRemoved()
    ensures HasTildeMarker("1.0~beta1")
    ensures Normalize("1.0~beta1") == "1.0beta1"
  {
    var marked := "1.0~beta1";
    assert OccursAt(marked, "~beta", 3);
    assert RemoveAll(marked, '~') == "1.0beta1";
    assert Lower("1.0beta1") == "1.0beta1";
  }

  /** `1.0beta1` is the beta pre-release 1 of release 1.0. */
  lemma BetaSpelling()
    ensures Parse("1.0beta1") == Ok(Pep440([1, 0], Some(Pre(Beta, 1)), None, []))
  {
    var s := "1.0beta1";
    ReleaseOneZero(s);
    BetaOneAt(s);
    assert ParsePost(s, 8) == Parsed(None, 8);
    assert ParseLocal(s, 8) == Parsed([], 8);
  }

  /** In `1.0beta1`, `beta1` after the release is the beta pre-release 1. */
  lemma BetaOneAt(s: string)
    requires s == "1.0beta1"
    ensures ParsePre(s, 3) == Parsed(Some(Pre(Beta, 1)), 8)
  {
    KeywordMismatch(s, 3, "alpha", 0);
    KeywordMismatch(s, 3, "a", 0);
    assert s[3..7] == "beta";
    AtSlice(s, 3, "beta");
    AtKeyword(s, 3, "beta");
    assert PreLetter(s, 3) == Some(Parsed(Beta, 7));
    DigitRunExact(s, 7, 1);
    assert DecimalValue(s, 7, 1) == 1;
  }

  /** A separator between the pre-release letter and its number belongs to
      the pre-release: `1.0a-1` is the alpha pre-release 1, not `1.0a0`
      with the post-release 1. */
  lemma SeparatedPreNumber()
    ensures Parse("1.0a-1") == Ok(Pep440([1, 0], Some(Pre(Alpha, 1)), None, []))
  {
    var s := "1.0a-1";
    ReleaseOneZero(s);
    AlphaOneAt(s);
    assert ParsePost(s, 6) == Parsed(None, 6);
    assert ParseLocal(s, 6) == Parsed([], 6);
  }

  /** In `1.0a-1`, `a-1` after the release is the alpha pre-release 1. */
  lemma AlphaOneAt(s: string)
    requires s == "1.0a-1"
    ensures ParsePre(s, 3) == Parsed(Some(Pre(Alpha, 1)), 6)
  {
    KeywordMismatch(s, 3, "alpha", 1);
    assert s[3..4] == "a";
    AtSlice(s, 3, "a");
    AtKeyword(s, 3, "a");
    assert PreLetter(s, 3) == Some(Parsed(Alpha, 4));
    assert PreNumberStart(s, 4) == 5;
    DigitRunExact(s, 5, 1);
    assert DecimalValue(s, 5, 1) == 1;
  }

  /** The legacy form `1.0~beta1` is read as the beta pre-release `1.0b1`. */
  lemma LowerCaseMarkerAccepted()
    ensures NewAddonVersion("1.0~beta1") == Ok(AddonVersion(Pep440([1, 0], Some(Pre(Beta, 1)), None, [])))
  {
    LowerCaseMarkerRemoved();
    BetaSpelling();
  }

  /** Case does matter for the legacy marker: `"1.0~BETA1".lower()` is
      `"1.0~beta1"`, yet only the latter is a version. */
  lemma CaseMattersForUpperCaseMarker()
    ensures NewAddonVersion("1.0~BETA1") != NewAddonVersion(Lower("1.0~BETA1"))
  {
    UpperCaseMarkerKept();
    UpperCaseMarkerRejected();
    LowerCaseMarkerAccepted();
  }

  // ---------------------------------------------------------------------
  // The orderings the test suite asserts (tests/test_versions.py)
  // ---------------------------------------------------------------------

  /** No `~` and no upper case: text that normalisation leaves alone. */
  predicate Plain(s: string)
  {
    forall i :: 0 <= i < |s| ==> s[i] != '~' && !IsAsciiUpper(s[i])
  }

  lemma PlainConcat(a: string, b: string)
    requires Plain(a) && Plain(b)
    ensures Plain(a + b)
  {
    assert forall i :: 0 <= i < |a + b| ==> (a + b)[i] == if i < |a| then a[i] else b[i - |a|];
  }

  lemma PlainNumber(n: nat)
    ensures Plain(NatToString(n))
  {
  }

  lemma {:induction false} PlainRelease(rel: seq<nat>)
    requires |rel| > 0
    ensures Plain(JoinRelease(rel))
    decreases |rel|
  {
    PlainNumber(rel[0]);
    if |rel| > 1 {
      PlainRelease(rel[1..]);
      PlainConcat(NatToString(rel[0]), ".");
      PlainConcat(NatToString(rel[0]) + ".", JoinRelease(rel[1..]));
    }
  }

  lemma {:induction false} PlainLocal(segs: seq<LocalSegment>)
    requires |segs| > 0 && forall k :: 0 <= k < |segs| ==> SegmentWellFormed(segs[k])
    ensures Plain(JoinLocal(segs))
    decreases |segs|
  {
    assert SegmentWellFormed(segs[0]);
    if segs[0].Numeric? {
      PlainNumber(segs[0].value);
    }
    if |segs| > 1 {
      assert forall k :: 0 <= k < |segs[1..]| ==> segs[1..][k] == segs[k + 1];
      PlainLocal(segs[1..]);
      PlainConcat(SegmentText(segs[0]), ".");
      PlainConcat(SegmentText(segs[0]) + ".", JoinLocal(segs[1..]));
    }
  }

  /** packaging's canonical text never holds `~` or upper case. */
  lemma PlainRender(v: Pep440)
    requires WellFormed(v)
    ensures Plain(Render(v))
  {
    PlainRelease(v.release);
    var a, b, c, d := JoinRelease(v.release), RenderPre(v.pre), RenderPost(v.post), RenderLocal(v.local);
    if v.pre.Some? {
      PlainNumber(v.pre.value.number);
      PlainConcat(PreLetterText(v.pre.value.kind), NatToString(v.pre.value.number));
    }
    if v.post.Some? {
      PlainNumber(v.post.value);
      PlainConcat(".post", NatToString(v.post.value));
    }
    if v.local != [] {
      PlainLocal(v.local);
      PlainConcat("+", JoinLocal(v.local));
    }
    PlainConcat(a, b);
    PlainConcat(a + b, c);
    PlainConcat(a + b + c, d);
  }

  /** `AddonVersion(str(v))` is `v` for every version `parse` can return:
      the canonical text survives normalisation unchanged. */
  lemma Canonical(v: Pep440)
    requires WellFormed(v)
    ensures Normalize(Render(v)) == Render(v)
    ensures NewAddonVersion(Render(v)) == Ok(AddonVersion(v))
  {
    var s := Render(v);
    PlainRender(v);
    assert '~' !in s;
    assert Lower(s) == s;
    ParseRender(v);
  }

  /** `AddonVersion(x) > AddonVersion(y)` holds (and neither raises). */
  predicate Newer(x: string, y: string)
  {
    NewAddonVersion(x).Ok? && NewAddonVersion(y).Ok?
    && Gt(NewAddonVersion(x).value, Version(NewAddonVersion(y).value)) == Ok(true)
  }

  lemma LabelMatrix()
    ensures ValidLabel("matrix") && ValidLabel("leia")
  {
    assert !IsDigit("matrix"[0]) && !IsDigit("leia"[0]);
  }

  lemma Reads100()
    ensures NewAddonVersion("1.0.0") == Ok(AddonVersion(Pep440([1, 0, 0], None, None, [])))
  {
    assert Render(Pep440([1, 0, 0], None, None, [])) == "1.0.0";
    Canonical(Pep440([1, 0, 0], None, None, []));
  }

  lemma Reads2260()
    ensures NewAddonVersion("2.26.0") == Ok(AddonVersion(Pep440([2, 26, 0], None, None, [])))
  {
    assert Render(Pep440([2, 26, 0], None, None, [])) == "2.26.0";
    Canonical(Pep440([2, 26, 0], None, None, []));
  }

  lemma Reads101()
    ensures NewAddonVersion("1.0.1") == Ok(AddonVersion(Pep440([1, 0, 1], None, None, [])))
  {
    assert Render(Pep440([1, 0, 1], None, None, [])) == "1.0.1";
    Canonical(Pep440([1, 0, 1], None, None, []));
  }

  lemma Reads110()
    ensures NewAddonVersion("1.1.0") == Ok(AddonVersion(Pep440([1, 1, 0], None, None, [])))
  {
    assert Render(Pep440([1, 1, 0], None, None, [])) == "1.1.0";
    Canonical(Pep440([1, 1, 0], None, None, []));
  }

  lemma Reads200()
    ensures NewAddonVersion("2.0.0") == Ok(AddonVersion(Pep440([2, 0, 0], None, None, [])))
  {
    assert Render(Pep440([2, 0, 0], None, None, [])) == "2.0.0";
    Canonical(Pep440([2, 0, 0], None, None, []));
  }

  lemma Reads0541()
    ensures NewAddonVersion("0.5.4.1") == Ok(AddonVersion(Pep440([0, 5, 4, 1], None, None, [])))
  {
    assert Render(Pep440([0, 5, 4, 1], None, None, [])) == "0.5.4.1";
    Canonical(Pep440([0, 5, 4, 1], None, None, []));
  }

  lemma ReadsMatrix100Text()
    ensures Render(Pep440([1, 0, 0], None, None, [Alphanumeric("matrix"), Numeric(1)])) == "1.0.0+matrix.1"
  {
  }

  lemma ReadsMatrix100()
    ensures NewAddonVersion("1.0.0+matrix.1") == Ok(AddonVersion(Pep440([1, 0, 0], None, None, [Alphanumeric("matrix"), Numeric(1)])))
  {
    LabelMatrix();
    ReadsMatrix100Text();
    Canonical(Pep440([1, 0, 0], None, None, [Alphanumeric("matrix"), Numeric(1)]));
  }

  lemma ReadsLeia100Text()
    ensures Render(Pep440([1, 0, 0], None, None, [Alphanumeric("leia"), Numeric(1)])) == "1.0.0+leia.1"
  {
  }

  lemma ReadsLeia100()
    ensures NewAddonVersion("1.0.0+leia.1") == Ok(AddonVersion(Pep440([1, 0, 0], None, None, [Alphanumeric("leia"), Numeric(1)])))
  {
    LabelMatrix();
    ReadsLeia100Text();
    Canonical(Pep440([1, 0, 0], None, None, [Alphanumeric("leia"), Numeric(1)]));
  }

  lemma ReadsMatrix054Text()
    ensures Render(Pep440([0, 5, 4], None, None, [Alphanumeric("matrix"), Numeric(1)])) == "0.5.4+matrix.1"
  {
  }

  lemma ReadsMatrix054()
    ensures NewAddonVersion("0.5.4+matrix.1") == Ok(AddonVersion(Pep440([0, 5, 4], None, None, [Alphanumeric("matrix"), Numeric(1)])))
  {
    LabelMatrix();
    ReadsMatrix054Text();
    Canonical(Pep440([0, 5, 4], None, None, [Alphanumeric("matrix"), Numeric(1)]));
  }

  /** Greater versions read from `x` and `y` make `x > y` hold. */
  lemma NewerBy(x: string, y: string, vx: Pep440, vy: Pep440)
    requires NewAddonVersion(x) == Ok(AddonVersion(vx)) && NewAddonVersion(y) == Ok(AddonVersion(vy))
    requires Compare(vx, vy) == Greater
    ensures Newer(x, y)
  {
  }

  /** The comparisons behind the tested orderings. */
  lemma TestedComparisons()
    ensures Compare(Pep440([1, 0, 1], None, None, []), Pep440([1, 0, 0], None, None, [])) == Greater
    ensures Compare(Pep440([1, 1, 0], None, None, []), Pep440([1, 0, 0], None, None, [])) == Greater
    ensures Compare(Pep440([2, 0, 0], None, None, []), Pep440([1, 0, 0], None, None, [])) == Greater
  {
  }

  /** 1.0.1 > 1.0.0: the patch number decides. */
  lemma PatchIsNewer()
    ensures Newer("1.0.1", "1.0.0")
  {
    Reads101();
    Reads100();
    TestedComparisons();
    NewerBy("1.0.1", "1.0.0", Pep440([1, 0, 1], None, None, []), Pep440([1, 0, 0], None, None, []));
  }

  /** 1.1.0 > 1.0.0: the minor number decides. */
  lemma MinorIsNewer()
    ensures Newer("1.1.0", "1.0.0")
  {
    Reads110();
    Reads100();
    TestedComparisons();
    NewerBy("1.1.0", "1.0.0", Pep440([1, 1, 0], None, None, []), Pep440([1, 0, 0], None, None, []));
  }

  /** 2.0.0 > 1.0.0: the major number decides. */
  lemma MajorIsNewer()
    ensures Newer("2.0.0", "1.0.0")
  {
    Reads200();
    Reads100();
    TestedComparisons();
    NewerBy("2.0.0", "1.0.0", Pep440([2, 0, 0], None, None, []), Pep440([1, 0, 0], None, None, []));
  }

  /** The comparisons behind the tested orderings of local labels. */
  lemma LocalComparisons()
    ensures Compare(Pep440([1, 0, 0], None, None, [Alphanumeric("matrix"), Numeric(1)]),
                    Pep440([1, 0, 0], None, None, [Alphanumeric("leia"), Numeric(1)])) == Greater
    ensures Compare(Pep440([0, 5, 4, 1], None, None, []),
                    Pep440([0, 5, 4], None, None, [Alphanumeric("matrix"), Numeric(1)])) == Greater
  {
    assert CompareText("matrix", "leia") == Greater;
  }

  /** Local labels decide between equal public versions: `matrix` > `leia`. */
  lemma LocalLabelIsCompared()
    ensures Newer("1.0.0+matrix.1", "1.0.0+leia.1")
  {
    ReadsMatrix100();
    ReadsLeia100();
    var vx := Pep440([1, 0, 0], None, None, [Alphanumeric("matrix"), Numeric(1)]);
    var vy := Pep440([1, 0, 0], None, None, [Alphanumeric("leia"), Numeric(1)]);
    LocalComparisons();
    NewerBy("1.0.0+matrix.1", "1.0.0+leia.1", vx, vy);
  }

  /** The public part decides first: 0.5.4.1 > 0.5.4+matrix.1. */
  lemma ReleaseBeatsLocal()
    ensures Newer("0.5.4.1", "0.5.4+matrix.1")
  {
    Reads0541();
    ReadsMatrix054();
    var vx := Pep440([0, 5, 4, 1], None, None, []);
    var vy := Pep440([0, 5, 4], None, None, [Alphanumeric("matrix"), Numeric(1)]);
    LocalComparisons();
    NewerBy("0.5.4.1", "0.5.4+matrix.1", vx, vy);
  }
}
