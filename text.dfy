/** The few Python `str` operations the checker relies on, over `seq<char>`.

    Only ASCII case mapping is modelled (see README). */
module Text {

  import opened Outcome

  predicate IsDigit(c: char) { '0' <= c <= '9' }

  predicate IsAsciiUpper(c: char) { 'A' <= c <= 'Z' }

  predicate IsAsciiLower(c: char) { 'a' <= c <= 'z' }

  predicate IsAsciiAlnum(c: char) { IsDigit(c) || IsAsciiUpper(c) || IsAsciiLower(c) }

  /** Whitespace as `str.isspace()` and `str.strip()` see it: the control
      characters 9 to 13 and 28 to 31, the space, and the Unicode spaces
      and line and paragraph separators. */
  predicate IsSpace(c: char)
  {
    || 9 <= c as int <= 13 || 28 <= c as int <= 32
    || c as int == 0x85 || c as int == 0xA0 || c as int == 0x1680
    || 0x2000 <= c as int <= 0x200A || c as int == 0x2028 || c as int == 0x2029
    || c as int == 0x202F || c as int == 0x205F || c as int == 0x3000
  }

  function LowerChar(c: char): (r: char)
    ensures !IsAsciiUpper(r)
    ensures !IsAsciiUpper(c) ==> r == c
    ensures IsAsciiUpper(c) ==> IsAsciiLower(r)
  {
    if IsAsciiUpper(c) then (c as int + 32) as char else c
  }

  /** `s.lower()` */
  function Lower(s: string): (r: string)
    ensures |r| == |s|
    ensures forall i :: 0 <= i < |s| ==> r[i] == LowerChar(s[i])
  {
    seq(|s|, i requires 0 <= i < |s| => LowerChar(s[i]))
  }

  lemma LowerIdempotent(s: string)
    ensures Lower(Lower(s)) == Lower(s)
  {
  }

  /** Does `sub` occur in `s` at position `i`?  Checked character by character. */
  function OccursFrom(s: string, sub: string, i: nat, k: nat): bool
    requires i + |sub| <= |s| && k <= |sub|
    decreases |s| - (i + k)
  {
    if k == |sub| then true
    else s[i + k] == sub[k] && OccursFrom(s, sub, i, k + 1)
  }

  lemma {:induction false} OccursFromSlice(s: string, sub: string, i: nat, k: nat)
    requires i + |sub| <= |s| && k <= |sub|
    ensures OccursFrom(s, sub, i, k) <==> s[i + k..i + |sub|] == sub[k..]
    decreases |s| - (i + k)
  {
    if k < |sub| {
      OccursFromSlice(s, sub, i, k + 1);
      assert s[i + k..i + |sub|] == [s[i + k]] + s[i + k + 1..i + |sub|];
      assert sub[k..] == [sub[k]] + sub[k + 1..];
    }
  }

  predicate OccursAt(s: string, sub: string, i: nat)
    requires i + |sub| <= |s|
  {
    OccursFrom(s, sub, i, 0)
  }

  function ContainsFrom(s: string, sub: string, i: nat): bool
    decreases |s| - i
  {
    if i + |sub| > |s| then false
    else OccursAt(s, sub, i) || ContainsFrom(s, sub, i + 1)
  }

  /** The search from `i` succeeds exactly when `sub` occurs at some
      position from `i` on. */
  lemma {:induction false} ContainsFromMeans(s: string, sub: string, i: nat)
    ensures ContainsFrom(s, sub, i) <==> exists j :: i <= j && j + |sub| <= |s| && OccursAt(s, sub, j)
    decreases |s| - i
  {
    if i + |sub| <= |s| {
      ContainsFromMeans(s, sub, i + 1);
      assert forall j :: i <= j && j + |sub| <= |s| && OccursAt(s, sub, j) ==> j == i || i + 1 <= j;
    }
  }

  /** `sub in s` */
  predicate Contains(s: string, sub: string) { ContainsFrom(s, sub, 0) }

  lemma OccursAtChars(s: string, sub: string, i: nat)
    requires i + |sub| <= |s|
    ensures OccursAt(s, sub, i) ==> forall k :: 0 <= k < |sub| ==> s[i + k] == sub[k]
  {
    OccursFromSlice(s, sub, i, 0);
    if OccursAt(s, sub, i) {
      assert s[i..i + |sub|] == sub[0..] == sub;
      forall k | 0 <= k < |sub|
        ensures s[i + k] == sub[k]
      {
        assert s[i..i + |sub|][k] == s[i + k];
      }
    }
  }

  /** A string cannot contain a text one of whose characters it lacks. */
  lemma NotContainsMissingChar(s: string, sub: string, k: nat)
    requires k < |sub| && sub[k] !in s
    ensures !Contains(s, sub)
  {
    ContainsFromMeans(s, sub, 0);
    forall j: nat | j + |sub| <= |s|
      ensures !OccursAt(s, sub, j)
    {
      OccursAtChars(s, sub, j);
    }
  }

  function RemoveFrom(s: string, c: char, i: nat): string
    requires i <= |s|
    decreases |s| - i
  {
    if i == |s| then [] else if s[i] == c then RemoveFrom(s, c, i + 1) else [s[i]] + RemoveFrom(s, c, i + 1)
  }

  lemma {:induction false} RemoveFromMembers(s: string, c: char, i: nat)
    requires i <= |s|
    ensures forall x :: x in RemoveFrom(s, c, i) <==> x in s[i..] && x != c
    ensures c !in s[i..] ==> RemoveFrom(s, c, i) == s[i..]
    decreases |s| - i
  {
    if i < |s| {
      RemoveFromMembers(s, c, i + 1);
      assert s[i..] == [s[i]] + s[i + 1..];
    }
  }

  /** `s.replace(c, "")` for a single character `c` */
  function RemoveAll(s: string, c: char): (r: string)
    ensures c !in r
    ensures forall x :: x in r <==> x in s && x != c
    ensures c !in s ==> r == s
  {
    RemoveFromMembers(s, c, 0);
    assert s[0..] == s;
    RemoveFrom(s, c, 0)
  }

  predicate StartsWith(s: string, prefix: string) { |prefix| <= |s| && s[..|prefix|] == prefix }

  predicate EndsWith(s: string, suffix: string) { |suffix| <= |s| && s[|s| - |suffix|..] == suffix }

  /** `s.rfind(c)`, as an option: the last position of `c` in `s`. */
  function LastIndexOf(s: string, c: char, end: nat := |s|): Option<nat>
    requires end <= |s|
    decreases end
  {
    if end == 0 then None
    else if s[end - 1] == c then Some(end - 1)
    else LastIndexOf(s, c, end - 1)
  }

  /** The position found holds `c` and no later one before `end` does;
      nothing is found exactly when `c` does not occur before `end`. */
  lemma {:induction false} LastIndexOfFinds(s: string, c: char, end: nat)
    requires end <= |s|
    ensures var r := LastIndexOf(s, c, end);
            && (r.None? <==> c !in s[..end])
            && (r.Some? ==> r.value < end && s[r.value] == c && c !in s[r.value + 1..end])
    decreases end
  {
    if end > 0 && s[end - 1] != c {
      LastIndexOfFinds(s, c, end - 1);
      assert s[..end] == s[..end - 1] + [s[end - 1]];
      var r := LastIndexOf(s, c, end - 1);
      if r.Some? {
        assert s[r.value + 1..end] == s[r.value + 1..end - 1] + [s[end - 1]];
      }
    }
  }

  function DigitValue(c: char): nat requires IsDigit(c) { c as nat - '0' as nat }

  function DigitChar(d: nat): (c: char)
    requires d < 10
    ensures IsDigit(c) && DigitValue(c) == d
  {
    ('0' as nat + d) as char
  }

  /** `str(n)` for a natural number. */
  function NatToString(n: nat): (r: string)
    ensures |r| > 0 && forall i :: 0 <= i < |r| ==> IsDigit(r[i])
    decreases n
  {
    if n < 10 then [DigitChar(n)] else NatToString(n / 10) + [DigitChar(n % 10)]
  }

  /** `"".join(parts)` */
  function Concat(parts: seq<string>): (r: string)
    ensures |parts| == 0 ==> r == ""
    ensures |parts| > 0 ==> StartsWith(r, parts[0])
  {
    if parts == [] then "" else parts[0] + Concat(parts[1..])
  }

  function LeadingSpaces(s: string, i: nat := 0): (n: nat)
    requires i <= |s|
    ensures i <= n <= |s| && (n < |s| ==> !IsSpace(s[n]))
    ensures forall k :: i <= k < n ==> IsSpace(s[k])
    decreases |s| - i
  {
    if i < |s| && IsSpace(s[i]) then LeadingSpaces(s, i + 1) else i
  }

  function TrailingEnd(s: string, e: nat): (n: nat)
    requires e <= |s|
    ensures n <= e && (n > 0 ==> !IsSpace(s[n - 1]))
    ensures forall k :: n <= k < e ==> IsSpace(s[k])
    decreases e
  {
    if e > 0 && IsSpace(s[e - 1]) then TrailingEnd(s, e - 1) else e
  }

  /** `s.strip()`: the text between the leading and the trailing whitespace. */
  function Strip(s: string): (r: string)
    ensures |r| == 0 || (!IsSpace(r[0]) && !IsSpace(r[|r| - 1]))
    ensures exists i, j :: 0 <= i <= j <= |s| && r == s[i..j]
  {
    var i := LeadingSpaces(s);
    var j := TrailingEnd(s, |s|);
    if j <= i then s[0..0] else s[i..j]
  }

  /** `"{}".format(x)` for a value that is a string or `None`. */
  function Show(x: Option<string>): string
  {
    if x.None? then "None" else x.value
  }
}
