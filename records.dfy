/** Log records: the low-level entries of a report (kodi_addon_checker/record.py). */
module Records {

  import opened Outcome

  const PROBLEM: string := "ERROR"
  const WARNING: string := "WARN"
  const INFORMATION: string := "INFO"

  /** The three standard levels are distinct, so a record's level says which
      counter of a report it belongs to. */
  lemma LevelsDistinct()
    ensures PROBLEM != WARNING && WARNING != INFORMATION && PROBLEM != INFORMATION
  {
    assert PROBLEM[0] != WARNING[0] && PROBLEM[0] != INFORMATION[0];
    assert WARNING[0] != INFORMATION[0];
  }

  /** `Record(log_level, message)`: both fields are stored as given. */
  datatype Record = Record(logLevel: string, message: string)

  /** `str(record)`: the level, a colon and a space, then the message. */
  function Text(r: Record): (t: string)
    ensures |t| == |r.logLevel| + 2 + |r.message|
    ensures t[..|r.logLevel|] == r.logLevel
    ensures t[|r.logLevel|..|r.logLevel| + 2] == ": "
    ensures t[|r.logLevel| + 2..] == r.message
  {
    r.logLevel + ": " + r.message
  }

  /** The level names contain no colon, so for a record with one of them the
      text determines the record. */
  lemma {:induction false} TextInjective(a: Record, b: Record)
    requires a.logLevel in {PROBLEM, WARNING, INFORMATION} && b.logLevel in {PROBLEM, WARNING, INFORMATION}
    requires Text(a) == Text(b)
    ensures a == b
  {
    var ta, tb := Text(a), Text(b);
    // the levels have four or five letters; the fifth character is ':' after
    // a four-letter level and the letter 'R' after "ERROR"
    assert ta[4] == (if |a.logLevel| == 4 then ':' else a.logLevel[4]);
    assert tb[4] == (if |b.logLevel| == 4 then ':' else b.logLevel[4]);
    assert |a.logLevel| == |b.logLevel|;
    assert a.logLevel == ta[..|a.logLevel|] == tb[..|b.logLevel|] == b.logLevel;
    assert a.message == ta[|a.logLevel| + 2..] == tb[|b.logLevel| + 2..] == b.message;
  }

  /** The records a loop adds over the first `n` items, in order, where
      `f` gives what its body adds for one item. */
  function Each<T>(items: seq<T>, n: nat, f: T -> seq<Record>): seq<Record>
    requires n <= |items|
  {
    if n == 0 then [] else Each(items, n - 1, f) + f(items[n - 1])
  }

  /** One more item adds what the body adds for it. */
  lemma EachStep<T>(items: seq<T>, n: nat, f: T -> seq<Record>)
    requires n < |items|
    ensures Each(items, n + 1, f) == Each(items, n, f) + f(items[n])
  {
  }

  /** Each record of such a loop comes from one item, and each item's
      records are among them. */
  lemma {:induction false} EachFrom<T>(items: seq<T>, n: nat, f: T -> seq<Record>, r: Record)
    requires n <= |items|
    ensures r in Each(items, n, f) <==> exists k :: 0 <= k < n && r in f(items[k])
  {
    if n > 0 {
      EachFrom(items, n - 1, f, r);
      if r in f(items[n - 1]) {
        assert 0 <= n - 1 < n && r in f(items[n - 1]);
      }
    }
  }

  /** A loop over the first `n` items of a longer list adds what it adds
      over those items alone. */
  lemma {:induction false} EachPrefix<T>(a: seq<T>, b: seq<T>, n: nat, f: T -> seq<Record>)
    requires n <= |a|
    ensures Each(a + b, n, f) == Each(a, n, f)
  {
    if n > 0 {
      EachPrefix(a, b, n - 1, f);
      assert (a + b)[n - 1] == a[n - 1];
    }
  }

  /** A loop over two lists in a row adds the records of the first, then
      those of the second. */
  lemma {:induction false} EachAppend<T>(a: seq<T>, b: seq<T>, f: T -> seq<Record>)
    ensures Each(a + b, |a + b|, f) == Each(a, |a|, f) + Each(b, |b|, f)
    decreases |b|
  {
    if b == [] {
      assert a + b == a;
    } else {
      var b' := b[..|b| - 1];
      assert a + b == (a + b') + [b[|b| - 1]];
      assert (a + b)[..|a + b| - 1] == a + b';
      EachAppend(a, b', f);
      EachPrefix(a + b', [b[|b| - 1]], |a + b'|, f);
      EachPrefix(b', [b[|b| - 1]], |b'|, f);
      assert b == b' + [b[|b| - 1]];
      assert Each(a + b, |a + b|, f) == Each(a + b, |a + b'|, f) + f(b[|b| - 1]);
      assert Each(b, |b|, f) == Each(b, |b'|, f) + f(b[|b| - 1]);
    }
  }

  /** What one check leaves behind: the records it added to its report, in
      order, and the exception that ended it early, if any. */
  datatype Run = Run(records: seq<Record>, raised: Option<Exception>)

  /** Records added before a run that continues with `rest`. */
  function Then(before: seq<Record>, rest: Run): (r: Run)
    ensures r.records == before + rest.records && r.raised == rest.raised
  {
    Run(before + rest.records, rest.raised)
  }
}
