/**
 * Per-language statistics, the final reduction of a running sum and count
 * into an integer average, and the insertion-ordered `jobs_stats` mapping
 * from language name to statistics.
 */
module Stats {

  /** The three values stored per language, in the order `values()` lists them. */
  datatype LanguageStats = LanguageStats(vacanciesFound: int, vacanciesProcessed: nat, averageSalary: int)

  /** Python's `int()` on a number: truncation toward zero. */
  function Truncate(x: real): (n: int)
    ensures x >= 0.0 ==> n >= 0 && n as real <= x < n as real + 1.0
    ensures x < 0.0 ==> n <= 0 && n as real - 1.0 < x <= n as real
  {
    if x >= 0.0 then x.Floor else -((-x).Floor)
  }

  /**
   * `int(sum / processed) if processed else 0`: no division happens when
   * nothing was processed; otherwise the mean truncated toward zero.
   */
  function AverageSalary(predictedSalary: real, vacanciesProcessed: nat): (a: int)
    ensures vacanciesProcessed == 0 ==> a == 0
    ensures predictedSalary >= 0.0 ==> a >= 0
  {
    if vacanciesProcessed == 0 then 0 else Truncate(predictedSalary / vacanciesProcessed as real)
  }

  /**
   * With a non-negative sum, the average is the integer mean rounded down:
   * `a` processed vacancies' worth of `a` fits in the sum, `a + 1` does not.
   */
  lemma AverageIsIntegerMean(predictedSalary: real, vacanciesProcessed: nat)
    requires vacanciesProcessed > 0 && predictedSalary >= 0.0
    ensures var a := AverageSalary(predictedSalary, vacanciesProcessed);
              a as real * vacanciesProcessed as real <= predictedSalary < (a + 1) as real * vacanciesProcessed as real
  {
    MeanBounds(predictedSalary, vacanciesProcessed as real, AverageSalary(predictedSalary, vacanciesProcessed));
  }

  lemma MeanBounds(s: real, p: real, a: int)
    requires p > 0.0
    requires s >= 0.0 ==> a as real <= s / p < a as real + 1.0
    ensures s >= 0.0 ==> a as real * p <= s < (a + 1) as real * p
  {
    if s >= 0.0 {
      var q := s / p;
      assert q * p == s;
      MulLess(q, (a + 1) as real, p);
      MulAtMost(a as real, q, p);
      assert q * p < (a + 1) as real * p;
      assert s < (a + 1) as real * p;
    }
  }

  lemma MulLess(x: real, y: real, p: real)
    requires x < y && p > 0.0
    ensures x * p < y * p
  {
    assert (y - x) * p > 0.0;
  }

  lemma MulAtMost(x: real, y: real, p: real)
    requires x <= y && p > 0.0
    ensures x * p <= y * p
  {
    assert (y - x) * p >= 0.0;
  }

  /** The statistics an accumulator `(sum, processed, found)` is reduced to. */
  function Finalize(predictedSalary: real, vacanciesProcessed: nat, vacanciesFound: int): (st: LanguageStats)
    ensures st.vacanciesFound == vacanciesFound && st.vacanciesProcessed == vacanciesProcessed
    ensures st.averageSalary == AverageSalary(predictedSalary, vacanciesProcessed)
  {
    LanguageStats(vacanciesFound, vacanciesProcessed, AverageSalary(predictedSalary, vacanciesProcessed))
  }

  // ---------------------------------------------------------------------
  // `jobs_stats`: a Python dict from language name to statistics, as its
  // list of items in insertion order.

  type JobsStats = seq<(string, LanguageStats)>

  function Keys(d: JobsStats): (ks: seq<string>)
    ensures |ks| == |d| && forall k :: 0 <= k < |d| ==> ks[k] == d[k].0
  {
    seq(|d|, k requires 0 <= k < |d| => d[k].0)
  }

  predicate Distinct(ks: seq<string>) {
    forall i, j :: 0 <= i < j < |ks| ==> ks[i] != ks[j]
  }

  /**
   * `d[key] = value`: a key already present keeps its position and takes the
   * new value; a new key goes to the end.
   */
  function Put(d: JobsStats, key: string, value: LanguageStats): JobsStats {
    if d == [] then [(key, value)]
    else if d[0].0 == key then [(key, value)] + d[1..]
    else [d[0]] + Put(d[1..], key, value)
  }

  /** `Put` keeps the key order and appends a new key at the end. */
  lemma {:induction false} PutKeys(d: JobsStats, key: string, value: LanguageStats)
    ensures key in Keys(d) ==> Keys(Put(d, key, value)) == Keys(d)
    ensures key !in Keys(d) ==> Keys(Put(d, key, value)) == Keys(d) + [key]
  {
    if d != [] {
      var t := d[1..];
      assert d == [d[0]] + t;
      KeysCons(d[0], t);
      if d[0].0 != key {
        assert Put(d, key, value) == [d[0]] + Put(t, key, value);
        PutKeys(t, key, value);
        KeysCons(d[0], Put(t, key, value));
        assert key in Keys(d) <==> key in Keys(t);
        assert [d[0].0] + (Keys(t) + [key]) == ([d[0].0] + Keys(t)) + [key];
      } else {
        assert Put(d, key, value) == [(key, value)] + t;
        KeysCons((key, value), t);
        assert Keys(d)[0] == key;
      }
    }
  }

  lemma KeysCons(x: (string, LanguageStats), d: JobsStats)
    ensures Keys([x] + d) == [x.0] + Keys(d)
  {
    var xd := [x] + d;
    var l, r := Keys(xd), [x.0] + Keys(d);
    forall k | 0 <= k < |l| ensures l[k] == r[k] {
      if k > 0 {
        assert xd[k] == d[k - 1];
      }
    }
    assert l == r;
  }

  /** After `Put` the key maps to the value and every other entry is untouched. */
  lemma {:induction false} PutEntries(d: JobsStats, key: string, value: LanguageStats)
    ensures (key, value) in Put(d, key, value)
    ensures |Put(d, key, value)| >= |d|
    ensures forall k :: 0 <= k < |d| && d[k].0 != key ==> Put(d, key, value)[k] == d[k]
  {
    if d != [] && d[0].0 != key {
      PutEntries(d[1..], key, value);
      var r, t := Put(d, key, value), Put(d[1..], key, value);
      assert r == [d[0]] + t;
      forall k | 0 <= k < |d| && d[k].0 != key ensures r[k] == d[k] {
        if k > 0 {
          assert r[k] == t[k - 1] && d[1..][k - 1] == d[k];
        }
      }
    }
  }

  /** `Put` keeps the keys distinct; the key then occurs once, with the value. */
  lemma PutDistinct(d: JobsStats, key: string, value: LanguageStats)
    requires Distinct(Keys(d))
    ensures Distinct(Keys(Put(d, key, value)))
    ensures forall k :: 0 <= k < |Put(d, key, value)| && Put(d, key, value)[k].0 == key ==> Put(d, key, value)[k].1 == value
  {
    PutKeys(d, key, value);
    PutEntries(d, key, value);
    var r := Put(d, key, value);
    forall k | 0 <= k < |r| && r[k].0 == key ensures r[k].1 == value {
      var j :| 0 <= j < |r| && r[j] == (key, value);
      assert Keys(r)[j] == Keys(r)[k];
    }
  }

  /** The dict built by putting each pair in turn, starting empty. */
  function FromPairs(pairs: JobsStats): JobsStats {
    if pairs == [] then []
    else Put(FromPairs(pairs[..|pairs| - 1]), pairs[|pairs| - 1].0, pairs[|pairs| - 1].1)
  }

  /** The dict holds each key once, and exactly the keys that were put. */
  lemma {:induction false} FromPairsKeys(pairs: JobsStats)
    ensures Distinct(Keys(FromPairs(pairs)))
    ensures forall key :: key in Keys(FromPairs(pairs)) <==> key in Keys(pairs)
  {
    if pairs != [] {
      var init := pairs[..|pairs| - 1];
      FromPairsKeys(init);
      PutKeys(FromPairs(init), pairs[|pairs| - 1].0, pairs[|pairs| - 1].1);
      assert Keys(pairs) == Keys(init) + [pairs[|pairs| - 1].0];
    }
  }

  /** Putting pairs with distinct keys into an empty dict gives back those pairs, in order. */
  lemma {:induction false} FromDistinctPairs(pairs: JobsStats)
    requires Distinct(Keys(pairs))
    ensures FromPairs(pairs) == pairs
  {
    if pairs != [] {
      var init := pairs[..|pairs| - 1];
      var last := pairs[|pairs| - 1];
      assert Keys(init) == Keys(pairs)[..|pairs| - 1];
      assert Distinct(Keys(init));
      FromDistinctPairs(init);
      assert last.0 !in Keys(init) by {
        forall k | 0 <= k < |init| ensures Keys(init)[k] != last.0 {
          assert Keys(pairs)[k] != Keys(pairs)[|pairs| - 1];
        }
      }
      PutNew(init, last.0, last.1);
      assert init + [last] == pairs;
    }
  }

  lemma {:induction false} PutNew(d: JobsStats, key: string, value: LanguageStats)
    requires key !in Keys(d)
    ensures Put(d, key, value) == d + [(key, value)]
  {
    if d != [] {
      assert Keys(d[1..]) == Keys(d)[1..];
      PutNew(d[1..], key, value);
    }
  }

  /** Pairs each language with its statistics, position by position. */
  function Zip(languages: seq<string>, stats: seq<LanguageStats>): (pairs: JobsStats)
    requires |languages| == |stats|
    ensures |pairs| == |languages|
    ensures forall k :: 0 <= k < |pairs| ==> pairs[k] == (languages[k], stats[k])
  {
    seq(|languages|, k requires 0 <= k < |languages| => (languages[k], stats[k]))
  }

  /** `jobsStats` is what putting each language with its statistics in turn gives. */
  predicate FilledFrom(jobsStats: JobsStats, languages: seq<string>, stats: seq<LanguageStats>) {
    |languages| == |stats| && jobsStats == FromPairs(Zip(languages, stats))
  }

  /** The dict after `i + 1` languages is the dict after `i` with one more put. */
  lemma FilledFromPut(jobsStats: JobsStats, languages: seq<string>, done: seq<LanguageStats>, i: nat, st: LanguageStats)
    requires i < |languages| && FilledFrom(jobsStats, languages[..i], done)
    ensures FilledFrom(Put(jobsStats, languages[i], st), languages[..i + 1], done + [st])
  {
    var z := Zip(languages[..i + 1], done + [st]);
    assert z[i] == (languages[i], st);
    assert z[..i] == Zip(languages[..i], done) by {
      forall k | 0 <= k < i ensures z[..i][k] == Zip(languages[..i], done)[k] {
        assert (done + [st])[k] == done[k];
      }
    }
    assert FromPairs(z) == Put(FromPairs(z[..|z| - 1]), z[|z| - 1].0, z[|z| - 1].1);
  }

  /**
   * The filled dict has one entry per distinct language: its keys are
   * distinct and are exactly the languages that were put.
   */
  lemma FilledKeys(jobsStats: JobsStats, languages: seq<string>, stats: seq<LanguageStats>)
    requires FilledFrom(jobsStats, languages, stats)
    ensures Distinct(Keys(jobsStats))
    ensures forall language :: language in Keys(jobsStats) <==> language in languages
  {
    var z := Zip(languages, stats);
    FromPairsKeys(z);
    assert Keys(z) == languages;
  }

  /** With distinct language names, the entries are in input order, one per language. */
  lemma FilledInInputOrder(jobsStats: JobsStats, languages: seq<string>, stats: seq<LanguageStats>)
    requires FilledFrom(jobsStats, languages, stats) && Distinct(languages)
    ensures jobsStats == Zip(languages, stats)
    ensures Keys(jobsStats) == languages
  {
    var z := Zip(languages, stats);
    assert Keys(z) == languages;
    FromDistinctPairs(z);
  }
}
