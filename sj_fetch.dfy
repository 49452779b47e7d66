/**
 * The second provider's fetcher: for each language, request pages until a
 * page says no more results are available, retry the same page after an
 * HTTP error, and reduce the accumulated estimates to the language's
 * statistics.
 *
 * As for the first provider, the server is one finite stream of replies
 * shared by all languages in turn, and a run that uses it up before its
 * loop ends is reported as incomplete.
 */
module SjFetch {
  import opened Vacancies
  import opened Stats

  /** The loop's variables: `page`, `predicted_salary`, `vacancies_processed`, `vacancies_found`. */
  datatype State = State(page: int, predictedSalary: real, vacanciesProcessed: nat, vacanciesFound: int)

  /**
   * The values each language starts from. The source does not reset
   * `vacancies_found` per language: it is unbound for the first language,
   * and a later language starts with the previous language's total until
   * its first successful page. Every language starts at 0 here, and no
   * finished run shows the difference (see `Ending`).
   */
  const START: State := State(0, 0.0, 0, 0)

  /** What one language's loop did: its last state, the `page` sent with each request, and whether the loop ended. */
  datatype Run = Run(final: State, requests: seq<int>, complete: bool)

  /** The effect of one successful page on the loop's variables. */
  function Step(s: State, p: SjPage): State {
    var kept := Kept(SjEstimates(p.objects));
    State(s.page + 1, s.predictedSalary + Sum(kept), s.vacanciesProcessed + |kept|, p.total)
  }

  /**
   * A page advances `page` by one, takes `vacancies_found` from its
   * `total`, and adds exactly its usable estimates to the count and the sum.
   */
  lemma StepEffect(s: State, p: SjPage)
    ensures var t := Step(s, p);
              t.page == s.page + 1 && t.vacanciesFound == p.total &&
              t.vacanciesProcessed == s.vacanciesProcessed + CountUsable(SjEstimates(p.objects)) &&
              t.predictedSalary == s.predictedSalary + SumUsable(SjEstimates(p.objects))
  {
    KeptCount(SjEstimates(p.objects));
    KeptSum(SjEstimates(p.objects));
  }

  /**
   * The loop `while True` from state `s` against the replies `rs`: an HTTP
   * error changes nothing, a page is accumulated, and the loop breaks after
   * the first page whose `more` is false.
   */
  function Drive(s: State, rs: seq<Response<SjPage>>): (run: Run)
    ensures |run.requests| <= |rs|
    ensures !run.complete ==> |run.requests| == |rs|
    ensures run.complete ==> |run.requests| > 0
    decreases |rs|
  {
    if rs == [] then Run(s, [], false)
    else if rs[0].Ok? && !rs[0].page.more then Run(Step(s, rs[0].page), [s.page], true)
    else
      var next := Drive(After(s, rs[0]), rs[1..]);
      Run(next.final, [s.page] + next.requests, next.complete)
  }

  /** The loop's variables after one reply: an HTTP error changes nothing. */
  function After(s: State, r: Response<SjPage>): State {
    match r
    case HttpError => s
    case Ok(p) => Step(s, p)
  }

  /** The statistics one language's run is reduced to. */
  function StatsOf(run: Run): LanguageStats {
    Finalize(run.final.predictedSalary, run.final.vacanciesProcessed, run.final.vacanciesFound)
  }

  // ---------------------------------------------------------------------
  // Properties of one language's loop

  function Successes(rs: seq<Response<SjPage>>): nat {
    if rs == [] then 0 else (if rs[0].Ok? then 1 else 0) + Successes(rs[1..])
  }

  function ProcessedOver(rs: seq<Response<SjPage>>): nat {
    if rs == [] then 0
    else (if rs[0].Ok? then CountUsable(SjEstimates(rs[0].page.objects)) else 0) + ProcessedOver(rs[1..])
  }

  function SalaryOver(rs: seq<Response<SjPage>>): real {
    if rs == [] then 0.0
    else (if rs[0].Ok? then SumUsable(SjEstimates(rs[0].page.objects)) else 0.0) + SalaryOver(rs[1..])
  }

  /** The `total` of the last successful reply, or `found` when there is none. */
  function LastTotal(rs: seq<Response<SjPage>>, found: int): int {
    if rs == [] then found
    else LastTotal(rs[1..], if rs[0].Ok? then rs[0].page.total else found)
  }

  /**
   * Retry and advance: the first request asks for the current page; after
   * an HTTP error the next request asks for the same page again, after a
   * success for the next one.
   */
  lemma {:induction false} RequestPattern(s: State, rs: seq<Response<SjPage>>)
    ensures var req := Drive(s, rs).requests;
              (req != [] ==> req[0] == s.page) &&
              forall i :: 0 <= i < |req| - 1 ==> req[i + 1] == (if rs[i].HttpError? then req[i] else req[i] + 1)
    decreases |rs|
  {
    if rs != [] && !(rs[0].Ok? && !rs[0].page.more) {
      var s' := After(s, rs[0]);
      RequestPattern(s', rs[1..]);
      var req := Drive(s, rs).requests;
      var tail := Drive(s', rs[1..]).requests;
      assert req == [s.page] + tail;
      forall i | 0 <= i < |req| - 1
        ensures req[i + 1] == (if rs[i].HttpError? then req[i] else req[i] + 1)
      {
        if i > 0 {
          assert rs[1..][i - 1] == rs[i];
        }
      }
    }
  }

  /**
   * No page is counted twice and an error counts nothing: the run ends with
   * the starting values advanced by exactly the successful replies it
   * consumed, and `vacancies_found` is the `total` of the last of them.
   */
  lemma {:induction false} Accounting(s: State, rs: seq<Response<SjPage>>)
    ensures var run := Drive(s, rs);
              var used := rs[..|run.requests|];
              run.final.page == s.page + Successes(used) &&
              run.final.vacanciesProcessed == s.vacanciesProcessed + ProcessedOver(used) &&
              run.final.predictedSalary == s.predictedSalary + SalaryOver(used) &&
              run.final.vacanciesFound == LastTotal(used, s.vacanciesFound)
    decreases |rs|
  {
    if rs != [] {
      var run := Drive(s, rs);
      var used := rs[..|run.requests|];
      assert used[0] == rs[0];
      if rs[0].Ok? {
        StepEffect(s, rs[0].page);
      }
      if rs[0].Ok? && !rs[0].page.more {
        assert used == [rs[0]];
      } else {
        var s' := After(s, rs[0]);
        var next := Drive(s', rs[1..]);
        Accounting(s', rs[1..]);
        assert used[1..] == rs[1..][..|next.requests|];
      }
    }
  }

  /**
   * The loop ends only on a successful page whose `more` is false; every
   * earlier successful page said `more`; and `vacancies_found` is that last
   * page's `total`.
   */
  lemma {:induction false} Ending(s: State, rs: seq<Response<SjPage>>)
    ensures var run := Drive(s, rs);
              var n := |run.requests|;
              run.complete ==>
                rs[n - 1].Ok? && !rs[n - 1].page.more &&
                run.final.vacanciesFound == rs[n - 1].page.total &&
                forall i :: 0 <= i < n - 1 && rs[i].Ok? ==> rs[i].page.more
    decreases |rs|
  {
    if rs != [] && !(rs[0].Ok? && !rs[0].page.more) {
      var s' := After(s, rs[0]);
      Ending(s', rs[1..]);
      var run, next := Drive(s, rs), Drive(s', rs[1..]);
      if run.complete {
        var n := |run.requests|;
        assert n == |next.requests| + 1;
        assert rs[n - 1] == rs[1..][n - 2];
        forall i | 0 <= i < n - 1 && rs[i].Ok? ensures rs[i].page.more {
          if i > 0 {
            assert rs[i] == rs[1..][i - 1];
          }
        }
      }
    }
  }

  /**
   * When the first successful page says no more results are available,
   * exactly one successful request is made: the loop stops there, after
   * retrying page 0 through any errors before it.
   */
  lemma {:induction false} SinglePage(s: State, rs: seq<Response<SjPage>>, k: nat)
    requires k < |rs| && rs[k].Ok? && !rs[k].page.more
    requires forall i :: 0 <= i < k ==> rs[i].HttpError?
    ensures Drive(s, rs).complete
    ensures Drive(s, rs).requests == seq(k + 1, i => s.page)
    ensures Successes(rs[..|Drive(s, rs).requests|]) == 1
    decreases k
  {
    if k > 0 {
      SinglePage(s, rs[1..], k - 1);
      assert seq(k + 1, i => s.page) == [s.page] + seq(k, i => s.page);
      assert rs[..k + 1] == [rs[0]] + rs[1..][..k];
    } else {
      assert rs[..1] == [rs[0]];
    }
  }

  predicate BoundsNonNegative(rs: seq<Response<SjPage>>) {
    forall k, j :: 0 <= k < |rs| && rs[k].Ok? && 0 <= j < |rs[k].page.objects| ==>
      rs[k].page.objects[j].paymentFrom >= 0 && rs[k].page.objects[j].paymentTo >= 0
  }

  /** With non-negative payments everywhere, the running sum stays non-negative. */
  lemma {:induction false} SalaryNonNegative(s: State, rs: seq<Response<SjPage>>)
    requires BoundsNonNegative(rs) && s.predictedSalary >= 0.0
    ensures Drive(s, rs).final.predictedSalary >= 0.0
    decreases |rs|
  {
    if rs != [] {
      if rs[0].Ok? {
        SjEstimatesNonNegative(rs[0].page.objects);
        SumUsableNonNegative(SjEstimates(rs[0].page.objects));
        StepEffect(s, rs[0].page);
      }
      if !(rs[0].Ok? && !rs[0].page.more) {
        assert BoundsNonNegative(rs[1..]) by {
          forall k, j | 0 <= k < |rs[1..]| && rs[1..][k].Ok? && 0 <= j < |rs[1..][k].page.objects|
            ensures rs[1..][k].page.objects[j].paymentFrom >= 0 && rs[1..][k].page.objects[j].paymentTo >= 0
          {
            assert rs[1..][k] == rs[k + 1];
          }
        }
        SalaryNonNegative(After(s, rs[0]), rs[1..]);
      }
    }
  }

  /** With non-negative bounds everywhere, a language's average salary is a non-negative integer. */
  lemma AverageNonNegative(rs: seq<Response<SjPage>>)
    requires BoundsNonNegative(rs)
    ensures StatsOf(Drive(START, rs)).averageSalary >= 0
  {
    SalaryNonNegative(START, rs);
  }

  // ---------------------------------------------------------------------
  // The loop itself

  /** `whole` is the run that made the requests `done` and then went on as `rest`. */
  predicate Resumes(whole: Run, done: seq<int>, rest: Run) {
    whole.final == rest.final && whole.complete == rest.complete && whole.requests == done + rest.requests
  }

  /** A turn of the loop that does not end it: its request is made and the loop goes on. */
  lemma LoopGoesOn(whole: Run, requests: seq<int>, s: State, rs: seq<Response<SjPage>>, i: nat)
    requires i < |rs| && Resumes(whole, requests, Drive(s, rs[i..]))
    requires !(rs[i].Ok? && !rs[i].page.more)
    ensures Resumes(whole, requests + [s.page], Drive(After(s, rs[i]), rs[i + 1..]))
  {
    var tail := rs[i..];
    assert tail[0] == rs[i] && tail[1..] == rs[i + 1..];
    var rest := Drive(After(s, rs[i]), rs[i + 1..]);
    assert Drive(s, tail).requests == [s.page] + rest.requests;
    assert requests + ([s.page] + rest.requests) == (requests + [s.page]) + rest.requests;
  }

  /** The turn that ends the loop: a page whose `more` is false. */
  lemma LoopEnds(whole: Run, requests: seq<int>, s: State, rs: seq<Response<SjPage>>, i: nat)
    requires i < |rs| && Resumes(whole, requests, Drive(s, rs[i..]))
    requires rs[i].Ok? && !rs[i].page.more
    ensures whole == Run(Step(s, rs[i].page), requests + [s.page], true)
  {
    var tail := rs[i..];
    assert tail[0] == rs[i];
    assert Drive(s, tail) == Run(Step(s, rs[i].page), [s.page], true);
  }

  /** One language's page loop, against the replies `responses`. */
  method FetchLanguage(responses: seq<Response<SjPage>>) returns (run: Run)
    ensures run == Drive(START, responses)
  {
    var predictedSalary: real, vacanciesProcessed: nat, vacanciesFound: int := 0.0, 0, 0;
    var page: int := 0;
    var requests: seq<int> := [];
    ghost var whole := Drive(START, responses);
    var i := 0;
    while i < |responses|
      invariant 0 <= i <= |responses| && |requests| == i
      invariant Resumes(whole, requests, Drive(State(page, predictedSalary, vacanciesProcessed, vacanciesFound), responses[i..]))
    {
      ghost var before := State(page, predictedSalary, vacanciesProcessed, vacanciesFound);
      requests := requests + [page];
      match responses[i] {
        case HttpError =>
        case Ok(vacanciesPage) =>
          var predictedSalariesPerPage := CollectSjEstimates(vacanciesPage.objects);
          predictedSalary := predictedSalary + Sum(predictedSalariesPerPage);
          vacanciesProcessed := vacanciesProcessed + |predictedSalariesPerPage|;
          vacanciesFound := vacanciesPage.total;
          page := page + 1;
          assert State(page, predictedSalary, vacanciesProcessed, vacanciesFound) == Step(before, vacanciesPage);
          if !vacanciesPage.more {
            LoopEnds(whole, requests[..i], before, responses, i);
            return Run(State(page, predictedSalary, vacanciesProcessed, vacanciesFound), requests, true);
          }
      }
      assert State(page, predictedSalary, vacanciesProcessed, vacanciesFound) == After(before, responses[i]);
      LoopGoesOn(whole, requests[..i], before, responses, i);
      i := i + 1;
    }
    run := Run(State(page, predictedSalary, vacanciesProcessed, vacanciesFound), requests, false);
  }

  // ---------------------------------------------------------------------
  // All languages

  /**
   * The statistics of the first `n` languages, starting at reply `pos`:
   * each language runs its loop from `START` on the replies after those the
   * previous languages consumed. `starts` says where each of them began.
   */
  datatype Collected = Collected(stats: seq<LanguageStats>, starts: seq<nat>, complete: bool)

  function Collect(n: nat, rs: seq<Response<SjPage>>, pos: nat): (c: Collected)
    requires pos <= |rs|
    ensures |c.stats| == |c.starts| <= n
    ensures c.complete ==> |c.stats| == n
    decreases n
  {
    if n == 0 then Collected([], [], true)
    else
      var run := Drive(START, rs[pos..]);
      if !run.complete then Collected([], [], false)
      else
        var rest := Collect(n - 1, rs, pos + |run.requests|);
        Collected([StatsOf(run)] + rest.stats, [pos] + rest.starts, rest.complete)
  }

  /**
   * Every language's statistics are those of a fresh loop started where
   * that language began: the first at `pos`, each later one where the
   * previous language's loop stopped.
   */
  predicate FreshFrom(c: Collected, rs: seq<Response<SjPage>>, pos: nat) {
    |c.stats| == |c.starts| &&
    (|c.starts| > 0 ==> c.starts[0] == pos) &&
    (forall i :: 0 <= i < |c.starts| ==>
      pos <= c.starts[i] <= |rs| && c.stats[i] == StatsOf(Drive(START, rs[c.starts[i]..]))) &&
    forall i :: 0 <= i < |c.starts| - 1 ==>
      c.starts[i] <= |rs| && c.starts[i + 1] == c.starts[i] + |Drive(START, rs[c.starts[i]..]).requests|
  }

  /**
   * Accumulators are reset for each language: the statistics of every
   * language are those of a fresh loop on the replies from where it began.
   */
  lemma {:induction false} FreshPerLanguage(n: nat, rs: seq<Response<SjPage>>, pos: nat)
    requires pos <= |rs|
    ensures FreshFrom(Collect(n, rs, pos), rs, pos)
  {
    var c := Collect(n, rs, pos);
    if |c.starts| > 0 {
      var _ := CollectCons(n, rs, pos);
    }
    forall i | 0 <= i < |c.starts|
      ensures pos <= c.starts[i] <= |rs| && c.stats[i] == StatsOf(Drive(START, rs[c.starts[i]..]))
    {
      FreshAt(n, rs, pos, i);
    }
    forall i | 0 <= i < |c.starts| - 1
      ensures c.starts[i] <= |rs| && c.starts[i + 1] == c.starts[i] + |Drive(START, rs[c.starts[i]..]).requests|
    {
      NextStart(n, rs, pos, i);
    }
  }

  /** The `i`-th language collected from reply `pos` on ran a fresh loop where it began. */
  lemma {:induction false} FreshAt(n: nat, rs: seq<Response<SjPage>>, pos: nat, i: nat)
    requires pos <= |rs| && i < |Collect(n, rs, pos).stats|
    ensures var c := Collect(n, rs, pos);
              pos <= c.starts[i] <= |rs| && c.stats[i] == StatsOf(Drive(START, rs[c.starts[i]..]))
    decreases n
  {
    var next := CollectCons(n, rs, pos);
    if i > 0 {
      FreshAt(n - 1, rs, next, i - 1);
    }
  }

  /** The language after the `i`-th began where the `i`-th language's loop stopped. */
  lemma {:induction false} NextStart(n: nat, rs: seq<Response<SjPage>>, pos: nat, i: nat)
    requires pos <= |rs| && i + 1 < |Collect(n, rs, pos).stats|
    ensures var c := Collect(n, rs, pos);
              c.starts[i] <= |rs| && c.starts[i + 1] == c.starts[i] + |Drive(START, rs[c.starts[i]..]).requests|
    decreases n
  {
    var next := CollectCons(n, rs, pos);
    if i > 0 {
      NextStart(n - 1, rs, next, i - 1);
    } else {
      var _ := CollectCons(n - 1, rs, next);
    }
  }

  /** A non-empty collection starts with a finished run from `pos`, then collects from where it stopped. */
  lemma CollectCons(n: nat, rs: seq<Response<SjPage>>, pos: nat) returns (next: nat)
    requires pos <= |rs| && |Collect(n, rs, pos).stats| > 0
    ensures 0 < n && pos <= next <= |rs|
    ensures var run, c, rest := Drive(START, rs[pos..]), Collect(n, rs, pos), Collect(n - 1, rs, next);
              run.complete && next == pos + |run.requests| &&
              c.stats == [StatsOf(run)] + rest.stats && c.starts == [pos] + rest.starts
  {
    next := pos + |Drive(START, rs[pos..]).requests|;
  }

  /** `whole` is what was collected as `done` followed by `rest`. */
  predicate Continues(whole: Collected, done: seq<LanguageStats>, rest: Collected) {
    whole.complete == rest.complete && whole.stats == done + rest.stats
  }

  lemma ContinuesStep(whole: Collected, done: seq<LanguageStats>, mid: Collected, st: LanguageStats, rest: Collected)
    requires Continues(whole, done, mid) && Continues(mid, [st], rest)
    ensures Continues(whole, done + [st], rest)
  {
    assert done + ([st] + rest.stats) == (done + [st]) + rest.stats;
  }

  /** One language's turn, as `Collect` takes it. */
  lemma CollectUnfold(n: nat, rs: seq<Response<SjPage>>, pos: nat, run: Run)
    requires 0 < n && pos <= |rs| && run == Drive(START, rs[pos..])
    ensures !run.complete ==> Collect(n, rs, pos) == Collected([], [], false)
    ensures run.complete ==> pos + |run.requests| <= |rs|
    ensures run.complete ==>
              Continues(Collect(n, rs, pos), [StatsOf(run)], Collect(n - 1, rs, pos + |run.requests|)) &&
              Collect(n, rs, pos).starts == [pos] + Collect(n - 1, rs, pos + |run.requests|).starts
  {
  }

  /**
   * The outer loop's invariant after `i` languages: their statistics `done`
   * are the first `i` of what `Collect` gives, the rest is what is collected
   * from reply `pos` on, and `jobsStats` holds them under their names.
   */
  predicate Progress(languages: seq<string>, rs: seq<Response<SjPage>>, i: nat, pos: nat,
                     done: seq<LanguageStats>, jobsStats: JobsStats)
  {
    i <= |languages| && pos <= |rs| && |done| == i &&
    Continues(Collect(|languages|, rs, 0), done, Collect(|languages| - i, rs, pos)) &&
    FilledFrom(jobsStats, languages[..i], done)
  }

  /** One language's turn of the outer loop, as `Collect` takes it. */
  lemma CollectAdvance(n: nat, rs: seq<Response<SjPage>>, i: nat, pos: nat, done: seq<LanguageStats>, run: Run)
    requires i < n && pos <= |rs| && Continues(Collect(n, rs, 0), done, Collect(n - i, rs, pos))
    requires run == Drive(START, rs[pos..])
    ensures !run.complete ==> !Collect(n, rs, 0).complete && Collect(n, rs, 0).stats == done
    ensures run.complete ==> pos + |run.requests| <= |rs|
    ensures run.complete ==>
              Continues(Collect(n, rs, 0), done + [StatsOf(run)], Collect(n - (i + 1), rs, pos + |run.requests|))
  {
    CollectUnfold(n - i, rs, pos, run);
    if run.complete {
      ContinuesStep(Collect(n, rs, 0), done, Collect(n - i, rs, pos), StatsOf(run),
                    Collect(n - i - 1, rs, pos + |run.requests|));
    } else {
      assert done + [] == done;
    }
  }

  /** The invariant after one more language. */
  lemma ProgressStep(languages: seq<string>, rs: seq<Response<SjPage>>, i: nat, pos: nat,
                     done: seq<LanguageStats>, jobsStats: JobsStats, run: Run)
    requires i < |languages| && Progress(languages, rs, i, pos, done, jobsStats)
    requires run == Drive(START, rs[pos..])
    ensures !run.complete ==> !Collect(|languages|, rs, 0).complete && Collect(|languages|, rs, 0).stats == done
    ensures run.complete ==>
              Progress(languages, rs, i + 1, pos + |run.requests|, done + [StatsOf(run)],
                       Put(jobsStats, languages[i], StatsOf(run)))
  {
    CollectAdvance(|languages|, rs, i, pos, done, run);
    if run.complete {
      FilledFromPut(jobsStats, languages, done, i, StatsOf(run));
    }
  }

  /** The loop's end: every language was collected. */
  lemma ProgressDone(languages: seq<string>, rs: seq<Response<SjPage>>, pos: nat,
                     done: seq<LanguageStats>, jobsStats: JobsStats)
    requires Progress(languages, rs, |languages|, pos, done, jobsStats)
    ensures var c := Collect(|languages|, rs, 0);
              c.complete && FilledFrom(jobsStats, languages[..|c.stats|], c.stats)
  {
    assert Collect(0, rs, pos).stats == [] && done + [] == done;
  }

  /**
   * `find_statistics_vacancy_programmer_sj`: one loop per language, each
   * from fresh accumulators, its statistics put into `jobs_stats` under the
   * language's name. When a language's loop cannot end on the replies
   * available, `complete` is false and the languages before it are kept.
   */
  method FindStatistics(languages: seq<string>, responses: seq<Response<SjPage>>)
    returns (jobsStats: JobsStats, complete: bool)
    ensures var c := Collect(|languages|, responses, 0);
              complete == c.complete && FilledFrom(jobsStats, languages[..|c.stats|], c.stats)
  {
    jobsStats := [];
    ghost var done: seq<LanguageStats> := [];
    var pos: nat := 0;
    for i := 0 to |languages|
      invariant Progress(languages, responses, i, pos, done, jobsStats)
    {
      var run := FetchLanguage(responses[pos..]);
      ProgressStep(languages, responses, i, pos, done, jobsStats, run);
      if !run.complete {
        assert languages[..|done|] == languages[..i];
        return jobsStats, false;
      }
      var langStats := Finalize(run.final.predictedSalary, run.final.vacanciesProcessed, run.final.vacanciesFound);
      assert langStats == StatsOf(run);
      jobsStats := Put(jobsStats, languages[i], langStats);
      done := done + [langStats];
      pos := pos + |run.requests|;
    }
    complete := true;
    ProgressDone(languages, responses, pos, done, jobsStats);
  }
}
