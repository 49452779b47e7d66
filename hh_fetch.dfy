/**
 * The first provider's fetcher: for each language, request pages while the
 * page index is below the page count the server last reported, retry the
 * same page after an HTTP error, and reduce the accumulated estimates to
 * the language's statistics.
 *
 * The server is a finite stream of replies, one per request, shared by all
 * languages in turn. A run that uses up the stream before its loop ends is
 * reported as incomplete: the real program would still be waiting.
 */
module HhFetch {
  import opened Vacancies
  import opened Stats

  /** The loop's variables: `page`, `pages_number`, `predicted_salary`, `vacancies_processed`, `vacancies_found`. */
  datatype State = State(page: int, pagesNumber: int, predictedSalary: real, vacanciesProcessed: nat, vacanciesFound: int)

  /** The values each language starts from. */
  const START: State := State(0, 1, 0.0, 0, 0)

  /** What one language's loop did: its last state, the `page` sent with each request, and whether the loop ended. */
  datatype Run = Run(final: State, requests: seq<int>, complete: bool)

  /** Every page the server sends can be processed without a `TypeError`. */
  predicate RepliesSane(rs: seq<Response<HhPage>>) {
    forall k :: 0 <= k < |rs| ==> rs[k].Ok? ==> HhPageSane(rs[k].page.items)
  }

  /** The effect of one reply on the loop's variables. */
  function Step(s: State, r: Response<HhPage>): State
    requires r.Ok? ==> HhPageSane(r.page.items)
  {
    match r
    case HttpError => s
    case Ok(p) =>
      var kept := Kept(HhEstimates(p.items));
      State(s.page + 1, p.pages, s.predictedSalary + Sum(kept), s.vacanciesProcessed + |kept|, p.found)
  }

  /**
   * An HTTP error leaves every variable as it was; a page advances `page` by
   * one, takes `pages_number` and `vacancies_found` from the page, and adds
   * exactly the page's usable estimates to the count and the sum.
   */
  lemma StepEffect(s: State, r: Response<HhPage>)
    requires r.Ok? ==> HhPageSane(r.page.items)
    ensures r.HttpError? ==> Step(s, r) == s
    ensures r.Ok? ==>
              var t := Step(s, r);
              t.page == s.page + 1 && t.pagesNumber == r.page.pages && t.vacanciesFound == r.page.found &&
              t.vacanciesProcessed == s.vacanciesProcessed + CountUsable(HhEstimates(r.page.items)) &&
              t.predictedSalary == s.predictedSalary + SumUsable(HhEstimates(r.page.items))
  {
    if r.Ok? {
      KeptCount(HhEstimates(r.page.items));
      KeptSum(HhEstimates(r.page.items));
    }
  }

  /**
   * The loop `while page < pages_number` from state `s` against the replies
   * `rs`. It ends exactly when the page index reaches the page count; short
   * of that it has consumed every reply.
   */
  function Drive(s: State, rs: seq<Response<HhPage>>): (run: Run)
    requires RepliesSane(rs)
    ensures |run.requests| <= |rs|
    ensures run.complete <==> run.final.page >= run.final.pagesNumber
    ensures !run.complete ==> |run.requests| == |rs|
    decreases |rs|
  {
    if s.page >= s.pagesNumber then Run(s, [], true)
    else if rs == [] then Run(s, [], false)
    else
      var next := Drive(Step(s, rs[0]), rs[1..]);
      Run(next.final, [s.page] + next.requests, next.complete)
  }

  /** The statistics one language's run is reduced to. */
  function StatsOf(run: Run): LanguageStats {
    Finalize(run.final.predictedSalary, run.final.vacanciesProcessed, run.final.vacanciesFound)
  }

  // ---------------------------------------------------------------------
  // Properties of one language's loop

  /** The number of successful replies. */
  function Successes(rs: seq<Response<HhPage>>): nat {
    if rs == [] then 0 else (if rs[0].Ok? then 1 else 0) + Successes(rs[1..])
  }

  /** The number of usable estimates over all successful pages. */
  function ProcessedOver(rs: seq<Response<HhPage>>): nat
    requires RepliesSane(rs)
  {
    if rs == [] then 0
    else (if rs[0].Ok? then CountUsable(HhEstimates(rs[0].page.items)) else 0) + ProcessedOver(rs[1..])
  }

  /** The sum of the usable estimates over all successful pages. */
  function SalaryOver(rs: seq<Response<HhPage>>): real
    requires RepliesSane(rs)
  {
    if rs == [] then 0.0
    else (if rs[0].Ok? then SumUsable(HhEstimates(rs[0].page.items)) else 0.0) + SalaryOver(rs[1..])
  }

  /** The `found` of the last successful reply, or `found` when there is none. */
  function LastFound(rs: seq<Response<HhPage>>, found: int): int {
    if rs == [] then found
    else LastFound(rs[1..], if rs[0].Ok? then rs[0].page.found else found)
  }

  /**
   * Retry and advance: the first request asks for the current page; after
   * an HTTP error the next request asks for the same page again, after a
   * success for the next one.
   */
  lemma {:induction false} RequestPattern(s: State, rs: seq<Response<HhPage>>)
    requires RepliesSane(rs)
    ensures var req := Drive(s, rs).requests;
              (req != [] ==> req[0] == s.page) &&
              forall i :: 0 <= i < |req| - 1 ==> req[i + 1] == (if rs[i].HttpError? then req[i] else req[i] + 1)
    decreases |rs|
  {
    if s.page < s.pagesNumber && rs != [] {
      RequestPattern(Step(s, rs[0]), rs[1..]);
      var req := Drive(s, rs).requests;
      var tail := Drive(Step(s, rs[0]), rs[1..]).requests;
      assert req == [s.page] + tail;
      forall i | 0 <= i < |req| - 1
        ensures req[i + 1] == (if rs[i].HttpError? then req[i] else req[i] + 1)
      {
        if i > 0 {
          assert rs[1..][i - 1] == rs[i];
        }
      }
    }
  }

  /**
   * No page is counted twice and an error counts nothing: the run ends with
   * the starting values advanced by exactly the successful replies it
   * consumed.
   */
  lemma {:induction false} Accounting(s: State, rs: seq<Response<HhPage>>)
    requires RepliesSane(rs)
    ensures var run := Drive(s, rs);
              var used := rs[..|run.requests|];
              run.final.page == s.page + Successes(used) &&
              run.final.vacanciesProcessed == s.vacanciesProcessed + ProcessedOver(used) &&
              run.final.predictedSalary == s.predictedSalary + SalaryOver(used) &&
              run.final.vacanciesFound == LastFound(used, s.vacanciesFound)
    decreases |rs|
  {
    if s.page < s.pagesNumber && rs != [] {
      var run := Drive(s, rs);
      var next := Drive(Step(s, rs[0]), rs[1..]);
      StepEffect(s, rs[0]);
      Accounting(Step(s, rs[0]), rs[1..]);
      var used := rs[..|run.requests|];
      assert used[0] == rs[0];
      assert used[1..] == rs[1..][..|next.requests|];
    }
  }

  /**
   * Against a server that always answers `pages = n` with `n >= 1` and
   * never fails, the loop makes exactly `n` requests, for pages 0 to n - 1.
   */
  lemma {:induction false} ConstantPages(n: int, rs: seq<Response<HhPage>>)
    requires n >= 1 && |rs| >= n && RepliesSane(rs)
    requires forall k :: 0 <= k < |rs| ==> rs[k].Ok? && rs[k].page.pages == n
    ensures Drive(START, rs).complete
    ensures Drive(START, rs).requests == seq(n, i => i)
    ensures Drive(START, rs).final.page == n
  {
    ConstantPagesFrom(n, Step(START, rs[0]), rs[1..]);
    assert [0] + seq(n - 1, i => 1 + i) == seq(n, i => i);
  }

  lemma {:induction false} ConstantPagesFrom(n: int, s: State, rs: seq<Response<HhPage>>)
    requires s.pagesNumber == n && 0 <= s.page <= n && |rs| >= n - s.page && RepliesSane(rs)
    requires forall k :: 0 <= k < |rs| ==> rs[k].Ok? && rs[k].page.pages == n
    ensures Drive(s, rs).complete
    ensures Drive(s, rs).requests == seq(n - s.page, i => s.page + i)
    ensures Drive(s, rs).final.page == n
    decreases |rs|
  {
    if s.page < n {
      ConstantPagesFrom(n, Step(s, rs[0]), rs[1..]);
      assert [s.page] + seq(n - (s.page + 1), i => s.page + 1 + i) == seq(n - s.page, i => s.page + i);
    }
  }

  /**
   * The worked example: with three pages and an HTTP error on the request
   * for page 1, page 1 is asked for again, not skipped, and counted once in both
   * the count and the sum.
   */
  lemma ErrorOnSecondPage(p0: HhPage, p1: HhPage, p2: HhPage)
    requires p0.pages == 3 && p1.pages == 3 && p2.pages == 3
    requires HhPageSane(p0.items) && HhPageSane(p1.items) && HhPageSane(p2.items)
    ensures var run := Drive(START, [Ok(p0), HttpError, Ok(p1), Ok(p2)]);
              run.complete && run.requests == [0, 1, 1, 2] &&
              run.final.vacanciesProcessed ==
                CountUsable(HhEstimates(p0.items)) + CountUsable(HhEstimates(p1.items)) + CountUsable(HhEstimates(p2.items)) &&
              run.final.predictedSalary ==
                SumUsable(HhEstimates(p0.items)) + SumUsable(HhEstimates(p1.items)) + SumUsable(HhEstimates(p2.items)) &&
              run.final.vacanciesFound == p2.found
  {
    var rs := [Ok(p0), HttpError, Ok(p1), Ok(p2)];
    var t1: seq<Response<HhPage>> := [HttpError, Ok(p1), Ok(p2)];
    var t2: seq<Response<HhPage>> := [Ok(p1), Ok(p2)];
    var t3: seq<Response<HhPage>> := [Ok(p2)];
    assert rs[0] == Ok(p0) && rs[1..] == t1;
    assert t1[0] == HttpError && t1[1..] == t2;
    assert t2[0] == Ok(p1) && t2[1..] == t3;
    assert t3[0] == Ok(p2) && t3[1..] == [];
    var s1 := Step(START, Ok(p0));
    var s3 := Step(s1, Ok(p1));
    var s4 := Step(s3, Ok(p2));
    StepEffect(START, Ok(p0));
    StepEffect(s1, Ok(p1));
    StepEffect(s3, Ok(p2));
    DriveUnfold(START, rs);
    DriveUnfold(s1, t1);
    StepEffect(s1, HttpError);
    DriveUnfold(s1, t2);
    DriveUnfold(s3, t3);
    assert Drive(s4, []) == Run(s4, [], true);
    assert [0] + ([1] + ([1] + ([2] + []))) == [0, 1, 1, 2];
  }

  predicate BoundsNonNegative(rs: seq<Response<HhPage>>) {
    forall k, j :: 0 <= k < |rs| && rs[k].Ok? && 0 <= j < |rs[k].page.items| && rs[k].page.items[j].salary.Some? ==>
      Salary.NonNegative(rs[k].page.items[j].salary.value.salaryFrom) &&
      Salary.NonNegative(rs[k].page.items[j].salary.value.salaryTo)
  }

  /** With non-negative salary bounds everywhere, the running sum stays non-negative. */
  lemma {:induction false} SalaryNonNegative(s: State, rs: seq<Response<HhPage>>)
    requires RepliesSane(rs) && BoundsNonNegative(rs) && s.predictedSalary >= 0.0
    ensures Drive(s, rs).final.predictedSalary >= 0.0
    decreases |rs|
  {
    if s.page < s.pagesNumber && rs != [] {
      if rs[0].Ok? {
        HhEstimatesNonNegative(rs[0].page.items);
        SumUsableNonNegative(HhEstimates(rs[0].page.items));
      }
      assert BoundsNonNegative(rs[1..]) by {
        forall k, j | 0 <= k < |rs[1..]| && rs[1..][k].Ok? && 0 <= j < |rs[1..][k].page.items| && rs[1..][k].page.items[j].salary.Some?
          ensures Salary.NonNegative(rs[1..][k].page.items[j].salary.value.salaryFrom) &&
                  Salary.NonNegative(rs[1..][k].page.items[j].salary.value.salaryTo)
        {
          assert rs[1..][k] == rs[k + 1];
        }
      }
      StepEffect(s, rs[0]);
      SalaryNonNegative(Step(s, rs[0]), rs[1..]);
    }
  }

  /** With non-negative bounds everywhere, a language's average salary is a non-negative integer. */
  lemma AverageNonNegative(rs: seq<Response<HhPage>>)
    requires RepliesSane(rs) && BoundsNonNegative(rs)
    ensures StatsOf(Drive(START, rs)).averageSalary >= 0
  {
    SalaryNonNegative(START, rs);
  }

  // ---------------------------------------------------------------------
  // The loop itself

  /** `whole` is the run that made the requests `done` and then went on as `rest`. */
  predicate Resumes(whole: Run, done: seq<int>, rest: Run) {
    whole.final == rest.final && whole.complete == rest.complete && whole.requests == done + rest.requests
  }

  /** One turn of the loop, as `Drive` takes it. */
  lemma DriveUnfold(s: State, rs: seq<Response<HhPage>>)
    requires RepliesSane(rs) && s.page < s.pagesNumber && rs != []
    ensures Resumes(Drive(s, rs), [s.page], Drive(Step(s, rs[0]), rs[1..]))
  {
  }

  /** One language's page loop, against the replies `responses`. */
  method FetchLanguage(responses: seq<Response<HhPage>>) returns (run: Run)
    requires RepliesSane(responses)
    ensures run == Drive(START, responses)
  {
    var predictedSalary: real, vacanciesProcessed: nat, vacanciesFound: int := 0.0, 0, 0;
    var page: int, pagesNumber: int := 0, 1;
    var requests: seq<int> := [];
    var i := 0;
    while page < pagesNumber && i < |responses|
      invariant 0 <= i <= |responses| && |requests| == i
      invariant Resumes(Drive(START, responses), requests,
                        Drive(State(page, pagesNumber, predictedSalary, vacanciesProcessed, vacanciesFound), responses[i..]))
      decreases |responses| - i
    {
      ghost var before := State(page, pagesNumber, predictedSalary, vacanciesProcessed, vacanciesFound);
      DriveUnfold(before, responses[i..]);
      assert responses[i..][1..] == responses[i + 1..];
      requests := requests + [page];
      match responses[i] {
        case HttpError =>
        case Ok(vacanciesPage) =>
          pagesNumber := vacanciesPage.pages;
          page := page + 1;
          var predictedSalariesPerPage := CollectHhEstimates(vacanciesPage.items);
          predictedSalary := predictedSalary + Sum(predictedSalariesPerPage);
          vacanciesProcessed := vacanciesProcessed + |predictedSalariesPerPage|;
          vacanciesFound := vacanciesPage.found;
      }
      assert State(page, pagesNumber, predictedSalary, vacanciesProcessed, vacanciesFound) == Step(before, responses[i]);
      i := i + 1;
    }
    run := Run(State(page, pagesNumber, predictedSalary, vacanciesProcessed, vacanciesFound), requests, page >= pagesNumber);
  }

  // ---------------------------------------------------------------------
  // All languages

  /**
   * The statistics of the first `n` languages, starting at reply `pos`:
   * each language runs its loop from `START` on the replies after those the
   * previous languages consumed. `starts` says where each of them began.
   */
  datatype Collected = Collected(stats: seq<LanguageStats>, starts: seq<nat>, complete: bool)

  function Collect(n: nat, rs: seq<Response<HhPage>>, pos: nat): (c: Collected)
    requires pos <= |rs| && RepliesSane(rs)
    ensures |c.stats| == |c.starts| <= n
    ensures c.complete ==> |c.stats| == n
    decreases n
  {
    if n == 0 then Collected([], [], true)
    else
      var run := Drive(START, rs[pos..]);
      if !run.complete then Collected([], [], false)
      else
        var rest := Collect(n - 1, rs, pos + |run.requests|);
        Collected([StatsOf(run)] + rest.stats, [pos] + rest.starts, rest.complete)
  }

  /**
   * Every language's statistics are those of a fresh loop started where
   * that language began: the first at `pos`, each later one where the
   * previous language's loop stopped.
   */
  predicate FreshFrom(c: Collected, rs: seq<Response<HhPage>>, pos: nat)
    requires RepliesSane(rs)
  {
    |c.stats| == |c.starts| &&
    (|c.starts| > 0 ==> c.starts[0] == pos) &&
    (forall i :: 0 <= i < |c.starts| ==>
      pos <= c.starts[i] <= |rs| && c.stats[i] == StatsOf(Drive(START, rs[c.starts[i]..]))) &&
    forall i :: 0 <= i < |c.starts| - 1 ==>
      c.starts[i] <= |rs| && c.starts[i + 1] == c.starts[i] + |Drive(START, rs[c.starts[i]..]).requests|
  }

  /**
   * Accumulators are reset for each language: the statistics of every
   * language are those of a fresh loop on the replies from where it began.
   */
  lemma {:induction false} FreshPerLanguage(n: nat, rs: seq<Response<HhPage>>, pos: nat)
    requires pos <= |rs| && RepliesSane(rs)
    ensures FreshFrom(Collect(n, rs, pos), rs, pos)
  {
    var c := Collect(n, rs, pos);
    if |c.starts| > 0 {
      var _ := CollectCons(n, rs, pos);
    }
    forall i | 0 <= i < |c.starts|
      ensures pos <= c.starts[i] <= |rs| && c.stats[i] == StatsOf(Drive(START, rs[c.starts[i]..]))
    {
      FreshAt(n, rs, pos, i);
    }
    forall i | 0 <= i < |c.starts| - 1
      ensures c.starts[i] <= |rs| && c.starts[i + 1] == c.starts[i] + |Drive(START, rs[c.starts[i]..]).requests|
    {
      NextStart(n, rs, pos, i);
    }
  }

  /** The `i`-th language collected from reply `pos` on ran a fresh loop where it began. */
  lemma {:induction false} FreshAt(n: nat, rs: seq<Response<HhPage>>, pos: nat, i: nat)
    requires pos <= |rs| && RepliesSane(rs) && i < |Collect(n, rs, pos).stats|
    ensures var c := Collect(n, rs, pos);
              pos <= c.starts[i] <= |rs| && c.stats[i] == StatsOf(Drive(START, rs[c.starts[i]..]))
    decreases n
  {
    var next := CollectCons(n, rs, pos);
    if i > 0 {
      FreshAt(n - 1, rs, next, i - 1);
    }
  }

  /** The language after the `i`-th began where the `i`-th language's loop stopped. */
  lemma {:induction false} NextStart(n: nat, rs: seq<Response<HhPage>>, pos: nat, i: nat)
    requires pos <= |rs| && RepliesSane(rs) && i + 1 < |Collect(n, rs, pos).stats|
    ensures var c := Collect(n, rs, pos);
              c.starts[i] <= |rs| && c.starts[i + 1] == c.starts[i] + |Drive(START, rs[c.starts[i]..]).requests|
    decreases n
  {
    var next := CollectCons(n, rs, pos);
    if i > 0 {
      NextStart(n - 1, rs, next, i - 1);
    } else {
      var _ := CollectCons(n - 1, rs, next);
    }
  }

  /** A non-empty collection starts with a finished run from `pos`, then collects from where it stopped. */
  lemma CollectCons(n: nat, rs: seq<Response<HhPage>>, pos: nat) returns (next: nat)
    requires pos <= |rs| && RepliesSane(rs) && |Collect(n, rs, pos).stats| > 0
    ensures 0 < n && pos <= next <= |rs|
    ensures var run, c, rest := Drive(START, rs[pos..]), Collect(n, rs, pos), Collect(n - 1, rs, next);
              run.complete && next == pos + |run.requests| &&
              c.stats == [StatsOf(run)] + rest.stats && c.starts == [pos] + rest.starts
  {
    next := pos + |Drive(START, rs[pos..]).requests|;
  }

  /** `whole` is what was collected as `done` followed by `rest`. */
  predicate Continues(whole: Collected, done: seq<LanguageStats>, rest: Collected) {
    whole.complete == rest.complete && whole.stats == done + rest.stats
  }

  lemma ContinuesStep(whole: Collected, done: seq<LanguageStats>, mid: Collected, st: LanguageStats, rest: Collected)
    requires Continues(whole, done, mid) && Continues(mid, [st], rest)
    ensures Continues(whole, done + [st], rest)
  {
    assert done + ([st] + rest.stats) == (done + [st]) + rest.stats;
  }

  /** One language's turn, as `Collect` takes it. */
  lemma CollectUnfold(n: nat, rs: seq<Response<HhPage>>, pos: nat, run: Run)
    requires 0 < n && pos <= |rs| && RepliesSane(rs) && run == Drive(START, rs[pos..])
    ensures !run.complete ==> Collect(n, rs, pos) == Collected([], [], false)
    ensures run.complete ==> pos + |run.requests| <= |rs|
    ensures run.complete ==>
              Continues(Collect(n, rs, pos), [StatsOf(run)], Collect(n - 1, rs, pos + |run.requests|)) &&
              Collect(n, rs, pos).starts == [pos] + Collect(n - 1, rs, pos + |run.requests|).starts
  {
  }

  /**
   * The outer loop's invariant after `i` languages: their statistics `done`
   * are the first `i` of what `Collect` gives, the rest is what is collected
   * from reply `pos` on, and `jobsStats` holds them under their names.
   */
  predicate Progress(languages: seq<string>, rs: seq<Response<HhPage>>, i: nat, pos: nat,
                     done: seq<LanguageStats>, jobsStats: JobsStats)
    requires RepliesSane(rs)
  {
    i <= |languages| && pos <= |rs| && |done| == i &&
    Continues(Collect(|languages|, rs, 0), done, Collect(|languages| - i, rs, pos)) &&
    FilledFrom(jobsStats, languages[..i], done)
  }

  /** One language's turn of the outer loop, as `Collect` takes it. */
  lemma CollectAdvance(n: nat, rs: seq<Response<HhPage>>, i: nat, pos: nat, done: seq<LanguageStats>, run: Run)
    requires i < n && pos <= |rs| && RepliesSane(rs) && Continues(Collect(n, rs, 0), done, Collect(n - i, rs, pos))
    requires run == Drive(START, rs[pos..])
    ensures !run.complete ==> !Collect(n, rs, 0).complete && Collect(n, rs, 0).stats == done
    ensures run.complete ==> pos + |run.requests| <= |rs|
    ensures run.complete ==>
              Continues(Collect(n, rs, 0), done + [StatsOf(run)], Collect(n - (i + 1), rs, pos + |run.requests|))
  {
    CollectUnfold(n - i, rs, pos, run);
    if run.complete {
      ContinuesStep(Collect(n, rs, 0), done, Collect(n - i, rs, pos), StatsOf(run),
                    Collect(n - i - 1, rs, pos + |run.requests|));
    } else {
      assert done + [] == done;
    }
  }

  /** The invariant after one more language. */
  lemma ProgressStep(languages: seq<string>, rs: seq<Response<HhPage>>, i: nat, pos: nat,
                     done: seq<LanguageStats>, jobsStats: JobsStats, run: Run)
    requires RepliesSane(rs) && i < |languages| && Progress(languages, rs, i, pos, done, jobsStats)
    requires run == Drive(START, rs[pos..])
    ensures !run.complete ==> !Collect(|languages|, rs, 0).complete && Collect(|languages|, rs, 0).stats == done
    ensures run.complete ==>
              Progress(languages, rs, i + 1, pos + |run.requests|, done + [StatsOf(run)],
                       Put(jobsStats, languages[i], StatsOf(run)))
  {
    CollectAdvance(|languages|, rs, i, pos, done, run);
    if run.complete {
      FilledFromPut(jobsStats, languages, done, i, StatsOf(run));
    }
  }

  /** The loop's end: every language was collected. */
  lemma ProgressDone(languages: seq<string>, rs: seq<Response<HhPage>>, pos: nat,
                     done: seq<LanguageStats>, jobsStats: JobsStats)
    requires RepliesSane(rs) && Progress(languages, rs, |languages|, pos, done, jobsStats)
    ensures var c := Collect(|languages|, rs, 0);
              c.complete && FilledFrom(jobsStats, languages[..|c.stats|], c.stats)
  {
    assert Collect(0, rs, pos).stats == [] && done + [] == done;
  }

  /**
   * `find_statistics_vacancy_programmer_hh`: one loop per language, each
   * from fresh accumulators, its statistics put into `jobs_stats` under the
   * language's name. When a language's loop cannot end on the replies
   * available, `complete` is false and the languages before it are kept.
   */
  method FindStatistics(languages: seq<string>, responses: seq<Response<HhPage>>)
    returns (jobsStats: JobsStats, complete: bool)
    requires RepliesSane(responses)
    ensures var c := Collect(|languages|, responses, 0);
              complete == c.complete && FilledFrom(jobsStats, languages[..|c.stats|], c.stats)
  {
    jobsStats := [];
    ghost var done: seq<LanguageStats> := [];
    var pos: nat := 0;
    for i := 0 to |languages|
      invariant Progress(languages, responses, i, pos, done, jobsStats)
    {
      var run := FetchLanguage(responses[pos..]);
      ProgressStep(languages, responses, i, pos, done, jobsStats, run);
      if !run.complete {
        assert languages[..|done|] == languages[..i];
        return jobsStats, false;
      }
      var langStats := Finalize(run.final.predictedSalary, run.final.vacanciesProcessed, run.final.vacanciesFound);
      assert langStats == StatsOf(run);
      jobsStats := Put(jobsStats, languages[i], langStats);
      done := done + [langStats];
      pos := pos + |run.requests|;
    }
    complete := true;
    ProgressDone(languages, responses, pos, done, jobsStats);
  }
}
