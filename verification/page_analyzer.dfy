/**
 * The page analyzer of the active-user scan: given one page of the job-history
 * feed, keep the jobs created at or after the window start and report how many
 * were kept and which user names they carry.
 */
module PageAnalyzer {
  import opened Wrappers

  /** One job record of the feed; a field the record does not carry is None. */
  datatype Job = Job(createdAt: Option<int>, userName: Option<string>)

  /**
   * The time window of one scan. `past` is the window start; `now` is the
   * timestamp a job without `created_at` is given: the clock reading taken
   * once, when the module is loaded (before any configuration or scan runs),
   * rendered to whole seconds.
   */
  datatype Window = Window(past: int, now: int)

  /** What the analyzer returns for one page: the in-window count and user names. */
  datatype PageSummary = PageSummary(count: nat, users: set<string>)

  /** The timestamp a job is compared by: its `created_at`, or `now` when it has none. */
  function Timestamp(j: Job, w: Window): int
  {
    match j.createdAt
    case Some(t) => t
    case None => w.now
  }

  predicate InWindow(j: Job, w: Window)
  {
    Timestamp(j, w) >= w.past
  }

  /** The user name a job contributes: none when `user_name` is missing. */
  function NameOf(j: Job): set<string>
  {
    match j.userName
    case Some(u) => {u}
    case None => {}
  }

  /** The jobs of a page that lie in the window, in page order. */
  function InWindowJobs(jobs: seq<Job>, w: Window): (kept: seq<Job>)
    ensures |kept| <= |jobs|
    ensures forall j :: j in kept <==> j in jobs && InWindow(j, w)
    decreases |jobs|
  {
    if jobs == [] then []
    else
      var init := jobs[..|jobs| - 1];
      var last := jobs[|jobs| - 1];
      assert jobs == init + [last];
      var kept := InWindowJobs(init, w);
      if InWindow(last, w) then kept + [last] else kept
  }

  /** The set of user names carried by a list of jobs, missing names left out. */
  function UserNames(jobs: seq<Job>): (names: set<string>)
    ensures |names| <= |jobs|
    decreases |jobs|
  {
    if jobs == [] then {}
    else
      var names := UserNames(jobs[..|jobs| - 1]) + NameOf(jobs[|jobs| - 1]);
      assert |names| <= |UserNames(jobs[..|jobs| - 1])| + |NameOf(jobs[|jobs| - 1])|;
      names
  }

  lemma {:induction false} UserNamesMembers(jobs: seq<Job>)
    ensures forall u :: u in UserNames(jobs) <==> exists j :: j in jobs && j.userName == Some(u)
    decreases |jobs|
  {
    if jobs != [] {
      var init := jobs[..|jobs| - 1];
      assert jobs == init + [jobs[|jobs| - 1]];
      UserNamesMembers(init);
    }
  }

  /**
   * The page analyzer: the number of in-window jobs and the set of their user
   * names. A job without `user_name` is counted but names nobody, so the set is
   * never larger than the count.
   */
  function Analyze(jobs: seq<Job>, w: Window): (s: PageSummary)
    ensures s.count <= |jobs|
    ensures |s.users| <= s.count
  {
    var kept := InWindowJobs(jobs, w);
    PageSummary(|kept|, UserNames(kept))
  }

  /** The analyzer's user set is exactly the names carried by the page's in-window jobs. */
  lemma AnalyzeUsers(jobs: seq<Job>, w: Window)
    ensures forall u :: u in Analyze(jobs, w).users <==> exists j :: j in jobs && InWindow(j, w) && j.userName == Some(u)
  {
    UserNamesMembers(InWindowJobs(jobs, w));
  }

  /** The positions of a page whose job lies in the window. */
  function InWindowPositions(jobs: seq<Job>, w: Window): set<nat>
  {
    set i: nat | i < |jobs| && InWindow(jobs[i], w)
  }

  /** The count the analyzer reports is the number of in-window jobs of the page. */
  lemma {:induction false} CountIsInWindowJobs(jobs: seq<Job>, w: Window)
    ensures Analyze(jobs, w).count == |InWindowPositions(jobs, w)|
  {
    KeptCount(jobs, w);
  }

  lemma {:induction false} KeptCount(jobs: seq<Job>, w: Window)
    ensures |InWindowJobs(jobs, w)| == |InWindowPositions(jobs, w)|
    decreases |jobs|
  {
    if jobs != [] {
      var n := |jobs| - 1;
      KeptCount(jobs[..n], w);
      PositionsOfLonger(jobs, w);
    }
  }

  /** The in-window positions of a page extend those of the page without its last job. */
  lemma PositionsOfLonger(jobs: seq<Job>, w: Window)
    requires jobs != []
    ensures var n := |jobs| - 1;
      |InWindowPositions(jobs, w)| == |InWindowPositions(jobs[..n], w)| + (if InWindow(jobs[n], w) then 1 else 0)
  {
    var n := |jobs| - 1;
    var before := InWindowPositions(jobs[..n], w);
    var here: set<nat> := if InWindow(jobs[n], w) then {n} else {};
    forall i: nat | i < |jobs|
      ensures i in InWindowPositions(jobs, w) <==> i in before + here
    {
      if i < n { assert jobs[i] == jobs[..n][i]; }
    }
    assert InWindowPositions(jobs, w) == before + here;
    assert n !in before;
  }

  /**
   * Appending one job: it adds one to the count exactly when it lies in the
   * window, and then adds its user name, if any.
   */
  lemma AppendJob(jobs: seq<Job>, j: Job, w: Window)
    ensures var before, after := Analyze(jobs, w), Analyze(jobs + [j], w);
      after == if InWindow(j, w) then PageSummary(before.count + 1, before.users + NameOf(j)) else before
  {
    assert (jobs + [j])[..|jobs|] == jobs;
  }

  /** A job without `created_at` is always counted, as long as the window starts no later than now. */
  lemma MissingTimestampCounted(jobs: seq<Job>, j: Job, w: Window)
    requires j.createdAt == None && w.past <= w.now
    ensures Analyze(jobs + [j], w).count == Analyze(jobs, w).count + 1
  {
    AppendJob(jobs, j, w);
  }

  /** An in-window job without `user_name` raises the count but adds no user. */
  lemma MissingUserCountedButUnnamed(jobs: seq<Job>, j: Job, w: Window)
    requires InWindow(j, w) && j.userName == None
    ensures Analyze(jobs + [j], w).count == Analyze(jobs, w).count + 1
    ensures Analyze(jobs + [j], w).users == Analyze(jobs, w).users
  {
    AppendJob(jobs, j, w);
  }
}
