/**
 * The pagination driver of the active-user scan: build the whole list of page
 * requests up front, fetch it in batches of `concurrency` pages, fold each
 * batch's user names into the running set, and stop after a batch in which
 * some page's in-window count differs from the page size.
 *
 * The remote job-history feed is a function from a request to the jobs of that
 * page; a batch is awaited as a whole before it is folded in, so fetching a
 * batch is an in-order map of the feed over the batch's requests.
 */
module Pagination {
  import opened Wrappers
  import opened PageAnalyzer

  /** One page request: the inclusive offset range `from` .. `to`. */
  datatype Request = Request(from: int, to: int)

  /** The error raised before any page is fetched: `range` refuses a zero step. */
  datatype ScanError = ZeroPageSize

  function Min(a: int, b: int): int
  {
    if a <= b then a else b
  }

  /** The integers of the half-open range from `start` to `stop` by `step`, as the language's `range` yields them. */
  function Range(start: int, stop: int, step: int): seq<int>
    requires step != 0
    decreases if step > 0 then stop - start else start - stop
  {
    if (step > 0 && start < stop) || (step < 0 && start > stop) then [start] + Range(start + step, stop, step)
    else []
  }

  /**
   * `Range` yields start, start + step, start + 2 * step, ... for as long as the
   * value lies strictly before `stop` in the direction of `step`, and no more.
   */
  lemma {:induction false} RangeElements(start: int, stop: int, step: int)
    requires step != 0
    ensures var r := Range(start, stop, step);
      && (forall k :: 0 <= k < |r| ==> r[k] == start + k * step)
      && (forall k :: 0 <= k < |r| ==> if step > 0 then r[k] < stop else r[k] > stop)
      && (step > 0 ==> start + |r| * step >= stop)
      && (step < 0 ==> start + |r| * step <= stop)
    decreases if step > 0 then stop - start else start - stop
  {
    var r := Range(start, stop, step);
    if r != [] {
      var rest := Range(start + step, stop, step);
      RangeElements(start + step, stop, step);
      assert r == [start] + rest;
      forall k | 1 <= k < |r|
        ensures r[k] == start + k * step
      {
        ShiftedMultiple(k - 1, step);
        assert r[k] == rest[k - 1];
      }
      ShiftedMultiple(|rest|, step);
    }
  }

  lemma ShiftedMultiple(k: int, step: int)
    ensures (k + 1) * step == k * step + step
  {
  }

  /** The request for the page starting at offset `from`. */
  function PageRequest(from: int, pagesize: int): Request
  {
    Request(from, from + pagesize - 1)
  }

  /** The whole list of page requests, built before any page is fetched. */
  function Requests(pagesize: int, limit: int): (r: Result<seq<Request>, ScanError>)
    ensures r.Err? <==> pagesize == 0
  {
    if pagesize == 0 then Err(ZeroPageSize)
    else
      var offsets := Range(0, limit, pagesize);
      Ok(seq(|offsets|, k requires 0 <= k < |offsets| => PageRequest(offsets[k], pagesize)))
  }

  /**
   * With a positive page size the requests are the pages starting at 0,
   * pagesize, 2 * pagesize, ... below `limit`, each ending pagesize - 1 further
   * on; their number n is ceil(limit / pagesize), pinned down by
   * (n - 1) * pagesize < limit <= n * pagesize when `limit` is positive.
   */
  lemma RequestsShape(pagesize: int, limit: int)
    requires pagesize > 0
    ensures var r := Requests(pagesize, limit).value;
      && (forall k :: 0 <= k < |r| ==> r[k] == Request(k * pagesize, k * pagesize + pagesize - 1))
      && (forall k :: 0 <= k < |r| ==> r[k].from < limit)
      && (limit <= 0 ==> r == [])
      && (limit > 0 ==> (|r| - 1) * pagesize < limit <= |r| * pagesize)
  {
    RangeElements(0, limit, pagesize);
    var offsets := Range(0, limit, pagesize);
    var n := |offsets|;
    if limit > 0 {
      assert n > 0;
      assert offsets[n - 1] == (n - 1) * pagesize;
    }
  }

  /**
   * A negative page size makes `range` count downwards: the requests start at
   * 0, pagesize, 2 * pagesize, ... above `limit`, so there are none unless
   * `limit` is negative, and otherwise they stop at the first offset not above
   * `limit`: (n - 1) * pagesize > limit >= n * pagesize for n requests.
   */
  lemma RequestsNegativePageSize(pagesize: int, limit: int)
    requires pagesize < 0
    ensures var r := Requests(pagesize, limit).value;
      && (forall k :: 0 <= k < |r| ==> r[k] == Request(k * pagesize, k * pagesize + pagesize - 1))
      && (forall k :: 0 <= k < |r| ==> r[k].from > limit)
      && (limit >= 0 ==> r == [])
      && (limit < 0 ==> (|r| - 1) * pagesize > limit >= |r| * pagesize)
  {
    RangeElements(0, limit, pagesize);
    var offsets := Range(0, limit, pagesize);
    var n := |offsets|;
    if limit < 0 {
      assert n > 0;
      assert offsets[n - 1] == (n - 1) * pagesize;
    }
  }

  // ---------------------------------------------------------------------------
  // Batches

  /** The batch taken from the front of the remaining requests: at most `concurrency` of them. */
  function NextBatch(payloads: seq<Request>, concurrency: int): (ready: seq<Request>)
    requires concurrency >= 1
    ensures ready <= payloads
    ensures |ready| == Min(concurrency, |payloads|)
  {
    payloads[..Min(concurrency, |payloads|)]
  }

  /** The pages of a batch, fetched together and returned in request order. */
  function FetchBatch(batch: seq<Request>, feed: Request -> seq<Job>): seq<seq<Job>>
  {
    seq(|batch|, i requires 0 <= i < |batch| => feed(batch[i]))
  }

  /** The analyzer's summary of each page, in order. */
  function AnalyzeAll(pages: seq<seq<Job>>, w: Window): seq<PageSummary>
  {
    seq(|pages|, i requires 0 <= i < |pages| => Analyze(pages[i], w))
  }

  /** The analyzer's summary of every page of a batch, in batch order. */
  function Inspect(batch: seq<Request>, w: Window, feed: Request -> seq<Job>): seq<PageSummary>
  {
    AnalyzeAll(FetchBatch(batch, feed), w)
  }

  /** The union of the user sets of a list of page summaries. */
  function UnionUsers(inspects: seq<PageSummary>): set<string>
    decreases |inspects|
  {
    if inspects == [] then {} else inspects[0].users + UnionUsers(inspects[1..])
  }

  /** A batch lets the scan go on only when every page's in-window count equals the page size. */
  predicate AllFull(inspects: seq<PageSummary>, pagesize: int)
  {
    forall i :: 0 <= i < |inspects| ==> inspects[i].count == pagesize
  }

  /**
   * The batches the scan fetches from a request list, in order: it takes the
   * next batch, and goes on with the rest only when that batch was all full.
   */
  function Batches(payloads: seq<Request>, concurrency: int, pagesize: int, w: Window, feed: Request -> seq<Job>)
    : (batches: seq<seq<Request>>)
    requires concurrency >= 1
    ensures payloads == [] <==> batches == []
    decreases |payloads|
  {
    if payloads == [] then []
    else
      var ready := NextBatch(payloads, concurrency);
      if AllFull(Inspect(ready, w, feed), pagesize) then
        [ready] + Batches(payloads[|ready|..], concurrency, pagesize, w, feed)
      else
        [ready]
  }

  /** The requests of a list of batches, in order. */
  function Concat(batches: seq<seq<Request>>): seq<Request>
    decreases |batches|
  {
    if batches == [] then [] else batches[0] + Concat(batches[1..])
  }

  /** The pages the scan fetches, in request order. */
  function Fetched(payloads: seq<Request>, concurrency: int, pagesize: int, w: Window, feed: Request -> seq<Job>)
    : seq<Request>
    requires concurrency >= 1
  {
    Concat(Batches(payloads, concurrency, pagesize, w, feed))
  }

  /** The set the scan returns: the union of the user sets of every page it fetches. */
  function ActiveUsers(payloads: seq<Request>, concurrency: int, pagesize: int, w: Window, feed: Request -> seq<Job>)
    : set<string>
    requires concurrency >= 1
  {
    UnionUsers(Inspect(Fetched(payloads, concurrency, pagesize, w, feed), w, feed))
  }

  /**
   * The active-user scan. Each iteration takes up to `concurrency` requests
   * from the front of the list and drops exactly those, fetches their pages,
   * adds every page's users to the result, and stops when the list is empty
   * or some page of the batch had an in-window count other than `pagesize`.
   */
  method FetchActiveUsers(pagesize: int, concurrency: int, limit: int, w: Window, feed: Request -> seq<Job>)
    returns (result: Result<set<string>, ScanError>)
    requires concurrency >= 1
    ensures result.Err? <==> pagesize == 0
    ensures result.Ok? ==> result.value == ActiveUsers(Requests(pagesize, limit).value, concurrency, pagesize, w, feed)
  {
    var requests := Requests(pagesize, limit);
    if requests.Err? {
      return Err(requests.error);
    }
    var payloads := requests.value;
    var activeUsers: set<string> := {};
    ghost var done: seq<seq<Request>> := [];
    while |payloads| > 0
      invariant Batches(requests.value, concurrency, pagesize, w, feed) == done + Batches(payloads, concurrency, pagesize, w, feed)
      invariant activeUsers == UnionUsers(Inspect(Concat(done), w, feed))
      decreases |payloads|
    {
      var ready := NextBatch(payloads, concurrency);
      var pages := FetchBatch(ready, feed);
      ghost var before := payloads;
      payloads := payloads[|ready|..];

      var inspects := AnalyzeAll(pages, w);
      var uniqueUsers := UnionUsers(inspects);
      activeUsers := activeUsers + uniqueUsers;
      FoldBatch(done, ready, w, feed);
      BatchesStep(requests.value, done, before, concurrency, pagesize, w, feed);
      done := done + [ready];

      if !AllFull(inspects, pagesize) {
        assert Batches(requests.value, concurrency, pagesize, w, feed) == done;
        break;
      }
    }
    assert Batches(requests.value, concurrency, pagesize, w, feed) == done;
    return Ok(activeUsers);
  }

  /** One step of `Batches`: the next batch, then the rest only if that batch was all full. */
  lemma BatchesUnfold(payloads: seq<Request>, concurrency: int, pagesize: int, w: Window, feed: Request -> seq<Job>)
    requires concurrency >= 1 && payloads != []
    ensures var ready := NextBatch(payloads, concurrency);
      Batches(payloads, concurrency, pagesize, w, feed)
      == [ready] + if AllFull(Inspect(ready, w, feed), pagesize) then Batches(payloads[|ready|..], concurrency, pagesize, w, feed) else []
  {
  }

  /**
   * One iteration keeps the loop's account of the batches: after taking the
   * next batch, the batches of the whole list are those done so far followed
   * by the batches of what is left, or, when the batch was not all full,
   * exactly those done so far.
   */
  lemma BatchesStep(all: seq<Request>, done: seq<seq<Request>>, payloads: seq<Request>, concurrency: int, pagesize: int,
                    w: Window, feed: Request -> seq<Job>)
    requires concurrency >= 1 && payloads != []
    requires Batches(all, concurrency, pagesize, w, feed) == done + Batches(payloads, concurrency, pagesize, w, feed)
    ensures var ready := NextBatch(payloads, concurrency);
      if AllFull(Inspect(ready, w, feed), pagesize) then
        Batches(all, concurrency, pagesize, w, feed) == (done + [ready]) + Batches(payloads[|ready|..], concurrency, pagesize, w, feed)
      else
        Batches(all, concurrency, pagesize, w, feed) == done + [ready]
  {
    BatchesUnfold(payloads, concurrency, pagesize, w, feed);
  }

  /** Folding one more batch into the result adds exactly that batch's users. */
  lemma FoldBatch(done: seq<seq<Request>>, ready: seq<Request>, w: Window, feed: Request -> seq<Job>)
    ensures UnionUsers(Inspect(Concat(done + [ready]), w, feed))
         == UnionUsers(Inspect(Concat(done), w, feed)) + UnionUsers(Inspect(ready, w, feed))
  {
    ConcatSnoc(done, ready);
    InspectAppend(Concat(done), ready, w, feed);
    UnionUsersAppend(Inspect(Concat(done), w, feed), Inspect(ready, w, feed));
  }

  lemma InspectAppend(a: seq<Request>, b: seq<Request>, w: Window, feed: Request -> seq<Job>)
    ensures Inspect(a + b, w, feed) == Inspect(a, w, feed) + Inspect(b, w, feed)
  {
    assert FetchBatch(a + b, feed) == FetchBatch(a, feed) + FetchBatch(b, feed);
    assert AnalyzeAll(FetchBatch(a, feed) + FetchBatch(b, feed), w) == AnalyzeAll(FetchBatch(a, feed), w) + AnalyzeAll(FetchBatch(b, feed), w);
  }

  lemma {:induction false} ConcatSnoc(batches: seq<seq<Request>>, b: seq<Request>)
    ensures Concat(batches + [b]) == Concat(batches) + b
    decreases |batches|
  {
    if batches != [] {
      assert (batches + [b])[1..] == batches[1..] + [b];
      ConcatSnoc(batches[1..], b);
    }
  }

  lemma {:induction false} UnionUsersAppend(a: seq<PageSummary>, b: seq<PageSummary>)
    ensures UnionUsers(a + b) == UnionUsers(a) + UnionUsers(b)
    decreases |a|
  {
    if a == [] {
      assert a + b == b;
    } else {
      assert (a + b)[1..] == a[1..] + b;
      UnionUsersAppend(a[1..], b);
    }
  }

  // ---------------------------------------------------------------------------
  // What the scan fetches

  /**
   * Requests are consumed in order: the fetched pages are a prefix of the
   * request list, cut into batches of one to `concurrency` requests.
   */
  lemma {:induction false} FetchedInOrder(payloads: seq<Request>, concurrency: int, pagesize: int, w: Window, feed: Request -> seq<Job>)
    requires concurrency >= 1
    ensures var batches := Batches(payloads, concurrency, pagesize, w, feed);
      && Concat(batches) <= payloads
      && forall i :: 0 <= i < |batches| ==> 1 <= |batches[i]| <= concurrency
    decreases |payloads|
  {
    if payloads != [] {
      var ready := NextBatch(payloads, concurrency);
      var rest := payloads[|ready|..];
      FetchedInOrder(rest, concurrency, pagesize, w, feed);
      var later := Batches(rest, concurrency, pagesize, w, feed);
      assert payloads == ready + rest;
      if AllFull(Inspect(ready, w, feed), pagesize) {
        assert ([ready] + later)[1..] == later;
        assert Concat([ready] + later) == ready + Concat(later);
      } else {
        assert Concat([ready]) == ready + Concat([]);
      }
    }
  }

  /**
   * The stopping rule. The scan goes on after a batch exactly when that batch
   * had `concurrency` requests, every one of its pages had an in-window count
   * equal to `pagesize`, and requests remain; the last batch either exhausts the
   * request list or has a page whose in-window count differs from `pagesize`.
   */
  lemma {:induction false} StoppingRule(payloads: seq<Request>, concurrency: int, pagesize: int, w: Window, feed: Request -> seq<Job>)
    requires concurrency >= 1
    ensures var batches := Batches(payloads, concurrency, pagesize, w, feed);
      && (forall i :: 0 <= i < |batches| - 1 ==> |batches[i]| == concurrency && AllFull(Inspect(batches[i], w, feed), pagesize))
      && (batches != [] ==>
            Concat(batches) == payloads || !AllFull(Inspect(batches[|batches| - 1], w, feed), pagesize))
    decreases |payloads|
  {
    if payloads != [] {
      var ready := NextBatch(payloads, concurrency);
      var rest := payloads[|ready|..];
      assert payloads == ready + rest;
      if AllFull(Inspect(ready, w, feed), pagesize) {
        StoppingRule(rest, concurrency, pagesize, w, feed);
        var later := Batches(rest, concurrency, pagesize, w, feed);
        var batches := [ready] + later;
        assert Concat(batches) == ready + Concat(later) by {
          assert batches[1..] == later;
        }
        if later == [] {
          assert rest == [];
        } else {
          assert |ready| == concurrency;
          assert batches[|batches| - 1] == later[|later| - 1];
        }
        forall i | 1 <= i < |batches| - 1
          ensures |batches[i]| == concurrency && AllFull(Inspect(batches[i], w, feed), pagesize)
        {
          assert batches[i] == later[i - 1];
        }
      }
    }
  }

  /**
   * Termination bound: the scan runs at most ceil(n / concurrency) batches for n
   * requests, that is (batches - 1) * concurrency < n whenever it runs any.
   */
  lemma {:induction false} BatchCount(payloads: seq<Request>, concurrency: int, pagesize: int, w: Window, feed: Request -> seq<Job>)
    requires concurrency >= 1
    ensures var batches := Batches(payloads, concurrency, pagesize, w, feed);
      |batches| * concurrency < |payloads| + concurrency
    decreases |payloads|
  {
    if payloads != [] {
      var ready := NextBatch(payloads, concurrency);
      var rest := payloads[|ready|..];
      if AllFull(Inspect(ready, w, feed), pagesize) {
        BatchCount(rest, concurrency, pagesize, w, feed);
        var later := Batches(rest, concurrency, pagesize, w, feed);
        ShiftedMultiple(|later|, concurrency);
        if later != [] {
          assert |ready| == concurrency;
        }
      }
    }
  }

  /** When every page is full, nothing stops the scan early: it fetches every request. */
  lemma {:induction false} NoEarlyStop(payloads: seq<Request>, concurrency: int, pagesize: int, w: Window, feed: Request -> seq<Job>)
    requires concurrency >= 1
    requires forall r :: r in payloads ==> Analyze(feed(r), w).count == pagesize
    ensures Fetched(payloads, concurrency, pagesize, w, feed) == payloads
    decreases |payloads|
  {
    if payloads != [] {
      var ready := NextBatch(payloads, concurrency);
      var rest := payloads[|ready|..];
      assert payloads == ready + rest;
      assert AllFull(Inspect(ready, w, feed), pagesize) by {
        forall i | 0 <= i < |ready|
          ensures Inspect(ready, w, feed)[i].count == pagesize
        {
          assert ready[i] in payloads;
        }
      }
      NoEarlyStop(rest, concurrency, pagesize, w, feed);
      var batches := Batches(payloads, concurrency, pagesize, w, feed);
      assert batches[1..] == Batches(rest, concurrency, pagesize, w, feed);
    }
  }

  lemma {:induction false} UnionUsersMembers(inspects: seq<PageSummary>)
    ensures forall u :: u in UnionUsers(inspects) <==> exists i :: 0 <= i < |inspects| && u in inspects[i].users
    decreases |inspects|
  {
    if inspects != [] {
      UnionUsersMembers(inspects[1..]);
      forall u | u in UnionUsers(inspects)
        ensures exists i :: 0 <= i < |inspects| && u in inspects[i].users
      {
        if u !in inspects[0].users {
          assert u in UnionUsers(inspects[1..]);
          var k :| 0 <= k < |inspects[1..]| && u in inspects[1..][k].users;
          assert u in inspects[k + 1].users;
        }
      }
      forall u, i | 0 <= i < |inspects| && u in inspects[i].users
        ensures u in UnionUsers(inspects)
      {
        if i > 0 {
          assert u in inspects[1..][i - 1].users;
        }
      }
    }
  }

  /**
   * The result characterised: a user is reported exactly when some fetched page
   * holds an in-window job carrying that user's name.
   */
  lemma ActiveUsersMembers(payloads: seq<Request>, concurrency: int, pagesize: int, w: Window, feed: Request -> seq<Job>)
    requires concurrency >= 1
    ensures forall u :: u in ActiveUsers(payloads, concurrency, pagesize, w, feed) <==>
      exists r, j :: r in Fetched(payloads, concurrency, pagesize, w, feed) && j in feed(r) && InWindow(j, w) && j.userName == Some(u)
  {
    var fetched := Fetched(payloads, concurrency, pagesize, w, feed);
    var inspects := Inspect(fetched, w, feed);
    UnionUsersMembers(inspects);
    forall i | 0 <= i < |fetched|
      ensures forall u :: u in inspects[i].users <==> exists j :: j in feed(fetched[i]) && InWindow(j, w) && j.userName == Some(u)
    {
      AnalyzeUsers(feed(fetched[i]), w);
    }
    forall u | u in ActiveUsers(payloads, concurrency, pagesize, w, feed)
      ensures exists r, j :: r in fetched && j in feed(r) && InWindow(j, w) && j.userName == Some(u)
    {
      var i :| 0 <= i < |inspects| && u in inspects[i].users;
      var j :| j in feed(fetched[i]) && InWindow(j, w) && j.userName == Some(u);
      assert fetched[i] in fetched;
    }
    forall u, r, j | r in fetched && j in feed(r) && InWindow(j, w) && j.userName == Some(u)
      ensures u in ActiveUsers(payloads, concurrency, pagesize, w, feed)
    {
      var i :| 0 <= i < |fetched| && fetched[i] == r;
      assert u in inspects[i].users;
    }
  }

  /** The users gathered after the first `k` batches of the scan. */
  function UsersAfter(payloads: seq<Request>, concurrency: int, pagesize: int, w: Window, feed: Request -> seq<Job>, k: nat)
    : set<string>
    requires concurrency >= 1 && k <= |Batches(payloads, concurrency, pagesize, w, feed)|
  {
    UnionUsers(Inspect(Concat(Batches(payloads, concurrency, pagesize, w, feed)[..k]), w, feed))
  }

  /**
   * Monotone accumulation: each batch only adds its pages' users to the set
   * gathered so far, and after the last batch the set is the scan's result.
   */
  lemma UsersGrow(payloads: seq<Request>, concurrency: int, pagesize: int, w: Window, feed: Request -> seq<Job>, k: nat)
    requires concurrency >= 1 && k < |Batches(payloads, concurrency, pagesize, w, feed)|
    ensures var batches := Batches(payloads, concurrency, pagesize, w, feed);
      && UsersAfter(payloads, concurrency, pagesize, w, feed, k + 1)
         == UsersAfter(payloads, concurrency, pagesize, w, feed, k) + UnionUsers(Inspect(batches[k], w, feed))
      && UsersAfter(payloads, concurrency, pagesize, w, feed, k) <= UsersAfter(payloads, concurrency, pagesize, w, feed, k + 1)
      && UsersAfter(payloads, concurrency, pagesize, w, feed, |batches|) == ActiveUsers(payloads, concurrency, pagesize, w, feed)
  {
    var batches := Batches(payloads, concurrency, pagesize, w, feed);
    assert batches[..k + 1] == batches[..k] + [batches[k]];
    FoldBatch(batches[..k], batches[k], w, feed);
    assert batches[..|batches|] == batches;
  }

  // ---------------------------------------------------------------------------
  // The loop as written, for any `concurrency`

  /** The language's slices `s[:n]` and `s[n:]`, where a negative `n` counts from the end. */
  function SliceTo(s: seq<Request>, n: int): seq<Request>
  {
    if n >= 0 then s[..Min(n, |s|)] else s[..if |s| + n > 0 then |s| + n else 0]
  }

  function SliceFrom(s: seq<Request>, n: int): seq<Request>
  {
    if n >= 0 then s[Min(n, |s|)..] else s[if |s| + n > 0 then |s| + n else 0..]
  }

  /** `a` is what is left of `b` after dropping some of its first elements. */
  predicate IsSuffix(a: seq<Request>, b: seq<Request>)
  {
    |a| <= |b| && a == b[|b| - |a|..]
  }

  /** The variables of the scan loop: the requests left, the users so far, and whether it broke out. */
  datatype LoopState = LoopState(payloads: seq<Request>, activeUsers: set<string>, stopped: bool)

  /** One iteration of the scan loop exactly as written, with no bound assumed on `concurrency`. */
  function StepAsWritten(st: LoopState, concurrency: int, pagesize: int, w: Window, feed: Request -> seq<Job>): (r: LoopState)
    ensures SliceTo(st.payloads, concurrency) + r.payloads == st.payloads
    ensures st.activeUsers <= r.activeUsers
  {
    var ready := SliceTo(st.payloads, concurrency);
    var inspects := Inspect(ready, w, feed);
    LoopState(SliceFrom(st.payloads, concurrency), st.activeUsers + UnionUsers(inspects), !AllFull(inspects, pagesize))
  }

  /** Up to `fuel` iterations of the loop as written; it exits when it broke out or ran out of requests. */
  function RunAsWritten(st: LoopState, concurrency: int, pagesize: int, w: Window, feed: Request -> seq<Job>, fuel: nat): (r: LoopState)
    ensures IsSuffix(r.payloads, st.payloads)
    ensures st.activeUsers <= r.activeUsers
    decreases fuel
  {
    if fuel == 0 || st.stopped || st.payloads == [] then st
    else RunAsWritten(StepAsWritten(st, concurrency, pagesize, w, feed), concurrency, pagesize, w, feed, fuel - 1)
  }

  /** With a concurrency of at least 1 the loop as written takes exactly the batches `Batches` describes. */
  lemma StepAsWrittenTakesNextBatch(st: LoopState, concurrency: int, pagesize: int, w: Window, feed: Request -> seq<Job>)
    requires concurrency >= 1 && st.payloads != []
    ensures var ready := NextBatch(st.payloads, concurrency);
      StepAsWritten(st, concurrency, pagesize, w, feed)
      == LoopState(st.payloads[|ready|..], st.activeUsers + UnionUsers(Inspect(ready, w, feed)), !AllFull(Inspect(ready, w, feed), pagesize))
  {
  }

  /**
   * With a concurrency of zero or less the loop as written never finishes
   * unless its first batch breaks out: `payloads[:concurrency]` is soon empty,
   * an empty batch counts as all full, and `payloads[concurrency:]` keeps the
   * same non-empty list, so the loop condition holds after any number of
   * iterations.
   */
  lemma {:induction false} NonPositiveConcurrencySpins(st: LoopState, concurrency: int, pagesize: int, w: Window, feed: Request -> seq<Job>, fuel: nat)
    requires concurrency <= 0 && st.payloads != [] && !st.stopped
    requires !StepAsWritten(st, concurrency, pagesize, w, feed).stopped
    ensures var last := RunAsWritten(st, concurrency, pagesize, w, feed, fuel);
      last.payloads != [] && !last.stopped
  {
    if fuel > 0 {
      var next := StepAsWritten(st, concurrency, pagesize, w, feed);
      NonPositiveSlices(st.payloads, concurrency);
      EmptyBatchIsFixpoint(next, concurrency, pagesize, w, feed);
      SpinsFromFixpoint(next, concurrency, pagesize, w, feed, fuel - 1);
      assert RunAsWritten(st, concurrency, pagesize, w, feed, fuel) == next;
    }
  }

  /** With `n <= 0`, `s[n:]` of a non-empty list is non-empty, and slicing it again by `n` takes nothing and leaves it whole. */
  lemma NonPositiveSlices(s: seq<Request>, n: int)
    requires n <= 0 && s != []
    ensures var rest := SliceFrom(s, n);
      rest != [] && SliceTo(rest, n) == [] && SliceFrom(rest, n) == rest
  {
  }

  /** An iteration whose batch is empty and whose slice leaves the list whole changes nothing. */
  lemma EmptyBatchIsFixpoint(st: LoopState, concurrency: int, pagesize: int, w: Window, feed: Request -> seq<Job>)
    requires SliceTo(st.payloads, concurrency) == [] && SliceFrom(st.payloads, concurrency) == st.payloads && !st.stopped
    ensures StepAsWritten(st, concurrency, pagesize, w, feed) == st
  {
    assert Inspect([], w, feed) == [];
  }

  lemma {:induction false} SpinsFromFixpoint(st: LoopState, concurrency: int, pagesize: int, w: Window, feed: Request -> seq<Job>, fuel: nat)
    requires st.payloads != [] && !st.stopped && StepAsWritten(st, concurrency, pagesize, w, feed) == st
    ensures RunAsWritten(st, concurrency, pagesize, w, feed, fuel) == st
    decreases fuel
  {
    if fuel > 0 {
      SpinsFromFixpoint(st, concurrency, pagesize, w, feed, fuel - 1);
    }
  }

  /** The input that shows it: concurrency 0 and one request, whatever its page holds. */
  lemma ZeroConcurrencyNeverExits(pagesize: int, w: Window, feed: Request -> seq<Job>, fuel: nat)
    ensures var start := LoopState([Request(0, 199)], {}, false);
      RunAsWritten(start, 0, pagesize, w, feed, fuel) == start
  {
    var start := LoopState([Request(0, 199)], {}, false);
    assert StepAsWritten(start, 0, pagesize, w, feed) == start;
    SpinsFromFixpoint(start, 0, pagesize, w, feed, fuel);
  }

  // ---------------------------------------------------------------------------
  // A worked scan

  /** The job-history feed of the worked scan below, page by page. */
  function ExampleFeed(r: Request): seq<Job>
  {
    if r.from == 0 then [Job(Some(150), Some("a")), Job(Some(160), Some("b"))]
    else if r.from == 2 then [Job(Some(120), Some("c"))]
    else [Job(Some(110), Some("d")), Job(None, Some("e"))]
  }

  /**
   * Page size 2, limit 6, one page per batch, window start 100. The first page
   * holds two in-window jobs of "a" and "b", the second a single in-window job
   * of "c", so the scan stops after the second page and never sees "d" and "e"
   * on the third.
   */
  lemma ShortPageStopsScan()
    ensures var requests := [Request(0, 1), Request(2, 3), Request(4, 5)];
      && Requests(2, 6) == Ok(requests)
      && Batches(requests, 1, 2, Window(100, 200), ExampleFeed) == [[Request(0, 1)], [Request(2, 3)]]
      && ActiveUsers(requests, 1, 2, Window(100, 200), ExampleFeed) == {"a", "b", "c"}
  {
    ExampleRequests();
    ExampleBatches();
    ExampleInspects();
    var full, short := PageSummary(2, {"a", "b"}), PageSummary(1, {"c"});
    assert Concat([[Request(0, 1)], [Request(2, 3)]]) == [Request(0, 1), Request(2, 3)];
    assert [full, short][1..] == [short] && [short][1..] == [];
    assert UnionUsers([short]) == {"c"};
    assert UnionUsers([full, short]) == {"a", "b"} + {"c"};
  }

  lemma ExampleRequests()
    ensures Requests(2, 6) == Ok([Request(0, 1), Request(2, 3), Request(4, 5)])
  {
    var offsets := Range(0, 6, 2);
    assert offsets == [0, 2, 4];
    var r := Requests(2, 6).value;
    assert |r| == 3;
    assert r[0] == Request(0, 1) && r[1] == Request(2, 3) && r[2] == Request(4, 5);
    assert r == [Request(0, 1), Request(2, 3), Request(4, 5)];
  }

  lemma ExamplePages()
    ensures Analyze(ExampleFeed(Request(0, 1)), Window(100, 200)) == PageSummary(2, {"a", "b"})
    ensures Analyze(ExampleFeed(Request(2, 3)), Window(100, 200)) == PageSummary(1, {"c"})
  {
    var page1 := [Job(Some(150), Some("a")), Job(Some(160), Some("b"))];
    assert page1[..1] == [page1[0]] && [page1[0]][..0] == [];
    assert [Job(Some(120), Some("c"))][..0] == [];
    assert InWindowJobs(page1, Window(100, 200)) == page1;
    assert UserNames(page1) == {"a", "b"};
  }

  lemma ExampleInspects()
    ensures Inspect([Request(0, 1)], Window(100, 200), ExampleFeed) == [PageSummary(2, {"a", "b"})]
    ensures Inspect([Request(2, 3)], Window(100, 200), ExampleFeed) == [PageSummary(1, {"c"})]
    ensures Inspect([Request(0, 1), Request(2, 3)], Window(100, 200), ExampleFeed)
         == [PageSummary(2, {"a", "b"}), PageSummary(1, {"c"})]
  {
    ExamplePages();
  }

  lemma ExampleBatches()
    ensures Batches([Request(0, 1), Request(2, 3), Request(4, 5)], 1, 2, Window(100, 200), ExampleFeed)
         == [[Request(0, 1)], [Request(2, 3)]]
  {
    var w, feed := Window(100, 200), ExampleFeed;
    var requests := [Request(0, 1), Request(2, 3), Request(4, 5)];
    ExampleInspects();
    var short := PageSummary(1, {"c"});
    assert [short][0].count != 2;
    var later := [Request(2, 3), Request(4, 5)];
    assert NextBatch(requests, 1) == [Request(0, 1)] && requests[1..] == later;
    assert NextBatch(later, 1) == [Request(2, 3)];
    BatchesUnfold(later, 1, 2, w, feed);
    BatchesUnfold(requests, 1, 2, w, feed);
  }
}
