/**
 * The public job catalog (jobs/views.py, `home` and `job_list`): the active jobs,
 * most recent first, narrowed by the optional category, job-type and free-text
 * filters. The query works on job keys; a job's key is its position in the table.
 */
module Catalog {
  import opened Wrappers
  import opened Models

  // ---------------------------------------------------------------------------
  // Case-insensitive substring search (ASCII case folding).
  // ---------------------------------------------------------------------------

  function Lower(c: char): char {
    if 'A' <= c <= 'Z' then (c as int + 32) as char else c
  }

  function LowerStr(s: string): (r: string)
    ensures |r| == |s|
    ensures forall i :: 0 <= i < |s| ==> r[i] == Lower(s[i])
  {
    if s == [] then [] else [Lower(s[0])] + LowerStr(s[1..])
  }

  /** Folding twice is folding once. */
  lemma LowerStrIdempotent(s: string)
    ensures LowerStr(LowerStr(s)) == LowerStr(s)
  {
  }

  /** `needle` occurs in `hay` at position `i`. */
  predicate OccursAt(hay: string, needle: string, i: int) {
    0 <= i && i + |needle| <= |hay| && hay[i..i + |needle|] == needle
  }

  /** Substring test, scanning the start positions left to right. */
  function Contains(hay: string, needle: string): (b: bool)
    ensures b <==> exists i :: OccursAt(hay, needle, i)
    decreases |hay|
  {
    if |needle| > |hay| then
      assert forall i :: !OccursAt(hay, needle, i);
      false
    else if hay[..|needle|] == needle then
      assert OccursAt(hay, needle, 0);
      true
    else
      var b := Contains(hay[1..], needle);
      forall i ensures OccursAt(hay[1..], needle, i) <==> OccursAt(hay, needle, i + 1) {
        if 0 <= i && i + |needle| <= |hay| - 1 {
          assert hay[1..][i..i + |needle|] == hay[i + 1..i + 1 + |needle|];
        }
      }
      assert forall i :: OccursAt(hay, needle, i) ==> i == 0 || OccursAt(hay[1..], needle, i - 1);
      b
  }

  /** Django's `icontains`: a substring match after folding both sides to lower case. */
  predicate ContainsIgnoreCase(hay: string, needle: string) {
    Contains(LowerStr(hay), LowerStr(needle))
  }

  /** The free-text search looks at the title, the description and the required skills. */
  predicate SearchMatches(job: Job, term: string) {
    ContainsIgnoreCase(job.title, term) || ContainsIgnoreCase(job.description, term)
    || ContainsIgnoreCase(job.skills, term)
  }

  /** The search ignores the case of the term. */
  lemma {:induction false} SearchIgnoresCase(job: Job, term: string)
    ensures SearchMatches(job, term) == SearchMatches(job, LowerStr(term))
  {
    LowerStrIdempotent(term);
  }

  // ---------------------------------------------------------------------------
  // The query and its declarative meaning.
  // ---------------------------------------------------------------------------

  /**
   * The query string. `category` is the category key, None when the parameter is
   * absent or empty; `jobType` and `search` are the raw parameters, where an absent
   * or empty value imposes no constraint.
   */
  datatype Query = Query(category: Option<CategoryId>, jobType: Option<string>, search: Option<string>)

  const NoFilters: Query := Query(None, None, None)

  /** A parameter narrows the result only when it is present and non-empty. */
  predicate Given(p: Option<string>) {
    p.Some? && p.value != ""
  }

  /** A job is listed when it is active and passes every filter that is given. */
  predicate Selected(job: Job, q: Query) {
    && job.isActive
    && (q.category.Some? ==> job.category == q.category.value)
    && (Given(q.jobType) ==> JobTypeCode(job.jobType) == q.jobType.value)
    && (Given(q.search) ==> SearchMatches(job, q.search.value))
  }

  /** Every key in `ids` names a row of `jobs`. */
  predicate InTable(ids: seq<JobId>, jobs: seq<Job>) {
    forall k :: 0 <= k < |ids| ==> ids[k] < |jobs|
  }

  /** Most recent first. */
  predicate ByRecency(ids: seq<JobId>, jobs: seq<Job>)
    requires InTable(ids, jobs)
  {
    forall i, j :: 0 <= i < j < |ids| ==> jobs[ids[i]].postedDate >= jobs[ids[j]].postedDate
  }

  // ---------------------------------------------------------------------------
  // The query as the source runs it: order the active jobs, then narrow.
  // ---------------------------------------------------------------------------

  /** The keys of a table of `n` rows, each once. */
  function AllKeys(n: nat): (r: seq<JobId>)
    ensures |r| == n
    ensures forall k :: 0 <= k < n ==> r[k] == k
    ensures forall x: JobId :: multiset(r)[x] == if x < n then 1 else 0
  {
    if n == 0 then [] else AllKeys(n - 1) + [n - 1]
  }

  /** Prepending a job at least as recent as every listed one keeps the order. */
  lemma {:induction false} PrependKeepsOrder(h: JobId, ids: seq<JobId>, jobs: seq<Job>)
    requires h < |jobs| && InTable(ids, jobs) && ByRecency(ids, jobs)
    requires forall k :: 0 <= k < |ids| ==> jobs[ids[k]].postedDate <= jobs[h].postedDate
    ensures InTable([h] + ids, jobs) && ByRecency([h] + ids, jobs)
  {
    var r := [h] + ids;
    assert forall k :: 0 < k < |r| ==> r[k] == ids[k - 1];
  }

  /** The keys of `ids` whose rows satisfy `keep`, in their original order. */
  function Narrow(ids: seq<JobId>, jobs: seq<Job>, keep: Job -> bool): (r: seq<JobId>)
    requires InTable(ids, jobs)
    ensures InTable(r, jobs) && |r| <= |ids|
  {
    if ids == [] then []
    else if keep(jobs[ids[0]]) then [ids[0]] + Narrow(ids[1..], jobs, keep)
    else Narrow(ids[1..], jobs, keep)
  }

  /** Narrowing keeps every occurrence of a key whose row passes, and drops every other key. */
  lemma {:induction false} NarrowCount(ids: seq<JobId>, jobs: seq<Job>, keep: Job -> bool, x: JobId)
    requires InTable(ids, jobs)
    ensures multiset(Narrow(ids, jobs, keep))[x] == if x < |jobs| && keep(jobs[x]) then multiset(ids)[x] else 0
  {
    if ids != [] {
      NarrowCount(ids[1..], jobs, keep, x);
      assert ids == [ids[0]] + ids[1..];
      assert multiset(ids)[x] == (if x == ids[0] then 1 else 0) + multiset(ids[1..])[x];
    }
  }

  /** Narrowing keeps the relative order, so it keeps the listing by recency. */
  lemma {:induction false} NarrowKeepsOrder(ids: seq<JobId>, jobs: seq<Job>, keep: Job -> bool)
    requires InTable(ids, jobs) && ByRecency(ids, jobs)
    ensures ByRecency(Narrow(ids, jobs, keep), jobs)
  {
    if ids != [] {
      var rest := Narrow(ids[1..], jobs, keep);
      NarrowKeepsOrder(ids[1..], jobs, keep);
      if keep(jobs[ids[0]]) {
        forall k | 0 <= k < |rest| ensures jobs[rest[k]].postedDate <= jobs[ids[0]].postedDate {
          NarrowCount(ids[1..], jobs, keep, rest[k]);
          assert multiset(rest)[rest[k]] > 0;
          assert rest[k] in ids[1..];
        }
        PrependKeepsOrder(ids[0], rest, jobs);
      }
    }
  }

  /** Puts `id` in front of the first job that is strictly older. */
  function Insert(id: JobId, ids: seq<JobId>, jobs: seq<Job>): (r: seq<JobId>)
    requires id < |jobs| && InTable(ids, jobs) && ByRecency(ids, jobs)
    ensures InTable(r, jobs) && ByRecency(r, jobs)
    ensures multiset(r) == multiset(ids) + multiset{id}
  {
    if ids == [] || jobs[id].postedDate >= jobs[ids[0]].postedDate then
      PrependKeepsOrder(id, ids, jobs);
      [id] + ids
    else
      var rest := Insert(id, ids[1..], jobs);
      assert ids == [ids[0]] + ids[1..];
      forall k | 0 <= k < |rest| ensures jobs[rest[k]].postedDate <= jobs[ids[0]].postedDate {
        var x := rest[k];
        assert multiset(rest)[x] > 0;
        if x != id {
          assert x in ids[1..];
        }
      }
      PrependKeepsOrder(ids[0], rest, jobs);
      assert multiset(ids) == multiset{ids[0]} + multiset(ids[1..]);
      [ids[0]] + rest
  }

  /** Insertion sort, most recent first. */
  function SortByRecency(ids: seq<JobId>, jobs: seq<Job>): (r: seq<JobId>)
    requires InTable(ids, jobs)
    ensures InTable(r, jobs) && ByRecency(r, jobs)
    ensures multiset(r) == multiset(ids)
  {
    if ids == [] then []
    else
      assert ids == [ids[0]] + ids[1..];
      Insert(ids[0], SortByRecency(ids[1..], jobs), jobs)
  }

  /** The filters of the chain, one per query parameter. */
  function IsActive(): Job -> bool {
    (j: Job) => j.isActive
  }

  function InCategory(c: CategoryId): Job -> bool {
    (j: Job) => j.category == c
  }

  function OfJobType(code: string): Job -> bool {
    (j: Job) => JobTypeCode(j.jobType) == code
  }

  function MatchesSearch(term: string): Job -> bool {
    (j: Job) => SearchMatches(j, term)
  }

  /** The active jobs, most recent first: the base of both the home page and the listing. */
  function ActiveByRecency(jobs: seq<Job>): (r: seq<JobId>)
    ensures InTable(r, jobs) && ByRecency(r, jobs)
  {
    SortByRecency(Narrow(AllKeys(|jobs|), jobs, IsActive()), jobs)
  }

  /** The listing: each given filter narrows the ordered active jobs in turn. */
  function JobList(jobs: seq<Job>, q: Query): (r: seq<JobId>)
    ensures InTable(r, jobs) && ByRecency(r, jobs)
  {
    var active := ActiveByRecency(jobs);
    var byCategory := if q.category.Some? then Narrow(active, jobs, InCategory(q.category.value)) else active;
    assert ByRecency(byCategory, jobs) by {
      if q.category.Some? { NarrowKeepsOrder(active, jobs, InCategory(q.category.value)); }
    }
    var byType := if Given(q.jobType) then Narrow(byCategory, jobs, OfJobType(q.jobType.value)) else byCategory;
    assert ByRecency(byType, jobs) by {
      if Given(q.jobType) { NarrowKeepsOrder(byCategory, jobs, OfJobType(q.jobType.value)); }
    }
    if Given(q.search) then
      NarrowKeepsOrder(byType, jobs, MatchesSearch(q.search.value));
      Narrow(byType, jobs, MatchesSearch(q.search.value))
    else byType
  }

  /** The home page shows the first eight of the active jobs. */
  const HomePageSize := 8

  function Home(jobs: seq<Job>): (r: seq<JobId>)
    ensures |r| <= HomePageSize
    ensures InTable(r, jobs) && ByRecency(r, jobs)
  {
    var active := ActiveByRecency(jobs);
    if |active| <= HomePageSize then active else active[..HomePageSize]
  }

  // ---------------------------------------------------------------------------
  // What the query returns.
  // ---------------------------------------------------------------------------

  /** Each active job appears exactly once among the ordered active jobs, and nothing else does. */
  lemma {:induction false} ActiveByRecencyCount(jobs: seq<Job>, x: JobId)
    ensures multiset(ActiveByRecency(jobs))[x] == if x < |jobs| && jobs[x].isActive then 1 else 0
  {
    NarrowCount(AllKeys(|jobs|), jobs, IsActive(), x);
  }

  /**
   * The listing holds exactly the active jobs that satisfy every given filter
   * (the search matching title, description or skills), each once, most recent
   * first.
   */
  lemma {:induction false} JobListExact(jobs: seq<Job>, q: Query)
    ensures forall x: JobId :: multiset(JobList(jobs, q))[x] == if x < |jobs| && Selected(jobs[x], q) then 1 else 0
    ensures ByRecency(JobList(jobs, q), jobs)
  {
    var active: seq<JobId> := ActiveByRecency(jobs);
    var byCategory: seq<JobId> := if q.category.Some? then Narrow(active, jobs, InCategory(q.category.value)) else active;
    var byType: seq<JobId> := if Given(q.jobType) then Narrow(byCategory, jobs, OfJobType(q.jobType.value)) else byCategory;
    var r: seq<JobId> := if Given(q.search) then Narrow(byType, jobs, MatchesSearch(q.search.value)) else byType;
    assert r == JobList(jobs, q);
    forall x: JobId ensures multiset(r)[x] == if x < |jobs| && Selected(jobs[x], q) then 1 else 0 {
      ActiveByRecencyCount(jobs, x);
      if q.category.Some? { NarrowCount(active, jobs, InCategory(q.category.value), x); }
      if Given(q.jobType) { NarrowCount(byCategory, jobs, OfJobType(q.jobType.value), x); }
      if Given(q.search) { NarrowCount(byType, jobs, MatchesSearch(q.search.value), x); }
    }
  }

  /** Membership form of JobListExact: soundness and completeness of the listing. */
  lemma {:induction false} JobListMembers(jobs: seq<Job>, q: Query, x: JobId)
    ensures x in JobList(jobs, q) <==> x < |jobs| && Selected(jobs[x], q)
  {
    JobListExact(jobs, q);
    assert x in JobList(jobs, q) <==> multiset(JobList(jobs, q))[x] > 0;
  }

  /** The query `q'` asks for at most what `q` asks for: each of its filters is absent or the same. */
  predicate Relaxes(q': Query, q: Query) {
    && (q'.category.None? || q'.category == q.category)
    && (!Given(q'.jobType) || q'.jobType == q.jobType)
    && (!Given(q'.search) || q'.search == q.search)
  }

  /** Dropping filters never narrows the listing. */
  lemma {:induction false} DroppingFiltersWidens(jobs: seq<Job>, q: Query, q': Query, x: JobId)
    requires Relaxes(q', q)
    ensures x in JobList(jobs, q) ==> x in JobList(jobs, q')
  {
    JobListMembers(jobs, q, x);
    JobListMembers(jobs, q', x);
  }

  /** With no filter, the listing is every active job. */
  lemma {:induction false} UnfilteredListsAllActive(jobs: seq<Job>, x: JobId)
    ensures x in JobList(jobs, NoFilters) <==> x < |jobs| && jobs[x].isActive
  {
    JobListMembers(jobs, NoFilters, x);
  }

  /** The home page is the first (at most) eight of the active jobs by recency, all of them when there are fewer. */
  lemma {:induction false} HomeIsFirstEight(jobs: seq<Job>)
    ensures |Home(jobs)| == if |ActiveByRecency(jobs)| <= HomePageSize then |ActiveByRecency(jobs)| else HomePageSize
    ensures Home(jobs) <= ActiveByRecency(jobs)
    ensures |ActiveByRecency(jobs)| <= HomePageSize ==> Home(jobs) == ActiveByRecency(jobs)
    ensures forall x: JobId :: x in Home(jobs) ==> x < |jobs| && jobs[x].isActive
  {
    var active := ActiveByRecency(jobs);
    forall x: JobId | x in Home(jobs) ensures x < |jobs| && jobs[x].isActive {
      assert x in active;
      ActiveByRecencyCount(jobs, x);
    }
  }

  /** No active job left off the home page is more recent than a job shown on it. */
  lemma {:induction false} HomeShowsMostRecent(jobs: seq<Job>, shown: JobId, left: JobId)
    requires shown in Home(jobs)
    requires left < |jobs| && jobs[left].isActive && left !in Home(jobs)
    ensures jobs[left].postedDate <= jobs[shown].postedDate
  {
    var active := ActiveByRecency(jobs);
    var home := Home(jobs);
    var i :| 0 <= i < |home| && home[i] == shown;
    ActiveByRecencyCount(jobs, left);
    assert multiset(active)[left] == 1;
    var j :| 0 <= j < |active| && active[j] == left;
    assert forall k :: 0 <= k < |home| ==> active[k] == home[k];
    assert active[i] == shown && i < j;
  }
}
