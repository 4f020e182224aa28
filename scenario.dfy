/**
 * A client of the portal that walks through one hiring round and checks, from
 * the contracts alone, what each step leaves behind.
 */
module Scenario {
  import opened Wrappers
  import opened Models
  import opened Forms
  import opened Catalog
  import opened Views

  /** A search for "backend" lists the active job titled "Backend Engineer", whatever the case. */
  lemma SearchFindsTitle(jobs: seq<Job>)
    requires |jobs| == 1 && jobs[0].isActive && jobs[0].title == "Backend Engineer"
    ensures JobList(jobs, Query(None, None, Some("backend"))) == [0]
  {
    var q := Query(None, None, Some("backend"));
    assert OccursAt(LowerStr(jobs[0].title), LowerStr("backend"), 0);
    JobListExact(jobs, q);
    var r: seq<JobId> := JobList(jobs, q);
    var first: JobId := 0;
    assert forall x: JobId :: x != first ==> multiset(r)[x] == 0;
    assert multiset(r) == multiset{first};
  }

  /** One hiring round, from sign-up to a refused second interview. */
  method HiringRound(today: Day, now: Instant)
  {
    var portal := SignUp();
    PostRound(portal, today, now);
    ApplyRound(portal, now);
    InterviewRound(portal, now);
  }

  /** A job seeker (key 0) and an employer (key 1) register on an empty portal. */
  method SignUp() returns (portal: JobPortal)
    ensures fresh(portal) && portal.Valid()
    ensures HasRole(portal.profiles, 0, JobSeeker) && HasRole(portal.profiles, 1, Employer)
    ensures portal.categories == {1} && portal.jobs == [] && portal.applications == [] && portal.interviews == []
  {
    portal := new JobPortal({1});
    var o, alice := portal.Register(true, RegistrationData("alice", "alice@example.com", "job_seeker", "", "", ""));
    assert o == Done && alice == Some(0);
    var acme;
    o, acme := portal.Register(true, RegistrationData("acme", "hr@acme.example", "employer", "", "", "Acme"));
    assert o == Done && acme == Some(1);
  }

  /** The seeker is turned away from posting; the employer posts a job, and a search finds it. */
  method PostRound(portal: JobPortal, today: Day, now: Instant)
    requires portal.Valid()
    requires HasRole(portal.profiles, 0, JobSeeker) && HasRole(portal.profiles, 1, Employer)
    requires portal.categories == {1} && portal.jobs == []
    modifies portal
    ensures portal.Valid() && portal.profiles == old(portal.profiles)
    ensures portal.applications == old(portal.applications) && portal.interviews == old(portal.interviews)
    ensures |portal.jobs| == 1 && portal.jobs[0].employer == 1 && portal.jobs[0].isActive
  {
    var form := JobFormData("Backend Engineer", "Build services", Some(1), "full_time", "Remote",
                            None, "Three years", "Python, SQL", Some(today + 30));
    assert CleanJobForm(form, {1}, today).Success?;
    var o := portal.PostJob(0, true, form, today, now);
    assert o == Denied && portal.jobs == [];

    o := portal.PostJob(1, true, form, today, now);
    assert o == Done && |portal.jobs| == 1;
    assert portal.jobs[0].employer == 1 && portal.jobs[0].isActive;

    // Searching for "backend" finds the job.
    SearchFindsTitle(portal.jobs);
  }

  /** The seeker applies once; the second attempt is refused and adds no row. */
  method ApplyRound(portal: JobPortal, now: Instant)
    requires portal.Valid() && HasRole(portal.profiles, 0, JobSeeker)
    requires |portal.jobs| == 1 && portal.jobs[0].isActive && portal.applications == []
    modifies portal
    ensures portal.Valid() && portal.profiles == old(portal.profiles) && portal.jobs == old(portal.jobs)
    ensures portal.interviews == old(portal.interviews)
    ensures |portal.applications| == 1 && portal.applications[0].job == 0
  {
    var o: Outcome;
    o := portal.ApplyJob(0, 0, true, ApplicationFormData("I write Python."), now);
    assert o == Done && |portal.applications| == 1;
    assert portal.applications[0].status == Applied && portal.applications[0].job == 0;
    o := portal.ApplyJob(0, 0, true, ApplicationFormData("Me again."), now);
    assert o == AlreadyApplied && |portal.applications| == 1;
  }

  /** The employer of the only job schedules an interview for its only application, then tries again. */
  method InterviewRound(portal: JobPortal, now: Instant)
    requires portal.Valid()
    requires |portal.jobs| == 1 && portal.jobs[0].employer == 1 && HasRole(portal.profiles, 1, Employer)
    requires |portal.applications| == 1 && portal.applications[0].job == 0 && portal.interviews == []
    modifies portal
  {
    var o: Outcome;
    // The employer schedules an interview: the status moves, one interview exists.
    var interview := InterviewFormData(Some(now + 1000), Some(45), "video", "https://meet.example/acme", "");
    o := portal.ScheduleInterview(1, 0, true, interview);
    assert o == Done && |portal.interviews| == 1;
    assert portal.applications[0].status == InterviewScheduled;

    // A second interview for the same application is refused and changes nothing.
    assert portal.interviews[0].application == 0;
    o := portal.ScheduleInterview(1, 0, true, interview);
    assert o == Conflict && |portal.interviews| == 1;
  }
}
