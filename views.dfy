/**
 * The request handlers of the portal (jobs/views.py) over the five tables.
 *
 * The acting user is an explicit parameter (authenticated wherever the source
 * requires a login), the request method is `isPost`, and the clock is passed in
 * as `today` (a day) and `now` (an instant). Each handler runs its guard ladder
 * and then performs at most one write; its answer is reduced to an `Outcome`.
 */
module Views {
  import opened Wrappers
  import opened Models
  import opened Forms

  /** What a handler answers, reduced to its kind. */
  datatype Outcome =
    | CompleteProfile  // no profile yet: redirect to the profile page
    | Denied           // the actor's role is wrong: error message and redirect
    | NotFound         // the addressed row does not exist or is not the actor's
    | AlreadyApplied   // warning: the seeker has an application for this job
    | FormShown        // a GET: the empty form is rendered
    | Invalid          // a POST whose form has errors: the form is rendered again
    | Ignored          // no valid status was posted: plain redirect
    | Conflict         // the application already has an interview: the insert is refused
    | Done             // the write was made

  /** The role check at the head of every privileged handler. */
  predicate HasRole(profiles: map<UserId, Profile>, actor: UserId, role: UserType) {
    actor in profiles && profiles[actor].userType == role
  }

  /** Only active jobs can be seen in detail or applied to. */
  predicate IsActiveJob(jobs: seq<Job>, id: JobId) {
    id < |jobs| && jobs[id].isActive
  }

  /** An application is found for an employer only through one of that employer's jobs. */
  predicate OwnsApplication(jobs: seq<Job>, apps: seq<JobApplication>, actor: UserId, id: ApplicationId) {
    id < |apps| && apps[id].job < |jobs| && jobs[apps[id].job].employer == actor
  }

  /** A registered account; its key is its position in the table. */
  datatype Account = Account(username: string, email: string)

  /** The row a valid job form becomes: the employer and the active flag are set here, never read from the form. */
  function JobFromDraft(d: JobDraft, employer: UserId, now: Instant): (j: Job)
    ensures j.employer == employer && j.isActive && j.postedDate == now
    ensures j.title == d.title && j.description == d.description && j.category == d.category
    ensures j.jobType == d.jobType && j.location == d.location && j.salary == d.salary
    ensures j.requirements == d.requirements && j.skills == d.skills && j.deadline == d.deadline
  {
    Job(d.title, d.description, d.category, d.jobType, d.location, d.salary, employer,
        d.requirements, d.skills, now, d.deadline, true)
  }

  /** A job posted on day `today` is not past its deadline that day. */
  lemma {:induction false} PostedJobOpenOnPostingDay(f: JobFormData, categories: set<CategoryId>, today: Day,
                                                      employer: UserId, now: Instant)
    requires CleanJobForm(f, categories, today).Success?
    ensures !IsDeadlinePassed(JobFromDraft(CleanJobForm(f, categories, today).value, employer, now), today)
  {
  }

  /** The interview row a valid interview form becomes, attached to the application the view found. */
  function AttachInterview(d: InterviewDraft, app: ApplicationId): (iv: Interview)
    ensures iv.application == app
    ensures iv.scheduledDate == d.scheduledDate && iv.duration == d.duration
    ensures iv.interviewType == d.interviewType && iv.locationOrLink == d.locationOrLink && iv.notes == d.notes
  {
    Interview(app, d.scheduledDate, d.duration, d.interviewType, d.locationOrLink, d.notes)
  }

  // ---------------------------------------------------------------------------
  // Read-only handlers.
  // ---------------------------------------------------------------------------

  /**
   * The job detail page: None for a missing or inactive job; otherwise whether
   * the viewer, when signed in as a job seeker, has applied to it.
   */
  function JobDetail(profiles: map<UserId, Profile>, jobs: seq<Job>, apps: seq<JobApplication>,
                     viewer: Option<UserId>, job: JobId): (r: Option<bool>)
    ensures r.None? <==> !IsActiveJob(jobs, job)
    ensures r == Some(true) <==>
      IsActiveJob(jobs, job) && viewer.Some? && HasRole(profiles, viewer.value, JobSeeker)
      && HasApplication(apps, job, viewer.value)
    ensures viewer.None? || (viewer.Some? && !HasRole(profiles, viewer.value, JobSeeker)) ==> r != Some(true)
  {
    if !IsActiveJob(jobs, job) then None
    else if viewer.Some? && viewer.value in profiles && profiles[viewer.value].userType == JobSeeker then
      Some(HasApplication(apps, job, viewer.value))
    else Some(false)
  }

  /** How the browser is told to present a streamed resume. */
  datatype Disposition = Inline | Attachment

  /** The answer of the resume handlers. */
  datatype ResumeAnswer =
    | ResumeDenied
    | ResumeNotFound
    | NoResume
    | Stream(fileName: string, contentType: string, disposition: Disposition, contentDisposition: string)

  const ResumeContentType := "application/pdf"

  /** The `filename` parameter of a Content-Disposition header. */
  function FileNameParameter(fileName: string): string {
    "; filename=\"" + fileName + "\""
  }

  /**
   * The Content-Disposition header sent with a streamed resume: the disposition
   * type, then the quoted file name as its only parameter.
   */
  function ContentDisposition(d: Disposition, fileName: string): (h: string)
    ensures |h| >= |fileName| + 13
    ensures h[|h| - |fileName| - 13..] == FileNameParameter(fileName)
    ensures d == Inline <==> h[..|h| - |fileName| - 13] == "inline"
    ensures d == Attachment <==> h[..|h| - |fileName| - 13] == "attachment"
    ensures d == Inline <==> h[..7] == "inline;"
    ensures d == Attachment <==> |h| >= 11 && h[..11] == "attachment;"
  {
    var t := match d case Inline => "inline" case Attachment => "attachment";
    var h := t + FileNameParameter(fileName);
    assert |FileNameParameter(fileName)| == |fileName| + 13;
    assert h[..|t|] == t && h[|t|..] == FileNameParameter(fileName);
    assert h[..7] == "inline;" ==> h[0] == 'i';
    assert |h| >= 11 && h[..11] == "attachment;" ==> h[0] == 'a';
    h
  }

  /**
   * The guard ladder shared by viewing and downloading a resume: an employer,
   * reaching the application through one of their jobs, whose applicant has a
   * resume. The two handlers differ only in the disposition.
   */
  function Resume(profiles: map<UserId, Profile>, jobs: seq<Job>, apps: seq<JobApplication>,
                  actor: UserId, id: ApplicationId, d: Disposition): (r: ResumeAnswer)
    ensures r == ResumeDenied <==> !HasRole(profiles, actor, Employer)
    ensures r == ResumeNotFound <==> HasRole(profiles, actor, Employer) && !OwnsApplication(jobs, apps, actor, id)
    ensures r.Stream? <==>
      HasRole(profiles, actor, Employer) && OwnsApplication(jobs, apps, actor, id)
      && apps[id].applicant in profiles && HasResume(profiles[apps[id].applicant])
    ensures r.Stream? ==>
      Some(r.fileName) == profiles[apps[id].applicant].resume
      && r.contentType == ResumeContentType && r.disposition == d
      && r.contentDisposition == ContentDisposition(d, r.fileName)
  {
    if !HasRole(profiles, actor, Employer) then ResumeDenied
    else if !OwnsApplication(jobs, apps, actor, id) then ResumeNotFound
    else if apps[id].applicant !in profiles || !HasResume(profiles[apps[id].applicant]) then NoResume
    else
      var name := profiles[apps[id].applicant].resume.value;
      Stream(name, ResumeContentType, d, ContentDisposition(d, name))
  }

  /** Viewing and downloading reach the same decision and the same file. */
  lemma {:induction false} ViewAndDownloadAgree(profiles: map<UserId, Profile>, jobs: seq<Job>,
                                                apps: seq<JobApplication>, actor: UserId, id: ApplicationId)
    ensures var v := Resume(profiles, jobs, apps, actor, id, Inline);
            var w := Resume(profiles, jobs, apps, actor, id, Attachment);
            v.Stream? == w.Stream? && (!v.Stream? ==> v == w)
            && (v.Stream? ==> v.fileName == w.fileName && v.disposition == Inline && w.disposition == Attachment)
  {
  }

  // ---------------------------------------------------------------------------
  // The tables and the handlers that write them.
  // ---------------------------------------------------------------------------

  class JobPortal {
    var users: seq<Account>
    var profiles: map<UserId, Profile>
    var categories: set<CategoryId>
    var jobs: seq<Job>
    var applications: seq<JobApplication>
    var interviews: seq<Interview>

    /**
     * The constraints of the tables: references point at existing rows, jobs
     * belong to employers and applications to job seekers, at most one
     * application per job and applicant, at most one interview per application.
     */
    ghost predicate Valid(): (valid: bool)
      reads this
      ensures valid ==> UniqueApplications(applications) && OneInterviewPerApplication(interviews)
    {
      && (forall u :: u in profiles ==> u < |users|)
      && (forall i :: 0 <= i < |jobs| ==>
            jobs[i].category in categories && HasRole(profiles, jobs[i].employer, Employer))
      && (forall i :: 0 <= i < |applications| ==>
            applications[i].job < |jobs| && HasRole(profiles, applications[i].applicant, JobSeeker))
      && UniqueApplications(applications)
      && (forall i :: 0 <= i < |interviews| ==> interviews[i].application < |applications|)
      && OneInterviewPerApplication(interviews)
    }

    /** Empty tables over a given set of job categories. */
    constructor (categories: set<CategoryId>)
      ensures Valid()
      ensures this.categories == categories
      ensures users == [] && profiles == map[] && jobs == [] && applications == [] && interviews == []
    {
      this.categories := categories;
      users, profiles := [], map[];
      jobs, applications, interviews := [], [], [];
    }

    /**
     * Saves a cleaned registration: with `commit`, a new account and exactly one
     * profile for it, carrying the chosen user type; without, nothing is stored
     * and the unsaved account has no key.
     */
    method SaveRegistration(d: RegistrationDraft, commit: bool) returns (user: Option<UserId>)
      requires Valid()
      modifies this`users, this`profiles
      ensures Valid()
      ensures !commit ==> user.None? && users == old(users) && profiles == old(profiles)
      ensures commit ==>
        && user == Some(|old(users)|)
        && old(|users|) !in old(profiles)
        && users == old(users) + [Account(d.username, d.email)]
        && profiles == old(profiles)[|old(users)| := Profile(d.userType, d.phone, d.address, d.companyName, None)]
    {
      if !commit {
        return None;
      }
      var id := |users|;
      users := users + [Account(d.username, d.email)];
      profiles := profiles[id := Profile(d.userType, d.phone, d.address, d.companyName, None)];
      user := Some(id);
    }

    /**
     * Editing one's own profile: a user without a profile gets NotFound; a valid
     * POST rewrites the contact fields and the resume but never the user type.
     */
    method EditProfile(actor: UserId, isPost: bool, f: ProfileFormData) returns (o: Outcome)
      requires Valid()
      modifies this`profiles
      ensures Valid()
      ensures o == NotFound <==> actor !in old(profiles)
      ensures o == FormShown <==> actor in old(profiles) && !isPost
      ensures o == Invalid <==> actor in old(profiles) && isPost && CleanProfileForm(f, old(profiles)[actor]).Failure?
      ensures o == Done <==> actor in old(profiles) && isPost && CleanProfileForm(f, old(profiles)[actor]).Success?
      ensures o != Done ==> profiles == old(profiles)
      ensures o == Done ==> profiles == old(profiles)[actor := CleanProfileForm(f, old(profiles)[actor]).value]
      ensures forall u :: u in old(profiles) <==> u in profiles
      ensures forall u :: u in profiles ==> profiles[u].userType == old(profiles)[u].userType
    {
      if actor !in profiles {
        return NotFound;
      }
      if !isPost {
        return FormShown;
      }
      var cleaned := CleanProfileForm(f, profiles[actor]);
      if cleaned.Failure? {
        return Invalid;
      }
      profiles := profiles[actor := cleaned.value];
      o := Done;
    }

    /** The registration page: a valid POST saves the account and its profile. */
    method Register(isPost: bool, f: RegistrationData) returns (o: Outcome, user: Option<UserId>)
      requires Valid()
      modifies this`users, this`profiles
      ensures Valid()
      ensures o == FormShown <==> !isPost
      ensures o == Invalid <==> isPost && CleanRegistration(f).Failure?
      ensures o == Done <==> isPost && CleanRegistration(f).Success?
      ensures o != Done ==> user.None? && users == old(users) && profiles == old(profiles)
      ensures o == Done ==>
        && user == Some(|old(users)|)
        && users == old(users) + [Account(f.username, f.email)]
        && profiles == old(profiles)[|old(users)| :=
             Profile(CleanRegistration(f).value.userType, f.phone, f.address, f.companyName, None)]
    {
      if !isPost {
        return FormShown, None;
      }
      var cleaned := CleanRegistration(f);
      if cleaned.Failure? {
        return Invalid, None;
      }
      user := SaveRegistration(cleaned.value, true);
      o := Done;
    }

    /**
     * Posting a job: only an employer may; a valid form adds exactly one job,
     * owned by the actor and active, whatever the form held.
     */
    method PostJob(actor: UserId, isPost: bool, f: JobFormData, today: Day, now: Instant) returns (o: Outcome)
      requires Valid()
      modifies this`jobs
      ensures Valid()
      ensures o == CompleteProfile <==> actor !in profiles
      ensures o == Denied <==> actor in profiles && profiles[actor].userType != Employer
      ensures o == FormShown <==> HasRole(profiles, actor, Employer) && !isPost
      ensures o == Invalid <==>
        HasRole(profiles, actor, Employer) && isPost && CleanJobForm(f, categories, today).Failure?
      ensures o == Done <==>
        HasRole(profiles, actor, Employer) && isPost && CleanJobForm(f, categories, today).Success?
      ensures o != Done ==> jobs == old(jobs)
      ensures o == Done ==>
        jobs == old(jobs) + [JobFromDraft(CleanJobForm(f, categories, today).value, actor, now)]
    {
      if actor !in profiles {
        return CompleteProfile;
      }
      if profiles[actor].userType != Employer {
        return Denied;
      }
      if !isPost {
        return FormShown;
      }
      var cleaned := CleanJobForm(f, categories, today);
      if cleaned.Failure? {
        return Invalid;
      }
      jobs := jobs + [JobFromDraft(cleaned.value, actor, now)];
      o := Done;
    }

    /**
     * Applying to a job: only a job seeker, only to an active job (the deadline
     * is not consulted), at most once; a valid POST adds exactly one application,
     * for that job and applicant, in the default status.
     */
    method ApplyJob(actor: UserId, job: JobId, isPost: bool, f: ApplicationFormData, now: Instant)
      returns (o: Outcome)
      requires Valid()
      modifies this`applications
      ensures Valid()
      ensures o == Denied <==> !HasRole(profiles, actor, JobSeeker)
      ensures o == NotFound <==> HasRole(profiles, actor, JobSeeker) && !IsActiveJob(jobs, job)
      ensures o == AlreadyApplied <==>
        HasRole(profiles, actor, JobSeeker) && IsActiveJob(jobs, job) && old(HasApplication(applications, job, actor))
      ensures o == FormShown <==>
        HasRole(profiles, actor, JobSeeker) && IsActiveJob(jobs, job) && old(!HasApplication(applications, job, actor))
        && !isPost
      ensures o == Invalid <==>
        HasRole(profiles, actor, JobSeeker) && IsActiveJob(jobs, job) && old(!HasApplication(applications, job, actor))
        && isPost && !ValidApplicationForm(f)
      ensures o == Done <==>
        HasRole(profiles, actor, JobSeeker) && IsActiveJob(jobs, job) && old(!HasApplication(applications, job, actor))
        && isPost && ValidApplicationForm(f)
      ensures o != Done ==> applications == old(applications)
      ensures o == Done ==> applications == old(applications) + [NewApplication(job, actor, f.coverLetter, now)]
    {
      if !HasRole(profiles, actor, JobSeeker) {
        return Denied;
      }
      if !IsActiveJob(jobs, job) {
        return NotFound;
      }
      if HasApplication(applications, job, actor) {
        return AlreadyApplied;
      }
      if !isPost {
        return FormShown;
      }
      if !ValidApplicationForm(f) {
        return Invalid;
      }
      var application := NewApplication(job, actor, f.coverLetter, now);
      InsertApplicationUnique(applications, application);
      applications := applications + [application];
      o := Done;
    }

    /**
     * Changing an application's status: only the employer of its job reaches it;
     * a POSTed status is applied only when it is one of the enumerated codes,
     * with no restriction on which status follows which.
     */
    method UpdateApplicationStatus(actor: UserId, id: ApplicationId, isPost: bool, status: Option<string>)
      returns (o: Outcome)
      requires Valid()
      modifies this`applications
      ensures Valid()
      ensures o == Denied <==> !HasRole(profiles, actor, Employer)
      ensures o == NotFound <==>
        HasRole(profiles, actor, Employer) && old(!OwnsApplication(jobs, applications, actor, id))
      ensures o == Done <==>
        HasRole(profiles, actor, Employer) && old(OwnsApplication(jobs, applications, actor, id))
        && isPost && status.Some? && ParseStatus(status.value).Some?
      ensures o == Ignored <==>
        HasRole(profiles, actor, Employer) && old(OwnsApplication(jobs, applications, actor, id))
        && !(isPost && status.Some? && ParseStatus(status.value).Some?)
      ensures o != Done ==> applications == old(applications)
      ensures o == Done ==> applications == WithStatus(old(applications), id, ParseStatus(status.value).value)
    {
      if !HasRole(profiles, actor, Employer) {
        return Denied;
      }
      if !OwnsApplication(jobs, applications, actor, id) {
        return NotFound;
      }
      if !isPost || status.None? {
        return Ignored;
      }
      var parsed := ParseStatus(status.value);
      if parsed.None? {
        return Ignored;
      }
      WithStatusKeepsUnique(applications, id, parsed.value);
      applications := WithStatus(applications, id, parsed.value);
      o := Done;
    }

    /**
     * Scheduling an interview: only the employer of the application's job; a
     * valid POST first inserts the interview, which the one-to-one reference
     * refuses when the application already has one (nothing is written then),
     * and then sets the application's status to interview_scheduled, whatever
     * it was.
     */
    method ScheduleInterview(actor: UserId, id: ApplicationId, isPost: bool, f: InterviewFormData)
      returns (o: Outcome)
      requires Valid()
      modifies this`interviews, this`applications
      ensures Valid()
      ensures o == Denied <==> !HasRole(profiles, actor, Employer)
      ensures o == NotFound <==>
        HasRole(profiles, actor, Employer) && old(!OwnsApplication(jobs, applications, actor, id))
      ensures o == FormShown <==>
        HasRole(profiles, actor, Employer) && old(OwnsApplication(jobs, applications, actor, id)) && !isPost
      ensures o == Invalid <==>
        HasRole(profiles, actor, Employer) && old(OwnsApplication(jobs, applications, actor, id)) && isPost
        && CleanInterviewForm(f).Failure?
      ensures o == Conflict <==>
        HasRole(profiles, actor, Employer) && old(OwnsApplication(jobs, applications, actor, id)) && isPost
        && CleanInterviewForm(f).Success? && old(HasInterview(interviews, id))
      ensures o == Done <==>
        HasRole(profiles, actor, Employer) && old(OwnsApplication(jobs, applications, actor, id)) && isPost
        && CleanInterviewForm(f).Success? && old(!HasInterview(interviews, id))
      ensures o != Done ==> interviews == old(interviews) && applications == old(applications)
      ensures o == Done ==>
        && interviews == old(interviews) + [AttachInterview(CleanInterviewForm(f).value, id)]
        && applications == WithStatus(old(applications), id, InterviewScheduled)
    {
      if !HasRole(profiles, actor, Employer) {
        return Denied;
      }
      if !OwnsApplication(jobs, applications, actor, id) {
        return NotFound;
      }
      if !isPost {
        return FormShown;
      }
      var cleaned := CleanInterviewForm(f);
      if cleaned.Failure? {
        return Invalid;
      }
      if HasInterview(interviews, id) {
        return Conflict;
      }
      var interview := AttachInterview(cleaned.value, id);
      InsertInterviewUnique(interviews, interview);
      interviews := interviews + [interview];
      WithStatusKeepsUnique(applications, id, InterviewScheduled);
      applications := WithStatus(applications, id, InterviewScheduled);
      o := Done;
    }
  }
}
