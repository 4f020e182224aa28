/**
 * The persistent entities of the job portal (jobs/models.py): the choice sets,
 * the rows of the five tables, and the storage constraints the database enforces
 * (one application per job and applicant, one interview per application).
 */
module Models {
  import opened Wrappers

  /** Primary keys. Rows are never deleted in the modelled flows, so a key is a position in its table. */
  type UserId = nat
  type CategoryId = nat
  type JobId = nat
  type ApplicationId = nat

  /** A calendar date as a day number, and an instant as a timestamp. */
  type Day = int
  type Instant = int

  // ---------------------------------------------------------------------------
  // Choice sets. Each enumeration has the stored code of the source's choices
  // tuple and a parser that accepts exactly those codes.
  // ---------------------------------------------------------------------------

  datatype UserType = JobSeeker | Employer

  const UserTypes: seq<UserType> := [JobSeeker, Employer]

  function UserTypeCode(t: UserType): string {
    match t
    case JobSeeker => "job_seeker"
    case Employer => "employer"
  }

  function ParseUserType(code: string): (r: Option<UserType>)
    ensures r.Some? ==> UserTypeCode(r.value) == code
    ensures r.None? ==> forall t :: UserTypeCode(t) != code
  {
    if code == "job_seeker" then Some(JobSeeker)
    else if code == "employer" then Some(Employer)
    else None
  }

  datatype JobType = FullTime | PartTime | Contract | Internship | Remote

  const JobTypes: seq<JobType> := [FullTime, PartTime, Contract, Internship, Remote]

  function JobTypeCode(t: JobType): string {
    match t
    case FullTime => "full_time"
    case PartTime => "part_time"
    case Contract => "contract"
    case Internship => "internship"
    case Remote => "remote"
  }

  function ParseJobType(code: string): (r: Option<JobType>)
    ensures r.Some? ==> JobTypeCode(r.value) == code
    ensures r.None? ==> forall t :: JobTypeCode(t) != code
  {
    if code == "full_time" then Some(FullTime)
    else if code == "part_time" then Some(PartTime)
    else if code == "contract" then Some(Contract)
    else if code == "internship" then Some(Internship)
    else if code == "remote" then Some(Remote)
    else None
  }

  datatype ApplicationStatus = Applied | Shortlisted | Rejected | InterviewScheduled | Hired

  const ApplicationStatuses: seq<ApplicationStatus> :=
    [Applied, Shortlisted, Rejected, InterviewScheduled, Hired]

  function StatusCode(s: ApplicationStatus): string {
    match s
    case Applied => "applied"
    case Shortlisted => "shortlisted"
    case Rejected => "rejected"
    case InterviewScheduled => "interview_scheduled"
    case Hired => "hired"
  }

  /** Membership in the keys of the status choices, as a submitted status is checked. */
  function ParseStatus(code: string): (r: Option<ApplicationStatus>)
    ensures r.Some? ==> StatusCode(r.value) == code
    ensures r.None? ==> forall s :: StatusCode(s) != code
  {
    if code == "applied" then Some(Applied)
    else if code == "shortlisted" then Some(Shortlisted)
    else if code == "rejected" then Some(Rejected)
    else if code == "interview_scheduled" then Some(InterviewScheduled)
    else if code == "hired" then Some(Hired)
    else None
  }

  /** A new application starts in this status. */
  const DefaultStatus: ApplicationStatus := Applied

  datatype InterviewType = InPerson | Phone | Video

  const InterviewTypes: seq<InterviewType> := [InPerson, Phone, Video]

  function InterviewTypeCode(t: InterviewType): string {
    match t
    case InPerson => "in_person"
    case Phone => "phone"
    case Video => "video"
  }

  function ParseInterviewType(code: string): (r: Option<InterviewType>)
    ensures r.Some? ==> InterviewTypeCode(r.value) == code
    ensures r.None? ==> forall t :: InterviewTypeCode(t) != code
  {
    if code == "in_person" then Some(InPerson)
    else if code == "phone" then Some(Phone)
    else if code == "video" then Some(Video)
    else None
  }

  /** True when the codes of `ts` are pairwise different. */
  ghost predicate DistinctCodes<T>(ts: seq<T>, code: T -> string) {
    forall i, j :: 0 <= i < j < |ts| ==> code(ts[i]) != code(ts[j])
  }

  /** Each choice set lists every value of its enumeration once, under a distinct code. */
  lemma ChoiceSetsEnumerated()
    ensures |UserTypes| == 2 && (forall t: UserType :: t in UserTypes) && DistinctCodes(UserTypes, UserTypeCode)
    ensures |JobTypes| == 5 && (forall t: JobType :: t in JobTypes) && DistinctCodes(JobTypes, JobTypeCode)
    ensures |ApplicationStatuses| == 5 && (forall s: ApplicationStatus :: s in ApplicationStatuses)
    ensures DistinctCodes(ApplicationStatuses, StatusCode)
    ensures |InterviewTypes| == 3 && (forall t: InterviewType :: t in InterviewTypes)
    ensures DistinctCodes(InterviewTypes, InterviewTypeCode)
  {
    forall t: UserType ensures t in UserTypes {
      match t
      case JobSeeker => assert UserTypes[0] == t;
      case Employer => assert UserTypes[1] == t;
    }
    forall t: JobType ensures t in JobTypes {
      match t
      case FullTime => assert JobTypes[0] == t;
      case PartTime => assert JobTypes[1] == t;
      case Contract => assert JobTypes[2] == t;
      case Internship => assert JobTypes[3] == t;
      case Remote => assert JobTypes[4] == t;
    }
    forall s: ApplicationStatus ensures s in ApplicationStatuses {
      match s
      case Applied => assert ApplicationStatuses[0] == s;
      case Shortlisted => assert ApplicationStatuses[1] == s;
      case Rejected => assert ApplicationStatuses[2] == s;
      case InterviewScheduled => assert ApplicationStatuses[3] == s;
      case Hired => assert ApplicationStatuses[4] == s;
    }
    forall t: InterviewType ensures t in InterviewTypes {
      match t
      case InPerson => assert InterviewTypes[0] == t;
      case Phone => assert InterviewTypes[1] == t;
      case Video => assert InterviewTypes[2] == t;
    }
  }

  /** Parsing a stored code gives back the value it came from. */
  lemma {:induction false} CodesRoundTrip(u: UserType, j: JobType, s: ApplicationStatus, i: InterviewType)
    ensures ParseUserType(UserTypeCode(u)) == Some(u)
    ensures ParseJobType(JobTypeCode(j)) == Some(j)
    ensures ParseStatus(StatusCode(s)) == Some(s)
    ensures ParseInterviewType(InterviewTypeCode(i)) == Some(i)
  {
  }

  // ---------------------------------------------------------------------------
  // Rows.
  // ---------------------------------------------------------------------------

  /** A user's profile; `resume` is the stored file name, if any (the picture is not modelled). */
  datatype Profile = Profile(
    userType: UserType,
    phone: string,
    address: string,
    companyName: string,
    resume: Option<string>)

  /** A stored file field is present only when it has a non-empty name. */
  predicate HasResume(p: Profile) {
    p.resume.Some? && p.resume.value != ""
  }

  datatype Job = Job(
    title: string,
    description: string,
    category: CategoryId,
    jobType: JobType,
    location: string,
    salary: Option<int>,
    employer: UserId,
    requirements: string,
    skills: string,
    postedDate: Instant,
    deadline: Day,
    isActive: bool)

  /** The deadline has passed once today is strictly after it: the deadline day itself is still open. */
  predicate IsDeadlinePassed(job: Job, today: Day): (passed: bool)
    ensures today <= job.deadline ==> !passed
    ensures today >= job.deadline + 1 ==> passed
  {
    today > job.deadline
  }

  datatype JobApplication = JobApplication(
    job: JobId,
    applicant: UserId,
    appliedDate: Instant,
    coverLetter: string,
    status: ApplicationStatus)

  /** A fresh application row: the status is not supplied and takes its default. */
  function NewApplication(job: JobId, applicant: UserId, coverLetter: string, now: Instant): (a: JobApplication)
    ensures a.status == Applied
    ensures a.job == job && a.applicant == applicant && a.coverLetter == coverLetter
  {
    JobApplication(job, applicant, now, coverLetter, DefaultStatus)
  }

  datatype Interview = Interview(
    application: ApplicationId,
    scheduledDate: Instant,
    duration: int,
    interviewType: InterviewType,
    locationOrLink: string,
    notes: string)

  // ---------------------------------------------------------------------------
  // Storage constraints.
  // ---------------------------------------------------------------------------

  predicate HasApplication(apps: seq<JobApplication>, job: JobId, applicant: UserId) {
    exists i :: 0 <= i < |apps| && apps[i].job == job && apps[i].applicant == applicant
  }

  /** `unique_together = ['job', 'applicant']`. */
  predicate UniqueApplications(apps: seq<JobApplication>) {
    forall i, j :: 0 <= i < j < |apps| ==>
      apps[i].job != apps[j].job || apps[i].applicant != apps[j].applicant
  }

  predicate HasInterview(ivs: seq<Interview>, app: ApplicationId) {
    exists i :: 0 <= i < |ivs| && ivs[i].application == app
  }

  /** The interview's application reference is one-to-one. */
  predicate OneInterviewPerApplication(ivs: seq<Interview>) {
    forall i, j :: 0 <= i < j < |ivs| ==> ivs[i].application != ivs[j].application
  }

  /** Inserting an application keeps the pair unique exactly when no row has its pair yet. */
  lemma {:induction false} InsertApplicationUnique(apps: seq<JobApplication>, a: JobApplication)
    ensures UniqueApplications(apps + [a]) <==>
            UniqueApplications(apps) && !HasApplication(apps, a.job, a.applicant)
  {
    var apps' := apps + [a];
    if UniqueApplications(apps') {
      assert forall i, j :: 0 <= i < j < |apps| ==> apps[i] == apps'[i] && apps[j] == apps'[j];
      forall i | 0 <= i < |apps| ensures apps[i].job != a.job || apps[i].applicant != a.applicant {
        assert apps'[i] == apps[i] && apps'[|apps|] == a;
      }
    }
  }

  /** Inserting an interview keeps the one-to-one reference exactly when its application has none yet. */
  lemma {:induction false} InsertInterviewUnique(ivs: seq<Interview>, iv: Interview)
    ensures OneInterviewPerApplication(ivs + [iv]) <==>
            OneInterviewPerApplication(ivs) && !HasInterview(ivs, iv.application)
  {
    var ivs' := ivs + [iv];
    if OneInterviewPerApplication(ivs') {
      assert forall i, j :: 0 <= i < j < |ivs| ==> ivs[i] == ivs'[i] && ivs[j] == ivs'[j];
      forall i | 0 <= i < |ivs| ensures ivs[i].application != iv.application {
        assert ivs'[i] == ivs[i] && ivs'[|ivs|] == iv;
      }
    }
  }

  /** Overwriting the status of one application row. */
  function WithStatus(apps: seq<JobApplication>, id: ApplicationId, s: ApplicationStatus): (r: seq<JobApplication>)
    requires id < |apps|
    ensures |r| == |apps| && r[id].status == s
    ensures r[id] == apps[id].(status := s)
    ensures forall k :: 0 <= k < |apps| && k != id ==> r[k] == apps[k]
  {
    apps[id := apps[id].(status := s)]
  }

  /** A status change touches neither job nor applicant, so it keeps the pairs unique. */
  lemma {:induction false} WithStatusKeepsUnique(apps: seq<JobApplication>, id: ApplicationId, s: ApplicationStatus)
    requires id < |apps|
    ensures UniqueApplications(WithStatus(apps, id, s)) <==> UniqueApplications(apps)
    ensures forall job, user :: HasApplication(WithStatus(apps, id, s), job, user) <==> HasApplication(apps, job, user)
  {
  }
}
