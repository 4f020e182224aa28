/**
 * The input forms of the portal (jobs/forms.py): what each form accepts from the
 * client, how it validates it, and which fields it never takes from the client.
 */
module Forms {
  import opened Wrappers
  import opened Models

  // ---------------------------------------------------------------------------
  // Field whitelists: the model fields each form exposes to the client.
  // ---------------------------------------------------------------------------

  /** The registration form: the account fields of its Meta list, then the fields it declares itself. */
  const RegistrationFields: seq<string> :=
    ["username", "email", "password1", "password2", "first_name", "last_name",
     "user_type", "phone", "address", "company_name"]
  const ProfileFormFields: seq<string> := ["phone", "address", "company_name", "resume", "profile_picture"]
  const JobFormFields: seq<string> :=
    ["title", "description", "category", "job_type", "location",
     "salary", "requirements", "skills_required", "application_deadline"]
  const JobApplicationFormFields: seq<string> := ["cover_letter"]
  const InterviewFormFields: seq<string> :=
    ["scheduled_date", "duration", "interview_type", "location_or_link", "notes"]

  /**
   * The fields the views fill in on the server never appear in a form, and the
   * user type is chosen once, at registration, never on the profile form.
   */
  lemma ServerSetFieldsNotInForms()
    ensures "employer" !in JobFormFields && "is_active" !in JobFormFields && "posted_date" !in JobFormFields
    ensures forall f :: f in JobApplicationFormFields ==> f == "cover_letter"
    ensures "job" !in JobApplicationFormFields && "applicant" !in JobApplicationFormFields
    ensures "status" !in JobApplicationFormFields
    ensures "application" !in InterviewFormFields
    ensures "user_type" !in ProfileFormFields && "user" !in ProfileFormFields
    ensures "user_type" in RegistrationFields && "resume" !in RegistrationFields
  {
  }

  /** A required text field must not be empty. */
  predicate Required(s: string) {
    s != ""
  }

  const TitleMaxLength := 200
  const LocationMaxLength := 100
  const PhoneMaxLength := 15
  const CompanyNameMaxLength := 100

  // ---------------------------------------------------------------------------
  // Job form.
  // ---------------------------------------------------------------------------

  /** What the client submits when posting a job; nothing else is read from the request. */
  datatype JobFormData = JobFormData(
    title: string,
    description: string,
    category: Option<CategoryId>,
    jobType: string,
    location: string,
    salary: Option<int>,
    requirements: string,
    skills: string,
    deadline: Option<Day>)

  /** The cleaned data of a valid job form. */
  datatype JobDraft = JobDraft(
    title: string,
    description: string,
    category: CategoryId,
    jobType: JobType,
    location: string,
    salary: Option<int>,
    requirements: string,
    skills: string,
    deadline: Day)

  /** A deadline strictly before today is rejected; any other value (or none) is returned unchanged. */
  function CleanApplicationDeadline(deadline: Option<Day>, today: Day): (r: Result<Option<Day>>)
    ensures r.Failure? <==> deadline.Some? && deadline.value < today
    ensures r.Success? ==> r.value == deadline
  {
    if deadline.Some? && deadline.value < today then Failure("application_deadline")
    else Success(deadline)
  }

  /**
   * Field-by-field validation of a job form against the existing categories:
   * the required fields, the length limits, the choice of job type, and the
   * deadline, which is required and then cleaned against today.
   */
  function CleanJobForm(f: JobFormData, categories: set<CategoryId>, today: Day): (r: Result<JobDraft>)
    ensures r.Success? <==>
      && Required(f.title) && |f.title| <= TitleMaxLength
      && Required(f.description)
      && f.category.Some? && f.category.value in categories
      && ParseJobType(f.jobType).Some?
      && Required(f.location) && |f.location| <= LocationMaxLength
      && Required(f.requirements) && Required(f.skills)
      && f.deadline.Some? && f.deadline.value >= today
    ensures r.Success? ==>
      && r.value.title == f.title && r.value.description == f.description
      && Some(r.value.category) == f.category && JobTypeCode(r.value.jobType) == f.jobType
      && r.value.location == f.location && r.value.salary == f.salary
      && r.value.requirements == f.requirements && r.value.skills == f.skills
      && Some(r.value.deadline) == f.deadline
  {
    if !Required(f.title) || |f.title| > TitleMaxLength then Failure("title")
    else if !Required(f.description) then Failure("description")
    else if f.category.None? || f.category.value !in categories then Failure("category")
    else if ParseJobType(f.jobType).None? then Failure("job_type")
    else if !Required(f.location) || |f.location| > LocationMaxLength then Failure("location")
    else if !Required(f.requirements) then Failure("requirements")
    else if !Required(f.skills) then Failure("skills_required")
    else if f.deadline.None? then Failure("application_deadline")
    else
      match CleanApplicationDeadline(f.deadline, today)
      case Failure(field) => Failure(field)
      case Success(deadline) =>
        Success(JobDraft(f.title, f.description, f.category.value, ParseJobType(f.jobType).value,
                         f.location, f.salary, f.requirements, f.skills, deadline.value))
  }

  // ---------------------------------------------------------------------------
  // Application form: only the cover letter comes from the client.
  // ---------------------------------------------------------------------------

  datatype ApplicationFormData = ApplicationFormData(coverLetter: string)

  /** The cover letter is a required text field; nothing else is taken from the client. */
  predicate ValidApplicationForm(f: ApplicationFormData): (valid: bool)
    ensures valid <==> |f.coverLetter| > 0
  {
    Required(f.coverLetter)
  }

  // ---------------------------------------------------------------------------
  // Interview form: everything but the application, which the view attaches.
  // ---------------------------------------------------------------------------

  datatype InterviewFormData = InterviewFormData(
    scheduledDate: Option<Instant>,
    duration: Option<int>,
    interviewType: string,
    locationOrLink: string,
    notes: string)

  /** The cleaned data of a valid interview form. */
  datatype InterviewDraft = InterviewDraft(
    scheduledDate: Instant,
    duration: int,
    interviewType: InterviewType,
    locationOrLink: string,
    notes: string)

  /** The date, the duration (any integer), a known medium and the location are required; notes are optional. */
  function CleanInterviewForm(f: InterviewFormData): (r: Result<InterviewDraft>)
    ensures r.Success? <==>
      f.scheduledDate.Some? && f.duration.Some? && ParseInterviewType(f.interviewType).Some?
      && Required(f.locationOrLink)
    ensures r.Success? ==>
      && Some(r.value.scheduledDate) == f.scheduledDate && Some(r.value.duration) == f.duration
      && InterviewTypeCode(r.value.interviewType) == f.interviewType
      && r.value.locationOrLink == f.locationOrLink && r.value.notes == f.notes
  {
    if f.scheduledDate.None? then Failure("scheduled_date")
    else if f.duration.None? then Failure("duration")
    else if ParseInterviewType(f.interviewType).None? then Failure("interview_type")
    else if !Required(f.locationOrLink) then Failure("location_or_link")
    else Success(InterviewDraft(f.scheduledDate.value, f.duration.value,
                                ParseInterviewType(f.interviewType).value, f.locationOrLink, f.notes))
  }

  // ---------------------------------------------------------------------------
  // Registration form: the user's account fields plus the profile fields.
  // ---------------------------------------------------------------------------

  datatype RegistrationData = RegistrationData(
    username: string,
    email: string,
    userType: string,
    phone: string,
    address: string,
    companyName: string)

  /** The cleaned data of a valid registration form. */
  datatype RegistrationDraft = RegistrationDraft(
    username: string,
    email: string,
    userType: UserType,
    phone: string,
    address: string,
    companyName: string)

  /** The user type must be one of the two choices; username and e-mail are required. */
  function CleanRegistration(f: RegistrationData): (r: Result<RegistrationDraft>)
    ensures r.Success? <==>
      Required(f.username) && Required(f.email) && ParseUserType(f.userType).Some?
      && |f.phone| <= PhoneMaxLength && |f.companyName| <= CompanyNameMaxLength
    ensures r.Success? ==>
      && r.value.username == f.username && r.value.email == f.email
      && UserTypeCode(r.value.userType) == f.userType
      && r.value.phone == f.phone && r.value.address == f.address && r.value.companyName == f.companyName
  {
    if !Required(f.username) then Failure("username")
    else if !Required(f.email) then Failure("email")
    else if ParseUserType(f.userType).None? then Failure("user_type")
    else if |f.phone| > PhoneMaxLength then Failure("phone")
    else if |f.companyName| > CompanyNameMaxLength then Failure("company_name")
    else Success(RegistrationDraft(f.username, f.email, ParseUserType(f.userType).value,
                                   f.phone, f.address, f.companyName))
  }

  // ---------------------------------------------------------------------------
  // Profile form: contact fields and the resume; never the user type.
  // ---------------------------------------------------------------------------

  /** `resume` is the name of a newly uploaded file, None when no file is uploaded. */
  datatype ProfileFormData = ProfileFormData(
    phone: string,
    address: string,
    companyName: string,
    resume: Option<string>)

  /** The profile row after a valid edit: the user type and, without an upload, the resume are kept. */
  function CleanProfileForm(f: ProfileFormData, p: Profile): (r: Result<Profile>)
    ensures r.Success? <==> |f.phone| <= PhoneMaxLength && |f.companyName| <= CompanyNameMaxLength
    ensures r.Success? ==>
      && r.value.userType == p.userType
      && r.value.phone == f.phone && r.value.address == f.address && r.value.companyName == f.companyName
      && r.value.resume == (if f.resume.Some? then f.resume else p.resume)
  {
    if |f.phone| > PhoneMaxLength then Failure("phone")
    else if |f.companyName| > CompanyNameMaxLength then Failure("company_name")
    else Success(p.(phone := f.phone, address := f.address, companyName := f.companyName,
                    resume := if f.resume.Some? then f.resume else p.resume))
  }
}
