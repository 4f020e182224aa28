# Job portal: a verified model of the application pipeline

This project models the core of a small job-board web application written in
Django: job seekers and employers register with a profile, employers post jobs,
the public browses a filtered catalog of active jobs, seekers apply (once per
job), and employers move applications through their statuses, schedule one
interview per application and view or download the applicant's resume.

The model has five modules:

- `Models` (`models.dfy`): the choice sets (user type, job type, application
  status, interview medium) with their stored codes and parsers; the rows of the
  profile, job, application and interview tables; the storage constraints
  (one application per job and applicant, one interview per application) and
  the lemmas saying when an insert or a status change keeps them.
- `Forms` (`forms.dfy`): what each form reads from the client and how it is
  cleaned, including the deadline check against today and the field
  whitelists, which never contain the fields the server sets.
- `Catalog` (`catalog.dfy`): the public listing as the source runs it (active
  jobs ordered by posting time, then narrowed by each given filter) and the
  home page (its first eight), with the proof that the listing holds exactly
  the active jobs passing every given filter, each once, most recent first.
- `Views` (`views.dfy`): the request handlers. The read-only ones (job detail,
  resume view and download) are functions over the tables; the writing ones are
  methods of the class `JobPortal`, which holds the tables as fields. Each
  method runs the source's guard ladder and states, for every outcome, exactly
  when it happens and what the tables are afterwards; all of them keep the
  table invariant `Valid()`.
- `Scenario` (`scenario.dfy`): a client that registers a seeker and an
  employer, posts and finds a job, applies twice and schedules an interview
  twice, checking each step from the contracts alone.

The acting user is an explicit parameter; "logged in" is assumed wherever the
source requires a login. The request method is a flag `isPost`. The clock is
two parameters: `today` (a day number, for deadlines) and `now` (an instant,
for posting and application times). Keys are positions in their tables, since
the modelled flows never delete a row.

The model follows the code where the code is more permissive than one might expect:

- Applying checks only the job's active flag, not its deadline
  (jobs/views.py:153). An active job whose deadline has passed still accepts
  applications.
- The interview duration is not checked to be positive. Any integer is accepted
  (jobs/models.py:82).
- A second interview for the same application is not rejected by the form. The
  insert itself fails on the one-to-one reference, before the status is written
  (jobs/views.py:282-286). The model reports this as `Conflict` and writes
  nothing.

## Model

| member | source | states |
|---|---|---|
| `Models.ParseUserType` | jobs/models.py:6-9 | accepts exactly the two user-type codes, and maps each to the value whose code it is |
| `Models.ParseJobType` | jobs/models.py:31-37 | accepts exactly the five job-type codes, and maps each to the value whose code it is |
| `Models.ParseStatus` | jobs/models.py:59-65 | a submitted status is accepted exactly when it is one of the five status codes, as the membership test in `dict(APPLICATION_STATUS)` does |
| `Models.ParseInterviewType` | jobs/models.py:83-87 | accepts exactly the three interview-medium codes |
| `Models.ChoiceSetsEnumerated` | jobs/models.py:6-87 | the choice sets have 2, 5, 5 and 3 members, cover every value of their type, and have pairwise distinct codes |
| `Models.CodesRoundTrip` | jobs/models.py:6-87 | parsing the stored code of any choice gives that choice back |
| `Models.NewApplication` | jobs/models.py:67-71 | a new application has the given job, applicant and cover letter, and status `applied` by default |
| `Models.InsertApplicationUnique` | jobs/models.py:73-74 | adding an application keeps (job, applicant) unique if and only if the table was unique and had no row for that pair |
| `Models.InsertInterviewUnique` | jobs/models.py:80 | adding an interview keeps the application reference one-to-one if and only if that application had no interview |
| `Models.WithStatus` | jobs/views.py:263-264 | a status write sets that row's status, and leaves every other row and every other field unchanged |
| `Models.WithStatusKeepsUnique` | jobs/models.py:73-74 | a status change keeps the (job, applicant) uniqueness and which pairs have an application |
| `Forms.ServerSetFieldsNotInForms` | jobs/forms.py:7-110 | no form exposes `employer`, `is_active`, `posted_date`, `job`, `applicant`, `status` or `application`; the application form exposes only `cover_letter`; `user_type` is chosen on the registration form and the profile form never exposes it |
| `Forms.ValidApplicationForm` | jobs/forms.py:99-102 | an application form is valid if and only if the cover letter, a required text field of the application row (jobs/models.py:70), is not empty |
| `Forms.CleanApplicationDeadline` | jobs/forms.py:93-97 | fails if and only if the deadline is strictly before today (today itself is accepted); otherwise returns the deadline unchanged |
| `Forms.CleanJobForm` | jobs/forms.py:88-97 | a job form is valid if and only if the required fields are present, the length limits hold, the category exists, the job type is a known code and the deadline is present and not before today; the cleaned data is the input |
| `Forms.CleanInterviewForm` | jobs/forms.py:107-110 | an interview form is valid if and only if it has a date, a duration (any integer), a known medium and a location or link; the cleaned data is the input |
| `Forms.CleanRegistration` | jobs/forms.py:7-16 | a registration is valid if and only if username and e-mail are given, the user type is one of the two codes and the phone and company fit their lengths |
| `Forms.CleanProfileForm` | jobs/forms.py:32-35 | a profile edit keeps the user type, replaces the contact fields, and replaces the resume only when a file is uploaded |
| `Catalog.LowerStr` | jobs/views.py:110-112 | ASCII case folding, character by character, length preserved |
| `Catalog.Contains` | jobs/views.py:110-112 | true if and only if the needle occurs at some position of the haystack |
| `Catalog.SearchIgnoresCase` | jobs/views.py:108-113 | the search gives the same answer for a term and its lower-case form |
| `Catalog.NarrowCount` | jobs/views.py:104-113 | each filter step keeps every occurrence of a job that passes, and drops every job that does not |
| `Catalog.NarrowKeepsOrder` | jobs/views.py:95-113 | filter steps keep the most-recent-first order |
| `Catalog.SortByRecency` | jobs/views.py:97 | the ordering step returns a permutation of its input, most recent first |
| `Catalog.ActiveByRecency` | jobs/views.py:95-97 | the base query is ordered most recent first |
| `Catalog.JobList` | jobs/views.py:93-113 | the listing names rows of the job table, most recent first (its contents are stated by `Catalog.JobListExact`) |
| `Catalog.Home` | jobs/views.py:10-11 | the home page shows at most eight rows of the job table, most recent first |
| `Catalog.ActiveByRecencyCount` | jobs/views.py:11 | the base query holds each active job exactly once and no inactive job |
| `Catalog.JobListExact` | jobs/views.py:95-113 | the listing holds each active job that passes every given filter exactly once (category, job type, and a search over title, description or skills), nothing else, most recent first |
| `Catalog.JobListMembers` | jobs/views.py:95-113 | a job is listed if and only if it is active and satisfies every given filter |
| `Catalog.DroppingFiltersWidens` | jobs/views.py:104-108 | removing or emptying a filter never removes a job from the listing |
| `Catalog.UnfilteredListsAllActive` | jobs/views.py:95-97 | with no filter the listing is exactly the active jobs |
| `Catalog.HomeIsFirstEight` | jobs/views.py:11 | the home page is a prefix of the active jobs by recency of length exactly eight when more than eight are active, and all of them otherwise; each shown job is active |
| `Catalog.HomeShowsMostRecent` | jobs/views.py:11 | no active job left off the home page is more recent than a job shown on it |
| `Views.JobFromDraft` | jobs/views.py:64-66 | a posted job's employer is the actor and it is active, whatever the form held; all other fields come from the cleaned form |
| `Models.IsDeadlinePassed` | jobs/models.py:55-56 | the deadline day itself is still open; the deadline has passed on every later day |
| `Views.PostedJobOpenOnPostingDay` | jobs/models.py:55-56 | a job whose form passed validation on a day is not past its deadline on that day |
| `Views.AttachInterview` | jobs/views.py:280-281 | the interview's application is the one the view found, never a form value |
| `Views.JobDetail` | jobs/views.py:135-140 | not found if and only if the job is missing or inactive; `has_applied` is true if and only if the viewer is a signed-in job seeker with an application for the job, so never for anonymous users or employers |
| `Views.ContentDisposition` | jobs/views.py:221-246 | the header is the disposition type followed by `; filename="<name>"`; the type is `inline` exactly for viewing and `attachment` exactly for downloading |
| `Views.Resume` | jobs/views.py:203-250 | denied if and only if the actor is not an employer; not found if and only if the application is not on one of the actor's jobs; the file is streamed, as `application/pdf` with the requested disposition and its Content-Disposition header, if and only if the applicant has a resume |
| `Views.ViewAndDownloadAgree` | jobs/views.py:219-250 | viewing and downloading a resume reach the same decision and the same file, differing only in the disposition and the header that names it |
| `Views.JobPortal.Valid` | jobs/models.py:66-80 | the table invariant implies the (job, applicant) uniqueness of applications and the one-to-one link from interviews to applications; its body adds the reference and role constraints listed below the table |
| `Views.JobPortal.SaveRegistration` | jobs/forms.py:18-30 | with `commit`, adds one account and exactly one profile for it, with the chosen user type and no resume; without `commit`, stores nothing |
| `Views.JobPortal.Register` | jobs/views.py:15-25 | a valid POST saves the account and its profile; a GET or an invalid form changes nothing |
| `Views.JobPortal.EditProfile` | jobs/views.py:27-40 | not found without a profile; a valid POST rewrites only the actor's profile; no user type ever changes |
| `Views.JobPortal.PostJob` | jobs/views.py:42-92 | no profile or a non-employer is turned away with the tables unchanged; a valid POST adds exactly one job, built from the cleaned form with the actor as employer and active |
| `Views.JobPortal.ApplyJob` | jobs/views.py:147-172 | non-seekers are denied; a missing or inactive job is not found (the deadline is not consulted); an existing application gives "already applied" and adds nothing; otherwise a valid POST adds exactly one application for that job and applicant with status `applied` |
| `Views.JobPortal.UpdateApplicationStatus` | jobs/views.py:252-267 | only the employer of the application's job reaches it; the status is set only to a POSTed value that is one of the five codes, from any prior status; otherwise nothing changes |
| `Views.JobPortal.ScheduleInterview` | jobs/views.py:269-296 | only the employer of the application's job reaches it; a valid POST adds exactly one interview for that application and sets its status to `interview_scheduled` whatever it was; if it already has an interview, nothing is written |

Every method of `JobPortal` also keeps `Valid()`. This invariant says that
references point at existing rows, jobs belong to employers, applications belong
to job seekers, each (job, applicant) pair has at most one application, and each
application has at most one interview.

## Left out

- Routing (jobs/urls.py) and configuration (job_portal/settings.py): static tables with no logic.
- Rendering, flash messages and the debug `print` output: each handler's response is reduced to an `Outcome`.
- Authentication: `@login_required`, login after registration, logout and the login view belong to the framework. The actor is a parameter.
- The password and username checks of the framework's user-creation form belong to the framework. The account stores only the username and e-mail.
- The employer and job-seeker dashboards, and the category list on the home and listing pages, are read-only listings outside the modelled core.
- Resume streaming is file I/O: opening the stored file, and the exceptions the two resume views catch and turn into a redirect. The model decides only whether a file is streamed, and with which disposition.
- A database error while saving a posted job is caught and the form shown again. This is not modelled: a valid job form always saves.
- `Views.JobPortal.ScheduleInterview`: the source raises an integrity error on the second insert, which becomes a server error. The model reports it as `Conflict`.
- Form-field details: whitespace stripping, e-mail syntax, the decimal precision of the salary, the database range of the duration integer, and file uploads. The resume is its stored file name; the profile picture and clearing an uploaded resume are not modelled. Each form reports only the first failing field, which does not change the outcome.
- The category query parameter is taken as a number: converting the string, and the error a non-numeric value raises, are left out.
- Case-insensitive search folds ASCII letters only. The database collation may fold more.
- The job-type filter is exact string equality on the stored code. Under the database's default case-insensitive collation, `?job_type=FULL_TIME` also selects full-time jobs; the model lists nothing for it.
- Jobs with the same posting time may come back in any order from the database. The model fixes one such order.
- Concurrency: two requests racing between the "already applied" check and the insert. Uniqueness is modelled as an invariant that every operation keeps.
- Time is an integer day and an integer instant; time zones are not modelled.
