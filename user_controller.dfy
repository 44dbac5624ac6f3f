/**
 * UserController: the unfiltered job list, the apply form, and applying
 * (the application is stamped with the job, the signed-in applicant and the
 * current time, and saved; nothing checks for an earlier application).
 */
module UserController {
  import opened Common
  import opened Entities
  import opened Store
  import opened Web

  const ViewJobsPage: string := "/user/view-jobs"
  const AppliedUrl: string := ViewJobsPage + "?" + "applied"

  /** What view-jobs is rendered with. */
  datatype JobsView = JobsView(jobs: map<int, JobRow>, attributes: Attributes)

  /** viewAllJobs: every job, and the success message exactly when the applied flag is present. */
  function ViewAllJobs(jobs: map<int, JobRow>, applied: Option<string>): (page: Outcome<JobsView>)
    ensures page.Rendered? && page.view == "view-jobs"
    ensures page.model.jobs == jobs
    ensures "applicationSuccess" in page.model.attributes <==> applied.Some?
    ensures page.model.attributes.Keys <= {"applicationSuccess"}
  {
    Rendered("view-jobs",
             JobsView(jobs, if applied.Some? then map["applicationSuccess" := "Application submitted successfully!"]
                            else map[]))
  }

  /** showApplyForm: the job's page, or "Job not found" for an unknown id. */
  function ShowApplyForm(jobs: map<int, JobRow>, jobId: int): (page: Outcome<JobRow>)
    ensures page.Failed? <==> jobId !in jobs
    ensures page.Failed? ==> page.failure == JobNotFound
    ensures page.Rendered? ==> page.view == "apply-job" && page.model == jobs[jobId]
  {
    if jobId in jobs then Rendered("apply-job", jobs[jobId]) else Failed(JobNotFound)
  }

  /**
   * applyForJob: the job is looked up first, then the applicant; the bound
   * application gets the job, the applicant and the time `now`, and is saved.
   */
  method ApplyForJob(db: Database, jobId: int, application: Application, principal: Option<string>, now: DateTime)
    returns (outcome: Outcome<()>)
    requires db.Valid()
    modifies db`applications, db`nextApplicationId, application`id, application`job, application`applicant,
             application`applicationDate
    ensures db.Valid()
    ensures jobId !in db.jobs ==>
      outcome == Failed(JobNotFound) && db.applications == old(db.applications) && unchanged(application)
    ensures var current := GetAuthenticatedUser(db.users, principal);
            jobId in db.jobs && current.Failure? ==>
              outcome == Failed(current.error) && db.applications == old(db.applications) && unchanged(application)
    ensures var current := GetAuthenticatedUser(db.users, principal);
            jobId in db.jobs && current.Success? ==>
              var key := SaveKey(old(db.applications), old(db.nextApplicationId), old(application.id));
              && outcome == Redirected(AppliedUrl)
              && application.job == Some(jobId)
              && application.applicant == Some(current.value.id)
              && application.applicationDate == Some(now)
              && db.applications == old(db.applications)[key := ApplicationRow(key, jobId, current.value.id, now,
                                                                               old(application.coverLetter))]
    ensures var key := SaveKey(old(db.applications), old(db.nextApplicationId), old(application.id));
            var saved := outcome == Redirected(AppliedUrl);
            && db.nextApplicationId == (if saved && key == old(db.nextApplicationId) then old(db.nextApplicationId) + 1
                                        else old(db.nextApplicationId))
            && application.id == (if saved && old(application.id).None? then Some(key) else old(application.id))
    ensures outcome == Redirected(AppliedUrl) && old(application.id).None? ==>
      && old(db.nextApplicationId) !in old(db.applications)
      && db.applications.Keys == old(db.applications).Keys + {old(db.nextApplicationId)}
  {
    if jobId !in db.jobs {
      return Failed(JobNotFound);
    }
    var current := GetAuthenticatedUser(db.users, principal);
    if current.Failure? {
      return Failed(current.error);
    }
    var k :| k in db.users && db.users[k] == current.value;
    assert current.value.id in db.users;
    application.SetJob(Some(jobId));
    application.SetApplicant(Some(current.value.id));
    application.SetApplicationDate(Some(now));
    var _ := db.SaveApplication(application);
    return Redirected(AppliedUrl);
  }

  /** After applying, the job list the browser is sent to shows the success message. */
  lemma AppliedRedirectShowsSuccess(jobs: map<int, JobRow>)
    ensures var request := Follow(AppliedUrl);
            && request.path == ViewJobsPage
            && "applicationSuccess" in ViewAllJobs(jobs, Param(request, "applied")).model.attributes
  {
    FollowSplits(ViewJobsPage, "applied");
    FlagParameter("applied");
  }
}
