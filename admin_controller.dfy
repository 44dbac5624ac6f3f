/**
 * AdminController: the admin's dashboard (the jobs that admin posted),
 * posting a job (stamped with the signed-in admin as poster), and the
 * guarded list of applications to one job.
 */
module AdminController {
  import opened Common
  import opened Entities
  import opened Store
  import opened Web
  import opened SuccessHandler

  const JobNotFoundUrl: string := AdminDashboard + "?" + "error=jobNotFound"
  const UnauthorizedUrl: string := AdminDashboard + "?" + "error=unauthorized"

  /** What admin-view-applications is rendered with. */
  datatype ApplicationsView = ApplicationsView(jobTitle: string, applications: map<int, ApplicationRow>)

  /** adminDashboard: the jobs whose poster is the signed-in user (findByPostedBy). */
  function ShowAdminDashboard(users: map<int, UserRow>, jobs: map<int, JobRow>, principal: Option<string>)
    : (page: Outcome<map<int, JobRow>>)
    requires UsernamesUnique(users)
    ensures principal.None? ==> page == Failed(NotAuthenticated)
    ensures page.Rendered? <==> principal.Some? && UsernameTaken(users, principal.value)
    ensures principal.Some? && !page.Rendered? ==> page == Failed(UsernameNotFound(principal.value))
    ensures page.Rendered? ==>
      && page.view == "admin-dashboard"
      && (forall k :: k in page.model ==> k in jobs && page.model[k] == jobs[k])
      && forall u :: u in users && users[u].username == principal.value ==>
           forall k :: k in page.model <==> k in jobs && jobs[k].postedBy == users[u].id
  {
    match GetAuthenticatedUser(users, principal)
    case Failure(failure) => Failed(failure)
    case Success(current) =>
      Rendered("admin-dashboard", map k | k in jobs && jobs[k].postedBy == current.id :: jobs[k])
  }

  /**
   * addJob: the poster is set to the signed-in user, whatever the form
   * carried, and the job is saved; then back to the dashboard.
   */
  method AddJob(db: Database, job: Job, principal: Option<string>) returns (outcome: Outcome<()>)
    requires db.Valid()
    modifies db`jobs, db`nextJobId, job`id, job`postedBy
    ensures db.Valid()
    ensures var current := GetAuthenticatedUser(db.users, principal);
            && (current.Failure? ==>
                  outcome == Failed(current.error) && db.jobs == old(db.jobs) && unchanged(job))
            && (current.Success? ==> job.postedBy == Some(current.value.id))
            && (current.Success? && old(job.title).None? ==>
                  outcome == Failed(Persistence(NotNullViolation("title"))) && db.jobs == old(db.jobs))
            && (current.Success? && old(job.title).Some? ==>
                  var key := SaveKey(old(db.jobs), old(db.nextJobId), old(job.id));
                  && outcome == Redirected(AdminDashboard)
                  && db.jobs == old(db.jobs)[key := JobRow(key, old(job.title).value, old(job.description),
                                                            old(job.location), current.value.id)])
    ensures var key := SaveKey(old(db.jobs), old(db.nextJobId), old(job.id));
            var saved := outcome == Redirected(AdminDashboard);
            && db.nextJobId == (if saved && key == old(db.nextJobId) then old(db.nextJobId) + 1 else old(db.nextJobId))
            && job.id == (if saved && old(job.id).None? then Some(key) else old(job.id))
  {
    var current := GetAuthenticatedUser(db.users, principal);
    if current.Failure? {
      return Failed(current.error);
    }
    var k :| k in db.users && db.users[k] == current.value;
    assert current.value.id in db.users;
    job.SetPostedBy(Some(current.value.id));
    var saved := db.SaveJob(job);
    if saved.Failure? {
      return Failed(Persistence(saved.error));
    }
    return Redirected(AdminDashboard);
  }

  /**
   * viewApplications: a missing job is reported first; then only the job's
   * poster sees its applications, exactly those whose job is this one.
   */
  function ViewApplications(users: map<int, UserRow>, jobs: map<int, JobRow>, applications: map<int, ApplicationRow>,
                            principal: Option<string>, jobId: int): (page: Outcome<ApplicationsView>)
    requires UsernamesUnique(users)
    ensures jobId !in jobs ==> page == Redirected(JobNotFoundUrl)
    ensures jobId in jobs && principal.None? ==> page == Failed(NotAuthenticated)
    ensures jobId in jobs && principal.Some? && !UsernameTaken(users, principal.value) ==>
      page == Failed(UsernameNotFound(principal.value))
    ensures page == Redirected(UnauthorizedUrl) <==>
      && jobId in jobs && principal.Some?
      && exists u :: u in users && users[u].username == principal.value && jobs[jobId].postedBy != users[u].id
    ensures page.Rendered? <==>
      && jobId in jobs && principal.Some?
      && exists u :: u in users && users[u].username == principal.value && jobs[jobId].postedBy == users[u].id
    ensures page.Rendered? ==>
      && page.view == "admin-view-applications"
      && page.model.jobTitle == jobs[jobId].title
      && (forall k :: k in page.model.applications <==> k in applications && applications[k].job == jobId)
      && (forall k :: k in page.model.applications ==> page.model.applications[k] == applications[k])
  {
    if jobId !in jobs then Redirected(JobNotFoundUrl)
    else
      match GetAuthenticatedUser(users, principal)
      case Failure(failure) => Failed(failure)
      case Success(current) =>
        if jobs[jobId].postedBy != current.id then Redirected(UnauthorizedUrl)
        else
          Rendered("admin-view-applications",
                   ApplicationsView(jobs[jobId].title,
                                    map k | k in applications && applications[k].job == jobId :: applications[k]))
  }

  /** A job stored with the signed-in admin as poster appears on that admin's dashboard. */
  lemma PostedJobOnOwnDashboard(users: map<int, UserRow>, jobs: map<int, JobRow>, key: int, row: JobRow, poster: int)
    requires UsernamesUnique(users) && UsersKeyed(users)
    requires poster in users && row.postedBy == poster
    ensures var page := ShowAdminDashboard(users, jobs[key := row], Some(users[poster].username));
            page.Rendered? && key in page.model && page.model[key] == row
  {
  }

  /** Another admin's dashboard does not list it. */
  lemma PostedJobHiddenFromOthers(users: map<int, UserRow>, jobs: map<int, JobRow>, key: int, row: JobRow,
                                  other: int)
    requires UsernamesUnique(users) && UsersKeyed(users)
    requires other in users && row.postedBy != other
    ensures var page := ShowAdminDashboard(users, jobs[key := row], Some(users[other].username));
            page.Rendered? && key !in page.model
  {
  }

  /** An application to a job is listed when that job's poster views its applications. */
  lemma ApplicationListedForPoster(users: map<int, UserRow>, jobs: map<int, JobRow>,
                                   applications: map<int, ApplicationRow>, key: int, row: ApplicationRow)
    requires UsernamesUnique(users) && UsersKeyed(users) && JobsConsistent(users, jobs)
    requires row.job in jobs
    ensures var poster := jobs[row.job].postedBy;
            var page := ViewApplications(users, jobs, applications[key := row], Some(users[poster].username), row.job);
            page.Rendered? && key in page.model.applications && page.model.applications[key] == row
  {
    var poster := jobs[row.job].postedBy;
  }
}
