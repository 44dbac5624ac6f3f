/**
 * The relational store behind the three Spring Data repositories: one table
 * per entity, keyed by the IDENTITY primary key, with the column constraints
 * the entities declare (not null, unique username, foreign keys). Rows are
 * values whose non-null columns have non-Option types.
 */
module Store {
  import opened Common
  import opened Entities

  datatype UserRow = UserRow(id: int, username: string, password: string, role: Role)

  datatype JobRow = JobRow(id: int, title: string, description: Option<string>,
                           location: Option<string>, postedBy: int)

  datatype ApplicationRow = ApplicationRow(id: int, job: int, applicant: int,
                                           applicationDate: DateTime, coverLetter: Option<string>)

  /** The constraint violations a save can raise (DataIntegrityViolationException). */
  datatype DbError = NotNullViolation(column: string) | UniqueViolation(column: string) | ForeignKeyViolation(column: string)

  predicate UsernameTaken(users: map<int, UserRow>, name: string) {
    exists k :: k in users && users[k].username == name
  }

  /** The unique constraint on user.username. */
  predicate UsernamesUnique(users: map<int, UserRow>) {
    forall k, k' :: k in users && k' in users && users[k].username == users[k'].username ==> k == k'
  }

  predicate UsersKeyed(users: map<int, UserRow>) {
    forall k :: k in users ==> users[k].id == k
  }

  /** Every job row is stored under its id and its poster exists. */
  predicate JobsConsistent(users: map<int, UserRow>, jobs: map<int, JobRow>) {
    forall k :: k in jobs ==> jobs[k].id == k && jobs[k].postedBy in users
  }

  /** Every application row is stored under its id and its job and applicant exist. */
  predicate ApplicationsConsistent(users: map<int, UserRow>, jobs: map<int, JobRow>,
                                   applications: map<int, ApplicationRow>) {
    forall k :: k in applications ==>
      applications[k].id == k && applications[k].job in jobs && applications[k].applicant in users
  }

  /** The table invariants the schema enforces. */
  predicate Consistent(users: map<int, UserRow>, jobs: map<int, JobRow>,
                       applications: map<int, ApplicationRow>) {
    && UsernamesUnique(users)
    && UsersKeyed(users)
    && JobsConsistent(users, jobs)
    && ApplicationsConsistent(users, jobs, applications)
  }

  /** UserRepository.findByUsername: the one user with this name, if any. */
  function FindByUsername(users: map<int, UserRow>, name: string): (r: Option<UserRow>)
    requires UsernamesUnique(users)
    ensures r.Some? <==> UsernameTaken(users, name)
    ensures r.Some? ==> r.value.username == name && exists k :: k in users && users[k] == r.value
  {
    if UsernameTaken(users, name) then
      var k :| k in users && users[k].username == name;
      Some(users[k])
    else
      None
  }

  /**
   * The primary key JpaRepository.save writes to: an entity whose id names an
   * existing row is merged onto that row; any other entity becomes a new row
   * under the next IDENTITY value.
   */
  function SaveKey<T>(table: map<int, T>, next: int, id: Option<int>): (key: int)
    ensures id.Some? && id.value in table ==> key == id.value
    ensures key == next || (id == Some(key) && key in table)
  {
    if id.Some? && id.value in table then id.value else next
  }

  /** The user row a save under `key` would write, or the constraint it violates. */
  function UserRowFor(users: map<int, UserRow>, key: int, username: Option<string>,
                      password: Option<string>, role: Option<Role>): (r: Result<UserRow, DbError>)
    ensures r.Success? <==>
      && username.Some? && password.Some? && role.Some?
      && forall k :: k in users && k != key ==> users[k].username != username.value
    ensures r.Success? ==> r.value == UserRow(key, username.value, password.value, role.value)
  {
    if username.None? then Failure(NotNullViolation("username"))
    else if password.None? then Failure(NotNullViolation("password"))
    else if role.None? then Failure(NotNullViolation("role"))
    else if exists k :: k in users && k != key && users[k].username == username.value then
      Failure(UniqueViolation("username"))
    else Success(UserRow(key, username.value, password.value, role.value))
  }

  /** The job row a save under `key` would write, or the constraint it violates. */
  function JobRowFor(users: map<int, UserRow>, key: int, title: Option<string>, description: Option<string>,
                     location: Option<string>, postedBy: Option<int>): (r: Result<JobRow, DbError>)
    ensures r.Success? <==> title.Some? && postedBy.Some? && postedBy.value in users
    ensures r.Success? ==> r.value == JobRow(key, title.value, description, location, postedBy.value)
  {
    if title.None? then Failure(NotNullViolation("title"))
    else if postedBy.None? then Failure(NotNullViolation("posted_by_id"))
    else if postedBy.value !in users then Failure(ForeignKeyViolation("posted_by_id"))
    else Success(JobRow(key, title.value, description, location, postedBy.value))
  }

  /** The application row a save under `key` would write, or the constraint it violates. */
  function ApplicationRowFor(users: map<int, UserRow>, jobs: map<int, JobRow>, key: int, job: Option<int>,
                             applicant: Option<int>, applicationDate: Option<DateTime>,
                             coverLetter: Option<string>): (r: Result<ApplicationRow, DbError>)
    ensures r.Success? <==>
      && job.Some? && applicant.Some? && applicationDate.Some?
      && job.value in jobs && applicant.value in users
    ensures r.Success? ==>
      r.value == ApplicationRow(key, job.value, applicant.value, applicationDate.value, coverLetter)
  {
    if job.None? then Failure(NotNullViolation("job_id"))
    else if applicant.None? then Failure(NotNullViolation("applicant_id"))
    else if applicationDate.None? then Failure(NotNullViolation("application_date"))
    else if job.value !in jobs then Failure(ForeignKeyViolation("job_id"))
    else if applicant.value !in users then Failure(ForeignKeyViolation("applicant_id"))
    else Success(ApplicationRow(key, job.value, applicant.value, applicationDate.value, coverLetter))
  }

  /** Writing a row the unique check admitted keeps usernames unique. */
  lemma UserWriteKeepsUnique(users: map<int, UserRow>, key: int, username: Option<string>,
                             password: Option<string>, role: Option<Role>)
    requires UsernamesUnique(users)
    requires UserRowFor(users, key, username, password, role).Success?
    ensures UsernamesUnique(users[key := UserRowFor(users, key, username, password, role).value])
  {
  }

  /** Writing an admitted user row keeps every table invariant. */
  lemma UserWriteKeepsConsistent(users: map<int, UserRow>, jobs: map<int, JobRow>,
                                 applications: map<int, ApplicationRow>, key: int, username: Option<string>,
                                 password: Option<string>, role: Option<Role>)
    requires Consistent(users, jobs, applications)
    requires UserRowFor(users, key, username, password, role).Success?
    ensures Consistent(users[key := UserRowFor(users, key, username, password, role).value], jobs, applications)
  {
    UserWriteKeepsUnique(users, key, username, password, role);
  }

  /** Writing an admitted job row keeps every table invariant. */
  lemma JobWriteKeepsConsistent(users: map<int, UserRow>, jobs: map<int, JobRow>,
                                applications: map<int, ApplicationRow>, key: int, title: Option<string>,
                                description: Option<string>, location: Option<string>, postedBy: Option<int>)
    requires Consistent(users, jobs, applications)
    requires JobRowFor(users, key, title, description, location, postedBy).Success?
    ensures Consistent(users, jobs[key := JobRowFor(users, key, title, description, location, postedBy).value],
                       applications)
  {
  }

  /** Writing an admitted application row keeps every table invariant. */
  lemma ApplicationWriteKeepsConsistent(users: map<int, UserRow>, jobs: map<int, JobRow>,
                                        applications: map<int, ApplicationRow>, key: int, job: Option<int>,
                                        applicant: Option<int>, applicationDate: Option<DateTime>,
                                        coverLetter: Option<string>)
    requires Consistent(users, jobs, applications)
    requires ApplicationRowFor(users, jobs, key, job, applicant, applicationDate, coverLetter).Success?
    ensures Consistent(users, jobs,
                       applications[key := ApplicationRowFor(users, jobs, key, job, applicant,
                                                             applicationDate, coverLetter).value])
  {
  }

  /** The database: three tables and their IDENTITY counters. */
  class Database {
    var users: map<int, UserRow>
    var jobs: map<int, JobRow>
    var applications: map<int, ApplicationRow>
    var nextUserId: int
    var nextJobId: int
    var nextApplicationId: int

    ghost predicate Valid()
      reads this
    {
      && Consistent(users, jobs, applications)
      && (forall k :: k in users ==> k < nextUserId)
      && (forall k :: k in jobs ==> k < nextJobId)
      && (forall k :: k in applications ==> k < nextApplicationId)
    }

    /** An empty schema; IDENTITY columns start at 1. */
    constructor ()
      ensures Valid()
      ensures users == map[] && jobs == map[] && applications == map[]
      ensures nextUserId == 1 && nextJobId == 1 && nextApplicationId == 1
    {
      users, jobs, applications := map[], map[], map[];
      nextUserId, nextJobId, nextApplicationId := 1, 1, 1;
    }

    /**
     * UserRepository.save: persist (a new row, its id written back to the
     * entity) or merge (the row the entity's id names is overwritten).
     */
    method SaveUser(u: User) returns (r: Result<int, DbError>)
      requires Valid()
      modifies this`users, this`nextUserId, u`id
      ensures Valid()
      ensures var key := SaveKey(old(users), old(nextUserId), old(u.id));
              var row := UserRowFor(old(users), key, old(u.username), old(u.password), old(u.role));
              && (row.Failure? ==>
                    r == Failure(row.error) && users == old(users) && nextUserId == old(nextUserId) && u.id == old(u.id))
              && (row.Success? ==>
                    && r == Success(key)
                    && users == old(users)[key := row.value]
                    && nextUserId == (if key == old(nextUserId) then old(nextUserId) + 1 else old(nextUserId))
                    && u.id == (if old(u.id).None? then Some(key) else old(u.id)))
    {
      var key := SaveKey(users, nextUserId, u.id);
      var row := UserRowFor(users, key, u.username, u.password, u.role);
      if row.Failure? {
        return Failure(row.error);
      }
      UserWriteKeepsConsistent(users, jobs, applications, key, u.username, u.password, u.role);
      users := users[key := row.value];
      if key == nextUserId {
        nextUserId := nextUserId + 1;
      }
      if u.id.None? {
        u.id := Some(key);
      }
      r := Success(key);
    }

    /** JobRepository.save, with the same persist-or-merge rule. */
    method SaveJob(j: Job) returns (r: Result<int, DbError>)
      requires Valid()
      modifies this`jobs, this`nextJobId, j`id
      ensures Valid()
      ensures var key := SaveKey(old(jobs), old(nextJobId), old(j.id));
              var row := JobRowFor(users, key, old(j.title), old(j.description), old(j.location), old(j.postedBy));
              && (row.Failure? ==>
                    r == Failure(row.error) && jobs == old(jobs) && nextJobId == old(nextJobId) && j.id == old(j.id))
              && (row.Success? ==>
                    && r == Success(key)
                    && jobs == old(jobs)[key := row.value]
                    && nextJobId == (if key == old(nextJobId) then old(nextJobId) + 1 else old(nextJobId))
                    && j.id == (if old(j.id).None? then Some(key) else old(j.id)))
    {
      var key := SaveKey(jobs, nextJobId, j.id);
      var row := JobRowFor(users, key, j.title, j.description, j.location, j.postedBy);
      if row.Failure? {
        return Failure(row.error);
      }
      JobWriteKeepsConsistent(users, jobs, applications, key, j.title, j.description, j.location, j.postedBy);
      jobs := jobs[key := row.value];
      if key == nextJobId {
        nextJobId := nextJobId + 1;
      }
      if j.id.None? {
        j.id := Some(key);
      }
      r := Success(key);
    }

    /** ApplicationRepository.save, with the same persist-or-merge rule. */
    method SaveApplication(a: Application) returns (r: Result<int, DbError>)
      requires Valid()
      modifies this`applications, this`nextApplicationId, a`id
      ensures Valid()
      ensures var key := SaveKey(old(applications), old(nextApplicationId), old(a.id));
              var row := ApplicationRowFor(users, jobs, key, old(a.job), old(a.applicant),
                                           old(a.applicationDate), old(a.coverLetter));
              && (row.Failure? ==>
                    && r == Failure(row.error) && applications == old(applications)
                    && nextApplicationId == old(nextApplicationId) && a.id == old(a.id))
              && (row.Success? ==>
                    && r == Success(key)
                    && applications == old(applications)[key := row.value]
                    && nextApplicationId == (if key == old(nextApplicationId) then old(nextApplicationId) + 1
                                             else old(nextApplicationId))
                    && a.id == (if old(a.id).None? then Some(key) else old(a.id)))
    {
      var key := SaveKey(applications, nextApplicationId, a.id);
      var row := ApplicationRowFor(users, jobs, key, a.job, a.applicant, a.applicationDate, a.coverLetter);
      if row.Failure? {
        return Failure(row.error);
      }
      ApplicationWriteKeepsConsistent(users, jobs, applications, key, a.job, a.applicant,
                                      a.applicationDate, a.coverLetter);
      applications := applications[key := row.value];
      if key == nextApplicationId {
        nextApplicationId := nextApplicationId + 1;
      }
      if a.id.None? {
        a.id := Some(key);
      }
      r := Success(key);
    }
  }
}
