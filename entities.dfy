/**
 * The persistent entities of the job board: the Role enum and the three JPA
 * entity classes User, Job and Application. A Java reference that may be null
 * is an Option; an entity reference (Job.postedBy, Application.job,
 * Application.applicant) is held as the referenced row's id, which is all that
 * the join column stores.
 */
module Entities {
  import opened Common

  /** Role.java: the two roles; the enum constant's name is the authority string. */
  datatype Role = RoleAdmin | RoleUser {

    /** Enum.name(): what the role column stores and what Spring Security compares. */
    function Name(): (name: string)
      ensures |name| > 5 && name[..5] == "ROLE_"
    {
      match this
      case RoleAdmin => "ROLE_ADMIN"
      case RoleUser => "ROLE_USER"
    }
  }

  /** Enum.valueOf: how a stored role column is read back into a Role. */
  function RoleNamed(name: string): (r: Option<Role>)
    ensures r.Some? <==> name == "ROLE_ADMIN" || name == "ROLE_USER"
    ensures r.Some? ==> |name| > 5 && name[..5] == "ROLE_"
  {
    if name == "ROLE_ADMIN" then Some(RoleAdmin)
    else if name == "ROLE_USER" then Some(RoleUser)
    else None
  }

  /** Storing a role by name and reading it back yields the same role. */
  lemma RoleNameRoundTrip(r: Role)
    ensures RoleNamed(r.Name()) == Some(r)
  {
  }

  /** Only the two enum names are readable, each as its own role. */
  lemma RoleNamedInverse(name: string, r: Role)
    requires RoleNamed(name) == Some(r)
    ensures name == r.Name()
  {
  }

  /** Distinct roles have distinct names, so the stored string identifies the role. */
  lemma RoleNameInjective(r: Role, r': Role)
    requires r.Name() == r'.Name()
    ensures r == r'
  {
    RoleNameRoundTrip(r);
    RoleNameRoundTrip(r');
  }

  /** A clock reading (LocalDateTime), supplied by the caller. */
  type DateTime = int

  /** User.java: a user account as a mutable entity (the object a form binds to). */
  class User {
    var id: Option<int>
    var username: Option<string>
    var password: Option<string>
    var role: Option<Role>

    /** The no-argument constructor: every field null. */
    constructor ()
      ensures id == None && username == None && password == None && role == None
    {
      id, username, password, role := None, None, None, None;
    }

    method SetId(v: Option<int>)
      modifies this`id
      ensures id == v
    {
      id := v;
    }

    method SetUsername(v: Option<string>)
      modifies this`username
      ensures username == v
    {
      username := v;
    }

    method SetPassword(v: Option<string>)
      modifies this`password
      ensures password == v
    {
      password := v;
    }

    method SetRole(v: Option<Role>)
      modifies this`role
      ensures role == v
    {
      role := v;
    }
  }

  /** Job.java: a job posting; postedBy is the poster's user id. */
  class Job {
    var id: Option<int>
    var title: Option<string>
    var description: Option<string>
    var location: Option<string>
    var postedBy: Option<int>

    constructor ()
      ensures id == None && title == None && description == None && location == None && postedBy == None
    {
      id, title, description, location, postedBy := None, None, None, None, None;
    }

    method SetId(v: Option<int>)
      modifies this`id
      ensures id == v
    {
      id := v;
    }

    method SetTitle(v: Option<string>)
      modifies this`title
      ensures title == v
    {
      title := v;
    }

    method SetDescription(v: Option<string>)
      modifies this`description
      ensures description == v
    {
      description := v;
    }

    method SetLocation(v: Option<string>)
      modifies this`location
      ensures location == v
    {
      location := v;
    }

    method SetPostedBy(v: Option<int>)
      modifies this`postedBy
      ensures postedBy == v
    {
      postedBy := v;
    }
  }

  /** Application.java: an application; job and applicant are row ids. */
  class Application {
    var id: Option<int>
    var job: Option<int>
    var applicant: Option<int>
    var applicationDate: Option<DateTime>
    var coverLetter: Option<string>

    constructor ()
      ensures id == None && job == None && applicant == None && applicationDate == None && coverLetter == None
    {
      id, job, applicant, applicationDate, coverLetter := None, None, None, None, None;
    }

    method SetId(v: Option<int>)
      modifies this`id
      ensures id == v
    {
      id := v;
    }

    method SetJob(v: Option<int>)
      modifies this`job
      ensures job == v
    {
      job := v;
    }

    method SetApplicant(v: Option<int>)
      modifies this`applicant
      ensures applicant == v
    {
      applicant := v;
    }

    method SetApplicationDate(v: Option<DateTime>)
      modifies this`applicationDate
      ensures applicationDate == v
    {
      applicationDate := v;
    }

    method SetCoverLetter(v: Option<string>)
      modifies this`coverLetter
      ensures coverLetter == v
    {
      coverLetter := v;
    }
  }
}
