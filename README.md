# Job portal: security rules, registration and job handlers in Dafny

This project models the core of a Spring Boot job board. Administrators post
jobs, users apply to them, and Spring Security decides who may reach which page.

The model is sequential. The database is one object, `Store.Database`, which
holds three tables: users, jobs and applications. Each table is a
`map<int, Row>` keyed by its IDENTITY primary key, and each has its own
next-key counter. The signed-in caller is passed as an explicit parameter:
`Option<string>` for a controller and `Option<Principal>` for the security
layer. `None` is an anonymous caller.

The modules follow the source:

- `Entities`: the `Role` enum and the three JPA entity classes `User`, `Job`
  and `Application`. They are Dafny classes with mutable `Option` fields, where
  `None` is Java's null, and one setter per field. An entity reference such as
  `Job.postedBy` is stored as the referenced row's id, which is what the join
  column holds.
- `Store`: the tables and their constraints, plus `save` as JPA performs it.
  - An entity with no id is persisted under a fresh key, and the key is
    written back to the entity.
  - An entity whose id names an existing row is merged onto that row.
  - Any other entity is inserted under a fresh key.
  - A not-null, unique or foreign-key violation fails and leaves the tables
    unchanged.
  - `Database.Valid()` is the schema invariant: usernames are unique, every
    foreign key resolves, and every key is below its counter. Every mutating
    method preserves it.
- `Passwords`: BCrypt as a transparent salted encoding. An encoding is never
  the plaintext, and it verifies against exactly the password it encodes.
- `Web`: requests, query-parameter lookup (a repeated parameter binds its
  values joined by commas), following a redirect, handler outcomes (rendered,
  redirected or failed), and `getAuthenticatedUser`.
- `UserDetailsService`: `loadUserByUsername`.
- `SuccessHandler`: the role-based redirect after a successful login.
- `SecurityConfig`: the authorization rule table and the filter order
  (logout, then form login, then authorization), plus authentication through
  the DAO provider.
  - The login filter trims the submitted username before the lookup, and the
    framework refuses to build the details of a stored empty name, so that
    login fails.
  - Rules are first-match. A path pattern ending in a double star matches its
    base and everything below it; any other pattern matches only itself.
  - The `permitAll()` calls on `formLogin` and `logout` add exact-URL permit
    rules in front of the declared ones. The model includes them. Lemma
    `FrameworkPermitsOnlyAddLogout` shows that they change no decision except
    for `POST /logout`.
- `AuthController`, `AdminController`, `UserController`: the request handlers.
  - Handlers that only read are functions over the tables.
  - Handlers that change the bound form object and save it are methods on the
    `Database` and the entity object. Each is specified by the new state of
    the tables.

The admin and user login pages are mapped from the application properties
`security.admin.login-page` and `security.user.login-page`
(AuthController.java:25-29, :40 and :52). The model assumes these are
`/login-admin` and `/login-user`, the constants the security configuration
declares. If the properties named other paths, the handlers would serve pages
that the rule table does not permit.

The registration handlers' comments describe `/register-user` and
`/register-admin` as public. The security configuration does not permit them,
so they need a signed-in caller. The model follows the code; see "## Findings".

## Model

| member | source | states |
|---|---|---|
| Entities.Role.Name | jobpportal/src/main/java/com/telusko/jobportal/model/Role.java:5-8 | a role's name, the authority string, is "ROLE_" followed by the role |
| Entities.RoleNameRoundTrip | jobpportal/src/main/java/com/telusko/jobportal/repository/User.java:23-25 | a role stored by its enum name reads back as the same role |
| Entities.RoleNamed | jobpportal/src/main/java/com/telusko/jobportal/repository/User.java:23-25 | Enum.valueOf reads back exactly the two enum names, ROLE_ADMIN and ROLE_USER; any other stored string is refused |
| Entities.RoleNamedInverse | jobpportal/src/main/java/com/telusko/jobportal/repository/User.java:23-25 | only the two enum names can be read back, each as its own role |
| Entities.RoleNameInjective | jobpportal/src/main/java/com/telusko/jobportal/model/Role.java:5-8 | distinct roles have distinct stored names |
| Entities.User.constructor | jobpportal/src/main/java/com/telusko/jobportal/repository/User.java:11-25 | a new form object has every field null |
| Entities.User.SetId | jobpportal/src/main/java/com/telusko/jobportal/repository/User.java:33-35 | sets the id and changes no other field |
| Entities.User.SetUsername | jobpportal/src/main/java/com/telusko/jobportal/repository/User.java:41-43 | sets the username and changes no other field |
| Entities.User.SetPassword | jobpportal/src/main/java/com/telusko/jobportal/repository/User.java:49-51 | sets the password and changes no other field |
| Entities.User.SetRole | jobpportal/src/main/java/com/telusko/jobportal/repository/User.java:57-59 | sets the role and changes no other field |
| Entities.Job.constructor | jobpportal/src/main/java/com/telusko/jobportal/model/Job.java:9-26 | a new form object has every field null |
| Entities.Job.SetId | jobpportal/src/main/java/com/telusko/jobportal/model/Job.java:34-36 | sets the id only |
| Entities.Job.SetTitle | jobpportal/src/main/java/com/telusko/jobportal/model/Job.java:42-44 | sets the title only |
| Entities.Job.SetDescription | jobpportal/src/main/java/com/telusko/jobportal/model/Job.java:50-52 | sets the description only |
| Entities.Job.SetLocation | jobpportal/src/main/java/com/telusko/jobportal/model/Job.java:58-60 | sets the location only |
| Entities.Job.SetPostedBy | jobpportal/src/main/java/com/telusko/jobportal/model/Job.java:66-68 | sets the poster only |
| Entities.Application.constructor | jobpportal/src/main/java/com/telusko/jobportal/model/Application.java:10-29 | a new form object has every field null |
| Entities.Application.SetId | jobpportal/src/main/java/com/telusko/jobportal/model/Application.java:37-39 | sets the id only |
| Entities.Application.SetJob | jobpportal/src/main/java/com/telusko/jobportal/model/Application.java:45-47 | sets the job only |
| Entities.Application.SetApplicant | jobpportal/src/main/java/com/telusko/jobportal/model/Application.java:53-55 | sets the applicant only |
| Entities.Application.SetApplicationDate | jobpportal/src/main/java/com/telusko/jobportal/model/Application.java:61-63 | sets the date only |
| Entities.Application.SetCoverLetter | jobpportal/src/main/java/com/telusko/jobportal/model/Application.java:69-71 | sets the cover letter only |
| Store.FindByUsername | jobpportal/src/main/java/com/telusko/jobportal/repository/UserRepository.java:17 | finds a user exactly when the name is taken; the row found is a stored row with that name |
| Store.UserRowFor | jobpportal/src/main/java/com/telusko/jobportal/repository/User.java:17-25 | a user row is admitted exactly when username, password and role are non-null and no other row has the username |
| Store.JobRowFor | jobpportal/src/main/java/com/telusko/jobportal/model/Job.java:15-26 | a job row is admitted exactly when the title and poster are non-null and the poster exists; description and location may be null |
| Store.ApplicationRowFor | jobpportal/src/main/java/com/telusko/jobportal/model/Application.java:17-29 | an application row is admitted exactly when job, applicant and date are non-null and both references exist; the cover letter may be null |
| Store.UserWriteKeepsUnique | jobpportal/src/main/java/com/telusko/jobportal/repository/User.java:17 | writing an admitted user row keeps usernames unique |
| Store.UserWriteKeepsConsistent | jobpportal/src/main/java/com/telusko/jobportal/repository/User.java:17-25 | writing an admitted user row keeps every table invariant |
| Store.JobWriteKeepsConsistent | jobpportal/src/main/java/com/telusko/jobportal/model/Job.java:15-26 | writing an admitted job row keeps every table invariant |
| Store.ApplicationWriteKeepsConsistent | jobpportal/src/main/java/com/telusko/jobportal/model/Application.java:17-29 | writing an admitted application row keeps every table invariant |
| Store.Database.constructor | jobpportal/src/main/java/com/telusko/jobportal/repository/User.java:13-15 | empty tables satisfy the invariant; IDENTITY keys start at 1 |
| Store.SaveKey | jobpportal/src/main/java/com/telusko/jobportal/controller/AuthController.java:98 | the key save writes to: the entity's own id when that id names a stored row (merge), and otherwise the next IDENTITY value (insert) |
| Store.Database.SaveUser | jobpportal/src/main/java/com/telusko/jobportal/repository/UserRepository.java:13 | a violation leaves everything unchanged; otherwise the row is written at the merge-or-fresh key, the counter advances only for a fresh key, a null id is written back, and the invariant is kept |
| Store.Database.SaveJob | jobpportal/src/main/java/com/telusko/jobportal/repository/JobRepository.java:14 | the same for jobs |
| Store.Database.SaveApplication | jobpportal/src/main/java/com/telusko/jobportal/repository/ApplicationRepository.java:15 | the same for applications |
| Passwords.Encode | jobpportal/src/main/java/com/telusko/jobportal/config/PasswordEncoderConfig.java:16 | the encoding is never the plaintext and verifies against it |
| Passwords.MatchesOnlyEncodedPassword | jobpportal/src/main/java/com/telusko/jobportal/config/PasswordEncoderConfig.java:16 | an encoding accepts exactly the password it encodes |
| Passwords.SaltedEncodingsDiffer | jobpportal/src/main/java/com/telusko/jobportal/config/PasswordEncoderConfig.java:16 | two salts give two different encodings of one password |
| Web.Follow | jobpportal/src/main/java/com/telusko/jobportal/controller/AuthController.java:89 | following a redirect sends a GET; it has a query exactly when the URL contains '?', and then path and query are the parts around the first '?' |
| Web.FollowSplits | jobpportal/src/main/java/com/telusko/jobportal/controller/AuthController.java:101 | a redirect to path?query leads to that path with that query |
| Web.FlagParameter | jobpportal/src/main/java/com/telusko/jobportal/controller/AuthController.java:62 | a bare flag in the query gives the parameter the single value "" |
| Web.FlagSetsNoOtherParameter | jobpportal/src/main/java/com/telusko/jobportal/controller/AuthController.java:58 | a bare flag gives every other parameter no value |
| Web.PairParameter | jobpportal/src/main/java/com/telusko/jobportal/controller/AuthController.java:76 | name=value gives the parameter the single value value |
| Web.Param | jobpportal/src/main/java/com/telusko/jobportal/controller/AuthController.java:58 | a request parameter is absent exactly when there is no query or the name has no value in it; a single value binds as it is |
| Web.ParameterValuesSplit | jobpportal/src/main/java/com/telusko/jobportal/controller/AuthController.java:76 | the pairs before and after an `&` contribute their values in order |
| Web.RepeatedPairJoins | jobpportal/src/main/java/com/telusko/jobportal/controller/AuthController.java:76 | a name given twice binds both values joined by a comma, as a String request parameter does |
| Web.GetAuthenticatedUser | jobpportal/src/main/java/com/telusko/jobportal/controller/AdminController.java:105-113 | succeeds exactly when the principal's name is stored, with that user's row; otherwise fails with not-found for that name |
| UserDetailsService.LoadUserByUsername | CustomUserDetailsService.java:48-73 | fails with not-found, naming the username, exactly when it is unknown; a stored empty name fails, as the framework's User constructor refuses it; otherwise returns that name, the stored encoded password and a single authority, the role's name |
| SuccessHandler.AnyMatchIsMembership | jobpportal/src/main/java/com/telusko/jobportal/config/CustomAuthenticationSuccessHandler.java:29-30 | anyMatch on equality is membership |
| SuccessHandler.OnAuthenticationSuccess | jobpportal/src/main/java/com/telusko/jobportal/config/CustomAuthenticationSuccessHandler.java:25-39 | exactly one target: the admin dashboard iff ROLE_ADMIN is among the authorities, else the user dashboard (empty or unknown sets included) |
| SuccessHandler.AuthorityOrderIrrelevant | jobpportal/src/main/java/com/telusko/jobportal/config/CustomAuthenticationSuccessHandler.java:29-30 | two authority lists holding the same authorities, in any order and multiplicity, give the same target |
| SecurityConfig.Authorize | jobpportal/src/main/java/com/telusko/jobportal/config/SecurityConfig.java:60-76 | first-match decision over the permits added by formLogin and logout, followed by the declared table: allowed iff the caller meets the requirement of the rule that decides the request; a refusal sends an anonymous caller to log in and answers 403 otherwise |
| SecurityConfig.AnyPatternMatchesIff | jobpportal/src/main/java/com/telusko/jobportal/config/SecurityConfig.java:62 | a requestMatchers group matches iff one of its patterns does |
| SecurityConfig.FirstMatchIs | jobpportal/src/main/java/com/telusko/jobportal/config/SecurityConfig.java:60-76 | first match wins: the first matching rule's requirement is the one applied |
| SecurityConfig.FirstMatchSkipsPrefix | jobpportal/src/main/java/com/telusko/jobportal/config/SecurityConfig.java:60-76 | rules in front that match nothing do not affect the decision |
| SecurityConfig.PermittedByPrefix | jobpportal/src/main/java/com/telusko/jobportal/config/SecurityConfig.java:60-65 | a request matched within a run of permitAll rules is permitted |
| SecurityConfig.PublicPagesAllowed | jobpportal/src/main/java/com/telusko/jobportal/config/SecurityConfig.java:62-65 | /, /register, both login pages and /do-login are allowed for any caller, anonymous included |
| SecurityConfig.StaticResourcesAllowed | jobpportal/src/main/java/com/telusko/jobportal/config/SecurityConfig.java:62 | everything under /css and /js is allowed for any caller |
| SecurityConfig.AdminAreaNeedsAdmin | jobpportal/src/main/java/com/telusko/jobportal/config/SecurityConfig.java:69 | under /admin: allowed iff ROLE_ADMIN is held; anonymous callers must log in, others get 403 |
| SecurityConfig.UserAreaNeedsUser | jobpportal/src/main/java/com/telusko/jobportal/config/SecurityConfig.java:72 | under /user: allowed iff ROLE_USER is held; anonymous callers must log in, others get 403 |
| SecurityConfig.UnlistedNeedsAuthentication | jobpportal/src/main/java/com/telusko/jobportal/config/SecurityConfig.java:75 | a request no earlier rule matches is allowed for any signed-in caller and sends an anonymous one to log in |
| SecurityConfig.RegistrationNeedsLogin | jobpportal/src/main/java/com/telusko/jobportal/config/SecurityConfig.java:62-75 | /register-user and /register-admin fall to anyRequest().authenticated() |
| SecurityConfig.FrameworkPermitsOnlyAddLogout | jobpportal/src/main/java/com/telusko/jobportal/config/SecurityConfig.java:89-96 | the permits added by formLogin and logout decide nothing differently from the declared table, except for POST /logout |
| SecurityConfig.FirstMatchAgrees | jobpportal/src/main/java/com/telusko/jobportal/config/SecurityConfig.java:60-76 | two tables that match alike rule by rule decide alike |
| SecurityConfig.IntendedRegistrationIsPublic | jobpportal/src/main/java/com/telusko/jobportal/controller/AuthController.java:68-70 | with the registration pages listed as public, anyone reaches them |
| SecurityConfig.IntendedAgreesElsewhere | jobpportal/src/main/java/com/telusko/jobportal/config/SecurityConfig.java:62 | that correction changes no other decision |
| SecurityConfig.Filter | jobpportal/src/main/java/com/telusko/jobportal/config/SecurityConfig.java:79-96 | only POST /logout logs out (to /); only POST /do-login is processed as a login; otherwise an allowed request proceeds, an anonymous refusal redirects to /login-user and any other refusal is 403 |
| SecurityConfig.AdminRefusedUserArea | jobpportal/src/main/java/com/telusko/jobportal/config/SecurityConfig.java:72 | no role hierarchy: an admin asking for a page under /user gets 403 |
| SecurityConfig.Authenticate | jobpportal/src/main/java/com/telusko/jobportal/config/SecurityConfig.java:110-114 | succeeds iff the name is non-empty and a stored user with that name has a matching encoded password; the principal carries that user's role name as its only authority |
| SecurityConfig.ProcessLogin | jobpportal/src/main/java/com/telusko/jobportal/config/SecurityConfig.java:79-88 | the submitted name is trimmed; every failed login, from either form, goes to /login-user?error; a verified login goes to the dashboard of the stored account's role |
| SecurityConfig.Trim | jobpportal/src/main/java/com/telusko/jobportal/config/SecurityConfig.java:79-84 | the String.trim the login filter applies to the submitted name: the result has no blank at either end, is no longer than the input, and is empty exactly when every character is U+0020 or below |
| SecurityConfig.EveryRequestDecided | jobpportal/src/main/java/com/telusko/jobportal/config/SecurityConfig.java:60-76 | the table ends with anyRequest(), so exactly one rule decides each request |
| SecurityConfig.TrimPadding | jobpportal/src/main/java/com/telusko/jobportal/config/SecurityConfig.java:79-84 | the login filter's trim removes exactly the blank padding around a name whose ends are not blank |
| SecurityConfig.TrimKeepsTrimmed | jobpportal/src/main/java/com/telusko/jobportal/config/SecurityConfig.java:79-84 | a name without blank ends is submitted unchanged |
| SecurityConfig.PaddedNameLogsInAsTrimmed | jobpportal/src/main/java/com/telusko/jobportal/config/SecurityConfig.java:79-84 | a leading space on the submitted name changes no login outcome |
| AuthController.ShowAdminLoginPage | jobpportal/src/main/java/com/telusko/jobportal/controller/AuthController.java:41-46 | renders login-admin; loginError is present iff the error flag is; nothing else is set |
| AuthController.ShowUserLoginPage | jobpportal/src/main/java/com/telusko/jobportal/controller/AuthController.java:53-65 | renders login-user; loginError iff error is present and registrationSuccess iff registered is present, independently |
| AuthController.ShowRegistrationForm | jobpportal/src/main/java/com/telusko/jobportal/controller/AuthController.java:71-79 | registrationError is set iff error is exactly "exists" |
| AuthController.ShowUserRegistrationForm | jobpportal/src/main/java/com/telusko/jobportal/controller/AuthController.java:71-79 | renders register-user; registrationError iff error is "exists" |
| AuthController.ShowAdminRegistrationForm | jobpportal/src/main/java/com/telusko/jobportal/controller/AuthController.java:107-115 | renders register-admin; registrationError iff error is "exists" |
| AuthController.FailedLoginShowsError | jobpportal/src/main/java/com/telusko/jobportal/config/SecurityConfig.java:35 | the failure redirect lands on the user login page showing the login error and no success message |
| AuthController.UserRegistrationShowsSuccess | jobpportal/src/main/java/com/telusko/jobportal/controller/AuthController.java:101 | a user registration's redirect shows the success message and no login error |
| AuthController.AdminRegistrationFlagIgnored | jobpportal/src/main/java/com/telusko/jobportal/controller/AuthController.java:137 | the admin registration's redirect carries the registered flag, but the admin login page shows nothing for it |
| AuthController.TakenUsernameShowsError | jobpportal/src/main/java/com/telusko/jobportal/controller/AuthController.java:89 | a taken username leads back to the same registration form, showing the error |
| AuthController.RegistrationOf | jobpportal/src/main/java/com/telusko/jobportal/controller/AuthController.java:85-101 | a taken username redirects to error=exists and writes nothing; success happens iff username and password are given and the name is free, and then stores exactly the row (key, name, encode(password), the entry point's role); usernames stay unique |
| AuthController.FreshRegistrationAddsOneUser | jobpportal/src/main/java/com/telusko/jobportal/controller/AuthController.java:87-98 | without a bound id, success adds exactly one account under the next key and leaves every other account unchanged |
| AuthController.LoginAfterRegistration | jobpportal/src/main/java/com/telusko/jobportal/controller/AuthController.java:93-98 | after registering a non-empty name without blank ends, logging in with it and the submitted password reaches the dashboard of the entry point's role |
| AuthController.WrongPasswordRejected | jobpportal/src/main/java/com/telusko/jobportal/controller/AuthController.java:93 | after registering a name without blank ends, any other password is sent to /login-user?error |
| AuthController.BoundIdOverwritesAccount | jobpportal/src/main/java/com/telusko/jobportal/controller/AuthController.java:85-98 | as written, a form carrying id=1 replaces the account stored under 1 |
| AuthController.RegisterAs | jobpportal/src/main/java/com/telusko/jobportal/controller/AuthController.java:121-137 | the outcome and the new user table are those of RegistrationOf; the counter advances only when a registration inserts under it; on success the form object holds the encoded password, the role and the id written back; a failed save leaves the encoded password and role on it; a taken name or a null password changes nothing |
| AuthController.RegisterUser | jobpportal/src/main/java/com/telusko/jobportal/controller/AuthController.java:85-101 | RegistrationOf with ROLE_USER, whatever role was submitted, with the same counter and form-object state as RegisterAs |
| AuthController.RegisterAdmin | jobpportal/src/main/java/com/telusko/jobportal/controller/AuthController.java:121-137 | RegistrationOf with ROLE_ADMIN, with the same counter and form-object state as RegisterAs |
| AuthController.RegisterFixed | jobpportal/src/main/java/com/telusko/jobportal/controller/AuthController.java:85-98 | with any bound id discarded, success adds exactly one account under the next key, advances the counter by one and keeps all other accounts |
| AuthController.PaddedNameCannotLogIn | jobpportal/src/main/java/com/telusko/jobportal/controller/AuthController.java:85-98 | as written, a name with a leading space registers, and logging in with that name fails |
| AuthController.EmptyNameCannotLogIn | jobpportal/src/main/java/com/telusko/jobportal/controller/AuthController.java:85-98 | as written, the empty name registers, and logging in with it fails |
| AuthController.IntendedRegistrationOf | jobpportal/src/main/java/com/telusko/jobportal/controller/AuthController.java:85-98 | intended registration: a blank name is refused; otherwise the trimmed name is registered under the same rules as RegistrationOf |
| AuthController.IntendedRegistrationCanLogIn | jobpportal/src/main/java/com/telusko/jobportal/controller/AuthController.java:85-98 | every account the intended registration creates logs in with the name as typed and the submitted password, reaching its role's dashboard |
| AdminController.ShowAdminDashboard | jobpportal/src/main/java/com/telusko/jobportal/controller/AdminController.java:40-48 | renders exactly the jobs whose poster is the signed-in user; fails when that user is not stored |
| AdminController.AddJob | jobpportal/src/main/java/com/telusko/jobportal/controller/AdminController.java:62-71 | the poster is set to the signed-in user whatever the form held; the job is stored with that poster, or a null title is refused; then redirect to /admin/dashboard; the job counter advances and the id is written back only when a save inserts under a fresh key |
| AdminController.ViewApplications | jobpportal/src/main/java/com/telusko/jobportal/controller/AdminController.java:76-101 | a missing job gives error=jobNotFound before any user check; another poster gives error=unauthorized; the poster sees the title and exactly that job's applications |
| AdminController.PostedJobOnOwnDashboard | jobpportal/src/main/java/com/telusko/jobportal/controller/AdminController.java:42-46 | a job stored with a user as poster shows on that user's dashboard |
| AdminController.PostedJobHiddenFromOthers | jobpportal/src/main/java/com/telusko/jobportal/controller/AdminController.java:42-46 | it shows on no other user's dashboard |
| AdminController.ApplicationListedForPoster | jobpportal/src/main/java/com/telusko/jobportal/controller/AdminController.java:96-99 | a stored application is listed when its job's poster views that job's applications |
| UserController.ViewAllJobs | jobpportal/src/main/java/com/telusko/jobportal/controller/UserController.java:48-59 | lists every job, unfiltered; applicationSuccess iff the applied flag is present |
| UserController.ShowApplyForm | jobpportal/src/main/java/com/telusko/jobportal/controller/UserController.java:64-72 | fails with job-not-found iff the id is unknown; otherwise shows that job |
| UserController.ApplyForJob | jobpportal/src/main/java/com/telusko/jobportal/controller/UserController.java:78-94 | an unknown job fails before anything is saved, then an unknown user; otherwise the application is stamped with the job, the signed-in user and `now`, stored (no duplicate check), and the answer is a redirect to /user/view-jobs?applied; the counter and the written-back id follow the save; a new form adds exactly one row |
| UserController.AppliedRedirectShowsSuccess | jobpportal/src/main/java/com/telusko/jobportal/controller/UserController.java:93 | the applied redirect shows the success message on the job list |

## Left out

- BCrypt's cost factor, random salt generation, hash function and 72-byte limit: encoding is a transparent tagged string with the salt given as a parameter, and only its verification behaviour is modelled.
- Passwords.MatchesOnlyEncodedPassword: proves that an encoding verifies only the exact password it encodes. Real BCrypt reads only the first 72 bytes of the password, so two passwords that share those bytes both verify.
- AuthController.WrongPasswordRejected: holds only for passwords that differ within their first 72 bytes, because of the BCrypt limit above.
- Web.GetAuthenticatedUser: an anonymous caller is modelled as `None`, which fails with not-authenticated. The source has no such path. It reads the name of whatever authentication is in the context, which for an anonymous caller is Spring's anonymous principal, and looks that name up (AdminController.java:105-113, UserController.java:98-106). The rule table keeps anonymous callers away from every handler that calls it, so the path is never reached.
- Usernames are compared case-sensitively, in the unique constraint and in the lookup by name. The source does not name a database product. Under a case-insensitive collation, "Bob" and "bob" would be one name, which changes both uniqueness and which account a login loads.
- Sessions, the security context, CSRF tokens, Thymeleaf rendering and the servlet layer: the principal is a parameter, and a page is its view name plus the attributes the handlers set.
- The "user", "job" and "application" form-binding attributes added by the form pages: these are fresh empty objects, and the constructors model them.
- AdminController.showAddJobForm, UserController.userDashboard and HomeController: they only name a template.
- Entity getters: they are plain field reads, and the fields are read directly.
- Path matching: a pattern is an exact path or a base ending in a double star. Wider Ant glob syntax, URL decoding and path normalisation are not modelled. Query strings are not percent-decoded, and parameters sent in a POST body are not modelled.
- Merge of an entity whose id names no stored row: this is modelled as an insert under a fresh key, as Hibernate before 6.6 does; later versions raise an error instead.
- The registration check-then-insert race: the model is sequential, and under it the unique constraint is never hit by registration.
- Spring bean wiring and application bootstrap.
- Store.UserRowFor: column lengths are not modelled. The entities declare none, so a generated schema gives `username` the JPA default VARCHAR(255). Whether a longer value fails or is truncated depends on the database product and its mode, and neither is part of the source. A username longer than 255 characters is admitted here.
- Store.JobRowFor: the same for `title` and `location`; `description` is a TEXT column.
- AuthController.RegistrationOf: its "success iff" holds only for usernames the database column accepts, because of the column-length gap above.
- Store.Database.SaveUser, SaveJob and SaveApplication: a failed save in the source raises an exception that rolls back the transaction; here it returns the violated constraint and the state is unchanged, which is the same observable result.
- AddJob and ApplyForJob: a bound id is merged onto the stored job or application it names, exactly as in registration; the model states this through `SaveKey` but proves nothing further about it.

## Findings

| source | as written | input that shows it | evidently intended | confidence | as-written member | corrected member |
|---|---|---|---|---|---|---|
| jobpportal/src/main/java/com/telusko/jobportal/config/SecurityConfig.java:62 | the permit list names /register but not /register-user or /register-admin, so both fall to anyRequest().authenticated() | an anonymous GET /register-user is sent to /login-user; nobody can create a first account | both registration pages are public, as the handlers' comments at AuthController.java:69 and :83 state | high; not executed | SecurityConfig.RegistrationNeedsLogin | SecurityConfig.IntendedRegistrationIsPublic |
| jobpportal/src/main/java/com/telusko/jobportal/controller/AuthController.java:85-98 | the form binds every User property, id included, and save merges onto the row that id names | a signed-in caller (registration needs login, see the row above) sends POST /register-user with its CSRF token and id=1, username=mallory, password=pw while alice is user 1: alice's account is replaced by mallory's | a registration always creates a new account | medium; not executed | AuthController.BoundIdOverwritesAccount | AuthController.RegisterFixed |
| jobpportal/src/main/java/com/telusko/jobportal/controller/AuthController.java:85-98 | the submitted username is stored as sent, but the login filter trims the submitted name and the framework's User constructor refuses an empty one | register " bob" (or "") with password pw; logging in as " bob" looks up "bob" and fails, and "" can never be loaded | a registered account can log in with the name it registered, so the name is trimmed and a blank one refused at registration | medium; not executed | AuthController.PaddedNameCannotLogIn | AuthController.IntendedRegistrationCanLogIn |
