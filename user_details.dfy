/**
 * CustomUserDetailsService.loadUserByUsername: the read-only lookup Spring
 * Security's DAO provider uses to fetch the credentials of a login attempt.
 */
module UserDetailsService {
  import opened Common
  import opened Store

  /** The UserDetails handed to Spring Security: name, stored encoding, authorities. */
  datatype UserDetails = UserDetails(username: string, password: string, authorities: seq<string>)

  /**
   * Why loading fails: no user has the name, or the framework's User
   * constructor refuses the empty name the row carries.
   */
  datatype LoadFailure = UsernameNotFoundException(username: string) | EmptyUsername

  function LoadUserByUsername(users: map<int, UserRow>, username: string): (r: Result<UserDetails, LoadFailure>)
    requires UsernamesUnique(users)
    ensures r.Success? <==> UsernameTaken(users, username) && username != ""
    ensures !UsernameTaken(users, username) ==> r == Failure(UsernameNotFoundException(username))
    ensures UsernameTaken(users, username) && username == "" ==> r == Failure(EmptyUsername)
    ensures r.Success? ==> r.value.username == username
    ensures r.Success? ==>
      exists k :: k in users && users[k].username == username
        && r.value.password == users[k].password
        && r.value.authorities == [users[k].role.Name()]
  {
    match FindByUsername(users, username)
    case None => Failure(UsernameNotFoundException(username))
    case Some(u) =>
      if u.username == "" then Failure(EmptyUsername)
      else Success(UserDetails(u.username, u.password, [u.role.Name()]))
  }
}
