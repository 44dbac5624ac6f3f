/**
 * CustomAuthenticationSuccessHandler: after a successful login, one redirect
 * chosen from the authorities alone.
 */
module SuccessHandler {

  const AdminDashboard: string := "/admin/dashboard"
  const UserDashboard: string := "/user/dashboard"
  const AdminAuthority: string := "ROLE_ADMIN"

  /** authorities.stream().anyMatch(a -> a.getAuthority().equals(wanted)) */
  function AnyMatch(authorities: seq<string>, wanted: string): bool {
    |authorities| > 0 && (authorities[0] == wanted || AnyMatch(authorities[1..], wanted))
  }

  lemma {:induction false} AnyMatchIsMembership(authorities: seq<string>, wanted: string)
    ensures AnyMatch(authorities, wanted) <==> wanted in authorities
  {
    if |authorities| > 0 {
      AnyMatchIsMembership(authorities[1..], wanted);
      assert authorities == [authorities[0]] + authorities[1..];
    }
  }

  /** onAuthenticationSuccess: the one redirect target it sends. */
  function OnAuthenticationSuccess(authorities: seq<string>): (target: string)
    ensures target == AdminDashboard <==> AdminAuthority in authorities
    ensures target == UserDashboard <==> AdminAuthority !in authorities
  {
    AnyMatchIsMembership(authorities, AdminAuthority);
    if AnyMatch(authorities, AdminAuthority) then AdminDashboard else UserDashboard
  }

  /** The order and multiplicity of the authorities do not matter, only which ones occur. */
  lemma AuthorityOrderIrrelevant(authorities: seq<string>, authorities': seq<string>)
    requires forall a :: a in authorities <==> a in authorities'
    ensures OnAuthenticationSuccess(authorities) == OnAuthenticationSuccess(authorities')
  {
  }
}
