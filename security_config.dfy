/**
 * SecurityConfig: the ordered, first-match authorization rules, the single
 * form login (one processing URL for both login pages, one failure URL), and
 * logout. The principal of a request is explicit: None for an anonymous caller.
 */
module SecurityConfig {
  import opened Common
  import opened Entities
  import opened Store
  import opened Web
  import opened Passwords
  import opened UserDetailsService
  import opened SuccessHandler

  const AdminLoginPage: string := "/login-admin"
  const UserLoginPage: string := "/login-user"
  const LoginProcessingUrl: string := "/do-login"
  const LoginFailureUrl: string := UserLoginPage + "?" + "error"
  const LogoutUrl: string := "/logout"
  const LogoutSuccessUrl: string := "/"

  /** An authenticated caller: its name and granted authorities. */
  datatype Principal = Principal(name: string, authorities: seq<string>)

  /** permitAll(), hasRole(role) (authority "ROLE_" + role), authenticated(). */
  datatype Requirement = PermitAll | HasRole(role: string) | Authenticated

  /**
   * requestMatchers(patterns...), the exact URL matchers the framework builds
   * for permitAll() URLs, a method-and-path matcher, and anyRequest().
   */
  datatype Matcher =
    | Patterns(patterns: seq<string>)
    | ExactUrl(path: string, query: Option<string>)
    | MethodAndPattern(verb: HttpMethod, pattern: string)
    | AnyRequest

  datatype Rule = Rule(matcher: Matcher, requirement: Requirement)

  /** Allow; refuse with 403; or send the anonymous caller to the login entry point. */
  datatype Decision = Allow | DenyForbidden | DenyMustLogin

  /** `path` is `base` itself or lies below it. */
  predicate Under(path: string, base: string) {
    path == base || (|path| > |base| && path[..|base| + 1] == base + "/")
  }

  /** A pattern whose last segment is a double star matches its base and everything below; any other only itself. */
  predicate PatternMatches(pattern: string, path: string) {
    if |pattern| >= 3 && pattern[|pattern| - 3..] == "/**" then Under(path, pattern[..|pattern| - 3])
    else path == pattern
  }

  predicate AnyPatternMatches(patterns: seq<string>, path: string) {
    |patterns| > 0 && (PatternMatches(patterns[0], path) || AnyPatternMatches(patterns[1..], path))
  }

  predicate RequestMatches(m: Matcher, request: Request) {
    match m
    case Patterns(ps) => AnyPatternMatches(ps, request.path)
    case ExactUrl(p, q) => request.path == p && request.query == q
    case MethodAndPattern(v, p) => request.verb == v && PatternMatches(p, request.path)
    case AnyRequest => true
  }

  predicate Granted(requirement: Requirement, principal: Option<Principal>) {
    match requirement
    case PermitAll => true
    case HasRole(role) => principal.Some? && "ROLE_" + role in principal.value.authorities
    case Authenticated => principal.Some?
  }

  /** The requirement of the first rule whose matcher matches. */
  function FirstMatch(rules: seq<Rule>, request: Request): Option<Requirement> {
    if |rules| == 0 then None
    else if RequestMatches(rules[0].matcher, request) then Some(rules[0].requirement)
    else FirstMatch(rules[1..], request)
  }

  /**
   * The decision of a rule table: a request no rule matches is refused; a
   * refusal sends an anonymous caller to log in and answers 403 otherwise.
   */
  function Decide(rules: seq<Rule>, request: Request, principal: Option<Principal>): Decision {
    var granted := (match FirstMatch(rules, request)
                    case None => false
                    case Some(requirement) => Granted(requirement, principal));
    if granted then Allow
    else if principal.None? then DenyMustLogin
    else DenyForbidden
  }

  /** The first permitAll() group: the home page, the registration chooser, and static resources. */
  const PublicPages: seq<string> := ["/", "/register", "/css/**", "/js/**"]

  /** The rules declared in authorizeHttpRequests, in order. */
  const DeclaredRules: seq<Rule> := [
    Rule(Patterns(PublicPages), PermitAll),
    Rule(Patterns([AdminLoginPage, UserLoginPage, LoginProcessingUrl]), PermitAll),
    Rule(Patterns(["/admin/**"]), HasRole("ADMIN")),
    Rule(Patterns(["/user/**"]), HasRole("USER")),
    Rule(AnyRequest, Authenticated)
  ]

  /** formLogin(...).permitAll(): the login page, processing URL and failure URL. */
  const FormLoginPermits: seq<Rule> := [
    Rule(ExactUrl(UserLoginPage, None), PermitAll),
    Rule(ExactUrl(LoginProcessingUrl, None), PermitAll),
    Rule(ExactUrl(UserLoginPage, Some("error")), PermitAll)
  ]

  /** logout(...).permitAll(): the logout success URL and POST /logout. */
  const LogoutPermits: seq<Rule> := [
    Rule(ExactUrl(LogoutSuccessUrl, None), PermitAll),
    Rule(MethodAndPattern(Post, LogoutUrl), PermitAll)
  ]

  /** The effective table: the permitAll() entries are put in front of the declared rules. */
  const Rules: seq<Rule> := LogoutPermits + FormLoginPermits + DeclaredRules

  /** Rule i matches the request and no rule before it does: rule i decides. */
  predicate DecidingRule(rules: seq<Rule>, request: Request, i: int) {
    && 0 <= i < |rules|
    && RequestMatches(rules[i].matcher, request)
    && forall j :: 0 <= j < i ==> !RequestMatches(rules[j].matcher, request)
  }

  /**
   * The authorization decision for a request: granted exactly when the caller
   * meets the requirement of the rule that decides it; a refusal sends an
   * anonymous caller to log in and answers 403 to anyone else.
   */
  function Authorize(request: Request, principal: Option<Principal>): (d: Decision)
    ensures forall i :: DecidingRule(Rules, request, i) ==>
              (d == Allow <==> Granted(Rules[i].requirement, principal))
    ensures d != Allow ==> (d == DenyMustLogin <==> principal.None?)
  {
    DecidingRuleIsFirstMatch(Rules, request);
    Decide(Rules, request, principal)
  }

  // ---- Properties of the rule table ----

  lemma {:induction false} AnyPatternMatchesIff(patterns: seq<string>, path: string)
    ensures AnyPatternMatches(patterns, path) <==> exists i :: 0 <= i < |patterns| && PatternMatches(patterns[i], path)
  {
    if |patterns| > 0 {
      AnyPatternMatchesIff(patterns[1..], path);
      if PatternMatches(patterns[0], path) {
      } else if AnyPatternMatches(patterns[1..], path) {
        var i :| 0 <= i < |patterns[1..]| && PatternMatches(patterns[1..][i], path);
        assert PatternMatches(patterns[i + 1], path);
      } else {
        forall i | 0 <= i < |patterns| ensures !PatternMatches(patterns[i], path) {
          if i > 0 { assert patterns[i] == patterns[1..][i - 1]; }
        }
      }
    }
  }

  /** First match wins: the requirement is that of the first rule that matches. */
  lemma {:induction false} FirstMatchIs(rules: seq<Rule>, request: Request, i: nat)
    requires i < |rules|
    requires RequestMatches(rules[i].matcher, request)
    requires forall j :: 0 <= j < i ==> !RequestMatches(rules[j].matcher, request)
    ensures FirstMatch(rules, request) == Some(rules[i].requirement)
  {
    if i > 0 {
      FirstMatchIs(rules[1..], request, i - 1);
    }
  }

  /** Whichever rule decides a request, its requirement is the one the table applies. */
  lemma DecidingRuleIsFirstMatch(rules: seq<Rule>, request: Request)
    ensures forall i :: DecidingRule(rules, request, i) ==> FirstMatch(rules, request) == Some(rules[i].requirement)
  {
    forall i | DecidingRule(rules, request, i) ensures FirstMatch(rules, request) == Some(rules[i].requirement) {
      FirstMatchIs(rules, request, i);
    }
  }

  /** A request some rule matches is decided by the earliest rule that matches it. */
  lemma {:induction false} EarliestMatchDecides(rules: seq<Rule>, request: Request, i: nat)
    requires i < |rules| && RequestMatches(rules[i].matcher, request)
    ensures exists e :: 0 <= e <= i && DecidingRule(rules, request, e)
    decreases i
  {
    if forall j :: 0 <= j < i ==> !RequestMatches(rules[j].matcher, request) {
      assert DecidingRule(rules, request, i);
    } else {
      var j :| 0 <= j < i && RequestMatches(rules[j].matcher, request);
      EarliestMatchDecides(rules, request, j);
    }
  }

  /** The table ends with anyRequest(), so every request is decided by exactly one rule. */
  lemma EveryRequestDecided(request: Request)
    ensures exists i :: DecidingRule(Rules, request, i)
    ensures forall i, i' :: DecidingRule(Rules, request, i) && DecidingRule(Rules, request, i') ==> i == i'
  {
    assert Rules[|Rules| - 1].matcher == AnyRequest;
    EarliestMatchDecides(Rules, request, |Rules| - 1);
    var e :| 0 <= e <= |Rules| - 1 && DecidingRule(Rules, request, e);
    assert DecidingRule(Rules, request, e);
  }

  /** Rules in front that match nothing leave the decision to the rules behind them. */
  lemma {:induction false} FirstMatchSkipsPrefix(prefix: seq<Rule>, rest: seq<Rule>, request: Request)
    requires forall j :: 0 <= j < |prefix| ==> !RequestMatches(prefix[j].matcher, request)
    ensures FirstMatch(prefix + rest, request) == FirstMatch(rest, request)
  {
    if |prefix| > 0 {
      assert (prefix + rest)[0] == prefix[0];
      assert (prefix + rest)[1..] == prefix[1..] + rest;
      forall j | 0 <= j < |prefix[1..]| ensures !RequestMatches(prefix[1..][j].matcher, request) {
        assert prefix[1..][j] == prefix[j + 1];
      }
      FirstMatchSkipsPrefix(prefix[1..], rest, request);
    } else {
      assert prefix + rest == rest;
    }
  }

  /** If some rule matches and it and every rule before it permit all, the request is permitted. */
  lemma {:induction false} PermittedByPrefix(rules: seq<Rule>, request: Request, i: nat)
    requires i < |rules| && RequestMatches(rules[i].matcher, request)
    requires forall j :: 0 <= j <= i ==> rules[j].requirement == PermitAll
    ensures FirstMatch(rules, request) == Some(PermitAll)
  {
    if !RequestMatches(rules[0].matcher, request) {
      PermittedByPrefix(rules[1..], request, i - 1);
    }
  }

  /** A path under (or equal to) a base of two or more characters shares the base's second character. */
  lemma UnderSecondChar(path: string, base: string)
    requires Under(path, base) && |base| >= 2
    ensures |path| >= 2 && path[1] == base[1]
  {
    if path != base {
      assert path[..|base| + 1][1] == (base + "/")[1];
    }
  }

  /** The paths no rule before anyRequest() can match. */
  predicate Unlisted(request: Request) {
    && request.path !in {"/", "/register", AdminLoginPage, UserLoginPage, LoginProcessingUrl}
    && !Under(request.path, "/css") && !Under(request.path, "/js")
    && !Under(request.path, "/admin") && !Under(request.path, "/user")
    && !IsLogout(request)
  }

  lemma UnlistedMatchesNoEarlierRule(request: Request, j: nat)
    requires Unlisted(request) && j < 9
    ensures !RequestMatches(Rules[j].matcher, request)
  {
    if j == 5 {
      UnlistedMissesPublicPages(request);
    } else if j == 7 {
      AnyPatternMatchesIff(["/admin/**"], request.path);
      assert "/admin/**"[..6] == "/admin";
    } else if j == 8 {
      AnyPatternMatchesIff(["/user/**"], request.path);
      assert "/user/**"[..5] == "/user";
    } else if j == 6 {
      AnyPatternMatchesIff([AdminLoginPage, UserLoginPage, LoginProcessingUrl], request.path);
    }
  }

  /** The first permitAll() group matches no unlisted path. */
  lemma UnlistedMissesPublicPages(request: Request)
    requires Unlisted(request)
    ensures !AnyPatternMatches(PublicPages, request.path)
  {
    AnyPatternMatchesIff(PublicPages, request.path);
    forall i | 0 <= i < |PublicPages| ensures !PatternMatches(PublicPages[i], request.path) {
      if i == 2 { assert "/css/**"[..4] == "/css"; }
      if i == 3 { assert "/js/**"[..3] == "/js"; }
    }
  }

  /** /, /register and the login pages and processing URL are open to every caller. */
  lemma PublicPagesAllowed(request: Request, principal: Option<Principal>)
    requires request.path in {"/", "/register", AdminLoginPage, UserLoginPage, LoginProcessingUrl}
    ensures Authorize(request, principal) == Allow
  {
    if request.path in {"/", "/register"} {
      HomeAndChooserMatchPublicPages(request);
    } else {
      LoginPagesMatchLoginGroup(request);
    }
  }

  /** / and /register are first matched by a permitAll() rule. */
  lemma HomeAndChooserMatchPublicPages(request: Request)
    requires request.path in {"/", "/register"}
    ensures FirstMatch(Rules, request) == Some(PermitAll)
  {
    AnyPatternMatchesIff(PublicPages, request.path);
    assert PatternMatches(PublicPages[if request.path == "/" then 0 else 1], request.path);
    PermittedByPrefix(Rules, request, 5);
  }

  /** The login pages and the processing URL are first matched by a permitAll() rule. */
  lemma LoginPagesMatchLoginGroup(request: Request)
    requires request.path in {AdminLoginPage, UserLoginPage, LoginProcessingUrl}
    ensures FirstMatch(Rules, request) == Some(PermitAll)
  {
    var group := [AdminLoginPage, UserLoginPage, LoginProcessingUrl];
    AnyPatternMatchesIff(group, request.path);
    var i := if request.path == AdminLoginPage then 0 else if request.path == UserLoginPage then 1 else 2;
    assert PatternMatches(group[i], request.path);
    PermittedByPrefix(Rules, request, 6);
  }

  /** Everything under /css and /js is open to every caller. */
  lemma StaticResourcesAllowed(request: Request, principal: Option<Principal>)
    requires Under(request.path, "/css") || Under(request.path, "/js")
    ensures Authorize(request, principal) == Allow
  {
    StaticResourcesMatchPublicPages(request);
  }

  /** A static resource is first matched by the public-pages permitAll() rule. */
  lemma StaticResourcesMatchPublicPages(request: Request)
    requires Under(request.path, "/css") || Under(request.path, "/js")
    ensures FirstMatch(Rules, request) == Some(PermitAll)
  {
    AnyPatternMatchesIff(Rules[5].matcher.patterns, request.path);
    if Under(request.path, "/css") {
      assert "/css/**"[..4] == "/css";
      assert PatternMatches(Rules[5].matcher.patterns[2], request.path);
    } else {
      assert "/js/**"[..3] == "/js";
      assert PatternMatches(Rules[5].matcher.patterns[3], request.path);
    }
    PermittedByPrefix(Rules, request, 5);
  }

  /**
   * Every literal among the first seven rules is "/" or has one of c, j, r, l, d
   * as its second character, so a longer path with another second character
   * matches none of them.
   */
  lemma EarlyRulesMiss(request: Request, j: nat)
    requires j < 7 && |request.path| >= 2 && request.path[1] !in {'c', 'j', 'r', 'l', 'd'}
    ensures !RequestMatches(Rules[j].matcher, request)
  {
    if j == 5 {
      PublicPagesMissOtherSecondChar(request.path);
    } else if j == 6 {
      AnyPatternMatchesIff([AdminLoginPage, UserLoginPage, LoginProcessingUrl], request.path);
    }
  }

  /** The first permitAll() group matches no path whose second character starts none of its entries. */
  lemma PublicPagesMissOtherSecondChar(path: string)
    requires |path| >= 2 && path[1] !in {'c', 'j', 'r'}
    ensures !AnyPatternMatches(PublicPages, path)
  {
    AnyPatternMatchesIff(PublicPages, path);
    forall i | 0 <= i < |PublicPages| ensures !PatternMatches(PublicPages[i], path) {
      if i == 2 {
        assert "/css/**"[..4] == "/css";
        if Under(path, "/css") { UnderSecondChar(path, "/css"); }
      } else if i == 3 {
        assert "/js/**"[..3] == "/js";
        if Under(path, "/js") { UnderSecondChar(path, "/js"); }
      }
    }
  }

  /** Under /admin: the ROLE_ADMIN authority is required; anonymous callers must log in, others get 403. */
  lemma AdminAreaNeedsAdmin(request: Request, principal: Option<Principal>)
    requires Under(request.path, "/admin")
    ensures Authorize(request, principal) ==
      if principal.None? then DenyMustLogin
      else if "ROLE_ADMIN" in principal.value.authorities then Allow
      else DenyForbidden
  {
    UnderSecondChar(request.path, "/admin");
    forall j | 0 <= j < 7 ensures !RequestMatches(Rules[j].matcher, request) {
      EarlyRulesMiss(request, j);
    }
    assert "/admin/**"[..6] == "/admin";
    AnyPatternMatchesIff(Rules[7].matcher.patterns, request.path);
    FirstMatchIs(Rules, request, 7);
    assert Rules[7].requirement == HasRole("ADMIN");
    assert "ROLE_" + "ADMIN" == "ROLE_ADMIN";
  }

  /** Under /user: the ROLE_USER authority is required; there is no role hierarchy. */
  lemma UserAreaNeedsUser(request: Request, principal: Option<Principal>)
    requires Under(request.path, "/user")
    ensures Authorize(request, principal) ==
      if principal.None? then DenyMustLogin
      else if "ROLE_USER" in principal.value.authorities then Allow
      else DenyForbidden
  {
    UnderSecondChar(request.path, "/user");
    forall j | 0 <= j < 7 ensures !RequestMatches(Rules[j].matcher, request) {
      EarlyRulesMiss(request, j);
    }
    assert "/admin/**"[..6] == "/admin";
    AnyPatternMatchesIff(Rules[7].matcher.patterns, request.path);
    if Under(request.path, "/admin") { UnderSecondChar(request.path, "/admin"); }
    assert "/user/**"[..5] == "/user";
    AnyPatternMatchesIff(Rules[8].matcher.patterns, request.path);
    FirstMatchIs(Rules, request, 8);
    assert Rules[8].requirement == HasRole("USER");
    assert "ROLE_" + "USER" == "ROLE_USER";
  }

  /** Any other request needs a signed-in caller of any role. */
  lemma UnlistedNeedsAuthentication(request: Request, principal: Option<Principal>)
    requires Unlisted(request)
    ensures Authorize(request, principal) == if principal.Some? then Allow else DenyMustLogin
  {
    forall j | 0 <= j < 9 ensures !RequestMatches(Rules[j].matcher, request) {
      UnlistedMatchesNoEarlierRule(request, j);
    }
    FirstMatchIs(Rules, request, 9);
  }

  /**
   * The registration pages are not in the permit list, so they fall under
   * anyRequest().authenticated(): an anonymous visitor is sent to log in, and
   * any signed-in caller, of either role, is let through.
   */
  lemma RegistrationNeedsLogin(request: Request, principal: Option<Principal>)
    requires request.path == "/register-user" || request.path == "/register-admin"
    ensures Authorize(request, principal) == if principal.Some? then Allow else DenyMustLogin
  {
    var path := request.path;
    assert path[1] == 'r';
    if Under(path, "/css") { UnderSecondChar(path, "/css"); }
    if Under(path, "/js") { UnderSecondChar(path, "/js"); }
    if Under(path, "/admin") { UnderSecondChar(path, "/admin"); }
    if Under(path, "/user") { UnderSecondChar(path, "/user"); }
    UnlistedNeedsAuthentication(request, principal);
  }

  /** The entries formLogin and logout add in front change no decision except for POST /logout. */
  lemma FrameworkPermitsOnlyAddLogout(request: Request, principal: Option<Principal>)
    requires !IsLogout(request)
    ensures Authorize(request, principal) == Decide(DeclaredRules, request, principal)
  {
    FrameworkPermitsKeepFirstMatch(request);
  }

  /** Apart from POST /logout, the framework's permits only repeat a permitAll() of the declared table. */
  lemma FrameworkPermitsKeepFirstMatch(request: Request)
    requires !IsLogout(request)
    ensures FirstMatch(Rules, request) == FirstMatch(DeclaredRules, request)
  {
    var prefix := LogoutPermits + FormLoginPermits;
    assert Rules == prefix + DeclaredRules;
    if exists j :: 0 <= j < |prefix| && RequestMatches(prefix[j].matcher, request) {
      assert request.path in {"/", UserLoginPage, LoginProcessingUrl};
      if request.path == "/" {
        HomeAndChooserMatchPublicPages(request);
      } else {
        LoginPagesMatchLoginGroup(request);
      }
      var i := if request.path == "/" then 0 else 1;
      AnyPatternMatchesIff(DeclaredRules[i].matcher.patterns, request.path);
      assert PatternMatches(DeclaredRules[i].matcher.patterns[if request.path == "/" then 0 else if request.path == UserLoginPage then 1 else 2], request.path);
      PermittedByPrefix(DeclaredRules, request, i);
    } else {
      FirstMatchSkipsPrefix(prefix, DeclaredRules, request);
    }
  }

  /**
   * The table the registration handlers' comments describe: the two
   * registration pages listed with the other public pages.
   */
  const IntendedPublicPages: seq<string> := ["/", "/register", "/register-user", "/register-admin", "/css/**", "/js/**"]

  const IntendedRules: seq<Rule> := Rules[..5] + [Rule(Patterns(IntendedPublicPages), PermitAll)] + Rules[6..]

  /** The authorization decision under the intended table. */
  function AuthorizeIntended(request: Request, principal: Option<Principal>): Decision {
    Decide(IntendedRules, request, principal)
  }

  /** Two tables whose rules pairwise match the same requests with the same requirement decide alike. */
  lemma {:induction false} FirstMatchAgrees(rules: seq<Rule>, rules': seq<Rule>, request: Request)
    requires |rules| == |rules'|
    requires forall i :: 0 <= i < |rules| ==>
      && rules[i].requirement == rules'[i].requirement
      && (RequestMatches(rules[i].matcher, request) <==> RequestMatches(rules'[i].matcher, request))
    ensures FirstMatch(rules, request) == FirstMatch(rules', request)
  {
    if |rules| > 0 {
      FirstMatchAgrees(rules[1..], rules'[1..], request);
    }
  }

  /** Under the intended table anyone, signed in or not, reaches the registration pages. */
  lemma IntendedRegistrationIsPublic(request: Request, principal: Option<Principal>)
    requires request.path == "/register-user" || request.path == "/register-admin"
    ensures AuthorizeIntended(request, principal) == Allow
  {
    assert IntendedRules[5] == Rule(Patterns(IntendedPublicPages), PermitAll);
    AnyPatternMatchesIff(IntendedPublicPages, request.path);
    assert PatternMatches(IntendedPublicPages[if request.path == "/register-user" then 2 else 3], request.path);
    PermittedByPrefix(IntendedRules, request, 5);
  }

  /** Apart from the two registration pages, the intended public group matches what the written one does. */
  lemma IntendedPublicPagesAgree(path: string)
    requires path != "/register-user" && path != "/register-admin"
    ensures AnyPatternMatches(IntendedPublicPages, path) <==> AnyPatternMatches(PublicPages, path)
  {
    AnyPatternMatchesIff(IntendedPublicPages, path);
    AnyPatternMatchesIff(PublicPages, path);
    assert !PatternMatches(IntendedPublicPages[2], path) && !PatternMatches(IntendedPublicPages[3], path);
    if AnyPatternMatches(PublicPages, path) {
      var i :| 0 <= i < |PublicPages| && PatternMatches(PublicPages[i], path);
      assert PublicPages[i] == IntendedPublicPages[if i < 2 then i else i + 2];
    }
    if AnyPatternMatches(IntendedPublicPages, path) {
      var i :| 0 <= i < |IntendedPublicPages| && PatternMatches(IntendedPublicPages[i], path);
      assert IntendedPublicPages[i] == PublicPages[if i < 2 then i else i - 2];
    }
  }

  /** The intended table decides every other request as the table as written does. */
  lemma IntendedAgreesElsewhere(request: Request, principal: Option<Principal>)
    requires request.path != "/register-user" && request.path != "/register-admin"
    ensures AuthorizeIntended(request, principal) == Authorize(request, principal)
  {
    IntendedPublicPagesAgree(request.path);
    assert Rules[5] == Rule(Patterns(PublicPages), PermitAll);
    assert IntendedRules[5] == Rule(Patterns(IntendedPublicPages), PermitAll);
    forall i | 0 <= i < |Rules| && i != 5 ensures IntendedRules[i] == Rules[i] {
    }
    FirstMatchAgrees(IntendedRules, Rules, request);
  }

  /** The logout filter's request matcher: POST /logout only. */
  predicate IsLogout(request: Request) {
    request.verb == Post && PatternMatches(LogoutUrl, request.path)
  }

  /** The login filter's request matcher: POST to the processing URL. */
  predicate IsLoginSubmission(request: Request) {
    request.verb == Post && request.path == LoginProcessingUrl
  }

  /** What the filter chain does with a request before any controller sees it. */
  datatype FilterResult = Proceed | RedirectTo(url: string) | Forbidden | ProcessLoginForm

  /**
   * The filter chain in order: logout, then form login, then authorization
   * (an anonymous refusal redirects to the login page, the entry point).
   */
  function Filter(request: Request, principal: Option<Principal>): (result: FilterResult)
    ensures result == RedirectTo(LogoutSuccessUrl) <==> IsLogout(request)
    ensures result == ProcessLoginForm <==> IsLoginSubmission(request)
    ensures result == RedirectTo(UserLoginPage) <==> Authorize(request, principal) == DenyMustLogin && !IsLogout(request) && !IsLoginSubmission(request)
    ensures result == Forbidden <==> Authorize(request, principal) == DenyForbidden && !IsLogout(request) && !IsLoginSubmission(request)
    ensures result == Proceed <==> Authorize(request, principal) == Allow && !IsLogout(request) && !IsLoginSubmission(request)
  {
    if IsLogout(request) then RedirectTo(LogoutSuccessUrl)
    else if IsLoginSubmission(request) then ProcessLoginForm
    else (match Authorize(request, principal)
          case Allow => Proceed
          case DenyMustLogin => RedirectTo(UserLoginPage)
          case DenyForbidden => Forbidden)
  }

  /** There is no role hierarchy: a signed-in admin asking for a page under /user is answered 403. */
  lemma AdminRefusedUserArea(request: Request, name: string)
    requires Under(request.path, "/user")
    ensures Filter(request, Some(Principal(name, [AdminAuthority]))) == Forbidden
  {
    UnderSecondChar(request.path, "/user");
    UserAreaNeedsUser(request, Some(Principal(name, [AdminAuthority])));
  }

  /** Why a login attempt fails: unknown names, empty names and wrong passwords look the same. */
  datatype AuthenticationFailure = BadCredentials

  /** A stored account, which the framework can load, has this name and accepts this password. */
  predicate Verifies(users: map<int, UserRow>, username: string, password: string) {
    username != "" && exists k :: k in users && users[k].username == username && Matches(password, users[k].password)
  }

  /**
   * The DAO authentication provider wired in authenticationManager(): a
   * failure to load the user, for either reason, is a failed login.
   */
  function Authenticate(users: map<int, UserRow>, username: string, password: string): (r: Result<Principal, AuthenticationFailure>)
    requires UsernamesUnique(users)
    ensures r.Success? <==> Verifies(users, username, password)
    ensures r.Success? ==>
      r.value.name == username &&
      exists k :: k in users && users[k].username == username && r.value.authorities == [users[k].role.Name()]
  {
    match LoadUserByUsername(users, username)
    case Failure(_) => Failure(BadCredentials)
    case Success(details) =>
      if Matches(password, details.password) then Success(Principal(details.username, details.authorities))
      else Failure(BadCredentials)
  }

  // ---- String.trim, as the login filter applies it to the submitted username ----

  /** The characters String.trim removes from either end: U+0020 and below. */
  predicate Blank(c: char) {
    c <= ' '
  }

  /** Neither end of `s` is blank. */
  predicate Trimmed(s: string) {
    s == [] || (!Blank(s[0]) && !Blank(s[|s| - 1]))
  }

  /** The first index at or after `i` that is not blank, or |s|. */
  function FirstNonBlank(s: string, i: nat): (n: nat)
    requires i <= |s|
    ensures i <= n <= |s|
    ensures forall k :: i <= k < n ==> Blank(s[k])
    ensures n < |s| ==> !Blank(s[n])
    decreases |s| - i
  {
    if i < |s| && Blank(s[i]) then FirstNonBlank(s, i + 1) else i
  }

  /** The end of the last non-blank character before `j`, or 0. */
  function EndOfNonBlank(s: string, j: nat): (m: nat)
    requires j <= |s|
    ensures m <= j
    ensures forall k :: m <= k < j ==> Blank(s[k])
    ensures m > 0 ==> !Blank(s[m - 1])
  {
    if j > 0 && Blank(s[j - 1]) then EndOfNonBlank(s, j - 1) else j
  }

  /** String.trim */
  function Trim(s: string): (t: string)
    ensures Trimmed(t)
    ensures |t| <= |s|
    ensures t == [] <==> forall k :: 0 <= k < |s| ==> Blank(s[k])
  {
    var start := FirstNonBlank(s, 0);
    var end := EndOfNonBlank(s, |s|);
    if start < end then s[start..end] else []
  }

  /** Trim removes exactly the blank padding around a trimmed core. */
  lemma TrimPadding(before: string, core: string, after: string)
    requires forall k :: 0 <= k < |before| ==> Blank(before[k])
    requires forall k :: 0 <= k < |after| ==> Blank(after[k])
    requires Trimmed(core)
    ensures Trim(before + core + after) == core
  {
    var s := before + core + after;
    forall k | 0 <= k < |before| ensures Blank(s[k]) {
      assert s[k] == before[k];
    }
    forall k | |before| + |core| <= k < |s| ensures Blank(s[k]) {
      assert s[k] == after[k - |before| - |core|];
    }
    var start := FirstNonBlank(s, 0);
    var end := EndOfNonBlank(s, |s|);
    if core == [] {
      assert start == |s|;
    } else {
      assert !Blank(s[|before|]) by { assert s[|before|] == core[0]; }
      assert !Blank(s[|before| + |core| - 1]) by { assert s[|before| + |core| - 1] == core[|core| - 1]; }
      assert start == |before|;
      assert end == |before| + |core|;
      assert s[start..end] == core;
    }
  }

  /** A name that is already trimmed is left as it is. */
  lemma TrimKeepsTrimmed(s: string)
    requires Trimmed(s)
    ensures Trim(s) == s
  {
    TrimPadding([], s, []);
    assert [] + s + [] == s;
  }

  /**
   * A login submission to the processing URL: the submitted username is
   * trimmed (a missing one is ""), authenticated with the password as sent,
   * and answered with a redirect.
   */
  function ProcessLogin(users: map<int, UserRow>, username: string, password: string): (target: string)
    requires UsernamesUnique(users)
    ensures target == LoginFailureUrl <==> !Verifies(users, Trim(username), password)
    ensures forall k :: k in users && users[k].username == Trim(username) && target != LoginFailureUrl ==>
      target == if users[k].role == RoleAdmin then AdminDashboard else UserDashboard
  {
    var name := Trim(username);
    match Authenticate(users, name, password)
    case Failure(_) => LoginFailureUrl
    case Success(principal) =>
      assert forall k :: k in users && users[k].username == name ==> principal.authorities == [users[k].role.Name()];
      OnAuthenticationSuccess(principal.authorities)
  }

  /**
   * A leading space on the submitted name changes nothing: the login goes to
   * the account of the trimmed name, whatever account is stored with the space.
   */
  lemma PaddedNameLogsInAsTrimmed(users: map<int, UserRow>, name: string, password: string)
    requires UsernamesUnique(users)
    requires Trimmed(name)
    ensures ProcessLogin(users, [' '] + name, password) == ProcessLogin(users, name, password)
  {
    TrimLeadingSpace(name);
    TrimKeepsTrimmed(name);
  }

  /** One leading space is trimmed away from a trimmed name. */
  lemma TrimLeadingSpace(s: string)
    requires Trimmed(s)
    ensures Trim([' '] + s) == s
  {
    TrimPadding([' '], s, []);
    assert [' '] + s + [] == [' '] + s;
  }
}
