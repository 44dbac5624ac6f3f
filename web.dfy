/**
 * What the controllers share: the request a browser sends (including the one
 * it sends when following a redirect), request-parameter lookup, the outcome
 * of a handler, and the lookup of the signed-in user's row.
 */
module Web {
  import opened Common
  import opened Store

  datatype HttpMethod = Get | Post | OtherMethod

  /** A request: its HTTP method (verb), path, and the raw query string if there is one. */
  datatype Request = Request(verb: HttpMethod, path: string, query: Option<string>)

  /** Model attributes a view is rendered with, by name. */
  type Attributes = map<string, string>

  /** Why a handler fails instead of rendering or redirecting (an exception in the source). */
  datatype HandlerError =
    | UsernameNotFound(username: string)
    | NotAuthenticated
    | JobNotFound
    | NullPassword
    | BlankUsername
    | Persistence(error: DbError)

  /**
   * What a handler returns: a view rendered with a model, a redirect (the
   * string after "redirect:" in the returned view name), or an exception.
   */
  datatype Outcome<+M> = Rendered(view: string, model: M) | Redirected(target: string) | Failed(failure: HandlerError)

  /** Position of the first `c` in `s`, or |s| when there is none. */
  function IndexOf(s: string, c: char): (i: nat)
    ensures i <= |s|
    ensures i < |s| ==> s[i] == c
    ensures forall k :: 0 <= k < i ==> s[k] != c
  {
    if |s| == 0 then 0
    else if s[0] == c then 0
    else 1 + IndexOf(s[1..], c)
  }

  /**
   * Every value the query string gives `name`, in order: the `&`-separated
   * pairs whose name is `name`; a pair without `=` has value "". Pairs with an
   * empty name are skipped. Percent-decoding is not modelled.
   */
  function ParameterValues(query: string, name: string): seq<string>
    decreases |query|
  {
    var amp := IndexOf(query, '&');
    var pair := query[..amp];
    var eq := IndexOf(pair, '=');
    var here := if eq > 0 && pair[..eq] == name then [if eq < |pair| then pair[eq + 1..] else ""] else [];
    here + (if amp < |query| then ParameterValues(query[amp + 1..], name) else [])
  }

  /** The values of a repeated parameter, joined by commas. */
  function JoinCommas(values: seq<string>): string
    requires |values| > 0
  {
    if |values| == 1 then values[0] else values[0] + "," + JoinCommas(values[1..])
  }

  /**
   * A @RequestParam String: absent when the name does not occur; a repeated
   * name binds all its values joined by commas.
   */
  function Param(request: Request, name: string): (value: Option<string>)
    ensures value.None? <==> request.query.None? || ParameterValues(request.query.value, name) == []
    ensures request.query.Some? && |ParameterValues(request.query.value, name)| == 1 ==>
      value == Some(ParameterValues(request.query.value, name)[0])
  {
    if request.query.None? then None
    else
      var values := ParameterValues(request.query.value, name);
      if values == [] then None else Some(JoinCommas(values))
  }

  /** The GET a browser sends when it follows a redirect to `url`. */
  function Follow(url: string): (request: Request)
    ensures request.verb == Get
    ensures request.query.None? <==> '?' !in url
    ensures request.query.None? ==> request.path == url
    ensures request.query.Some? ==> url == request.path + "?" + request.query.value && '?' !in request.path
  {
    var q := IndexOf(url, '?');
    Request(Get, url[..q], if q < |url| then Some(url[q + 1..]) else None)
  }

  /** A redirect to `path?query` is followed by a GET of `path` with that query string. */
  lemma FollowSplits(path: string, query: string)
    requires '?' !in path
    ensures Follow(path + "?" + query) == Request(Get, path, Some(query))
  {
    var url := path + "?" + query;
    forall k | 0 <= k < |path| ensures url[k] != '?' {
      assert url[k] == path[k];
    }
    assert url[|path|] == '?';
    assert IndexOf(url, '?') == |path|;
    assert url[..|path|] == path;
    assert url[|path| + 1..] == query;
  }

  /** A parameter name without separators: a bare flag `name` sets it to "". */
  lemma FlagParameter(name: string)
    requires name != [] && '&' !in name && '=' !in name
    ensures ParameterValues(name, name) == [""]
  {
    assert IndexOf(name, '&') == |name|;
    assert name[..|name|] == name;
    assert IndexOf(name, '=') == |name|;
  }

  /** A bare flag sets no other parameter. */
  lemma FlagSetsNoOtherParameter(flag: string, name: string)
    requires '&' !in flag && '=' !in flag && flag != name
    ensures ParameterValues(flag, name) == []
  {
    assert IndexOf(flag, '&') == |flag|;
    assert flag[..|flag|] == flag;
    assert IndexOf(flag, '=') == |flag|;
  }

  /** `name=value` gives `name` the value `value`. */
  lemma PairParameter(name: string, value: string)
    requires name != [] && '&' !in name && '=' !in name && '&' !in value
    ensures ParameterValues(name + "=" + value, name) == [value]
  {
    var q := name + "=" + value;
    assert forall k :: 0 <= k < |q| ==> q[k] != '&' by {
      forall k | 0 <= k < |q| ensures q[k] != '&' {
        if k < |name| { assert q[k] == name[k]; }
        else if k > |name| { assert q[k] == value[k - |name| - 1]; }
      }
    }
    assert IndexOf(q, '&') == |q|;
    assert q[..|q|] == q;
    var eq := IndexOf(q, '=');
    assert q[|name|] == '=';
    assert eq == |name|;
    assert q[..eq] == name;
    assert q[eq + 1..] == value;
  }

  /** The pairs before the first `&` and those after it contribute their values in order. */
  lemma ParameterValuesSplit(first: string, rest: string, name: string)
    requires '&' !in first
    ensures ParameterValues(first + "&" + rest, name) == ParameterValues(first, name) + ParameterValues(rest, name)
  {
    var q := first + "&" + rest;
    forall k | 0 <= k < |first| ensures q[k] != '&' {
      assert q[k] == first[k];
    }
    assert q[|first|] == '&';
    assert IndexOf(q, '&') == |first|;
    assert q[..|first|] == first;
    assert q[|first| + 1..] == rest;
    assert first[..|first|] == first;
  }

  /** `name=value&name=value` binds `value,value`, not `value`. */
  lemma RepeatedPairJoins(name: string, value: string)
    requires name != [] && '&' !in name && '=' !in name && '&' !in value
    ensures Param(Request(Get, "", Some(name + "=" + value + "&" + name + "=" + value)), name) == Some(value + "," + value)
  {
    var pair := name + "=" + value;
    assert '&' !in pair by {
      forall k | 0 <= k < |pair| ensures pair[k] != '&' {
        if k < |name| { assert pair[k] == name[k]; }
        else if k > |name| { assert pair[k] == value[k - |name| - 1]; }
      }
    }
    ParameterValuesSplit(pair, pair, name);
    PairParameter(name, value);
    assert name + "=" + value + "&" + name + "=" + value == pair + "&" + pair;
    assert JoinCommas([value, value]) == value + "," + JoinCommas([value]);
  }

  /** getAuthenticatedUser: the signed-in user's row, looked up by the principal's name. */
  function GetAuthenticatedUser(users: map<int, UserRow>, principal: Option<string>): (r: Result<UserRow, HandlerError>)
    requires UsernamesUnique(users)
    ensures principal.None? ==> r == Failure(NotAuthenticated)
    ensures principal.Some? ==> (r.Success? <==> UsernameTaken(users, principal.value))
    ensures principal.Some? && r.Failure? ==> r.error == UsernameNotFound(principal.value)
    ensures r.Success? ==> principal == Some(r.value.username) && exists k :: k in users && users[k] == r.value
  {
    if principal.None? then Failure(NotAuthenticated)
    else
      match FindByUsername(users, principal.value)
      case None => Failure(UsernameNotFound(principal.value))
      case Some(u) => Success(u)
  }
}
