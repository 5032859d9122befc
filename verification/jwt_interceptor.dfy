/**
 * The user-side token interceptor: which request paths demand a logged-in user, and
 * what the interceptor does with the `token` header before a handler runs and after
 * it completes. Parsing and signature checking of the token are an oracle answer.
 */
module JwtInterceptor {
  import opened Common

  /** The paths whose every sub-path demands a logged-in user, whatever the HTTP method. */
  const REQUIRE_AUTH_PATHS: seq<string> := [
    "/user/goods-query/my/favorite",
    "/user/goods-query/published/my",
    "/user/goods-query/offline/my",
    "/user/chat/",
    "/user/comment/"
  ]

  const UNAUTHORIZED := 401

  predicate OccursAt(s: string, part: string, i: int) {
    0 <= i <= |s| - |part| && s[i..i + |part|] == part
  }

  predicate Contains(s: string, part: string) {
    exists i | 0 <= i <= |s| - |part| :: OccursAt(s, part, i)
  }

  /** The first prefix of `paths` that `uri` starts with, searched in order. */
  function MatchesAnyPrefix(uri: string, paths: seq<string>): (r: bool)
    ensures r <==> exists i :: 0 <= i < |paths| && StartsWith(uri, paths[i])
    decreases |paths|
  {
    if paths == [] then false
    else if StartsWith(uri, paths[0]) then true
    else
      var rest := MatchesAnyPrefix(uri, paths[1..]);
      assert forall i :: 1 <= i < |paths| ==> paths[i] == paths[1..][i - 1];
      rest
  }

  /** `isRequireAuth`. */
  function RequireAuth(uri: string, httpMethod: string): bool {
    if StartsWith(uri, "/user/goods/") && (httpMethod == "POST" || httpMethod == "PUT" || httpMethod == "DELETE") then true
    else if Contains(uri, "/favorite") && (httpMethod == "POST" || httpMethod == "GET") then true
    else MatchesAnyPrefix(uri, REQUIRE_AUTH_PATHS)
  }

  /**
   * A request needs a logged-in user exactly when it writes under "/user/goods/",
   * posts to or reads a favourite path, or lies under one of the listed paths.
   * This restates the rule as a decision table; its only new content is the
   * prefix search written as an existential. `GoodsReadsAreOpen` draws a consequence.
   */
  lemma RequireAuthMeaning(uri: string, httpMethod: string)
    ensures RequireAuth(uri, httpMethod) <==>
      || (StartsWith(uri, "/user/goods/") && httpMethod in {"POST", "PUT", "DELETE"})
      || (Contains(uri, "/favorite") && httpMethod in {"POST", "GET"})
      || exists p :: p in REQUIRE_AUTH_PATHS && StartsWith(uri, p)
  {
    if exists p :: p in REQUIRE_AUTH_PATHS && StartsWith(uri, p) {
      var p :| p in REQUIRE_AUTH_PATHS && StartsWith(uri, p);
      var i :| 0 <= i < |REQUIRE_AUTH_PATHS| && REQUIRE_AUTH_PATHS[i] == p;
      assert MatchesAnyPrefix(uri, REQUIRE_AUTH_PATHS);
    }
  }

  /** Reading a goods item by its numeric id is open to anonymous users; editing it is not. */
  lemma GoodsReadsAreOpen(id: string)
    requires forall k :: 0 <= k < |id| ==> '0' <= id[k] <= '9'
    ensures !RequireAuth("/user/goods/" + id, "GET")
    ensures RequireAuth("/user/goods/" + id, "PUT")
  {
    var uri := "/user/goods/" + id;
    assert uri[..12] == "/user/goods/";
    forall i | 0 <= i <= |uri| - 9
      ensures !OccursAt(uri, "/favorite", i)
    {
      assert uri[i + 1] != 'f' by {
        if i + 1 >= 12 {
          assert uri[i + 1] == id[i + 1 - 12];
        }
      }
      assert uri[i..i + 9][1] == uri[i + 1];
    }
    forall j | 0 <= j < |REQUIRE_AUTH_PATHS|
      ensures !StartsWith(uri, REQUIRE_AUTH_PATHS[j])
    {
      var p := REQUIRE_AUTH_PATHS[j];
      var k := if j < 3 then 11 else 6;
      assert k < |p| && uri[k] != p[k];
      assert |p| <= |uri| ==> uri[..|p|][k] == uri[k];
    }
  }

  /** What the token oracle says of a non-empty token: its "id" claim, or that it does not parse. */
  datatype TokenCheck = Parsed(id: int) | Invalid

  predicate TokenGiven(token: Option<string>) {
    token.Some? && token.value != ""
  }

  /** The per-request state the interceptor touches: the thread-local current user and the response status. */
  class RequestContext {
    var currentId: Option<int>
    var responseStatus: Option<int>

    constructor()
      ensures currentId.None? && responseStatus.None?
    {
      currentId := None;
      responseStatus := None;
    }

    /**
     * `preHandle`: anything but a controller method passes untouched. A parsed token
     * sets the current user and passes; a missing token passes unless the path
     * demands a user; an invalid token is refused with 401 on such a path and
     * otherwise clears the current user and passes.
     */
    method PreHandle(isControllerMethod: bool, uri: string, httpMethod: string, token: Option<string>, check: TokenCheck)
      returns (pass: bool)
      modifies this
      ensures pass <==>
        !isControllerMethod || (TokenGiven(token) && check.Parsed?) || !RequireAuth(uri, httpMethod)
      ensures !pass ==> responseStatus == Some(UNAUTHORIZED) && currentId == old(currentId)
      ensures pass ==> responseStatus == old(responseStatus)
      ensures pass && isControllerMethod && TokenGiven(token) ==>
        currentId == if check.Parsed? then Some(check.id) else None
      ensures !isControllerMethod || !TokenGiven(token) ==> currentId == old(currentId)
      ensures pass && isControllerMethod && RequireAuth(uri, httpMethod) ==> check.Parsed? && currentId == Some(check.id)
    {
      if !isControllerMethod {
        return true;
      }
      var requireAuth := RequireAuth(uri, httpMethod);
      if TokenGiven(token) {
        match check
        case Parsed(id) =>
          currentId := Some(id);
          return true;
        case Invalid =>
          if requireAuth {
            responseStatus := Some(UNAUTHORIZED);
            return false;
          }
          currentId := None;
          return true;
      } else if requireAuth {
        responseStatus := Some(UNAUTHORIZED);
        return false;
      }
      return true;
    }

    /** `afterCompletion`: the current user is always cleared. */
    method AfterCompletion()
      modifies this
      ensures currentId.None? && responseStatus == old(responseStatus)
    {
      currentId := None;
    }
  }
}
