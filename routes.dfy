/**
 * The route table: each endpoint with the middleware chain in front of
 * its handler, and the decision that chain reaches for a request's
 * credential. The middlewares run left to right; the first refusal wins.
 */
module Routes {
  import opened Identity

  datatype Verb = Get | Post | Put | Delete

  /** Every endpoint the router declares. */
  datatype Route =
    | AuthRegister | AuthLogin | AuthMe | AuthActivation
    | CategoryCreate | CategoryList | CategoryFind | CategoryUpdate | CategoryRemove
    | StationCreate | StationList | StationFind | StationUpdate | StationRemove | StationBySlug
    | RegionProvinces | RegionProvince | RegionRegency | RegionDistrict | RegionVillage | RegionSearch
    | MediaUploadSingle | MediaUploadMultiple | MediaRemove

  /** The method and path of each endpoint. */
  function Endpoint(r: Route): (Verb, string)
  {
    match r
    case AuthRegister => (Post, "/auth/register")
    case AuthLogin => (Post, "/auth/login")
    case AuthMe => (Get, "/auth/me")
    case AuthActivation => (Post, "/auth/activation")
    case CategoryCreate => (Post, "/category")
    case CategoryList => (Get, "/category")
    case CategoryFind => (Get, "/category/:id")
    case CategoryUpdate => (Put, "/category/:id")
    case CategoryRemove => (Delete, "/category/:id")
    case StationCreate => (Post, "/stations")
    case StationList => (Get, "/stations")
    case StationFind => (Get, "/stations/:id")
    case StationUpdate => (Put, "/stations/:id")
    case StationRemove => (Delete, "/stations/:id")
    case StationBySlug => (Get, "/stations/:slug/slug")
    case RegionProvinces => (Get, "/regions")
    case RegionProvince => (Get, "/regions/:id/province")
    case RegionRegency => (Get, "/regions/:id/regency")
    case RegionDistrict => (Get, "/regions/:id/district")
    case RegionVillage => (Get, "/regions/:id/village")
    case RegionSearch => (Get, "/regions-search")
    case MediaUploadSingle => (Post, "/media/upload-single")
    case MediaUploadMultiple => (Post, "/media/upload-multiple")
    case MediaRemove => (Delete, "/media/remove")
  }

  /** A middleware in front of a handler. */
  datatype Guard =
    | Authenticate                          // the bearer-token check
    | Authorize(roles: seq<Role>)           // the role check against a list
    | Upload(field: string, many: bool)     // the multipart parser; it refuses nothing here

  /** The middleware chain of each endpoint, as the router lists it. */
  function Chain(r: Route): seq<Guard>
  {
    match r
    case AuthMe => [Authenticate]
    case CategoryCreate | CategoryUpdate | CategoryRemove
       | StationCreate | StationUpdate | StationRemove => [Authenticate, Authorize([Admin])]
    case MediaUploadSingle => [Authenticate, Authorize([Admin, User]), Upload("file", false)]
    case MediaUploadMultiple => [Authenticate, Authorize([Admin, User]), Upload("files", true)]
    case MediaRemove => [Authenticate, Authorize([Admin, User])]
    case _ => []
  }

  /** What a request presents: no bearer token, a token that fails verification, or verified claims. */
  datatype Credential = NoToken | BadToken | Verified(claims: Claims)

  /** The decision and its status: 401 and 403 for the two refusals. */
  datatype Decision = Allow | Unauthorized | Forbidden
  {
    function Status(): nat
    {
      match this
      case Allow => 200
      case Unauthorized => 401
      case Forbidden => 403
    }
  }

  /** The role a request carries, if any: what the role check reads from the request. */
  predicate CarriesRole(c: Credential, roles: seq<Role>)
  {
    c.Verified? && c.claims.role in roles
  }

  /** Run a chain left to right; the first guard that refuses decides. */
  function Run(chain: seq<Guard>, c: Credential): (d: Decision)
    ensures d == Allow <==> forall i :: 0 <= i < |chain| ==> Passes(chain[i], c)
    ensures d == Unauthorized ==> exists i :: 0 <= i < |chain| && chain[i] == Authenticate && !c.Verified?
  {
    if chain == [] then Allow
    else if !Passes(chain[0], c) then (if chain[0] == Authenticate then Unauthorized else Forbidden)
    else Run(chain[1..], c)
  }

  /** Whether one guard lets the request through. */
  predicate Passes(g: Guard, c: Credential)
  {
    match g
    case Authenticate => c.Verified?
    case Authorize(roles) => CarriesRole(c, roles)
    case Upload(_, _) => true
  }

  /** The decision for an endpoint. */
  function Decide(r: Route, c: Credential): Decision
  {
    Run(Chain(r), c)
  }

  /** The access rule of an endpoint, stated declaratively. */
  datatype Access = Public | SignedIn | RoleIn(roles: seq<Role>)

  /** Each endpoint's access rule. */
  function AccessOf(r: Route): Access
  {
    match r
    case AuthMe => SignedIn
    case CategoryCreate | CategoryUpdate | CategoryRemove
       | StationCreate | StationUpdate | StationRemove => RoleIn([Admin])
    case MediaUploadSingle | MediaUploadMultiple | MediaRemove => RoleIn([Admin, User])
    case _ => Public
  }

  /** What an access rule means: no identity is Unauthorized, a role off the list is Forbidden. */
  function Grant(a: Access, c: Credential): (d: Decision)
    ensures a.Public? ==> d == Allow
    ensures !a.Public? && !c.Verified? ==> d == Unauthorized
    ensures a.RoleIn? && c.Verified? ==> (d == Allow <==> c.claims.role in a.roles)
  {
    match a
    case Public => Allow
    case SignedIn => if c.Verified? then Allow else Unauthorized
    case RoleIn(roles) =>
      if !c.Verified? then Unauthorized
      else if c.claims.role in roles then Allow
      else Forbidden
  }

  /** Authentication is the first guard of every chain that has one; a role check always follows it. */
  lemma AuthenticateComesFirst(r: Route)
    ensures forall i :: 0 <= i < |Chain(r)| && Chain(r)[i].Authorize? ==> i > 0 && Chain(r)[0] == Authenticate
    ensures Chain(r) != [] ==> Chain(r)[0] == Authenticate
  {
  }

  /** The chains decide exactly what the declarative table says, for every endpoint and credential. */
  lemma ChainsImplementAccess(r: Route, c: Credential)
    ensures Decide(r, c) == Grant(AccessOf(r), c)
  {
    var chain := Chain(r);
    if chain != [] {
      assert chain[0] == Authenticate;
      if c.Verified? && |chain| > 1 {
        assert chain[1..][0] == chain[1];
        if |chain| > 2 {
          assert chain[1..][1..] == chain[2..];
        }
      }
    }
  }

  /** A request without a valid token is refused as Unauthorized on every protected endpoint, before any role check. */
  lemma UnverifiedIsUnauthorized(r: Route, c: Credential)
    requires !c.Verified?
    ensures Decide(r, c) == if AccessOf(r).Public? then Allow else Unauthorized
    ensures !AccessOf(r).Public? ==> Decide(r, c).Status() == 401
  {
    ChainsImplementAccess(r, c);
  }

  /** Every role list holds ADMIN, so a verified administrator is allowed everywhere. */
  lemma AdminNeverForbidden(r: Route, id: UserId)
    ensures Decide(r, Verified(Claims(id, Admin))) == Allow
  {
    ChainsImplementAccess(r, Verified(Claims(id, Admin)));
  }

  /** Category and station writes are for ADMIN only: a verified USER is Forbidden there. */
  lemma AdminOnlyWrites(r: Route, id: UserId)
    requires r in {CategoryCreate, CategoryUpdate, CategoryRemove, StationCreate, StationUpdate, StationRemove}
    ensures AccessOf(r) == RoleIn([Admin])
    ensures Decide(r, Verified(Claims(id, User))) == Forbidden
    ensures Decide(r, Verified(Claims(id, User))).Status() == 403
    ensures Decide(r, NoToken) == Unauthorized && Decide(r, BadToken) == Unauthorized
  {
    ChainsImplementAccess(r, Verified(Claims(id, User)));
    ChainsImplementAccess(r, NoToken);
    ChainsImplementAccess(r, BadToken);
  }

  /** The media endpoints admit any verified ADMIN or USER. */
  lemma MediaForAnyRole(r: Route, c: Credential)
    requires r in {MediaUploadSingle, MediaUploadMultiple, MediaRemove}
    ensures AccessOf(r) == RoleIn([Admin, User])
    ensures Decide(r, c) == if c.Verified? then Allow else Unauthorized
  {
    ChainsImplementAccess(r, c);
    if c.Verified? {
      assert c.claims.role in [Admin, User] by {
        if c.claims.role == Admin {} else {}
      }
    }
  }

  /** `/auth/me` needs a valid token and nothing more; register, login and activation need nothing. */
  lemma AuthEndpoints(c: Credential)
    ensures Decide(AuthMe, c) == if c.Verified? then Allow else Unauthorized
    ensures Decide(AuthRegister, c) == Allow && Decide(AuthLogin, c) == Allow && Decide(AuthActivation, c) == Allow
  {
  }

  /** Every GET endpoint except `/auth/me` is public. */
  lemma ReadsArePublic(r: Route, c: Credential)
    requires Endpoint(r).0 == Get && r != AuthMe
    ensures AccessOf(r) == Public && Decide(r, c) == Allow
  {
    ChainsImplementAccess(r, c);
  }

  /** Role membership is flat: ADMIN passes a role list only when the list names it. */
  lemma NoRoleHierarchy(id: UserId)
    ensures Grant(RoleIn([User]), Verified(Claims(id, Admin))) == Forbidden
    ensures Grant(RoleIn([Admin]), Verified(Claims(id, User))) == Forbidden
  {
  }

  /**
   * The declared order, authentication before the role check, answers a
   * missing token with Unauthorized. The reversed chain is hypothetical (no
   * route declares it); the second clause only shows that the order decides.
   */
  lemma OrderDecidesRefusal(roles: seq<Role>)
    ensures Run([Authenticate, Authorize(roles)], NoToken) == Unauthorized
    ensures Run([Authorize(roles), Authenticate], NoToken) == Forbidden
  {
  }

  /** No two endpoints share a method and path. */
  lemma EndpointsDistinct(r: Route, s: Route)
    requires r != s
    ensures Endpoint(r) != Endpoint(s)
  {
  }
}
