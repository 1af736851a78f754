// `OAuth2UserService` and the user-info classes beside it: the provider's
// attribute map is read through a provider-specific view, the e-mail is
// required, and the account is found or made by `AuthService`. Fetching the
// attributes from the provider (`super.loadUser`) is outside the model: the
// attribute map is a parameter.
module OAuth2Users {
  import opened Common
  import opened Domain
  import opened Text
  import opened Store
  import UserRepository
  import AuthServices

  /** An attribute value as the provider's JSON decodes it; `text` is its `toString()`. */
  datatype AttrValue = Str(s: string) | Int(n: int) | Other(text: string)

  type Attributes = map<string, AttrValue>

  /** `(String) attributes.get(key)`: null when absent, a cast failure when not a string. */
  function CastString(attrs: Attributes, key: string): (r: Result<Option<string>>)
    ensures r.Err? <==> key in attrs && !attrs[key].Str?
    ensures r.Err? ==> r.error == ClassCast
    ensures r.Ok? && r.value.Some? <==> key in attrs && attrs[key].Str?
  {
    if key !in attrs then Ok(None)
    else match attrs[key]
      case Str(s) => Ok(Some(s))
      case _ => Err(ClassCast)
  }

  /** `String.valueOf(attributes.get(key))`: "null" when absent. */
  function ValueOf(attrs: Attributes, key: string): (r: string)
    ensures key !in attrs ==> r == "null"
    ensures key in attrs && attrs[key].Str? ==> r == attrs[key].s
  {
    if key !in attrs then "null"
    else match attrs[key]
      case Str(s) => s
      case Int(n) => IntToString(n)
      case Other(t) => t
  }

  /** `GoogleOAuth2UserInfo` and `GitHubOAuth2UserInfo`, each a view of the attribute map. */
  datatype OAuth2UserInfo = GoogleUserInfo(attributes: Attributes) | GitHubUserInfo(attributes: Attributes)

  /** `getId()`: Google's "sub" as a string; GitHub's "id" rendered by `String.valueOf`. */
  function GetId(info: OAuth2UserInfo): Result<Option<string>>
  {
    match info
    case GoogleUserInfo(a) => CastString(a, "sub")
    case GitHubUserInfo(a) => Ok(Some(ValueOf(a, "id")))
  }

  function GetName(info: OAuth2UserInfo): Result<Option<string>>
  {
    CastString(info.attributes, "name")
  }

  function GetEmail(info: OAuth2UserInfo): Result<Option<string>>
  {
    CastString(info.attributes, "email")
  }

  function GetImageUrl(info: OAuth2UserInfo): Result<Option<string>>
  {
    match info
    case GoogleUserInfo(a) => CastString(a, "picture")
    case GitHubUserInfo(a) => CastString(a, "avatar_url")
  }

  /** The user-info getters read the keys each provider documents. */
  lemma {:induction false} UserInfoKeys(attrs: Attributes)
    ensures "sub" !in attrs ==> GetId(GoogleUserInfo(attrs)) == Ok(None)
    ensures "sub" in attrs && attrs["sub"].Str? ==> GetId(GoogleUserInfo(attrs)) == Ok(Some(attrs["sub"].s))
    ensures "id" !in attrs ==> GetId(GitHubUserInfo(attrs)) == Ok(Some("null"))
    ensures forall n: int :: "id" in attrs && attrs["id"] == Int(n) ==> GetId(GitHubUserInfo(attrs)) == Ok(Some(IntToString(n)))
    ensures GetId(GitHubUserInfo(attrs)).Ok? && GetId(GitHubUserInfo(attrs)).value.Some?
    ensures GetEmail(GoogleUserInfo(attrs)) == GetEmail(GitHubUserInfo(attrs))
    ensures GetName(GoogleUserInfo(attrs)) == GetName(GitHubUserInfo(attrs))
  {
  }

  /** `getAuthProvider`: the registration id, lower-cased, names the provider. */
  function GetAuthProvider(registrationId: string): (r: Result<AuthProvider>)
    ensures r.Ok? ==> r.value != Local
    ensures r.Err? ==> r.error == UnsupportedProvider
  {
    var id := ToLower(registrationId);
    if id == "google" then Ok(Google)
    else if id == "github" then Ok(Github)
    else Err(UnsupportedProvider)
  }

  /** `OAuth2UserInfoFactory.getOAuth2UserInfo`. */
  function GetOAuth2UserInfo(registrationId: string, attrs: Attributes): (r: Result<OAuth2UserInfo>)
    ensures r.Ok? ==> r.value.attributes == attrs
    ensures r.Err? ==> r.error == UnsupportedProvider
  {
    var id := ToLower(registrationId);
    if id == "google" then Ok(GoogleUserInfo(attrs))
    else if id == "github" then Ok(GitHubUserInfo(attrs))
    else Err(UnsupportedProvider)
  }

  /** The provider switch and the factory accept the same ids and agree on which provider each names. */
  lemma {:induction false} ProviderAndFactoryAgree(registrationId: string, attrs: Attributes)
    ensures GetAuthProvider(registrationId).Ok? <==> GetOAuth2UserInfo(registrationId, attrs).Ok?
    ensures GetAuthProvider(registrationId) == Ok(Google) <==> GetOAuth2UserInfo(registrationId, attrs) == Ok(GoogleUserInfo(attrs))
    ensures GetAuthProvider(registrationId) == Ok(Github) <==> GetOAuth2UserInfo(registrationId, attrs) == Ok(GitHubUserInfo(attrs))
  {
  }

  /** The registration id is matched without regard to case. */
  lemma {:induction false} ProviderIgnoresCase(registrationId: string)
    ensures GetAuthProvider(ToLower(registrationId)) == GetAuthProvider(registrationId)
    ensures GetAuthProvider(registrationId) == Ok(Google) <==> ToLower(registrationId) == "google"
    ensures GetAuthProvider(registrationId) == Ok(Github) <==> ToLower(registrationId) == "github"
  {
    LowerIsLower(registrationId);
    LowerOfLower(ToLower(registrationId));
  }

  /** What `processOAuth2User` hands to `getOrCreateOAuth2User`. */
  datatype OAuth2Details = OAuth2Details(provider: AuthProvider, email: string, name: Option<string>, providerId: Option<string>)

  /**
   * The checks of `processOAuth2User` before the account lookup, in the
   * order the Java evaluates them: the provider, the user-info view, the
   * e-mail (null or empty is refused), then the name and the id arguments.
   */
  function OAuth2Request(registrationId: string, attrs: Attributes): (r: Result<OAuth2Details>)
  {
    match GetAuthProvider(registrationId)
    case Err(e) => Err(e)
    case Ok(provider) =>
      match GetOAuth2UserInfo(registrationId, attrs)
      case Err(e) => Err(e)
      case Ok(info) =>
        match GetEmail(info)
        case Err(e) => Err(e)
        case Ok(email) =>
          if email.None? || |email.value| == 0 then Err(MissingEmail)
          else
            match GetName(info)
            case Err(e) => Err(e)
            case Ok(name) =>
              match GetId(info)
              case Err(e) => Err(e)
              case Ok(id) => Ok(OAuth2Details(provider, email.value, name, id))
  }

  /**
   * An accepted request has a supported provider and a non-empty e-mail
   * taken from the "email" attribute; a supported provider with a string
   * e-mail that is absent or empty is refused with MissingEmail.
   */
  lemma {:induction false} OAuth2RequestEffect(registrationId: string, attrs: Attributes)
    ensures GetAuthProvider(registrationId).Err? ==> OAuth2Request(registrationId, attrs) == Err(UnsupportedProvider)
    ensures OAuth2Request(registrationId, attrs).Ok? ==>
      (&& GetAuthProvider(registrationId) == Ok(OAuth2Request(registrationId, attrs).value.provider)
       && "email" in attrs && attrs["email"] == Str(OAuth2Request(registrationId, attrs).value.email)
       && |OAuth2Request(registrationId, attrs).value.email| > 0)
    ensures GetAuthProvider(registrationId).Ok? && ("email" !in attrs || attrs["email"] == Str("")) ==>
      OAuth2Request(registrationId, attrs) == Err(MissingEmail)
    ensures GetAuthProvider(registrationId).Ok? && "email" in attrs && !attrs["email"].Str? ==>
      OAuth2Request(registrationId, attrs) == Err(ClassCast)
  {
    ProviderAndFactoryAgree(registrationId, attrs);
  }

  /** `CustomOAuth2User`: the account together with the provider's attributes; its name is the username. */
  datatype CustomOAuth2User = CustomOAuth2User(userId: Id, user: User, attributes: Attributes)
  {
    function Name(): string
    {
      user.username
    }

    /** `getAuthorities()`: the names of the account's roles. */
    function Authorities(): set<string>
    {
      user.roles
    }
  }

  /**
   * What `processOAuth2User` settles on, from the store before the call: the
   * request's refusal, or the account id with the users and roles maps
   * `getOrCreateOAuth2User` leaves before it stamps the last login.
   */
  ghost function OAuth2Outcome(users: map<Id, User>, roles: map<Id, Role>, nextUserId: nat, nextRoleId: nat,
                               registrationId: string, attrs: Attributes, encoded: string): Result<(Id, map<Id, User>, map<Id, Role>)>
  {
    match OAuth2Request(registrationId, attrs)
    case Err(e) => Err(e)
    case Ok(d) =>
      AuthServices.OAuth2Account(users, roles, nextUserId, nextRoleId, d.email, d.name, d.providerId, d.provider, encoded)
  }

  class OAuth2UserService {
    const authService: AuthServices.AuthService

    constructor(authService: AuthServices.AuthService)
      ensures this.authService == authService
    {
      this.authService := authService;
    }

    /**
     * `processOAuth2User`: a refused request changes nothing; an accepted
     * one is the account `getOrCreateOAuth2User` settles on, with its last
     * login set. `encoded` is the encoded random password a new account gets.
     */
    method ProcessOAuth2User(registrationId: string, attrs: Attributes, encoded: string, now: Time)
      returns (r: Result<CustomOAuth2User>)
      requires authService.db.Valid()
      modifies authService.db`users, authService.db`nextUserId, authService.db`roles, authService.db`nextRoleId
      ensures authService.db.Valid()
      ensures OAuth2Request(registrationId, attrs).Err? ==>
        r == Err(OAuth2Request(registrationId, attrs).error) && unchanged(authService.db)
      ensures var res := OAuth2Outcome(old(authService.db.users), old(authService.db.roles),
                                       old(authService.db.nextUserId), old(authService.db.nextRoleId),
                                       registrationId, attrs, encoded);
        && (r.Err? <==> res.Err?)
        && (r.Err? ==> r.error == res.error && unchanged(authService.db))
        && (r.Ok? ==> (&& r.value.userId == res.value.0
                       && authService.db.roles == res.value.2
                       && authService.db.users == res.value.1[r.value.userId := res.value.1[r.value.userId].(lastLogin := Some(now))]
                       && r.value.user == authService.db.users[r.value.userId]
                       && r.value.attributes == attrs))
    {
      var req := OAuth2Request(registrationId, attrs);
      if req.Err? {
        return Err(req.error);
      }
      var d := req.value;
      var id := authService.GetOrCreateOAuth2User(d.email, d.name, d.providerId, d.provider, encoded, now);
      if id.Err? {
        return Err(id.error);
      }
      r := Ok(CustomOAuth2User(id.value, authService.db.users[id.value], attrs));
    }

    /** `loadUser`: every failure of `processOAuth2User` becomes one OAuth2 authentication error. */
    method LoadUser(registrationId: string, attrs: Attributes, encoded: string, now: Time)
      returns (r: Result<CustomOAuth2User>)
      requires authService.db.Valid()
      modifies authService.db`users, authService.db`nextUserId, authService.db`roles, authService.db`nextRoleId
      ensures authService.db.Valid()
      ensures OAuth2Request(registrationId, attrs).Err? ==> r == Err(OAuth2Failure) && unchanged(authService.db)
      ensures var res := OAuth2Outcome(old(authService.db.users), old(authService.db.roles),
                                       old(authService.db.nextUserId), old(authService.db.nextRoleId),
                                       registrationId, attrs, encoded);
        && (r.Err? <==> res.Err?)
        && (r.Err? ==> r.error == OAuth2Failure && unchanged(authService.db))
        && (r.Ok? ==> (&& r.value.userId == res.value.0
                       && authService.db.roles == res.value.2
                       && authService.db.users == res.value.1[r.value.userId := res.value.1[r.value.userId].(lastLogin := Some(now))]
                       && r.value.user == authService.db.users[r.value.userId]
                       && r.value.attributes == attrs))
    {
      r := ProcessOAuth2User(registrationId, attrs, encoded, now);
      if r.Err? {
        r := Err(OAuth2Failure);
      }
    }
  }
}
