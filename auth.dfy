/** The bearer-token checks: `authorizationMiddleware`, which guards the admin
    routes, and the lookup behind `GET /api/auth/me`. A token is an opaque key of
    the token map; what it encodes is not modelled. */
module Auth {
  import opened Text
  import opened Records
  import opened Tables

  /** `header.split(' ')` has exactly two parts and the first is `Bearer`; the token
      is the second part. */
  function BearerToken(header: string): (t: Option<string>)
    ensures t.Some? ==> header == "Bearer " + t.value && ' ' !in t.value
  {
    var parts := Split(header, ' ');
    JoinSplit(header, ' ');
    if |parts| == 2 && parts[0] == "Bearer" then
      assert Join(parts, ' ') == parts[0] + [' '] + parts[1];
      Some(parts[1])
    else None
  }

  /** Every header of the form `Bearer <token>`, with no further space, yields its token. */
  lemma BearerTokenOfHeader(t: string)
    requires ' ' !in t
    ensures BearerToken("Bearer " + t) == Some(t)
  {
    var parts := ["Bearer", t];
    assert Join(parts, ' ') == "Bearer " + t;
    assert ' ' !in parts[0];
    SplitJoin(parts, ' ');
  }

  /** The properties every plain object inherits from `Object.prototype`. Reading
      one of them from `tokens`, which starts out as `{}`, yields a function or an
      object: a truthy value that is no user id. */
  const InheritedNames: set<string> := {
    "constructor", "__defineGetter__", "__defineSetter__", "hasOwnProperty",
    "__lookupGetter__", "__lookupSetter__", "isPrototypeOf", "propertyIsEnumerable",
    "toString", "valueOf", "__proto__", "toLocaleString" }

  /** What the property read `tokens[token]` yields. */
  datatype Lookup =
    | Stored(id: string)   // an own property: the user id stored under the token
    | Inherited            // a property of `Object.prototype`
    | Undefined

  /** `tokens[token]` on the object the map stands for. An own property shadows an
      inherited one, except `__proto__`: assigning a string to it is ignored, so it
      always reads the prototype. */
  function ReadToken(tokens: map<string, string>, token: string): (v: Lookup)
    ensures v.Stored? <==> token in tokens && token != "__proto__"
    ensures v.Stored? ==> v.id == tokens[token]
    ensures v.Inherited? <==> token in InheritedNames && (token !in tokens || token == "__proto__")
  {
    if token == "__proto__" then Inherited
    else if token in tokens then Stored(tokens[token])
    else if token in InheritedNames then Inherited
    else Undefined
  }

  /** Who a request's `Authorization` header speaks for. */
  datatype Holder =
    | Malformed            // not `Bearer <token>`
    | UnknownToken         // the token reads as no user id (`!userId`)
    | MissingUser          // no user has the id the token reads as
    | Holder(user: User)

  /** The shared steps of `authorizationMiddleware` and `GET /api/auth/me`: parse the
      header, read the token's user id, find the first user with that id. */
  function TokenHolder(users: seq<User>, tokens: map<string, string>, header: string): (h: Holder)
    ensures h.Malformed? <==> BearerToken(header).None?
    ensures BearerToken(header).Some? ==>
              var v := ReadToken(tokens, BearerToken(header).value);
              && (h.UnknownToken? <==> v.Undefined? || v == Stored(""))
              && (h.MissingUser? <==> v.Inherited? || (v.Stored? && v.id != "" && UserIndex(users, v.id) < 0))
              && (h.Holder? <==> v.Stored? && v.id != "" && UserIndex(users, v.id) >= 0)
              && (h.Holder? ==> h.user == users[UserIndex(users, v.id)])
    ensures h.Holder? ==> h.user in users && h.user.id == tokens[BearerToken(header).value]
  {
    match BearerToken(header)
    case None => Malformed
    case Some(token) =>
      match ReadToken(tokens, token)
      case Undefined => UnknownToken
      case Inherited => MissingUser
      case Stored(id) =>
        if id == "" then UnknownToken
        else
          var i := UserIndex(users, id);
          if i < 0 then MissingUser else Holder(users[i])
  }

  /** When every stored token names an existing user, "user not found" is reached
      only through a name inherited from `Object.prototype`. */
  lemma HolderFoundWhenTokensResolve(users: seq<User>, tokens: map<string, string>, header: string)
    requires TokensResolve(users, tokens)
    ensures TokenHolder(users, tokens, header).MissingUser? <==>
              BearerToken(header).Some? && ReadToken(tokens, BearerToken(header).value).Inherited?
  {
    if BearerToken(header).Some? && ReadToken(tokens, BearerToken(header).value).Stored? {
      assert BearerToken(header).value in tokens;
    }
  }

  /** `Bearer constructor` with no such token issued reads the inherited
      `Object.prototype.constructor`, which is truthy, and so both routes answer
      "User not found" rather than "Invalid token". */
  lemma InheritedNameUserNotFound(users: seq<User>, tokens: map<string, string>)
    requires "constructor" !in tokens
    ensures AdminGate(users, tokens, "Bearer constructor") == Fail(Unauthorized("User not found"))
    ensures CurrentUser(users, tokens, "Bearer constructor") == Fail(Unauthorized("User not found"))
  {
    var t := "constructor";
    assert ' ' !in t by {
      forall k | 0 <= k < |t| ensures t[k] != ' ' { }
    }
    assert "Bearer constructor" == "Bearer " + t;
    BearerTokenOfHeader(t);
    assert t in InheritedNames;
    assert ReadToken(tokens, t) == Inherited;
    assert TokenHolder(users, tokens, "Bearer " + t) == MissingUser;
  }

  /** `authorizationMiddleware`: 401 for a malformed header, an unknown token or a
      vanished user; 403 for a holder who is not an admin; otherwise the admin. */
  function AdminGate(users: seq<User>, tokens: map<string, string>, header: string): (r: Result<User>)
    ensures r.Ok? <==> TokenHolder(users, tokens, header).Holder? && TokenHolder(users, tokens, header).user.role == Admin
    ensures r.Ok? ==> r.value in users && r.value.role == Admin
    ensures r.Ok? ==> exists t :: t in tokens && header == "Bearer " + t && tokens[t] == r.value.id
    ensures r.Fail? ==> r.error.Code() in {401, 403}
    ensures r.Fail? && r.error.Code() == 403 <==> TokenHolder(users, tokens, header).Holder? && TokenHolder(users, tokens, header).user.role != Admin
  {
    match TokenHolder(users, tokens, header)
    case Malformed => Fail(Unauthorized("Unauthorized"))
    case UnknownToken => Fail(Unauthorized("Invalid or expired token"))
    case MissingUser => Fail(Unauthorized("User not found"))
    case Holder(u) => if u.role != Admin then Fail(Forbidden) else Ok(u)
  }

  /** An admin presenting one of their tokens in the expected form is let through. */
  lemma AdminGateAdmits(users: seq<User>, tokens: map<string, string>, t: string, i: nat)
    requires ' ' !in t && t in tokens && t != "__proto__" && i < |users|
    requires users[i].role == Admin && tokens[t] == users[i].id && users[i].id != ""
    requires forall k :: 0 <= k < i ==> users[k].id != users[i].id
    ensures AdminGate(users, tokens, "Bearer " + t) == Ok(users[i])
  {
    BearerTokenOfHeader(t);
  }

  /** A holder who is not an admin, presenting one of their tokens, gets 403. */
  lemma NonAdminForbidden(users: seq<User>, tokens: map<string, string>, t: string, i: nat)
    requires ' ' !in t && t in tokens && t != "__proto__" && i < |users|
    requires users[i].role != Admin && tokens[t] == users[i].id && users[i].id != ""
    requires forall k :: 0 <= k < i ==> users[k].id != users[i].id
    ensures AdminGate(users, tokens, "Bearer " + t) == Fail(Forbidden)
  {
    BearerTokenOfHeader(t);
  }

  /** `GET /api/auth/me`: the holder's profile, or 401 with the route's own messages. */
  function CurrentUser(users: seq<User>, tokens: map<string, string>, header: string): (r: Result<Profile>)
    ensures r.Ok? <==> TokenHolder(users, tokens, header).Holder?
    ensures r.Ok? ==> r.value == ProfileOf(TokenHolder(users, tokens, header).user)
    ensures r.Fail? ==> r.error.Code() == 401
  {
    match TokenHolder(users, tokens, header)
    case Malformed => Fail(Unauthorized("Unauthorized"))
    case UnknownToken => Fail(Unauthorized("Invalid token"))
    case MissingUser => Fail(Unauthorized("User not found"))
    case Holder(u) => Ok(ProfileOf(u))
  }
}
