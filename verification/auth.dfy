/**
 * The `/register` route after the GitHub exchange: validate the profile,
 * find the user by GitHub id or create one, and build the session token's
 * claims and signing options.
 */
module Auth {
  import opened Common

  /** The GitHub profile as received, each field possibly missing or ill-typed. */
  datatype RawProfile = RawProfile(
    id: Option<int>,
    login: Option<string>,
    name: Option<string>,
    avatarUrl: Option<string>)

  /** A profile that passed the schema. */
  datatype Profile = Profile(id: int, login: string, name: string, avatarUrl: string)

  /**
   * The profile schema: all four fields present, and `avatar_url` accepted
   * by the URL validator `isUrl`. A GitHub account whose name is null fails
   * here too.
   */
  function ParseProfile(raw: RawProfile, isUrl: string -> bool): (r: Option<Profile>)
    ensures r.Some? <==>
      raw.id.Some? && raw.login.Some? && raw.name.Some? && raw.avatarUrl.Some? && isUrl(raw.avatarUrl.value)
    ensures r.Some? ==>
      r.value.id == raw.id.value && r.value.login == raw.login.value &&
      r.value.name == raw.name.value && r.value.avatarUrl == raw.avatarUrl.value
  {
    match (raw.id, raw.login, raw.name, raw.avatarUrl)
    case (Some(id), Some(login), Some(name), Some(avatarUrl)) =>
      if isUrl(avatarUrl) then Some(Profile(id, login, name, avatarUrl)) else None
    case _ => None
  }

  /** A row of the user table. */
  datatype User = User(id: Id, githubId: int, login: string, name: string, avatarUrl: string)

  /** The user table, keyed by the unique `githubId`. */
  type Users = map<int, User>

  /**
   * Each user is stored under its own GitHub id, and internal ids are
   * unique (the primary key).
   */
  ghost predicate WellKeyed(users: Users) {
    (forall g | g in users :: users[g].githubId == g) &&
    (forall g, h | g in users && h in users && users[g].id == users[h].id :: g == h)
  }

  /** `newId` is not the id of any stored user. */
  ghost predicate FreshId(users: Users, newId: Id) {
    forall g | g in users :: users[g].id != newId
  }

  /**
   * Find-or-create by GitHub id: the stored user when there is one,
   * otherwise a new user with id `newId` copied from the profile. Returns
   * the new table and the user.
   */
  function Upsert(users: Users, p: Profile, newId: Id): (r: (Users, User))
    ensures r.0.Keys == users.Keys + {p.id} && r.0[p.id] == r.1
    ensures forall g | g in users :: g in r.0 && r.0[g] == users[g]
    ensures p.id in users ==> r.0 == users
    ensures p.id !in users ==>
      r.1 == User(newId, p.id, p.login, p.name, p.avatarUrl) && |r.0| == |users| + 1
  {
    if p.id in users then
      (users, users[p.id])
    else
      var u := User(newId, p.id, p.login, p.name, p.avatarUrl);
      (users[p.id := u], u)
  }

  /** Find-or-create keeps the table well keyed when the generated id is fresh. */
  lemma UpsertKeepsWellKeyed(users: Users, p: Profile, newId: Id)
    requires WellKeyed(users) && FreshId(users, newId)
    ensures WellKeyed(Upsert(users, p, newId).0)
    ensures Upsert(users, p, newId).1.githubId == p.id
  {
  }

  /**
   * Registering again with the same GitHub id, even with newer profile data
   * and another generated id, returns the same user and leaves the table as
   * the first registration left it.
   */
  lemma UpsertIdempotent(users: Users, p: Profile, q: Profile, id1: Id, id2: Id)
    requires p.id == q.id
    ensures var (t1, u1) := Upsert(users, p, id1);
      var (t2, u2) := Upsert(t1, q, id2);
      u2 == u1 && t2 == t1 && |t2| == |t1| && u2.id == u1.id
  {
  }

  // ---------------------------------------------------------------------
  // Session token

  /** `expiresIn: '30 days'`, in the seconds the signer adds to the issue time. */
  const ThirtyDays: nat := 30 * 24 * 60 * 60

  /** The public claims signed into the token. */
  datatype Claims = Claims(name: string, avatarUrl: string)

  /** The signed payload and its options: subject and lifetime. */
  datatype Token = Token(claims: Claims, sub: Id, expiresIn: nat)

  /** What verification of a token puts on the request: subject, name and avatar. */
  datatype SessionUser = SessionUser(sub: Id, name: string, avatarUrl: string)

  /** The claims and options signed for a user. */
  function Sign(u: User): (t: Token)
    ensures t.sub == u.id
    ensures t.claims.name == u.name && t.claims.avatarUrl == u.avatarUrl
    ensures t.expiresIn == 2592000
  {
    Token(Claims(u.name, u.avatarUrl), u.id, ThirtyDays)
  }

  /**
   * The request user a valid token yields, in the shape `src/auth.d.ts`
   * declares. The `iat` and `exp` fields of the payload are not kept here;
   * `ExpiresAt` gives the expiry.
   */
  function Decode(t: Token): SessionUser {
    SessionUser(t.sub, t.claims.name, t.claims.avatarUrl)
  }

  /** Expiry time of a token signed at `issuedAt` (seconds). */
  function ExpiresAt(t: Token, issuedAt: int): int {
    issuedAt + t.expiresIn
  }

  /**
   * Decoding a token signed for a user gives back that user's internal id
   * as subject and, as private claims, exactly its name and avatar (no
   * login, no GitHub id, no GitHub token); the token lives exactly thirty
   * days.
   */
  lemma SignDecode(u: User, issuedAt: int)
    ensures Decode(Sign(u)) == SessionUser(u.id, u.name, u.avatarUrl)
    ensures ExpiresAt(Sign(u), issuedAt) == issuedAt + 30 * 86400
  {
  }

  /** In a well-keyed table the token's subject identifies exactly one account. */
  lemma SubjectIdentifiesUser(users: Users, g: int, h: int)
    requires WellKeyed(users)
    requires g in users && h in users
    ensures Decode(Sign(users[g])).sub == Decode(Sign(users[h])).sub <==> g == h
  {
  }

  // ---------------------------------------------------------------------
  // The stateful table and the handler

  class UserTable {
    var users: Users

    ghost predicate Valid()
      reads this
    {
      WellKeyed(users)
    }

    constructor ()
      ensures Valid() && users == map[]
    {
      users := map[];
    }

    /**
     * POST /register from the validated profile on. An invalid profile
     * aborts before any lookup or creation. Otherwise the user is looked
     * up by GitHub id, created only when absent, and a token is built
     * for that user.
     */
    method Register(raw: RawProfile, isUrl: string -> bool, newId: Id) returns (r: Option<Token>)
      requires Valid()
      requires FreshId(users, newId)
      modifies this
      ensures Valid()
      ensures ParseProfile(raw, isUrl).None? ==> r == None && users == old(users)
      ensures ParseProfile(raw, isUrl).Some? ==>
        var (t, u) := Upsert(old(users), ParseProfile(raw, isUrl).value, newId);
        users == t && r == Some(Sign(u))
      ensures r.Some? ==> raw.id.value in users && users[raw.id.value].githubId == raw.id.value
      ensures r.Some? ==> r.value.sub == users[raw.id.value].id && r.value.expiresIn == ThirtyDays
      ensures r.Some? && raw.id.value in old(users) ==> users == old(users)
    {
      var parsed := ParseProfile(raw, isUrl);
      if parsed.None? {
        return None;
      }
      var userInfo := parsed.value;
      UpsertKeepsWellKeyed(users, userInfo, newId);
      var user: User;
      if userInfo.id in users {
        user := users[userInfo.id];
      } else {
        user := User(newId, userInfo.id, userInfo.login, userInfo.name, userInfo.avatarUrl);
        users := users[userInfo.id := user];
      }
      r := Some(Sign(user));
    }
  }
}
