/**
 * Account provisioning when Gitea's OAuth flow comes back: only Gitea
 * admins are let in; the account is found by email or created, and a new
 * session token is issued and stored in the private `token` cookie.
 * The Gitea profile (or the error fetching it) is an input, as are the
 * OAuth access and refresh tokens, the time and the ids the database
 * generates.
 */
module Gitea {
  import opened Base
  import opened Uuid
  import opened Models
  import Jwt
  import opened Api

  /** The fields of Gitea's user record the callback reads. */
  datatype Profile = Profile(email: string, fullName: string, isAdmin: bool)

  /** Ids the database would generate for the rows the callback inserts. */
  datatype FreshIds = FreshIds(user: Uuid, giteaToken: Uuid, token: Uuid)

  const NotReadyMessage: string := "wasmcloud is not ready for general use yet sorry"
  const TokenCookie: string := "token"
  const Lax: string := "Lax"

  datatype Cookie = Cookie(value: string, sameSite: string)

  /** The request's private (encrypted) cookies. */
  class CookieJar {
    var privateCookies: map<string, Cookie>

    constructor (initial: map<string, Cookie>)
      ensures privateCookies == initial
    {
      privateCookies := initial;
    }
  }

  ghost predicate HasEmail(users: map<Uuid, User>, email: string)
  {
    exists id :: id in users && users[id].email == email
  }

  /**
   * The callback gets as far as inserting the session token: the profile is an
   * admin's, and either the email is known or both new rows can be inserted.
   */
  ghost predicate ReachesTokenInsert(users: map<Uuid, User>, giteaTokens: map<Uuid, GiteaToken>,
                                     profile: Result<Profile, string>, ids: FreshIds)
  {
    && profile.Ok? && profile.value.isAdmin
    && (HasEmail(users, profile.value.email) || (ids.user !in users && ids.giteaToken !in giteaTokens))
  }

  /** `jwt::make`'s answer as the callback returns it. */
  function Signed(uid: Uuid, tokenId: Uuid, sign: Jwt.Signer): Result<string, Error>
  {
    match Jwt.Make(uid, tokenId, sign)
    case Ok(s) => Ok(s)
    case Err(why) => Err(InternalServerError(why))
  }

  /** `gitea::callback`. */
  method Callback(db: Database, jar: CookieJar, accessToken: string, refreshToken: string,
                  profile: Result<Profile, string>, ids: FreshIds, now: Timestamp, sign: Jwt.Signer)
    returns (r: Result<string, Error>)
    requires db.Valid()
    modifies db, jar
    ensures db.Valid()
    ensures db.handlers == old(db.handlers)
    // the profile could not be fetched, or belongs to a non-admin: nothing is read or written
    ensures profile.Err? ==> r == Err(ExternalDependencyFailed(profile.error)) && unchanged(db) && unchanged(jar)
    ensures profile.Ok? && !profile.value.isAdmin
        ==> r == Err(InternalServerError(NotReadyMessage)) && unchanged(db) && unchanged(jar)
    // an existing account is used as it is, and no Gitea token is stored
    ensures profile.Ok? && HasEmail(old(db.users), profile.value.email)
        ==> db.users == old(db.users) && db.giteaTokens == old(db.giteaTokens)
    // a new account: one user row, then one Gitea token row; the steps are not undone when a later one fails
    ensures profile.Ok? && profile.value.isAdmin && !HasEmail(old(db.users), profile.value.email) ==>
              if ids.user in old(db.users) then
                r == Err(Database(PkViolation("users"))) && unchanged(db)
              else
                && db.users == old(db.users)[ids.user := NewUserRow(ids.user, profile.value.email,
                                                                    profile.value.fullName,
                                                                    profile.value.isAdmin, false, 0, now)]
                && if ids.giteaToken in old(db.giteaTokens) then
                     r == Err(Database(PkViolation("gitea_tokens"))) && db.giteaTokens == old(db.giteaTokens)
                   else
                     db.giteaTokens == old(db.giteaTokens)[ids.giteaToken := NewGiteaTokenRow(ids.giteaToken, ids.user,
                                                                                             accessToken, refreshToken, now)]
    // stopping before the session token: an error, and no token row
    ensures !ReachesTokenInsert(old(db.users), old(db.giteaTokens), profile, ids) ==> r.Err? && db.tokens == old(db.tokens)
    // the session token for the account with that email: a key violation, or one new live row (kept even when
    // signing fails) and the answer `jwt::make` gives for it
    ensures ReachesTokenInsert(old(db.users), old(db.giteaTokens), profile, ids) ==>
              exists uid ::
                && uid in db.users && db.users[uid].email == profile.value.email
                && (HasEmail(old(db.users), profile.value.email) ==> uid in old(db.users))
                && (!HasEmail(old(db.users), profile.value.email) ==> uid == ids.user)
                && if ids.token in old(db.tokens) then
                     r == Err(Database(PkViolation("tokens"))) && db.tokens == old(db.tokens)
                   else
                     && db.tokens == old(db.tokens)[ids.token := NewTokenRow(ids.token, uid, now)]
                     && r == Signed(uid, ids.token, sign)
    // the cookie is set only on success, and then holds the returned token
    ensures r.Err? ==> unchanged(jar)
    ensures r.Ok? ==> jar.privateCookies == old(jar.privateCookies)[TokenCookie := Cookie(r.value, Lax)]
  {
    if profile.Err? {
      return Err(ExternalDependencyFailed(profile.error));
    }
    var gitea := profile.value;
    if !gitea.isAdmin {
      return Err(InternalServerError(NotReadyMessage));
    }

    var user: User;
    if exists id :: id in db.users && db.users[id].email == gitea.email {
      var id :| id in db.users && db.users[id].email == gitea.email;
      user := db.users[id];
      assert user.id == id;
    } else {
      var inserted := db.InsertUser(ids.user, gitea.email, gitea.fullName, gitea.isAdmin, false, 0, now);
      if inserted.Err? {
        return Err(Database(inserted.error));
      }
      user := inserted.value;
      var stored := db.InsertGiteaToken(ids.giteaToken, user.id, accessToken, refreshToken, now);
      if stored.Err? {
        return Err(Database(stored.error));
      }
    }
    assert user.id in db.users && db.users[user.id].email == gitea.email;
    assert HasEmail(old(db.users), gitea.email) ==> user.id in old(db.users);

    var issued := db.InsertToken(ids.token, user.id, now);
    if issued.Err? {
      return Err(Database(issued.error));
    }
    var made := Jwt.Make(user.id, issued.value.id, sign);
    if made.Err? {
      return Err(InternalServerError(made.error));
    }
    jar.privateCookies := jar.privateCookies[TokenCookie := Cookie(made.value, Lax)];
    return Ok(made.value);
  }
}
