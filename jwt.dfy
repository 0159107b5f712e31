/**
 * Session tokens: a JWT whose claims name the user (`sub`) and the token
 * row (`jti`). Signing and signature checking with the server's
 * HMAC-SHA256 key are parameters: `sign` produces the compact token or a
 * serialisation error, `unsign` gives back the claims of a token whose
 * signature checks.
 */
module Jwt {
  import opened Base
  import opened Uuid
  import opened Models

  type Claims = map<string, string>
  type Signer = Claims -> Result<string, string>
  type Unsigner = string -> Option<Claims>

  const SubjectKey: string := "sub"
  const TokenIdKey: string := "jti"

  /** The claims `make` signs. */
  function ClaimsFor(userId: Uuid, tokenId: Uuid): Claims
  {
    map[SubjectKey := ToString(userId), TokenIdKey := ToString(tokenId)]
  }

  /** `jwt::make`. */
  function Make(userId: Uuid, tokenId: Uuid, sign: Signer): Result<string, string>
  {
    sign(ClaimsFor(userId, tokenId))
  }

  /** Why `verify` turned a token down, one case per early return. */
  datatype Rejection =
    | BadSignature
    | NoSubject
    | BadSubject
    | NoTokenId
    | BadTokenId
    | TokenNotFound
    | TokenDeleted(at: Timestamp)
    | TokenUserMismatch
    | UserNotFound

  /** `jwt::verify`, with its checks in the order the code makes them. */
  function Verify(token: string, unsign: Unsigner, tokens: map<Uuid, Token>, users: map<Uuid, User>): Result<User, Rejection>
  {
    var c := unsign(token);
    if c.None? then Err(BadSignature)
    else if SubjectKey !in c.value then Err(NoSubject)
    else
      var uid := Parse(c.value[SubjectKey]);
      if uid.None? then Err(BadSubject)
      else if TokenIdKey !in c.value then Err(NoTokenId)
      else
        var tid := Parse(c.value[TokenIdKey]);
        if tid.None? then Err(BadTokenId)
        else if tid.value !in tokens then Err(TokenNotFound)
        else
          var tok := tokens[tid.value];
          if tok.deletedAt.Some? then Err(TokenDeleted(tok.deletedAt.value))
          else if tok.userId != uid.value then Err(TokenUserMismatch)
          else if uid.value !in users then Err(UserNotFound)
          else Ok(users[uid.value])
  }

  /**
   * When signed claims stand for user `u`: both ids are present and
   * parse, the token row exists, is live and belongs to the subject, and
   * the subject's row is `u`.
   */
  ghost predicate Admits(c: Claims, tokens: map<Uuid, Token>, users: map<Uuid, User>, u: User)
  {
    && SubjectKey in c && Parse(c[SubjectKey]).Some?
    && TokenIdKey in c && Parse(c[TokenIdKey]).Some?
    && var uid := Parse(c[SubjectKey]).value;
       var tid := Parse(c[TokenIdKey]).value;
       && tid in tokens && tokens[tid].deletedAt.None? && tokens[tid].userId == uid
       && uid in users && users[uid] == u
  }

  /** `make` puts exactly the two ids in the claims, readable back as UUIDs. */
  lemma ClaimsForIdentify(userId: Uuid, tokenId: Uuid)
    ensures ClaimsFor(userId, tokenId).Keys == {SubjectKey, TokenIdKey}
    ensures Parse(ClaimsFor(userId, tokenId)[SubjectKey]) == Some(userId)
    ensures Parse(ClaimsFor(userId, tokenId)[TokenIdKey]) == Some(tokenId)
  {
    ParseToString(userId);
    ParseToString(tokenId);
  }

  /** Different ids give different claims. */
  lemma ClaimsForInjective(u1: Uuid, t1: Uuid, u2: Uuid, t2: Uuid)
    requires ClaimsFor(u1, t1) == ClaimsFor(u2, t2)
    ensures u1 == u2 && t1 == t2
  {
    ClaimsForIdentify(u1, t1);
    ClaimsForIdentify(u2, t2);
  }

  /** `verify` accepts a token exactly when its signature checks and its claims admit the user. */
  lemma VerifyIff(token: string, unsign: Unsigner, tokens: map<Uuid, Token>, users: map<Uuid, User>, u: User)
    ensures Verify(token, unsign, tokens, users) == Ok(u)
        <==> unsign(token).Some? && Admits(unsign(token).value, tokens, users, u)
  {
  }

  /** A deleted token is turned down as deleted, whoever it belongs to. */
  lemma VerifyChecksDeletionFirst(token: string, unsign: Unsigner, tokens: map<Uuid, Token>, users: map<Uuid, User>,
                                  tid: Uuid, at: Timestamp)
    requires unsign(token).Some?
    requires SubjectKey in unsign(token).value && Parse(unsign(token).value[SubjectKey]).Some?
    requires TokenIdKey in unsign(token).value && Parse(unsign(token).value[TokenIdKey]) == Some(tid)
    requires tid in tokens && tokens[tid].deletedAt == Some(at)
    ensures Verify(token, unsign, tokens, users) == Err(TokenDeleted(at))
  {
  }

  /**
   * Round trip: a token made for `(u, t)` passes `verify` whenever the key
   * checks its own signatures, the row `t` exists, is live and belongs to
   * `u`, and `u` exists.
   */
  lemma VerifyMake(userId: Uuid, tokenId: Uuid, sign: Signer, unsign: Unsigner,
                   tokens: map<Uuid, Token>, users: map<Uuid, User>)
    requires Make(userId, tokenId, sign).Ok?
    requires unsign(Make(userId, tokenId, sign).value) == Some(ClaimsFor(userId, tokenId))
    requires tokenId in tokens && tokens[tokenId].deletedAt.None? && tokens[tokenId].userId == userId
    requires userId in users
    ensures Verify(Make(userId, tokenId, sign).value, unsign, tokens, users) == Ok(users[userId])
  {
    ClaimsForIdentify(userId, tokenId);
  }
}
