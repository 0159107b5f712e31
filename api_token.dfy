/**
 * The `/token` routes: list the caller's tokens, soft-delete one (owner
 * or admin), and issue a new one. `now` stands for `Utc::now()` and
 * `newId` for the id the database generates.
 */
module ApiToken {
  import opened Base
  import opened Uuid
  import opened Models
  import Jwt
  import opened Api

  /** `token::list`: the caller's rows, deleted or not, in no particular order. */
  function List(caller: User, tokens: map<Uuid, Token>): set<Token>
  {
    set id | id in tokens && tokens[id].userId == caller.id :: tokens[id]
  }

  lemma ListIsCallersRows(caller: User, tokens: map<Uuid, Token>)
    ensures forall t :: t in List(caller, tokens) <==> t in tokens.Values && t.userId == caller.id
  {
    forall t | t in tokens.Values && t.userId == caller.id
      ensures t in List(caller, tokens)
    {
      var id :| id in tokens && tokens[id] == t;
    }
  }

  /** What `token::delete` answers for a table. */
  function DeleteOutcome(caller: User, tokens: map<Uuid, Token>, id: Uuid): Result<(), Error>
  {
    if id !in tokens then Err(Database(NotFound))
    else if tokens[id].userId != caller.id && !caller.isAdmin then Err(LackPermissions)
    else Ok(())
  }

  /** The tokens table after `token::delete`. */
  function AfterDelete(caller: User, tokens: map<Uuid, Token>, id: Uuid, now: Timestamp): map<Uuid, Token>
  {
    if DeleteOutcome(caller, tokens, id).Ok? then tokens[id := tokens[id].(deletedAt := Some(now))] else tokens
  }

  /** `token::delete`. */
  method Delete(db: Database, caller: User, id: Uuid, now: Timestamp) returns (r: Result<(), Error>)
    requires db.Valid()
    modifies db
    ensures db.Valid()
    ensures r == DeleteOutcome(caller, old(db.tokens), id)
    ensures db.tokens == AfterDelete(caller, old(db.tokens), id, now)
    ensures db.users == old(db.users) && db.handlers == old(db.handlers) && db.giteaTokens == old(db.giteaTokens)
  {
    if id !in db.tokens {
      return Err(Database(NotFound));
    }
    var tok := db.tokens[id];
    if tok.userId != caller.id && !caller.isAdmin {
      return Err(LackPermissions);
    }
    db.tokens := db.tokens[id := tok.(deletedAt := Some(now))];
    return Ok(());
  }

  /**
   * The permission rule: an unknown id is a database error, a caller who
   * neither owns the token nor is an admin lacks permissions, and neither
   * failure changes the table.
   */
  lemma DeletePermission(caller: User, tokens: map<Uuid, Token>, id: Uuid, now: Timestamp)
    ensures DeleteOutcome(caller, tokens, id) == Err(Database(NotFound)) <==> id !in tokens
    ensures DeleteOutcome(caller, tokens, id) == Err(LackPermissions)
        <==> id in tokens && tokens[id].userId != caller.id && !caller.isAdmin
    ensures DeleteOutcome(caller, tokens, id).Ok?
        <==> id in tokens && (tokens[id].userId == caller.id || caller.isAdmin)
    ensures DeleteOutcome(caller, tokens, id).Err? ==> AfterDelete(caller, tokens, id, now) == tokens
  {
  }

  /** A permitted delete keeps every row and every field except that row's `deleted_at`. */
  lemma DeleteSetsOnlyDeletedAt(caller: User, tokens: map<Uuid, Token>, id: Uuid, now: Timestamp)
    requires DeleteOutcome(caller, tokens, id).Ok?
    ensures AfterDelete(caller, tokens, id, now).Keys == tokens.Keys
    ensures forall other :: other in tokens && other != id ==> AfterDelete(caller, tokens, id, now)[other] == tokens[other]
    ensures var t := AfterDelete(caller, tokens, id, now)[id];
            && t.id == tokens[id].id && t.userId == tokens[id].userId
            && t.createdAt == tokens[id].createdAt && t.updatedAt == tokens[id].updatedAt
            && t.deletedAt == Some(now)
  {
  }

  /** Deleting again is allowed and moves the deletion time. */
  lemma DeleteAgainResets(caller: User, tokens: map<Uuid, Token>, id: Uuid, first: Timestamp, second: Timestamp)
    requires DeleteOutcome(caller, tokens, id).Ok?
    ensures DeleteOutcome(caller, AfterDelete(caller, tokens, id, first), id).Ok?
    ensures AfterDelete(caller, AfterDelete(caller, tokens, id, first), id, second)[id].deletedAt == Some(second)
  {
  }

  /** Soft-deleted tokens still appear in the owner's list. */
  lemma DeletedTokenStillListed(caller: User, tokens: map<Uuid, Token>, id: Uuid, now: Timestamp)
    requires DeleteOutcome(caller, tokens, id).Ok? && tokens[id].userId == caller.id
    ensures tokens[id].(deletedAt := Some(now)) in List(caller, AfterDelete(caller, tokens, id, now))
  {
    var after := AfterDelete(caller, tokens, id, now);
    ListIsCallersRows(caller, after);
    assert after[id] == tokens[id].(deletedAt := Some(now));
    assert after[id] in after.Values;
  }

  /** A soft-deleted token is turned down by `jwt::verify` from then on. */
  lemma DeletedTokenRejected(caller: User, tokens: map<Uuid, Token>, users: map<Uuid, User>, id: Uuid,
                             now: Timestamp, owner: Uuid, sign: Jwt.Signer, unsign: Jwt.Unsigner)
    requires DeleteOutcome(caller, tokens, id).Ok?
    requires Jwt.Make(owner, id, sign).Ok?
    requires unsign(Jwt.Make(owner, id, sign).value) == Some(Jwt.ClaimsFor(owner, id))
    ensures Jwt.Verify(Jwt.Make(owner, id, sign).value, unsign, AfterDelete(caller, tokens, id, now), users)
         == Err(Jwt.TokenDeleted(now))
  {
    Jwt.ClaimsForIdentify(owner, id);
  }

  /** What `token::create` answers: a key violation, the signed token, or the signing error. */
  function CreateOutcome(caller: User, tokens: map<Uuid, Token>, newId: Uuid, sign: Jwt.Signer): Result<string, Error>
  {
    if newId in tokens then Err(Database(PkViolation("tokens")))
    else match Jwt.Make(caller.id, newId, sign)
      case Ok(s) => Ok(s)
      case Err(why) => Err(InternalServerError(why))
  }

  /** The tokens table after `token::create`; the row stays even when signing fails. */
  function AfterCreate(caller: User, tokens: map<Uuid, Token>, newId: Uuid, now: Timestamp): map<Uuid, Token>
  {
    if newId in tokens then tokens else tokens[newId := NewTokenRow(newId, caller.id, now)]
  }

  /** `token::create`. */
  method Create(db: Database, caller: User, newId: Uuid, now: Timestamp, sign: Jwt.Signer)
    returns (r: Result<string, Error>)
    requires db.Valid()
    modifies db
    ensures db.Valid()
    ensures r == CreateOutcome(caller, old(db.tokens), newId, sign)
    ensures db.tokens == AfterCreate(caller, old(db.tokens), newId, now)
    ensures db.users == old(db.users) && db.handlers == old(db.handlers) && db.giteaTokens == old(db.giteaTokens)
  {
    var inserted := db.InsertToken(newId, caller.id, now);
    match inserted {
      case Err(e) => return Err(Database(e));
      case Ok(tok) =>
        var made := Jwt.Make(caller.id, tok.id, sign);
        match made {
          case Ok(s) => return Ok(s);
          case Err(why) => return Err(InternalServerError(why));
        }
    }
  }

  /** `create` adds exactly one live row, owned by the caller, and touches no other row. */
  lemma CreateInsertsOne(caller: User, tokens: map<Uuid, Token>, newId: Uuid, now: Timestamp)
    requires newId !in tokens
    ensures AfterCreate(caller, tokens, newId, now).Keys == tokens.Keys + {newId}
    ensures forall id :: id in tokens ==> AfterCreate(caller, tokens, newId, now)[id] == tokens[id]
    ensures var t := AfterCreate(caller, tokens, newId, now)[newId];
            t.id == newId && t.userId == caller.id && t.deletedAt.None?
    ensures AfterCreate(caller, tokens, newId, now)[newId] in List(caller, AfterCreate(caller, tokens, newId, now))
  {
    ListIsCallersRows(caller, AfterCreate(caller, tokens, newId, now));
  }

  /** The token `create` hands out authenticates its caller. */
  lemma CreatedTokenVerifies(caller: User, tokens: map<Uuid, Token>, users: map<Uuid, User>, newId: Uuid,
                             now: Timestamp, sign: Jwt.Signer, unsign: Jwt.Unsigner)
    requires CreateOutcome(caller, tokens, newId, sign).Ok?
    requires unsign(CreateOutcome(caller, tokens, newId, sign).value) == Some(Jwt.ClaimsFor(caller.id, newId))
    requires caller.id in users
    ensures Jwt.Verify(CreateOutcome(caller, tokens, newId, sign).value, unsign,
                       AfterCreate(caller, tokens, newId, now), users) == Ok(users[caller.id])
  {
    Jwt.VerifyMake(caller.id, newId, sign, unsign, AfterCreate(caller, tokens, newId, now), users);
  }
}
