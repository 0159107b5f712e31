/**
 * The database rows the API reads and writes, and the database itself as
 * tables keyed by primary key. Timestamps are integers supplied by the
 * caller in place of the clock.
 */
module Models {
  import opened Base
  import opened Uuid

  type Timestamp = int

  datatype User = User(
    id: Uuid,
    email: string,
    salutation: string,
    isAdmin: bool,
    isLocked: bool,
    tier: int,
    createdAt: Timestamp,
    updatedAt: Timestamp)

  datatype Token = Token(
    id: Uuid,
    userId: Uuid,
    createdAt: Timestamp,
    updatedAt: Timestamp,
    deletedAt: Option<Timestamp>)

  datatype Handler = Handler(
    id: Uuid,
    userId: Uuid,
    humanName: string,
    currentVersion: Option<string>,
    asyncImpl: bool,
    createdAt: Timestamp,
    updatedAt: Timestamp,
    deletedAt: Option<Timestamp>)

  datatype GiteaToken = GiteaToken(
    id: Uuid,
    userId: Uuid,
    accessToken: string,
    refreshToken: string,
    createdAt: Timestamp,
    updatedAt: Timestamp)

  /** The two outcomes of a query the model lets go wrong. */
  datatype DbError = NotFound | UniqueViolation(message: string)

  /** PostgreSQL's report of a second row under an existing primary key. */
  function PkViolation(table: string): DbError
  {
    UniqueViolation("duplicate key value violates unique constraint \"" + table + "_pkey\"")
  }

  /** The row inserted for a `NewToken`: fresh id, both timestamps now, not deleted. */
  function NewTokenRow(id: Uuid, userId: Uuid, now: Timestamp): Token
  {
    Token(id, userId, now, now, None)
  }

  /** The row inserted for a `NewUser`. */
  function NewUserRow(id: Uuid, email: string, salutation: string, isAdmin: bool, isLocked: bool, tier: int,
                      now: Timestamp): User
  {
    User(id, email, salutation, isAdmin, isLocked, tier, now, now)
  }

  /** The row inserted for a `NewGiteaToken`. */
  function NewGiteaTokenRow(id: Uuid, userId: Uuid, accessToken: string, refreshToken: string,
                            now: Timestamp): GiteaToken
  {
    GiteaToken(id, userId, accessToken, refreshToken, now, now)
  }

  /** Each table holds every row under its own id. */
  ghost predicate UsersKeyed(t: map<Uuid, User>) { forall id :: id in t ==> t[id].id == id }
  ghost predicate TokensKeyed(t: map<Uuid, Token>) { forall id :: id in t ==> t[id].id == id }
  ghost predicate HandlersKeyed(t: map<Uuid, Handler>) { forall id :: id in t ==> t[id].id == id }
  ghost predicate GiteaTokensKeyed(t: map<Uuid, GiteaToken>) { forall id :: id in t ==> t[id].id == id }

  /** The main database: the users, tokens, handlers and gitea_tokens tables. */
  class Database {
    var users: map<Uuid, User>
    var tokens: map<Uuid, Token>
    var handlers: map<Uuid, Handler>
    var giteaTokens: map<Uuid, GiteaToken>

    ghost predicate Valid()
      reads this
    {
      UsersKeyed(users) && TokensKeyed(tokens) && HandlersKeyed(handlers) && GiteaTokensKeyed(giteaTokens)
    }

    constructor (users: map<Uuid, User>, tokens: map<Uuid, Token>,
                 handlers: map<Uuid, Handler>, giteaTokens: map<Uuid, GiteaToken>)
      requires UsersKeyed(users) && TokensKeyed(tokens) && HandlersKeyed(handlers) && GiteaTokensKeyed(giteaTokens)
      ensures Valid()
      ensures this.users == users && this.tokens == tokens
      ensures this.handlers == handlers && this.giteaTokens == giteaTokens
    {
      this.users := users;
      this.tokens := tokens;
      this.handlers := handlers;
      this.giteaTokens := giteaTokens;
    }

    /** `insert_into(tokens)`: the database picks `id`; a taken id is a key violation. */
    method InsertToken(id: Uuid, userId: Uuid, now: Timestamp) returns (r: Result<Token, DbError>)
      requires Valid()
      modifies this
      ensures Valid()
      ensures id in old(tokens) ==> r == Err(PkViolation("tokens")) && unchanged(this)
      ensures id !in old(tokens) ==> r == Ok(NewTokenRow(id, userId, now)) && tokens == old(tokens)[id := r.value]
      ensures users == old(users) && handlers == old(handlers) && giteaTokens == old(giteaTokens)
    {
      if id in tokens {
        return Err(PkViolation("tokens"));
      }
      var row := NewTokenRow(id, userId, now);
      tokens := tokens[id := row];
      return Ok(row);
    }

    /** `insert_into(users)`. */
    method InsertUser(id: Uuid, email: string, salutation: string, isAdmin: bool, isLocked: bool, tier: int,
                      now: Timestamp) returns (r: Result<User, DbError>)
      requires Valid()
      modifies this
      ensures Valid()
      ensures id in old(users) ==> r == Err(PkViolation("users")) && unchanged(this)
      ensures id !in old(users) ==> r == Ok(NewUserRow(id, email, salutation, isAdmin, isLocked, tier, now))
                                    && users == old(users)[id := r.value]
      ensures tokens == old(tokens) && handlers == old(handlers) && giteaTokens == old(giteaTokens)
    {
      if id in users {
        return Err(PkViolation("users"));
      }
      var row := NewUserRow(id, email, salutation, isAdmin, isLocked, tier, now);
      users := users[id := row];
      return Ok(row);
    }

    /** `insert_into(gitea_tokens)`. */
    method InsertGiteaToken(id: Uuid, userId: Uuid, accessToken: string, refreshToken: string,
                            now: Timestamp) returns (r: Result<GiteaToken, DbError>)
      requires Valid()
      modifies this
      ensures Valid()
      ensures id in old(giteaTokens) ==> r == Err(PkViolation("gitea_tokens")) && unchanged(this)
      ensures id !in old(giteaTokens) ==> r == Ok(NewGiteaTokenRow(id, userId, accessToken, refreshToken, now))
                                          && giteaTokens == old(giteaTokens)[id := r.value]
      ensures users == old(users) && tokens == old(tokens) && handlers == old(handlers)
    {
      if id in giteaTokens {
        return Err(PkViolation("gitea_tokens"));
      }
      var row := NewGiteaTokenRow(id, userId, accessToken, refreshToken, now);
      giteaTokens := giteaTokens[id := row];
      return Ok(row);
    }
  }
}
