/**
 * The `/handler` routes: list the caller's handlers, fetch one (owner
 * only), and soft-delete one (owner or admin).
 */
module ApiHandler {
  import opened Base
  import opened Uuid
  import opened Models
  import opened Api

  /** `handler::list`: the caller's rows, deleted or not, in no particular order. */
  function List(caller: User, handlers: map<Uuid, Handler>): set<Handler>
  {
    set id | id in handlers && handlers[id].userId == caller.id :: handlers[id]
  }

  lemma ListIsCallersRows(caller: User, handlers: map<Uuid, Handler>)
    ensures forall h :: h in List(caller, handlers) <==> h in handlers.Values && h.userId == caller.id
  {
    forall h | h in handlers.Values && h.userId == caller.id
      ensures h in List(caller, handlers)
    {
      var id :| id in handlers && handlers[id] == h;
    }
  }

  /** `handler::get`. */
  function Get(caller: User, handlers: map<Uuid, Handler>, id: Uuid): Result<Handler, Error>
  {
    if id !in handlers then Err(Database(NotFound))
    else if handlers[id].userId != caller.id then Err(LackPermissions)
    else Ok(handlers[id])
  }

  /**
   * Only the owner gets a handler, as stored; being an admin changes
   * nothing; an unknown id is a database error.
   */
  lemma GetOwnerOnly(caller: User, handlers: map<Uuid, Handler>, id: Uuid, admin: bool)
    ensures Get(caller, handlers, id) == Err(Database(NotFound)) <==> id !in handlers
    ensures Get(caller, handlers, id).Ok? <==> id in handlers && handlers[id].userId == caller.id
    ensures Get(caller, handlers, id).Ok? ==> Get(caller, handlers, id).value == handlers[id]
    ensures Get(caller.(isAdmin := admin), handlers, id) == Get(caller, handlers, id)
  {
  }

  /** A handler the caller can get is one of the handlers they list. */
  lemma GetIsListed(caller: User, handlers: map<Uuid, Handler>, id: Uuid)
    requires Get(caller, handlers, id).Ok?
    ensures Get(caller, handlers, id).value in List(caller, handlers)
  {
    ListIsCallersRows(caller, handlers);
    assert handlers[id] in handlers.Values;
  }

  /** What `handler::delete` answers for a table. */
  function DeleteOutcome(caller: User, handlers: map<Uuid, Handler>, id: Uuid): Result<(), Error>
  {
    if id !in handlers then Err(Database(NotFound))
    else if handlers[id].userId != caller.id && !caller.isAdmin then Err(LackPermissions)
    else Ok(())
  }

  /** The handlers table after `handler::delete`. */
  function AfterDelete(caller: User, handlers: map<Uuid, Handler>, id: Uuid, now: Timestamp): map<Uuid, Handler>
  {
    if DeleteOutcome(caller, handlers, id).Ok? then handlers[id := handlers[id].(deletedAt := Some(now))]
    else handlers
  }

  /** `handler::delete`. */
  method Delete(db: Database, caller: User, id: Uuid, now: Timestamp) returns (r: Result<(), Error>)
    requires db.Valid()
    modifies db
    ensures db.Valid()
    ensures r == DeleteOutcome(caller, old(db.handlers), id)
    ensures db.handlers == AfterDelete(caller, old(db.handlers), id, now)
    ensures db.users == old(db.users) && db.tokens == old(db.tokens) && db.giteaTokens == old(db.giteaTokens)
  {
    if id !in db.handlers {
      return Err(Database(NotFound));
    }
    var hdl := db.handlers[id];
    if hdl.userId != caller.id && !caller.isAdmin {
      return Err(LackPermissions);
    }
    db.handlers := db.handlers[id := hdl.(deletedAt := Some(now))];
    return Ok(());
  }

  /** The owner or an admin may delete; anyone else lacks permissions and nothing changes. */
  lemma DeletePermission(caller: User, handlers: map<Uuid, Handler>, id: Uuid, now: Timestamp)
    ensures DeleteOutcome(caller, handlers, id) == Err(Database(NotFound)) <==> id !in handlers
    ensures DeleteOutcome(caller, handlers, id) == Err(LackPermissions)
        <==> id in handlers && handlers[id].userId != caller.id && !caller.isAdmin
    ensures DeleteOutcome(caller, handlers, id).Ok?
        <==> id in handlers && (handlers[id].userId == caller.id || caller.isAdmin)
    ensures DeleteOutcome(caller, handlers, id).Err? ==> AfterDelete(caller, handlers, id, now) == handlers
  {
  }

  /** A permitted delete keeps every row and every field except that row's `deleted_at`. */
  lemma DeleteSetsOnlyDeletedAt(caller: User, handlers: map<Uuid, Handler>, id: Uuid, now: Timestamp)
    requires DeleteOutcome(caller, handlers, id).Ok?
    ensures AfterDelete(caller, handlers, id, now).Keys == handlers.Keys
    ensures forall other :: other in handlers && other != id ==>
              AfterDelete(caller, handlers, id, now)[other] == handlers[other]
    ensures var h := AfterDelete(caller, handlers, id, now)[id];
            && h.id == handlers[id].id && h.userId == handlers[id].userId
            && h.humanName == handlers[id].humanName && h.currentVersion == handlers[id].currentVersion
            && h.asyncImpl == handlers[id].asyncImpl
            && h.createdAt == handlers[id].createdAt && h.updatedAt == handlers[id].updatedAt
            && h.deletedAt == Some(now)
  {
  }

  /** An admin may delete a handler they cannot get. */
  lemma AdminDeletesWhatTheyCannotGet(caller: User, handlers: map<Uuid, Handler>, id: Uuid)
    requires caller.isAdmin && id in handlers && handlers[id].userId != caller.id
    ensures Get(caller, handlers, id) == Err(LackPermissions)
    ensures DeleteOutcome(caller, handlers, id).Ok?
  {
  }
}
