/**
 * The handlers that change state: the request body that `resize`,
 * `createStore` and `updateStore` write into, and the collections that
 * `createStore`, `updateStore` and `heartStore` update.
 */
module Controller {
  import opened Types
  import Upload
  import Ownership
  import Hearts

  /** The parts of an Express request the handlers read and write. */
  class Request {
    var body: Body
    const file: Option<UploadedFile>
    const user: UserId

    constructor (body: Body, file: Option<UploadedFile>, user: UserId)
      ensures this.body == body && this.file == file && this.user == user
    {
      this.body := body;
      this.file := file;
      this.user := user;
    }
  }

  /**
   * resize: without an uploaded file the body is left as it is; with one,
   * the body's photo becomes "<token>.<extension>". The random token stands
   * for `uuid.v4()`.
   */
  method Resize(req: Request, token: string)
    modifies req
    ensures req.file.None? ==> req.body == old(req.body)
    ensures req.file.Some? ==>
              req.body == old(req.body).(fields := old(req.body).fields.(photo :=
                Some(Upload.PhotoName(token, req.file.value.mimetype))))
  {
    if req.file.None? {
      return;
    }
    var name := Upload.PhotoName(token, req.file.value.mimetype);
    req.body := req.body.(fields := req.body.fields.(photo := Some(name)));
  }

  /** The store collection and every user's hearts. */
  class Database {
    var stores: seq<Store>
    var hearts: map<UserId, seq<StoreId>>

    ghost predicate Valid()
      reads this
    {
      DistinctIds(stores)
    }

    constructor (stores: seq<Store>, hearts: map<UserId, seq<StoreId>>)
      requires DistinctIds(stores)
      ensures Valid() && this.stores == stores && this.hearts == hearts
    {
      this.stores := stores;
      this.hearts := hearts;
    }

    /**
     * createStore: stamp the logged-in user as author on the body, then save
     * a new store built from it. The database supplies the fresh id, the
     * clock the default creation time (a posted `created` takes its place),
     * and the Store model the slug.
     */
    method CreateStore(req: Request, id: StoreId, slug: string, now: int) returns (store: Store)
      requires Valid()
      requires forall s :: s in stores ==> s.id != id
      modifies this, req
      ensures Valid()
      ensures req.body == old(req.body).(fields := old(req.body).fields.(author := Some(req.user)))
      ensures store == Store(id, slug, if req.body.created.Some? then req.body.created.value else now, req.body.fields)
      ensures store.fields.author == Some(req.user)
      ensures stores == old(stores) + [store]
      ensures hearts == old(hearts)
    {
      req.body := req.body.(fields := req.body.fields.(author := Some(req.user)));
      var created := if req.body.created.Some? then req.body.created.value else now;
      store := Store(id, slug, created, req.body.fields);
      stores := stores + [store];
    }

    /**
     * updateStore: force the body's location type to "Point", then set the
     * whole body (form fields, and any posted slug or creation time) on the
     * store with the given id. It neither reads `req.user` nor checks
     * ownership. A body without location fails before
     * the database is touched; an unknown id leaves the collection as it was.
     */
    method UpdateStore(req: Request, id: StoreId) returns (r: Result<Store, Error>)
      requires Valid()
      modifies this, req
      ensures Valid()
      ensures hearts == old(hearts)
      ensures old(req.body).fields.location.None? ==> r == Err(NoLocation) && req.body == old(req.body)
      ensures old(req.body).fields.location.Some? ==> req.body == Ownership.ForcePoint(old(req.body)).value
      ensures r.Err? ==> stores == old(stores)
      ensures r.Ok? <==> old(req.body).fields.location.Some? && Ownership.FindIndex(old(stores), id).Some?
      ensures old(req.body).fields.location.Some? && Ownership.FindIndex(old(stores), id).None? ==>
                r == Err(StoreNotFound)
      ensures r.Ok? ==>
                && Ownership.UpdateById(old(stores), id, old(req.body)) == Ok(stores)
                && r.value.id == id
                && r.value.fields.location.Some? && r.value.fields.location.value.kind == Some(Ownership.PointType)
                && Ownership.FindById(stores, id) == Some(r.value)
    {
      if req.body.fields.location.None? {
        return Err(NoLocation);
      }
      ghost var body0 := req.body;
      var location := req.body.fields.location.value.(kind := Some(Ownership.PointType));
      req.body := req.body.(fields := req.body.fields.(location := Some(location)));
      var found := Ownership.FindIndex(stores, id);
      if found.None? {
        return Err(StoreNotFound);
      }
      var i := found.value;
      ghost var before := stores;
      var updated := Ownership.SetBody(stores[i], req.body);
      stores := stores[i := updated];
      Ownership.UpdateKeepsDistinctIds(before, id, body0);
      Ownership.FindByIdUnique(stores, updated);
      r := Ok(updated);
    }

    /**
     * heartStore: toggle the store id in the user's hearts and return the
     * hearts of the updated user. The user is the logged-in one, so it is
     * a user of the collection.
     */
    method HeartStore(user: UserId, id: StoreId) returns (updated: seq<StoreId>)
      requires user in hearts
      modifies this
      ensures hearts == old(hearts)[user := Hearts.Toggle(old(hearts[user]), id)]
      ensures updated == hearts[user]
      ensures id in updated <==> id !in old(hearts[user])
      ensures stores == old(stores)
    {
      var operator := Hearts.ChooseOperator(hearts[user], id);
      updated := Hearts.Apply(operator, hearts[user], id);
      hearts := hearts[user := updated];
    }
  }

  /** A store created by one user is refused for editing to any other user. */
  method CreateThenEditByOther(db: Database, req: Request, id: StoreId, slug: string, now: int, other: UserId)
    returns (edit: Result<Store, Error>)
    requires db.Valid()
    requires forall s :: s in db.stores ==> s.id != id
    requires other != req.user
    modifies db, req
    ensures edit == Err(NotOwner(Ownership.OwnerMessage))
  {
    var store := db.CreateStore(req, id, slug, now);
    Ownership.EditStoreRefusesNonOwner(db.stores, store, other);
    edit := Ownership.EditStore(db.stores, id, other);
  }
}
