/**
 * Lookup by id, the ownership check of `editStore`, and the pure part of
 * `updateStore`: forcing the GeoJSON type and the `$set` of the body's fields.
 */
module Ownership {
  import opened Types

  const OwnerMessage: string := "you must own the store to edit it!"
  const PointType: string := "Point"

  /** `findOne({_id: id})`: the position of the first store with that id. */
  function FindIndex(stores: seq<Store>, id: StoreId): (r: Option<nat>)
    ensures r.Some? ==> r.value < |stores| && stores[r.value].id == id
    ensures r.Some? ==> forall j :: 0 <= j < r.value ==> stores[j].id != id
    ensures r.None? <==> forall s :: s in stores ==> s.id != id
  {
    if stores == [] then None
    else if stores[0].id == id then Some(0)
    else
      assert stores == [stores[0]] + stores[1..];
      match FindIndex(stores[1..], id)
      case None => None
      case Some(k) => Some(k + 1)
  }

  function FindById(stores: seq<Store>, id: StoreId): (r: Option<Store>)
    ensures r.Some? ==> r.value in stores && r.value.id == id
    ensures r.None? <==> forall s :: s in stores ==> s.id != id
  {
    match FindIndex(stores, id)
    case None => None
    case Some(i) => Some(stores[i])
  }

  /** With unique ids, the lookup finds the one store that has the id. */
  lemma FindByIdUnique(stores: seq<Store>, s: Store)
    requires DistinctIds(stores)
    requires s in stores
    ensures FindById(stores, s.id) == Some(s)
  {
    var i := FindIndex(stores, s.id).value;
    var k :| 0 <= k < |stores| && stores[k] == s;
    assert !(i < k) && !(k < i);
  }

  /**
   * confirmOwner: passes exactly when the store's author is the user; it
   * throws otherwise (a store without author fails on `author.equals`).
   */
  function ConfirmOwner(store: Store, user: UserId): (r: Outcome<Error>)
    ensures r.Pass? <==> store.fields.author == Some(user)
    ensures r.Fail? && store.fields.author.Some? ==> r.error == NotOwner(OwnerMessage)
    ensures store.fields.author.None? ==> r == Fail(NoAuthor)
  {
    match store.fields.author
    case None => Fail(NoAuthor)
    case Some(a) => if a == user then Pass else Fail(NotOwner(OwnerMessage))
  }

  /**
   * editStore: look the store up by id and run the ownership check before
   * the form is rendered; the result is the store the form would show.
   */
  function EditStore(stores: seq<Store>, id: StoreId, user: UserId): (r: Result<Store, Error>)
    ensures r.Ok? ==> r.value in stores && r.value.id == id && r.value.fields.author == Some(user)
    ensures (forall s :: s in stores ==> s.id != id) ==> r == Err(StoreNotFound)
    ensures r.Ok? <==> FindById(stores, id).Some? && FindById(stores, id).value.fields.author == Some(user)
  {
    match FindById(stores, id)
    case None => Err(StoreNotFound)
    case Some(s) =>
      match ConfirmOwner(s, user)
      case Fail(e) => Err(e)
      case Pass => Ok(s)
  }

  /** A user who does not own a store cannot open it for editing. */
  lemma EditStoreRefusesNonOwner(stores: seq<Store>, s: Store, user: UserId)
    requires DistinctIds(stores)
    requires s in stores && s.fields.author != Some(user)
    ensures EditStore(stores, s.id, user).Err?
    ensures s.fields.author.Some? ==> EditStore(stores, s.id, user) == Err(NotOwner(OwnerMessage))
  {
    FindByIdUnique(stores, s);
  }

  /**
   * `req.body.location.type = 'Point'`: a body without a location makes the
   * assignment throw; otherwise the location's type becomes "Point".
   */
  function ForcePoint(body: Body): (r: Result<Body, Error>)
    ensures body.fields.location.None? <==> r == Err(NoLocation)
    ensures r.Ok? ==> r.value.fields.location.Some? && r.value.fields.location.value.kind == Some(PointType)
    ensures r.Ok? ==> r.value.fields.location.value.coordinates == body.fields.location.value.coordinates
    ensures r.Ok? ==> r.value.fields.location.value.address == body.fields.location.value.address
    ensures r.Ok? ==> r.value.(fields := r.value.fields.(location := body.fields.location)) == body
  {
    match body.fields.location
    case None => Err(NoLocation)
    case Some(loc) => Ok(body.(fields := body.fields.(location := Some(loc.(kind := Some(PointType))))))
  }

  /** Forcing the type twice changes nothing more. */
  lemma ForcePointIdempotent(body: Body)
    requires ForcePoint(body).Ok?
    ensures ForcePoint(ForcePoint(body).value) == ForcePoint(body)
  {
  }

  function Pick<T>(update: Option<T>, current: Option<T>): Option<T> {
    if update.Some? then update else current
  }

  /** `findOneAndUpdate(..., body)`: every field the body carries overwrites the store's. */
  function SetFields(current: Fields, update: Fields): (r: Fields)
    ensures update.name.Some? ==> r.name == update.name
    ensures update.description.Some? ==> r.description == update.description
    ensures update.tags.Some? ==> r.tags == update.tags
    ensures update.location.Some? ==> r.location == update.location
    ensures update.photo.Some? ==> r.photo == update.photo
    ensures update.author.Some? ==> r.author == update.author
    ensures update.name.None? ==> r.name == current.name
    ensures update.description.None? ==> r.description == current.description
    ensures update.tags.None? ==> r.tags == current.tags
    ensures update.location.None? ==> r.location == current.location
    ensures update.photo.None? ==> r.photo == current.photo
    ensures update.author.None? ==> r.author == current.author
  {
    Fields(
      Pick(update.name, current.name),
      Pick(update.description, current.description),
      Pick(update.tags, current.tags),
      Pick(update.location, current.location),
      Pick(update.photo, current.photo),
      Pick(update.author, current.author))
  }

  /** Applying the same update twice is the same as applying it once. */
  lemma SetFieldsIdempotent(current: Fields, update: Fields)
    ensures SetFields(SetFields(current, update), update) == SetFields(current, update)
  {
  }

  /** The `$set` of a whole body on one store: a posted slug or creation time is written as well; the id stays. */
  function SetBody(store: Store, body: Body): (r: Store)
    ensures r.id == store.id
    ensures r.slug == if body.slug.Some? then body.slug.value else store.slug
    ensures r.created == if body.created.Some? then body.created.value else store.created
    ensures r.fields == SetFields(store.fields, body.fields)
  {
    Store(
      store.id,
      if body.slug.Some? then body.slug.value else store.slug,
      if body.created.Some? then body.created.value else store.created,
      SetFields(store.fields, body.fields))
  }

  /**
   * The database side of updateStore: the body (with its location forced to
   * a Point) is set on the store with the given id; the list is otherwise
   * unchanged. Nothing here looks at who makes the request.
   */
  function UpdateById(stores: seq<Store>, id: StoreId, body: Body): (r: Result<seq<Store>, Error>)
    ensures body.fields.location.None? ==> r == Err(NoLocation)
    ensures body.fields.location.Some? && FindIndex(stores, id).None? ==> r == Err(StoreNotFound)
    ensures r.Ok? ==> body.fields.location.Some? && FindIndex(stores, id).Some?
    ensures r.Ok? ==>
              var i := FindIndex(stores, id).value;
              && |r.value| == |stores|
              && r.value[i].id == id
              && r.value[i].slug == (if body.slug.Some? then body.slug.value else stores[i].slug)
              && r.value[i].created == (if body.created.Some? then body.created.value else stores[i].created)
              && r.value[i].fields == SetFields(stores[i].fields, ForcePoint(body).value.fields)
              && r.value[i].fields.location.Some?
              && r.value[i].fields.location.value.kind == Some(PointType)
              && forall j :: 0 <= j < |stores| && j != i ==> r.value[j] == stores[j]
  {
    match ForcePoint(body)
    case Err(e) => Err(e)
    case Ok(normal) =>
      match FindIndex(stores, id)
      case None => Err(StoreNotFound)
      case Some(i) => Ok(stores[i := SetBody(stores[i], normal)])
  }

  /** Updating keeps store ids unique: only the fields of one store change. */
  lemma UpdateKeepsDistinctIds(stores: seq<Store>, id: StoreId, body: Body)
    requires DistinctIds(stores)
    requires UpdateById(stores, id, body).Ok?
    ensures DistinctIds(UpdateById(stores, id, body).value)
  {
    var r := UpdateById(stores, id, body).value;
    assert forall j :: 0 <= j < |r| ==> r[j].id == stores[j].id;
  }

  /**
   * Unlike editStore, the update goes through for a user who does not own the
   * store: updateStore never calls the ownership check.
   */
  lemma UpdateSkipsOwnership(stores: seq<Store>, s: Store, user: UserId, body: Body)
    requires DistinctIds(stores)
    requires s in stores && s.fields.author.Some? && s.fields.author != Some(user)
    requires body.fields.location.Some?
    ensures EditStore(stores, s.id, user) == Err(NotOwner(OwnerMessage))
    ensures UpdateById(stores, s.id, body).Ok?
  {
    EditStoreRefusesNonOwner(stores, s, user);
  }

  /** A body that names an author reassigns the store: updates do not keep the author fixed. */
  lemma UpdateCanReassignAuthor(stores: seq<Store>, s: Store, body: Body)
    requires DistinctIds(stores)
    requires s in stores && body.fields.location.Some? && body.fields.author.Some?
    ensures var r := UpdateById(stores, s.id, body);
            r.Ok? && FindById(r.value, s.id).Some? && FindById(r.value, s.id).value.fields.author == body.fields.author
  {
    FindByIdUnique(stores, s);
    UpdateKeepsDistinctIds(stores, s.id, body);
    var r := UpdateById(stores, s.id, body).value;
    var i := FindIndex(stores, s.id).value;
    FindByIdUnique(r, r[i]);
  }

  /** A body that carries a slug or a creation time overwrites the stored one. */
  lemma UpdateCanRewriteSlugAndCreated(stores: seq<Store>, s: Store, body: Body)
    requires DistinctIds(stores)
    requires s in stores && body.fields.location.Some? && body.slug.Some? && body.created.Some?
    ensures var r := UpdateById(stores, s.id, body);
            && r.Ok? && FindById(r.value, s.id).Some?
            && FindById(r.value, s.id).value.slug == body.slug.value
            && FindById(r.value, s.id).value.created == body.created.value
  {
    FindByIdUnique(stores, s);
    UpdateKeepsDistinctIds(stores, s.id, body);
    var r := UpdateById(stores, s.id, body).value;
    var i := FindIndex(stores, s.id).value;
    FindByIdUnique(r, r[i]);
  }
}
