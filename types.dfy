/** Values shared by the store controller: ids, store documents, uploads and errors. */
module Types {

  datatype Option<+T> = None | Some(value: T)

  datatype Result<+T, +E> = Ok(value: T) | Err(error: E)

  /** Pass, or the error a check throws. */
  datatype Outcome<+E> = Pass | Fail(error: E)

  /** MongoDB ObjectIds, compared through their string form. */
  type UserId = string
  type StoreId = string

  /** A GeoJSON location as the store form posts it; `kind` is the GeoJSON `type`. */
  datatype Location = Location(kind: Option<string>, coordinates: seq<real>, address: string)

  /**
   * The fields of a store document that the store form posts. A field the
   * request body does not carry is None, and a `$set` update leaves such a
   * field alone.
   */
  datatype Fields = Fields(
    name: Option<string>,
    description: Option<string>,
    tags: Option<seq<string>>,
    location: Option<Location>,
    photo: Option<string>,
    author: Option<UserId>)

  /** A stored document: the database assigns `id` and `created`, the Store model the `slug`. */
  datatype Store = Store(id: StoreId, slug: string, created: int, fields: Fields)

  /**
   * A request body: the form fields, and the other paths of the store schema
   * that a client may post as well; `$set` writes those too.
   */
  datatype Body = Body(fields: Fields, slug: Option<string>, created: Option<int>)

  /** A file held in memory by the upload middleware. */
  datatype UploadedFile = UploadedFile(mimetype: string, buffer: seq<bv8>)

  datatype Error =
    | FileTypeNotAllowed(message: string)  // the upload filter's rejection
    | NegativeSkip                         // the database refuses a negative skip
    | StoreNotFound                        // a lookup by id found nothing
    | NotOwner(message: string)            // thrown by the ownership check
    | NoAuthor                             // the store has no author to compare
    | NoLocation                           // the update body carries no location

  /** No two stores share an id (MongoDB's unique `_id` index). */
  predicate DistinctIds(stores: seq<Store>) {
    forall i, j :: 0 <= i < j < |stores| ==> stores[i].id != stores[j].id
  }

  function Min(a: int, b: int): int {
    if a < b then a else b
  }
}
