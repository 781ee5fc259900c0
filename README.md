# Store directory controller, modelled in Dafny

This project models the decision logic of the Express store controller of a
small store-directory web application (`controllers/storeController.js`):
the photo upload gate and naming rule, author stamping on creation, the
paginated store listing, the ownership check before editing, update
normalisation, the tag filter, text search, the nearby-stores query for the
map, and the heart (favourite) toggle.

MongoDB is modelled as in-memory collections: a sequence of store documents
and a map from user id to that user's hearts array. Everything the database
engine computes is an input: the text engine's relevance scores and the geo
index's distances arrive as maps from store id to a number, the fresh id and
creation time of a new store and its slug (computed by the Store model) are
parameters, and the random photo token that `uuid.v4()` produces is a
parameter.

Modules, one per part of the controller:

- `Types` (types.dfy): ids, locations, store documents (fields the body may
  leave out are `Option`s, as in a MongoDB document), uploads, errors.
- `Upload` (upload.dfy): `fileFilter`, the single-file upload gate, JavaScript
  `split('/')` and the photo name.
- `Ranking` (ranking.dfy): the `sort`, `skip` and `limit` steps the database
  applies, as an insertion sort by a key, a top-k and a window.
- `Listing` (listing.dfy): `getStores` with its skip, last page and redirect.
- `Queries` (queries.dfy): `getStoresByTag`, `searchStores`, `mapStores`.
- `Ownership` (ownership.dfy): lookup by id, `confirmOwner`, `editStore`, and
  the database side of `updateStore`.
- `Hearts` (hearts.dfy): `$pull`, `$addToSet` and the toggle of `heartStore`.
- `Controller` (controller.dfy): the request whose body `resize`,
  `createStore` and `updateStore` mutate in place, and a `Database` class
  whose methods update the collections.

Behaviours of the code that the model reproduces as written:

- The tag filter without a tag is `{$exists: true}`, which also matches a
  store whose tags array is empty; it does not exclude such stores.
- `updateStore` never calls `confirmOwner`; only `editStore` does. Any
  logged-in user can update any store, and a body that carries an `author`
  field reassigns the store (`Ownership.UpdateSkipsOwnership`,
  `Ownership.UpdateCanReassignAuthor`). The body goes to `$set` whole, so a
  posted `slug` or `created` overwrites the stored one as well
  (`Ownership.UpdateCanRewriteSlugAndCreated`).
- `updateStore` assigns `req.body.location.type` unconditionally, so a body
  without a location throws before the database is reached (`NoLocation`).
- With no stores at all, any page after the first redirects to page 0, and
  page 0 gives a negative skip, which MongoDB refuses
  (`Listing.NoStoresRedirectToPageZero`).
- `editStore` with an unknown id passes `null` to `confirmOwner`, which then
  throws on `store.author`; the model reports this as `StoreNotFound`.
- Coordinates are not validated; a malformed coordinate reaches the database
  as `NaN`. That path is not modelled (see below).

## Model

| member | source | states |
|---|---|---|
| `Upload.FileFilter` | controllers/storeController.js:12-20 | accepts exactly the MIME types that start with "image/"; a rejection carries the message "That file type isn't allowed" and `false` |
| `Upload.UploadGate` | controllers/storeController.js:10-35 | the single-file upload of line 35 with the filter of lines 12-20: no file passes through unchanged; a present file passes iff it is an image type, otherwise the request fails with the filter's message |
| `Upload.Split` | controllers/storeController.js:44 | `split('/')` yields at least one segment, no segment contains the separator, and there is more than one segment iff the string contains the separator |
| `Upload.JoinSplit` | controllers/storeController.js:44 | joining the segments of `split` with the separator gives back the string |
| `Upload.Extension` | controllers/storeController.js:44 | for a MIME type containing '/', the second segment of `split('/')`; it never contains '/'; a MIME type without '/' gives the text "undefined", as the template literal prints a missing element |
| `Upload.PhotoName` | controllers/storeController.js:46 | the name is the token, a '.', then the extension, and nothing after the token contains '/' |
| `Upload.ExtensionIsSubtype` | controllers/storeController.js:44 | for an accepted MIME type the extension is the subtype after "image/" up to any further '/', and contains no '/' |
| `Upload.PhotoNameOfImage` | controllers/storeController.js:44-46 | "image/&lt;subtype&gt;" names the photo "&lt;token&gt;.&lt;subtype&gt;" |
| `Upload.PhotoNameEndsWithExtension` | controllers/storeController.js:44-46 | every photo name of an accepted upload starts with the token and ends in "." followed by the subtype |
| `Controller.Resize` | controllers/storeController.js:37-55 | without a file the body is unchanged; with one, only the body's photo changes, to the photo name built from the token and the file's MIME type |
| `Controller.Database.CreateStore` | controllers/storeController.js:57-63 | the body's author becomes the logged-in user and exactly one store, built from that body, is appended; ids stay unique and hearts are untouched |
| `Listing.PageNumber` | controllers/storeController.js:67 | an absent page parameter is page 1, a present one is taken as given |
| `Listing.Skip` | controllers/storeController.js:69 | the skip is (page − 1) · 4, a multiple of 4, and is non-negative exactly when page ≥ 1 |
| `Listing.LastPage` | controllers/storeController.js:84 | the page count is the least number of 4-store pages that hold all stores (ceiling of count / 4) |
| `Listing.NewestFirst` | controllers/storeController.js:75 | the ordering is a permutation of the stores with `created` non-increasing |
| `Listing.GetStores` | controllers/storeController.js:66-101 | a missing page is page 1; a negative skip is refused; it redirects to the last page exactly when stores were skipped and none are left; a rendered page holds min(4, count − skip) stores, those at positions skip, skip+1, ... of the newest-first order, with count and page count |
| `Listing.RenderedPageIsNewestFirst` | controllers/storeController.js:71-75 | a rendered page lists stores of the collection, newest first |
| `Listing.FirstPageNeverRedirects` | controllers/storeController.js:67-92 | page 1 (also when no page is given) always renders, even with zero stores, and shows min(4, count) stores |
| `Listing.RedirectIffPastLastPage` | controllers/storeController.js:69-92 | for page ≥ 1 the handler redirects iff page > 1 and page > lastPage |
| `Listing.NoStoresRedirectToPageZero` | controllers/storeController.js:84-92 | with zero stores every page after the first redirects to page 0, and page 0 is refused |
| `Listing.RedirectTargetRenders` | controllers/storeController.js:84-92 | a redirect to a page ≥ 1 lands on a page that renders at least one store |
| `Ranking.SortBy` | controllers/storeController.js:196-199 | the sort step yields a permutation ordered by its key |
| `Ranking.TopK` | controllers/storeController.js:196-201 | sort then limit(k): min(k, n) elements, ordered, drawn from the input, and no element left out ranks before a kept one |
| `Ranking.Window` | controllers/storeController.js:73-74 | skip then limit: at most `limit` elements, the ones from position `skip` on |
| `Ranking.WindowSorted` | controllers/storeController.js:73-75 | a window of a sorted sequence is sorted |
| `Ownership.FindIndex` | controllers/storeController.js:114-116 | finds the first store with the id, or reports that no store has it |
| `Ownership.FindById` | controllers/storeController.js:114-116 | the store found has the id and is in the collection; none is found iff no store has the id |
| `Ownership.FindByIdUnique` | controllers/storeController.js:114-116 | with unique ids the lookup finds the one store with that id |
| `Ownership.ConfirmOwner` | controllers/storeController.js:105-109 | passes iff the store's author is the user; otherwise it throws "you must own the store to edit it!" (or fails on a missing author) |
| `Ownership.EditStore` | controllers/storeController.js:111-125 | yields the store to edit only if it exists and the user is its author; an unknown id fails |
| `Ownership.EditStoreRefusesNonOwner` | controllers/storeController.js:105-119 | a user who is not the author is refused before anything is rendered |
| `Ownership.ForcePoint` | controllers/storeController.js:129 | a body without location fails; otherwise only the location's type changes, to "Point", whatever the client sent |
| `Ownership.ForcePointIdempotent` | controllers/storeController.js:129 | forcing the type a second time changes nothing |
| `Ownership.SetFields` | controllers/storeController.js:133-138 | every field the body carries replaces the store's, every field it lacks stays |
| `Ownership.SetFieldsIdempotent` | controllers/storeController.js:133-138 | applying the same update twice equals applying it once |
| `Ownership.SetBody` | controllers/storeController.js:133-138 | the store keeps its id; a posted slug or creation time replaces the stored one, and the form fields are set as by `SetFields` |
| `Ownership.UpdateById` | controllers/storeController.js:127-138 | the store with the id gets the body's fields with location type "Point" and keeps its id; a slug or creation time in the body replaces the stored one, otherwise it stays; no other store changes; missing location or unknown id fail |
| `Ownership.UpdateKeepsDistinctIds` | controllers/storeController.js:133-138 | an update keeps store ids unique |
| `Ownership.UpdateSkipsOwnership` | controllers/storeController.js:119-138 | a non-owner is refused by editStore, yet the update for the same store succeeds |
| `Ownership.UpdateCanReassignAuthor` | controllers/storeController.js:133-138 | a body carrying an author replaces the stored author |
| `Ownership.UpdateCanRewriteSlugAndCreated` | controllers/storeController.js:133-138 | a body carrying a slug and a creation time overwrites both on the stored document |
| `Controller.Database.UpdateStore` | controllers/storeController.js:127-142 | the body's location type is forced to "Point" in place, and the collection becomes exactly the result of the update by id; a missing location gives `NoLocation` and an unknown id `StoreNotFound`, and on failure the collection is unchanged; hearts are untouched |
| `Controller.CreateThenEditByOther` | controllers/storeController.js:57-63 | a store just created by one user cannot be opened for editing by another |
| `Queries.ChooseTagQuery` | controllers/storeController.js:159-162 | an absent or empty tag selects `{$exists: true}`, any other tag selects that tag |
| `Queries.MatchesTag` | controllers/storeController.js:166-168 | a store matches a tag iff its tags array contains it, and matches `{$exists: true}` iff it has a tags field at all |
| `Queries.FilterByTag` | controllers/storeController.js:166-168 | keeps exactly the stores that match the tag condition, from the collection |
| `Queries.GetStoresByTag` | controllers/storeController.js:158-171 | with a tag: exactly the stores whose tags contain it; without: exactly the stores that have a tags field; no store is listed more often than it occurs in the collection |
| `Queries.EmptyTagListMatchesWithoutTag` | controllers/storeController.js:160-168 | a store with an empty tags array is listed when no tag is given and not for a tag |
| `Queries.Candidates` | controllers/storeController.js:187-194 | the stores the engine matched, each with its own score or distance, and every matched store is present; with unique store ids no store appears twice |
| `Queries.SelectionDistinct` | controllers/storeController.js:187-219 | with unique store ids, any selection drawn from the candidates lists each store at most once |
| `Queries.SearchStores` | controllers/storeController.js:182-203 | at most 5 matching stores with their scores, in non-increasing score order, no better-scoring match left out, and with unique store ids each store at most once |
| `Queries.SearchWithoutMatches` | controllers/storeController.js:187-201 | a query matching no store returns the empty list |
| `Queries.WithinRange` | controllers/storeController.js:215 | keeps exactly the stores at most 10000 m away |
| `Queries.NearestStores` | controllers/storeController.js:207-219 | at most 10 stores, all within 10000 m, in non-decreasing distance, no nearer in-range store left out, and with unique store ids each store at most once |
| `Queries.Project` | controllers/storeController.js:219 | a result keeps the id, slug, name, description, location and photo of its store |
| `Queries.MapStores` | controllers/storeController.js:205-223 | the nearest stores in range, each projected to the five selected fields |
| `Queries.NearbyCandidates` | controllers/storeController.js:207-219 | of stores 15 km, 8 km and 5 km away, only the two in range are candidates |
| `Queries.NearbyExample` | controllers/storeController.js:207-219 | a store 15 km away is excluded and one 5 km away comes before one 8 km away |
| `Hearts.ChooseOperator` | controllers/storeController.js:231-234 | `$pull` iff the id is among the user's hearts, else `$addToSet` |
| `Hearts.Apply` | controllers/storeController.js:237 | the chosen operator applied to the hearts array: after `$pull` the id is absent, after `$addToSet` it is present, and every other id keeps its count |
| `Hearts.Pull` | controllers/storeController.js:233-237 | removes every occurrence of the id and keeps the count of every other id |
| `Hearts.PullConcat` | controllers/storeController.js:233-237 | pulling from a concatenation pulls from each part |
| `Hearts.AddToSet` | controllers/storeController.js:233-237 | an absent id is appended exactly once after the old hearts; a present id changes nothing |
| `Hearts.Toggle` | controllers/storeController.js:230-241 | the id's membership flips (removed entirely, or present exactly once) and every other id keeps its count |
| `Hearts.ToggleKeepsOthers` | controllers/storeController.js:230-241 | the membership of every other id is unchanged |
| `Hearts.ToggleTwiceMembership` | controllers/storeController.js:230-241 | two toggles restore the membership of every id |
| `Hearts.ToggleTwiceRestoresAbsent` | controllers/storeController.js:230-241 | hearting and un-hearting a store restores the hearts array exactly |
| `Hearts.ToggleTwiceMovesPresent` | controllers/storeController.js:230-241 | un-hearting and hearting again leaves the id once, at the end |
| `Controller.Database.HeartStore` | controllers/storeController.js:230-241 | only the user's hearts change, to their toggle; the updated hearts are returned; stores are untouched |

## Left out

- Rendering, flash messages, redirect URLs and JSON responses: presentation only; the listing returns `Render` or `Redirect(lastPage)` values, the other handlers return their data.
- Image decoding, the 800-pixel resize and the file write (jimp), multer's memory storage, and the order "write the file, then continue": foreign libraries and file I/O.
- `uuid.v4()`: randomness; the token is a parameter, so name collisions are not modelled.
- MongoDB's text scoring, geodesic distance, `count`, `populate` and the `parseFloat` of coordinates: floating point and engine internals; scores and distances are given maps, and a malformed coordinate (NaN) is not modelled.
- Page parameters that are not integers (`"abc"` gives NaN, `"1.3"` a fractional skip of 1.2000000000000002): only integer pages and the absent page are modelled.
- Tie order in sorts: MongoDB leaves it unspecified; the model uses one fixed order (insertion sort). The tag listing keeps collection order.
- Slug generation, `getTagsList`, `getTopStores`, schema defaults and `runValidators`: models/Store.js is not part of this model; the slug is a parameter of `CreateStore` standing for the model's save hook, and the tag list is not computed. A `slug` posted with an update is written as it stands, since that hook does not run on `findOneAndUpdate`.
- Body paths outside the store schema, and a posted `_id`: the body carries only the schema's paths; an update that tries to change `_id` is not modelled.
- `getStoreBySlug`, `heartsPage`, `homePage`, `addStore`, `mapPage`: plain lookups or render wrappers with no decisions of their own.
- models/User.js (schema, passport and error plugins, e-mail validation): configuration of external libraries. That schema declares no `hearts` field; the model assumes each user has a hearts array.
- public/javascripts/modules/heart.js: DOM class toggling, the POST request and the animation timer.
- Authentication: the logged-in user is a parameter; `HeartStore` requires that user to be in the collection.
- Mongoose casting of form strings (coordinates, ids) into typed values: values arrive already typed.
- `Promise.all` in `getStores` and `getStoresByTag`: the two reads are independent and are modelled one after the other.
- Hearts.Pull: states that every occurrence of the id goes and every other id keeps its count, not that the others keep their order (the definition does keep it).
