/**
 * `BookViewSet.toggle_favorite` (book/views.py): flip one book's membership in
 * the requesting user's favorites and report which way it went.
 */
module BookViews {
  import opened Base
  import opened BookModels
  import opened UserModels
  import opened EntityStore
  import opened Json

  datatype FavoriteStatus = Added | Removed

  /** The `status` value of the response body. */
  function StatusText(s: FavoriteStatus): (t: string)
    ensures t == "added" <==> s == Added
    ensures t == "removed" <==> s == Removed
  {
    match s
    case Added => "added"
    case Removed => "removed"
  }

  /** A response with a JSON body, or the 404 `get_object` raises for an unknown book id. */
  datatype ToggleResponse = Ok(body: Json) | NotFound

  /** The body `{"status": ...}` of a toggle response. */
  function StatusBody(s: FavoriteStatus): (body: Json)
  {
    JObject(map["status" := JString(StatusText(s))])
  }

  datatype Toggled = Toggled(favorites: set<Uuid>, status: FavoriteStatus)

  /** The two-state transition on one (user, book) pair. */
  function Toggle(favorites: set<Uuid>, book: Uuid): (r: Toggled)
    ensures book in r.favorites <==> book !in favorites
    ensures forall other :: other != book ==> (other in r.favorites <==> other in favorites)
    ensures r.status == Removed <==> book in favorites
    ensures r.status == Added ==> |r.favorites| == |favorites| + 1
    ensures r.status == Removed ==> |r.favorites| == |favorites| - 1
  {
    if book in favorites then Toggled(favorites - {book}, Removed) else Toggled(favorites + {book}, Added)
  }

  /** Toggling twice restores the favorites and reports the two opposite statuses. */
  lemma ToggleTwiceRestores(favorites: set<Uuid>, book: Uuid)
    ensures Toggle(Toggle(favorites, book).favorites, book).favorites == favorites
    ensures Toggle(Toggle(favorites, book).favorites, book).status != Toggle(favorites, book).status
  {
    var once := Toggle(favorites, book);
    var twice := Toggle(once.favorites, book);
    assert forall x :: x in twice.favorites <==> x in favorites;
  }

  /**
   * The view action. The `IsAuthenticated` permission is the precondition that
   * the requesting user exists; the book is looked up by its `id`.
   */
  method ToggleFavorite(store: Catalog, userId: Uuid, bookId: Uuid) returns (response: ToggleResponse)
    requires store.Valid()
    requires userId in store.users
    modifies store
    ensures store.Valid()
    ensures store.categories == old(store.categories) && store.authors == old(store.authors)
    ensures store.books == old(store.books)
    ensures bookId !in old(store.books) ==> response == NotFound && store.users == old(store.users)
    ensures bookId in old(store.books) ==>
      var t := Toggle(old(store.users[userId].favorites), bookId);
      && response == Ok(StatusBody(t.status))
      && (response.body.members["status"] == JString("removed") <==> bookId in old(store.users[userId].favorites))
      && (response.body.members["status"] == JString("added") <==> bookId !in old(store.users[userId].favorites))
      && store.users == old(store.users)[userId := old(store.users[userId]).(favorites := t.favorites)]
  {
    if bookId !in store.books {
      return NotFound;
    }
    var user := store.users[userId];
    if bookId in user.favorites {
      store.users := store.users[userId := user.(favorites := user.favorites - {bookId})];
      return Ok(JObject(map["status" := JString("removed")]));
    }
    store.users := store.users[userId := user.(favorites := user.favorites + {bookId})];
    return Ok(JObject(map["status" := JString("added")]));
  }
}
