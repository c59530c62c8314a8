/**
 * RegisterSerializer and UserSerializer (users/serializers.py).
 *
 * Registration checks that the two passwords agree, then builds the user from
 * the validated data: the optional names and bio default to "", the second
 * password is dropped and the first is stored only through the password hash
 * (`set_password`), which is a parameter here. UserSerializer renders the
 * favorites as nested Book records, writes them through `favorite_ids`, and
 * never writes `email`.
 */
module UserSerializers {
  import opened Base
  import opened Json
  import opened Fields
  import opened BookModels
  import opened UserModels
  import opened EntityStore
  import BookSerializers

  // ----- RegisterSerializer -----

  /** The keys of the response to a registration: the declared fields less the two write-only passwords. */
  const RegisterReadFields: set<string> := {"username", "first_name", "last_name", "email", "bio"}

  /** `RegisterSerializer.validate` on the field-validated attributes. */
  function ValidateRegistration(attrs: map<string, string>): (r: Result<map<string, string>, Errors>)
    requires "password" in attrs && "password2" in attrs
    ensures r.Failure? <==> attrs["password"] != attrs["password2"]
    ensures r.Failure? ==> r.error.Keys == {"password"} && r.error["password"] == PasswordsDoNotMatch
    ensures r.Success? ==> r.value == attrs
  {
    if attrs["password"] != attrs["password2"] then Failure(map["password" := PasswordsDoNotMatch]) else Success(attrs)
  }

  /** The user `RegisterSerializer.create` builds from validated data. */
  function NewUser(data: map<string, string>, id: Uuid, hash: string -> string): (u: User)
    requires "username" in data && "email" in data && "password" in data
    ensures u.id == id && u.username == data["username"] && u.email == data["email"]
    ensures "first_name" in data ==> u.firstName == data["first_name"]
    ensures "first_name" !in data ==> u.firstName == ""
    ensures "last_name" in data ==> u.lastName == data["last_name"]
    ensures "last_name" !in data ==> u.lastName == ""
    ensures "bio" in data ==> u.bio == Some(data["bio"])
    ensures "bio" !in data ==> u.bio == Some("")
    ensures u.passwordHash == hash(data["password"])
    ensures u.favorites == {}
  {
    User(id, data["username"], Get(data, "first_name", ""), Get(data, "last_name", ""), data["email"],
         Some(Get(data, "bio", "")), hash(data["password"]), {})
  }

  /** The confirmation password never reaches the user. */
  lemma NewUserIgnoresPassword2(data: map<string, string>, id: Uuid, hash: string -> string, confirmation: string)
    requires "username" in data && "email" in data && "password" in data
    ensures NewUser(data["password2" := confirmation], id, hash) == NewUser(data, id, hash)
    ensures NewUser(data - {"password2"}, id, hash) == NewUser(data, id, hash)
  {
  }

  /** The password reaches the user only through the hash: two passwords with the same hash give the same user. */
  lemma NewUserSeesPasswordOnlyThroughHash(
    data: map<string, string>, id: Uuid, hash: string -> string, p1: string, p2: string)
    requires "username" in data && "email" in data
    requires hash(p1) == hash(p2)
    ensures NewUser(data["password" := p1], id, hash) == NewUser(data["password" := p2], id, hash)
  {
    var d1 := data["password" := p1];
    var d2 := data["password" := p2];
    assert forall k :: k != "password" ==> (k in d1 <==> k in d2) && (k in d1 ==> d1[k] == d2[k]);
  }

  /** `RegisterSerializer.create`: pop the confirmation, build the user, `set_password`, save. */
  method Create(store: Catalog, validatedData: map<string, string>, newId: Uuid, hash: string -> string)
    returns (user: User)
    requires store.Valid() && newId !in store.users
    requires "username" in validatedData && "email" in validatedData
    requires "password" in validatedData && "password2" in validatedData
    modifies store
    ensures user == NewUser(validatedData, newId, hash)
    ensures store.users == old(store.users)[newId := user]
    ensures store.categories == old(store.categories) && store.authors == old(store.authors)
    ensures store.books == old(store.books)
    ensures store.Valid()
  {
    var data := validatedData - {"password2"};
    user := User(newId, data["username"], Get(data, "first_name", ""), Get(data, "last_name", ""),
                 data["email"], Some(Get(data, "bio", "")), "", {});
    user := user.(passwordHash := hash(data["password"]));
    store.SaveUser(user);
  }

  /** Validation followed by creation: mismatched passwords fail on `password` and create no user. */
  method Register(store: Catalog, attrs: map<string, string>, newId: Uuid, hash: string -> string)
    returns (r: Result<User, Errors>)
    requires store.Valid() && newId !in store.users
    requires "username" in attrs && "email" in attrs && "password" in attrs && "password2" in attrs
    modifies store
    ensures store.Valid()
    ensures attrs["password"] != attrs["password2"] ==>
      r == Failure(map["password" := PasswordsDoNotMatch]) && unchanged(store)
    ensures attrs["password"] == attrs["password2"] ==>
      && r == Success(NewUser(attrs, newId, hash))
      && store.users == old(store.users)[newId := r.value]
      && store.categories == old(store.categories) && store.authors == old(store.authors)
      && store.books == old(store.books)
  {
    var v := ValidateRegistration(attrs);
    if v.Failure? {
      return Failure(v.error);
    }
    var user := Create(store, v.value, newId, hash);
    return Success(user);
  }

  /** The response to a registration. */
  function RegisteredJson(u: User): (j: Json)
    ensures j.JObject? && j.members.Keys == RegisterReadFields
    ensures "password" !in j.members && "password2" !in j.members
    ensures j.members["email"] == JString(u.email)
  {
    JObject(map[
      "username" := JString(u.username),
      "first_name" := JString(u.firstName),
      "last_name" := JString(u.lastName),
      "email" := JString(u.email),
      "bio" := OptionalString(u.bio)])
  }

  // ----- UserSerializer: read -----

  const UserReadFields: set<string> := {"id", "username", "first_name", "last_name", "email", "bio", "favorites"}

  /** The store rows a user's read representation draws on are consistent. */
  predicate Renderable(
    categories: map<Uuid, Category>, authors: map<Uuid, Author>, books: map<Uuid, Book>, u: User)
  {
    u.favorites <= books.Keys && forall k :: k in books ==> BookRefsValid(categories, authors, books[k])
  }

  ghost function BooksJson(
    categories: map<Uuid, Category>, authors: map<Uuid, Author>, books: map<Uuid, Book>, ids: seq<Uuid>)
    : (items: seq<Json>)
    requires forall i :: 0 <= i < |ids| ==> ids[i] in books
    requires forall k :: k in books ==> BookRefsValid(categories, authors, books[k])
    ensures |items| == |ids|
    ensures forall i :: 0 <= i < |ids| ==> items[i] == BookSerializers.BookJson(categories, authors, books[ids[i]])
  {
    seq(|ids|, i requires 0 <= i < |ids| => BookSerializers.BookJson(categories, authors, books[ids[i]]))
  }

  /** The read representation: favorites as a list of nested Book records; no password, no `favorite_ids`. */
  ghost function UserJson(
    categories: map<Uuid, Category>, authors: map<Uuid, Author>, books: map<Uuid, Book>, u: User)
    : (j: Json)
    requires Renderable(categories, authors, books, u)
    ensures j.JObject? && j.members.Keys == UserReadFields
  {
    JObject(map[
      "id" := JUuid(u.id),
      "username" := JString(u.username),
      "first_name" := JString(u.firstName),
      "last_name" := JString(u.lastName),
      "email" := JString(u.email),
      "bio" := OptionalString(u.bio),
      "favorites" := JArray(BooksJson(categories, authors, books, BookSerializers.Enumerate(u.favorites)))])
  }

  /** The members of a user read that hold nested records. */
  lemma UserJsonMembers(
    categories: map<Uuid, Category>, authors: map<Uuid, Author>, books: map<Uuid, Book>, u: User)
    requires Renderable(categories, authors, books, u)
    ensures var m := UserJson(categories, authors, books, u).members;
      && "favorite_ids" !in m && "password" !in m
      && m["email"] == JString(u.email)
      && m["favorites"] == JArray(BooksJson(categories, authors, books, BookSerializers.Enumerate(u.favorites)))
  {
  }

  /** The nested book list holds exactly the records of the listed ids. */
  lemma BookItems(
    categories: map<Uuid, Category>, authors: map<Uuid, Author>, books: map<Uuid, Book>, ids: seq<Uuid>)
    requires forall i :: 0 <= i < |ids| ==> ids[i] in books
    requires forall k :: k in books ==> BookRefsValid(categories, authors, books[k])
    ensures forall j :: j in BooksJson(categories, authors, books, ids) ==>
      exists b :: b in ids && j == BookSerializers.BookJson(categories, authors, books[b])
    ensures forall b :: b in ids ==>
      BookSerializers.BookJson(categories, authors, books[b]) in BooksJson(categories, authors, books, ids)
  {
    var items := BooksJson(categories, authors, books, ids);
    forall j | j in items
      ensures exists b :: b in ids && j == BookSerializers.BookJson(categories, authors, books[b])
    {
      var i :| 0 <= i < |items| && items[i] == j;
      assert ids[i] in ids && j == BookSerializers.BookJson(categories, authors, books[ids[i]]);
    }

    forall b | b in ids
      ensures BookSerializers.BookJson(categories, authors, books[b]) in items
    {
      var i :| 0 <= i < |ids| && ids[i] == b;
      assert items[i] == BookSerializers.BookJson(categories, authors, books[b]);
    }
  }

  /** Each favorite appears once, as its full Book representation, and nothing else does. */
  lemma UserJsonFavorites(
    categories: map<Uuid, Category>, authors: map<Uuid, Author>, books: map<Uuid, Book>, u: User)
    requires Renderable(categories, authors, books, u)
    ensures var items := BooksJson(categories, authors, books, BookSerializers.Enumerate(u.favorites));
      && UserJson(categories, authors, books, u).members["favorites"] == JArray(items)
      && |items| == |u.favorites|
      && (forall j :: j in items ==>
            exists b :: b in u.favorites && j == BookSerializers.BookJson(categories, authors, books[b]))
      && (forall b :: b in u.favorites ==> BookSerializers.BookJson(categories, authors, books[b]) in items)
  {
    var ids := BookSerializers.Enumerate(u.favorites);
    UserJsonMembers(categories, authors, books, u);
    BookItems(categories, authors, books, ids);
  }

  // ----- UserSerializer: write -----

  datatype UserData = UserData(
    username: Field<string>,
    firstName: Field<string>,
    lastName: Field<string>,
    bio: Field<Option<string>>,
    favoriteIds: Field<seq<Uuid>>)

  /** The payload keys a UserSerializer write reads. */
  const UserWritableFields: set<string> := {"username", "first_name", "last_name", "bio", "favorite_ids"}

  /** The outcome of a user write from the outcomes of its fields: the data when every field passes,
      otherwise the error of each failing field under its name. */
  function UserOutcome(
    username: Result<Field<Option<string>>, FieldError>,
    firstName: Result<Field<Option<string>>, FieldError>,
    lastName: Result<Field<Option<string>>, FieldError>,
    bio: Result<Field<Option<string>>, FieldError>,
    favoriteIds: Result<Field<seq<Uuid>>, FieldError>): (r: Result<UserData, Errors>)
    ensures r.Success? <==>
      username.Success? && firstName.Success? && lastName.Success? && bio.Success? && favoriteIds.Success?
    ensures r.Success? ==>
      && r.value.username == NonNull(username.value)
      && r.value.firstName == NonNull(firstName.value) && r.value.lastName == NonNull(lastName.value)
      && r.value.bio == bio.value && r.value.favoriteIds == favoriteIds.value
    ensures r.Failure? ==> r.error != map[]
  {
    var errors :=
      ErrorOf("username", username) + ErrorOf("first_name", firstName) + ErrorOf("last_name", lastName)
      + ErrorOf("bio", bio) + ErrorOf("favorite_ids", favoriteIds);
    if username.Success? && firstName.Success? && lastName.Success? && bio.Success? && favoriteIds.Success? then
      Success(UserData(NonNull(username.value), NonNull(firstName.value), NonNull(lastName.value), bio.value, favoriteIds.value))
    else
      assert errors != map[];
      Failure(errors)
  }

  /**
   * The writable fields of a user: username (at most 150, not blank, required
   * unless the update is partial), first_name and last_name (at most 150,
   * blank allowed), bio (null and blank allowed) and favorite_ids (optional,
   * a list of existing Books). `email` is read-only and is not looked at.
   */
  function ValidateUser(books: map<Uuid, Book>, p: map<string, Json>, partial: bool): (r: Result<UserData, Errors>)
    ensures r.Success? && "favorite_ids" in p ==>
      && p["favorite_ids"].JArray? && r.value.favoriteIds.Given?
      && |r.value.favoriteIds.value| == |p["favorite_ids"].items|
      && (forall i :: 0 <= i < |r.value.favoriteIds.value| ==>
            p["favorite_ids"].items[i] == JUuid(r.value.favoriteIds.value[i]) && r.value.favoriteIds.value[i] in books)
    ensures r.Success? && "favorite_ids" !in p ==> r.value.favoriteIds == Absent
    ensures r.Success? && !partial ==> r.value.username.Given?
    ensures r.Success? && r.value.username.Given? ==>
      && "username" in p && p["username"] == JString(r.value.username.value)
      && r.value.username.value != "" && |r.value.username.value| <= 150
    ensures r.Failure? ==> r.error != map[]
  {
    UserOutcome(
      TextField(p, "username", !partial, false, false, Some(150)),
      TextField(p, "first_name", false, true, false, Some(150)),
      TextField(p, "last_name", false, true, false, Some(150)),
      TextField(p, "bio", false, true, true, None),
      PkListField(books, p, "favorite_ids", false))
  }

  /** Two payloads that agree on the writable keys validate alike. */
  lemma ValidateUserReadsOnlyWritable(books: map<Uuid, Book>, p: map<string, Json>, q: map<string, Json>, partial: bool)
    requires forall k :: k in UserWritableFields ==> SameEntry(p, q, k)
    ensures ValidateUser(books, p, partial) == ValidateUser(books, q, partial)
  {
    assert TextField(p, "username", !partial, false, false, Some(150)) == TextField(q, "username", !partial, false, false, Some(150));
    assert TextField(p, "first_name", false, true, false, Some(150)) == TextField(q, "first_name", false, true, false, Some(150));
    assert TextField(p, "last_name", false, true, false, Some(150)) == TextField(q, "last_name", false, true, false, Some(150));
    assert TextField(p, "bio", false, true, true, None) == TextField(q, "bio", false, true, true, None);
    assert PkListField(books, p, "favorite_ids", false) == PkListField(books, q, "favorite_ids", false);
  }

  /** Errors are reported only under writable keys. */
  lemma UserErrorsAreWritable(books: map<Uuid, Book>, p: map<string, Json>, partial: bool)
    ensures ValidateUser(books, p, partial).Failure? ==> ValidateUser(books, p, partial).error.Keys <= UserWritableFields
  {
  }

  /** Whatever a payload says about `email` (or `id`, or the nested `favorites`) changes nothing. */
  lemma UserWriteIgnoresReadOnly(books: map<Uuid, Book>, p: map<string, Json>, partial: bool, key: string, v: Json)
    requires key in {"email", "id", "favorites"}
    ensures ValidateUser(books, p[key := v], partial) == ValidateUser(books, p, partial)
    ensures ValidateUser(books, p - {key}, partial) == ValidateUser(books, p, partial)
  {
    assert key !in UserWritableFields;
    forall k | k in UserWritableFields
      ensures SameEntry(p[key := v], p, k) && SameEntry(p - {key}, p, k)
    {
      assert k != key;
    }
    ValidateUserReadsOnlyWritable(books, p[key := v], p, partial);
    ValidateUserReadsOnlyWritable(books, p - {key}, p, partial);
  }

  /** A `favorite_ids` entry that is not an existing Book rejects the write, with an error on that key. */
  lemma UserWriteNeedsExistingFavorites(books: map<Uuid, Book>, p: map<string, Json>, partial: bool, i: nat)
    requires "favorite_ids" in p && p["favorite_ids"].JArray? && i < |p["favorite_ids"].items|
    requires !(p["favorite_ids"].items[i].JUuid? && p["favorite_ids"].items[i].uuid in books)
    ensures ValidateUser(books, p, partial).Failure?
    ensures "favorite_ids" in ValidateUser(books, p, partial).error
  {
  }

  /** Write validated fields onto the user: email, id and credential are never touched; favorites become
      exactly the listed books when `favorite_ids` was given. */
  function ApplyUser(u: User, d: UserData): (r: User)
    ensures r.id == u.id && r.email == u.email && r.passwordHash == u.passwordHash
    ensures r.username == FieldOr(d.username, u.username)
    ensures r.firstName == FieldOr(d.firstName, u.firstName) && r.lastName == FieldOr(d.lastName, u.lastName)
    ensures r.bio == FieldOr(d.bio, u.bio)
    ensures d.favoriteIds.Absent? ==> r.favorites == u.favorites
    ensures d.favoriteIds.Given? ==> forall b :: b in r.favorites <==> b in d.favoriteIds.value
  {
    u.(
      username := FieldOr(d.username, u.username),
      firstName := FieldOr(d.firstName, u.firstName),
      lastName := FieldOr(d.lastName, u.lastName),
      bio := FieldOr(d.bio, u.bio),
      favorites := if d.favoriteIds.Given? then (set b | b in d.favoriteIds.value) else u.favorites)
  }

  /** `serializer.save()` updating a user (a PUT, or a PATCH when `partial`). */
  method UpdateUser(store: Catalog, userId: Uuid, p: map<string, Json>, partial: bool)
    returns (r: Result<User, Errors>)
    requires store.Valid() && userId in store.users
    modifies store
    ensures store.Valid()
    ensures ValidateUser(old(store.books), p, partial).Failure? ==>
      r == Failure(ValidateUser(old(store.books), p, partial).error) && unchanged(store)
    ensures ValidateUser(old(store.books), p, partial).Success? ==>
      && r == Success(ApplyUser(old(store.users[userId]), ValidateUser(old(store.books), p, partial).value))
      && r.value.email == old(store.users[userId].email)
      && store.users == old(store.users)[userId := r.value]
      && store.categories == old(store.categories) && store.authors == old(store.authors)
      && store.books == old(store.books)
  {
    var v := ValidateUser(store.books, p, partial);
    if v.Failure? {
      return Failure(v.error);
    }
    var updated := ApplyUser(store.users[userId], v.value);
    forall b | b in updated.favorites
      ensures b in store.books
    {
      if v.value.favoriteIds.Given? {
        var i :| 0 <= i < |v.value.favoriteIds.value| && v.value.favoriteIds.value[i] == b;
      }
    }
    store.SaveUser(updated);
    return Success(updated);
  }
}
