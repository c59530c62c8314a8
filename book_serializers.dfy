/**
 * CategorySerializer, AuthorSerializer and BookSerializer (book/serializers.py):
 * the read representation of each record, the validation of a write payload,
 * and the create and update paths that apply a validated payload and save.
 *
 * A Book is read with its category and authors nested as full records and is
 * written with `category_id` and `author_ids`, primary keys that must resolve.
 * `slug` is read-only on a Book, as are the primary keys and the timestamps.
 */
module BookSerializers {
  import opened Base
  import opened Json
  import opened Fields
  import opened BookModels
  import opened EntityStore
  import Isbn

  // ----- Category -----

  const CategoryFields: set<string> := {"id", "name", "description", "slug"}

  function CategoryJson(c: Category): (j: Json)
    ensures j.JObject? && j.members.Keys == CategoryFields
    ensures j.members["id"] == JUuid(c.id)
  {
    JObject(map[
      "id" := JUuid(c.id),
      "name" := JString(c.name),
      "description" := OptionalString(c.description),
      "slug" := JString(c.slug)])
  }

  datatype CategoryData = CategoryData(name: string, description: Field<Option<string>>, slug: Field<string>)

  /** The writable fields of a Category: name (required, at most 100 characters, not blank),
      description (optional, null and blank allowed) and slug (optional, blank or a slug of at most 50). */
  function ValidateCategory(p: map<string, Json>): (r: Result<CategoryData, Errors>)
    ensures r.Success? <==>
      && TextField(p, "name", true, false, false, Some(100)).Success?
      && TextField(p, "description", false, true, true, None).Success?
      && SlugField(p, "slug", 50).Success?
    ensures r.Success? ==> "name" in p && p["name"] == JString(r.value.name) && r.value.name != ""
    ensures r.Failure? ==> r.error != map[] && r.error.Keys <= {"name", "description", "slug"}
  {
    var name := TextField(p, "name", true, false, false, Some(100));
    var description := TextField(p, "description", false, true, true, None);
    var slug := SlugField(p, "slug", 50);
    var errors := ErrorOf("name", name) + ErrorOf("description", description) + ErrorOf("slug", slug);
    if name.Success? && description.Success? && slug.Success? then
      Success(CategoryData(name.value.value.value, description.value, slug.value))
    else
      assert errors != map[];
      Failure(errors)
  }

  /** A new row holds the model defaults: empty name and slug, null description. */
  function NewCategory(id: Uuid): (c: Category)
  {
    Category(id, "", None, "")
  }

  /** Write the validated fields onto the instance; fields absent from the payload keep their value. */
  function ApplyCategory(instance: Category, d: CategoryData): (r: Category)
    ensures r.id == instance.id && r.name == d.name
    ensures r.description == FieldOr(d.description, instance.description)
    ensures r.slug == FieldOr(d.slug, instance.slug)
  {
    instance.(name := d.name, description := FieldOr(d.description, instance.description), slug := FieldOr(d.slug, instance.slug))
  }

  /** The records CategorySerializer can write. */
  predicate WellFormedCategory(c: Category)
  {
    c.name != "" && |c.name| <= 100 && (c.slug == "" || (IsSlug(c.slug) && |c.slug| <= 50))
  }

  /** Writing back the read representation of a well-formed category is accepted and reproduces it. */
  lemma CategoryRoundTrip(c: Category, instance: Category)
    requires WellFormedCategory(c) && instance.id == c.id
    ensures ValidateCategory(CategoryJson(c).members).Success?
    ensures ApplyCategory(instance, ValidateCategory(CategoryJson(c).members).value) == c
  {
    var p := CategoryJson(c).members;
    assert p["name"] == JString(c.name);
    assert p["slug"] == JString(c.slug);
    assert p["description"] == OptionalString(c.description);
  }

  // ----- Author -----

  const AuthorFields: set<string> := {"id", "name", "bio"}

  function AuthorJson(a: Author): (j: Json)
    ensures j.JObject? && j.members.Keys == AuthorFields
    ensures j.members["id"] == JUuid(a.id)
  {
    JObject(map["id" := JUuid(a.id), "name" := JString(a.name), "bio" := OptionalString(a.bio)])
  }

  datatype AuthorData = AuthorData(name: string, bio: Field<Option<string>>)

  /** The writable fields of an Author: name (required, at most 255 characters, not blank) and bio
      (optional, null and blank allowed). */
  function ValidateAuthor(p: map<string, Json>): (r: Result<AuthorData, Errors>)
    ensures r.Success? <==>
      TextField(p, "name", true, false, false, Some(255)).Success? && TextField(p, "bio", false, true, true, None).Success?
    ensures r.Success? ==> "name" in p && p["name"] == JString(r.value.name) && r.value.name != ""
    ensures r.Failure? ==> r.error != map[] && r.error.Keys <= {"name", "bio"}
  {
    var name := TextField(p, "name", true, false, false, Some(255));
    var bio := TextField(p, "bio", false, true, true, None);
    var errors := ErrorOf("name", name) + ErrorOf("bio", bio);
    if name.Success? && bio.Success? then
      Success(AuthorData(name.value.value.value, bio.value))
    else
      assert errors != map[];
      Failure(errors)
  }

  function NewAuthor(id: Uuid): (a: Author)
  {
    Author(id, "", None)
  }

  function ApplyAuthor(instance: Author, d: AuthorData): (r: Author)
    ensures r.id == instance.id && r.name == d.name && r.bio == FieldOr(d.bio, instance.bio)
  {
    instance.(name := d.name, bio := FieldOr(d.bio, instance.bio))
  }

  predicate WellFormedAuthor(a: Author)
  {
    a.name != "" && |a.name| <= 255
  }

  /** Writing back the read representation of a well-formed author is accepted and reproduces it. */
  lemma AuthorRoundTrip(a: Author, instance: Author)
    requires WellFormedAuthor(a) && instance.id == a.id
    ensures ValidateAuthor(AuthorJson(a).members).Success?
    ensures ApplyAuthor(instance, ValidateAuthor(AuthorJson(a).members).value) == a
  {
    var p := AuthorJson(a).members;
    assert p["name"] == JString(a.name);
    assert p["bio"] == OptionalString(a.bio);
  }

  // ----- Book: read -----

  /** The keys of a Book's read representation (the timestamps and the cover image are not modelled). */
  const BookReadFields: set<string> := {"id", "title", "description", "authors", "category", "published_date", "isbn", "slug"}

  /** Keys a Book write payload may carry but that never reach the record. */
  const BookReadOnlyFields: set<string> := {"id", "slug", "created_at", "updated_at", "authors", "category"}

  /** The related rows of a many-to-many set, listed once each (the list order is not modelled). */
  ghost function Enumerate(s: set<Uuid>): (r: seq<Uuid>)
    ensures |r| == |s|
    ensures forall x :: x in r <==> x in s
    decreases s
  {
    if s == {} then [] else
      var x :| x in s;
      [x] + Enumerate(s - {x})
  }

  function AuthorsJson(authors: map<Uuid, Author>, ids: seq<Uuid>): (items: seq<Json>)
    requires forall i :: 0 <= i < |ids| ==> ids[i] in authors
    ensures |items| == |ids|
    ensures forall i :: 0 <= i < |ids| ==> items[i] == AuthorJson(authors[ids[i]])
  {
    seq(|ids|, i requires 0 <= i < |ids| => AuthorJson(authors[ids[i]]))
  }

  /** The read representation: the category nested as a Category record or null, the authors as a list
      of Author records. */
  ghost function BookJson(categories: map<Uuid, Category>, authors: map<Uuid, Author>, b: Book): (j: Json)
    requires BookRefsValid(categories, authors, b)
    ensures j.JObject? && j.members.Keys == BookReadFields
  {
    var ids := Enumerate(b.authors);
    JObject(map[
      "id" := JUuid(b.id),
      "title" := JString(b.title),
      "description" := OptionalString(b.description),
      "authors" := JArray(AuthorsJson(authors, ids)),
      "category" := if b.category.Some? then CategoryJson(categories[b.category.value]) else JNull,
      "published_date" := OptionalString(b.publishedDate),
      "isbn" := OptionalString(b.isbn),
      "slug" := JString(b.slug)])
  }

  /** The members of a Book read, one by one. */
  lemma BookJsonMembers(categories: map<Uuid, Category>, authors: map<Uuid, Author>, b: Book)
    requires BookRefsValid(categories, authors, b)
    ensures var m := BookJson(categories, authors, b).members;
      && m["id"] == JUuid(b.id)
      && m["authors"] == JArray(AuthorsJson(authors, Enumerate(b.authors)))
      && m["category"] == (if b.category.Some? then CategoryJson(categories[b.category.value]) else JNull)
  {
  }

  /** A Book read carries neither write-only key. */
  lemma BookJsonOmitsWriteKeys(categories: map<Uuid, Category>, authors: map<Uuid, Author>, b: Book)
    requires BookRefsValid(categories, authors, b)
    ensures var m := BookJson(categories, authors, b).members;
      "category_id" !in m && "author_ids" !in m
  {
  }

  /** What a Book read looks like: the category as a nested record (never a bare id) or null, and one
      nested Author record per related author. */
  lemma BookJsonShape(categories: map<Uuid, Category>, authors: map<Uuid, Author>, b: Book)
    requires BookRefsValid(categories, authors, b)
    requires forall k :: k in authors ==> authors[k].id == k
    ensures var m := BookJson(categories, authors, b).members;
      var items := AuthorsJson(authors, Enumerate(b.authors));
      && m["id"] == JUuid(b.id)
      && (b.category.None? ==> m["category"] == JNull)
      && (b.category.Some? ==> m["category"] == CategoryJson(categories[b.category.value]))
      && m["authors"] == JArray(items)
      && |items| == |b.authors|
      && (forall i :: 0 <= i < |items| ==>
            items[i].JObject? && items[i].members["id"].JUuid?
            && items[i].members["id"].uuid in b.authors
            && items[i] == AuthorJson(authors[items[i].members["id"].uuid]))
      && (forall a :: a in b.authors ==> AuthorJson(authors[a]) in items)
  {
    BookJsonMembers(categories, authors, b);
    var ids := Enumerate(b.authors);
    AuthorItems(authors, ids);
  }

  /** The nested author list holds exactly the records of the listed ids. */
  lemma AuthorItems(authors: map<Uuid, Author>, ids: seq<Uuid>)
    requires forall i :: 0 <= i < |ids| ==> ids[i] in authors
    requires forall k :: k in authors ==> authors[k].id == k
    ensures var items := AuthorsJson(authors, ids);
      && (forall i :: 0 <= i < |items| ==>
            items[i].JObject? && items[i].members["id"].JUuid?
            && items[i].members["id"].uuid in ids
            && items[i] == AuthorJson(authors[items[i].members["id"].uuid]))
      && (forall a :: a in ids ==> AuthorJson(authors[a]) in items)
  {
    var items := AuthorsJson(authors, ids);
    forall i | 0 <= i < |items|
      ensures items[i].members["id"].uuid == ids[i]
    {
      assert items[i] == AuthorJson(authors[ids[i]]);
    }
    forall a | a in ids
      ensures AuthorJson(authors[a]) in items
    {
      var i :| 0 <= i < |ids| && ids[i] == a;
      assert items[i] == AuthorJson(authors[a]);
    }
  }

  // ----- Book: write -----

  datatype BookData = BookData(
    title: string,
    description: Field<Option<string>>,
    categoryId: Uuid,
    authorIds: seq<Uuid>,
    publishedDate: Field<Option<string>>,
    isbn: Field<Option<string>>)

  function CategoryIdField(categories: map<Uuid, Category>, p: map<string, Json>): (r: Result<Uuid, FieldError>)
    ensures r.Success? <==> "category_id" in p && p["category_id"].JUuid? && p["category_id"].uuid in categories
    ensures r.Success? ==> p["category_id"] == JUuid(r.value)
  {
    if "category_id" in p then ResolvePk(categories, p["category_id"]) else Failure(Required)
  }

  /** The outcome of a Book write from the outcomes of its fields: the data when every field passes,
      otherwise the error of each failing field under its name. */
  function BookOutcome(
    title: Result<Field<Option<string>>, FieldError>,
    description: Result<Field<Option<string>>, FieldError>,
    category: Result<Uuid, FieldError>,
    authorIds: Result<Field<seq<Uuid>>, FieldError>,
    publishedDate: Result<Field<Option<string>>, FieldError>,
    isbn: Result<Field<Option<string>>, FieldError>): (r: Result<BookData, Errors>)
    ensures r.Success? <==>
      && title.Success? && description.Success? && category.Success? && authorIds.Success?
      && publishedDate.Success? && isbn.Success?
    ensures r.Success? ==>
      && r.value.title == FieldOr(NonNull(title.value), "") && r.value.description == description.value
      && r.value.categoryId == category.value && r.value.authorIds == FieldOr(authorIds.value, [])
      && r.value.publishedDate == publishedDate.value && r.value.isbn == isbn.value
    ensures r.Failure? ==> r.error != map[]
    ensures category.Failure? ==> r.Failure? && "category_id" in r.error && r.error["category_id"] == category.error
    ensures authorIds.Failure? ==> r.Failure? && "author_ids" in r.error && r.error["author_ids"] == authorIds.error
  {
    var errors :=
      ErrorOf("title", title) + ErrorOf("description", description) + ErrorOf("published_date", publishedDate)
      + ErrorOf("isbn", isbn) + ErrorOf("category_id", category) + ErrorOf("author_ids", authorIds);
    if title.Success? && description.Success? && category.Success? && authorIds.Success?
       && publishedDate.Success? && isbn.Success? then
      Success(BookData(FieldOr(NonNull(title.value), ""), description.value, category.value,
                       FieldOr(authorIds.value, []), publishedDate.value, isbn.value))
    else
      assert errors != map[];
      Failure(errors)
  }

  /**
   * The writable fields of a Book: title (required, not blank, at most 255),
   * description and published_date (optional, nullable), isbn (optional,
   * nullable, blank allowed, at most 13), category_id (required, an existing
   * Category) and author_ids (required, a list of existing Authors, possibly
   * empty). No other key of the payload is looked at.
   */
  function ValidateBook(categories: map<Uuid, Category>, authors: map<Uuid, Author>, p: map<string, Json>)
    : (r: Result<BookData, Errors>)
    ensures r.Success? ==>
      r.value.categoryId in categories && "category_id" in p && p["category_id"] == JUuid(r.value.categoryId)
    ensures r.Success? ==>
      && "author_ids" in p && p["author_ids"].JArray?
      && |r.value.authorIds| == |p["author_ids"].items|
      && (forall i :: 0 <= i < |r.value.authorIds| ==>
            p["author_ids"].items[i] == JUuid(r.value.authorIds[i]) && r.value.authorIds[i] in authors)
    ensures r.Success? ==>
      && "title" in p && p["title"] == JString(r.value.title) && r.value.title != "" && |r.value.title| <= 255
    ensures r.Failure? ==> r.error != map[]
  {
    BookOutcome(
      TextField(p, "title", true, false, false, Some(255)),
      TextField(p, "description", false, true, true, None),
      CategoryIdField(categories, p),
      PkListField(authors, p, "author_ids", true),
      TextField(p, "published_date", false, false, true, None),
      TextField(p, "isbn", false, true, true, Some(13)))
  }

  /** The error map of a Book write holds an entry for every relation field that fails. */
  lemma BookErrorsCover(categories: map<Uuid, Category>, authors: map<Uuid, Author>, p: map<string, Json>)
    ensures var r := ValidateBook(categories, authors, p);
      && (CategoryIdField(categories, p).Failure? ==>
            r.Failure? && "category_id" in r.error && r.error["category_id"] == CategoryIdField(categories, p).error)
      && (PkListField(authors, p, "author_ids", true).Failure? ==>
            r.Failure? && "author_ids" in r.error && r.error["author_ids"] == PkListField(authors, p, "author_ids", true).error)
  {
  }

  /** A write is rejected, with an error on `category_id`, unless `category_id` names an existing Category;
      a missing `category_id` is reported as required. */
  lemma BookWriteNeedsCategory(categories: map<Uuid, Category>, authors: map<Uuid, Author>, p: map<string, Json>)
    ensures var r := ValidateBook(categories, authors, p);
      && (!("category_id" in p && p["category_id"].JUuid? && p["category_id"].uuid in categories) ==>
            r.Failure? && "category_id" in r.error)
      && ("category_id" !in p ==> r.Failure? && "category_id" in r.error && r.error["category_id"] == Required)
      && ("category_id" in p && p["category_id"].JUuid? && p["category_id"].uuid !in categories ==>
            r.Failure? && "category_id" in r.error && r.error["category_id"] == DoesNotExist(p["category_id"].uuid))
  {
    BookErrorsCover(categories, authors, p);
  }

  /** A write is rejected, with an error on `author_ids`, when the key is missing or any listed id is not
      an existing Author. */
  lemma BookWriteNeedsAuthors(categories: map<Uuid, Category>, authors: map<Uuid, Author>, p: map<string, Json>, i: nat)
    ensures var r := ValidateBook(categories, authors, p);
      && ("author_ids" !in p ==> r.Failure? && "author_ids" in r.error && r.error["author_ids"] == Required)
      && ("author_ids" in p && p["author_ids"].JArray? && i < |p["author_ids"].items| &&
          !(p["author_ids"].items[i].JUuid? && p["author_ids"].items[i].uuid in authors) ==>
            r.Failure? && "author_ids" in r.error)
  {
    BookErrorsCover(categories, authors, p);
  }

  /** The payload keys a Book write reads. */
  const BookWritableFields: set<string> := {"title", "description", "category_id", "author_ids", "published_date", "isbn"}

  /** Two payloads that agree on the writable keys validate alike. */
  lemma ValidateBookReadsOnlyWritable(
    categories: map<Uuid, Category>, authors: map<Uuid, Author>, p: map<string, Json>, q: map<string, Json>)
    requires forall k :: k in BookWritableFields ==> SameEntry(p, q, k)
    ensures ValidateBook(categories, authors, p) == ValidateBook(categories, authors, q)
  {
    assert TextField(p, "title", true, false, false, Some(255)) == TextField(q, "title", true, false, false, Some(255));
    assert TextField(p, "description", false, true, true, None) == TextField(q, "description", false, true, true, None);
    assert CategoryIdField(categories, p) == CategoryIdField(categories, q);
    assert PkListField(authors, p, "author_ids", true) == PkListField(authors, q, "author_ids", true);
    assert TextField(p, "published_date", false, false, true, None) == TextField(q, "published_date", false, false, true, None);
    assert TextField(p, "isbn", false, true, true, Some(13)) == TextField(q, "isbn", false, true, true, Some(13));
  }

  /** Read-only keys in a payload, whatever their value and whether present or not, change nothing. */
  lemma BookWriteIgnoresReadOnly(
    categories: map<Uuid, Category>, authors: map<Uuid, Author>, p: map<string, Json>, key: string, v: Json)
    requires key in BookReadOnlyFields
    ensures ValidateBook(categories, authors, p[key := v]) == ValidateBook(categories, authors, p)
    ensures ValidateBook(categories, authors, p - {key}) == ValidateBook(categories, authors, p)
  {
    assert key !in BookWritableFields;
    forall k | k in BookWritableFields
      ensures SameEntry(p[key := v], p, k) && SameEntry(p - {key}, p, k)
    {
      assert k != key;
    }
    ValidateBookReadsOnlyWritable(categories, authors, p[key := v], p);
    ValidateBookReadsOnlyWritable(categories, authors, p - {key}, p);
  }

  /** The read representation is not a write payload: it lacks both write-only keys. */
  lemma BookReadIsNotAWrite(categories: map<Uuid, Category>, authors: map<Uuid, Author>, b: Book)
    requires BookRefsValid(categories, authors, b)
    ensures var m := BookJson(categories, authors, b).members;
      && "category_id" !in m && "author_ids" !in m
      && ValidateBook(categories, authors, m).Failure?
      && {"category_id", "author_ids"} <= ValidateBook(categories, authors, m).error.Keys
  {
    var m := BookJson(categories, authors, b).members;
    BookJsonOmitsWriteKeys(categories, authors, b);
    WriteWithoutRelationsRejected(categories, authors, m);
  }

  /** A payload with neither `category_id` nor `author_ids` is rejected on both. */
  lemma WriteWithoutRelationsRejected(categories: map<Uuid, Category>, authors: map<Uuid, Author>, p: map<string, Json>)
    requires "category_id" !in p && "author_ids" !in p
    ensures var r := ValidateBook(categories, authors, p);
      r.Failure? && r.error["category_id"] == Required && r.error["author_ids"] == Required
  {
    BookWriteNeedsCategory(categories, authors, p);
    BookWriteNeedsAuthors(categories, authors, p, 0);
  }

  /** A new row holds the model defaults: no category, no authors, null text fields, blank slug. */
  function NewBook(id: Uuid): (b: Book)
  {
    Book(id, "", None, {}, None, None, None, "")
  }

  /** Write the validated fields onto the instance; the slug is read-only and keeps its value. */
  function ApplyBook(instance: Book, d: BookData): (r: Book)
    ensures r.id == instance.id && r.slug == instance.slug && r.title == d.title
    ensures r.category == Some(d.categoryId)
    ensures forall a :: a in r.authors <==> a in d.authorIds
    ensures r.description == FieldOr(d.description, instance.description)
    ensures r.publishedDate == FieldOr(d.publishedDate, instance.publishedDate)
    ensures r.isbn == FieldOr(d.isbn, instance.isbn)
  {
    instance.(
      title := d.title,
      description := FieldOr(d.description, instance.description),
      authors := (set a | a in d.authorIds),
      category := Some(d.categoryId),
      publishedDate := FieldOr(d.publishedDate, instance.publishedDate),
      isbn := FieldOr(d.isbn, instance.isbn))
  }

  /** A validated write points only at rows that exist. */
  lemma ValidatedBookRefsValid(categories: map<Uuid, Category>, authors: map<Uuid, Author>, p: map<string, Json>, instance: Book)
    requires ValidateBook(categories, authors, p).Success?
    ensures BookRefsValid(categories, authors, ApplyBook(instance, ValidateBook(categories, authors, p).value))
  {
    var d := ValidateBook(categories, authors, p).value;
    var r := ApplyBook(instance, d);
    forall a | a in r.authors ensures a in authors {
      var i :| 0 <= i < |d.authorIds| && d.authorIds[i] == a;
    }
  }

  // ----- create and update -----

  /** `serializer.save()` creating a Category: nothing is written unless the payload validates. */
  method CreateCategory(store: Catalog, p: map<string, Json>, newId: Uuid, slugify: string -> string)
    returns (r: Result<Category, Errors>)
    requires store.Valid() && newId !in store.categories
    modifies store
    ensures store.Valid()
    ensures ValidateCategory(p).Failure? ==> r == Failure(ValidateCategory(p).error) && unchanged(store)
    ensures ValidateCategory(p).Success? ==>
      && r == Success(CategoryBeforeSave(ApplyCategory(NewCategory(newId), ValidateCategory(p).value), slugify))
      && store.categories == old(store.categories)[newId := r.value]
      && store.authors == old(store.authors) && store.books == old(store.books) && store.users == old(store.users)
  {
    var v := ValidateCategory(p);
    if v.Failure? {
      return Failure(v.error);
    }
    var saved := store.SaveCategory(ApplyCategory(NewCategory(newId), v.value), slugify);
    return Success(saved);
  }

  /** `serializer.save()` updating a Category; the save hook runs again. */
  method UpdateCategory(store: Catalog, id: Uuid, p: map<string, Json>, slugify: string -> string)
    returns (r: Result<Category, Errors>)
    requires store.Valid() && id in store.categories
    modifies store
    ensures store.Valid()
    ensures ValidateCategory(p).Failure? ==> r == Failure(ValidateCategory(p).error) && unchanged(store)
    ensures ValidateCategory(p).Success? ==>
      && r == Success(CategoryBeforeSave(ApplyCategory(old(store.categories[id]), ValidateCategory(p).value), slugify))
      && store.categories == old(store.categories)[id := r.value]
      && store.authors == old(store.authors) && store.books == old(store.books) && store.users == old(store.users)
  {
    var v := ValidateCategory(p);
    if v.Failure? {
      return Failure(v.error);
    }
    var saved := store.SaveCategory(ApplyCategory(store.categories[id], v.value), slugify);
    return Success(saved);
  }

  /** `serializer.save()` creating or updating an Author (`instance` names the row to update). */
  method WriteAuthor(store: Catalog, instance: Option<Uuid>, p: map<string, Json>, newId: Uuid)
    returns (r: Result<Author, Errors>)
    requires store.Valid()
    requires instance.Some? ==> instance.value in store.authors
    requires instance.None? ==> newId !in store.authors
    modifies store
    ensures store.Valid()
    ensures ValidateAuthor(p).Failure? ==> r == Failure(ValidateAuthor(p).error) && unchanged(store)
    ensures ValidateAuthor(p).Success? ==>
      var row := if instance.Some? then old(store.authors[instance.value]) else NewAuthor(newId);
      && r == Success(ApplyAuthor(row, ValidateAuthor(p).value))
      && store.authors == old(store.authors)[row.id := r.value]
      && store.categories == old(store.categories) && store.books == old(store.books) && store.users == old(store.users)
  {
    var v := ValidateAuthor(p);
    if v.Failure? {
      return Failure(v.error);
    }
    var row := if instance.Some? then store.authors[instance.value] else NewAuthor(newId);
    var a := ApplyAuthor(row, v.value);
    store.SaveAuthor(a);
    return Success(a);
  }

  /**
   * `serializer.save()` creating or updating a Book: validate, write the
   * fields onto the row (a fresh one for a create), then `Book.save`, whose
   * hooks run on every save. `draw` is what the ISBN generator would draw.
   */
  method WriteBook(
    store: Catalog, instance: Option<Uuid>, p: map<string, Json>, newId: Uuid,
    slugify: string -> string, draw: IsbnDraw)
    returns (r: Result<Book, Errors>)
    requires store.Valid() && ValidDraw(draw)
    requires instance.Some? ==> instance.value in store.books
    requires instance.None? ==> newId !in store.books
    modifies store
    ensures store.Valid()
    ensures ValidateBook(old(store.categories), old(store.authors), p).Failure? ==>
      r == Failure(ValidateBook(old(store.categories), old(store.authors), p).error) && unchanged(store)
    ensures ValidateBook(old(store.categories), old(store.authors), p).Success? ==>
      var row := if instance.Some? then old(store.books[instance.value]) else NewBook(newId);
      var d := ValidateBook(old(store.categories), old(store.authors), p).value;
      && r == Success(BookBeforeSave(ApplyBook(row, d), slugify, Isbn.GeneratedIsbn(draw.prefix, draw.body)))
      && store.books == old(store.books)[row.id := r.value]
      && store.categories == old(store.categories) && store.authors == old(store.authors) && store.users == old(store.users)
  {
    var v := ValidateBook(store.categories, store.authors, p);
    if v.Failure? {
      return Failure(v.error);
    }
    var row := if instance.Some? then store.books[instance.value] else NewBook(newId);
    ValidatedBookRefsValid(store.categories, store.authors, p, row);
    var saved := store.SaveBook(ApplyBook(row, v.value), slugify, draw);
    return Success(saved);
  }
}
