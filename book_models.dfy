/**
 * The catalog records of book/models.py (Category, Author, Book) and the
 * logic their model classes run: the `save` hooks that fill a blank slug or
 * ISBN, and the SET_NULL rule of `Book.category`.
 *
 * `slugify` is Django's library function; it is a parameter of the hooks and
 * nothing is assumed about its output. Timestamps and the cover image are not
 * part of these records.
 */
module BookModels {
  import opened Base
  import Isbn

  datatype Category = Category(id: Uuid, name: string, description: Option<string>, slug: string)

  datatype Author = Author(id: Uuid, name: string, bio: Option<string>)

  /** `authors` is the many-to-many relation seen from the book; `category` the nullable foreign key. */
  datatype Book = Book(
    id: Uuid,
    title: string,
    description: Option<string>,
    authors: set<Uuid>,
    category: Option<Uuid>,
    publishedDate: Option<string>,
    isbn: Option<string>,
    slug: string)

  /** Python's `not value` for a nullable text column: None and "" are both blank. */
  predicate Blank(s: Option<string>) { s == None || s == Some("") }

  /** The two random choices `generate_isbn13` makes. */
  datatype IsbnDraw = IsbnDraw(prefix: string, body: nat)

  /** The draws the source makes: a prefix of "978" or "979" and a body in [10^9, 10^10 - 1]. */
  predicate ValidDraw(draw: IsbnDraw)
  {
    Isbn.ValidPrefix(draw.prefix) && Isbn.BodyDrawAsWritten(draw.body)
  }

  /** The draws of the corrected generator: a nine-digit body. */
  predicate CorrectedDraw(draw: IsbnDraw)
  {
    Isbn.ValidPrefix(draw.prefix) && Isbn.BodyDraw(draw.body)
  }

  /** `Category.save` before it persists: derive the slug from the name when the slug is blank. */
  function CategoryBeforeSave(c: Category, slugify: string -> string): (r: Category)
    ensures r.id == c.id && r.name == c.name && r.description == c.description
    ensures c.slug == "" && c.name != "" ==> r.slug == slugify(c.name)
    ensures c.slug != "" || c.name == "" ==> r.slug == c.slug
  {
    if c.slug == "" && c.name != "" then c.(slug := slugify(c.name)) else c
  }

  /** Saving a category again leaves it as the first save left it. */
  lemma CategorySaveIdempotent(c: Category, slugify: string -> string)
    ensures CategoryBeforeSave(CategoryBeforeSave(c, slugify), slugify) == CategoryBeforeSave(c, slugify)
  {
  }

  /**
   * `Book.save` before it persists: derive the slug from the title when the
   * slug is blank, and store `generated`, the value `generate_isbn13` returns,
   * when the ISBN is blank. Both guards run on every save, not only on the first.
   */
  function BookBeforeSave(b: Book, slugify: string -> string, generated: string): (r: Book)
    ensures r.(slug := b.slug, isbn := b.isbn) == b
    ensures b.slug != "" ==> r.slug == b.slug
    ensures b.slug == "" && b.title != "" ==> r.slug == slugify(b.title)
    ensures b.slug == "" && b.title == "" ==> r.slug == ""
    ensures !Blank(b.isbn) ==> r.isbn == b.isbn
    ensures Blank(b.isbn) ==> r.isbn == Some(generated)
  {
    var withSlug := if b.slug == "" && b.title != "" then b.(slug := slugify(b.title)) else b;
    if Blank(withSlug.isbn) then withSlug.(isbn := Some(generated)) else withSlug
  }

  /** After a save with a non-empty generated value the ISBN is no longer blank. */
  lemma BookSaveLeavesIsbnSet(b: Book, slugify: string -> string, generated: string)
    requires generated != ""
    ensures !Blank(BookBeforeSave(b, slugify, generated).isbn)
  {
  }

  /** A second save, whatever the generator would return then, changes neither slug nor ISBN. */
  lemma BookSaveIdempotent(b: Book, slugify: string -> string, first: string, second: string)
    requires first != ""
    ensures BookBeforeSave(BookBeforeSave(b, slugify, first), slugify, second) == BookBeforeSave(b, slugify, first)
  {
    BookSaveLeavesIsbnSet(b, slugify, first);
  }

  /** With the source's generator a blank ISBN is filled with a 14-character value that fails the
      ISBN-13 checksum and exceeds the 13 characters of the `isbn` column; the prefix is the drawn one. */
  lemma BookSaveAsWritten(b: Book, slugify: string -> string, draw: IsbnDraw)
    requires ValidDraw(draw) && Blank(b.isbn)
    ensures var isbn := BookBeforeSave(b, slugify, Isbn.GeneratedIsbn(draw.prefix, draw.body)).isbn;
      && isbn.Some? && |isbn.value| == 14 && !Isbn.ChecksumValid(isbn.value)
      && isbn.value[..3] == draw.prefix
  {
    Isbn.AsWrittenIsFourteenLong(draw.prefix, draw.body);
    var g := Isbn.GeneratedIsbn(draw.prefix, draw.body);
    assert g[..13][..3] == g[..3];
  }

  /** With the corrected generator a blank ISBN is filled with a checksum-valid ISBN-13 that starts with
      the drawn prefix, and a second save keeps it. */
  lemma BookSaveCorrected(b: Book, slugify: string -> string, draw: IsbnDraw, second: string)
    requires CorrectedDraw(draw) && Blank(b.isbn)
    ensures var saved := BookBeforeSave(b, slugify, Isbn.GeneratedIsbn(draw.prefix, draw.body));
      && saved.isbn.Some? && Isbn.ChecksumValid(saved.isbn.value) && saved.isbn.value[..3] == draw.prefix
      && BookBeforeSave(saved, slugify, second) == saved
  {
    Isbn.GeneratedIsbnChecksum(draw.prefix, draw.body);
    Isbn.GeneratedIsbnShape(draw.prefix, draw.body);
    BookSaveIdempotent(b, slugify, Isbn.GeneratedIsbn(draw.prefix, draw.body), second);
  }

  /** The book's references resolve: its category (if any) and all its authors exist. */
  predicate BookRefsValid(categories: map<Uuid, Category>, authors: map<Uuid, Author>, b: Book)
  {
    (b.category.Some? ==> b.category.value in categories) && b.authors <= authors.Keys
  }

  /** `on_delete=SET_NULL` for `Book.category`: what deleting category `cid` does to the books. */
  function ClearCategory(books: map<Uuid, Book>, cid: Uuid): (r: map<Uuid, Book>)
    ensures r.Keys == books.Keys
    ensures forall k :: k in r ==> r[k].category != Some(cid)
    ensures forall k :: k in books && books[k].category == Some(cid) ==> r[k] == books[k].(category := None)
    ensures forall k :: k in books && books[k].category != Some(cid) ==> r[k] == books[k]
  {
    map k | k in books :: if books[k].category == Some(cid) then books[k].(category := None) else books[k]
  }
}
