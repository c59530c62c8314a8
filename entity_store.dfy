/**
 * The entity store: the tables behind the Django models, held as maps from
 * primary key to record and updated in place by the save and delete
 * operations the models define.
 */
module EntityStore {
  import opened Base
  import opened BookModels
  import opened UserModels
  import Isbn

  /** Referential integrity of a store state: every key names its own record, every foreign key and
      many-to-many link points at an existing row. */
  predicate StoreValid(
    categories: map<Uuid, Category>, authors: map<Uuid, Author>,
    books: map<Uuid, Book>, users: map<Uuid, User>)
  {
    && (forall k :: k in categories ==> categories[k].id == k)
    && (forall k :: k in authors ==> authors[k].id == k)
    && (forall k :: k in books ==> books[k].id == k && BookRefsValid(categories, authors, books[k]))
    && (forall k :: k in users ==> users[k].id == k && users[k].favorites <= books.Keys)
  }

  /** Writing a book whose links point at existing rows keeps the store consistent. */
  lemma BookWriteKeepsStoreValid(
    categories: map<Uuid, Category>, authors: map<Uuid, Author>,
    books: map<Uuid, Book>, users: map<Uuid, User>, b: Book)
    requires StoreValid(categories, authors, books, users)
    requires BookRefsValid(categories, authors, b)
    ensures StoreValid(categories, authors, books[b.id := b], users)
  {
  }

  class Catalog {
    var categories: map<Uuid, Category>
    var authors: map<Uuid, Author>
    var books: map<Uuid, Book>
    var users: map<Uuid, User>

    ghost predicate Valid()
      reads this
    {
      StoreValid(categories, authors, books, users)
    }

    constructor ()
      ensures Valid()
      ensures categories == map[] && authors == map[] && books == map[] && users == map[]
    {
      categories, authors, books, users := map[], map[], map[], map[];
    }

    /** `Category.save`: fill a blank slug from the name, then write the row. */
    method SaveCategory(c: Category, slugify: string -> string) returns (saved: Category)
      requires Valid()
      modifies this
      ensures saved == CategoryBeforeSave(c, slugify)
      ensures categories == old(categories)[c.id := saved]
      ensures authors == old(authors) && books == old(books) && users == old(users)
      ensures Valid()
    {
      saved := c;
      if saved.slug == "" && saved.name != "" {
        saved := saved.(slug := slugify(saved.name));
      }
      categories := categories[c.id := saved];
    }

    /** `Author.save`: the model has no hook, the row is written as given. */
    method SaveAuthor(a: Author)
      requires Valid()
      modifies this
      ensures authors == old(authors)[a.id := a]
      ensures categories == old(categories) && books == old(books) && users == old(users)
      ensures Valid()
    {
      authors := authors[a.id := a];
    }

    /**
     * `Book.save`: fill a blank slug from the title and a blank ISBN from the
     * generator, then write the row. `draw` stands for the random choices the
     * generator makes; the generator runs only when the ISBN is blank.
     */
    method SaveBook(b: Book, slugify: string -> string, draw: IsbnDraw) returns (saved: Book)
      requires Valid() && ValidDraw(draw)
      requires BookRefsValid(categories, authors, b)
      modifies this
      ensures saved == BookBeforeSave(b, slugify, Isbn.GeneratedIsbn(draw.prefix, draw.body))
      ensures books == old(books)[b.id := saved]
      ensures categories == old(categories) && authors == old(authors) && users == old(users)
      ensures Valid()
    {
      saved := b;
      if saved.slug == "" && saved.title != "" {
        saved := saved.(slug := slugify(saved.title));
      }
      if Blank(saved.isbn) {
        var isbn := Isbn.GenerateIsbn13(draw.prefix, draw.body);
        saved := saved.(isbn := Some(isbn));
      }
      assert saved == BookBeforeSave(b, slugify, Isbn.GeneratedIsbn(draw.prefix, draw.body));
      BookWriteKeepsStoreValid(categories, authors, books, users, saved);
      books := books[b.id := saved];
    }

    /** Writing a user row; its favorites must be existing books. */
    method SaveUser(u: User)
      requires Valid()
      requires u.favorites <= books.Keys
      modifies this
      ensures users == old(users)[u.id := u]
      ensures categories == old(categories) && authors == old(authors) && books == old(books)
      ensures Valid()
    {
      users := users[u.id := u];
    }

    /**
     * Deleting a category: the row goes, and by `on_delete=SET_NULL` every book
     * that referenced it keeps existing with its category cleared.
     */
    method DeleteCategory(id: Uuid)
      requires Valid()
      modifies this
      ensures categories == old(categories) - {id}
      ensures books == ClearCategory(old(books), id)
      ensures authors == old(authors) && users == old(users)
      ensures Valid()
    {
      books := ClearCategory(books, id);
      categories := categories - {id};
    }
  }

  /** What deleting a category does, stated on store states: exactly the books that referenced it
      lose their category, no book disappears, and the store stays consistent. */
  lemma DeleteCategoryKeepsStoreValid(
    categories: map<Uuid, Category>, authors: map<Uuid, Author>,
    books: map<Uuid, Book>, users: map<Uuid, User>, id: Uuid)
    requires StoreValid(categories, authors, books, users)
    ensures StoreValid(categories - {id}, authors, ClearCategory(books, id), users)
    ensures ClearCategory(books, id).Keys == books.Keys
    ensures forall k :: k in books ==>
      (ClearCategory(books, id)[k].category == None <==> books[k].category == None || books[k].category == Some(id))
  {
    var after := ClearCategory(books, id);
    forall k | k in after
      ensures after[k].id == k && BookRefsValid(categories - {id}, authors, after[k])
    {
      if books[k].category == Some(id) {
        assert after[k] == books[k].(category := None);
      } else {
        assert after[k] == books[k];
      }
    }
  }
}
