# Bookshelf catalog core in Dafny

A Dafny model of the logic in the bookshelf Django catalog: Books, Authors, Categories and Users with favorites. It covers:

- **ISBN-13 generation** (`generate_isbn13`). The two random draws, the prefix and the body, are parameters. The checksum loop is a method proved against a specification function. The ISBN-13 / EAN-13 checksum (ISO 2108: weights 1 and 3 alternating, modulus 10) is proved for every value the generator gives with a nine-digit body, the draw the code evidently intended; with the ten-digit body it actually draws, the value is 14 characters long (see "## Findings").
- **The model save hooks.**
  - `Category.save` fills a blank slug from the name.
  - `Book.save` fills a blank slug from the title and a blank ISBN from the generator. Both guards run on every save.
  - The `SET_NULL` rule of `Book.category`.
  - All of these run on a store class (`EntityStore.Catalog`) whose maps from primary key to record are updated in place.
- **The favorite toggle** (`BookViewSet.toggle_favorite`). It is a method that updates the store: it flips one book's membership in the requesting user's favorites and reports `"added"` or `"removed"`.
- **The book serializers** (`CategorySerializer`, `AuthorSerializer`, `BookSerializer`).
  - Read representations as JSON-like values, with the category and authors nested as full records.
  - Validated writes that resolve `category_id` and `author_ids` against the store and ignore read-only keys.
  - The create and update paths that apply a validated payload and save.
- **The user serializers.**
  - `RegisterSerializer.validate` (the two passwords must agree, and the error is keyed `password`).
  - `RegisterSerializer.create`, as a method that drops `password2`, copies and defaults the fields, stores the password only through the hash, and saves.
  - `UserSerializer`: `email` is read-only, favorites are rendered as nested Books, and `favorite_ids` is written as existing Books.

Django's `slugify` and the password hash behind `set_password` are uninterpreted `string -> string` parameters; nothing is assumed about their output. The field rules Django REST framework derives from the model columns are written out in module `Fields`: required, null and blank allowed, maximum length, slug syntax, and primary keys that must resolve. Username and name lengths of the User come from Django's `AbstractUser` (150 characters); that class is not part of this model.

Modules, one file each: `Base`, `Isbn`, `BookModels`, `UserModels`, `EntityStore`, `BookViews`, `Json`, `Fields`, `BookSerializers`, `UserSerializers`.

Three points of the code that are easy to misread:

- The slug and ISBN guards of `Book.save` run on every save, not only when a book is created (book/models.py:94-99). `BookModels.BookSaveIdempotent` shows that a second save changes neither field.
- `created_at` and `updated_at` are in the serializer's `read_only_fields` (book/serializers.py:50), so a write that sends them is not rejected; the values are ignored.
- The comments of `generate_isbn13` call the body "10 random digits" and the base "12 digits" (book/models.py:11, 13, 14). These cannot both hold; see "## Findings". `Book.save` is modelled with the generator as written, so a blank ISBN is filled with the 14-character value the code produces (`BookModels.BookSaveAsWritten`); `BookModels.BookSaveCorrected` shows what the corrected generator would store.

Request payloads are modelled as JSON-shaped values handed to the serializer.

## Model

| member | source | states |
|---|---|---|
| Isbn.ComputeCheckDigit | book/models.py:16-24 | the loop's total is the weighted sum (weight 1 at even, 3 at odd positions) and the result is `(10 - total % 10) % 10` for every digit string |
| Isbn.CheckDigit | book/models.py:24 | the check digit lies in 0..9 and brings the weighted sum to a multiple of 10 |
| Isbn.CompletesToTen | book/models.py:24 | adding `(10 - t % 10) % 10` to any total t gives a multiple of 10 |
| Isbn.CheckDigitCompletes | book/models.py:17-26 | a twelve-digit base followed by its check digit satisfies the ISBN-13 checksum |
| Isbn.DecimalRoundTrip | book/models.py:13-19 | `int(str(n)) == n` for the decimal rendering of the body |
| Isbn.DecimalLength | book/models.py:13 | a number drawn from [10^(k-1), 10^k) renders as exactly k digits with a non-zero first digit |
| Isbn.AsWrittenIsFourteenLong | book/models.py:12-14 | for every draw the source allows, the body has 10 digits with non-zero lead, the base 13 digits and the result 14 characters, which fails the ISBN-13 checksum shape |
| Isbn.AsWrittenExample | book/models.py:13-26 | the draw "978" with 10^9 is allowed and yields "97810000000009" |
| Isbn.GeneratedIsbnShape | book/models.py:12-26 | a value of the corrected (nine-digit) generator is 13 digits: the drawn prefix, a nine-digit body with non-zero lead that reads back as the drawn number, and the check digit of the first twelve |
| Isbn.GeneratedIsbnChecksum | book/models.py:17-26 | every value of the corrected (nine-digit) generator satisfies the ISBN-13 checksum |
| Isbn.GenerateIsbn13 | book/models.py:7-26 | the generator with its draws as parameters returns the prefix, then `str(body)`, then the check digit of that base; over the source's ten-digit draws the value is 14 characters and fails the checksum, over nine-digit draws it is 13 characters and satisfies it |
| BookModels.CategoryBeforeSave | book/models.py:47-50 | a blank slug with a non-blank name becomes `slugify(name)`, otherwise the slug is kept; id, name and description never change |
| BookModels.CategorySaveIdempotent | book/models.py:47-50 | saving a category twice equals saving it once |
| BookModels.BookBeforeSave | book/models.py:93-101 | only slug and isbn can change; a non-blank slug or isbn is kept; a blank slug becomes `slugify(title)` when the title is non-blank and stays blank otherwise; a blank isbn becomes the value the generator returned |
| BookModels.BookSaveLeavesIsbnSet | book/models.py:98-99 | after a save with a non-empty generated value the isbn is not blank |
| BookModels.BookSaveIdempotent | book/models.py:94-99 | a second save, whatever the generator would return then, changes neither slug nor isbn |
| BookModels.BookSaveAsWritten | book/models.py:93-101 | with the source's own draws a blank isbn is filled with a 14-character value that fails the ISBN-13 checksum and exceeds the 13 characters of the column, starting with the drawn prefix |
| BookModels.BookSaveCorrected | book/models.py:93-101 | with the corrected generator a blank isbn is filled with a checksum-valid ISBN-13 starting with the drawn prefix, which a later save keeps |
| BookModels.ClearCategory | book/models.py:74-79 | deleting a category keeps every book; the ones that referenced it get a null category and all others are unchanged |
| EntityStore.BookWriteKeepsStoreValid | book/models.py:73-79 | writing a book whose category and authors exist keeps every reference in the store resolvable |
| EntityStore.Catalog.SaveCategory | book/models.py:47-50 | the saved row is the hooked category, written under its id; the other tables are unchanged |
| EntityStore.Catalog.SaveAuthor | book/models.py:56-59 | the author row is written as given; the other tables are unchanged |
| EntityStore.Catalog.SaveBook | book/models.py:93-101 | the ISBN generator, as written and over the source's draws, runs only for a blank isbn; the saved row is the hooked book with that generator's value, written under its id; the other tables are unchanged |
| EntityStore.Catalog.SaveUser | users/models.py:7-11 | the user row is written; its favorites must be existing books |
| EntityStore.Catalog.DeleteCategory | book/models.py:74-79 | the category row goes; the books become `ClearCategory` of the old books; authors and users are unchanged; the store stays consistent |
| EntityStore.DeleteCategoryKeepsStoreValid | book/models.py:74-79 | after a delete the store is consistent, no book key disappears, and a book's category is null exactly when it was null or was the deleted one |
| BookViews.Toggle | book/views.py:38-42 | the book's membership flips, no other book's membership changes, the status is Removed exactly when the book was present, and the size goes up by one for Added and down by one for Removed |
| BookViews.ToggleTwiceRestores | book/views.py:38-42 | toggling the same book twice restores the favorites and gives two different statuses |
| BookViews.ToggleFavorite | book/views.py:34-42 | an unknown book id is NotFound and changes nothing; otherwise the user's new favorites are those of `Toggle`, the body is `{"status": "removed"}` exactly when the book was a favorite and `{"status": "added"}` exactly when it was not, and no other user, book, author or category changes |
| Fields.TextField | book/models.py:39-40 | a missing key is an error only when required; a present value is accepted exactly when it is text (or null where allowed), non-empty unless blank is allowed, and within the length limit |
| Fields.SlugField | book/models.py:41 | a slug write is accepted exactly when it is blank or matches `^[-a-zA-Z0-9_]+$` within the length limit |
| Fields.ResolvePk | book/serializers.py:20-24 | a primary key is accepted exactly when it names an existing row; an unknown one is reported as not existing |
| Fields.ResolvePks | book/serializers.py:26-31 | a list of keys resolves exactly when every entry names an existing row, and then to those keys in order |
| Fields.PkListField | users/serializers.py:46-52 | a missing list is an error only when required; a present one must be a list whose entries all resolve |
| BookSerializers.CategoryJson | book/serializers.py:6-9 | a category reads as exactly `{id, name, description, slug}` |
| BookSerializers.ValidateCategory | book/serializers.py:6-9 | a write is accepted exactly when name (required, not blank, at most 100), description (nullable) and slug (blank or a slug of at most 50) pass; failures carry errors under those field names only |
| BookSerializers.ApplyCategory | book/serializers.py:6-9 | the validated name is written; absent optional fields keep their value; the id never changes |
| BookSerializers.CategoryRoundTrip | book/serializers.py:6-9 | writing back a well-formed category's read representation is accepted and reproduces the category |
| BookSerializers.AuthorJson | book/serializers.py:12-15 | an author reads as exactly `{id, name, bio}` |
| BookSerializers.ValidateAuthor | book/serializers.py:12-15 | a write is accepted exactly when name (required, not blank, at most 255) and bio (nullable) pass |
| BookSerializers.ApplyAuthor | book/serializers.py:12-15 | the validated name is written, an absent bio keeps its value, the id never changes |
| BookSerializers.AuthorRoundTrip | book/serializers.py:12-15 | writing back a well-formed author's read representation is accepted and reproduces the author |
| BookSerializers.AuthorsJson | book/serializers.py:25 | the nested author list has one Author record per listed id, in that order |
| BookSerializers.BookJson | book/serializers.py:18-50 | a book reads exactly with the keys id, title, description, authors, category, published_date, isbn and slug |
| BookSerializers.BookJsonMembers | book/serializers.py:19-25 | the read representation holds the id, the authors as a list of nested Author records and the category as a nested Category record or null |
| BookSerializers.BookJsonOmitsWriteKeys | book/serializers.py:20-31 | `category_id` and `author_ids` never appear in a read |
| BookSerializers.BookJsonShape | book/serializers.py:19-25 | the category is nested as the full Category record (null when unset), never a bare id; the authors list has one entry per related author, every entry is the Author record of a related author, and every related author appears |
| BookSerializers.AuthorItems | book/serializers.py:25 | every nested author entry carries the id of a listed author and is that author's record, and every listed author appears |
| BookSerializers.CategoryIdField | book/serializers.py:20-24 | `category_id` is accepted exactly when present and naming an existing Category |
| BookSerializers.BookOutcome | book/serializers.py:34-49 | the write succeeds exactly when every field passes; a failing relation field has its own error under `category_id` or `author_ids` |
| BookSerializers.ValidateBook | book/serializers.py:18-50 | on success the category is an existing Category named by `category_id`, the author ids are exactly the entries of `author_ids` and all exist, and the title is the payload's non-blank title of at most 255 characters; a failure is never without errors |
| BookSerializers.BookErrorsCover | book/serializers.py:20-31 | a failing `category_id` or `author_ids` rejects the write with that field's own error |
| BookSerializers.BookWriteNeedsCategory | book/serializers.py:20-24 | a write is rejected on `category_id` unless it names an existing Category; missing means required, unknown means does-not-exist with that id |
| BookSerializers.BookWriteNeedsAuthors | book/serializers.py:26-31 | a write is rejected on `author_ids` when it is missing (required) or any entry is not an existing Author |
| BookSerializers.ValidateBookReadsOnlyWritable | book/serializers.py:34-50 | two payloads that agree on the writable keys validate identically |
| BookSerializers.BookWriteIgnoresReadOnly | book/serializers.py:50 | adding, changing or removing `slug`, `created_at`, `updated_at`, `id`, `authors` or `category` in a payload changes nothing |
| BookSerializers.BookReadIsNotAWrite | book/serializers.py:23-30 | a book's read representation, sent back as a write, lacks both write-only keys and is rejected on both |
| BookSerializers.WriteWithoutRelationsRejected | book/serializers.py:20-31 | a payload with neither `category_id` nor `author_ids` is rejected with "required" on both |
| BookSerializers.ApplyBook | book/serializers.py:18-31 | the category becomes the resolved one, the authors exactly the resolved set, absent optional fields keep their value, id and slug never change |
| BookSerializers.ValidatedBookRefsValid | book/serializers.py:20-31 | a validated write only ever points at existing rows |
| BookSerializers.CreateCategory | book/serializers.py:6-9 | an invalid payload changes nothing; a valid one saves the new category through the save hook |
| BookSerializers.UpdateCategory | book/serializers.py:6-9 | an invalid payload changes nothing; a valid one writes onto the row and runs the save hook again |
| BookSerializers.WriteAuthor | book/serializers.py:12-15 | an invalid payload changes nothing; a valid one writes the new or updated author |
| BookSerializers.WriteBook | book/serializers.py:18-50 | an invalid payload changes nothing; a valid one writes onto the row (fresh for a create) and saves it through `Book.save` with the source's generator and draws |
| UserSerializers.ValidateRegistration | users/serializers.py:23-26 | fails exactly when the passwords differ, with the single error keyed `password`; otherwise returns the attributes unchanged |
| UserSerializers.NewUser | users/serializers.py:28-39 | username and email are copied; first_name, last_name and bio are the supplied value or "" when absent; the credential is the hash of `password`; no favorites |
| UserSerializers.NewUserIgnoresPassword2 | users/serializers.py:29 | `password2` has no influence on the created user |
| UserSerializers.NewUserSeesPasswordOnlyThroughHash | users/serializers.py:37 | two passwords with the same hash give the same user, so the raw password is stored in no field |
| UserSerializers.Create | users/serializers.py:28-39 | pops `password2`, builds the user, sets the hashed password and saves: the user is `NewUser` of the data and is added to the users table, nothing else changes |
| UserSerializers.Register | users/serializers.py:23-39 | mismatched passwords fail on `password` and create no user; matching ones create exactly `NewUser` |
| UserSerializers.RegisteredJson | users/serializers.py:8-21 | the registration response holds username, first_name, last_name, email and bio and neither password |
| UserSerializers.BooksJson | users/serializers.py:44 | one nested Book representation per listed favorite, in that order |
| UserSerializers.UserJson | users/serializers.py:54-62 | a user reads with exactly the keys id, username, first_name, last_name, email, bio and favorites |
| UserSerializers.UserJsonMembers | users/serializers.py:44-62 | the read holds the email, the favorites as a list of Book representations, and no `favorite_ids` or password |
| UserSerializers.BookItems | users/serializers.py:44 | every nested book entry is the representation of a listed book, and every listed book appears |
| UserSerializers.UserJsonFavorites | users/serializers.py:44 | favorites render as one Book representation per favorite, each entry that of a favorite and every favorite present |
| UserSerializers.UserOutcome | users/serializers.py:54-59 | an update succeeds exactly when every writable field passes |
| UserSerializers.ValidateUser | users/serializers.py:42-62 | a given `favorite_ids` must be a list of existing Books and is passed on entry by entry; an absent one leaves favorites untouched; username is required unless partial and is non-blank and at most 150 |
| UserSerializers.ValidateUserReadsOnlyWritable | users/serializers.py:54-62 | two payloads that agree on the writable keys validate identically |
| UserSerializers.UserErrorsAreWritable | users/serializers.py:54-59 | errors are reported only under writable field names |
| UserSerializers.UserWriteIgnoresReadOnly | users/serializers.py:60-62 | adding, changing or removing `email`, `id` or the nested `favorites` in a payload changes nothing |
| UserSerializers.UserWriteNeedsExistingFavorites | users/serializers.py:46-52 | any `favorite_ids` entry that is not an existing Book rejects the update with an error on `favorite_ids` |
| UserSerializers.ApplyUser | users/serializers.py:42-62 | id, email and credential never change; favorites become exactly the listed books when `favorite_ids` is given and stay as they were otherwise |
| UserSerializers.UpdateUser | users/serializers.py:42-62 | an invalid payload changes nothing; a valid one rewrites only that user, keeps the email, and keeps every favorite an existing book |

## Left out

- Timestamps (`created_at`, `updated_at`) and `cover_image`: they are clock- and blob-storage-driven and are not part of the records.
- Search, filter and ordering backends, throttling, permission classes and parsers of the view sets: these are framework behaviour. The only exception is that `IsAuthenticated` on the toggle becomes the precondition that the requesting user exists.
- Uniqueness: `unique=True` columns, the serializers' unique validators and ISBN collisions. The database enforces these, and the code does not handle them.
- The order of nested lists: `authors` and `favorites` are sets in the model and are rendered in an unspecified order. Django orders them by the models' `Meta.ordering`.
- `slugify`, `set_password`'s hash and `validate_password`: these are library functions. They appear as parameters, or not at all in the case of `validate_password`.
- Random draws and `uuid4`: these are parameters.
- Foreign-key integrity on save: the database raises an `IntegrityError` for a book whose category or authors, or a user whose favorites, do not exist. This check is modelled as a precondition of `EntityStore.Catalog.SaveBook` and `EntityStore.Catalog.SaveUser`, which every serializer path meets by resolving the ids first.
- Concurrency and transactions around the toggle's read-modify-write.
- Column lengths the database enforces on save: the model checks them only where the serializers do. A 14-character generated ISBN is stored as is; whether the database rejects it depends on the backend.
- Whitespace trimming of text fields, and date and e-mail format validation: these are DRF field internals.
- Registration field validation for username, email and the name fields: `ValidateRegistration` starts from field-validated attributes.
- Django's username character validator.
- UserSerializers.ValidateRegistration: attributes are text only, so a registration with a null `bio` (which would store null) is not modelled.
- The multipart and form parsers of `BookViewSet` (book/views.py:19): payloads are JSON-shaped values. A primary key in a payload is modelled as `JUuid`, standing for its UUID text, and any other text as `JString`; the string form of a UUID, which DRF also accepts for a key, is not modelled. Under form parsing a missing `author_ids` reads as an empty list, so the "missing means required" clauses of `BookSerializers.BookWriteNeedsAuthors` and `BookSerializers.WriteWithoutRelationsRejected` are stated for JSON payloads only.
- Partial (PATCH) updates of categories, authors and books: only full writes are modelled for these. User updates model both.
- The admin modules: they are configuration only.

## Findings

| source | as written | input that shows it | evidently intended | confidence | as-written member | corrected member |
|---|---|---|---|---|---|---|
| book/models.py:13-14 | the body is drawn from `randint(10**9, 10**10 - 1)`, which is ten digits, so the "12-digit" base has 13 digits and the returned value has 14 characters, which is not an ISBN-13 and is longer than the 13 characters the `isbn` column allows; `Book.save` stores that value for every blank ISBN (`BookModels.BookSaveAsWritten`) | prefix "978", body 1000000000 returns "97810000000009" | a nine-digit body, `randint(10**8, 10**9 - 1)`, so that prefix, body and check digit make a 13-digit ISBN satisfying the checksum, which `Book.save` would then store (`BookModels.BookSaveCorrected`) | high, not executed | Isbn.AsWrittenIsFourteenLong | Isbn.GeneratedIsbnChecksum |
