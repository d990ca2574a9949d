# Notes API: the note store and the note entity, in Dafny

This project models the decision logic of a small notes service: the note
entity (`Note.java`) and the in-memory note store (`NoteService.java`).

- `wrappers.dfy`, module `Wrappers`: `Option`, standing for Java's `null`
  and `Optional`.
- `model.dfy`, module `Model`: the note's five fields as a value
  (`NoteData`), with a null field written as `None`. Also the `@NotBlank`
  and `@Size` constraints on title and body, with the violation messages
  they carry, and `equals`/`hashCode` by id only (`hashCode` is computed
  exactly as `Objects.hash(id)` does it, 32-bit wrap-around included).
  The mutable bean is the class `Note`: its two constructors, five
  setters, `Equals` and `HashCode`.
- `service.dfy`, module `Service`: the store's state as a value (`Store`:
  the table from id to note, and the counter `next`, which starts at 1).
  `Get`, `Create`, `Update` and `Delete` state the operations on that
  value. `Invariant` is the representation invariant: every key is its
  note's id, lies in `[1, next)`, and its note has both timestamps.
  Lemmas cover each operation and any sequence of operations (`Run`):
  - the counter advances by exactly one per create and never goes back;
  - issued ids strictly increase;
  - a deleted id never comes back;
  - the invariant always holds;
  - with valid inputs, every stored note stays valid;
  - with a clock that never goes back, every stored note keeps
    `createdAt <= updatedAt`.

  The class `NoteService` is the stateful store. Its fields `notes` and
  `next` are reassigned by `CreateNote`, `UpdateNote` and `DeleteNote`.
  Each method is proved to move `State()` exactly as the matching
  function does, and to keep `Valid()`.

The clock (`LocalDateTime.now()`) is passed in as parameters, one per
reading. `Note(title, body)` and `createNote` each read the clock twice:
once for `createdAt` and once for `updatedAt`. So the two timestamps are
equal only when the two readings agree. The model keeps the two readings
apart rather than assuming they are the same instant.

## Model

| member | source | states |
|---|---|---|
| `Model.Utf16Length` | src/main/java/com/example/notesapi/model/Note.java:16 | The length `@Size` measures is in UTF-16 code units: between the number of characters and twice it, and equal to it when every character lies in the Basic Multilingual Plane |
| `Model.TrimLeading` | src/main/java/com/example/notesapi/model/Note.java:15 | The leading half of `String.trim`, which the `@NotBlank` validator applies: the result is a suffix of the input, every character dropped before it is at or below U+0020, it is empty exactly when every character is at or below U+0020, and otherwise starts with a character above U+0020 |
| `Model.TrimTrailing` | src/main/java/com/example/notesapi/model/Note.java:15 | The trailing half of `String.trim`: the result is a prefix of the input, every character dropped after it is at or below U+0020, it is empty exactly when every character is at or below U+0020, and otherwise ends with a character above U+0020 |
| `Model.NotBlankIffVisibleChar` | src/main/java/com/example/notesapi/model/Note.java:15 | A non-null value passes `@NotBlank` exactly when some character is above U+0020 |
| `Model.BlankExamples` | src/main/java/com/example/notesapi/model/Note.java:15 | An em space (U+2003) alone passes `@NotBlank`; U+0001 alone, and spaces and tabs alone, do not |
| `Model.FieldViolations` | src/main/java/com/example/notesapi/model/Note.java:15-21 | One field's violations: the "required" message exactly when the value is null or blank after trim; the "too long" message exactly when it is longer than the bound; none exactly when both constraints hold; nothing else |
| `Model.Violations` | src/main/java/com/example/notesapi/model/Note.java:15-23 | A note has no violations exactly when its title and body are valid. A field is named exactly when it is invalid. Each of the four messages appears exactly when its constraint fails, and nothing else appears (null title: only "Title is required") |
| `Model.LongHash` | src/main/java/com/example/notesapi/model/Note.java:90-93 | `Long.hashCode`: the two 32-bit halves of the id's 64-bit pattern xor-ed; always a 32-bit int |
| `Model.IdHash` | src/main/java/com/example/notesapi/model/Note.java:90-93 | `Objects.hash(id)` is a 32-bit int, and is 31 for a null id |
| `Model.SmallIdHash` | src/main/java/com/example/notesapi/model/Note.java:90-93 | For every id the store can issue in practice (0 to 2^31 - 32), the hash is 31 + id, so distinct such ids hash differently |
| `Model.Note.Empty` | src/main/java/com/example/notesapi/model/Note.java:31-32 | `Note()` leaves all five fields null |
| `Model.Note.constructor` | src/main/java/com/example/notesapi/model/Note.java:34-39 | `Note(title, body)` sets title and body, leaves the id null, and takes createdAt and updatedAt from two clock readings |
| `Model.Note.SetId` | src/main/java/com/example/notesapi/model/Note.java:46-48 | Changes the id and leaves the other four fields as they were |
| `Model.Note.SetTitle` | src/main/java/com/example/notesapi/model/Note.java:54-56 | Changes the title and leaves the other four fields as they were |
| `Model.Note.SetBody` | src/main/java/com/example/notesapi/model/Note.java:62-64 | Changes the body and leaves the other four fields as they were |
| `Model.Note.SetCreatedAt` | src/main/java/com/example/notesapi/model/Note.java:70-72 | Changes createdAt and leaves the other four fields as they were |
| `Model.Note.SetUpdatedAt` | src/main/java/com/example/notesapi/model/Note.java:78-80 | Changes updatedAt and leaves the other four fields as they were |
| `Model.Note.Equals` | src/main/java/com/example/notesapi/model/Note.java:83-88 | `equals` holds exactly when the argument is a non-null note with the same id; the same-object shortcut agrees with that |
| `Model.Note.HashCode` | src/main/java/com/example/notesapi/model/Note.java:90-93 | `hashCode` is a 32-bit int that depends only on the id |
| `Model.EqualsIsEquivalence` | src/main/java/com/example/notesapi/model/Note.java:83-88 | `equals` on notes is reflexive, symmetric and transitive, and false against null |
| `Model.EqualsImpliesEqualHashCode` | src/main/java/com/example/notesapi/model/Note.java:83-93 | Notes that are `equals` have the same `hashCode` |
| `Service.EmptyStore` | src/main/java/com/example/notesapi/service/NoteService.java:13-14 | A new store (no notes, counter 1) satisfies the invariant. Get, update (with any title, body and clock reading) and delete of any id there report absent or false and leave the store empty, 999 included. It holds no timestamps, so the clock condition of `RunKeepsTimestampOrder` holds from the start |
| `Service.GetFindsStoredNote` | src/main/java/com/example/notesapi/service/NoteService.java:20-22 | Get finds a note exactly when the id is a key, and the note found carries that id |
| `Service.CreateSpec` | src/main/java/com/example/notesapi/service/NoteService.java:24-30 | Create overwrites any caller id and timestamps. The note gets the counter's old value as id, which no stored note has. The counter grows by exactly one. A following get returns the note with the caller's title and body and the two clock readings. Other entries are untouched and the invariant is kept |
| `Service.CreateTwice` | src/main/java/com/example/notesapi/service/NoteService.java:24-30 | Two successive creates return different ids, the second larger, and both notes can be fetched afterwards |
| `Service.CreateKeepsContentValid` | src/main/java/com/example/notesapi/service/NoteService.java:24-30 | If every stored note is valid and the new note's title and body are valid, every stored note is still valid after create |
| `Service.UpdatePresent` | src/main/java/com/example/notesapi/service/NoteService.java:32-38 | Update of a stored id returns the note with the new title and body and updatedAt set to now. Id and createdAt stay the same. A following get returns it. Other entries and the counter are unchanged and the invariant is kept |
| `Service.UpdateAbsent` | src/main/java/com/example/notesapi/service/NoteService.java:39-40 | Update of an id that is not stored returns empty and leaves the store exactly as it was |
| `Service.UpdateIsLater` | src/main/java/com/example/notesapi/service/NoteService.java:32-38 | If the clock has moved past the note's creation, the updated note's updatedAt is strictly after its createdAt |
| `Service.UpdateKeepsContentValid` | src/main/java/com/example/notesapi/service/NoteService.java:32-38 | If every stored note is valid and the new title and body are valid, every stored note is still valid after update |
| `Service.DeleteSpec` | src/main/java/com/example/notesapi/service/NoteService.java:43-45 | Delete returns true exactly when the id was a key. Afterwards get of that id is empty and a second delete returns false. Other entries and the counter are unchanged. The invariant and content validity are kept |
| `Service.ListingAfterCreates` | src/main/java/com/example/notesapi/service/NoteService.java:16-18 | Listing a new store gives the empty sequence. After two creates, any listing has exactly two elements: the two created notes |
| `Service.RunKeepsInvariant` | src/main/java/com/example/notesapi/service/NoteService.java:13-45 | Every sequence of creates, updates and deletes keeps the representation invariant |
| `Service.RunKeepsContentValid` | src/main/java/com/example/notesapi/service/NoteService.java:24-45 | Every sequence of operations whose creates and updates carry valid titles and bodies keeps every stored note valid |
| `Service.RunKeepsTimestampOrder` | src/main/java/com/example/notesapi/service/NoteService.java:24-38 | With a clock that never goes back (createNote's createdAt reading before its updatedAt reading, every later reading no earlier), every stored note keeps createdAt <= updatedAt over any sequence of operations. A new store meets the starting condition (`EmptyStore`) |
| `Service.IssuedIdsIncrease` | src/main/java/com/example/notesapi/service/NoteService.java:14-30 | Over any sequence of operations, the counter ends at its start value plus the number of creates. The ids issued are consecutive from the start value, so they strictly increase and are all distinct |
| `Service.NewKeysAreIssued` | src/main/java/com/example/notesapi/service/NoteService.java:24-45 | A key present after a sequence of operations was present before it or was issued by one of its creates (update and delete add no key) |
| `Service.DeletedIdNeverReturns` | src/main/java/com/example/notesapi/service/NoteService.java:14-45 | After a note is deleted, no later sequence of operations issues its id again or makes it a key again |
| `Service.NoteService.constructor` | src/main/java/com/example/notesapi/service/NoteService.java:13-14 | A new service has an empty table and the counter at 1, and satisfies its invariant |
| `Service.NoteService.GetAllNotes` | src/main/java/com/example/notesapi/service/NoteService.java:16-18 | Returns each stored note exactly once, in some order: as many elements as keys, no duplicates, every element a stored note found under its own id, and every stored note present |
| `Service.NoteService.GetNoteById` | src/main/java/com/example/notesapi/service/NoteService.java:20-22 | Returns the stored note when the id is a key and empty otherwise; a note found carries the id asked for; the state is not changed |
| `Service.NoteService.CreateNote` | src/main/java/com/example/notesapi/service/NoteService.java:24-30 | Stamps the caller's note with the next id and the two clock readings. Stores its fields under that id, advances the counter and returns the same note. The new state and note are those of `Create`. The invariant is kept |
| `Service.NoteService.UpdateNote` | src/main/java/com/example/notesapi/service/NoteService.java:32-41 | New state and result are those of `Update`, with the title and body taken from the details note. A null details note is accepted for an id that is not stored, which gives empty and an unchanged store. The invariant is kept |
| `Service.NoteService.DeleteNote` | src/main/java/com/example/notesapi/service/NoteService.java:43-45 | New state and result are those of `Delete`. The invariant is kept |

## Left out

- The HTTP controller (`NoteController.java`) is not part of this model. It maps the store's results to status codes and to `NoteNotFoundException`.
- Bean-validation dispatch (`@Valid`) and the Swagger annotations are not modelled. Only the constraints they enforce are: `Violations` and the `Valid*` predicates. The store does not validate; `RunKeepsContentValid` shows validity holds when callers pass valid content.
- `NotBlank` follows Hibernate Validator, the Bean Validation implementation Spring Boot uses, which tests `trim().length() > 0`: a value is blank when every character is at or below U+0020. The annotation's wording ("a non-whitespace character") reads closer to `Character.isWhitespace`; the two differ on, for example, U+2003 alone (not blank here) and U+0001 alone (blank here). The validator's source is not part of this model.
- Strings are sequences of Unicode scalar values, so a Java `String` holding an unpaired surrogate (for example from a JSON `"\uD800"` escape) cannot be represented; `@Size` would count such a unit as one and `trim` would keep it.
- `LocalDateTime.now()` is a foreign call. Each reading is a `nat` parameter, and timestamps are `nat` instants, so sub-second precision and calendar rendering are not modelled. Timestamp order holds only for a clock that never goes back (`RunKeepsTimestampOrder`), and the strict "updated after created" check holds only for one that advances (`UpdateIsLater`).
- Concurrency is not modelled (`AtomicLong`, the unsynchronized `HashMap`). The store is single-threaded.
- `HashMap` iteration order is not modelled. `GetAllNotes` takes the keys in an arbitrary order, and its contract fixes none.
- `toString` is left out: it renders `LocalDateTime` through a foreign call.
- The getters are left out: the model reads the fields directly.
- Java object aliasing is not modelled. The store keeps note values. In Java, `createNote` stores the caller's own object, and `updateNote` mutates the stored object that earlier callers may still hold. A caller who calls `setId` on a returned note, or passes a stored note to `createNote` again, can break "each key is its note's id" in Java. The model cannot express this; the controller never does it.
- `Model.Note.Equals`: only `Note` or null arguments are modelled. An argument of another class, which Java's `equals` rejects through `getClass()`, is not modelled.
- Null `id` arguments are not modelled: a `HashMap` lookup with a null key finds nothing. A null `note` in `createNote` is not modelled; it throws `NullPointerException` at its first setter. A null `noteDetails` in `updateNote` is modelled only for an id that is not stored, where it is never read and the result is empty; for a stored id it throws, and the method's precondition excludes that case. Ids are `int` and the note passed to `createNote` is a non-null reference; the controller always supplies them.
- The counter and ids are unbounded integers, so `Long` overflow of the counter is not modelled. `LongHash` reduces its argument modulo 2^64, so it matches Java for every id in `Long` range.
