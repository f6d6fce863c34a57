# Library catalogue — Dafny model

A model of the in-memory book catalogue behind a small browser "library" page
(`main.js`). The page keeps an ordered array of `Book` records (title, author,
page count, read flag) inside a `Library` object. A form adds new books after a
validation check. Each book is rendered as a card that shows a sentence and has
two buttons: one flips the read flag and one removes the book. A `Library`
with three sample books is created at start-up.

Modules:

- `Text` (`text.dfy`): `String.prototype.trim` over the ECMAScript white-space
  and line-terminator code points, and the decimal digits of a whole number
  (what a template literal prints for integers below 2^53), proved to read
  back as that number.
- `Sequences` (`sequences.dfy`): `Array.prototype.indexOf` (strict equality)
  and the filter that `removeFromLibrary` runs. The filter keeps every element
  whose *first* index differs from the given position. Lemmas pin down what
  that filter does: nothing when the index is out of range; every copy of the
  element when the index is that element's first occurrence; only that
  position when the array has no duplicates.
- `Catalogue` (`catalogue.dfy`): `Book` is a class, because `changeRead`
  updates `hasRead` in place and `indexOf` compares object identity. `Library`
  is a class whose `books` field (the source's `library` array) its methods
  reassign. The module also holds the card sentence and the two card buttons as
  bound at render time.
- `Intake` (`intake.dfy`): the submit-time check as a pure function, the submit
  handler as a method that either leaves the library alone or appends one fresh
  book, the seed books, and the toggle-then-remove walk-through from the seed
  state.

The page count is stored as the raw form text for books the user enters and as
a number for the seed books, so `PageCount` is `Entered(text) | Seeded(count)`.
The `isNaN` test is a parameter `numeric: string -> bool` that stands for
`!isNaN(·)`.

The code does not check that the page count is positive: zero and negative
numeric counts are accepted. A rejected form returns silently and reports no
error kind.

## Model

| member | source | states |
|---|---|---|
| Text.IsWhiteSpace | main.js:172-173 | the code points `trim` strips: ECMAScript WhiteSpace and LineTerminator |
| Text.Trim | main.js:172-173 | the result is a slice of the input with only white space cut from both ends; it is empty exactly when every character is white space, and a non-empty result starts and ends with a non-white-space character |
| Text.TrimIdempotent | main.js:172-173 | trimming an already trimmed string changes nothing |
| Text.LeadingSpace | main.js:172-173 | counts the leading white space: all counted characters are white space and the next one is not |
| Text.TrailingSpace | main.js:172-173 | counts the trailing white space: all counted characters are white space and the one before them is not |
| Text.NatToDecimal | main.js:111-113 | a whole number prints as at least one decimal digit, with no leading zero unless the number is zero |
| Text.DecimalRoundTrip | main.js:111-113 | reading the printed digits back gives the original number |
| Sequences.IndexOf | main.js:74 | returns -1 exactly when the element is absent; otherwise the index of its first occurrence |
| Sequences.Removed | main.js:73-75 | the new array holds exactly the elements whose first index is not the removed position, and is no longer than the old one |
| Sequences.KeepNotFirstAt | main.js:73-75 | the filter keeps exactly the elements whose first index is not the given position |
| Sequences.Without | main.js:73-76 | reference removal: drops exactly the copies of one value, so the length falls by that value's multiplicity |
| Sequences.RemovedCharacterised | main.js:72-76 | removal at i equals dropping every copy of s[i] when i is s[i]'s first occurrence, and is the identity otherwise |
| Sequences.RemovedOutOfRange | main.js:73-75 | an index below 0 or at or past the end removes nothing |
| Sequences.RemovedDistinct | main.js:73-76 | with no duplicates and a valid index, removal equals s[..i] + s[i+1..], one shorter |
| Sequences.RemovedByCard | main.js:105-138 | the remove button carries indexOf(book), so clicking the card of s[k] removes every copy of s[k] |
| Sequences.RemovedKeepsDistinct | main.js:73-76 | removal never creates a duplicate |
| Catalogue.PagesText | main.js:111-113 | `${book.numPages}`: raw form text is shown verbatim; a seed book's number is shown as canonical digits (no leading zero) that read back as that number |
| Catalogue.ReadLabel | main.js:113 | the read-state wording: "has read" for a read book, "not read yet" otherwise |
| Catalogue.CardText | main.js:111-113 | the card sentence begins "Book written by " and the author, carries the page text two characters after the author, and ends with "." |
| Catalogue.CardTextLayout | main.js:111-113 | the card sentence has ", " right after the author, " pages, " right after the page text, and the read-state label just before the final "." |
| Catalogue.CardShowsReadState | main.js:113 | the read flag can be recovered from the card sentence: it ends in "has read." exactly when the book is read |
| Catalogue.Book.Card | main.js:111-113 | a book's card sentence starts with "Book written by " and its author, and reports its read flag |
| Catalogue.Book.constructor | main.js:17-22 | a new book holds the four given values; hasRead defaults to false |
| Catalogue.Book.ChangeRead | main.js:38-49 | negates hasRead of library[bookId] and keeps its title, author and page count; only that object may change |
| Catalogue.ChangeReadTwice | main.js:38-49 | toggling the same index twice restores the toggled book's title, author, page count and read flag, and every book's read flag |
| Catalogue.Library.constructor | main.js:56-58 | a new library is empty |
| Catalogue.Library.AddBookToLibrary | main.js:63-65 | the new array is the old one with the book appended: one longer, the book last, earlier elements in place |
| Catalogue.Library.RemoveFromLibrary | main.js:72-78 | the new array is the filtered one; out-of-range indices change nothing; with distinct books exactly position bookId goes; distinctness is kept |
| Catalogue.Library.ClickChangeRead | main.js:105-123 | the change-read button of the card drawn for books[k] toggles that book and no field besides hasRead; after the re-render card k reports the flipped flag and the card of every other book is unchanged |
| Catalogue.Library.ClickRemove | main.js:105-139 | the remove button of the card drawn for books[k] drops every copy of that book; with distinct books exactly position k; distinctness is kept |
| Catalogue.Library.Cards | main.js:85-113 | one card sentence per book, in library order; card k names the author of books[k] and reports its read flag |
| Intake.Accepts | main.js:171-176 | the form passes exactly when title and author each contain a non-white-space character and the page text is non-empty and numeric; there is no positivity check |
| Intake.AcceptsIgnoresPadding | main.js:172-173 | padding the title or the author with blank text on either side does not change the verdict |
| Intake.Submit | main.js:165-180 | a rejected form leaves the library unchanged; an accepted one appends one fresh book with the raw title, author, page text and read flag; distinctness is kept |
| Intake.InitialLibrary | main.js:221-226 | after start-up the library holds exactly the three fresh seed books in order: The Hobbit, A Dog's Life, It |
| Intake.ToggleThenRemove | main.js:221-226 | from the seed state, toggling card 0 and removing card 1 leaves The Hobbit (read) followed by It (not read) |

## Left out

- DOM construction and styling (element creation, `cssText`, clearing the container, appending children, `dataset` attributes): presentation only. The card sentence and the button indices are the only parts modelled.
- Event listeners, `dialog.showModal()` / `dialog.close()` and clearing the form fields after a submit: browser event handling and modal UI.
- The re-render calls after each mutation (`refreshLibrary`): a presentation side effect that does not change the catalogue.
- `Book.info()`: it reads the global `hasRead` (on the page, the `#hasRead` checkbox) rather than `this.hasRead`, so its label does not follow the book; it is never called.
- Intake.Accepts: the JavaScript coercion behind `isNaN` on a string (white space becoming 0, hex and exponent forms, `Infinity`) is not modelled; it is the `numeric` parameter.
- The string-to-number coercion `+bookId` of the button's `dataset` value: indices are integers in the model.
- Catalogue.Book.ChangeRead: requires a valid index. An out-of-range `changeRead` index is not a no-op: `library[bookId]` is undefined there and the access to its `hasRead` throws, so the model does not describe that call. Its only call site passes `indexOf` of a book that was just drawn, which is always in range.
- The `default` branch of `changeRead`'s `switch`: `hasRead` is always a boolean, so that branch cannot be taken.
- Page counts of seed books are whole numbers (`nat`); other JavaScript numbers are not modelled because the source uses none.
- Text.NatToDecimal: matches JavaScript's number-to-text conversion only for integers below 2^53; above that JavaScript prints the shortest round-tripping digits, and from 1e21 on exponent notation. The seed counts 295, 192 and 1138 are well within the bound.
