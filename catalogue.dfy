/** The in-memory catalogue: Book records, whose read status is flipped in
    place, and the Library that owns the ordered array of them. */
module Catalogue {
  import opened Sequences
  import opened Text

  /** A page count as stored: the raw text of the form field for books
      entered by the user, a JavaScript number for the seed books. */
  datatype PageCount = Entered(text: string) | Seeded(count: nat)

  /** The page count as the card's template literal shows it: the raw form
      text verbatim, or the decimal digits of a seed book's number, which read
      back as that number. */
  function PagesText(p: PageCount): (r: string)
    ensures p.Entered? ==> r == p.text
    ensures p.Seeded? ==> (forall k :: 0 <= k < |r| ==> IsDigit(r[k])) && DecimalValue(r) == p.count
    ensures p.Seeded? ==> |r| >= 1 && (r[0] == '0' ==> p.count == 0)
  {
    match p
    case Entered(text) => text
    case Seeded(count) => DecimalRoundTrip(count); NatToDecimal(count)
  }

  /** The read-state wording of a card. */
  function ReadLabel(hasRead: bool): (r: string) {
    if hasRead then "has read" else "not read yet"
  }

  const CardLead := "Book written by "

  /** The sentence a book's card shows under its title. */
  function CardText(author: string, pages: PageCount, hasRead: bool): (r: string)
    ensures |r| == |CardLead| + |author| + 2 + |PagesText(pages)| + 8 + |ReadLabel(hasRead)| + 1
    ensures r[..|CardLead| + |author|] == CardLead + author
    ensures r[|CardLead| + |author| + 2..|CardLead| + |author| + 2 + |PagesText(pages)|] == PagesText(pages)
    ensures r[|r| - 1] == '.'
  {
    CardLead + author + ", " + PagesText(pages) + " pages, " + ReadLabel(hasRead) + "."
  }

  /** The separators of the card sentence: ", " after the author, " pages, "
      after the page text, and the read-state label just before the final ".". */
  lemma CardTextLayout(author: string, pages: PageCount, hasRead: bool)
    ensures var r, n, m := CardText(author, pages, hasRead), |CardLead| + |author|, |PagesText(pages)|;
      r[n..n + 2] == ", " && r[n + 2 + m..n + 10 + m] == " pages, " &&
      r[|r| - 1 - |ReadLabel(hasRead)|..|r| - 1] == ReadLabel(hasRead)
  {
    var head, pagesPart, readPart := CardLead + author, PagesText(pages), ReadLabel(hasRead);
    var x := head + ", ";
    var y := x + pagesPart;
    var z := y + " pages, ";
    var w := z + readPart;
    var r := CardText(author, pages, hasRead);
    assert r == w + ".";
    assert r[|head|..|head| + 2] == x[|head|..] == ", ";
    assert r[|y|..|y| + 8] == z[|y|..] == " pages, ";
    assert r[|z|..|w|] == w[|z|..] == readPart;
  }

  /** Whether a card sentence reports the book as read: it ends in "has read."
      ("not read yet." does not). */
  predicate ShowsRead(text: string) {
    |text| >= 9 && text[|text| - 9..] == "has read."
  }

  /** The card sentence tells the read status apart: the read flag can be
      recovered from the text alone. */
  lemma CardShowsReadState(author: string, pages: PageCount, hasRead: bool)
    ensures ShowsRead(CardText(author, pages, hasRead)) == hasRead
  {
    var r := CardText(author, pages, hasRead);
    var tail := ReadLabel(hasRead) + ".";
    assert r == CardLead + author + ", " + PagesText(pages) + " pages, " + tail;
    assert r[|r| - |tail|..] == tail;
    if !hasRead {
      assert r[|r| - 9..] == tail[|tail| - 9..] == "read yet.";
      assert "read yet."[0] != "has read."[0];
    }
  }

  class Book {
    var title: string
    var author: string
    var numPages: PageCount
    var hasRead: bool

    constructor (title: string, author: string, numPages: PageCount, hasRead: bool := false)
      ensures this.title == title && this.author == author
      ensures this.numPages == numPages && this.hasRead == hasRead
    {
      this.title := title;
      this.author := author;
      this.numPages := numPages;
      this.hasRead := hasRead;
    }

    /** The sentence of this book's card: it names the author and reports
        the read flag. */
    function Card(): (r: string)
      reads this
      ensures |CardLead| + |author| <= |r|
      ensures r[..|CardLead| + |author|] == CardLead + author
      ensures ShowsRead(r) == hasRead
    {
      CardShowsReadState(author, numPages, hasRead);
      CardText(author, numPages, hasRead)
    }

    /** Flips the read status of library[bookId] in place; the receiver plays
        no part. The index must be in range: the source dereferences
        library[bookId] unguarded. */
    method ChangeRead(bookId: int, library: seq<Book>)
      requires 0 <= bookId < |library|
      modifies library[bookId]
      ensures library[bookId].hasRead == !old(library[bookId].hasRead)
      ensures library[bookId].title == old(library[bookId].title)
      ensures library[bookId].author == old(library[bookId].author)
      ensures library[bookId].numPages == old(library[bookId].numPages)
    {
      var target := library[bookId];
      if target.hasRead {
        target.hasRead := false;
      } else {
        target.hasRead := true;
      }
    }
  }

  class Library {
    var books: seq<Book>

    constructor ()
      ensures books == []
    {
      books := [];
    }

    /** addBookToLibrary: push. */
    method AddBookToLibrary(book: Book)
      modifies this
      ensures books == old(books) + [book]
      ensures |books| == |old(books)| + 1 && books[|books| - 1] == book
    {
      books := books + [book];
    }

    /** removeFromLibrary: replaces the array by the filtered one. */
    method RemoveFromLibrary(bookId: int)
      modifies this
      ensures books == Removed(old(books), bookId)
      ensures bookId < 0 || |old(books)| <= bookId ==> books == old(books)
      ensures Distinct(old(books)) && 0 <= bookId < |old(books)| ==>
                books == old(books)[..bookId] + old(books)[bookId + 1..]
      ensures Distinct(old(books)) ==> Distinct(books)
    {
      var kept := Removed(books, bookId);
      RemovedCharacterised(books, bookId);
      if Distinct(books) {
        RemovedKeepsDistinct(books, bookId);
        if 0 <= bookId < |books| {
          RemovedDistinct(books, bookId);
        }
      }
      books := kept;
    }

    /** A click on "Change Read Status" of the card drawn for books[k]: the
        button carries indexOf(book), which always leads back to that book. */
    method ClickChangeRead(k: int)
      requires 0 <= k < |books|
      modifies books[k]
      ensures books[k].hasRead == !old(books[k].hasRead)
      ensures books[k].title == old(books[k].title) && books[k].author == old(books[k].author)
      ensures books[k].numPages == old(books[k].numPages)
      ensures ShowsRead(books[k].Card()) == !ShowsRead(old(books[k].Card()))
      ensures forall j :: 0 <= j < |books| && books[j] != books[k] ==> books[j].Card() == old(books[j].Card())
    {
      var bookId := IndexOf(books, books[k]);
      books[k].ChangeRead(bookId, books);
    }

    /** A click on "Remove Book from Library" of the card drawn for books[k]:
        the button carries indexOf(book), so every copy of that book goes. */
    method ClickRemove(k: int)
      requires 0 <= k < |books|
      modifies this
      ensures books == Without(old(books), old(books)[k])
      ensures old(books)[k] !in books
      ensures Distinct(old(books)) ==> books == old(books)[..k] + old(books)[k + 1..]
      ensures Distinct(old(books)) ==> Distinct(books)
    {
      RemovedByCard(books, k);
      if Distinct(books) {
        RemovedDistinct(books, k);
        assert IndexOf(books, books[k]) == k;
      }
      RemoveFromLibrary(IndexOf(books, books[k]));
    }

    /** The card sentences the render loop draws, one per book in library
        order: card k names the author of books[k] and reports its read flag. */
    function Cards(): (r: seq<string>)
      reads this, books
      ensures |r| == |books|
      ensures forall k :: 0 <= k < |r| ==>
                |CardLead| + |books[k].author| <= |r[k]| &&
                r[k][..|CardLead| + |books[k].author|] == CardLead + books[k].author &&
                ShowsRead(r[k]) == books[k].hasRead
    {
      seq(|books|, k reads this, books requires 0 <= k < |books| => books[k].Card())
    }
  }

  /** Toggling library.books[bookId] twice restores every book to what it
      was. */
  method ChangeReadTwice(library: Library, bookId: int)
    requires 0 <= bookId < |library.books|
    modifies library.books[bookId]
    ensures library.books[bookId].hasRead == old(library.books[bookId].hasRead)
    ensures library.books[bookId].title == old(library.books[bookId].title)
    ensures library.books[bookId].author == old(library.books[bookId].author)
    ensures library.books[bookId].numPages == old(library.books[bookId].numPages)
    ensures forall b :: b in library.books ==> b.hasRead == old(b.hasRead)
  {
    var target := library.books[bookId];
    target.ChangeRead(bookId, library.books);
    target.ChangeRead(bookId, library.books);
  }
}
