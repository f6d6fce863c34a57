/** The submit handler of the new-book form and the seed data the page
    starts with. */
module Intake {
  import opened Text
  import opened Sequences
  import opened Catalogue

  /** The validation check on the raw field values. `numeric` stands for
      `!isNaN(·)` applied to the page-count text; its coercion rules are not
      modelled. No positivity check: a numeric zero or negative count passes. */
  function Accepts(title: string, author: string, numPages: string, numeric: string -> bool): (r: bool)
    ensures r <==> !Blank(title) && !Blank(author) && numPages != "" && numeric(numPages)
  {
    !(Trim(title) == "" || Trim(author) == "" || !numeric(numPages) || numPages == "")
  }

  /** Surrounding white space neither helps nor hurts: padding the title or
      the author with blank text on either side keeps the verdict. */
  lemma AcceptsIgnoresPadding(title: string, author: string, numPages: string, numeric: string -> bool,
                              p: string, q: string, p2: string, q2: string)
    requires Blank(p) && Blank(q) && Blank(p2) && Blank(q2)
    ensures Accepts(p + title + q, p2 + author + q2, numPages, numeric) == Accepts(title, author, numPages, numeric)
  {
    BlankConcat(p, title);
    BlankConcat(p + title, q);
    BlankConcat(p2, author);
    BlankConcat(p2 + author, q2);
  }

  /** The submit handler: on a rejected form nothing changes; otherwise one
      new book carrying the raw field values is appended. */
  method Submit(library: Library, title: string, author: string, numPages: string, hasRead: bool,
                numeric: string -> bool)
    returns (added: bool)
    modifies library
    ensures added == Accepts(title, author, numPages, numeric)
    ensures !added ==> library.books == old(library.books)
    ensures added ==> |library.books| == |old(library.books)| + 1
    ensures added ==> library.books[..|old(library.books)|] == old(library.books)
    ensures added ==> var b := library.books[|library.books| - 1];
              fresh(b) && b.title == title && b.author == author &&
              b.numPages == Entered(numPages) && b.hasRead == hasRead
    ensures Distinct(old(library.books)) ==> Distinct(library.books)
  {
    if Trim(title) == "" || Trim(author) == "" || !numeric(numPages) || numPages == "" {
      return false;
    }
    var newBook := new Book(title, author, Entered(numPages), hasRead);
    assert newBook !in library.books;
    library.AddBookToLibrary(newBook);
    added := true;
  }

  /** The page's start-up: an empty library and the three sample books. */
  method InitialLibrary() returns (library: Library)
    ensures fresh(library) && |library.books| == 3 && Distinct(library.books)
    ensures library.books[0].title == "The Hobbit" && library.books[0].author == "J.R.R. Tolkien"
    ensures library.books[0].numPages == Seeded(295) && !library.books[0].hasRead
    ensures library.books[1].title == "A Dog's Life" && library.books[1].author == "Ann M. Martin"
    ensures library.books[1].numPages == Seeded(192) && library.books[1].hasRead
    ensures library.books[2].title == "It" && library.books[2].author == "Steven King"
    ensures library.books[2].numPages == Seeded(1138) && !library.books[2].hasRead
    ensures forall k :: 0 <= k < 3 ==> fresh(library.books[k])
  {
    library := new Library();
    var book := new Book("The Hobbit", "J.R.R. Tolkien", Seeded(295), false);
    var book1 := new Book("A Dog's Life", "Ann M. Martin", Seeded(192), true);
    var book2 := new Book("It", "Steven King", Seeded(1138), false);
    library.AddBookToLibrary(book);
    library.AddBookToLibrary(book1);
    library.AddBookToLibrary(book2);
  }

  /** From the seed state, toggling the first card and then removing the
      second leaves the Hobbit, now read, followed by It. */
  method ToggleThenRemove() returns (library: Library)
    ensures |library.books| == 2
    ensures library.books[0].title == "The Hobbit" && library.books[0].hasRead
    ensures library.books[1].title == "It" && !library.books[1].hasRead
  {
    library := InitialLibrary();
    library.ClickChangeRead(0);
    library.ClickRemove(1);
  }
}
