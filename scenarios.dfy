/**
 * Worked examples checked by the verifier: the lending trace through the class, and
 * three traces on concrete tables showing that the tables can come to disagree about
 * who holds a book, which the writes do not prevent.
 */
module Scenarios {
  import opened Records
  import opened Lending
  import Q = Queries
  import C = Canister

  /** Issue a card, register "Dune", borrow it, return it; then borrow on a card never issued. */
  method LendDune(owner: Principal, k: Nat64)
    requires k != 999
  {
    var library := new C.Library();
    var card := library.IssueCard(k, owner);
    assert card == LibraryCard(k, owner, [], true);
    var book := library.CreateBook("Dune");
    assert book == Book("Dune", false);
    var r := library.IssueBook(k, "Dune");
    assert r == Ok(Book("Dune", true));
    assert Q.ListBorrowedBooks(library.State(), k) == ["Dune"];
    r := library.ReturnBook(k, "Dune");
    assert r == Ok(Book("Dune", false));
    assert Q.ListBorrowedBooks(library.State(), k) == [];
    r := library.IssueBook(999, "Dune");
    assert r == Err(CardDoesNotExist(999));
  }

  /** Card 1 holds "Dune", which is marked borrowed; card 2 is active and holds nothing. */
  function DuneOnCardOne(owner: Principal): (s: Store)
    ensures Consistent(s)
  {
    Store(map[1 := LibraryCard(1, owner, ["Dune"], true), 2 := LibraryCard(2, owner, [], true)],
          map["Dune" := Book("Dune", true)])
  }

  /** Registering a title again marks it available while a card still lists it. */
  lemma CreateBookAgainForgetsLoan(owner: Principal)
    ensures var s := CreateBook(DuneOnCardOne(owner), "Dune").after;
      !s.books["Dune"].isBorrowed && "Dune" in s.cards[1].booksBorrowed
  {
  }

  /** Another active card can return a book it never borrowed; the holder keeps listing it. */
  lemma ReturnByAnotherCard(owner: Principal)
    ensures var r := ReturnBook(DuneOnCardOne(owner), 2, "Dune");
      r.result == Ok(Book("Dune", false)) && "Dune" in r.after.cards[1].booksBorrowed
  {
  }

  /** After that foreign return the holder can borrow the title again and lists it twice. */
  lemma BorrowAgainDuplicates(owner: Principal)
    ensures var s := ReturnBook(DuneOnCardOne(owner), 2, "Dune").after;
      IssueBook(s, 1, "Dune").after.cards[1].booksBorrowed == ["Dune", "Dune"]
  {
  }
}
