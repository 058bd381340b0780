/**
 * The library canister: the two tables as fields that the update methods change in
 * place, record by record, as the canister does between a lookup and the write-back.
 */
module Canister {
  import opened Records
  import opened Sequences
  import L = Lending

  class Library {
    /** The card table, keyed by card id. */
    var cards: map<Nat64, LibraryCard>
    /** The book table, keyed by title. */
    var books: map<string, Book>

    function State(): L.Store
      reads this
    {
      L.Store(cards, books)
    }

    ghost predicate Valid()
      reads this
    {
      L.Consistent(State())
    }

    /** Both tables start empty. */
    constructor ()
      ensures Valid() && State() == L.EMPTY
    {
      cards := map[];
      books := map[];
    }

    method IssueCard(id: Nat64, owner: Principal) returns (card: LibraryCard)
      requires Valid()
      modifies this
      ensures Valid()
      ensures L.Step(card, State()) == L.IssueCard(old(State()), id, owner)
    {
      L.IssueCardKeepsConsistent(State(), id, owner);
      card := LibraryCard(id, owner, [], true);
      cards := cards[card.id := card];
    }

    method RevokeCard(id: Nat64) returns (r: Result<LibraryCard>)
      requires Valid()
      modifies this
      ensures Valid()
      ensures L.Step(r, State()) == L.RevokeCard(old(State()), id)
    {
      L.RevokeCardKeepsConsistent(State(), id);
      if id !in cards {
        return Err(CardDoesNotExist(id));
      }
      var card := cards[id];
      card := card.(isActive := false);
      cards := cards[card.id := card];
      return Ok(card);
    }

    method IssueBook(cardId: Nat64, title: string) returns (r: Result<Book>)
      requires Valid()
      modifies this
      ensures Valid()
      ensures L.Step(r, State()) == L.IssueBook(old(State()), cardId, title)
    {
      L.IssueBookKeepsConsistent(State(), cardId, title);
      if cardId !in cards {
        return Err(CardDoesNotExist(cardId));
      }
      if title !in books {
        return Err(BookDoesNotExist(title));
      }
      var card := cards[cardId];
      var book := books[title];
      if !book.isBorrowed && card.isActive {
        book := book.(isBorrowed := true);
        card := card.(booksBorrowed := card.booksBorrowed + [title]);
        books := books[title := book];
        cards := cards[cardId := card];
      }
      return Ok(book);
    }

    method ReturnBook(cardId: Nat64, title: string) returns (r: Result<Book>)
      requires Valid()
      modifies this
      ensures Valid()
      ensures L.Step(r, State()) == L.ReturnBook(old(State()), cardId, title)
    {
      L.ReturnBookKeepsConsistent(State(), cardId, title);
      if cardId !in cards {
        return Err(CardDoesNotExist(cardId));
      }
      if title !in books {
        return Err(BookDoesNotExist(title));
      }
      var card := cards[cardId];
      var book := books[title];
      if book.isBorrowed && card.isActive {
        book := book.(isBorrowed := false);
        card := card.(booksBorrowed := Without(card.booksBorrowed, title));
        books := books[title := book];
        cards := cards[cardId := card];
      }
      return Ok(book);
    }

    method CreateBook(title: string) returns (book: Book)
      requires Valid()
      modifies this
      ensures Valid()
      ensures L.Step(book, State()) == L.CreateBook(old(State()), title)
    {
      L.CreateBookKeepsConsistent(State(), title);
      book := Book(title, false);
      books := books[title := book];
    }
  }
}
