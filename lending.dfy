/**
 * The canister's five writes as functions from the state before the call to the reply
 * and the state after it. These are the specification the class in module Canister
 * is proved against.
 */
module Lending {
  import opened Records
  import opened Sequences

  /** The two tables: cards by id and books by title. */
  datatype Store = Store(cards: map<Nat64, LibraryCard>, books: map<string, Book>)

  /** What a write replies, and the tables it leaves behind. */
  datatype Step<T> = Step(result: T, after: Store)

  /** Both tables as first created. */
  const EMPTY: Store := Store(map[], map[])

  /** `m'` is `m` with at most the entry under `k` written (added or replaced). */
  ghost predicate UpdatedAt<K, V>(m: map<K, V>, m': map<K, V>, k: K)
  {
    m'.Keys == m.Keys + {k} && forall j :: j in m && j != k ==> m'[j] == m[j]
  }

  /** Every card is stored under its own id. */
  predicate CardsKeyedById(cards: map<Nat64, LibraryCard>)
  {
    forall k :: k in cards ==> cards[k].id == k
  }

  /** Every book is stored under its own title. */
  predicate BooksKeyedByTitle(books: map<string, Book>)
  {
    forall t :: t in books ==> books[t].title == t
  }

  /** Every title on a card names a registered book. */
  predicate BorrowedRegistered(s: Store)
  {
    forall k, t :: k in s.cards && t in s.cards[k].booksBorrowed ==> t in s.books
  }

  /** What the five writes keep true of the tables. */
  predicate Consistent(s: Store)
  {
    CardsKeyedById(s.cards) && BooksKeyedByTitle(s.books) && BorrowedRegistered(s)
  }

  /** `issueCard`: a new active card with nothing borrowed, written under the id the caller supplies. */
  function IssueCard(s: Store, id: Nat64, owner: Principal): (r: Step<LibraryCard>)
    ensures r.result.id == id && r.result.owner == owner
    ensures r.result.booksBorrowed == [] && r.result.isActive
    ensures UpdatedAt(s.cards, r.after.cards, id) && r.after.cards[id] == r.result
    ensures r.after.books == s.books
  {
    var card := LibraryCard(id, owner, [], true);
    Step(card, Store(s.cards[card.id := card], s.books))
  }

  /**
   * `revokeCard`: marks the card inactive and writes it back under the id the card
   * record carries; nothing else about the card changes.
   */
  function RevokeCard(s: Store, id: Nat64): (r: Step<Result<LibraryCard>>)
    ensures id !in s.cards ==> r.result == Err(CardDoesNotExist(id)) && r.after == s
    ensures id in s.cards ==>
      && r.result.Ok?
      && var was, card := s.cards[id], r.result.value;
      && card.id == was.id && card.owner == was.owner && card.booksBorrowed == was.booksBorrowed
      && !card.isActive
      && UpdatedAt(s.cards, r.after.cards, was.id) && r.after.cards[was.id] == card
      && r.after.books == s.books
    ensures id in s.cards && CardsKeyedById(s.cards) ==> r.after.cards == s.cards[id := r.result.value]
  {
    if id !in s.cards then Step(Err(CardDoesNotExist(id)), s)
    else
      var card := s.cards[id].(isActive := false);
      Step(Ok(card), Store(s.cards[card.id := card], s.books))
  }

  /** `createBook`: an available book under its title, replacing any book of that title. */
  function CreateBook(s: Store, title: string): (r: Step<Book>)
    ensures r.result.title == title && !r.result.isBorrowed
    ensures UpdatedAt(s.books, r.after.books, title) && r.after.books[title] == r.result
    ensures r.after.cards == s.cards
  {
    var book := Book(title, false);
    Step(book, Store(s.cards, s.books[title := book]))
  }

  /** The guard of `issueBook`: the book is available and the card active. */
  predicate CanBorrow(s: Store, cardId: Nat64, title: string)
  {
    cardId in s.cards && title in s.books && !s.books[title].isBorrowed && s.cards[cardId].isActive
  }

  /** The guard of `returnBook`: the book is borrowed (by any card) and the card active. */
  predicate CanReturn(s: Store, cardId: Nat64, title: string)
  {
    cardId in s.cards && title in s.books && s.books[title].isBorrowed && s.cards[cardId].isActive
  }

  /**
   * `s'` differs from `s` in book `title`, whose flag is now `borrowed`, and in card
   * `cardId`, whose list is now `titles`; ids, owners, titles and card status are kept.
   */
  ghost predicate Moved(s: Store, s': Store, cardId: Nat64, title: string, borrowed: bool, titles: seq<string>)
    requires cardId in s.cards && title in s.books
  {
    && UpdatedAt(s.books, s'.books, title)
    && s'.books[title].title == s.books[title].title && s'.books[title].isBorrowed == borrowed
    && UpdatedAt(s.cards, s'.cards, cardId)
    && var was, card := s.cards[cardId], s'.cards[cardId];
    && card.id == was.id && card.owner == was.owner && card.isActive == was.isActive
    && card.booksBorrowed == titles
  }

  /**
   * The lookup half that `issueBook` and `returnBook` share: the card is resolved
   * before the book, a failed lookup is an error that changes nothing, and with both
   * keys resolved the reply is the book as stored afterwards.
   */
  ghost predicate Resolves(s: Store, cardId: Nat64, title: string, r: Step<Result<Book>>)
  {
    && (cardId !in s.cards ==> r.result == Err(CardDoesNotExist(cardId)) && r.after == s)
    && (cardId in s.cards && title !in s.books ==> r.result == Err(BookDoesNotExist(title)) && r.after == s)
    && (cardId in s.cards && title in s.books ==> title in r.after.books && r.result == Ok(r.after.books[title]))
  }

  /**
   * `issueBook`: when the guard holds, the book becomes borrowed and its title is appended
   * to the card's list; otherwise nothing changes and the current book is the reply.
   */
  function IssueBook(s: Store, cardId: Nat64, title: string): (r: Step<Result<Book>>)
    ensures Resolves(s, cardId, title, r)
    ensures !CanBorrow(s, cardId, title) ==> r.after == s
    ensures CanBorrow(s, cardId, title) ==>
      Moved(s, r.after, cardId, title, true, s.cards[cardId].booksBorrowed + [title])
  {
    if cardId !in s.cards then Step(Err(CardDoesNotExist(cardId)), s)
    else if title !in s.books then Step(Err(BookDoesNotExist(title)), s)
    else
      var card, book := s.cards[cardId], s.books[title];
      if !book.isBorrowed && card.isActive then
        var book' := book.(isBorrowed := true);
        var card' := card.(booksBorrowed := card.booksBorrowed + [title]);
        Step(Ok(book'), Store(s.cards[cardId := card'], s.books[title := book']))
      else
        Step(Ok(book), s)
  }

  /**
   * `returnBook`: when the guard holds, the book becomes available and every occurrence of
   * its title leaves the card's list, the other titles keeping their order; otherwise
   * nothing changes and the current book is the reply. Whether this card holds the
   * title is not checked.
   */
  function ReturnBook(s: Store, cardId: Nat64, title: string): (r: Step<Result<Book>>)
    ensures Resolves(s, cardId, title, r)
    ensures !CanReturn(s, cardId, title) ==> r.after == s
    ensures CanReturn(s, cardId, title) ==>
      Moved(s, r.after, cardId, title, false, Without(s.cards[cardId].booksBorrowed, title))
  {
    if cardId !in s.cards then Step(Err(CardDoesNotExist(cardId)), s)
    else if title !in s.books then Step(Err(BookDoesNotExist(title)), s)
    else
      var card, book := s.cards[cardId], s.books[title];
      if book.isBorrowed && card.isActive then
        var book' := book.(isBorrowed := false);
        var card' := card.(booksBorrowed := Without(card.booksBorrowed, title));
        Step(Ok(book'), Store(s.cards[cardId := card'], s.books[title := book']))
      else
        Step(Ok(book), s)
  }

  lemma EmptyConsistent()
    ensures Consistent(EMPTY)
  {
  }

  /** Each of the five writes keeps the tables consistent. */
  lemma IssueCardKeepsConsistent(s: Store, id: Nat64, owner: Principal)
    requires Consistent(s)
    ensures Consistent(IssueCard(s, id, owner).after)
  {
  }

  lemma RevokeCardKeepsConsistent(s: Store, id: Nat64)
    requires Consistent(s)
    ensures Consistent(RevokeCard(s, id).after)
  {
  }

  lemma CreateBookKeepsConsistent(s: Store, title: string)
    requires Consistent(s)
    ensures Consistent(CreateBook(s, title).after)
  {
  }

  lemma IssueBookKeepsConsistent(s: Store, cardId: Nat64, title: string)
    requires Consistent(s)
    ensures Consistent(IssueBook(s, cardId, title).after)
  {
  }

  lemma ReturnBookKeepsConsistent(s: Store, cardId: Nat64, title: string)
    requires Consistent(s)
    ensures Consistent(ReturnBook(s, cardId, title).after)
  {
  }

  /** Revoking twice is revoking once: same reply, same tables. */
  lemma RevokeIdempotent(s: Store, id: Nat64)
    ensures RevokeCard(RevokeCard(s, id).after, id) == RevokeCard(s, id)
  {
  }

  /** A second `issueBook` of the same pair changes nothing and gives the same reply. */
  lemma IssueBookIdempotent(s: Store, cardId: Nat64, title: string)
    ensures IssueBook(IssueBook(s, cardId, title).after, cardId, title) == IssueBook(s, cardId, title)
  {
  }

  /** An inactive card never borrows: the tables stay as they were. */
  lemma InactiveCardNeverBorrows(s: Store, cardId: Nat64, title: string)
    requires cardId in s.cards && !s.cards[cardId].isActive
    ensures IssueBook(s, cardId, title).after == s
    ensures ReturnBook(s, cardId, title).after == s
  {
  }

  /**
   * Borrowing an available book on an active card that does not list it, then returning
   * it, restores both tables exactly and replies with the book as it was.
   */
  lemma BorrowThenReturn(s: Store, cardId: Nat64, title: string)
    requires CanBorrow(s, cardId, title) && title !in s.cards[cardId].booksBorrowed
    ensures ReturnBook(IssueBook(s, cardId, title).after, cardId, title) == Step(Ok(s.books[title]), s)
  {
    var card := s.cards[cardId];
    WithoutAppended(card.booksBorrowed, title);
    var s1 := IssueBook(s, cardId, title).after;
    assert s1.cards[cardId].booksBorrowed == card.booksBorrowed + [title];
    var s2 := ReturnBook(s1, cardId, title).after;
    assert s2.cards[cardId] == card;
    assert s2.books[title] == s.books[title];
    assert s2.cards == s.cards;
    assert s2.books == s.books;
  }

  /**
   * Once a card is inactive it stays inactive under every write except `issueCard`
   * with that same id, which replaces the card.
   */
  lemma RevocationPersists(s: Store, k: Nat64, id: Nat64, owner: Principal, cardId: Nat64, title: string)
    requires k in s.cards && !s.cards[k].isActive
    ensures !RevokeCard(s, id).after.cards[k].isActive
    ensures !CreateBook(s, title).after.cards[k].isActive
    ensures !IssueBook(s, cardId, title).after.cards[k].isActive
    ensures !ReturnBook(s, cardId, title).after.cards[k].isActive
    ensures id != k ==> !IssueCard(s, id, owner).after.cards[k].isActive
    ensures IssueCard(s, k, owner).after.cards[k].isActive
  {
  }
}
