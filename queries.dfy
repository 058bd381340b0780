/** The canister's four reads: projections of the tables that change nothing. */
module Queries {
  import opened Records
  import opened Sequences
  import opened KeyOrder
  import opened Lending

  /** The values `m` holds at `keys`, in the order of `keys`. */
  function ValuesAt<K, V>(m: map<K, V>, keys: seq<K>): (r: seq<V>)
    requires forall k :: k in keys ==> k in m
    ensures |r| == |keys|
    ensures forall i :: 0 <= i < |keys| ==> r[i] == m[keys[i]]
  {
    seq(|keys|, i requires 0 <= i < |keys| => m[keys[i]])
  }

  /** When `keys` lists every key of `m`, `ValuesAt` lists exactly the values of `m`. */
  lemma ValuesAtAll<K, V>(m: map<K, V>, keys: seq<K>)
    requires forall k :: k in keys <==> k in m
    ensures forall v :: v in ValuesAt(m, keys) <==> v in m.Values
  {
  }

  /** `listBooks`: every registered book once, in title order. */
  ghost function ListBooks(s: Store): (r: seq<Book>)
    ensures |r| == |s.books|
    ensures forall b :: b in r <==> b in s.books.Values
  {
    var titles := SortedTitles(s.books.Keys);
    ValuesAtAll(s.books, titles);
    ValuesAt(s.books, titles)
  }

  /** `listBorrowedBooks`: the card's own list, or nothing for an unknown card. */
  function ListBorrowedBooks(s: Store, cardId: Nat64): (r: seq<string>)
    ensures cardId !in s.cards ==> r == []
    ensures cardId in s.cards ==> r == s.cards[cardId].booksBorrowed
  {
    if cardId !in s.cards then [] else s.cards[cardId].booksBorrowed
  }

  /**
   * `listReturnedBooks`: the registered titles the card does not list, each once and in
   * title order, or nothing for an unknown card.
   */
  ghost function ListReturnedBooks(s: Store, cardId: Nat64): (r: seq<string>)
    ensures cardId !in s.cards ==> r == []
    ensures cardId in s.cards ==>
      forall t :: t in r <==> t in s.books && t !in s.cards[cardId].booksBorrowed
    ensures TitlesSorted(r)
  {
    if cardId !in s.cards then []
    else
      var card := s.cards[cardId];
      var titles := SortedTitles(s.books.Keys);
      var r := Filter(titles, t => t !in card.booksBorrowed);
      FilterKeepsOrder(titles, t => t !in card.booksBorrowed, Below);
      r
  }

  /** `listActiveCards`: exactly the stored cards that are active, in id order. */
  ghost function ListActiveCards(s: Store): (r: seq<LibraryCard>)
    ensures forall c :: c in r <==> c in s.cards.Values && c.isActive
    ensures |r| <= |s.cards|
  {
    var ids := SortedIds(s.cards.Keys);
    ValuesAtAll(s.cards, ids);
    Filter(ValuesAt(s.cards, ids), IsActive)
  }

  predicate IsActive(c: LibraryCard)
  {
    c.isActive
  }

  /** With every book under its own title, the books are listed in strictly increasing title order. */
  lemma ListBooksByTitle(s: Store)
    requires BooksKeyedByTitle(s.books)
    ensures forall i, j :: 0 <= i < j < |ListBooks(s)| ==> Below(ListBooks(s)[i].title, ListBooks(s)[j].title)
  {
  }

  /** With every card under its own id, active cards are listed in strictly increasing id order. */
  lemma ListActiveCardsById(s: Store)
    requires CardsKeyedById(s.cards)
    ensures forall i, j :: 0 <= i < j < |ListActiveCards(s)| ==> ListActiveCards(s)[i].id < ListActiveCards(s)[j].id
  {
    var ids := SortedIds(s.cards.Keys);
    var values := ValuesAt(s.cards, ids);
    FilterKeepsOrder(values, IsActive, (a: LibraryCard, b: LibraryCard) => a.id < b.id);
  }

  /**
   * For a known card, the returned and the borrowed titles are disjoint and together cover
   * every registered title; when the card lists only registered titles, their union is
   * exactly the registered titles.
   */
  lemma ReturnedAndBorrowedPartition(s: Store, cardId: Nat64)
    requires cardId in s.cards
    ensures forall t :: t in ListReturnedBooks(s, cardId) ==> t !in ListBorrowedBooks(s, cardId)
    ensures forall t :: t in s.books ==> t in ListReturnedBooks(s, cardId) || t in ListBorrowedBooks(s, cardId)
    ensures (forall t :: t in s.cards[cardId].booksBorrowed ==> t in s.books) ==>
      (set t | t in ListReturnedBooks(s, cardId)) + (set t | t in ListBorrowedBooks(s, cardId)) == s.books.Keys
  {
  }

  /** After `revokeCard` on a consistent store, no listed active card carries the revoked id. */
  lemma RevokedCardNotListed(s: Store, id: Nat64)
    requires CardsKeyedById(s.cards)
    ensures forall c :: c in ListActiveCards(RevokeCard(s, id).after) ==> c.id != id
  {
  }
}
