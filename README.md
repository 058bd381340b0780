# Library lending canister, modelled in Dafny

The modelled system is a library canister for the Internet Computer. It keeps two tables:
library cards keyed by a 64-bit id, and books keyed by title. There are five update calls:

- `issueCard`
- `revokeCard`
- `createBook`
- `issueBook` (borrow)
- `returnBook`

There are four query calls:

- `listBooks`
- `listBorrowedBooks`
- `listReturnedBooks`
- `listActiveCards`

The model has these parts:

- `records.dfy`, module `Records`: the `LibraryCard`, `Book` and `Error` records and `Result`.
  `nat64` is a subset type of `int`, and a principal is an opaque byte string.
- `lending.dfy`, module `Lending`: each update as a function from the tables before the call to
  the reply and the tables after it (`Store`, `Step`). Its contract states:
  - the error precedence (card first, then book);
  - that an error leaves both tables unchanged;
  - the borrow and return guards;
  - what changes when a guard holds and that nothing else changes.

  Lemmas relate several calls: idempotence, the borrow/return round trip and permanence of
  revocation. One lemma per update shows that it keeps the `Consistent` invariant, which has
  three parts:
  - every card is stored under its own id;
  - every book is stored under its own title;
  - every title on a card names a registered book.
- `canister.dfy`, class `Canister.Library`: the two tables as `map` fields. Each update method
  looks the keys up, returns early on an error, changes its local copies of the records and writes
  them back. Each method is proved to produce exactly the reply and tables of its `Lending`
  function, and to keep `Valid()`.
- `queries.dfy`, module `Queries`: the four reads as functions of the tables.
- `sequences.dfy`, module `Sequences`: `filter`, used by `returnBook` and two of the reads, and
  the facts about it: it keeps order and it distributes over concatenation.
- `key_order.dfy`, module `KeyOrder`: the order in which the tables enumerate their keys.
- `scenarios.dfy`, module `Scenarios`: worked examples checked by the verifier. `LendDune` is the
  lending trace "issue a card, create *Dune*, borrow it, list, return it, list, borrow on an unknown
  card", written against the class, with the expected replies stated as assertions. Three more
  traces on concrete tables show states the writes allow.

Points where the code's behaviour may be unexpected, all modelled as the code has them:

- The code does not keep two rules a lending system might be expected to keep: a borrowed book
  held by exactly one active card, and no title listed twice on a card:
  - `createBook` on an existing title clears its borrowed flag while a card still lists it
    (`Scenarios.CreateBookAgainForgetsLoan`).
  - `returnBook` does not check that the returning card holds the title
    (`Scenarios.ReturnByAnotherCard`).
  - After such a return, the holder can borrow the title a second time
    (`Scenarios.BorrowAgainDuplicates`).
- Card ids can be reused: the code mints them from the clock and overwrites the card already
  stored under an id. The model takes the id from the caller and overwrites in the same way
  (`Lending.IssueCard`, `Lending.RevocationPersists`).
- `returnBook` removes every occurrence of the title from the card's list, not just one.
- `revokeCard` writes the card back under the id the record carries (`card.id`), not under the id
  it looked up. `issueBook` and `returnBook` write it back under the id they looked up. Under
  `Consistent` the two are the same key.

## Model

| member | source | states |
|---|---|---|
| `Lending.IssueCard` | src/index.ts:42-53 | the new card has the given id and owner, an empty list and is active; it is stored under its id, replacing any card already there; no other card and no book changes |
| `Lending.RevokeCard` | src/index.ts:61-74 | an unknown id gives `CardDoesNotExist(id)` with both tables unchanged; a known id gives `Ok` of the card with only `isActive` cleared (id, owner and list kept), written back under the card's own id; books unchanged; with cards keyed by id it is exactly the entry under `id` that changes |
| `Lending.CreateBook` | src/index.ts:203-211 | the reply is an available book of that title, stored under the title and replacing (so un-borrowing) any existing entry; other books and all cards unchanged |
| `Lending.IssueBook` | src/index.ts:83-111 | a missing card gives `CardDoesNotExist` even when the book is missing too; a missing book gives `BookDoesNotExist`; either error leaves both tables unchanged; otherwise the reply is `Ok` of the book as stored afterwards; if the book is available and the card active, the book becomes borrowed and the title is appended at the end of that card's list, keeping id, owner and status, and nothing else changes; otherwise nothing changes |
| `Lending.ReturnBook` | src/index.ts:119-147 | the same error precedence and unchanged tables on error; if the book is borrowed by anyone and the card is active, the book becomes available and every occurrence of the title leaves that card's list, the rest in order, and nothing else changes; otherwise nothing changes and the reply is `Ok` of the current book |
| `Lending.EmptyConsistent` | src/index.ts:32-33 | the empty tables are consistent |
| `Lending.IssueCardKeepsConsistent` | src/index.ts:42-53 | on consistent tables, `issueCard` keeps cards under their ids, books under their titles and every listed title registered |
| `Lending.RevokeCardKeepsConsistent` | src/index.ts:61-74 | on consistent tables, `revokeCard` keeps the same three facts |
| `Lending.CreateBookKeepsConsistent` | src/index.ts:203-211 | on consistent tables, `createBook` keeps the same three facts |
| `Lending.IssueBookKeepsConsistent` | src/index.ts:83-111 | on consistent tables, `issueBook` keeps the same three facts |
| `Lending.ReturnBookKeepsConsistent` | src/index.ts:119-147 | on consistent tables, `returnBook` keeps the same three facts |
| `Lending.RevokeIdempotent` | src/index.ts:61-74 | revoking twice gives the same reply and tables as revoking once |
| `Lending.IssueBookIdempotent` | src/index.ts:100-110 | a second `issueBook` of the same card and title changes nothing and replies as the first |
| `Lending.InactiveCardNeverBorrows` | src/index.ts:100-146 | with an inactive card, `issueBook` and `returnBook` leave both tables unchanged |
| `Lending.BorrowThenReturn` | src/index.ts:100-146 | for an active card and an available book the card does not list, borrowing then returning restores both tables exactly and replies with the original book |
| `Lending.RevocationPersists` | src/index.ts:42-211 | an inactive card stays inactive under revoke, createBook, issueBook, returnBook and issueCard of another id; issueCard of the same id reactivates it |
| `Queries.ListBooks` | src/index.ts:153-155 | exactly the stored book values, one entry per registered title |
| `Queries.ListBooksByTitle` | src/index.ts:153-155 | with books keyed by title, the listing is in strictly increasing title order |
| `Queries.ListBorrowedBooks` | src/index.ts:162-172 | an unknown card gives `[]`; otherwise the card's own list |
| `Queries.ListReturnedBooks` | src/index.ts:179-189 | an unknown card gives `[]`; otherwise a title is listed iff it is registered and not on the card, each once, in title order |
| `Queries.ReturnedAndBorrowedPartition` | src/index.ts:162-189 | for a known card the returned and borrowed titles are disjoint and cover every registered title; when the card lists only registered titles their union is exactly the registered titles |
| `Queries.ListActiveCards` | src/index.ts:195-197 | a card is listed iff it is stored and active |
| `Queries.ListActiveCardsById` | src/index.ts:195-197 | with cards keyed by id, active cards are listed in strictly increasing id order |
| `Queries.RevokedCardNotListed` | src/index.ts:195-197 | after `revokeCard` on tables with cards keyed by id, no listed active card has the revoked id |
| `Canister.Library.constructor` | src/index.ts:32-33 | both tables start empty and valid |
| `Canister.Library.IssueCard` | src/index.ts:42-54 | replies and leaves the tables exactly as `Lending.IssueCard`; keeps `Valid()` |
| `Canister.Library.RevokeCard` | src/index.ts:61-75 | replies and leaves the tables exactly as `Lending.RevokeCard`; keeps `Valid()` |
| `Canister.Library.IssueBook` | src/index.ts:83-111 | replies and leaves the tables exactly as `Lending.IssueBook`; keeps `Valid()` |
| `Canister.Library.ReturnBook` | src/index.ts:119-147 | replies and leaves the tables exactly as `Lending.ReturnBook`; keeps `Valid()` |
| `Canister.Library.CreateBook` | src/index.ts:203-212 | replies and leaves the tables exactly as `Lending.CreateBook`; keeps `Valid()` |
| `Sequences.Filter` | src/index.ts:141 | keeps exactly the elements satisfying the predicate and is no longer than its input |
| `Sequences.FilterKeepsOrder` | src/index.ts:188 | filtering an ordered list gives an ordered list |
| `Sequences.Without` | src/index.ts:141 | the title no longer occurs, every other title is kept, and a list without the title comes back unchanged |
| `Sequences.WithoutAppended` | src/index.ts:141 | removing a title just appended to a list that did not hold it gives back the list |
| `KeyOrder.SortedTitles` | src/index.ts:188 | key enumeration of the book table: every registered title once, in strictly increasing order |
| `KeyOrder.SortedIds` | src/index.ts:196 | key enumeration of the card table: every id once, in strictly increasing order |
| `Scenarios.CreateBookAgainForgetsLoan` | src/index.ts:203-211 | on consistent tables where card 1 holds "Dune", `createBook("Dune")` marks it available while card 1 still lists it |
| `Scenarios.ReturnByAnotherCard` | src/index.ts:136-146 | an active card that does not hold "Dune" returns it successfully and the holder keeps listing it |
| `Scenarios.BorrowAgainDuplicates` | src/index.ts:100-110 | after that return, the holder borrows "Dune" again and lists it twice |

## Left out

- Id generation: `generateId` reads the system clock (`ic.time()`). `issueCard` takes the new id as a parameter instead. Within one block the clock gives every call the same value, so ids can collide; the model covers that by letting the caller pass an existing id.
- Stable memory: the tables' persistence across upgrades and their memory ids are not modelled. Each table is a Dafny `map`.
- Iteration order: the ordered tables enumerate keys by comparing their serialised bytes. That byte order is not part of this model, which lists ids in ascending numeric order and titles in lexicographic order of characters. The order-related facts (`KeyOrder.SortedTitles`, `KeyOrder.SortedIds`, `Queries.ListBooksByTitle`, `Queries.ListActiveCardsById`, `Queries.ListReturnedBooks`) are stated for that stand-in order.
- Canister plumbing: `Canister`/`update`/`query` dispatch, Candid encoding and the inside of `Principal` are not modelled. An owner is an opaque byte string.
- Aliasing: the source changes the record returned by a lookup and then writes it back. The model uses value semantics, so the change is visible only through the write, which matches what the store exposes.
- Concurrency: calls run one at a time, as the host runs one message at a time.
- Three of the four reads (`ListBooks`, `ListReturnedBooks`, `ListActiveCards`) are ghost functions, because the key enumeration picks the least key of a set. `ListBorrowedBooks` is an ordinary function.
  All four are stated over the tables, `Library.State()`, not as methods of the class.
