/** The records the library canister stores, and the errors it reports. */
module Records {

  /** Candid's `nat64`: the type of card identifiers. */
  type Nat64 = x: int | 0 <= x < 0x1_0000_0000_0000_0000

  /** An Internet Computer principal: the owner of a card, passed through unexamined. */
  datatype Principal = Principal(bytes: seq<bv8>)

  /** A membership card, stored in the card table under its id. */
  datatype LibraryCard = LibraryCard(id: Nat64, owner: Principal, booksBorrowed: seq<string>, isActive: bool)

  /** A catalogue entry, stored in the book table under its title. */
  datatype Book = Book(title: string, isBorrowed: bool)

  /** The two domain errors: a card id or a book title that the tables do not hold. */
  datatype Error = CardDoesNotExist(cardId: Nat64) | BookDoesNotExist(title: string)

  /** Candid's `Result(T, Error)`. */
  datatype Result<T> = Ok(value: T) | Err(error: Error)
}
