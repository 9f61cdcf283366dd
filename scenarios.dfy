/**
 * Request sequences against a phonebook, with the responses the handlers
 * give, derived from the handlers' contracts alone. `SeedNames`,
 * `SeedNameAnyCase`, `SessionFieldsTrimmed` and `SeedAddThenDelete` are
 * facts about the seed list and the session's literals, stated on the pure
 * lookups; `SeedSession` replays the requests from a fresh phonebook.
 */
module Scenarios {
  import opened JsString
  import opened Directory

  /** On the seed list "Mary Poppendieck" is taken and
      "New Person" is not, and a new contact would get id 5. */
  lemma SeedNames()
    ensures NameExists(Seed(), "Mary Poppendieck")
    ensures !NameExists(Seed(), "New Person")
    ensures NextId(Seed()) == 5
  {
    assert Lower(Seed()[3].name) == Lower("Mary Poppendieck");
  }

  /** The name and number the seeded session posts are already trimmed. */
  lemma SessionFieldsTrimmed()
    ensures Trimmed("New Person") && Trimmed("000")
  {
  }

  /** The duplicate check ignores letter case: "MARY poppendieck" is taken
      on the seed list as well. */
  lemma SeedNameAnyCase()
    ensures NameExists(Seed(), "MARY poppendieck")
  {
    assert EqualIgnoringCase(Seed()[3].name, "MARY poppendieck");
    NameExistsIgnoringCase(Seed(), "MARY poppendieck");
  }

  /** On the seed list with "New Person" appended as id 5, filtering out
      id 2 leaves ids 1, 3, 4, 5 and id 2 is gone. */
  lemma SeedAddThenDelete()
    ensures var after := Without(Seed() + [Contact(5, "New Person", "000")], 2);
            && |after| == 4
            && after[0].id == 1 && after[1].id == 3 && after[2].id == 4 && after[3].id == 5
            && Find(after, 2) == None
  {
    var list := Seed() + [Contact(5, "New Person", "000")];
    assert UniqueIds(list);
    WithoutUnique(list, 2, 1);
  }

  /** Posting a taken name answers 409 and changes nothing; posting a free,
      already-trimmed name then answers 201 and appends it with the next id. */
  method PostTakenThenFree(book: Phonebook, taken: string, free: string, number: string)
    returns (conflict: Response, created: Response)
    requires book.Valid() && taken != "" && free != "" && number != ""
    requires NameExists(book.contacts, taken) && !NameExists(book.contacts, free)
    requires Trimmed(free) && Trimmed(number)
    modifies book
    ensures book.Valid()
    ensures conflict == Response(409, Error(ConflictMessage(taken)))
    ensures var added := Contact(NextId(old(book.contacts)), free, number);
            created == Response(201, Person(added)) && book.contacts == old(book.contacts) + [added]
  {
    conflict := book.Create(Some(taken), Some(number));
    TrimOfTrimmed(free);
    TrimOfTrimmed(number);
    created := book.Create(Some(free), Some(number));
  }

  /** A fresh phonebook: posting "Mary Poppendieck" answers 409, posting
      "New Person" answers 201 with id 5, deleting id 2 answers 204, a get
      of id 2 then answers 404, and the list holds ids 1, 3, 4, 5. */
  method SeedSession() returns (conflict: Response, created: Response, deleted: Response,
                                fetched: Response, listed: seq<Contact>)
    ensures conflict == Response(409, Error(ConflictMessage("Mary Poppendieck")))
    ensures created == Response(201, Person(Contact(5, "New Person", "000")))
    ensures deleted == Response(204, Empty)
    ensures fetched == NotFound
    ensures |listed| == 4
    ensures listed[0].id == 1 && listed[1].id == 3 && listed[2].id == 4 && listed[3].id == 5
  {
    var book := new Phonebook();
    SeedNames();
    SessionFieldsTrimmed();
    conflict, created := PostTakenThenFree(book, "Mary Poppendieck", "New Person", "000");
    ghost var added := Seed() + [Contact(5, "New Person", "000")];
    assert book.contacts == added;
    SeedAddThenDelete();
    assert |Without(added, 2)| < |added|;
    deleted := book.Delete(2);
    fetched := book.Get(2);
    listed := book.contacts;
  }

  /** A stored name with a space in front passes the duplicate check and is
      stored trimmed, so two contacts end up with the same name. */
  method AddPaddedDuplicate(book: Phonebook, k: int, number: string) returns (resp: Response)
    requires book.Valid() && 0 <= k < |book.contacts| && number != ""
    modifies book
    ensures book.Valid()
    ensures resp.status == 201
    ensures |book.contacts| == |old(book.contacts)| + 1
    ensures book.contacts[|book.contacts| - 1].name == book.contacts[k].name
  {
    PaddedNameNeverConflicts(book.contacts, k);
    resp := book.Create(Some(" " + book.contacts[k].name), Some(number));
  }

  /** A whitespace-only name is not blank, so it is accepted and stored as
      the empty string. */
  method AddBlankName(book: Phonebook, number: string) returns (resp: Response)
    requires book.Valid() && number != ""
    modifies book
    ensures book.Valid()
    ensures resp.status == 201 && resp.body.Person? && resp.body.contact.name == ""
    ensures book.contacts == old(book.contacts) + [resp.body.contact]
  {
    forall i | 0 <= i < |book.contacts| ensures Lower(book.contacts[i].name) != Lower("  ") {
      LowerKeepsLeadingSpace("  ", book.contacts[i].name);
    }
    TrimAllSpace("  ");
    resp := book.Create(Some("  "), Some(number));
  }

  /** Deleting a present id answers 204 and shrinks the directory by one;
      a get and a second delete of that id both answer 404. */
  method DeleteTwice(book: Phonebook, id: int) returns (first: Response, fetched: Response, second: Response)
    requires book.Valid() && HasId(book.contacts, id)
    modifies book
    ensures book.Valid()
    ensures first == Response(204, Empty)
    ensures |book.contacts| == |old(book.contacts)| - 1
    ensures fetched == NotFound && second == NotFound
  {
    DeleteThenGet(book.contacts, id);
    first := book.Delete(id);
    fetched := book.Get(id);
    second := book.Delete(id);
  }

  /** Adding a contact, deleting it, and adding another: the freed id is
      handed out again, since ids are the largest id plus one rather than a
      counter. */
  method IdReuse(book: Phonebook, x: string, y: string, number: string) returns (first: Response, second: Response)
    requires book.Valid() && x != "" && y != "" && number != ""
    requires !NameExists(book.contacts, x) && !NameExists(book.contacts, y)
    modifies book
    ensures book.Valid()
    ensures first.status == 201 && second.status == 201
    ensures first.body.Person? && second.body.Person?
    ensures first.body.contact.id == second.body.contact.id == NextId(old(book.contacts))
  {
    ghost var start := book.contacts;
    first := book.Create(Some(x), Some(number));
    WithoutAppended(start, first.body.contact);
    var gone := book.Delete(first.body.contact.id);
    second := book.Create(Some(y), Some(number));
  }
}
