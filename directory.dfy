/**
 * The phonebook's contact directory: an ordered in-memory list of
 * `{id, name, number}` records and the logic of the handlers that read and
 * change it (get by id, delete by id, create, and the count on the info
 * page), with the HTTP outcome of each as a status code and a body.
 */
module Directory {
  import opened JsString

  datatype Option<T> = None | Some(value: T)

  datatype Contact = Contact(id: int, name: string, number: string)

  /** What a handler sends back: a contact, an `{error: ...}` object, or nothing. */
  datatype Body = Person(contact: Contact) | Error(message: string) | Empty

  datatype Response = Response(status: int, body: Body)

  const NotFoundMessage: string := "person not found"
  const RequiredMessage: string := "Name and number are required"

  function ConflictMessage(name: string): string
  {
    "Person \"" + name + "\" already exists"
  }

  const NotFound: Response := Response(404, Error(NotFoundMessage))

  // ---------------------------------------------------------------------
  // Predicates on the list

  predicate HasId(list: seq<Contact>, id: int)
  {
    exists i :: 0 <= i < |list| && list[i].id == id
  }

  /** `list[k]` is the first contact whose id is `id`. */
  predicate FirstWithId(list: seq<Contact>, id: int, k: int)
  {
    0 <= k < |list| && list[k].id == id && forall j :: 0 <= j < k ==> list[j].id != id
  }

  /** No two contacts share an id. */
  predicate UniqueIds(list: seq<Contact>)
  {
    forall i, j :: 0 <= i < j < |list| ==> list[i].id != list[j].id
  }

  predicate PositiveIds(list: seq<Contact>)
  {
    forall i :: 0 <= i < |list| ==> list[i].id > 0
  }

  /** Every stored name and number is the result of a `trim`. */
  predicate StoredTrimmed(list: seq<Contact>)
  {
    forall i :: 0 <= i < |list| ==> Trimmed(list[i].name) && Trimmed(list[i].number)
  }

  // ---------------------------------------------------------------------
  // The pure lookups of the handlers

  /** `list.find(person => person.id === id)`: the first contact with that id. */
  function Find(list: seq<Contact>, id: int): (r: Option<Contact>)
    ensures r.None? <==> !HasId(list, id)
    ensures r.Some? ==> exists k :: FirstWithId(list, id, k) && r.value == list[k]
    decreases |list|
  {
    if list == [] then None
    else if list[0].id == id then Some(list[0])
    else
      var r := Find(list[1..], id);
      assert r.Some? ==> forall k :: FirstWithId(list[1..], id, k) ==> FirstWithId(list, id, k + 1);
      r
  }

  /** `list.filter(person => person.id !== id)`: the contacts with any other
      id, in their original order. None of them has that id; it is shorter
      exactly when some contact had it, and otherwise it is the list itself. */
  function Without(list: seq<Contact>, id: int): (r: seq<Contact>)
    ensures |r| <= |list|
    ensures forall i :: 0 <= i < |r| ==> r[i].id != id
    ensures |r| < |list| <==> HasId(list, id)
    ensures !HasId(list, id) ==> r == list
    decreases |list|
  {
    if list == [] then []
    else if list[0].id == id then Without(list[1..], id)
    else
      var r := [list[0]] + Without(list[1..], id);
      assert HasId(list[1..], id) ==> HasId(list, id);
      assert HasId(list, id) ==> HasId(list[1..], id);
      r
  }

  /** `list.some(person => person.name.toLowerCase() === name.toLowerCase())`. */
  function NameExists(list: seq<Contact>, name: string): (b: bool)
    ensures b <==> exists i :: 0 <= i < |list| && Lower(list[i].name) == Lower(name)
    decreases |list|
  {
    if list == [] then false
    else if Lower(list[0].name) == Lower(name) then true
    else
      var b := NameExists(list[1..], name);
      assert b ==> exists i :: 0 <= i < |list| && Lower(list[i].name) == Lower(name);
      assert forall i :: 1 <= i < |list| ==> list[i] == list[1..][i - 1];
      b
  }

  /** `Math.max(...list.map(person => person.id))` on a non-empty list. */
  function MaxId(list: seq<Contact>): (m: int)
    requires |list| > 0
    ensures HasId(list, m)
    ensures forall i :: 0 <= i < |list| ==> list[i].id <= m
    decreases |list|
  {
    if |list| == 1 then list[0].id
    else
      var m := MaxId(list[1..]);
      assert forall i :: 1 <= i < |list| ==> list[i] == list[1..][i - 1];
      if list[0].id > m then list[0].id else m
  }

  /** The id a new contact gets: 1 for an empty list, otherwise the largest
      id plus one. It is above every id in the list. */
  function NextId(list: seq<Contact>): (n: int)
    ensures forall i :: 0 <= i < |list| ==> list[i].id < n
    ensures list == [] ==> n == 1
    ensures list != [] ==> HasId(list, n - 1)
  {
    if |list| > 0 then MaxId(list) + 1 else 1
  }

  /** `!value` for a request field: missing, or the empty string. */
  predicate Blank(field: Option<string>)
  {
    field.None? || field.value == ""
  }

  /** The four contacts the service starts with. */
  function Seed(): (list: seq<Contact>)
    ensures |list| == 4
    ensures forall i :: 0 <= i < |list| ==> list[i].id == i + 1
  {
    [ Contact(1, "Arto Hellas", "040-123456"),
      Contact(2, "Ada Lovelace", "39-44-5323523"),
      Contact(3, "Dan Abramov", "12-43-234345"),
      Contact(4, "Mary Poppendieck", "39-23-6423122") ]
  }

  // ---------------------------------------------------------------------
  // Properties of the lookups

  /** The seed list has distinct positive ids and trimmed fields. */
  lemma SeedInvariant()
    ensures Invariant(Seed())
  {
    var list := Seed();
    forall i | 0 <= i < |list| ensures Trimmed(list[i].name) && Trimmed(list[i].number) {
      var c := list[i];
      assert !IsSpace(c.name[0]) && !IsSpace(c.name[|c.name| - 1]);
      assert !IsSpace(c.number[0]) && !IsSpace(c.number[|c.number| - 1]);
    }
  }

  /** Filtering distributes over concatenation: delete keeps the relative
      order of the contacts it does not remove. */
  lemma {:induction false} WithoutAppend(a: seq<Contact>, b: seq<Contact>, id: int)
    ensures Without(a + b, id) == Without(a, id) + Without(b, id)
    decreases |a|
  {
    if a == [] {
      assert a + b == b;
    } else {
      assert (a + b)[1..] == a[1..] + b;
      WithoutAppend(a[1..], b, id);
    }
  }

  /** Delete keeps exactly the contacts whose id differs. */
  lemma {:induction false} WithoutMembers(list: seq<Contact>, id: int)
    ensures forall c :: c in Without(list, id) <==> c in list && c.id != id
    decreases |list|
  {
    if list != [] {
      WithoutMembers(list[1..], id);
      assert list == [list[0]] + list[1..];
    }
  }

  /** When only `list[k]` carries `id`, deleting `id` removes exactly that
      contact and leaves the others in order. */
  lemma {:induction false} WithoutOnly(list: seq<Contact>, id: int, k: int)
    requires 0 <= k < |list| && list[k].id == id
    requires forall j :: 0 <= j < |list| && j != k ==> list[j].id != id
    ensures Without(list, id) == list[..k] + list[k + 1..]
    decreases k
  {
    var t := list[1..];
    if k == 0 {
      assert !HasId(t, id) by {
        forall j | 0 <= j < |t| ensures t[j].id != id {
          assert t[j] == list[j + 1];
        }
      }
      assert list[..k] + list[k + 1..] == t;
    } else {
      assert forall j :: 0 <= j < |t| && j != k - 1 ==> t[j].id != id by {
        forall j | 0 <= j < |t| && j != k - 1 ensures t[j].id != id {
          assert t[j] == list[j + 1];
        }
      }
      WithoutOnly(t, id, k - 1);
      var rest := list[1..k] + list[k + 1..];
      assert t[..k - 1] + t[k..] == rest;
      assert [list[0]] + rest == list[..k] + list[k + 1..];
    }
  }

  /** With unique ids, deleting the id of `list[k]` removes exactly that
      contact and leaves the others in order. */
  lemma WithoutUnique(list: seq<Contact>, id: int, k: int)
    requires UniqueIds(list)
    requires 0 <= k < |list| && list[k].id == id
    ensures Without(list, id) == list[..k] + list[k + 1..]
  {
    assert forall j :: 0 <= j < |list| && j != k ==> list[j].id != id by {
      forall j | 0 <= j < |list| && j != k ensures list[j].id != id {
        if j < k {
          assert list[j].id != list[k].id;
        } else {
          assert list[k].id != list[j].id;
        }
      }
    }
    WithoutOnly(list, id, k);
  }

  /** Deleting the id of a contact just appended after contacts with other
      ids gives back the list as it was. */
  lemma WithoutAppended(list: seq<Contact>, c: Contact)
    requires forall i :: 0 <= i < |list| ==> list[i].id != c.id
    ensures Without(list + [c], c.id) == list
  {
    WithoutAppend(list, [c], c.id);
    assert Without([c], c.id) == [] by {
      assert [c][1..] == [];
    }
  }

  /** A delete of a present id, with unique ids, shrinks the list by one, and
      a later get of that id finds nothing. */
  lemma DeleteThenGet(list: seq<Contact>, id: int)
    requires UniqueIds(list) && HasId(list, id)
    ensures |Without(list, id)| == |list| - 1
    ensures Find(Without(list, id), id) == None
  {
    var k :| 0 <= k < |list| && list[k].id == id;
    WithoutUnique(list, id, k);
  }

  /** Deleting the same id again changes nothing. */
  lemma WithoutIdempotent(list: seq<Contact>, id: int)
    ensures Without(Without(list, id), id) == Without(list, id)
  {
  }

  /** Every list the directory can hold keeps these. */
  predicate Invariant(list: seq<Contact>)
  {
    UniqueIds(list) && PositiveIds(list) && StoredTrimmed(list)
  }

  /** Removing contacts keeps the ids unique. */
  lemma {:induction false} WithoutKeepsUnique(list: seq<Contact>, id: int)
    requires UniqueIds(list)
    ensures UniqueIds(Without(list, id))
    decreases |list|
  {
    if list != [] {
      var t := list[1..];
      WithoutKeepsUnique(t, id);
      if list[0].id != id {
        var w := Without(t, id);
        assert forall j :: 0 <= j < |t| ==> t[j].id != list[0].id by {
          forall j | 0 <= j < |t| ensures t[j].id != list[0].id {
            assert t[j] == list[j + 1];
          }
        }
        assert forall j :: 0 <= j < |w| ==> w[j].id != list[0].id by {
          WithoutMembers(t, id);
          forall j | 0 <= j < |w| ensures w[j].id != list[0].id {
            assert w[j] in t;
          }
        }
        ConsKeepsUnique(list[0], w);
      }
    }
  }

  lemma ConsKeepsUnique(c: Contact, w: seq<Contact>)
    requires UniqueIds(w)
    requires forall j :: 0 <= j < |w| ==> w[j].id != c.id
    ensures UniqueIds([c] + w)
  {
    var r := [c] + w;
    forall i, j | 0 <= i < j < |r| ensures r[i].id != r[j].id {
      assert r[j] == w[j - 1];
      if i > 0 {
        assert r[i] == w[i - 1];
      }
    }
  }

  /** Removing contacts keeps the invariant. */
  lemma WithoutKeepsInvariant(list: seq<Contact>, id: int)
    requires Invariant(list)
    ensures Invariant(Without(list, id))
  {
    var r := Without(list, id);
    WithoutKeepsUnique(list, id);
    WithoutMembers(list, id);
    assert forall i :: 0 <= i < |r| ==> r[i] in list;
  }

  /** Appending a contact whose id is positive and above every stored id,
      with trimmed fields, keeps the invariant. */
  lemma AppendKeepsInvariant(list: seq<Contact>, c: Contact)
    requires Invariant(list)
    requires c.id > 0 && Trimmed(c.name) && Trimmed(c.number)
    requires forall i :: 0 <= i < |list| ==> list[i].id < c.id
    ensures Invariant(list + [c])
  {
    var r := list + [c];
    forall i, j | 0 <= i < j < |r| ensures r[i].id != r[j].id {
      assert r[i] == list[i];
      if j < |list| {
        assert r[j] == list[j];
      }
    }
    forall i | 0 <= i < |r| ensures r[i].id > 0 && Trimmed(r[i].name) && Trimmed(r[i].number) {
      if i < |list| {
        assert r[i] == list[i];
      }
    }
  }

  /** The contact create appends (id `NextId`, trimmed fields) keeps the
      invariant: in particular the ids stay unique. */
  lemma AppendNextKeepsInvariant(list: seq<Contact>, name: string, number: string)
    requires Invariant(list)
    ensures Invariant(list + [Contact(NextId(list), Trim(name), Trim(number))])
  {
    var n := NextId(list);
    if list != [] {
      var k :| 0 <= k < |list| && list[k].id == n - 1;
    }
    AppendKeepsInvariant(list, Contact(n, Trim(name), Trim(number)));
  }

  /** A name is reported as existing exactly when it equals a stored name up
      to the case of ASCII letters. */
  lemma NameExistsIgnoringCase(list: seq<Contact>, name: string)
    ensures NameExists(list, name) <==>
              exists k :: 0 <= k < |list| && EqualIgnoringCase(list[k].name, name)
  {
    forall k | 0 <= k < |list|
      ensures Lower(list[k].name) == Lower(name) <==> EqualIgnoringCase(list[k].name, name)
    {
      LowerEqual(list[k].name, name);
    }
  }

  /** The duplicate check compares the untrimmed incoming name: a stored name
      with a space in front is never reported as existing, yet trims back to
      the stored name. So case-insensitive name uniqueness does not hold. */
  lemma PaddedNameNeverConflicts(list: seq<Contact>, k: int)
    requires StoredTrimmed(list) && 0 <= k < |list|
    ensures !NameExists(list, " " + list[k].name)
    ensures Trim(" " + list[k].name) == list[k].name
  {
    var padded := " " + list[k].name;
    forall i | 0 <= i < |list| ensures Lower(list[i].name) != Lower(padded) {
      LowerKeepsLeadingSpace(padded, list[i].name);
    }
    TrimDropsLeadingSpace(list[k].name);
  }

  // ---------------------------------------------------------------------
  // The store and its handlers

  /** The module-level `listNames` array, which delete and create reassign. */
  class Phonebook {
    var contacts: seq<Contact>

    ghost predicate Valid()
      reads this
    {
      Invariant(contacts)
    }

    /** The service starts with the four seed contacts. */
    constructor ()
      ensures contacts == Seed() && Valid()
    {
      SeedInvariant();
      contacts := Seed();
    }

    /** The info page's "Phonebook has info for N people". */
    method Count() returns (n: nat)
      ensures n == |contacts|
    {
      n := |contacts|;
    }

    /** GET /api/persons/:id */
    method Get(id: int) returns (resp: Response)
      ensures resp.status == 200 <==> HasId(contacts, id)
      ensures resp.status == 200 ==>
                exists k :: FirstWithId(contacts, id, k) && resp.body == Person(contacts[k])
      ensures resp.status != 200 ==> resp == NotFound
    {
      var person := Find(contacts, id);
      if person.Some? {
        resp := Response(200, Person(person.value));
      } else {
        resp := NotFound;
      }
    }

    /** DELETE /api/persons/:id */
    method Delete(id: int) returns (resp: Response)
      requires Valid()
      modifies this
      ensures Valid()
      ensures contacts == Without(old(contacts), id)
      ensures resp.status == 204 <==> |contacts| < |old(contacts)|
      ensures resp.status == 204 ==> resp.body == Empty && |contacts| == |old(contacts)| - 1
      ensures resp.status != 204 ==> resp == NotFound && contacts == old(contacts)
    {
      var initialLength := |contacts|;
      WithoutKeepsInvariant(contacts, id);
      ghost var present := HasId(contacts, id);
      if present {
        DeleteThenGet(contacts, id);
      }
      contacts := Without(contacts, id);
      if |contacts| < initialLength {
        resp := Response(204, Empty);
      } else {
        resp := NotFound;
      }
    }

    /** POST /api/persons with body fields `name` and `number`. */
    method Create(name: Option<string>, number: Option<string>) returns (resp: Response)
      requires Valid()
      modifies this
      ensures Valid()
      ensures Blank(name) || Blank(number) ==>
                resp == Response(400, Error(RequiredMessage)) && contacts == old(contacts)
      ensures !Blank(name) && !Blank(number) && NameExists(old(contacts), name.value) ==>
                resp == Response(409, Error(ConflictMessage(name.value))) && contacts == old(contacts)
      ensures !Blank(name) && !Blank(number) && !NameExists(old(contacts), name.value) ==>
                var added := Contact(NextId(old(contacts)), Trim(name.value), Trim(number.value));
                resp == Response(201, Person(added)) && contacts == old(contacts) + [added]
    {
      if Blank(name) || Blank(number) {
        return Response(400, Error(RequiredMessage));
      }
      if NameExists(contacts, name.value) {
        return Response(409, Error(ConflictMessage(name.value)));
      }
      var newId := NextId(contacts);
      var newPerson := Contact(newId, Trim(name.value), Trim(number.value));
      AppendNextKeepsInvariant(contacts, name.value, number.value);
      contacts := contacts + [newPerson];
      resp := Response(201, Person(newPerson));
    }
  }
}
