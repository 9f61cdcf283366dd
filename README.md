# Phonebook contact directory

This project models the contact directory of a small phonebook service
(`backend_a/index.js`). The service keeps an ordered in-memory list of
`{id, name, number}` contacts, seeded with four entries. Its HTTP handlers
read and change that list:

- get by id answers 200 with the first contact carrying the id, or 404;
- delete by id filters the id out and answers 204 if the list got shorter, or 404;
- create first rejects a missing or empty `name` or `number` with 400, then a
  name equal, case-insensitively, to a stored name with 409; otherwise it
  appends a contact whose id is the largest stored id plus one (1 for an
  empty list), with `name` and `number` trimmed, and answers 201;
- the info page reports the number of contacts.

Three modules, one per file:

- `JsString` (`js_string.dfy`): the two string methods the handlers call.
  `Trim` strips ECMAScript white space and line terminators from both ends;
  `Lower` lower-cases ASCII letters.
- `Directory` (`directory.dfy`): the `Contact` and `Response` datatypes, the
  pure lookups the handlers use (`Find` for `find`, `Without` for `filter`,
  `NameExists` for `some`, `MaxId`/`NextId` for the `Math.max` id rule), the
  lemmas about them, and the class `Phonebook` whose `contacts` field is the
  module-level list that delete and create reassign.
- `Scenarios` (`scenarios.dfy`): request sequences a client can run, proved
  from the handlers' contracts alone, starting either from any valid
  phonebook or from a fresh one (`SeedSession`). `SeedNames`,
  `SeedNameAnyCase` and `SeedAddThenDelete` are facts about the seed list
  stated on the pure lookups, which those sequences use.

The object invariant `Phonebook.Valid()` holds for the seed list and is kept
by every handler. It says three things: ids are unique, ids are positive,
and every stored name and number is already trimmed. Id uniqueness holds
because a new id is strictly greater than every stored id.

The code enforces neither case-insensitive name uniqueness nor non-empty
stored fields, and the model does not claim either:

- The duplicate check compares the untrimmed incoming name with stored names
  that were trimmed. So `" " + name` of a stored contact passes the check and
  is then stored as that same name (`PaddedNameNeverConflicts`,
  `Scenarios.AddPaddedDuplicate`).
- A whitespace-only name or number is not empty, so validation accepts it.
  It is then stored as the empty string (`Scenarios.AddBlankName`).

Ids are "largest plus one", not a counter. Deleting the newest contact and
adding another hands out the same id again (`Scenarios.IdReuse`).

## Model

| member | source | states |
|---|---|---|
| `JsString.Trim` | backend_a/index.js:108-109 | the result neither starts nor ends with white space; it is a contiguous piece of the input, and everything dropped before and after it is white space |
| `JsString.TrimOfTrimmed` | backend_a/index.js:108-109 | trimming a string that has no white space at either end returns it unchanged |
| `JsString.TrimAllSpace` | backend_a/index.js:108-109 | a string of white space only trims to the empty string |
| `JsString.TrimDropsLeadingSpace` | backend_a/index.js:108 | one space put in front of a trimmed string is removed again by trim |
| `JsString.Lower` | backend_a/index.js:91 | same length as the input; each upper-case ASCII letter becomes its lower-case partner; every other character kept in place |
| `JsString.LowerEqual` | backend_a/index.js:91 | two strings lower-case to the same string exactly when they differ at most in the case of ASCII letters |
| `JsString.LowerKeepsLeadingSpace` | backend_a/index.js:90-91 | a string starting with white space never lower-cases to the same string as one that does not |
| `Directory.Find` | backend_a/index.js:53 | nothing is found exactly when no contact has the id; otherwise the result is the first contact in list order with that id |
| `Directory.Without` | backend_a/index.js:67 | no remaining contact has the id; the list gets shorter exactly when some contact had it; with no such contact the list is returned unchanged |
| `Directory.WithoutMembers` | backend_a/index.js:67 | a contact survives the filter exactly when it was in the list and its id differs |
| `Directory.WithoutAppend` | backend_a/index.js:67 | filtering a concatenation is concatenating the filtered parts, so the survivors keep their relative order |
| `Directory.WithoutOnly` | backend_a/index.js:67 | when only position k carries the id, the filter removes exactly that position and keeps the rest in order |
| `Directory.WithoutUnique` | backend_a/index.js:67 | with unique ids, deleting the id at position k gives the list without position k |
| `Directory.DeleteThenGet` | backend_a/index.js:53-69 | with unique ids and the id present, delete shrinks the list by exactly one and a later find of that id finds nothing |
| `Directory.WithoutIdempotent` | backend_a/index.js:67 | filtering the same id a second time changes nothing |
| `Directory.WithoutKeepsUnique` | backend_a/index.js:67 | filtering keeps ids unique |
| `Directory.WithoutKeepsInvariant` | backend_a/index.js:67 | filtering keeps the directory invariant (unique positive ids, trimmed fields) |
| `Directory.WithoutAppended` | backend_a/index.js:67 | deleting the id of a just-appended contact whose id no earlier contact has gives back the earlier list |
| `Directory.NameExists` | backend_a/index.js:90-92 | true exactly when some stored name, lower-cased, equals the lower-cased incoming name |
| `Directory.NameExistsIgnoringCase` | backend_a/index.js:89-92 | a name is reported as existing exactly when it equals some stored name up to the case of ASCII letters |
| `Directory.MaxId` | backend_a/index.js:102 | on a non-empty list, the result is the id of some contact and no contact has a larger id |
| `Directory.NextId` | backend_a/index.js:101-103 | 1 for the empty list; otherwise one more than an id in the list; always strictly greater than every id in the list |
| `Directory.Seed` | backend_a/index.js:23-28 | the seed list has four contacts with ids 1, 2, 3, 4 in that order |
| `Directory.SeedInvariant` | backend_a/index.js:23-28 | the seed list has unique positive ids and trimmed names and numbers |
| `Directory.AppendKeepsInvariant` | backend_a/index.js:106-113 | appending a contact with a positive id above every stored id and trimmed fields keeps the invariant |
| `Directory.AppendNextKeepsInvariant` | backend_a/index.js:101-113 | appending the contact create builds (id from the max-plus-one rule, trimmed fields) keeps ids unique and the whole invariant |
| `Directory.PaddedNameNeverConflicts` | backend_a/index.js:90-108 | over trimmed stored names, a stored name with one space in front is never reported as existing, yet trims back to that stored name |
| `Directory.Phonebook.constructor` | backend_a/index.js:23-28 | the directory starts as the seed list, with the invariant established |
| `Directory.Phonebook.Count` | backend_a/index.js:37 | the count on the info page is the current number of contacts |
| `Directory.Phonebook.Get` | backend_a/index.js:51-60 | 200 exactly when some contact has the id, with the first such contact as body; otherwise 404 with "person not found"; the list is not modified |
| `Directory.Phonebook.Delete` | backend_a/index.js:64-75 | the new list is the old one with that id filtered out; 204 exactly when the list got shorter, and then by exactly one; otherwise 404 and the list unchanged; the invariant is kept |
| `Directory.Phonebook.Create` | backend_a/index.js:79-119 | a missing or empty field gives 400 before any other check, list unchanged; a case-insensitive name match gives 409 naming the untrimmed name, list unchanged; otherwise 201 with the contact appended at the end: id from the max-plus-one rule, trimmed name and number; the invariant is kept |
| `Scenarios.SeedNames` | backend_a/index.js:89-103 | on the seed list "Mary Poppendieck" is taken, "New Person" is free, and the next id is 5 |
| `Scenarios.SeedNameAnyCase` | backend_a/index.js:89-92 | on the seed list "MARY poppendieck" counts as taken, since the check ignores letter case |
| `Scenarios.SeedAddThenDelete` | backend_a/index.js:53-69 | on the seed list with "New Person" appended as id 5, filtering out id 2 leaves ids 1, 3, 4, 5 and find of id 2 returns nothing |
| `Scenarios.PostTakenThenFree` | backend_a/index.js:89-117 | on any valid phonebook, posting a taken name answers 409 naming it and changes nothing; posting a free trimmed name then answers 201 and appends it with the next id |
| `Scenarios.SeedSession` | backend_a/index.js:23-117 | from a fresh phonebook: posting "Mary Poppendieck" answers 409, posting "New Person" answers 201 with id 5, deleting id 2 answers 204, a get of id 2 answers 404, and the list holds ids 1, 3, 4, 5 |
| `Scenarios.AddPaddedDuplicate` | backend_a/index.js:89-113 | posting a stored name with a space in front answers 201 and stores a second contact with exactly that name |
| `Scenarios.AddBlankName` | backend_a/index.js:82-113 | posting a name of two spaces answers 201, and the list becomes the old one with the returned contact, whose name is empty, appended at the end |
| `Scenarios.DeleteTwice` | backend_a/index.js:64-75 | deleting a present id answers 204 and shrinks the list by one; a get and a second delete of that id then both answer 404 |
| `Scenarios.IdReuse` | backend_a/index.js:100-113 | adding a contact, deleting it and adding another gives both new contacts the same id |

## Left out

- Express, cors, JSON body parsing, the listening port and `app.listen` (backend_a/index.js:1-7, 121-126): framework and network wiring.
- The morgan access log and its custom token, and the `console.log` calls: logging output only.
- The info page's HTML and its `new Date().toLocaleString()` timestamp: presentation and the clock. Only the count is modelled (`Phonebook.Count`).
- Listing all contacts (`GET /api/persons/`, backend_a/index.js:31-33) returns the list as it is; that is the `contacts` field itself, so it has no member of its own.
- Parsing the path id with `Number(...)`, including `NaN`: ids reach the handlers as already-parsed integers.
- JavaScript truthiness of non-string body fields (numbers, `null`, objects): `name` and `number` are optional strings, and "missing or empty" is the validation failure.
- JsString.Lower: lower-cases only the ASCII letters A-Z. `toLowerCase` also maps non-ASCII letters, so two names that differ only in the case of a non-ASCII letter are not treated as duplicates here.
- Directory.NextId: always returns a value. The source spreads every stored id into `Math.max(...)` (backend_a/index.js:102), which throws a `RangeError` once the list is large enough for the engine's argument/stack limit (roughly 10^5 to 10^6 contacts). Express then answers 500, and every later create fails the same way until contacts are deleted. The model does not capture that limit or the resulting 500, so `Phonebook.Create` answers 201 on every list.
- Number and string representation: ids are modelled as unbounded integers, while JavaScript numbers are IEEE doubles. Once the largest id reaches 2^53, `Math.max(...) + 1` (backend_a/index.js:102) stops growing and create would hand out an id already stored; the model does not capture that limit, and its id-uniqueness invariant relies on unbounded ids. Strings are sequences of Unicode scalar values, while JavaScript strings are UTF-16 code units, so a lone surrogate that a JSON body can carry is not representable.
- Concurrency: there is none. Each handler runs to completion on the event loop, which is what sequential methods on one object model.
- Responses carry the status and the body as data. Headers, JSON encoding and the transport are not modelled.
