# Shopping-list server, modelled in Dafny

The repository is a small Node.js HTTP service (`server.js`) that keeps a
shopping list in the JSON file `data/shoppingList.json` and offers four
routes over it: `GET /shopping-list` lists the items, `POST /shopping-list`
appends one, `PUT /shopping-list/{index}` replaces the item at a position,
and `DELETE /shopping-list/{index}` removes it. Every other request gets
404 `{"error":"Route not found"}`. An item is accepted when its `name` is
truthy and its `quantity` is a number above zero; otherwise the answer is 400
with a fixed message. An index that `parseInt` cannot read, or that lies
outside the list, gets 404 `{"error":"Item not found"}`, and for PUT that
check comes before the body is examined.

The model has six modules:

- `JsValues` (`js_values.dfy`): the values `JSON.parse` returns, property
  access on them (reading a property of `null` throws a TypeError), and
  JavaScript truthiness.
- `Validation` (`validation.dfy`): the item guard, evaluated left to right as
  written, and proved equal to a plain predicate `Acceptable`.
- `IndexParsing` (`index_parsing.dfy`): `url.split('/').pop()` and
  `parseInt(…, 10)` (leading white space, an optional sign, the longest run
  of digits, NaN as `None`). Both are proved against their inverses: the
  last segment after a '/', and the decimal numeral of a number. The white
  space skipped is ECMAScript's StrWhiteSpaceChar: tab, vertical tab, form
  feed, the Zs space separators, the byte order mark and the four line
  terminators.
- `Routing` (`routing.dfy`): the method/path dispatch.
- `Handlers` (`handlers.dfy`): each route as a function from the stored list
  to a reply and a new list; `Serve` for one request and `Run` for a
  sequence. The lemmas state what the service promises: what a rejected
  request leaves, which positions change, how the length moves, and that
  only checked items are ever stored. The last holds of the model only. In
  the program, a quantity written `1e999` parses to Infinity, passes the
  check, and is written to the file as `null`; the model has no Infinity.
- `Server` (`server.dfy`): the class `ShoppingListServer`. Its field
  `stored` stands for the JSON file. Its methods read the list, change their
  copy, and write it back, as the source does, and each is proved to agree
  with the matching function in `Handlers`. Two client sessions run the
  end-to-end example (create, read, update, delete) and the rejected
  requests against a fresh server.

Where the code and its own comments and messages disagree, the model
follows the code:

- The comment at server.js:49 and the 400 message at server.js:52 say the
  name must be non-empty. The code tests only `!item.name`, so any truthy name is accepted: a number other than 0,
  `true`, an array or an object. `StringNameRule` states the rule for the
  usual shape (a string name and a numeric quantity).
- A body that is not JSON makes `JSON.parse` throw a SyntaxError. A body that
  is the JSON `null` makes `null.name` throw a TypeError. Neither is caught,
  so the callback ends with the exception and nothing is written. `Run` stops
  at such an outcome, because an uncaught exception ends the Node process.
- The guard is written `quantity <= 0` under a negation, not `quantity > 0`.
  The two differ only for NaN, and `JSON.parse` never produces NaN.
- GET and POST need the path exactly, so `/shopping-list/` or a query string
  on the collection path finds no route. PUT and DELETE take any url with the
  prefix `/shopping-list/` and read the index from its last segment. So
  `"/shopping-list/3abc"` names 3, `"/shopping-list/-0"` names 0, and
  `"/shopping-list/a/2"` names 2.

## Model

| member | source | states |
|---|---|---|
| `JsValues.Property` | server.js:50 | reading `name` or `quantity` throws exactly when the value is `null`; it yields a JSON value exactly when the value is an object holding that key, and then it yields that field |
| `JsValues.FalsyValues` | server.js:50 | `!item.name` holds exactly for `undefined`, `null`, `false`, `0` and `""`; every other value, an empty array or object included, is truthy |
| `JsValues.IsNumber` | server.js:50 | `typeof … === 'number'` holds exactly for a JSON number |
| `Validation.IsInvalid` | server.js:50 | the guard throws a TypeError exactly for a `null` body; for every other body it rejects exactly the items that are not `Acceptable` (an object with a truthy name and a numeric quantity above 0) |
| `Validation.StringNameRule` | server.js:49-50 | for an item with a string name and a numeric quantity, the guard rejects exactly when the name is empty or the quantity is not above 0 |
| `IndexParsing.LastSegment` | server.js:66 | `split('/').pop()` is the longest suffix of the url without '/': it holds no '/', it ends the url, and the character before it is '/' unless it is the whole url |
| `IndexParsing.LastSegmentAfterSlash` | server.js:66 | whatever comes before it, a '/' followed by a slash-free segment makes that segment the last one |
| `IndexParsing.TrimStart` | server.js:66 | `parseInt` first drops a prefix made only of white space and stops at the first other character |
| `IndexParsing.DigitPrefix` | server.js:66 | the digits `parseInt` reads are the longest run of decimal digits at the start |
| `IndexParsing.ParseDigitsReads` | server.js:66 | a run of digits followed by a non-digit reads as the run's value, and an empty run reads as NaN |
| `IndexParsing.SignStep` | server.js:66 | a leading `-` negates the digits' value, a leading `+` keeps it, and a sign without digits after it reads as NaN |
| `IndexParsing.ParseIntReadsPrefix` | server.js:66 | for every string, split into leading white space, an optional sign, the longest digit run and the rest, `parseInt` gives NaN exactly when the digit run is empty, and otherwise the run's value, negated only under `-` (`"+3"` is 3, `"007"` is 7, `" -2x"` is -2) |
| `IndexParsing.RequestedIndexReadsLastSegment` | server.js:66 | the index of a url ending in '/' and a segment is that segment read by `parseInt` as above, whatever comes before (`"/shopping-list/a/2"` names 2) |
| `IndexParsing.ParseIntPlusDecimal` | server.js:66 | a plus sign before the numeral of n reads as n (`"+3"` is 3), whatever non-digit tail follows |
| `IndexParsing.LeadingZerosValue` | server.js:66 | zeros in front of a run of digits do not change the value it denotes |
| `IndexParsing.LeadingZerosRead` | server.js:66 | any number of leading zeros before the numeral of n reads as n (`"007"` is 7) |
| `IndexParsing.NestedUrlIndex` | server.js:96 | only the last segment of the url is read: `"/shopping-list/a/2"` names index 2 |
| `IndexParsing.IsBadIndex` | server.js:69 | the index is rejected (NaN, negative, or not below the length) exactly when it names no position of the list |
| `IndexParsing.DigitsValueDecimal` | server.js:66 | reading the decimal numeral of a number gives the number back |
| `IndexParsing.ParseIntDecimal` | server.js:66 | `parseInt` reads back the numeral of every natural number and ignores a tail that does not start with a digit |
| `IndexParsing.ParseIntNegatedDecimal` | server.js:66 | `parseInt` of a minus sign followed by the numeral of n gives -n, whatever non-digit tail follows |
| `IndexParsing.ParseIntNaN` | server.js:69 | a segment that starts with anything other than white space, a sign or a digit reads as NaN |
| `Routing.Dispatch` | server.js:33-115 | GET and POST are chosen exactly for the collection path, PUT and DELETE exactly for urls with the item prefix, and every other request is unmatched |
| `Routing.ItemUrlNamesIndex` | server.js:66-69 | the url `/shopping-list/{n}`, with any tail that starts with no digit or '/', names index n and passes the bounds check exactly when n is below the length |
| `Routing.NegativeItemUrl` | server.js:66-69 | the url `/shopping-list/-{n}` names -n and fails the bounds check unless n is 0 and the list is not empty |
| `Handlers.ErrorBody` | server.js:70-71 | an error reply is an object whose only key is `error`, holding the message |
| `Handlers.MessageBody` | server.js:58-59 | a success reply is an object with exactly the keys `message` and `item`, holding the message and the item |
| `Handlers.ListItems` | server.js:33-36 | GET answers 200 with exactly the stored items, in order, and leaves the list unchanged |
| `Handlers.Splice` | server.js:104 | `splice(index, 1)` returns exactly the element at index as a one-element array; earlier elements stay, later ones move down by one, and the length drops by one |
| `Handlers.SpliceUndone` | server.js:104 | putting the removed element back at its index restores the original list |
| `Handlers.AddItem` | server.js:40-60 | a malformed or `null` body throws and a rejected item gets 400 with the fixed message, all with the list unchanged; an accepted item is appended last with every earlier item kept, and the reply is 201 echoing it |
| `Handlers.UpdateItem` | server.js:64-92 | a NaN, negative or too-large index gets 404 "Item not found" whatever the body, with the list unchanged; otherwise a malformed or `null` body throws and a rejected item gets 400, with the list unchanged; an accepted item replaces exactly position index, the length stays the same, and the reply is 200 "Item updated" |
| `Handlers.DeleteItem` | server.js:95-109 | a bad index gets 404 "Item not found" with the list unchanged; otherwise the length drops by one, earlier items stay, later items move down, and the reply is 200 "Item deleted" carrying the removed item in a one-element array |
| `Handlers.Serve` | server.js:31-116 | an unmatched request gets 404 "Route not found" and changes nothing; the list changes only with a 200 or 201 reply; the length moves by +1 for a created item, -1 for a deleted one and 0 otherwise; a list of acceptable items stays one |
| `Handlers.Run` | server.js:31-116 | a run answers at most one outcome per request; only its last outcome can be an uncaught exception, and it answers fewer outcomes than requests only when it stopped at one |
| `Handlers.RunKeepsItemsAcceptable` | server.js:50-56 | from a list of acceptable items, such as the empty file, every list a run of requests leaves holds only acceptable items (an Infinity quantity, which the program stores as `null`, is outside the model) |
| `Handlers.RunLength` | server.js:55-105 | over any run, the final length is the first length plus the items created minus the items deleted |
| `Handlers.RepeatedGetsAgree` | server.js:33-36 | GET answers 200 with the stored list and leaves it unchanged, so a second GET answers exactly the same |
| `Handlers.ServeCollectionPost` | server.js:40 | a POST to the collection path reaches the create handler |
| `Handlers.ServeItemPut` | server.js:64-66 | a PUT to the item prefix plus a slash-free segment reaches the update handler with `parseInt` of the segment as index |
| `Handlers.ServeItemDelete` | server.js:95-96 | a DELETE to the item prefix plus a slash-free segment reaches the delete handler with `parseInt` of the segment as index |
| `Handlers.ServePostAccepted` | server.js:55-59 | a POST of an acceptable item appends it to any list and answers 201 echoing it |
| `Handlers.ServePutAccepted` | server.js:86-90 | a PUT of an acceptable item to `/shopping-list/{n}` with n inside the list replaces position n only and answers 200 "Item updated" |
| `Handlers.ServeDeleteInRange` | server.js:104-108 | a DELETE to `/shopping-list/{n}` with n inside the list removes position n only and answers 200 with that item in a one-element array |
| `Handlers.EmptyNameRejected` | server.js:50-53 | a POST whose name is the empty string gets 400 with the fixed message, and any list stays as it was |
| `Handlers.DeleteOnEmptyList` | server.js:99-102 | DELETE `/shopping-list/0` on the empty list gets 404 "Item not found" |
| `Handlers.WordIndexNotFound` | server.js:66-72 | a PUT to `/shopping-list/milk` gets 404 "Item not found" whatever the list and the body, and the list stays as it was |
| `Server.ShoppingListServer.constructor` | server.js:9-16 | before the first write, the missing file reads as the empty list |
| `Server.ShoppingListServer.ReadShoppingList` | server.js:19-23 | reading returns the stored list |
| `Server.ShoppingListServer.WriteShoppingList` | server.js:26-28 | writing replaces the whole stored list |
| `Server.ShoppingListServer.HandleGet` | server.js:33-37 | answers 200 with the stored list and writes nothing |
| `Server.ShoppingListServer.HandlePost` | server.js:40-61 | the reply and the new stored list are those `AddItem` gives for the old stored list |
| `Server.ShoppingListServer.HandlePut` | server.js:64-92 | the reply and the new stored list are those `UpdateItem` gives for the old stored list and the url's index |
| `Server.ShoppingListServer.HandleDelete` | server.js:95-109 | the reply and the new stored list are those `DeleteItem` gives for the old stored list and the url's index |
| `Server.ShoppingListServer.HandleRequest` | server.js:31-116 | the reply and the new stored list are those `Serve` gives, and a file of acceptable items stays one |
| `Server.CreateMilk` | server.js:33-61 | on an empty list, POST milk×2 gets 201 with the item and leaves `[milk×2]` stored, and the following GET lists exactly that |
| `Server.RaiseMilk` | server.js:64-92 | with `[milk×2]` stored, PUT `/shopping-list/0` with milk×3 gets 200 with the new item and leaves `[milk×3]`, which the following GET (lines 33-37) lists |
| `Server.DeleteMilk` | server.js:95-109 | with `[milk×3]` stored, DELETE `/shopping-list/0` gets 200 with the removed item in an array and leaves `[]`, which the following GET (lines 33-37) lists |
| `Server.MilkSession` | server.js:33-108 | on a fresh server: POST milk×2 gets 201, GET lists it, PUT `/shopping-list/0` with milk×3 gets 200, GET shows quantity 3, DELETE `/shopping-list/0` gets 200 with the item, and GET lists `[]` |
| `Server.RejectedSession` | server.js:50-102 | on a fresh server: POST with an empty name gets 400, DELETE `/shopping-list/0` gets 404, PUT `/shopping-list/milk` gets 404, and GET still lists `[]` |

## Left out

- The HTTP server, `server.listen` on port 5000, the log line and the
  `Content-Type` header (server.js:31, 119-122) are I/O. A reply is modelled
  as its status and JSON body.
- The body arrives in chunks through `req.on('data')` and `req.on('end')`
  (server.js:41-45, 74-77). The model takes the body as parsed already:
  `Malformed` when `JSON.parse` would throw, else the parsed value.
- JSON text is not modelled. This leaves out the exact characters of
  `JSON.stringify`, its indentation, and the key order of objects (an object
  is a map). Numbers are reals. A literal such as `1e999` parses to
  Infinity, which the model cannot hold and which would be written back as
  `null`.
- Property access is modelled only for `name` and `quantity`. No built-in
  prototype of a JSON value defines those two. Fields such as `__proto__`
  are not modelled.
- The file system is not modelled (server.js:9-16, 21, 27). The stored list
  is the field `stored`, and a missing file reads as `[]`. Not modelled: a
  file that holds invalid JSON or a non-array, read and write errors, and a
  crash halfway through a write.
- Concurrency is not modelled. PUT reads the list before its body arrives
  and writes back that copy. Requests that interleave can therefore lose
  updates. The model serves one request at a time.
- `parseInt` returns a double, which loses precision above 2^53. The model
  uses unbounded integers. This changes no bounds check for a list shorter
  than 2^53.
- After an uncaught exception the process ends. `Run` stops there, and a
  restart is not modelled.
