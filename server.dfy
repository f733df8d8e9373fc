/**
 The request callback as the source runs it: each handler loads the stored
 list, changes its own copy in place, and writes the whole list back. The
 file `data/shoppingList.json` is the field `stored`.
 */
module Server {
  import opened JsValues
  import opened Validation
  import opened IndexParsing
  import opened Routing
  import opened Handlers

  class ShoppingListServer {
    /** The list in `data/shoppingList.json`; a missing file is created
        holding `[]`, so it reads as the empty list. */
    var stored: seq<Json>

    /** The first request finds no file and starts from the empty list. */
    constructor ()
      ensures stored == []
    {
      stored := [];
    }

    /** `readShoppingList()`: the whole stored list. */
    method ReadShoppingList() returns (list: seq<Json>)
      ensures list == stored
    {
      list := stored;
    }

    /** `writeShoppingList(list)`: the file is rewritten with `list`. */
    method WriteShoppingList(list: seq<Json>)
      modifies this
      ensures stored == list
    {
      stored := list;
    }

    /** GET /shopping-list: answers 200 with the stored list and writes
        nothing. */
    method HandleGet() returns (out: Outcome)
      ensures Transition(out, stored) == ListItems(stored)
    {
      var list := ReadShoppingList();
      out := Reply(200, JArray(list));
    }

    /** POST /shopping-list. */
    method HandlePost(body: RawBody) returns (out: Outcome)
      modifies this
      ensures Transition(out, stored) == AddItem(old(stored), body)
    {
      if body.Malformed? {
        return Threw(SyntaxError);
      }
      var newItem := body.value;
      var list := ReadShoppingList();
      var invalid := IsInvalid(newItem);
      if invalid.Thrown? {
        return Threw(invalid.exception);
      }
      if invalid.value {
        return InvalidInput();
      }
      list := list + [newItem];
      WriteShoppingList(list);
      out := Reply(201, MessageBody(ItemAddedMessage, newItem));
    }

    /** PUT /shopping-list/{index}: the index is checked against the list
        read before the body is looked at. */
    method HandlePut(url: string, body: RawBody) returns (out: Outcome)
      modifies this
      ensures Transition(out, stored) == UpdateItem(old(stored), RequestedIndex(url), body)
    {
      var index := RequestedIndex(url);
      var list := ReadShoppingList();
      if IsBadIndex(index, |list|) {
        return ItemNotFound();
      }
      if body.Malformed? {
        return Threw(SyntaxError);
      }
      var updatedItem := body.value;
      var invalid := IsInvalid(updatedItem);
      if invalid.Thrown? {
        return Threw(invalid.exception);
      }
      if invalid.value {
        return InvalidInput();
      }
      list := list[index.value := updatedItem];
      WriteShoppingList(list);
      out := Reply(200, MessageBody(ItemUpdatedMessage, updatedItem));
    }

    /** DELETE /shopping-list/{index}. */
    method HandleDelete(url: string) returns (out: Outcome)
      modifies this
      ensures Transition(out, stored) == DeleteItem(old(stored), RequestedIndex(url))
    {
      var index := RequestedIndex(url);
      var list := ReadShoppingList();
      if IsBadIndex(index, |list|) {
        return ItemNotFound();
      }
      var deleted := Splice(list, index.value);
      list := deleted.remaining;
      WriteShoppingList(list);
      out := Reply(200, MessageBody(ItemDeletedMessage, JArray(deleted.removed)));
    }

    /** The callback passed to `http.createServer`: dispatch, then the
        handler. Besides matching `Serve`, it keeps a file of acceptable
        items one. */
    method HandleRequest(request: Request) returns (out: Outcome)
      modifies this
      ensures Transition(out, stored) == Serve(old(stored), request)
      ensures AllAcceptable(old(stored)) ==> AllAcceptable(stored)
    {
      match Dispatch(request.httpMethod, request.url)
      case ListRoute => out := HandleGet();
      case AddRoute => out := HandlePost(request.body);
      case UpdateRoute => out := HandlePut(request.url, request.body);
      case DeleteRoute => out := HandleDelete(request.url);
      case NoRoute => out := Reply(404, ErrorBody(RouteNotFoundMessage));
    }
  }

  /** `{ name: "milk", quantity: q }` */
  function Milk(quantity: real): Json {
    JObject(map["name" := JString("milk"), "quantity" := JNumber(quantity)])
  }

  /** The GET every step of a session reads the list with. */
  function ListRequest(): Request {
    Request("GET", CollectionPath, Malformed)
  }

  /** POST milk×2 to an empty list, then read the list. */
  method CreateMilk(server: ShoppingListServer) returns (created: Outcome, listed: Outcome)
    requires server.stored == []
    modifies server
    ensures server.stored == [Milk(2.0)]
    ensures created == Reply(201, MessageBody(ItemAddedMessage, Milk(2.0)))
    ensures listed == Reply(200, JArray([Milk(2.0)]))
  {
    var milk := Milk(2.0);
    assert Acceptable(milk);
    ServePostAccepted([], milk);
    RepeatedGetsAgree([milk], ListRequest(), ListRequest());
    created := server.HandleRequest(Request("POST", CollectionPath, Wellformed(milk)));
    listed := server.HandleRequest(ListRequest());
  }

  /** PUT milk×3 over the item at position 0, then read the list. */
  method RaiseMilk(server: ShoppingListServer) returns (updated: Outcome, listed: Outcome)
    requires server.stored == [Milk(2.0)]
    modifies server
    ensures server.stored == [Milk(3.0)]
    ensures updated == Reply(200, MessageBody(ItemUpdatedMessage, Milk(3.0)))
    ensures listed == Reply(200, JArray([Milk(3.0)]))
  {
    var moreMilk := Milk(3.0);
    assert Acceptable(moreMilk);
    ServePutAccepted([Milk(2.0)], 0, moreMilk);
    RepeatedGetsAgree([moreMilk], ListRequest(), ListRequest());
    updated := server.HandleRequest(Request("PUT", ItemPathPrefix + Decimal(0), Wellformed(moreMilk)));
    listed := server.HandleRequest(ListRequest());
  }

  /** DELETE the item at position 0, then read the list. */
  method DeleteMilk(server: ShoppingListServer) returns (deleted: Outcome, listed: Outcome)
    requires server.stored == [Milk(3.0)]
    modifies server
    ensures server.stored == []
    ensures deleted == Reply(200, MessageBody(ItemDeletedMessage, JArray([Milk(3.0)])))
    ensures listed == Reply(200, JArray([]))
  {
    ServeDeleteInRange([Milk(3.0)], 0, Malformed);
    assert [Milk(3.0)][..0] + [Milk(3.0)][1..] == [];
    RepeatedGetsAgree([], ListRequest(), ListRequest());
    deleted := server.HandleRequest(Request("DELETE", ItemPathPrefix + Decimal(0), Malformed));
    listed := server.HandleRequest(ListRequest());
  }

  /** A session against a fresh server: create milk, read the list, raise
      the quantity, read again, delete the item, and find the list empty. */
  method MilkSession() returns (outcomes: seq<Outcome>)
    ensures outcomes == [
      Reply(201, MessageBody(ItemAddedMessage, Milk(2.0))),
      Reply(200, JArray([Milk(2.0)])),
      Reply(200, MessageBody(ItemUpdatedMessage, Milk(3.0))),
      Reply(200, JArray([Milk(3.0)])),
      Reply(200, MessageBody(ItemDeletedMessage, JArray([Milk(3.0)]))),
      Reply(200, JArray([]))]
  {
    var server := new ShoppingListServer();
    var created, first := CreateMilk(server);
    var updated, second := RaiseMilk(server);
    var deleted, third := DeleteMilk(server);
    outcomes := [created, first, updated, second, deleted, third];
  }

  /** Requests a fresh server turns away without writing: an item with an
      empty name, a delete on the empty list and a non-numeric index; the
      list is still empty afterwards. */
  method RejectedSession() returns (outcomes: seq<Outcome>)
    ensures outcomes == [InvalidInput(), ItemNotFound(), ItemNotFound(), Reply(200, JArray([]))]
  {
    var unnamed := JObject(map["name" := JString(""), "quantity" := JNumber(5.0)]);
    var get := ListRequest();
    var post := Request("POST", CollectionPath, Wellformed(unnamed));
    var delete := Request("DELETE", ItemPathPrefix + Decimal(0), Malformed);
    var put := Request("PUT", ItemPathPrefix + "milk", Wellformed(unnamed));
    EmptyNameRejected([], 5.0);
    DeleteOnEmptyList(Malformed);
    WordIndexNotFound([], Wellformed(unnamed));
    RepeatedGetsAgree([], get, get);

    var server := new ShoppingListServer();
    var invalid := server.HandleRequest(post);
    var missing := server.HandleRequest(delete);
    var notNumber := server.HandleRequest(put);
    var listed := server.HandleRequest(get);
    outcomes := [invalid, missing, notNumber, listed];
  }
}
