/**
 What each route does to the stored list and what it answers, as functions
 from the list before the request to the outcome and the list after it.
 The stateful server in module Server is proved to behave as these say.
 */
module Handlers {
  import opened JsValues
  import opened Validation
  import opened IndexParsing
  import opened Routing

  /** A request body as `JSON.parse` sees it: text that is not JSON (an
      empty body included) makes it throw a SyntaxError. */
  datatype RawBody = Malformed | Wellformed(value: Json)

  datatype Request = Request(httpMethod: string, url: string, body: RawBody)

  /** The status and JSON body written to the response, or the exception
      the callback lets escape. */
  datatype Outcome = Reply(status: int, body: Json) | Threw(exception: Exception)

  /** An outcome together with the stored list after the request. */
  datatype Transition = Transition(outcome: Outcome, list: seq<Json>)

  /** What `list.splice(start, 1)` returns, and what it leaves in `list`. */
  datatype Spliced = Spliced(removed: seq<Json>, remaining: seq<Json>)

  const InvalidInputMessage: string := "Invalid input. Name must be non-empty and quantity must be positive."
  const ItemNotFoundMessage: string := "Item not found"
  const RouteNotFoundMessage: string := "Route not found"
  const ItemAddedMessage: string := "Item added"
  const ItemUpdatedMessage: string := "Item updated"
  const ItemDeletedMessage: string := "Item deleted"

  /** `{ error: message }` */
  function ErrorBody(message: string): (r: Json)
    ensures r.JObject? && r.fields.Keys == {"error"} && r.fields["error"] == JString(message)
  {
    JObject(map["error" := JString(message)])
  }

  /** `{ message: message, item: item }` */
  function MessageBody(message: string, item: Json): (r: Json)
    ensures r.JObject? && r.fields.Keys == {"message", "item"}
    ensures r.fields["message"] == JString(message) && r.fields["item"] == item
  {
    JObject(map["message" := JString(message), "item" := item])
  }

  /** The reply every failed bounds check gives. */
  function ItemNotFound(): Outcome {
    Reply(404, ErrorBody(ItemNotFoundMessage))
  }

  /** The reply every rejected item gives. */
  function InvalidInput(): Outcome {
    Reply(400, ErrorBody(InvalidInputMessage))
  }

  predicate AllAcceptable(list: seq<Json>) {
    forall i :: 0 <= i < |list| ==> Acceptable(list[i])
  }

  /** `list.splice(start, 1)` for a start inside the list: exactly the element
      at `start` comes out, as a one-element array, and the later elements
      move down by one. */
  function Splice(list: seq<Json>, start: nat): (r: Spliced)
    requires start < |list|
    ensures r.removed == [list[start]]
    ensures |r.remaining| == |list| - 1
    ensures forall j :: 0 <= j < start ==> r.remaining[j] == list[j]
    ensures forall j :: start <= j < |r.remaining| ==> r.remaining[j] == list[j + 1]
  {
    Spliced([list[start]], list[..start] + list[start + 1..])
  }

  /** Putting the removed element back where it was undoes the splice. */
  lemma SpliceUndone(list: seq<Json>, start: nat)
    requires start < |list|
    ensures var r := Splice(list, start);
            r.remaining[..start] + r.removed + r.remaining[start..] == list
  {
    var r := Splice(list, start);
    assert r.remaining[..start] == list[..start];
    assert r.remaining[start..] == list[start + 1..];
    assert list == list[..start] + [list[start]] + list[start + 1..];
  }

  /** GET /shopping-list: the stored list, unchanged. */
  function ListItems(list: seq<Json>): (t: Transition)
    ensures t.list == list
    ensures t.outcome.Reply? && t.outcome.status == 200 && t.outcome.body == JArray(list)
  {
    Transition(Reply(200, JArray(list)), list)
  }

  /** POST /shopping-list. A body that is not JSON, or the JSON `null`,
      throws before anything is written; a rejected item gets the 400 reply;
      an accepted one is pushed at the end and echoed with 201. */
  function AddItem(list: seq<Json>, body: RawBody): (t: Transition)
    ensures body.Malformed? ==> t == Transition(Threw(SyntaxError), list)
    ensures body == Wellformed(JNull) ==> t == Transition(Threw(TypeError), list)
    ensures body.Wellformed? && body.value != JNull && !Acceptable(body.value) ==>
              t == Transition(InvalidInput(), list)
    ensures body.Wellformed? && Acceptable(body.value) ==>
              && t.outcome == Reply(201, MessageBody(ItemAddedMessage, body.value))
              && |t.list| == |list| + 1
              && t.list[..|list|] == list
              && t.list[|list|] == body.value
  {
    match body
    case Malformed => Transition(Threw(SyntaxError), list)
    case Wellformed(newItem) =>
      match IsInvalid(newItem)
      case Thrown(e) => Transition(Threw(e), list)
      case Ok(invalid) =>
        if invalid then Transition(InvalidInput(), list)
        else Transition(Reply(201, MessageBody(ItemAddedMessage, newItem)), list + [newItem])
  }

  /** PUT /shopping-list/{index}, given `index`, the url's parsed last
      segment. The bounds check comes first, so a bad index gets 404 whatever
      the body; then the body is parsed and checked as for POST; an accepted
      item replaces position `index` and nothing else. */
  function UpdateItem(list: seq<Json>, index: Option<int>, body: RawBody): (t: Transition)
    ensures IsBadIndex(index, |list|) ==> t == Transition(ItemNotFound(), list)
    ensures !IsBadIndex(index, |list|) && body.Malformed? ==>
              t == Transition(Threw(SyntaxError), list)
    ensures !IsBadIndex(index, |list|) && body == Wellformed(JNull) ==>
              t == Transition(Threw(TypeError), list)
    ensures !IsBadIndex(index, |list|) && body.Wellformed? && body.value != JNull
              && !Acceptable(body.value) ==>
              t == Transition(InvalidInput(), list)
    ensures !IsBadIndex(index, |list|) && body.Wellformed? && Acceptable(body.value) ==>
              var i := index.value;
              && t.outcome == Reply(200, MessageBody(ItemUpdatedMessage, body.value))
              && |t.list| == |list|
              && t.list[i] == body.value
              && forall j :: 0 <= j < |list| && j != i ==> t.list[j] == list[j]
  {
    if IsBadIndex(index, |list|) then Transition(ItemNotFound(), list)
    else
      match body
      case Malformed => Transition(Threw(SyntaxError), list)
      case Wellformed(updatedItem) =>
        match IsInvalid(updatedItem)
        case Thrown(e) => Transition(Threw(e), list)
        case Ok(invalid) =>
          if invalid then Transition(InvalidInput(), list)
          else
            Transition(Reply(200, MessageBody(ItemUpdatedMessage, updatedItem)),
                       list[index.value := updatedItem])
  }

  /** DELETE /shopping-list/{index}, given `index`, the url's parsed last
      segment. A bad index gets 404; otherwise exactly one element goes, the
      earlier ones stay, the later ones move down, and the reply carries the
      removed element wrapped in a one-element array. */
  function DeleteItem(list: seq<Json>, index: Option<int>): (t: Transition)
    ensures IsBadIndex(index, |list|) ==> t == Transition(ItemNotFound(), list)
    ensures !IsBadIndex(index, |list|) ==>
              var i := index.value;
              && t.outcome == Reply(200, MessageBody(ItemDeletedMessage, JArray([list[i]])))
              && |t.list| == |list| - 1
              && (forall j :: 0 <= j < i ==> t.list[j] == list[j])
              && (forall j :: i <= j < |t.list| ==> t.list[j] == list[j + 1])
  {
    if IsBadIndex(index, |list|) then Transition(ItemNotFound(), list)
    else
      var deleted := Splice(list, index.value);
      Transition(Reply(200, MessageBody(ItemDeletedMessage, JArray(deleted.removed))), deleted.remaining)
  }

  /** How far a reply says the list length moved: one up for a created item,
      one down for a deleted one, otherwise not at all. */
  function LengthChange(outcome: Outcome): int {
    if outcome.Reply? && outcome.status == 201 then 1
    else if outcome.Reply? && outcome.status == 200 && outcome.body.JObject?
            && "message" in outcome.body.fields
            && outcome.body.fields["message"] == JString(ItemDeletedMessage)
    then -1
    else 0
  }

  /** What holds of every request's transition: only a 200 or 201 reply
      comes with a changed list, the length moves as the reply says, and a
      list of acceptable items stays one. */
  predicate Coherent(list: seq<Json>, t: Transition) {
    && (t.list != list ==> t.outcome.Reply? && t.outcome.status in {200, 201})
    && |t.list| == |list| + LengthChange(t.outcome)
    && (AllAcceptable(list) ==> AllAcceptable(t.list))
  }

  lemma AddItemCoherent(list: seq<Json>, body: RawBody)
    ensures Coherent(list, AddItem(list, body))
  {
    var t := AddItem(list, body);
    if body.Wellformed? && Acceptable(body.value) {
      assert t.list == list + [body.value];
    }
  }

  lemma UpdateItemCoherent(list: seq<Json>, index: Option<int>, body: RawBody)
    ensures Coherent(list, UpdateItem(list, index, body))
  {
    var t := UpdateItem(list, index, body);
    if !IsBadIndex(index, |list|) && body.Wellformed? && Acceptable(body.value) {
      UpdatedReplyKeepsLength(body.value);
      assert forall j :: 0 <= j < |list| ==> t.list[j] == list[j] || t.list[j] == body.value;
    } else {
      assert t.list == list;
    }
  }

  /** An "Item updated" reply does not move the length. */
  lemma UpdatedReplyKeepsLength(item: Json)
    ensures LengthChange(Reply(200, MessageBody(ItemUpdatedMessage, item))) == 0
  {
    assert ItemUpdatedMessage[5] != ItemDeletedMessage[5];
    assert JString(ItemUpdatedMessage) != JString(ItemDeletedMessage);
  }

  lemma DeleteItemCoherent(list: seq<Json>, index: Option<int>)
    ensures Coherent(list, DeleteItem(list, index))
  {
    var t := DeleteItem(list, index);
    if !IsBadIndex(index, |list|) {
      assert LengthChange(Reply(200, MessageBody(ItemDeletedMessage, JArray([list[index.value]])))) == -1;
      assert forall j :: 0 <= j < |t.list| ==> t.list[j] == list[j] || t.list[j] == list[j + 1];
    }
  }

  /** One request, from dispatch to reply. An unmatched request gets 404
      "Route not found" and changes nothing; only a 200 or 201 reply comes
      with a changed list; the length moves as the reply says; and a list of
      acceptable items stays one, since nothing unchecked is ever stored. */
  function Serve(list: seq<Json>, request: Request): (t: Transition)
    ensures Dispatch(request.httpMethod, request.url) == NoRoute ==>
              t == Transition(Reply(404, ErrorBody(RouteNotFoundMessage)), list)
    ensures t.list != list ==> t.outcome.Reply? && t.outcome.status in {200, 201}
    ensures |t.list| == |list| + LengthChange(t.outcome)
    ensures AllAcceptable(list) ==> AllAcceptable(t.list)
  {
    match Dispatch(request.httpMethod, request.url)
    case ListRoute => ListItems(list)
    case AddRoute =>
      AddItemCoherent(list, request.body);
      AddItem(list, request.body)
    case UpdateRoute =>
      var index := RequestedIndex(request.url);
      UpdateItemCoherent(list, index, request.body);
      UpdateItem(list, index, request.body)
    case DeleteRoute =>
      var index := RequestedIndex(request.url);
      DeleteItemCoherent(list, index);
      DeleteItem(list, index)
    case NoRoute => Transition(Reply(404, ErrorBody(RouteNotFoundMessage)), list)
  }

  /** The outcomes of a sequence of requests and the list they leave. */
  datatype Trace = Trace(outcomes: seq<Outcome>, list: seq<Json>)

  /** The server's life over a sequence of requests, each served against the
      list the one before left. An exception that escapes the callback ends
      the process, so no later request is answered. */
  function Run(list: seq<Json>, requests: seq<Request>): (r: Trace)
    ensures |r.outcomes| <= |requests|
    ensures forall i :: 0 <= i < |r.outcomes| - 1 ==> !r.outcomes[i].Threw?
    ensures |r.outcomes| < |requests| ==> r.outcomes != [] && r.outcomes[|r.outcomes| - 1].Threw?
    decreases |requests|
  {
    if requests == [] then Trace([], list)
    else
      var t := Serve(list, requests[0]);
      if t.outcome.Threw? then Trace([t.outcome], t.list)
      else
        var rest := Run(t.list, requests[1..]);
        var outcomes := [t.outcome] + rest.outcomes;
        assert outcomes[1..] == rest.outcomes;
        Trace(outcomes, rest.list)
  }

  /** Every item the server has written passed the check: starting from a
      list of acceptable items (the empty file, say), every list a run
      leaves holds only acceptable items. */
  lemma {:induction false} RunKeepsItemsAcceptable(list: seq<Json>, requests: seq<Request>)
    requires AllAcceptable(list)
    ensures AllAcceptable(Run(list, requests).list)
    decreases |requests|
  {
    if requests != [] {
      var t := Serve(list, requests[0]);
      if !t.outcome.Threw? {
        RunKeepsItemsAcceptable(t.list, requests[1..]);
      }
    }
  }

  /** The number of items created minus the number deleted over a trace. */
  function NetGrowth(outcomes: seq<Outcome>): int {
    if outcomes == [] then 0 else LengthChange(outcomes[0]) + NetGrowth(outcomes[1..])
  }

  /** Over a run, the list grows by the items created and shrinks by the
      items deleted, and by nothing else. */
  lemma {:induction false} RunLength(list: seq<Json>, requests: seq<Request>)
    ensures |Run(list, requests).list| == |list| + NetGrowth(Run(list, requests).outcomes)
    decreases |requests|
  {
    if requests != [] {
      var t := Serve(list, requests[0]);
      if t.outcome.Threw? {
        assert NetGrowth([t.outcome]) == LengthChange(t.outcome) + NetGrowth([]);
      } else {
        RunLength(t.list, requests[1..]);
        var rest := Run(t.list, requests[1..]);
        assert ([t.outcome] + rest.outcomes)[1..] == rest.outcomes;
      }
    }
  }

  /** GET changes nothing, so a second GET answers exactly what the first
      did. */
  lemma RepeatedGetsAgree(list: seq<Json>, first: Request, second: Request)
    requires first.httpMethod == "GET" && first.url == CollectionPath
    requires second.httpMethod == "GET" && second.url == CollectionPath
    ensures Serve(list, first) == Transition(Reply(200, JArray(list)), list)
    ensures Serve(Serve(list, first).list, second) == Serve(list, first)
  {
  }

  /** POST to the collection path reaches the create handler, whatever the
      list. */
  lemma ServeCollectionPost(list: seq<Json>, body: RawBody)
    ensures Serve(list, Request("POST", CollectionPath, body)) == AddItem(list, body)
  {
  }

  /** PUT to the item prefix followed by a segment without '/' reaches the
      update handler with `parseInt` of that segment as the index. */
  lemma ServeItemPut(list: seq<Json>, seg: string, body: RawBody)
    requires '/' !in seg
    ensures Serve(list, Request("PUT", ItemPathPrefix + seg, body)) == UpdateItem(list, ParseInt(seg), body)
  {
    ItemUrlSegment(seg);
    assert ItemPathPrefix <= ItemPathPrefix + seg;
  }

  /** DELETE to the item prefix followed by a segment without '/' reaches the
      delete handler with `parseInt` of that segment as the index. */
  lemma ServeItemDelete(list: seq<Json>, seg: string, body: RawBody)
    requires '/' !in seg
    ensures Serve(list, Request("DELETE", ItemPathPrefix + seg, body)) == DeleteItem(list, ParseInt(seg))
  {
    ItemUrlSegment(seg);
    assert ItemPathPrefix <= ItemPathPrefix + seg;
  }

  /** An item with an empty name is turned away with 400, whatever the list
      holds, and the list stays as it was. */
  lemma EmptyNameRejected(list: seq<Json>, quantity: real)
    ensures var unnamed := JObject(map["name" := JString(""), "quantity" := JNumber(quantity)]);
            Serve(list, Request("POST", CollectionPath, Wellformed(unnamed))) == Transition(InvalidInput(), list)
  {
    var unnamed := JObject(map["name" := JString(""), "quantity" := JNumber(quantity)]);
    assert !Acceptable(unnamed);
    ServeCollectionPost(list, Wellformed(unnamed));
  }

  /** DELETE /shopping-list/0 on the empty list finds no item. */
  lemma DeleteOnEmptyList(body: RawBody)
    ensures Serve([], Request("DELETE", ItemPathPrefix + Decimal(0), body)) == Transition(ItemNotFound(), [])
  {
    ParseIntDecimal(0, []);
    assert Decimal(0) + [] == Decimal(0);
    ServeItemDelete([], Decimal(0), body);
  }

  /** A word where the index belongs finds no item, whatever the list and
      the body. */
  lemma WordIndexNotFound(list: seq<Json>, body: RawBody)
    ensures Serve(list, Request("PUT", ItemPathPrefix + "milk", body)) == Transition(ItemNotFound(), list)
  {
    ParseIntNaN("milk");
    assert IsBadIndex(ParseInt("milk"), |list|);
    ServeItemPut(list, "milk", body);
  }

  /** A POST of an acceptable item appends it, whatever the list holds. */
  lemma ServePostAccepted(list: seq<Json>, item: Json)
    requires Acceptable(item)
    ensures Serve(list, Request("POST", CollectionPath, Wellformed(item)))
              == Transition(Reply(201, MessageBody(ItemAddedMessage, item)), list + [item])
  {
    ServeCollectionPost(list, Wellformed(item));
  }

  /** A PUT of an acceptable item to the url of position `n` inside the list
      replaces that position and nothing else. */
  lemma ServePutAccepted(list: seq<Json>, n: nat, item: Json)
    requires n < |list| && Acceptable(item)
    ensures Serve(list, Request("PUT", ItemPathPrefix + Decimal(n), Wellformed(item)))
              == Transition(Reply(200, MessageBody(ItemUpdatedMessage, item)), list[n := item])
  {
    ParseIntDecimal(n, []);
    assert Decimal(n) + [] == Decimal(n);
    ServeItemPut(list, Decimal(n), Wellformed(item));
    var t := UpdateItem(list, Some(n as int), Wellformed(item));
    assert t.list == list[n := item];
  }

  /** A DELETE to the url of position `n` inside the list takes out that
      position and answers with it. */
  lemma ServeDeleteInRange(list: seq<Json>, n: nat, body: RawBody)
    requires n < |list|
    ensures Serve(list, Request("DELETE", ItemPathPrefix + Decimal(n), body))
              == Transition(Reply(200, MessageBody(ItemDeletedMessage, JArray([list[n]]))),
                            list[..n] + list[n + 1..])
  {
    ParseIntDecimal(n, []);
    assert Decimal(n) + [] == Decimal(n);
    assert ParseInt(Decimal(n)) == Some(n as int);
    assert !IsBadIndex(Some(n as int), |list|);
    ServeItemDelete(list, Decimal(n), body);
    var t := DeleteItem(list, Some(n as int));
    assert t.list == list[..n] + list[n + 1..];
  }
}
