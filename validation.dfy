/**
 The item check that guards both POST and PUT.
 */
module Validation {
  import opened JsValues

  /** The items the service accepts: an object whose `name` field is truthy
      and whose `quantity` field is a number greater than zero. */
  predicate Acceptable(item: Json) {
    && item.JObject?
    && "name" in item.fields
    && IsTruthy(Defined(item.fields["name"]))
    && "quantity" in item.fields
    && item.fields["quantity"].JNumber?
    && item.fields["quantity"].n > 0.0
  }

  /** The guard `!item.name || typeof item.quantity !== 'number' ||
      item.quantity <= 0`, evaluated left to right with short-circuiting;
      `Ok(true)` means the item is rejected. The first property access throws
      when the body is `null`. */
  function IsInvalid(item: Json): (r: Result<bool>)
    ensures r.Thrown? <==> item == JNull
    ensures r.Thrown? ==> r.exception == TypeError
    ensures item != JNull ==> r == Ok(!Acceptable(item))
  {
    match Property(item, NameKey)
    case Thrown(e) => Thrown(e)
    case Ok(name) =>
      if !IsTruthy(name) then Ok(true)
      else
        match Property(item, QuantityKey)
        case Thrown(e) => Thrown(e)
        case Ok(quantity) =>
          if !IsNumber(quantity) then Ok(true)
          else Ok(quantity.json.n <= 0.0)
  }

  /** For the usual item shape, a string name and a number quantity, the rule
      reads: the name is not empty and the quantity is positive. Other fields
      do not matter. */
  lemma StringNameRule(item: Json, name: string, quantity: real)
    requires item.JObject?
    requires "name" in item.fields && item.fields["name"] == JString(name)
    requires "quantity" in item.fields && item.fields["quantity"] == JNumber(quantity)
    ensures IsInvalid(item) == Ok(name == "" || quantity <= 0.0)
  {
  }
}
