/**
 * Array and Object values as Python objects that their writers update in
 * place. Each class keeps its payload in the field `value`, as the source's
 * dataclasses do; what the readers return is given by the functions of `Ast`
 * applied to that field (`Ast.ArrayGetItem`, `Ast.ObjectGetItem`,
 * `Ast.ObjectGet`, `OrderedDict.Keys`, ...).
 *
 * The writers here and the writers of `Ast.Node` and `Documents` describe
 * one and the same update. `Array.SetItem` leaves in `value` the list that
 * `Ast.ArraySetItem` computes, which is the list `Node.SetItem` puts into an
 * Array node; `Array.Append` leaves the list `Node.Append` puts there; and
 * `Object.SetItem` leaves the dict that `OrderedDict.Set` computes, which is
 * the dict `Node.SetItem` puts into an Object node and `Documents.Write` puts
 * into the document's first value. `Ast` and `Documents` work on immutable
 * values, so there a write yields a new Node in place of the old one.
 */
module Containers {
  import opened Optional
  import PyList
  import OrderedDict
  import Ast

  /** An Array value: a list of Nodes. */
  class Array {
    var value: seq<Ast.Node>

    constructor (items: seq<Ast.Node>)
      ensures value == items
    {
      value := items;
    }

    /**
     * `array[key] = item`: the slot that `key` designates gets the wrapped
     * item; a bad index or key type raises and leaves the list unchanged.
     */
    method SetItem(key: Ast.Key, item: Ast.Item) returns (r: Ast.Outcome)
      modifies this
      ensures r.Pass? <==> Ast.ArraySetItem(old(value), key, item).Ok?
      ensures r.Pass? ==> value == Ast.ArraySetItem(old(value), key, item).value
      ensures r.Fail? ==> r.error == Ast.ArraySetItem(old(value), key, item).error && value == old(value)
    {
      var node := Ast.Wrap(item);
      match key {
        case IntKey(i) =>
          var j := PyList.Normalize(|value|, i);
          if j.None? {
            return Ast.Fail(Ast.IndexError);
          }
          value := value[j.value := node];
          r := Ast.Pass;
        case _ =>
          r := Ast.Fail(Ast.TypeError(Ast.KeyTypeName(key)));
      }
    }

    /** `array.append(item)`: exactly one element, the wrapped item, is added at the end. */
    method Append(item: Ast.Item)
      modifies this
      ensures value == old(value) + [Ast.Wrap(item)]
    {
      value := value + [Ast.Wrap(item)];
    }
  }

  /** An Object value: an insertion-ordered dict from keys to Nodes. */
  class Object {
    var value: OrderedDict.Dict<Ast.Key, Ast.Node>

    ghost predicate Valid()
      reads this
    {
      OrderedDict.Valid(value)
    }

    /** `Object()`: no entries. */
    constructor ()
      ensures Valid() && value == OrderedDict.Empty()
    {
      value := OrderedDict.Empty();
    }

    /**
     * `object[key] = item`: a new key is appended to the key order; an
     * existing key keeps its place and only its Node is replaced. Keys stay
     * unique.
     */
    method SetItem(key: Ast.Key, item: Ast.Item)
      requires Valid()
      modifies this
      ensures Valid() && value == OrderedDict.Set(old(value), key, Ast.Wrap(item))
      ensures OrderedDict.Get(value, key) == Some(Ast.Wrap(item))
      ensures forall k :: k != key ==> OrderedDict.Get(value, k) == OrderedDict.Get(old(value), k)
      ensures OrderedDict.Keys(value) ==
                if OrderedDict.Contains(old(value), key) then OrderedDict.Keys(old(value))
                else OrderedDict.Keys(old(value)) + [key]
    {
      value := OrderedDict.Set(value, key, Ast.Wrap(item));
    }
  }
}
