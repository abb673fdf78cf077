/**
 * The in-memory xCDN document model: the twelve value kinds, the Node that
 * wraps a value together with its `#tags` and `@annotations`, and the
 * operations that Array and Object values offer and that a Node forwards to
 * the value it wraps.
 */
module Ast {
  import opened Optional
  import PyList
  import OrderedDict

  /**
   * A subscript or dictionary key: a Python int, a str, or an object of any
   * other hashable type, told apart from others of its type by `id`.
   */
  datatype Key = IntKey(index: int) | StrKey(name: string) | OtherKey(typeName: string, id: nat)

  /** The Python exceptions the model raises. */
  datatype Error =
    | KeyError(key: Key)
    | IndexError
    | TypeError(typeName: string)                         // the type that the operation refused
    | AttributeError(typeName: string, attribute: string)  // `'<type>' object has no attribute '<attribute>'`
    | FirstValueNotObject                                   // the TypeError of a str-keyed document write

  datatype Result<+T> = Ok(value: T) | Err(error: Error)

  /** The result of an operation that returns None or raises. */
  datatype Outcome = Pass | Fail(error: Error)

  /** `#name` */
  datatype Tag = Tag(name: string)

  /** `@name(args...)` */
  datatype Annotation = Annotation(name: string, args: seq<Value>)

  /** A prolog directive `$name: value`; the name is kept without its `$`. */
  datatype Directive = Directive(name: string, value: Value)

  /**
   * The twelve value kinds. The payloads of Float (the IEEE-754 bit pattern),
   * DecimalValue, DateTime (its RFC 3339 text) and Uuid are opaque here.
   */
  datatype Value =
    | Null
    | Bool(flag: bool)
    | Int(number: int)
    | Float(bits: bv64)
    | DecimalValue(decimal: string)
    | String(text: string)
    | Bytes(bytes: seq<bv8>)
    | DateTime(instant: string)
    | Duration(iso: string)
    | Uuid(uuid: bv128)
    | Array(items: seq<Node>)
    | Object(fields: OrderedDict.Dict<Key, Node>)

  /** What a writer is given: a Node, stored as it is, or a bare value, which gets wrapped. */
  datatype Item = NodeItem(node: Node) | Bare(payload: Value)

  /** What `get(key, default)` returns: the stored Node, or the caller's default. */
  datatype Fetched<+D> = Stored(node: Node) | Fallback(default: D)

  /** What iterating a value yields: an Array's Nodes, or an Object's keys. */
  datatype Iteration = Elements(nodes: seq<Node>) | KeysOf(keys: seq<Key>)

  /** The Python class name of each value kind, as error messages give it. */
  function TypeName(v: Value): string
  {
    match v
    case Null => "Null"
    case Bool(_) => "Bool"
    case Int(_) => "Int"
    case Float(_) => "Float"
    case DecimalValue(_) => "DecimalValue"
    case String(_) => "String"
    case Bytes(_) => "Bytes"
    case DateTime(_) => "DateTime"
    case Duration(_) => "Duration"
    case Uuid(_) => "Uuid"
    case Array(_) => "Array"
    case Object(_) => "Object"
  }

  /** The Python type name of a key. */
  function KeyTypeName(k: Key): string
  {
    match k
    case IntKey(_) => "int"
    case StrKey(_) => "str"
    case OtherKey(t, _) => t
  }

  /** `Node.new(v)`: a Node with no tags and no annotations. */
  function NewNode(v: Value): Node
  {
    Node([], [], v)
  }

  /** The one implicit construction: a bare value is wrapped by `Node.new`, a Node is kept. */
  function Wrap(item: Item): (n: Node)
    ensures item.NodeItem? ==> n == item.node
    ensures item.Bare? ==> n.value == item.payload && n.tags == [] && n.annotations == []
  {
    match item
    case NodeItem(n) => n
    case Bare(v) => NewNode(v)
  }

  /** `Array.__getitem__`: Python list subscription of the Array's Nodes. */
  function ArrayGetItem(items: seq<Node>, key: Key): (r: Result<Node>)
    ensures r.Ok? <==> key.IntKey? && -|items| <= key.index < |items|
    ensures r.Ok? ==> r.value == items[if key.index < 0 then |items| + key.index else key.index]
    ensures r.Err? ==> r.error == if key.IntKey? then IndexError else TypeError(KeyTypeName(key))
  {
    match key
    case IntKey(i) =>
      (match PyList.Get(items, i)
       case Some(n) => Ok(n)
       case None => Err(IndexError))
    case _ => Err(TypeError(KeyTypeName(key)))
  }

  /** `Array.__setitem__`: replaces one slot with the wrapped item; never extends. */
  function ArraySetItem(items: seq<Node>, key: Key, item: Item): (r: Result<seq<Node>>)
    ensures r.Ok? <==> key.IntKey? && -|items| <= key.index < |items|
    ensures r.Err? ==> r.error == if key.IntKey? then IndexError else TypeError(KeyTypeName(key))
    ensures r.Ok? ==> |r.value| == |items| && ArrayGetItem(r.value, key) == Ok(Wrap(item))
    ensures r.Ok? ==> forall j :: 0 <= j < |items| && PyList.Normalize(|items|, key.index) != Some(j) ==>
                        r.value[j] == items[j]
  {
    match key
    case IntKey(i) =>
      (match PyList.Set(items, i, Wrap(item))
       case Some(updated) => Ok(updated)
       case None => Err(IndexError))
    case _ => Err(TypeError(KeyTypeName(key)))
  }

  /** `Object.__getitem__`: the Node stored under `key`, or a KeyError. */
  function ObjectGetItem(fields: OrderedDict.Dict<Key, Node>, key: Key): (r: Result<Node>)
    ensures r.Ok? <==> key in OrderedDict.Keys(fields)
    ensures r.Ok? ==> (key, r.value) in OrderedDict.Items(fields)
    ensures r.Err? ==> r.error == KeyError(key)
  {
    match OrderedDict.Get(fields, key)
    case Some(n) => Ok(n)
    case None => Err(KeyError(key))
  }

  /** `Object.get(key, default)`: the stored Node, or the default; never fails. */
  function ObjectGet<D>(fields: OrderedDict.Dict<Key, Node>, key: Key, default: D): (r: Fetched<D>)
    ensures r.Stored? <==> key in OrderedDict.Keys(fields)
    ensures r.Stored? ==> ObjectGetItem(fields, key) == Ok(r.node)
    ensures r.Fallback? ==> r.default == default
  {
    match ObjectGetItem(fields, key)
    case Ok(n) => Stored(n)
    case Err(_) => Fallback(default)
  }

  /**
   * Every Object anywhere in the tree (in a value, in an element or entry, in
   * an annotation argument) keeps the dictionary invariant: no key twice.
   */
  ghost predicate ValidValue(v: Value)
    decreases v, 1
  {
    match v
    case Array(items) => forall i :: 0 <= i < |items| ==> ValidNode(items[i])
    case Object(fields) =>
      && OrderedDict.Valid(fields)
      && forall i :: 0 <= i < |fields.entries| ==> ValidNode(fields.entries[i].1)
    case _ => true
  }

  ghost predicate ValidNode(n: Node)
    decreases n, 0
  {
    && (forall i, j :: 0 <= i < |n.annotations| && 0 <= j < |n.annotations[i].args| ==>
          ValidValue(n.annotations[i].args[j]))
    && ValidValue(n.value)
  }

  ghost predicate ValidItem(item: Item)
  {
    match item
    case NodeItem(n) => ValidNode(n)
    case Bare(v) => ValidValue(v)
  }

  /**
   * The library's Node: one value of any kind together with the `#tags` and
   * `@annotations` written in front of it. Subscription, membership,
   * iteration and the container methods are answered by the value inside.
   */
  datatype Node = Node(tags: seq<Tag>, annotations: seq<Annotation>, value: Value)
  {
    /** `node[key]`, forwarded to the wrapped value. */
    function GetItem(key: Key): (r: Result<Node>)
      ensures r.Ok? <==> || (value.Array? && key.IntKey? && -|value.items| <= key.index < |value.items|)
                         || (value.Object? && key in OrderedDict.Keys(value.fields))
      ensures r.Ok? && value.Array? ==>
                r.value == value.items[if key.index < 0 then |value.items| + key.index else key.index]
      ensures r.Ok? && value.Object? ==> (key, r.value) in OrderedDict.Items(value.fields)
      ensures r.Err? ==> r.error == (if !value.Array? && !value.Object? then TypeError(TypeName(value))
                                     else if value.Object? then KeyError(key)
                                     else if key.IntKey? then IndexError else TypeError(KeyTypeName(key)))
    {
      match value
      case Array(items) => ArrayGetItem(items, key)
      case Object(fields) => ObjectGetItem(fields, key)
      case _ => Err(TypeError(TypeName(value)))
    }

    /**
     * `node[key] = item`, forwarded to the wrapped value. The updated Node is
     * returned; tags and annotations are untouched.
     */
    function SetItem(key: Key, item: Item): (r: Result<Node>)
      ensures r.Ok? <==> value.Object? || (value.Array? && key.IntKey? && -|value.items| <= key.index < |value.items|)
      ensures r.Err? ==> r.error == (if !value.Array? && !value.Object? then TypeError(TypeName(value))
                                     else if key.IntKey? then IndexError else TypeError(KeyTypeName(key)))
      ensures r.Ok? ==> r.value.tags == tags && r.value.annotations == annotations
      ensures r.Ok? ==> r.value.GetItem(key) == Ok(Wrap(item))
      ensures r.Ok? && value.Object? ==> forall k :: k != key ==> r.value.GetItem(k) == GetItem(k)
      ensures r.Ok? && value.Object? ==>
                r.value.Keys() == if Contains(key) == Ok(true) then Keys() else Ok(Keys().value + [key])
      ensures r.Ok? && value.Array? ==> r.value.value == Array(ArraySetItem(value.items, key, item).value)
      ensures r.Ok? && value.Object? ==> r.value.value == Object(OrderedDict.Set(value.fields, key, Wrap(item)))
      ensures r.Ok? && ValidNode(this) && ValidItem(item) ==> ValidNode(r.value)
    {
      match value
      case Array(items) =>
        (match ArraySetItem(items, key, item)
         case Ok(updated) =>
           SlotWriteKeepsValid(this, key, item);
           Ok(this.(value := Array(updated)))
         case Err(e) => Err(e))
      case Object(fields) =>
        EntryWriteKeepsValid(this, key, item);
        Ok(this.(value := Object(OrderedDict.Set(fields, key, Wrap(item)))))
      case _ => Err(TypeError(TypeName(value)))
    }

    /**
     * `key in node`. An Object answers by key membership. An Array has no
     * `__contains__`, so Python compares the key with each element Node, and a
     * Node never equals an int, a str or any other key: the answer is False.
     * Any other value is not iterable.
     */
    function Contains(key: Key): (r: Result<bool>)
      ensures r.Ok? <==> value.Array? || value.Object?
      ensures r.Err? ==> r.error == TypeError(TypeName(value))
      ensures value.Object? ==> r == Ok(GetItem(key).Ok?)
      ensures value.Array? ==> r == Ok(false)
    {
      match value
      case Array(_) => Ok(false)
      case Object(fields) => Ok(OrderedDict.Contains(fields, key))
      case _ => Err(TypeError(TypeName(value)))
    }

    /** `iter(node)`: an Array's Nodes, or an Object's keys, in order. */
    function Iter(): (r: Result<Iteration>)
      ensures r.Ok? <==> value.Array? || value.Object?
      ensures r.Err? ==> r.error == TypeError(TypeName(value))
      ensures value.Array? ==> r == Ok(Elements(value.items))
      ensures value.Object? ==> r == Ok(KeysOf(OrderedDict.Keys(value.fields)))
      ensures r.Ok? ==> Len().Ok? && Len().value == if r.value.Elements? then |r.value.nodes| else |r.value.keys|
    {
      match value
      case Array(items) => Ok(Elements(items))
      case Object(fields) => Ok(KeysOf(OrderedDict.Keys(fields)))
      case _ => Err(TypeError(TypeName(value)))
    }

    /** `len(node)`: the number of elements, or of distinct keys. */
    function Len(): (r: Result<nat>)
      ensures r.Ok? <==> value.Array? || value.Object?
      ensures r.Err? ==> r.error == TypeError(TypeName(value))
      ensures value.Array? ==> r == Ok(|value.items|)
      ensures value.Object? ==> r == Ok(OrderedDict.Len(value.fields))
      ensures value.Object? && OrderedDict.Valid(value.fields) ==> r == Ok(|OrderedDict.KeySet(value.fields)|)
    {
      match value
      case Array(items) => Ok(|items|)
      case Object(fields) =>
        OrderedDict.LenCountsKeys(fields);
        Ok(OrderedDict.Len(fields))
      case _ => Err(TypeError(TypeName(value)))
    }

    /** `node.get(key, default)`: only an Object has `get`. */
    function Get<D>(key: Key, default: D): (r: Result<Fetched<D>>)
      ensures r.Ok? <==> value.Object?
      ensures r.Err? ==> r.error == AttributeError(TypeName(value), "get")
      ensures r.Ok? ==> (r.value.Stored? <==> Contains(key) == Ok(true))
      ensures r.Ok? && r.value.Stored? ==> GetItem(key) == Ok(r.value.node)
      ensures r.Ok? && r.value.Fallback? ==> r.value.default == default
    {
      match value
      case Object(fields) => Ok(ObjectGet(fields, key, default))
      case _ => Err(AttributeError(TypeName(value), "get"))
    }

    /** `node.keys()`: only an Object has `keys`. */
    function Keys(): (r: Result<seq<Key>>)
      ensures r.Ok? <==> value.Object?
      ensures r.Err? ==> r.error == AttributeError(TypeName(value), "keys")
      ensures r.Ok? ==> Iter() == Ok(KeysOf(r.value))
      ensures r.Ok? ==> r.value == OrderedDict.Keys(value.fields)
      ensures r.Ok? ==> forall k :: k in r.value <==> GetItem(k).Ok?
    {
      match value
      case Object(fields) => Ok(OrderedDict.Keys(fields))
      case _ => Err(AttributeError(TypeName(value), "keys"))
    }

    /** `node.values_iter()`: only an Object has `values_iter`. */
    function ValuesIter(): (r: Result<seq<Node>>)
      ensures r.Ok? <==> value.Object?
      ensures r.Err? ==> r.error == AttributeError(TypeName(value), "values_iter")
      ensures r.Ok? ==> r.value == OrderedDict.Values(value.fields)
      ensures r.Ok? ==> |r.value| == Len().value
      ensures r.Ok? && OrderedDict.Valid(value.fields) ==>
                forall i :: 0 <= i < |r.value| ==> GetItem(Keys().value[i]) == Ok(r.value[i])
    {
      match value
      case Object(fields) => Ok(OrderedDict.Values(fields))
      case _ => Err(AttributeError(TypeName(value), "values_iter"))
    }

    /** `node.items()`: only an Object has `items`. */
    function Items(): (r: Result<seq<(Key, Node)>>)
      ensures r.Ok? <==> value.Object?
      ensures r.Err? ==> r.error == AttributeError(TypeName(value), "items")
      ensures r.Ok? ==> r.value == OrderedDict.Items(value.fields)
      ensures r.Ok? ==> |r.value| == Len().value
      ensures r.Ok? ==> forall i :: 0 <= i < |r.value| ==>
                          r.value[i] == (Keys().value[i], ValuesIter().value[i])
    {
      match value
      case Object(fields) => Ok(OrderedDict.Items(fields))
      case _ => Err(AttributeError(TypeName(value), "items"))
    }

    /**
     * `node.append(item)`: only an Array has `append`. The updated Node is
     * returned: one more element, the wrapped item, at the end.
     */
    function Append(item: Item): (r: Result<Node>)
      ensures r.Ok? <==> value.Array?
      ensures r.Err? ==> r.error == AttributeError(TypeName(value), "append")
      ensures r.Ok? ==> r.value.tags == tags && r.value.annotations == annotations
      ensures r.Ok? ==> r.value.value == Array(value.items + [Wrap(item)])
      ensures r.Ok? ==> r.value.Len() == Ok(Len().value + 1)
      ensures r.Ok? && ValidNode(this) && ValidItem(item) ==> ValidNode(r.value)
      ensures r.Ok? ==> r.value.GetItem(IntKey(-1)) == Ok(Wrap(item))
      ensures r.Ok? ==> forall i :: 0 <= i < Len().value ==> r.value.GetItem(IntKey(i)) == GetItem(IntKey(i))
    {
      match value
      case Array(items) =>
        AppendKeepsValid(this, item);
        Ok(this.(value := Array(items + [Wrap(item)])))
      case _ => Err(AttributeError(TypeName(value), "append"))
    }
  }

  /** Wrapping keeps the tree invariant. */
  lemma WrapKeepsValid(item: Item)
    ensures ValidItem(item) ==> ValidNode(Wrap(item))
  {
  }

  /** A node whose value is replaced by another valid value stays valid. */
  lemma ReplaceValueKeepsValid(n: Node, v: Value)
    requires ValidNode(n) && ValidValue(v)
    ensures ValidNode(n.(value := v))
  {
  }

  /** Storing a valid item into a slot of a valid Array node keeps it valid. */
  lemma SlotWriteKeepsValid(n: Node, key: Key, item: Item)
    requires n.value.Array? && key.IntKey?
    ensures var r := PyList.Set(n.value.items, key.index, Wrap(item));
            ValidNode(n) && ValidItem(item) && r.Some? ==> ValidNode(n.(value := Array(r.value)))
  {
    var items := n.value.items;
    if ValidNode(n) && ValidItem(item) && PyList.Normalize(|items|, key.index).Some? {
      WrapKeepsValid(item);
      assert ValidValue(n.value);
      var j := PyList.Normalize(|items|, key.index).value;
      var updated := items[j := Wrap(item)];
      assert PyList.Set(items, key.index, Wrap(item)).value == updated;
      forall i | 0 <= i < |updated| ensures ValidNode(updated[i]) {
        if i != j { assert updated[i] == items[i]; } else { assert updated[i] == Wrap(item); }
      }
      ReplaceValueKeepsValid(n, Array(updated));
    }
  }

  /** Storing a valid Node under a key of a valid Object keeps it valid. */
  lemma ObjectSetKeepsValid(fields: OrderedDict.Dict<Key, Node>, key: Key, n: Node)
    requires ValidValue(Object(fields)) && ValidNode(n)
    ensures ValidValue(Object(OrderedDict.Set(fields, key, n)))
  {
    var d := OrderedDict.Set(fields, key, n);
    OrderedDict.SetEntries(fields, key, n);
    forall i | 0 <= i < |d.entries| ensures ValidNode(d.entries[i].1) {
      if d.entries[i] != (key, n) { assert d.entries[i] == fields.entries[i]; }
    }
  }

  /** Storing a valid item under a key of a valid Object node keeps it valid. */
  lemma EntryWriteKeepsValid(n: Node, key: Key, item: Item)
    requires n.value.Object?
    ensures var d := OrderedDict.Set(n.value.fields, key, Wrap(item));
            ValidNode(n) && ValidItem(item) ==> ValidNode(n.(value := Object(d)))
  {
    if ValidNode(n) && ValidItem(item) {
      WrapKeepsValid(item);
      assert ValidValue(n.value);
      ObjectSetKeepsValid(n.value.fields, key, Wrap(item));
      ReplaceValueKeepsValid(n, Object(OrderedDict.Set(n.value.fields, key, Wrap(item))));
    }
  }

  /** Appending a valid item to a valid Array node keeps it valid. */
  lemma AppendKeepsValid(n: Node, item: Item)
    requires n.value.Array?
    ensures ValidNode(n) && ValidItem(item) ==> ValidNode(n.(value := Array(n.value.items + [Wrap(item)])))
  {
    var items := n.value.items;
    if ValidNode(n) && ValidItem(item) {
      WrapKeepsValid(item);
      assert ValidValue(n.value);
      var appended := items + [Wrap(item)];
      forall i | 0 <= i < |appended| ensures ValidNode(appended[i]) {
        if i < |items| { assert appended[i] == items[i]; } else { assert appended[i] == Wrap(item); }
      }
      ReplaceValueKeepsValid(n, Array(appended));
    }
  }

  /**
   * Writing a bare value and writing the Node that `Node.new` makes of it are
   * the same write, for an Array slot and for an Object entry alike.
   */
  lemma AutoWrapAgrees(n: Node, key: Key, v: Value)
    ensures n.SetItem(key, Bare(v)) == n.SetItem(key, NodeItem(NewNode(v)))
    ensures n.Append(Bare(v)) == n.Append(NodeItem(NewNode(v)))
  {
  }

  /**
   * For an Object node, `keys()`, `values_iter()` and `items()` list the same
   * entries in the same order, as many as `len(node)` counts, and each key
   * subscripts to the Node listed beside it.
   */
  lemma EntriesAgree(n: Node)
    requires n.value.Object? && OrderedDict.Valid(n.value.fields)
    ensures n.Keys().Ok? && n.ValuesIter().Ok? && n.Items().Ok?
    ensures |n.Keys().value| == |n.ValuesIter().value| == |n.Items().value| == n.Len().value
    ensures forall i :: 0 <= i < |n.Items().value| ==>
              n.Items().value[i] == (n.Keys().value[i], n.ValuesIter().value[i])
    ensures forall i :: 0 <= i < |n.Keys().value| ==>
              n.GetItem(n.Keys().value[i]) == Ok(n.ValuesIter().value[i])
  {
  }
}
