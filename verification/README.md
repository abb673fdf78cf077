# xCDN document model in Dafny

This project models the in-memory document model of the Python xCDN library
(`xcdn/ast.py`): the twelve value kinds, the Node that wraps a value with its
`#tags` and `@annotations`, the Array and Object containers, and the Document
with its prolog directives, its top-level values and its two-mode
subscription. Python exceptions (KeyError, IndexError, TypeError,
AttributeError) are the `Ast.Error` datatype, carried by `Ast.Result` and
`Ast.Outcome`; the TypeError that a str-keyed document write raises when
the first value is not an Object is the variant `FirstValueNotObject`.

Files and modules:

- `optional.dfy` (`Optional`): the option type.
- `pylist.dfy` (`PyList`): Python list subscription and assignment, with
  negative indices counting from the end.
- `ordereddict.dfy` (`OrderedDict`): Python's insertion-ordered `dict` as a
  sequence of (key, value) entries with distinct keys, and the lemmas that
  a sequence of assignments keeps keys unique and ordered by first insertion,
  and that the last write to a key wins.
- `ast.dfy` (`Ast`): the value kinds, Tag, Annotation, Directive, Node; the
  readers of Array and Object (`ArrayGetItem`, `ObjectGetItem`, `ObjectGet`);
  the auto-wrap of bare values (`Wrap`, the `Node.new` path); and the Node
  delegation protocol as member functions of `Node`.
- `containers.dfy` (`Containers`): classes `Array` and `Object`, whose writers
  update their `value` field in place, as the source's `__setitem__` and
  `append` do, and leave there exactly what the corresponding `Ast` and
  `OrderedDict` functions compute. Their readers are modelled once, on the
  values: `__getitem__` and `get` by `Ast.ArrayGetItem`, `Ast.ObjectGetItem`
  and `Ast.ObjectGet`; `keys`, `values_iter` and `items` by `OrderedDict.Keys`,
  `Values` and `Items`; and `__len__`, `__iter__` and `__contains__` by
  `Ast.Node.Len`, `Ast.Node.Iter` and `Ast.Node.Contains`, which answer for
  the Array or Object inside a Node.
- `documents.dfy` (`Documents`): the pure semantics of document subscription
  (`Read`, `Write`, `HasKey`) over the list of top-level values, the class
  `Document` whose `SetItem` updates `values` in place, and a small client
  scenario (`EmptyDocumentScenario`) that builds a document from nothing.

Where the code's type annotations and its behaviour differ, the model
follows the behaviour:

- Object keys are not restricted to strings. The annotations
  `Dict[str, Node]` and `key: str` (`xcdn/ast.py:272`, `xcdn/ast.py:277`)
  suggest str keys, but the code stores whatever hashable key it is given,
  so `Ast.Key` is an int, a str or another hashable object, and the
  Document's str-key access is the str case of it.
- `k in node` on an Array node: Array defines no `__contains__`
  (`xcdn/ast.py:240-266`), so Python compares `k` with each element Node, and
  a Node never equals a key. The answer is False, not a membership test.

Every Object in a value tree keeps the dict invariant that no key occurs
twice (`Ast.ValidNode`); the writers of `Ast.Node` and `Documents` preserve it.

## Model

| member | source | states |
|---|---|---|
| PyList.Get | xcdn/ast.py:248-250 | list subscription succeeds exactly when `-len <= i < len`; a negative index designates `len + i` |
| PyList.Set | xcdn/ast.py:252-254 | list assignment succeeds exactly for a valid index; the length is unchanged, the designated slot reads back the new element and every other slot is unchanged |
| PyList.SetThenGet | xcdn/ast.py:252-254 | after an assignment, any index reads the new element if it designates the same slot and the old element otherwise |
| OrderedDict.Empty | xcdn/ast.py:272 | a new dict is valid (unique keys) and has no entries |
| OrderedDict.Find | xcdn/ast.py:277-279 | the lookup finds the first entry carrying the key, or reports that no entry carries it |
| OrderedDict.Keys | xcdn/ast.py:304-306 | `d.keys()` has `len(d)` elements, one per entry |
| OrderedDict.KeysDistinct | xcdn/ast.py:304-306 | the dict invariant holds exactly when `d.keys()` lists no key twice |
| OrderedDict.Values | xcdn/ast.py:308-310 | `d.values()` has `len(d)` elements, and in a valid dict the i-th key of `keys()` subscripts to its i-th element |
| OrderedDict.Items | xcdn/ast.py:312-314 | `d.items()` has `len(d)` elements and pairs the i-th key of `keys()` with the i-th element of `values()` |
| OrderedDict.Contains | xcdn/ast.py:285-287 | `k in d` is exactly membership of `k` in the key order |
| OrderedDict.Get | xcdn/ast.py:277-279 | `d[k]` succeeds exactly when `k` is present and returns the value stored beside `k` |
| OrderedDict.Set | xcdn/ast.py:281-283 | `d[k] = v` keeps keys unique, makes `k` read back `v`, leaves every other key's value alone, appends a new key to the key order and leaves the order unchanged for an existing key |
| OrderedDict.SetIntoEmpty | xcdn/ast.py:281-283 | assigning a key into `{}` gives a dict holding exactly that one entry |
| OrderedDict.SetEntries | xcdn/ast.py:281-283 | after `d[k] = v` every entry is the new one or the entry that stood in its place before |
| OrderedDict.LenCountsKeys | xcdn/ast.py:293-295 | `len(d)` of a dict without repeated keys is the number of distinct keys |
| OrderedDict.Build | xcdn/ast.py:281-283 | any sequence of assignments starting from `{}` yields a dict with unique keys |
| OrderedDict.BuildKeys | xcdn/ast.py:269-283 | after a sequence of assignments starting from `{}` the keys are exactly those written |
| OrderedDict.InsertionOrder | xcdn/ast.py:269-283 | after a sequence of assignments key a precedes key b iff a was first written before b; overwrites never move a key |
| OrderedDict.LastWriteWins | xcdn/ast.py:281-283 | after a sequence of assignments each key holds the value of its last write |
| OrderedDict.DistinctWritesKeepCallOrder | xcdn/ast.py:269-283 | assignments of distinct keys build exactly those entries in call order |
| Ast.Wrap | xcdn/ast.py:252-254 | the wrap applied by every writer (also at lines 43, 266 and 283): a Node is stored as given; a bare value becomes `Node.new(v)`, with no tags and no annotations |
| Ast.WrapKeepsValid | xcdn/ast.py:252-254 | wrapping an item whose Objects have unique keys gives a Node whose Objects have unique keys |
| Ast.ArrayGetItem | xcdn/ast.py:248-250 | `array[i]` succeeds exactly for an int key in `-len <= i < len` and returns that element; an out-of-range int is an IndexError, any other key a TypeError |
| Ast.ArraySetItem | xcdn/ast.py:252-254 | `array[i] = v` succeeds for exactly the same keys, keeps the length, makes the slot read back the wrapped item and leaves the other slots alone; errors as for reading |
| Ast.ObjectGetItem | xcdn/ast.py:277-279 | `object[k]` succeeds exactly when `k` is among the keys and returns the Node stored beside it; otherwise KeyError(k) |
| Ast.ObjectGet | xcdn/ast.py:297-302 | `object.get(k, d)` never fails: the stored Node when `k` is present, `d` otherwise |
| Ast.Node.GetItem | xcdn/ast.py:80-82 | `node[k]` succeeds exactly for an Array with a valid int index (returning that element) or an Object holding `k` (returning the Node stored beside it); otherwise KeyError on an Object, IndexError or TypeError on an Array, and TypeError naming the type on any other value |
| Ast.Node.SetItem | xcdn/ast.py:84-86 | `node[k] = v` succeeds exactly for an Object, or an Array with a valid int index; gives the exact error otherwise; keeps tags and annotations; the new Array is the list `Ast.ArraySetItem` gives and the new Object the dict `OrderedDict.Set` gives; the key then reads back the wrapped item; on an Object the other keys read as before and the key order grows only for a new key; unique keys stay unique throughout the tree |
| Ast.Node.Contains | xcdn/ast.py:88-90 | `k in node` answers for Array and Object and is a TypeError otherwise; on an Object it is true exactly when `node[k]` succeeds; on an Array it is False |
| Ast.Node.Iter | xcdn/ast.py:92-94 | iteration succeeds exactly for Array (its Nodes, in order) and Object (its keys, in insertion order), with as many items as `len(node)`; TypeError otherwise |
| Ast.Node.Len | xcdn/ast.py:96-98 | `len(node)` is the number of elements of an Array or of distinct keys of a valid Object; TypeError otherwise |
| Ast.Node.Get | xcdn/ast.py:100-104 | `node.get(k, d)` succeeds exactly for an Object (AttributeError otherwise); it returns the stored Node iff `k in node`, the one `node[k]` returns, and `d` otherwise |
| Ast.Node.Keys | xcdn/ast.py:106-110 | `node.keys()` succeeds exactly for an Object (AttributeError otherwise), is the Object's key order, lists what iterating the node lists, and holds exactly the keys `node[k]` accepts |
| Ast.Node.ValuesIter | xcdn/ast.py:112-116 | `node.values_iter()` succeeds exactly for an Object (AttributeError otherwise), is the dict's values in order, as many as `len(node)`, and the i-th of them is what `node[k]` returns for the i-th key |
| Ast.Node.Items | xcdn/ast.py:118-122 | `node.items()` succeeds exactly for an Object (AttributeError otherwise), is the dict's entries in order, and pairs the i-th key of `keys()` with the i-th Node of `values_iter()`, as many as `len(node)` |
| Ast.Node.Append | xcdn/ast.py:124-128 | `node.append(v)` succeeds exactly for an Array (AttributeError otherwise), keeps tags and annotations, yields the old list plus the wrapped item, so one more element, the item last and earlier elements unchanged; unique keys stay unique throughout the tree |
| Ast.SlotWriteKeepsValid | xcdn/ast.py:252-254 | assigning a valid item to an Array slot keeps every Object in the node's tree free of repeated keys |
| Ast.ObjectSetKeepsValid | xcdn/ast.py:281-283 | assigning a valid Node under a key of a valid Object keeps every Object in it free of repeated keys |
| Ast.EntryWriteKeepsValid | xcdn/ast.py:281-283 | assigning a valid item to an Object key keeps every Object in the node's tree free of repeated keys |
| Ast.AppendKeepsValid | xcdn/ast.py:264-266 | appending a valid item to an Array keeps every Object in the node's tree free of repeated keys |
| Ast.AutoWrapAgrees | xcdn/ast.py:252-254 | writing a bare value and writing `Node.new` of it are the same write, by subscript assignment and by append |
| Ast.EntriesAgree | xcdn/ast.py:304-314 | for an Object node, `keys()`, `values_iter()` and `items()` are equally long as `len(node)`, `items()` pairs the i-th key with the i-th value, and each key subscripts to its value |
| Containers.Array.constructor | xcdn/ast.py:240-243 | a new Array holds the given Nodes |
| Containers.Array.SetItem | xcdn/ast.py:252-254 | the in-place assignment succeeds or fails as ArraySetItem does, leaves the list as ArraySetItem gives it on success and unchanged on failure |
| Containers.Array.Append | xcdn/ast.py:264-266 | the list afterwards is the old list plus the wrapped item at the end |
| Containers.Object.constructor | xcdn/ast.py:269-272 | a new Object is valid and empty |
| Containers.Object.SetItem | xcdn/ast.py:281-283 | the in-place assignment keeps keys unique, makes the key read back the wrapped item, leaves the other keys alone and appends only a new key to the order |
| Documents.Read | xcdn/ast.py:25-38 | an int key indexes the top-level values (IndexError out of range); a str key succeeds exactly when the first value is an Object holding the key and returns its Node, KeyError otherwise; any other key is a TypeError |
| Documents.Write | xcdn/ast.py:40-53 | an int key succeeds exactly in range (IndexError otherwise); a str key succeeds exactly when the document is empty or its first value is an Object, and otherwise raises the TypeError "First document value is not an Object"; on success the first value becomes what `Node.SetItem` makes of it (an empty Object node first, on an empty document), keeping its tags, annotations and key order; any other key is a TypeError; success leaves one value on an empty document and the same number otherwise, and keeps keys unique throughout |
| Documents.SlotWriteKeepsValid | xcdn/ast.py:42-43 | assigning a valid item to a top-level slot keeps every Object in the values free of repeated keys |
| Documents.HasKey | xcdn/ast.py:55-59 | `key in document` is what the first value answers to `key in`, so it holds only when the first value is an Object holding the key; an empty document holds nothing |
| Documents.HasKeyIffReadable | xcdn/ast.py:55-59 | for a str key, `key in document` is true exactly when `document[key]` succeeds; membership itself never fails |
| Documents.WriteThenRead | xcdn/ast.py:40-53 | after a successful write the same key reads back the wrapped item; a str-key write also makes the key a member, keeps every other str key's answer, turns the first value into what `Node.SetItem` makes of it and keeps the values after it; an int-key write leaves other slots alone |
| Documents.WriteIntoEmpty | xcdn/ast.py:44-49 | a str-key write into an empty document yields exactly one value, `Node.new` of an Object whose only entry is the key with the wrapped item |
| Documents.Document.constructor | xcdn/ast.py:20-23 | `Document.new()` has no directives and no values, and is valid |
| Documents.Document.SetItem | xcdn/ast.py:40-53 | the in-place write succeeds or fails as Write does, stores Write's values on success, leaves the values unchanged on failure, never touches the prolog, the key then reads back the wrapped item, and a valid item keeps a valid document valid |

## Left out

- Parsing and serialisation of xCDN text: that code is not part of this model; only the container operations that keep key order for it are.
- The `__str__` renderings of the value kinds (`xcdn/ast.py:155-275`): diagnostics only; Float, Decimal, datetime and UUID rendering are library calls.
- Float, Decimal, DateTime and Uuid payloads are opaque (a bit pattern or text); no arithmetic, parsing or comparison semantics of those libraries is modelled.
- `Tag.__hash__`: Python hashing, with nothing to verify.
- Aliasing: a Node read out of a document and then written through (`n = doc["k"]; n["x"] = 1`) changes the document in Python. Here Node and Value are immutable values: `Ast.Node.SetItem` and `Ast.Node.Append` return the updated Node, and only `Containers.Array`, `Containers.Object` and `Documents.Document` are updated in place.
- Bare payloads are restricted to the twelve value kinds; Python would also wrap a raw object such as the int `1` into a Node as it is.
- Keys: a `bool` counts as an int in Python and a float can equal an int as a dict key; neither is modelled. Unhashable keys (which make dict operations raise TypeError) and slice subscripts are not modelled: an `OtherKey` stands for a hashable object of another type that equals no int, str or Node.
- A default `Node()` holds `None` rather than a value; the model always has a value.
- `Document.__getitem__` and `Document.__contains__` are modelled once, as `Documents.Read` and `Documents.HasKey` on the document's `values` field, not as members of the `Document` class.
- Iteration and the dict views of `keys()`, `values_iter()` and `items()` are modelled as sequences (snapshots), not as live, restartable iterators.
