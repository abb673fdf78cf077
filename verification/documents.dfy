/**
 * The whole xCDN document: the prolog directives and the top-level values,
 * with two-mode subscription. An int key indexes the top-level values; a str
 * key reads or writes the first value when that value is an Object, and a
 * write to an empty document first creates that Object.
 */
module Documents {
  import opened Optional
  import PyList
  import OrderedDict
  import opened Ast

  /** The tree invariant of `Ast.ValidNode`, for every top-level value. */
  ghost predicate ValidValues(values: seq<Node>)
  {
    forall i :: 0 <= i < |values| ==> ValidNode(values[i])
  }

  /** `document[key]`, given the document's top-level values. */
  function Read(values: seq<Node>, key: Key): (r: Result<Node>)
    ensures key.IntKey? ==> (r.Ok? <==> -|values| <= key.index < |values|)
    ensures key.IntKey? && r.Ok? ==> r.value == values[if key.index < 0 then |values| + key.index else key.index]
    ensures key.IntKey? && r.Err? ==> r.error == IndexError
    ensures key.StrKey? ==>
              (r.Ok? <==> values != [] && values[0].value.Object? && key in OrderedDict.Keys(values[0].value.fields))
    ensures key.StrKey? && r.Ok? ==> (key, r.value) in OrderedDict.Items(values[0].value.fields)
    ensures key.StrKey? && r.Err? ==> r.error == KeyError(key)
    ensures key.OtherKey? ==> r == Err(TypeError(key.typeName))
  {
    match key
    case IntKey(i) =>
      (match PyList.Get(values, i)
       case Some(n) => Ok(n)
       case None => Err(IndexError))
    case StrKey(_) =>
      if values != [] && values[0].value.Object? then ObjectGetItem(values[0].value.fields, key)
      else Err(KeyError(key))
    case OtherKey(t, _) => Err(TypeError(t))
  }

  /**
   * `document[key] = item`, given the top-level values: the values afterwards,
   * or the exception, in which case the document is left as it was. A str
   * key is written into the first value exactly as `Node.SetItem` writes an
   * Object entry, so its tags, annotations and key order are kept.
   */
  function Write(values: seq<Node>, key: Key, item: Item): (r: Result<seq<Node>>)
    ensures key.IntKey? ==> (r.Ok? <==> -|values| <= key.index < |values|)
    ensures key.IntKey? && r.Err? ==> r.error == IndexError
    ensures key.StrKey? ==> (r.Ok? <==> values == [] || values[0].value.Object?)
    ensures key.StrKey? && r.Err? ==> r.error == FirstValueNotObject
    ensures key.OtherKey? ==> r == Err(TypeError(key.typeName))
    ensures r.Ok? ==> |r.value| == if values == [] then 1 else |values|
    ensures key.StrKey? && r.Ok? ==>
              r.value[0] == (if values == [] then NewNode(Object(OrderedDict.Empty())) else values[0]).SetItem(key, item).value
    ensures r.Ok? && ValidValues(values) && ValidItem(item) ==> ValidValues(r.value)
  {
    match key
    case IntKey(i) =>
      (match PyList.Set(values, i, Wrap(item))
       case Some(updated) =>
         SlotWriteKeepsValid(values, i, item);
         Ok(updated)
       case None => Err(IndexError))
    case StrKey(_) =>
      var values' := if values == [] then [NewNode(Object(OrderedDict.Empty()))] else values;
      (match values'[0].SetItem(key, item)
       case Ok(first) =>
         assert ValidValues(values) ==> ValidNode(values'[0]);
         Ok(values'[0 := first])
       case Err(_) => Err(FirstValueNotObject))
    case OtherKey(t, _) => Err(TypeError(t))
  }

  /**
   * Storing a valid item into a slot of valid top-level values keeps them valid.
   */
  lemma SlotWriteKeepsValid(values: seq<Node>, index: int, item: Item)
    ensures var r := PyList.Set(values, index, Wrap(item));
            ValidValues(values) && ValidItem(item) && r.Some? ==> ValidValues(r.value)
  {
    if ValidValues(values) && ValidItem(item) && PyList.Normalize(|values|, index).Some? {
      WrapKeepsValid(item);
      var j := PyList.Normalize(|values|, index).value;
      assert PyList.Set(values, index, Wrap(item)).value == values[j := Wrap(item)];
    }
  }

  /**
   * `key in document`: what the first value answers to `key in`, when there
   * is a first value; False for an empty document. Never fails.
   */
  predicate HasKey(values: seq<Node>, key: Key)
    ensures HasKey(values, key) <==> values != [] && values[0].Contains(key) == Ok(true)
    ensures HasKey(values, key) ==> values[0].value.Object?
  {
    values != [] && values[0].value.Object? && OrderedDict.Contains(values[0].value.fields, key)
  }

  /** For a str key, membership and a successful read are the same question. */
  lemma HasKeyIffReadable(values: seq<Node>, name: string)
    ensures HasKey(values, StrKey(name)) <==> Read(values, StrKey(name)).Ok?
  {
  }

  /**
   * A successful write is seen by the next read of the same key. A str-key
   * write also makes the key a member, keeps every other str key's answer and
   * leaves the values after the first one alone; an int-key write leaves the
   * other slots alone.
   */
  lemma WriteThenRead(values: seq<Node>, key: Key, item: Item)
    requires Write(values, key, item).Ok?
    ensures Read(Write(values, key, item).value, key) == Ok(Wrap(item))
    ensures key.StrKey? ==> HasKey(Write(values, key, item).value, key)
    ensures key.StrKey? ==> forall name :: StrKey(name) != key ==>
              Read(Write(values, key, item).value, StrKey(name)) == Read(values, StrKey(name))
    ensures key.StrKey? && values != [] ==> Write(values, key, item).value[1..] == values[1..]
    ensures key.StrKey? && values != [] ==> Write(values, key, item).value[0] == values[0].SetItem(key, item).value
    ensures key.IntKey? ==> forall j :: 0 <= j < |values| && PyList.Normalize(|values|, key.index) != Some(j) ==>
              Read(Write(values, key, item).value, IntKey(j)) == Read(values, IntKey(j))
  {
    var written := Write(values, key, item).value;
    if key.StrKey? {
      var first := if values == [] then NewNode(Object(OrderedDict.Empty())) else values[0];
      assert first.value.Object?;
      var fields := OrderedDict.Set(first.value.fields, key, Wrap(item));
      assert written[0].value == Object(fields);
      forall name | StrKey(name) != key
        ensures Read(written, StrKey(name)) == Read(values, StrKey(name))
      {
        assert OrderedDict.Get(fields, StrKey(name)) == OrderedDict.Get(first.value.fields, StrKey(name));
      }
    }
  }

  /** A str-key write to an empty document appends exactly one new Object Node holding that one entry. */
  lemma WriteIntoEmpty(name: string, item: Item)
    ensures Write([], StrKey(name), item) == Ok([NewNode(Object(OrderedDict.Dict([(StrKey(name), Wrap(item))])))])
  {
    var entry := (StrKey(name), Wrap(item));
    var empty: OrderedDict.Dict<Key, Node> := OrderedDict.Empty();
    var one := OrderedDict.Dict([entry]);
    OrderedDict.SetIntoEmpty(StrKey(name), Wrap(item));
    var created := NewNode(Object(empty));
    var written := NewNode(Object(one));
    assert created.SetItem(StrKey(name), item) == Ok(written);
    calc {
      Write([], StrKey(name), item);
      Ok([created][0 := written]);
      { assert [created][0 := written] == [written]; }
      Ok([written]);
    }
  }

  /** The document: prolog directives, then the top-level values. */
  class Document {
    var prolog: seq<Directive>
    var values: seq<Node>

    /** Every Object in the prolog and in the values keeps the dictionary invariant. */
    ghost predicate Valid()
      reads this
    {
      && (forall i :: 0 <= i < |prolog| ==> ValidValue(prolog[i].value))
      && ValidValues(values)
    }

    /** `Document.new()`: no directives, no values. */
    constructor ()
      ensures prolog == [] && values == []
      ensures Valid()
    {
      prolog := [];
      values := [];
    }

    /**
     * `self[key] = item`. On failure the document is unchanged; on success the
     * same key reads back the wrapped item. The prolog is never touched, and a
     * valid item keeps a valid document valid.
     */
    method SetItem(key: Key, item: Item) returns (r: Outcome)
      modifies this
      ensures prolog == old(prolog)
      ensures r.Pass? <==> Write(old(values), key, item).Ok?
      ensures r.Pass? ==> values == Write(old(values), key, item).value && Read(values, key) == Ok(Wrap(item))
      ensures r.Fail? ==> r.error == Write(old(values), key, item).error && values == old(values)
      ensures old(Valid()) && ValidItem(item) ==> Valid()
    {
      match key {
        case IntKey(i) =>
          var j := PyList.Normalize(|values|, i);
          if j.None? {
            return Fail(IndexError);
          }
          values := values[j.value := Wrap(item)];
          assert values == Write(old(values), key, item).value;
          r := Pass;
        case StrKey(_) =>
          if values == [] {
            values := values + [NewNode(Object(OrderedDict.Empty()))];
          }
          var first := values[0];
          if first.value.Object? {
            values := values[0 := first.SetItem(key, item).value];
            assert values == Write(old(values), key, item).value;
            r := Pass;
          } else {
            r := Fail(FirstValueNotObject);
          }
        case OtherKey(t, _) =>
          r := Fail(TypeError(t));
      }
      if r.Pass? {
        WriteThenRead(old(values), key, item);
      }
    }
  }

  /**
   * A document built from nothing: `doc["a"] = 1` creates the top-level
   * Object, after which `doc["a"]` and `doc[0]` see it and other keys do not.
   */
  method EmptyDocumentScenario()
  {
    var doc := new Document();
    var r := doc.SetItem(StrKey("a"), Bare(Int(1)));
    assert r == Pass;
    assert Read(doc.values, StrKey("a")) == Ok(NewNode(Int(1)));
    assert Read(doc.values, IntKey(0)).Ok? && Read(doc.values, IntKey(0)).value.value.Object?;
    assert Read(doc.values, IntKey(0)).value.Len() == Ok(1);
    assert HasKey(doc.values, StrKey("a")) && !HasKey(doc.values, StrKey("b"));
    assert Read(doc.values, StrKey("b")) == Err(KeyError(StrKey("b")));
    r := doc.SetItem(IntKey(1), Bare(Null));
    assert r == Fail(IndexError) && |doc.values| == 1;
  }
}
