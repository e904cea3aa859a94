/** Writing the nodes that a user has built into a document. */
module JsonWriter {
  import opened Wrappers
  import opened NumberFormat
  import opened NumberCodec
  import opened NumberConversion
  import opened OracleNumber
  import opened Decimals
  import opened JsonTrees
  import opened JsonMeaning
  import opened JsonNodes

  // Arrays have as many elements as they say, and objects as many names and fields.
  predicate Complete(n: Node)
    decreases n
  {
    match n.value
    case ArrayValue(count, elements, _) =>
      |NodesOf(elements)| == count
      && (elements.Block? ==> forall i :: 0 <= i < |elements.nodes| ==> Complete(elements.nodes[i]))
    case ObjectValue(count, _, _, names, fields, _) =>
      |names| == count && |NodesOf(fields)| == count
      && (fields.Block? ==> forall i :: 0 <= i < |fields.nodes| ==> Complete(fields.nodes[i]))
    case _ => true
  }

  // The pairs of Oracle type and native type that can be written.
  predicate Matches(n: Node) {
    || (n.oracleType == TypeArray && n.value.ArrayValue?)
    || (n.oracleType == TypeObject && n.value.ObjectValue?)
    || ((n.oracleType == TypeNumber || n.oracleType == TypeRaw || n.oracleType == TypeVarchar) && n.value.BytesValue?)
    || (n.oracleType == TypeBoolean && n.value.BooleanValue?)
    || (n.oracleType == TypeNone && n.value.Zeroed?)
  }

  // One native type for each Oracle type.
  lemma MatchesExactly(n: Node)
    ensures Matches(n) <==> match n.oracleType {
                              case TypeArray => n.value.ArrayValue?
                              case TypeObject => n.value.ObjectValue?
                              case TypeNumber => n.value.BytesValue?
                              case TypeVarchar => n.value.BytesValue?
                              case TypeRaw => n.value.BytesValue?
                              case TypeBoolean => n.value.BooleanValue?
                              case TypeNone => n.value.Zeroed?
                              case TypeOther => false
                            }
  {
  }

  predicate Typed(n: Node)
    decreases n
  {
    && Matches(n)
    && match n.value
       case ArrayValue(_, elements, _) =>
         elements.Block? ==> forall i :: 0 <= i < |elements.nodes| ==> Typed(elements.nodes[i])
       case ObjectValue(_, _, _, _, fields, _) =>
         fields.Block? ==> forall i :: 0 <= i < |fields.nodes| ==> Typed(fields.nodes[i])
       case _ => true
  }

  // What a node is written as: nothing if a type does not match or a number is not one.
  function Written(n: Node, cs: Charset): Option<Dom> {
    if Typed(n) then ToDom(View(n), cs) else None
  }

  lemma {:induction false} SizeAppend(items: seq<Dom>, d: Dom)
    ensures SizeAll(items + [d]) == SizeAll(items) + Size(d)
  {
    if items == [] {
      assert ([] + [d])[1..] == [];
    } else {
      SizeAppend(items[1..], d);
      assert (items + [d])[1..] == items[1..] + [d];
    }
  }

  lemma {:induction false} ToDomsPointwise(ts: seq<Tree>, items: seq<Dom>, cs: Charset)
    requires |items| == |ts| && forall k :: 0 <= k < |ts| ==> ToDom(ts[k], cs) == Some(items[k])
    ensures ToDoms(ts, cs) == Some(items)
  {
    if ts != [] {
      ToDomsPointwise(ts[1..], items[1..], cs);
      assert items == [items[0]] + items[1..];
    }
  }

  lemma {:induction false} ToDomsFails(ts: seq<Tree>, k: nat, cs: Charset)
    requires k < |ts| && ToDom(ts[k], cs) == None
    ensures ToDoms(ts, cs) == None
  {
    if k > 0 {
      ToDomsFails(ts[1..], k - 1, cs);
    }
  }

  lemma {:induction false} ViewAt(nodes: seq<Node>, k: nat)
    requires k < |nodes|
    ensures ViewNodes(nodes)[k] == View(nodes[k])
  {
    if k > 0 {
      ViewAt(nodes[1..], k - 1);
    }
  }

  lemma {:induction false} FieldsAt(names: seq<Bytes>, values: seq<Tree>, k: nat)
    requires k < |values| == |names|
    ensures |ViewFields(names, values)| == |names| && ViewFields(names, values)[k] == Field(names[k], values[k])
  {
    if k > 0 {
      FieldsAt(names[1..], values[1..], k - 1);
    } else if |names| > 1 {
      FieldsAt(names[1..], values[1..], 0);
    }
  }

  lemma ArrayWritten(n: Node, items: seq<Dom>, cs: Charset)
    requires Matches(n) && n.value.ArrayValue?
    requires var ns := NodesOf(n.value.elements);
             |ns| == |items| && forall k :: 0 <= k < |ns| ==> Written(ns[k], cs) == Some(items[k])
    ensures Written(n, cs) == Some(DomArray(items))
  {
    var ns := NodesOf(n.value.elements);
    forall k | 0 <= k < |ns|
      ensures ToDom(ViewBlock(n.value.elements)[k], cs) == Some(items[k])
    {
      ViewAt(ns, k);
    }
    ToDomsPointwise(ViewBlock(n.value.elements), items, cs);
  }

  lemma ArrayUnwritten(n: Node, k: nat, cs: Charset)
    requires n.value.ArrayValue? && k < |NodesOf(n.value.elements)| && Written(NodesOf(n.value.elements)[k], cs) == None
    ensures Written(n, cs) == None
  {
    var ns := NodesOf(n.value.elements);
    ViewAt(ns, k);
    if Typed(n) {
      assert Typed(ns[k]);
      ToDomsFails(ViewBlock(n.value.elements), k, cs);
    }
  }

  // The fields of an object, as a tree has them.
  function FieldsOf(n: Node): seq<Field>
    requires n.value.ObjectValue?
  {
    ViewFields(n.value.names, ViewBlock(n.value.fields))
  }

  lemma FieldsOfAt(n: Node, k: nat)
    requires n.value.ObjectValue? && Complete(n) && k < n.value.numFields
    ensures |FieldsOf(n)| == n.value.numFields
    ensures FieldsOf(n)[k] == Field(n.value.names[k], View(NodesOf(n.value.fields)[k]))
  {
    var ns := NodesOf(n.value.fields);
    ViewAt(ns, k);
    FieldsAt(n.value.names, ViewNodes(ns), k);
  }

  lemma ObjectUnwritten(n: Node, k: nat, cs: Charset)
    requires n.value.ObjectValue? && Complete(n) && k < n.value.numFields
    requires Written(NodesOf(n.value.fields)[k], cs) == None
    ensures Written(n, cs) == None
  {
    FieldsOfAt(n, k);
    if Typed(n) {
      assert Typed(NodesOf(n.value.fields)[k]);
      PutAllConverts([], FieldsOf(n), cs);
    }
  }

  lemma {:induction false} FieldsLength(names: seq<Bytes>, values: seq<Tree>)
    requires |names| == |values|
    ensures |ViewFields(names, values)| == |names|
  {
    if names != [] {
      FieldsLength(names[1..], values[1..]);
    }
  }

  lemma FieldsCount(n: Node)
    requires n.value.ObjectValue? && Complete(n)
    ensures |FieldsOf(n)| == n.value.numFields
  {
    FieldsLength(n.value.names, ViewBlock(n.value.fields));
  }

  predicate FirstTyped(nodes: seq<Node>, n: nat) {
    n <= |nodes| && forall k :: 0 <= k < n ==> Typed(nodes[k])
  }

  lemma OneMoreTyped(nodes: seq<Node>, i: nat, cs: Charset)
    requires i < |nodes| && FirstTyped(nodes, i) && Written(nodes[i], cs) != None
    ensures FirstTyped(nodes, i + 1)
  {
  }

  lemma ObjectWritten(n: Node, pairs: seq<Pair>, cs: Charset)
    requires Matches(n) && n.value.ObjectValue? && PutAll([], FieldsOf(n), cs) == Some(pairs)
    requires FirstTyped(NodesOf(n.value.fields), |NodesOf(n.value.fields)|)
    ensures Written(n, cs) == Some(DomObject(pairs))
  {
    if n.value.fields.Block? {
      assert NodesOf(n.value.fields) == n.value.fields.nodes;
    }
    assert Typed(n);
    assert View(n) == Object(FieldsOf(n));
    ObjectIs(FieldsOf(n), cs, pairs);
  }

  lemma ObjectIs(fields: seq<Field>, cs: Charset, pairs: seq<Pair>)
    requires PutAll([], fields, cs) == Some(pairs)
    ensures ToDom(Object(fields), cs) == Some(DomObject(pairs))
  {
  }

  lemma PutStep(done: seq<Pair>, fields: seq<Field>, i: nat, value: Dom, cs: Charset)
    requires i < |fields| && ToDom(fields[i].value, cs) == Some(value)
    ensures PutAll(done, fields[i..], cs) == PutAll(Put(done, Cut(fields[i].name), value), fields[i + 1..], cs)
  {
    assert fields[i..][1..] == fields[i + 1..];
  }

  lemma NumberIs(bytes: Bytes, cs: Charset, number: Option<Bytes>)
    requires number == NumberDom(bytes, cs)
    ensures ToDom(Number(bytes), cs) == if number == None then None else Some(DomNumber(number.value))
  {
  }

  // A node is written if and only if its types match and all of its numbers are numbers; the tree it stands for
  // is in the document then.
  lemma NodeWritten(n: Node, cs: Charset)
    ensures Written(n, cs).Some? <==> Typed(n) && NumbersParse(View(n), cs)
    ensures Written(n, cs).Some? ==> WrittenAs(View(n), Written(n, cs).value, cs)
  {
    WrittenExactly(View(n), cs);
    if Written(n, cs).Some? {
      WrittenMeans(View(n), cs);
    }
  }

  class Document {
    const cs: Charset
    // The nodes of the document that were created and not freed.
    var nodes: int

    // The subtree is freed with its node.
    method FreeDom(d: Dom)
      modifies this
      ensures nodes == old(nodes) - Size(d)
    {
      nodes := nodes - Size(d);
    }

    method NewNode(d: Dom)
      requires Size(d) == 1
      modifies this
      ensures nodes == old(nodes) + 1
    {
      nodes := nodes + 1;
    }

    // A field goes into the object; a value it replaces is freed with its nodes.
    method PutField(pairs: seq<Pair>, name: Bytes, value: Dom) returns (r: seq<Pair>)
      modifies this
      ensures r == Put(pairs, Cut(name), value)
      ensures nodes + SizePairs(pairs) + Size(value) == old(nodes) + SizePairs(r)
    {
      r := Put(pairs, Cut(name), value);
      nodes := nodes - SizePairs(pairs) - Size(value) + SizePairs(r);
    }

    method WriteArray(n: Node) returns (r: Option<Dom>)
      requires Complete(n) && Matches(n) && n.value.ArrayValue?
      modifies this
      ensures r == Written(n, cs) && nodes == old(nodes) + if r == None then 0 else Size(r.value)
      decreases n, 0
    {
      var elements := NodesOf(n.value.elements);
      var items: seq<Dom> := [];
      NewNode(DomArray([]));
      var i := 0;
      while i < |elements|
        invariant i <= |elements| && |items| == i && nodes == old(nodes) + 1 + SizeAll(items)
        invariant forall k :: 0 <= k < i ==> Written(elements[k], cs) == Some(items[k])
      {
        var child := WriteNode(elements[i]);
        if child == None {
          FreeDom(DomArray(items));
          ArrayUnwritten(n, i, cs);
          return None;
        }
        SizeAppend(items, child.value);
        items := items + [child.value];
        i := i + 1;
      }
      ArrayWritten(n, items, cs);
      r := Some(DomArray(items));
    }

    method WriteObject(n: Node) returns (r: Option<Dom>)
      requires Complete(n) && Matches(n) && n.value.ObjectValue?
      modifies this
      ensures r == Written(n, cs) && nodes == old(nodes) + if r == None then 0 else Size(r.value)
      decreases n, 0
    {
      var v := n.value;
      var fields := NodesOf(v.fields);
      var pairs: seq<Pair> := [];
      NewNode(DomObject([]));
      var i := 0;
      ghost var all := FieldsOf(n);
      FieldsCount(n);
      assert all[0..] == all;
      while i < v.numFields
        invariant i <= v.numFields && nodes == old(nodes) + 1 + SizePairs(pairs)
        invariant FirstTyped(fields, i)
        invariant PutAll([], all, cs) == PutAll(pairs, all[i..], cs)
      {
        var child := WriteNode(fields[i]);
        if child == None {
          FreeDom(DomObject(pairs));
          ObjectUnwritten(n, i, cs);
          return None;
        }
        OneMoreTyped(fields, i, cs);
        FieldsOfAt(n, i);
        PutStep(pairs, all, i, child.value, cs);
        pairs := PutField(pairs, v.names[i], child.value);
        i := i + 1;
      }
      ObjectWritten(n, pairs, cs);
      r := Some(DomObject(pairs));
    }

    // Writes a node: all of it, or nothing is left in the document.
    method WriteNode(n: Node) returns (r: Option<Dom>)
      requires Complete(n)
      modifies this
      ensures r == Written(n, cs) && nodes == old(nodes) + if r == None then 0 else Size(r.value)
      ensures r.Some? <==> Typed(n) && NumbersParse(View(n), cs)
      ensures r.Some? ==> WrittenAs(View(n), r.value, cs)
      decreases n, 1
    {
      NodeWritten(n, cs);
      if !Matches(n) {
        return None;
      }
      if n.value.ArrayValue? {
        r := WriteArray(n);
      } else if n.value.ObjectValue? {
        r := WriteObject(n);
      } else {
        r := WriteScalar(n);
      }
    }

    method WriteScalar(n: Node) returns (r: Option<Dom>)
      requires Matches(n) && !n.value.ArrayValue? && !n.value.ObjectValue?
      modifies this
      ensures r == ToDom(View(n), cs) && nodes == old(nodes) + if r == None then 0 else 1
      ensures n.value.Zeroed? ==> r == Some(DomNull)
      ensures n.value.BooleanValue? ==> r == Some(if n.value.flag then DomTrue else DomFalse)
      ensures n.value.BytesValue? && n.oracleType.TypeRaw? ==> r == Some(DomBinary(n.value.bytes))
      ensures n.value.BytesValue? && n.oracleType.TypeVarchar? ==> r == Some(DomString(n.value.bytes))
    {
      if n.oracleType == TypeNumber {
        r := WriteNumber(n.value.bytes);
        return;
      }
      var d := match n.value
               case Zeroed => DomNull
               case BooleanValue(flag) => if flag then DomTrue else DomFalse
               case BytesValue(bytes) => if n.oracleType == TypeRaw then DomBinary(bytes) else DomString(bytes);
      NewNode(d);
      r := Some(d);
    }

    method WriteNumber(bytes: Bytes) returns (r: Option<Dom>)
      modifies this
      ensures r == ToDom(Number(bytes), cs) && nodes == old(nodes) + if r == None then 0 else 1
    {
      var number := WriteNumberText(bytes);
      NumberIs(bytes, cs, number);
      if number == None {
        return None;
      }
      NewNode(DomNumber(number.value));
      r := Some(DomNumber(number.value));
    }

    method WriteNumberText(bytes: Bytes) returns (r: Option<Bytes>)
      ensures r == NumberDom(bytes, cs)
    {
      var buffer := new int[NUMBER_BUFFER_SIZE](_ => 0);
      if ParseNumber(bytes, cs).Success? {
        NumberFitsBuffer(bytes, cs);
      }
      ghost var before := buffer[..];
      var written := ToOracleNumberFromText(bytes, cs, buffer);
      if written.Failure? {
        return None;
      }
      BufferIsNumber(bytes, cs, before, buffer[..]);
      r := Some(buffer[..]);
    }
  }

  lemma NumberFitsBuffer(bytes: Bytes, cs: Charset)
    requires ParseNumber(bytes, cs).Success?
    ensures Normal(ParseNumber(bytes, cs).value) && |Encode(ParseNumber(bytes, cs).value)| <= NUMBER_BUFFER_SIZE
  {
    ParsedIsNormal(bytes, cs);
    EncodedSize(ParseNumber(bytes, cs).value);
  }

  lemma BufferIsNumber(bytes: Bytes, cs: Charset, before: seq<int>, after: seq<int>)
    requires ParseNumber(bytes, cs).Success? && |before| == |after| == NUMBER_BUFFER_SIZE
    requires forall k :: 0 <= k < |before| ==> before[k] == 0
    requires var e := Encode(ParseNumber(bytes, cs).value);
             |e| <= |after| && after[..|e|] == e && after[|e|..] == before[|e|..]
    ensures IsBytes(after) && NumberDom(bytes, cs) == Some(after)
  {
    ParsedIsNormal(bytes, cs);
    BufferIs(ParseNumber(bytes, cs).value, before, after);
  }

  lemma BufferIs(d: Decimal, before: seq<int>, after: seq<int>)
    requires Normal(d) && |Encode(d)| <= |before| == |after| == NUMBER_BUFFER_SIZE
    requires forall k :: 0 <= k < |before| ==> before[k] == 0
    requires after[..|Encode(d)|] == Encode(d) && after[|Encode(d)|..] == before[|Encode(d)|..]
    ensures IsBytes(after) && after == NumberBuffer(d)
  {
    EncodeIsBytes(d);
    assert before[|Encode(d)|..] == Zeros(NUMBER_BUFFER_SIZE - |Encode(d)|);
    assert after == after[..|Encode(d)|] + after[|Encode(d)|..];
  }

  // ---- what is written can be read ----

  // Numbers have their buffers, and digits that can be parsed.
  predicate CanRead(d: Dom) {
    DomOk(d) && DigitsFit(d)
  }

  lemma BufferIsOk(numeral: Bytes, cs: Charset, b: Bytes)
    requires NumberDom(numeral, cs) == Some(b)
    ensures CanRead(DomNumber(b))
  {
    ParsedIsNormal(numeral, cs);
    var d := ParseNumber(numeral, cs).value;
    EncodedSize(d);
    DecodeInvertsEncode(d, Zeros(NUMBER_BUFFER_SIZE - |Encode(d)|));
  }

  lemma {:induction false} WrittenIsOk(t: Tree, cs: Charset)
    requires ToDom(t, cs).Some?
    ensures CanRead(ToDom(t, cs).value)
    decreases t, 0
  {
    match t
    case Array(elements) => AllWrittenOk(elements, cs);
    case Object(fields) => FieldsWrittenOk([], fields, cs);
    case Number(numeral) => BufferIsOk(numeral, cs, NumberDom(numeral, cs).value);
    case _ =>
  }

  lemma {:induction false} AllWrittenOk(ts: seq<Tree>, cs: Charset)
    requires ToDoms(ts, cs).Some?
    ensures forall i :: 0 <= i < |ts| ==> CanRead(ToDoms(ts, cs).value[i])
    decreases ts, 0
  {
    if ts != [] {
      WrittenIsOk(ts[0], cs);
      AllWrittenOk(ts[1..], cs);
    }
  }

  lemma {:induction false} PutOk(pairs: seq<Pair>, name: Bytes, value: Dom)
    requires CanRead(value) && forall i :: 0 <= i < |pairs| ==> CanRead(pairs[i].value)
    ensures forall i :: 0 <= i < |Put(pairs, name, value)| ==> CanRead(Put(pairs, name, value)[i].value)
  {
    if pairs != [] {
      PutOk(pairs[1..], name, value);
    }
  }

  lemma {:induction false} FieldsWrittenOk(done: seq<Pair>, fields: seq<Field>, cs: Charset)
    requires PutAll(done, fields, cs).Some? && forall i :: 0 <= i < |done| ==> CanRead(done[i].value)
    ensures forall i :: 0 <= i < |PutAll(done, fields, cs).value| ==> CanRead(PutAll(done, fields, cs).value[i].value)
    decreases fields, 0
  {
    if fields != [] {
      WrittenIsOk(fields[0].value, cs);
      var value := ToDom(fields[0].value, cs).value;
      PutOk(done, Cut(fields[0].name), value);
      FieldsWrittenOk(Put(done, Cut(fields[0].name), value), fields[1..], cs);
    }
  }

  // Nodes that are written and read again stand for the same tree if and only if field names are
  // distinct and short and numbers are spelled as the driver prints them, at every depth.
  lemma NodesRoundTrip(n: Node, d: Dom, back: Node, cs: Charset)
    requires Written(n, cs) == Some(d) && FromDom(d, cs) == Some(View(back))
    ensures CanRead(d)
    ensures View(back) == View(n) <==> Faithful(View(n), cs)
  {
    WrittenIsOk(View(n), cs);
    RoundTrip(View(n), cs);
  }
}
