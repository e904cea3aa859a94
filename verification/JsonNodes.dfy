/** JSON values as the nodes that users see, with the arrays that are allocated for them: reading a
    document into nodes, and freeing them. */
module JsonNodes {
  import opened Wrappers
  import opened OracleNumber
  import opened OracleNumberParser
  import opened NumberFormat
  import opened Decimals
  import opened JsonMeaning
  import opened JsonTrees

  type Address = nat

  const BATCH_NODES := 64
  const TEMP_BUFFER_SIZE := 1024

  // How a read ends: also by writing behind a buffer, or by freeing a pointer that is none.
  datatype Outcome = Done | Failed | Overrun | BadFree

  datatype OracleType = TypeNone | TypeArray | TypeObject | TypeNumber | TypeVarchar | TypeRaw | TypeBoolean | TypeOther

  // An array of nodes in memory, or a null pointer.
  datatype Block = NoBlock | Block(at: Address, nodes: seq<Node>)

  // The constructor tells the native type. Zeroed is a buffer that nothing was written to, and the native
  // type NULL.
  datatype Value =
    | Zeroed
    | ArrayValue(numElements: nat, elements: Block, elementValues: Option<Address>)
    | ObjectValue(numFields: nat, fieldNames: Option<Address>, fieldNameLengths: Option<Address>, names: seq<Bytes>,
                  fields: Block, fieldValues: Option<Address>)
    | BytesValue(bytes: Bytes)
    | BooleanValue(flag: bool)

  // A node whose value pointer is null has not been reached yet.
  datatype Node = Node(hasValue: bool, oracleType: OracleType, value: Value)

  const ZERO := Node(false, TypeNone, Zeroed)

  function ZeroBytes(n: nat): (r: Bytes)
    ensures |r| == n
  {
    Zeros(n)
  }

  function ZeroNodes(n: nat): (r: seq<Node>)
    ensures |r| == n && forall k :: 0 <= k < n ==> r[k] == ZERO
  {
    if n == 0 then [] else [ZERO] + ZeroNodes(n - 1)
  }

  // ---- the memory of a node ----

  function At(a: Option<Address>): multiset<Address> {
    if a == None then multiset{} else multiset{a.value}
  }

  function InBlock(b: Block): multiset<Address>
    decreases b, 0
  {
    if b == NoBlock then multiset{} else multiset{b.at} + InNodes(b.nodes)
  }

  // The arrays that belong to a node, with those of its children.
  function In(n: Node): multiset<Address>
    decreases n, 0
  {
    match n.value
    case ArrayValue(_, elements, elementValues) => InBlock(elements) + At(elementValues)
    case ObjectValue(_, fieldNames, fieldNameLengths, _, fields, fieldValues) =>
      InBlock(fields) + At(fieldNames) + At(fieldNameLengths) + At(fieldValues)
    case _ => multiset{}
  }

  function InNodes(nodes: seq<Node>): multiset<Address>
    decreases nodes, 0
  {
    if nodes == [] then multiset{} else In(nodes[0]) + InNodes(nodes[1..])
  }

  lemma {:induction false} InZeroNodes(n: nat)
    ensures InNodes(ZeroNodes(n)) == multiset{}
  {
    if n > 0 {
      InZeroNodes(n - 1);
      assert ZeroNodes(n)[1..] == ZeroNodes(n - 1);
    }
  }

  lemma {:induction false} InUpdate(nodes: seq<Node>, i: nat, n: Node)
    requires i < |nodes| && nodes[i] == ZERO
    ensures InNodes(nodes[i := n]) == InNodes(nodes) + In(n)
  {
    if i == 0 {
      assert nodes[i := n][1..] == nodes[1..];
    } else {
      InUpdate(nodes[1..], i - 1, n);
      assert nodes[i := n][1..] == nodes[1..][i - 1 := n];
    }
  }

  // ---- what a node stands for ----

  // Shapes that reading can leave behind, also when it stops part-way.
  predicate Sound(n: Node)
    decreases n, 1
  {
    && (!n.hasValue ==> n == ZERO)
    && (n.oracleType == TypeArray <==> n.value.ArrayValue?)
    && (n.oracleType == TypeObject <==> n.value.ObjectValue?)
    && (n.value.ArrayValue? ==> SoundBlock(n.value.elements, n.value.numElements))
    && (n.value.ObjectValue? ==> SoundBlock(n.value.fields, n.value.numFields))
  }

  predicate SoundBlock(b: Block, count: nat)
    decreases b, 0
  {
    b.Block? ==> |b.nodes| == count && forall i :: 0 <= i < |b.nodes| ==> Sound(b.nodes[i])
  }

  function NodesOf(b: Block): seq<Node> {
    if b == NoBlock then [] else b.nodes
  }

  function View(n: Node): Tree
    decreases n, 1
  {
    match n.value
    case Zeroed => Null
    case ArrayValue(_, elements, _) => Array(ViewBlock(elements))
    case ObjectValue(_, _, _, names, fields, _) => Object(ViewFields(names, ViewBlock(fields)))
    case BytesValue(bytes) =>
      if n.oracleType == TypeNumber then Number(bytes) else if n.oracleType == TypeRaw then Raw(bytes) else String(bytes)
    case BooleanValue(flag) => Boolean(flag)
  }

  function ViewBlock(b: Block): (r: seq<Tree>)
    decreases b, 1
  {
    if b == NoBlock then [] else ViewNodes(b.nodes)
  }

  function ViewNodes(nodes: seq<Node>): (r: seq<Tree>)
    ensures |r| == |nodes|
    decreases nodes, 0
  {
    if nodes == [] then [] else [View(nodes[0])] + ViewNodes(nodes[1..])
  }

  function ViewFields(names: seq<Bytes>, values: seq<Tree>): (r: seq<Field>) {
    if names == [] || values == [] then [] else [Field(names[0], values[0])] + ViewFields(names[1..], values[1..])
  }

  // ---- documents ----

  function Size(d: Dom): (r: nat)
    ensures r >= 1
    decreases d, 0
  {
    match d
    case DomArray(items) => 1 + SizeAll(items)
    case DomObject(pairs) => 1 + SizePairs(pairs)
    case _ => 1
  }

  function SizeAll(items: seq<Dom>): (r: nat)
    ensures forall i :: 0 <= i < |items| ==> Size(items[i]) <= r
    decreases items, 0
  {
    if items == [] then 0 else Size(items[0]) + SizeAll(items[1..])
  }

  function SizePairs(pairs: seq<Pair>): (r: nat)
    ensures forall i :: 0 <= i < |pairs| ==> Size(pairs[i].value) <= r
    decreases pairs, 0
  {
    if pairs == [] then 0 else Size(pairs[0].value) + SizePairs(pairs[1..])
  }

  // Numbers in documents are in the buffers of OCI numbers.
  predicate DomOk(d: Dom)
    decreases d
  {
    match d
    case DomArray(items) => forall i :: 0 <= i < |items| ==> DomOk(items[i])
    case DomObject(pairs) => forall i :: 0 <= i < |pairs| ==> DomOk(pairs[i].value)
    case DomNumber(number) => |number| >= ORACLE_NUMBER_SIZE
    case _ => true
  }

  // A corrupt number with more digits than the buffer they are parsed into has room for.
  predicate Overlong(number: Bytes) {
    |number| >= ORACLE_NUMBER_SIZE && Decode(number).Success? && |Decode(number).value.digits| > MAX_DIGITS
  }

  predicate DigitsFit(d: Dom)
    decreases d
  {
    match d
    case DomArray(items) => forall i :: 0 <= i < |items| ==> DigitsFit(items[i])
    case DomObject(pairs) => forall i :: 0 <= i < |pairs| ==> DigitsFit(pairs[i].value)
    case DomNumber(number) => !Overlong(number)
    case _ => true
  }

  predicate AllRead(items: seq<Dom>, cs: Charset) {
    forall i :: 0 <= i < |items| ==> NumbersRead(items[i], cs)
  }

  lemma PairsRead(pairs: seq<Pair>, cs: Charset)
    ensures NumbersRead(DomObject(pairs), cs) ==> AllRead(Values(pairs), cs)
  {
  }

  lemma NumberUnread(number: Bytes, cs: Charset)
    requires NumberBack(number, cs) == None
    ensures !NumbersRead(DomNumber(number), cs)
  {
  }

  predicate AllFit(items: seq<Dom>) {
    forall i :: 0 <= i < |items| ==> DigitsFit(items[i])
  }

  lemma PairsFit(pairs: seq<Pair>)
    ensures DigitsFit(DomObject(pairs)) ==> AllFit(Values(pairs))
  {
  }

  // How a read ends that found the array of temporary buffers short or not; whether it is short then, and
  // whether there are as many buffers as before, which is so if no number was read. If memory is plentiful, it fails
  // only if a number cannot be read, and the array does not become short.
  predicate Ends(r: Outcome, short: bool, short': bool, asMany: bool, fit: bool, plentiful: bool, readable: bool) {
    && r != BadFree && (r == Failed ==> !plentiful || !readable) && (short' && !short ==> !plentiful)
    && (r == Done ==> short' == short && (short ==> asMany)) && (r == Overrun ==> short || !fit)
  }

  lemma {:induction false} ReadableFits(d: Dom, cs: Charset)
    requires NumbersRead(d, cs)
    ensures DigitsFit(d)
    decreases d
  {
    match d
    case DomArray(items) =>
      forall i | 0 <= i < |items| ensures DigitsFit(items[i]) {
        ReadableFits(items[i], cs);
      }
    case DomObject(pairs) =>
      forall i | 0 <= i < |pairs| ensures DigitsFit(pairs[i].value) {
        ReadableFits(pairs[i].value, cs);
      }
    case _ =>
  }

  // What is read is in the document; if memory is plentiful and the array of buffers large enough, reading comes to
  // its end if and only if every number in the document can be read.
  lemma NodeRead(d: Dom, t: Tree, cs: Charset, r: Outcome, plentiful: bool, short: bool, short': bool, asMany: bool)
    requires Ends(r, short, short', asMany, DigitsFit(d), plentiful, NumbersRead(d, cs))
    requires r == Done ==> FromDom(d, cs) == Some(t)
    ensures r == Done ==> ReadAs(d, t, cs)
    ensures plentiful && !short ==> (r == Done <==> NumbersRead(d, cs))
  {
    ReadExactly(d, cs);
    if r == Done {
      ReadMeans(d, cs);
    }
    if NumbersRead(d, cs) {
      ReadableFits(d, cs);
    }
  }

  // The node of a value, whether or not it was read to its end.
  predicate Shaped(d: Dom, node: Node) {
    match d
    case DomArray(items) => node.value.ArrayValue? && node.value.numElements == |items|
    case DomObject(pairs) => node.value.ObjectValue? && node.value.numFields == |pairs|
    case DomString(text) => node.value == BytesValue(text)
    case DomBinary(data) => node.value == BytesValue(data)
    case DomNumber(_) => node.value.Zeroed? || node.value.BytesValue?
    case DomNull => node.value.Zeroed?
    case _ => node.value.BooleanValue?
  }

  // Reading allocates nothing.
  predicate IsPlain(d: Dom) {
    !d.DomNumber? && (d.DomArray? || d.DomObject? ==> IsEmpty(d))
  }

  predicate IsEmpty(d: Dom) {
    (d.DomArray? && |d.items| == 0) || (d.DomObject? && |d.pairs| == 0)
  }

  // Reading element by element is reading the whole.
  lemma {:induction false} ReadAll(items: seq<Dom>, nodes: seq<Node>, cs: Charset)
    requires |items| == |nodes| && forall k :: 0 <= k < |items| ==> FromDom(items[k], cs) == Some(View(nodes[k]))
    ensures FromDoms(items, cs) == Some(ViewNodes(nodes))
  {
    if items != [] {
      ReadAll(items[1..], nodes[1..], cs);
    }
  }

  lemma {:induction false} ReadAllPairs(pairs: seq<Pair>, names: seq<Bytes>, nodes: seq<Node>, cs: Charset)
    requires |pairs| == |nodes| == |names|
    requires forall k :: 0 <= k < |pairs| ==> FromDom(pairs[k].value, cs) == Some(View(nodes[k])) && names[k] == pairs[k].name
    ensures FromPairs(pairs, cs) == Some(ViewFields(names, ViewNodes(nodes)))
  {
    if pairs != [] {
      ReadAllPairs(pairs[1..], names[1..], nodes[1..], cs);
    }
  }

  function Values(pairs: seq<Pair>): (r: seq<Dom>)
    ensures |r| == |pairs| && forall i :: 0 <= i < |pairs| ==> r[i] == pairs[i].value
  {
    if pairs == [] then [] else [pairs[0].value] + Values(pairs[1..])
  }

  function Names(pairs: seq<Pair>): (r: seq<Bytes>)
    ensures |r| == |pairs| && forall i :: 0 <= i < |pairs| ==> r[i] == pairs[i].name
  {
    if pairs == [] then [] else [pairs[0].name] + Names(pairs[1..])
  }

  // The children that are read so far: those before pos agree with the document if nothing failed,
  // those from limit on have not been touched.
  predicate ReadBetween(items: seq<Dom>, nodes: seq<Node>, pos: nat, limit: nat, cs: Charset) {
    && pos <= limit <= |items| == |nodes|
    && (forall k :: 0 <= k < pos ==> FromDom(items[k], cs) == Some(View(nodes[k])))
    && (forall k :: 0 <= k < |nodes| ==> Sound(nodes[k]))
    && (forall k :: limit <= k < |nodes| ==> nodes[k] == ZERO)
  }

  predicate AllSound(items: seq<Dom>, nodes: seq<Node>) {
    |nodes| == |items| && forall k :: 0 <= k < |nodes| ==> Sound(nodes[k])
  }

  lemma {:induction false} ValuesSize(pairs: seq<Pair>)
    ensures SizeAll(Values(pairs)) == SizePairs(pairs)
  {
    if pairs != [] {
      ValuesSize(pairs[1..]);
      assert Values(pairs)[1..] == Values(pairs[1..]);
    }
  }

  lemma ReadOne(items: seq<Dom>, nodes: seq<Node>, i: nat, n: Node, r: Outcome, cs: Charset, nodes': seq<Node>)
    requires ReadBetween(items, nodes, i, i, cs) && i < |nodes| && Sound(n) && nodes' == nodes[i := n]
    requires r == Done ==> FromDom(items[i], cs) == Some(View(n))
    ensures ReadBetween(items, nodes', if r == Done then i + 1 else i, i + 1, cs)
  {
  }

  // An array none of whose elements has been read.
  function NewArray(n: nat, elements: Option<Address>, elementValues: Option<Address>): Node {
    Node(true, TypeArray,
         ArrayValue(n, if elements == None then NoBlock else Block(elements.value, ZeroNodes(n)), elementValues))
  }

  lemma InNewArray(n: nat, elements: Option<Address>, elementValues: Option<Address>, node: Node)
    requires node == NewArray(n, elements, elementValues)
    ensures Sound(node) && In(node) == At(elements) + At(elementValues)
  {
    InZeroNodes(n);
  }

  lemma EmptyArrayRead(items: seq<Dom>, node: Node, cs: Charset)
    requires |items| == 0 && node == NewArray(0, None, None)
    ensures Sound(node) && In(node) == multiset{} && FromDom(DomArray(items), cs) == Some(View(node))
  {
  }

  // An object none of whose fields has been read.
  function NewObject(n: nat, fieldNames: Option<Address>, lengths: Option<Address>, fields: Option<Address>,
                     fieldValues: Option<Address>): Node {
    Node(true, TypeObject,
         ObjectValue(n, fieldNames, lengths, [],
                     if fields == None then NoBlock else Block(fields.value, ZeroNodes(n)), fieldValues))
  }

  lemma InNewObject(n: nat, fieldNames: Option<Address>, lengths: Option<Address>, fields: Option<Address>,
                    fieldValues: Option<Address>, node: Node)
    requires node == NewObject(n, fieldNames, lengths, fields, fieldValues)
    ensures Sound(node) && In(node) == At(fields) + At(fieldNames) + At(lengths) + At(fieldValues)
  {
    InZeroNodes(n);
  }

  lemma EmptyObjectRead(pairs: seq<Pair>, node: Node, cs: Charset)
    requires |pairs| == 0 && node == NewObject(0, None, None, None, None)
    ensures Sound(node) && In(node) == multiset{} && FromDom(DomObject(pairs), cs) == Some(View(node))
  {
  }

  lemma ArrayFilled(items: seq<Dom>, elements: Address, elementValues: Option<Address>, nodes: seq<Node>, node: Node,
                    own: multiset<Address>, rest: multiset<Address>)
    requires AllSound(items, nodes)
    requires node == Node(true, TypeArray, ArrayValue(|items|, Block(elements, nodes), elementValues))
    requires own == multiset{elements} + At(elementValues)
    ensures Sound(node) && Shaped(DomArray(items), node)
    ensures rest + own + InNodes(nodes) == rest + In(node)
  {
    assert In(node) == own + InNodes(nodes);
  }

  lemma ObjectFilled(pairs: seq<Pair>, fieldNames: Option<Address>, lengths: Option<Address>, fields: Address,
                     fieldValues: Option<Address>, nodes: seq<Node>, node: Node, own: multiset<Address>,
                     rest: multiset<Address>)
    requires AllSound(Values(pairs), nodes)
    requires node == Node(true, TypeObject,
                          ObjectValue(|pairs|, fieldNames, lengths, Names(pairs), Block(fields, nodes), fieldValues))
    requires own == multiset{fields} + At(fieldNames) + At(lengths) + At(fieldValues)
    ensures Sound(node) && Shaped(DomObject(pairs), node)
    ensures rest + own + InNodes(nodes) == rest + In(node)
  {
    assert In(node) == own + InNodes(nodes);
  }

  lemma ArrayRead(items: seq<Dom>, nodes: seq<Node>, node: Node, cs: Charset)
    requires ReadBetween(items, nodes, |items|, |items|, cs) && node.value.ArrayValue?
    requires node.value.elements.Block? && node.value.elements.nodes == nodes
    ensures FromDom(DomArray(items), cs) == Some(View(node))
  {
    ReadAll(items, nodes, cs);
  }

  lemma ObjectRead(pairs: seq<Pair>, nodes: seq<Node>, node: Node, cs: Charset)
    requires ReadBetween(Values(pairs), nodes, |pairs|, |pairs|, cs) && node.value.ObjectValue?
    requires node.value.fields.Block? && node.value.fields.nodes == nodes && node.value.names == Names(pairs)
    ensures FromDom(DomObject(pairs), cs) == Some(View(node))
  {
    ReadAllPairs(pairs, Names(pairs), nodes, cs);
  }

  lemma BytesWritten(number: Bytes, cs: Charset, text: seq<int>)
    requires |number| >= ORACLE_NUMBER_SIZE && Decode(number).Success? && !Overlong(number)
    requires text == BytesOf(Print(Decode(number).value), cs) && |text| <= NUMBER_AS_TEXT_CHARS
    ensures IsBytes(text) && NumberBack(number, cs) == Some(text)
  {
    DecodedWithin(number);
    PrintIsAscii(Decode(number).value);
    ConvertInvertsBytes(Print(Decode(number).value), cs);
  }

  method TextOfNumber(number: Bytes, cs: Charset) returns (r: Outcome, text: Bytes)
    requires |number| >= ORACLE_NUMBER_SIZE
    ensures r == (if Overlong(number) then Overrun else if NumberBack(number, cs) == None then Failed else Done)
    ensures r == Done ==> NumberBack(number, cs) == Some(text)
  {
    var buffer := new int[NUMBER_AS_TEXT_CHARS];
    var source := new int[|number|](i requires 0 <= i < |number| => number[i]);
    assert source[..] == number;
    var written := FromOracleNumberAsText(source, cs, buffer);
    if written.Failure? {
      return if written.error == BadNumber(DigitsOverrun) then Overrun else Failed, [];
    }
    BytesWritten(number, cs, buffer[..written.value]);
    return Done, buffer[..written.value];
  }

  // ---- what is left in the buffer of the top node ----

  predicate IsContainer(n: Node) {
    n.value.ArrayValue? || n.value.ObjectValue?
  }

  predicate HasChildren(n: Node) {
    (n.value.ArrayValue? && n.value.numElements > 0) || (n.value.ObjectValue? && n.value.numFields > 0)
  }

  // The word where bytes have their length, arrays the pointer to their elements and objects the pointer to
  // their field names, once a node was read: a pointer is the node's own, and counted as zero.
  function WordAfter(n: Node, word: nat): nat {
    if n.value.BytesValue? then |n.value.bytes| else if HasChildren(n) then 0 else word
  }

  // The same for a document that was read to its end.
  function WordLeft(d: Dom, cs: Charset, word: nat): nat {
    match d
    case DomString(text) => |text|
    case DomBinary(data) => |data|
    case DomNumber(number) => if NumberBack(number, cs) == None then word else |NumberBack(number, cs).value|
    case DomArray(items) => if |items| == 0 then word else 0
    case DomObject(pairs) => if |pairs| == 0 then word else 0
    case _ => word
  }

  lemma WordIsLeft(d: Dom, cs: Charset, n: Node, word: nat)
    requires FromDom(d, cs) == Some(View(n)) && Shaped(d, n)
    ensures WordAfter(n, word) == WordLeft(d, cs, word)
  {
  }

  // The word of an empty array or object, taken for a pointer.
  predicate IsStale(n: Node, word: nat) {
    IsContainer(n) && !HasChildren(n) && word != 0
  }

  // What holds between reads of the top node, the arrays of nodes that are allocated, and the word.
  predicate TopOk(n: Node, blocks: multiset<Address>, word: nat) {
    && Sound(n) && blocks == In(n)
    && (n.value.BytesValue? ==> word == |n.value.bytes|)
    && (HasChildren(n) ==> word == 0)
    && (IsContainer(n) && !HasChildren(n) ==> blocks == multiset{})
  }

  lemma TopRead(d: Dom, n: Node, before: nat, word: nat, none: multiset<Address>, blocks: multiset<Address>,
                r: Outcome, cs: Charset)
    requires Sound(n) && Shaped(d, n) && word == WordAfter(n, before) && none == multiset{} && blocks == none + In(n)
    requires (IsPlain(d) ==> In(n) == multiset{}) && (r == Done ==> FromDom(d, cs) == Some(View(n)))
    ensures TopOk(n, blocks, word) && (IsStale(n, word) <==> IsEmpty(d) && before != 0)
    ensures r == Done ==> word == WordLeft(d, cs, before)
  {
    if r == Done {
      WordIsLeft(d, cs, n, before);
    }
  }

  const NULL_NODE := Node(true, TypeNone, Zeroed)

  lemma NullOk(word: nat)
    ensures TopOk(NULL_NODE, multiset{}, word) && !IsStale(NULL_NODE, word)
  {
  }

  lemma NoneAnd(a: multiset<Address>)
    ensures multiset{} + a == a
  {
  }

  lemma AndNone(a: multiset<Address>)
    ensures a + multiset{} == a
  {
  }

  lemma TopFreed(n: Node, r: Node, word: nat, blocks: multiset<Address>)
    requires TopOk(n, blocks, word) && Sound(r) && In(r) == multiset{}
    requires HasChildren(r) == HasChildren(n) && IsContainer(r) == IsContainer(n) && (!IsContainer(n) ==> r == n)
    ensures TopOk(r, multiset{}, word)
  {
  }

  // Documents read one after the other into a new handle, as long as no read frees a pointer that is none:
  // that ends the run.
  function WordLeftBy(docs: seq<Dom>, cs: Charset): nat {
    if docs == [] then 0 else WordLeft(docs[|docs| - 1], cs, WordLeftBy(docs[..|docs| - 1], cs))
  }

  predicate LeavesBytes(d: Dom, cs: Charset) {
    (d.DomString? && |d.text| > 0) || (d.DomBinary? && |d.data| > 0)
    || (d.DomNumber? && NumberBack(d.number, cs) != None && |NumberBack(d.number, cs).value| > 0)
  }

  // Booleans, nulls, empty arrays and empty objects do not touch the word.
  predicate LeavesWord(d: Dom) {
    d.DomTrue? || d.DomFalse? || d.DomNull? || IsEmpty(d)
  }

  predicate Reads(docs: seq<Dom>, cs: Charset) {
    forall i :: 0 <= i < |docs| ==> FromDom(docs[i], cs) != None
  }

  // Document i is the last but for values that leave the word alone, and leaves the length of its bytes.
  predicate LastBytes(docs: seq<Dom>, cs: Charset, i: nat)
    requires i < |docs|
  {
    LeavesBytes(docs[i], cs) && forall k :: i < k < |docs| ==> LeavesWord(docs[k])
  }

  lemma LastBytesOn(docs: seq<Dom>, d: Dom, cs: Charset, i: nat)
    requires i <= |docs|
    ensures LastBytes(docs + [d], cs, i) <==>
            if i == |docs| then LeavesBytes(d, cs) else LeavesWord(d) && LastBytes(docs, cs, i)
  {
    assert forall k :: 0 <= k < |docs| ==> (docs + [d])[k] == docs[k];
    if i < |docs| && LastBytes(docs + [d], cs, i) {
      assert (docs + [d])[|docs|] == d;
    }
  }

  predicate SomeLastBytes(docs: seq<Dom>, cs: Charset) {
    exists i :: 0 <= i < |docs| && LastBytes(docs, cs, i)
  }

  lemma SomeLastBytesOn(docs: seq<Dom>, d: Dom, cs: Charset)
    ensures SomeLastBytes(docs + [d], cs) <==> LeavesBytes(d, cs) || (LeavesWord(d) && SomeLastBytes(docs, cs))
  {
    forall i | 0 <= i <= |docs|
      ensures LastBytes(docs + [d], cs, i) <==>
              if i == |docs| then LeavesBytes(d, cs) else LeavesWord(d) && LastBytes(docs, cs, i)
    {
      LastBytesOn(docs, d, cs, i);
    }
    if LeavesBytes(d, cs) {
      assert LastBytes(docs + [d], cs, |docs|);
    } else if LeavesWord(d) && SomeLastBytes(docs, cs) {
      var i :| 0 <= i < |docs| && LastBytes(docs, cs, i);
      assert LastBytes(docs + [d], cs, i);
    }
  }

  // The length of bytes is left in the buffer if and only if nothing but such values was read since.
  lemma {:induction false} WordLeftExactly(docs: seq<Dom>, cs: Charset)
    requires Reads(docs, cs)
    ensures WordLeftBy(docs, cs) != 0 <==> SomeLastBytes(docs, cs)
  {
    if docs != [] {
      var rest, d := docs[..|docs| - 1], docs[|docs| - 1];
      WordLeftExactly(rest, cs);
      SomeLastBytesOn(rest, d, cs);
      WordStep(d, cs, WordLeftBy(rest, cs));
      assert docs == rest + [d];
    }
  }

  lemma WordStep(d: Dom, cs: Charset, before: nat)
    requires FromDom(d, cs) != None
    ensures WordLeft(d, cs, before) != 0 <==> LeavesBytes(d, cs) || (LeavesWord(d) && before != 0)
  {
  }

  // ---- temporary buffers ----

  function Maybe(a: Option<Address>): seq<Address> {
    if a.None? then [] else [a.value]
  }

  // The memory consists of the addresses in the list, each of which was given out once and before the next.
  predicate IsMemory(memory: multiset<Address>, list: seq<Address>, next: Address) {
    if |list| == 0 then |memory| == 0
    else list[0] < next && memory[list[0]] == 1 && IsMemory(memory - multiset{list[0]}, list[1..], next)
  }

  lemma {:induction false} MemoryListed(memory: multiset<Address>, list: seq<Address>, next: Address, a: Address)
    requires IsMemory(memory, list, next) && a !in list
    ensures memory[a] == 0
  {
    if list != [] {
      MemoryListed(memory - multiset{list[0]}, list[1..], next, a);
    }
  }

  lemma {:induction false} ListedBelow(memory: multiset<Address>, list: seq<Address>, next: Address)
    requires IsMemory(memory, list, next)
    ensures forall a :: a in list ==> a < next && memory[a] == 1
  {
    if list != [] {
      var rest := memory - multiset{list[0]};
      ListedBelow(rest, list[1..], next);
      forall a | a in list
        ensures a < next && memory[a] == 1
      {
        if a != list[0] {
          assert a in list[1..] && rest[a] == memory[a];
        }
      }
    }
  }

  lemma MemoryCons(memory: multiset<Address>, a: Address, list: seq<Address>, next: Address, longer: seq<Address>)
    requires longer == [a] + list && a < next && memory[a] == 1
    ensures IsMemory(memory, longer, next) <==> IsMemory(memory - multiset{a}, list, next)
  {
    assert longer[1..] == list;
  }

  lemma {:induction false} MemoryInserted(memory: multiset<Address>, before: seq<Address>, after: seq<Address>,
                                          next: Address)
    requires IsMemory(memory, before + after, next)
    ensures IsMemory(memory + multiset{next}, before + [next] + after, next + 1)
    decreases |before|
  {
    if before == [] {
      assert before + after == after;
      MemoryFirst(memory, after, next);
      assert before + [next] + after == [next] + after;
    } else {
      var a, rest := before[0], before[1..];
      assert before + after == [a] + (rest + after);
      MemoryInserted(memory - multiset{a}, rest, after, next);
      assert memory + multiset{next} - multiset{a} == memory - multiset{a} + multiset{next};
      assert before + [next] + after == [a] + (rest + [next] + after);
      NotNext(memory, before + after, next);
      MemoryCons(memory + multiset{next}, a, rest + [next] + after, next + 1, before + [next] + after);
    }
  }

  lemma MemoryFirst(memory: multiset<Address>, list: seq<Address>, next: Address)
    requires IsMemory(memory, list, next)
    ensures IsMemory(memory + multiset{next}, [next] + list, next + 1)
  {
    LaterNext(memory, list, next);
    NotNext(memory, list, next);
    assert memory + multiset{next} - multiset{next} == memory;
    MemoryCons(memory + multiset{next}, next, list, next + 1, [next] + list);
  }

  lemma NotNext(memory: multiset<Address>, list: seq<Address>, next: Address)
    requires IsMemory(memory, list, next)
    ensures next !in list && memory[next] == 0
    ensures list != [] ==> list[0] < next && memory[list[0]] == 1
  {
    ListedBelow(memory, list, next);
    MemoryListed(memory, list, next, next);
  }

  lemma {:induction false} LaterNext(memory: multiset<Address>, list: seq<Address>, next: Address)
    requires IsMemory(memory, list, next)
    ensures IsMemory(memory, list, next + 1)
  {
    if list != [] {
      LaterNext(memory - multiset{list[0]}, list[1..], next);
    }
  }

  lemma {:induction false} MemoryRemoved(memory: multiset<Address>, before: seq<Address>, a: Address,
                                         after: seq<Address>, next: Address)
    requires IsMemory(memory, before + [a] + after, next)
    ensures memory[a] == 1 && IsMemory(memory - multiset{a}, before + after, next)
    decreases |before|
  {
    if before == [] {
      assert before + [a] + after == [a] + after && before + after == after;
    } else {
      var b := before[0];
      assert before + [a] + after == [b] + (before[1..] + [a] + after);
      assert before + after == [b] + (before[1..] + after);
      MemoryRemoved(memory - multiset{b}, before[1..], a, after, next);
      assert memory - multiset{a} - multiset{b} == memory - multiset{b} - multiset{a};
    }
  }

  // The temporary buffers of a handle: the memory allocated for them, the array of buffers and the buffers in
  // it, what the array has room for, and what it is believed to have room for. Addresses of temporary memory
  // are counted on their own.
  datatype Temp = Temp(memory: multiset<Address>, next: Address, holder: Option<Address>, buffers: seq<Address>,
                       room: nat, believed: nat, used: nat)

  const NO_TEMP := Temp(multiset{}, 0, None, [], 0, 0, 0)

  predicate TempOk(t: Temp) {
    && t.used == 0 && |t.buffers| <= t.room <= t.believed && (t.room < t.believed ==> |t.buffers| == t.room)
    && (t.holder.Some? <==> t.room > 0) && IsMemory(t.memory, t.buffers + Maybe(t.holder), t.next)
  }

  type TempBuffers = t: Temp | TempOk(t) witness NO_TEMP

  // The array could not be enlarged at some time.
  predicate IsShort(t: Temp) {
    t.room < t.believed
  }

  // There may be no memory left, unless it is plentiful.
  method AllocateTemp(t: Temp, plentiful: bool, ghost before: seq<Address>, ghost after: seq<Address>)
      returns (a: Option<Address>, t': Temp)
    requires IsMemory(t.memory, before + after, t.next)
    ensures a == None ==> t' == t && !plentiful
    ensures a.Some? ==>
              && t' == t.(memory := t'.memory, next := t'.next) && a.value !in before + after
              && IsMemory(t'.memory, before + [a.value] + after, t'.next)
  {
    var ok: bool := *;
    if !ok && !plentiful {
      return None, t;
    }
    MemoryInserted(t.memory, before, after, t.next);
    NotNext(t.memory, before + after, t.next);
    return Some(t.next), t.(memory := t.memory + multiset{t.next}, next := t.next + 1);
  }

  // Only memory that is allocated can be freed.
  method FreeTemp(a: Address, t: Temp, ghost before: seq<Address>, ghost after: seq<Address>) returns (t': Temp)
    requires a in t.memory && IsMemory(t.memory, before + [a] + after, t.next)
    ensures t' == t.(memory := t'.memory) && IsMemory(t'.memory, before + after, t.next)
  {
    MemoryRemoved(t.memory, before, a, after, t.next);
    return t.(memory := t.memory - multiset{a});
  }

  // Room in the array for one more buffer. The array is believed to be larger before it is; the buffers in it are
  // copied, and the one before is freed.
  method EnlargeArray(t: TempBuffers, plentiful: bool) returns (ok: bool, t': TempBuffers)
    ensures plentiful ==> ok
    ensures t'.buffers == t.buffers && (IsShort(t') <==> IsShort(t) || !ok) && (IsShort(t) ==> ok)
    ensures ok ==> (|t'.buffers| < t'.room <==> !IsShort(t'))
  {
    if |t.buffers| < t.believed {
      return true, t;
    }
    var list := t.buffers + Maybe(t.holder);
    assert list + [] == list;
    var larger, more := AllocateTemp(t.(believed := t.believed + 16), plentiful, list, []);
    if larger == None {
      return false, more;
    }
    assert list + [larger.value] + [] == list + [larger.value];
    if |t.buffers| > 0 {
      ListedBelow(more.memory, list + [larger.value], more.next);
      assert t.holder.value in list + [larger.value];
      more := FreeTemp(t.holder.value, more, t.buffers, [larger.value]);
    }
    return true, more.(holder := larger, room := more.believed);
  }

  method AddBuffer(t: TempBuffers, plentiful: bool) returns (ok: bool, t': TempBuffers)
    requires |t.buffers| < t.room
    ensures plentiful ==> ok
    ensures IsShort(t') == IsShort(t) && (!ok ==> t' == t)
    ensures ok ==> |t'.buffers| == |t.buffers| + 1 && t'.buffers[..|t.buffers|] == t.buffers
                   && t'.buffers[|t.buffers|] !in t.buffers
  {
    var buffer, more := AllocateTemp(t, plentiful, t.buffers, Maybe(t.holder));
    if buffer == None {
      return false, t;
    }
    return true, more.(buffers := t.buffers + [buffer.value], used := 0);
  }

  // The buffers are freed one by one, and then the array of them.
  method FreeBuffers(t: TempBuffers) returns (t': TempBuffers)
    ensures t' == NO_TEMP.(next := t.next)
  {
    var left: Temp := t;
    if t.holder != None {
      var i := 0;
      assert t.buffers[0..] == t.buffers;
      while i < |t.buffers|
        invariant i <= |t.buffers| && left == t.(memory := left.memory)
        invariant IsMemory(left.memory, t.buffers[i..] + Maybe(t.holder), t.next)
      {
        NextBuffer(left.memory, t.buffers, i, Maybe(t.holder), t.next);
        left := FreeTemp(t.buffers[i], left, [], t.buffers[i + 1..] + Maybe(t.holder));
        assert [] + (t.buffers[i + 1..] + Maybe(t.holder)) == t.buffers[i + 1..] + Maybe(t.holder);
        i := i + 1;
      }
      assert t.buffers[i..] + Maybe(t.holder) == [t.holder.value] == [] + [t.holder.value] + [];
      left := FreeTemp(t.holder.value, left, [], []);
    }
    return left.(holder := None, buffers := [], room := 0, believed := 0);
  }

  lemma NextBuffer(memory: multiset<Address>, buffers: seq<Address>, i: nat, rest: seq<Address>, next: Address)
    requires i < |buffers| && IsMemory(memory, buffers[i..] + rest, next)
    ensures buffers[i] in memory && IsMemory(memory, [] + [buffers[i]] + (buffers[i + 1..] + rest), next)
  {
    assert buffers[i..] + rest == [] + [buffers[i]] + (buffers[i + 1..] + rest);
  }

  // What OCI answers when it is asked for the document of a handle.
  datatype Answer = CallFailed | NoDocument | Document(root: Dom)

  class Json {
    const cs: Charset
    // Whether all memory that is asked for is given.
    const plentiful: bool
    // The arrays of nodes that are allocated.
    var blocks: multiset<Address>
    var next: Address
    var temp: TempBuffers
    var topNode: Node
    var word: nat

    // No address is given out twice.
    ghost predicate MemoryOk()
      reads this`blocks, this`next
    {
      forall a :: a in blocks ==> a < next && blocks[a] == 1
    }

    predicate Short()
      reads this`temp
    {
      IsShort(temp)
    }

    // Memory is at an address of its own; there may be none left, unless it is plentiful.
    method AllocateMemory() returns (a: Option<Address>)
      requires MemoryOk()
      modifies this`blocks, this`next
      ensures MemoryOk() && blocks == old(blocks) + At(a) && (plentiful ==> a.Some?)
    {
      var ok: bool := *;
      if !ok && !plentiful {
        return None;
      }
      a := Some(next);
      blocks := blocks + multiset{next};
      next := next + 1;
    }

    // Only memory that is allocated can be freed.
    method FreeMemory(a: Address)
      requires MemoryOk() && a in blocks
      modifies this`blocks
      ensures MemoryOk() && blocks == old(blocks) - multiset{a}
    {
      blocks := blocks - multiset{a};
    }

    // ---- reading ----

    // The condition for a new buffer is always met, as no buffer is ever marked as used: every number
    // gets a temporary buffer of its own. Its address is written to the array even if there is no room.
    method NumberAsText(number: Bytes) returns (r: Outcome, node: Node)
      requires MemoryOk() && DomOk(DomNumber(number))
      modifies this`temp
      ensures MemoryOk() && Sound(node) && In(node) == multiset{} && Shaped(DomNumber(number), node)
      ensures node.hasValue && node.oracleType == TypeNumber
      ensures r == Done ==> FromDom(DomNumber(number), cs) == Some(View(node))
      ensures r == Done ==> |temp.buffers| == |old(temp.buffers)| + 1 && temp.buffers[..|old(temp.buffers)|] == old(temp.buffers)
      ensures r == Done ==> temp.buffers[|old(temp.buffers)|] !in old(temp.buffers)
      ensures Ends(r, old(Short()), Short(), false, !Overlong(number), plentiful, NumbersRead(DomNumber(number), cs))
      ensures old(Short()) ==> r == Overrun
      ensures r == Failed ==> node.value.Zeroed?
                              || (|node.value.bytes| == NUMBER_AS_TEXT_CHARS && NumberBack(number, cs) == None)
    {
      node := Node(true, TypeNumber, Zeroed);
      if temp.used + NUMBER_AS_TEXT_CHARS < TEMP_BUFFER_SIZE {
        var ok;
        ok, temp := EnlargeArray(temp, plentiful);
        if !ok {
          return Failed, node;
        }
        if |temp.buffers| >= temp.room {
          return Overrun, node;
        }
        ok, temp := AddBuffer(temp, plentiful);
        if !ok {
          return Failed, node;
        }
      }
      var text;
      r, text := TextOfNumber(number, cs);
      if r == Failed {
        NumberUnread(number, cs);
      }
      node := Node(true, TypeNumber, BytesValue(if r == Done then text else ZeroBytes(NUMBER_AS_TEXT_CHARS)));
    }

    method ReadScalar(d: Dom) returns (r: Outcome, node: Node)
      requires MemoryOk() && DomOk(d) && !d.DomArray? && !d.DomObject?
      modifies this`temp
      ensures MemoryOk() && Sound(node) && In(node) == multiset{} && Shaped(d, node)
      ensures r == Done ==> FromDom(d, cs) == Some(View(node))
      ensures Ends(r, old(Short()), Short(), |temp.buffers| == |old(temp.buffers)|, DigitsFit(d),
                   plentiful, NumbersRead(d, cs))
      ensures !d.DomNumber? ==> r == Done
      ensures node.hasValue && match d {
                                 case DomString(text) => node.oracleType.TypeVarchar? && node.value == BytesValue(text)
                                 case DomBinary(data) => node.oracleType.TypeRaw? && node.value == BytesValue(data)
                                 case DomTrue => node.oracleType.TypeBoolean? && node.value == BooleanValue(true)
                                 case DomFalse => node.oracleType.TypeBoolean? && node.value == BooleanValue(false)
                                 case DomNull => node.oracleType.TypeNone? && node.value == Zeroed
                                 case _ => node.oracleType.TypeNumber?
                               }
      ensures d.DomNumber? && r == Failed ==>
                node.value.Zeroed? || (|node.value.bytes| == NUMBER_AS_TEXT_CHARS && NumberBack(d.number, cs) == None)
    {
      match d
      case DomString(text) => return Done, Node(true, TypeVarchar, BytesValue(text));
      case DomBinary(data) => return Done, Node(true, TypeRaw, BytesValue(data));
      case DomNumber(number) => r, node := NumberAsText(number);
      case DomTrue => return Done, Node(true, TypeBoolean, BooleanValue(true));
      case DomFalse => return Done, Node(true, TypeBoolean, BooleanValue(false));
      case DomNull => return Done, Node(true, TypeNone, Zeroed);
    }

    method ReadChild(items: seq<Dom>, i: nat, nodes: seq<Node>, ghost base: multiset<Address>)
        returns (r: Outcome, read: seq<Node>)
      requires MemoryOk() && i < |items| && DomOk(items[i]) && ReadBetween(items, nodes, i, i, cs)
      requires blocks == base + InNodes(nodes)
      modifies this`blocks, this`next, this`temp
      ensures MemoryOk() && blocks == base + InNodes(read)
      ensures ReadBetween(items, read, if r == Done then i + 1 else i, i + 1, cs)
      ensures Ends(r, old(Short()), Short(), |temp.buffers| == |old(temp.buffers)|, DigitsFit(items[i]),
                   plentiful, NumbersRead(items[i], cs))
      decreases SizeAll(items), 2
    {
      var child;
      r, child := ReadNode(items[i]);
      read := nodes[i := child];
      InUpdate(nodes, i, child);
      ReadOne(items, nodes, i, child, r, cs, read);
    }

    // The loop over one batch of children: whether it gets to its end or not, the arrays allocated are
    // those of the children.
    method ReadBatch(items: seq<Dom>, pos: nat, numInBatch: nat, nodes: seq<Node>, ghost base: multiset<Address>)
        returns (r: Outcome, read: seq<Node>)
      requires MemoryOk() && pos + numInBatch <= |items| && ReadBetween(items, nodes, pos, pos, cs)
      requires forall k :: 0 <= k < |items| ==> DomOk(items[k])
      requires blocks == base + InNodes(nodes)
      modifies this`blocks, this`next, this`temp
      ensures MemoryOk() && blocks == base + InNodes(read) && AllSound(items, read)
      ensures r == Done ==> ReadBetween(items, read, pos + numInBatch, pos + numInBatch, cs)
      ensures Ends(r, old(Short()), Short(), |temp.buffers| == |old(temp.buffers)|, AllFit(items),
                   plentiful, AllRead(items, cs))
      decreases SizeAll(items), 3
    {
      read := nodes;
      var i := 0;
      while i < numInBatch
        invariant i <= numInBatch && MemoryOk() && ReadBetween(items, read, pos + i, pos + i, cs)
        invariant blocks == base + InNodes(read)
        invariant Ends(Done, old(Short()), Short(), |temp.buffers| == |old(temp.buffers)|, true, plentiful, true)
      {
        r, read := ReadChild(items, pos + i, read, base);
        if r != Done {
          return;
        }
        i := i + 1;
      }
      r := Done;
    }

    // The next array is only allocated if the one before was.
    method AllocateAfter(previous: Option<Address>) returns (a: Option<Address>)
      requires MemoryOk()
      modifies this`blocks, this`next
      ensures MemoryOk() && blocks == old(blocks) + At(a) && (a.Some? ==> previous.Some?)
      ensures plentiful && previous.Some? ==> a.Some?
    {
      a := None;
      if previous != None {
        a := AllocateMemory();
      }
    }

    method AllocateElements() returns (elements: Option<Address>, elementValues: Option<Address>)
      requires MemoryOk()
      modifies this`blocks, this`next
      ensures MemoryOk() && blocks == old(blocks) + (At(elements) + At(elementValues))
      ensures (elementValues.Some? ==> elements.Some?) && (plentiful ==> elementValues.Some?)
    {
      elements := AllocateMemory();
      elementValues := AllocateAfter(elements);
    }

    method ReadArray(items: seq<Dom>) returns (r: Outcome, node: Node)
      requires MemoryOk() && DomOk(DomArray(items))
      modifies this`blocks, this`next, this`temp
      ensures MemoryOk() && Sound(node) && blocks == old(blocks) + In(node) && Shaped(DomArray(items), node)
      ensures r == Done ==> FromDom(DomArray(items), cs) == Some(View(node))
      ensures Ends(r, old(Short()), Short(), |temp.buffers| == |old(temp.buffers)|, DigitsFit(DomArray(items)),
                   plentiful, NumbersRead(DomArray(items), cs))
      ensures |items| == 0 ==> r == Done && In(node) == multiset{}
      decreases 1 + SizeAll(items), 0
    {
      var n := |items|;
      if n == 0 {
        node := NewArray(n, None, None);
        EmptyArrayRead(items, node, cs);
        return Done, node;
      }
      var elements, elementValues := AllocateElements();
      node := NewArray(n, elements, elementValues);
      InNewArray(n, elements, elementValues, node);
      if elementValues == None {
        return Failed, node;
      }
      r, node := ReadElements(items, elements.value, elementValues, old(blocks));
    }

    method ReadElements(items: seq<Dom>, elements: Address, elementValues: Option<Address>, ghost rest: multiset<Address>)
        returns (r: Outcome, node: Node)
      requires MemoryOk() && DomOk(DomArray(items)) && blocks == rest + (multiset{elements} + At(elementValues))
      modifies this`blocks, this`next, this`temp
      ensures MemoryOk() && Sound(node) && blocks == rest + In(node) && Shaped(DomArray(items), node)
      ensures r == Done ==> FromDom(DomArray(items), cs) == Some(View(node))
      ensures Ends(r, old(Short()), Short(), |temp.buffers| == |old(temp.buffers)|, DigitsFit(DomArray(items)),
                   plentiful, NumbersRead(DomArray(items), cs))
      decreases SizeAll(items), 5
    {
      InZeroNodes(|items|);
      var nodes;
      ghost var own := multiset{elements} + At(elementValues);
      AndNone(rest + own);
      r, nodes := ReadBatches(items, ZeroNodes(|items|), rest + own);
      node := Node(true, TypeArray, ArrayValue(|items|, Block(elements, nodes), elementValues));
      ArrayFilled(items, elements, elementValues, nodes, node, own, rest);
      if r == Done {
        ArrayRead(items, nodes, node, cs);
      }
    }

    // The loop over the batches in which the document gives out its children.
    method ReadBatches(items: seq<Dom>, nodes: seq<Node>, ghost base: multiset<Address>)
        returns (r: Outcome, read: seq<Node>)
      requires MemoryOk() && ReadBetween(items, nodes, 0, 0, cs) && blocks == base + InNodes(nodes)
      requires forall k :: 0 <= k < |items| ==> DomOk(items[k])
      modifies this`blocks, this`next, this`temp
      ensures MemoryOk() && blocks == base + InNodes(read) && AllSound(items, read)
      ensures r == Done ==> ReadBetween(items, read, |items|, |items|, cs)
      ensures Ends(r, old(Short()), Short(), |temp.buffers| == |old(temp.buffers)|, AllFit(items),
                   plentiful, AllRead(items, cs))
      decreases SizeAll(items), 4
    {
      read := nodes;
      var pos := 0;
      while pos < |items|
        invariant pos <= |items| && MemoryOk() && ReadBetween(items, read, pos, pos, cs) && blocks == base + InNodes(read)
        invariant Ends(Done, old(Short()), Short(), |temp.buffers| == |old(temp.buffers)|, true, plentiful, true)
      {
        var numInBatch := if |items| - pos < BATCH_NODES then |items| - pos else BATCH_NODES;
        r, read := ReadBatch(items, pos, numInBatch, read, base);
        if r != Done {
          return;
        }
        pos := pos + numInBatch;
      }
      r := Done;
    }

    // The four arrays of an object, as far as there is memory.
    method AllocateFields() returns (fieldNames: Option<Address>, lengths: Option<Address>, fields: Option<Address>,
                                     fieldValues: Option<Address>)
      requires MemoryOk()
      modifies this`blocks, this`next
      ensures MemoryOk() && blocks == old(blocks) + (At(fields) + At(fieldNames) + At(lengths) + At(fieldValues))
      ensures fieldValues.Some? ==> fieldNames.Some? && lengths.Some? && fields.Some?
      ensures plentiful ==> fieldValues.Some?
    {
      fieldNames := AllocateMemory();
      lengths := AllocateAfter(fieldNames);
      fields := AllocateAfter(lengths);
      fieldValues := AllocateAfter(fields);
    }

    method ReadObject(pairs: seq<Pair>) returns (r: Outcome, node: Node)
      requires MemoryOk() && DomOk(DomObject(pairs))
      modifies this`blocks, this`next, this`temp
      ensures MemoryOk() && Sound(node) && blocks == old(blocks) + In(node) && Shaped(DomObject(pairs), node)
      ensures r == Done ==> FromDom(DomObject(pairs), cs) == Some(View(node))
      ensures Ends(r, old(Short()), Short(), |temp.buffers| == |old(temp.buffers)|, DigitsFit(DomObject(pairs)),
                   plentiful, NumbersRead(DomObject(pairs), cs))
      ensures |pairs| == 0 ==> r == Done && In(node) == multiset{}
      decreases 1 + SizePairs(pairs), 0
    {
      var n := |pairs|;
      if n == 0 {
        node := NewObject(n, None, None, None, None);
        EmptyObjectRead(pairs, node, cs);
        return Done, node;
      }
      var fieldNames, lengths, fields, fieldValues := AllocateFields();
      node := NewObject(n, fieldNames, lengths, fields, fieldValues);
      InNewObject(n, fieldNames, lengths, fields, fieldValues, node);
      if fieldValues == None {
        return Failed, node;
      }
      r, node := ReadFields(pairs, fieldNames, lengths, fields.value, fieldValues, old(blocks));
    }

    method ReadFields(pairs: seq<Pair>, fieldNames: Option<Address>, lengths: Option<Address>, fields: Address,
                      fieldValues: Option<Address>, ghost rest: multiset<Address>) returns (r: Outcome, node: Node)
      requires MemoryOk() && DomOk(DomObject(pairs))
      requires blocks == rest + (multiset{fields} + At(fieldNames) + At(lengths) + At(fieldValues))
      modifies this`blocks, this`next, this`temp
      ensures MemoryOk() && Sound(node) && blocks == rest + In(node) && Shaped(DomObject(pairs), node)
      ensures r == Done ==> FromDom(DomObject(pairs), cs) == Some(View(node))
      ensures Ends(r, old(Short()), Short(), |temp.buffers| == |old(temp.buffers)|, DigitsFit(DomObject(pairs)),
                   plentiful, NumbersRead(DomObject(pairs), cs))
      decreases SizePairs(pairs), 5
    {
      InZeroNodes(|pairs|);
      ValuesSize(pairs);
      var nodes;
      ghost var own := multiset{fields} + At(fieldNames) + At(lengths) + At(fieldValues);
      AndNone(rest + own);
      r, nodes := ReadBatches(Values(pairs), ZeroNodes(|pairs|), rest + own);
      node := Node(true, TypeObject,
                   ObjectValue(|pairs|, fieldNames, lengths, Names(pairs), Block(fields, nodes), fieldValues));
      ObjectFilled(pairs, fieldNames, lengths, fields, fieldValues, nodes, node, own, rest);
      PairsFit(pairs);
      PairsRead(pairs, cs);
      if r == Done {
        ObjectRead(pairs, nodes, node, cs);
      }
    }

    // Reads a node of the document. If memory runs out or a number cannot be converted at any point, what
    // was allocated so far belongs to the node.
    method ReadNode(d: Dom) returns (r: Outcome, node: Node)
      requires MemoryOk() && DomOk(d)
      modifies this`blocks, this`next, this`temp
      ensures MemoryOk() && Sound(node) && blocks == old(blocks) + In(node) && Shaped(d, node)
      ensures r == Done ==> FromDom(d, cs) == Some(View(node))
      ensures Ends(r, old(Short()), Short(), |temp.buffers| == |old(temp.buffers)|, DigitsFit(d),
                   plentiful, NumbersRead(d, cs))
      ensures r == Done ==> ReadAs(d, View(node), cs)
      ensures plentiful && !old(Short()) ==> (r == Done <==> NumbersRead(d, cs))
      ensures IsPlain(d) ==> r == Done && In(node) == multiset{}
      ensures d.DomNumber? && r == Failed ==>
                node.value.Zeroed? || (|node.value.bytes| == NUMBER_AS_TEXT_CHARS && NumberBack(d.number, cs) == None)
      decreases Size(d), 1
    {
      match d {
        case DomArray(items) => r, node := ReadArray(items);
        case DomObject(pairs) => r, node := ReadObject(pairs);
        case _ => r, node := ReadScalar(d);
      }
      NodeRead(d, View(node), cs, r, plentiful, old(Short()), Short(), |temp.buffers| == |old(temp.buffers)|);
    }

    // ---- freeing ----

    // Frees every array of the node, those of the children first, and nothing else.
    method FreeNode(n: Node, ghost rest: multiset<Address>) returns (r: Node)
      requires MemoryOk() && Sound(n) && blocks == rest + In(n)
      modifies this`blocks
      ensures MemoryOk() && blocks == rest && Sound(r) && In(r) == multiset{} && r.hasValue == n.hasValue
      ensures HasChildren(r) == HasChildren(n) && IsContainer(r) == IsContainer(n) && (!IsContainer(n) ==> r == n)
      decreases n, 2
    {
      r := n;
      if n.oracleType == TypeArray {
        var v := n.value;
        var elements := FreeBlock(v.elements, v.numElements, rest + At(v.elementValues));
        FreeArray(v.elementValues, rest);
        r := n.(value := v.(elements := elements, elementValues := None));
      } else if n.oracleType == TypeObject {
        var v := n.value;
        var fields := FreeBlock(v.fields, v.numFields, rest + At(v.fieldValues) + At(v.fieldNameLengths) + At(v.fieldNames));
        FreeArray(v.fieldNames, rest + At(v.fieldValues) + At(v.fieldNameLengths));
        FreeArray(v.fieldNameLengths, rest + At(v.fieldValues));
        FreeArray(v.fieldValues, rest);
        r := n.(value := v.(fields := fields, fieldNames := None, fieldNameLengths := None, fieldValues := None));
      }
    }

    method FreeArray(a: Option<Address>, ghost rest: multiset<Address>)
      requires MemoryOk() && blocks == rest + At(a)
      modifies this`blocks
      ensures MemoryOk() && blocks == rest
    {
      if a != None {
        FreeMemory(a.value);
      }
    }

    method FreeBlock(b: Block, count: nat, ghost rest: multiset<Address>) returns (r: Block)
      requires MemoryOk() && SoundBlock(b, count) && blocks == rest + InBlock(b)
      modifies this`blocks
      ensures MemoryOk() && blocks == rest && r == NoBlock
      decreases b, 1
    {
      if b != NoBlock {
        FreeNodes(b.nodes, rest + multiset{b.at});
        FreeMemory(b.at);
      }
      r := NoBlock;
    }

    method FreeNodes(nodes: seq<Node>, ghost rest: multiset<Address>)
      requires MemoryOk() && (forall k :: 0 <= k < |nodes| ==> Sound(nodes[k])) && blocks == rest + InNodes(nodes)
      modifies this`blocks
      ensures MemoryOk() && blocks == rest
      decreases nodes, 3
    {
      var i := 0;
      assert nodes[i..] == nodes;
      while i < |nodes|
        invariant i <= |nodes| && MemoryOk() && blocks == rest + InNodes(nodes[i..])
      {
        assert nodes[i..][1..] == nodes[i + 1..];
        if nodes[i].hasValue {
          var freed := FreeNode(nodes[i], rest + InNodes(nodes[i + 1..]));
        }
        i := i + 1;
      }
    }

    // ---- the handle ----

    ghost predicate Valid()
      reads this
    {
      MemoryOk() && TopOk(topNode, blocks, word)
    }

    // The first pointer of an empty array or object at the top was never set: it is the length of bytes
    // that were there before.
    predicate StalePointer()
      reads this
    {
      IsStale(topNode, word)
    }

    constructor (charset: Charset, enough: bool)
      ensures Valid() && blocks == multiset{} && temp.memory == multiset{} && topNode.value == Zeroed
      ensures cs == charset && plentiful == enough
      ensures word == 0 && !Short()
    {
      cs, plentiful := charset, enough;
      blocks, next, temp := multiset{}, 0, NO_TEMP;
      topNode, word := NULL_NODE, 0;
    }

    method FreeTop() returns (freed: Node)
      requires Valid()
      modifies this`blocks
      ensures MemoryOk() && blocks == multiset{} && TopOk(freed, multiset{}, word)
    {
      NoneAnd(In(topNode));
      freed := FreeNode(topNode, multiset{});
      TopFreed(topNode, freed, word, old(blocks));
    }

    // The root of the document is read into the top node, when nothing is allocated for it.
    method ReadTop(d: Dom) returns (r: Outcome, node: Node, left: nat)
      requires MemoryOk() && DomOk(d) && blocks == multiset{}
      modifies this`blocks, this`next, this`temp
      ensures MemoryOk() && TopOk(node, blocks, left)
      ensures r == Done ==> FromDom(d, cs) == Some(View(node)) && left == WordLeft(d, cs, word)
      ensures IsStale(node, left) <==> IsEmpty(d) && word != 0
      ensures r == Failed && d.DomNumber? ==>
                left == word || (left == NUMBER_AS_TEXT_CHARS && NumberBack(d.number, cs) == None)
      ensures Ends(r, old(Short()), Short(), |temp.buffers| == |old(temp.buffers)|, DigitsFit(d),
                   plentiful, NumbersRead(d, cs)) && (IsPlain(d) ==> r == Done)
    {
      r, node := ReadNode(d);
      left := WordAfter(node, word);
      TopRead(d, node, word, left, old(blocks), blocks, r, cs);
    }

    // The value as nodes; a handle without a document has the value NULL. The buffer of the top node is not
    // cleared in between, so that an empty array or object that follows bytes gets their length for a pointer,
    // and freeing it frees that pointer.
    method GetValue(answer: Answer) returns (r: Outcome)
      requires Valid() && (answer.Document? ==> DomOk(answer.root))
      modifies this
      ensures Valid() && (r == BadFree <==> old(StalePointer()))
      ensures r != BadFree && !answer.Document? ==>
                r == (if answer.NoDocument? then Done else Failed) && topNode.value.Zeroed? && word == old(word)
      ensures r != BadFree && answer.Document? ==> (StalePointer() <==> IsEmpty(answer.root) && old(word) != 0)
      ensures r == Done && answer.Document? ==>
                FromDom(answer.root, cs) == Some(View(topNode)) && word == WordLeft(answer.root, cs, old(word))
      ensures r == Failed && answer.Document? && answer.root.DomNumber? ==>
                word == old(word) || (word == NUMBER_AS_TEXT_CHARS && NumberBack(answer.root.number, cs) == None)
      ensures r != BadFree && answer.Document? ==>
                && Ends(r, old(Short()), Short(), |temp.buffers| == |old(temp.buffers)|, DigitsFit(answer.root),
                   plentiful, NumbersRead(answer.root, cs))
                && (IsPlain(answer.root) ==> r == Done)
    {
      if StalePointer() {
        return BadFree;
      }
      var freed := FreeTop();
      topNode := NULL_NODE;
      NullOk(word);
      match answer
      case CallFailed => r := Failed;
      case NoDocument => r := Done;
      case Document(d) => r, topNode, word := ReadTop(d);
    }

    // The part of freeing a handle that is about its memory: nothing is left, whether or not the last
    // value was read to its end. It fails where reading again would.
    method Free() returns (r: Outcome)
      requires Valid()
      modifies this
      ensures Valid() && blocks == multiset{} && temp.memory == multiset{} && r == if old(StalePointer()) then BadFree else Done
    {
      temp := FreeBuffers(temp);
      if StalePointer() {
        return BadFree;
      }
      topNode := FreeTop();
      r := Done;
    }
  }

  // A run that frees the length of a string as if it were an array.
  method StringThenEmptyArray(cs: Charset, plentiful: bool) returns (first: Outcome, second: Outcome, last: Outcome)
    ensures first == Done && second == Done && last == BadFree
  {
    var json := new Json(cs, plentiful);
    first := json.GetValue(Document(DomString([65])));
    second := json.GetValue(Document(DomArray([])));
    last := json.Free();
  }
}
