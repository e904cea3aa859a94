/** JSON values as trees, the document object model they are written to, and what writing a tree
    and reading it back gives. */
module JsonTrees {
  import opened Wrappers
  import opened Decimals
  import opened NumberText
  import opened NumberFormat
  import opened OracleNumber
  import opened OracleNumberParser
  import opened NumberCodec

  type Bytes = s: seq<int> | IsBytes(s)

  // Numbers are texts in the character set of the environment.
  datatype Tree =
    | Array(elements: seq<Tree>)
    | Object(fields: seq<Field>)
    | String(text: Bytes)
    | Raw(data: Bytes)
    | Number(numeral: Bytes)
    | Boolean(value: bool)
    | Null

  datatype Field = Field(name: Bytes, value: Tree)

  // In the document, a number is an OCI number in its buffer.
  datatype Dom =
    | DomArray(items: seq<Dom>)
    | DomObject(pairs: seq<Pair>)
    | DomString(text: Bytes)
    | DomBinary(data: Bytes)
    | DomNumber(number: Bytes)
    | DomTrue
    | DomFalse
    | DomNull

  datatype Pair = Pair(name: Bytes, value: Dom)

  // The length of a field name is converted to 16 bits.
  const MAX_NAME_LENGTH := 65536

  // The buffer for a number as text.
  const NUMBER_AS_TEXT_CHARS := 172

  // The buffer of an OCI number on the way to the document; what is behind the number plays no part.
  const NUMBER_BUFFER_SIZE := 24

  // ---- writing ----

  function Cut(name: Bytes): Bytes {
    name[..|name| % MAX_NAME_LENGTH]
  }

  // A field with the same name is replaced where it is.
  function Put(pairs: seq<Pair>, name: Bytes, value: Dom): (r: seq<Pair>)
    ensures |pairs| <= |r| <= |pairs| + 1
  {
    if pairs == [] then [Pair(name, value)]
    else if pairs[0].name == name then [Pair(name, value)] + pairs[1..]
    else [pairs[0]] + Put(pairs[1..], name, value)
  }

  function NumberBuffer(d: Decimal): (b: Bytes)
    requires Normal(d)
    ensures |b| == NUMBER_BUFFER_SIZE
  {
    EncodedSize(d);
    EncodeIsBytes(d);
    Encode(d) + Zeros(NUMBER_BUFFER_SIZE - |Encode(d)|)
  }

  lemma ParsedIsNormal(numeral: Bytes, cs: Charset)
    requires ParseNumber(numeral, cs).Success?
    ensures Normal(ParseNumber(numeral, cs).value)
  {
    ParseTextCorrect(Convert(numeral, cs).value, ParseNumber(numeral, cs).value);
  }

  function NumberDom(numeral: Bytes, cs: Charset): Option<Bytes> {
    match ParseNumber(numeral, cs)
    case Failure(_) => None
    case Success(d) => ParsedIsNormal(numeral, cs); Some(NumberBuffer(d))
  }

  function ToDom(t: Tree, cs: Charset): Option<Dom>
    decreases t, 0
  {
    match t
    case Array(elements) =>
      var items := ToDoms(elements, cs);
      if items == None then None else Some(DomArray(items.value))
    case Object(fields) =>
      var pairs := PutAll([], fields, cs);
      if pairs == None then None else Some(DomObject(pairs.value))
    case String(text) => Some(DomString(text))
    case Raw(data) => Some(DomBinary(data))
    case Number(numeral) =>
      var number := NumberDom(numeral, cs);
      if number == None then None else Some(DomNumber(number.value))
    case Boolean(value) => Some(if value then DomTrue else DomFalse)
    case Null => Some(DomNull)
  }

  function ToDoms(ts: seq<Tree>, cs: Charset): (r: Option<seq<Dom>>)
    ensures r.Some? ==> |r.value| == |ts|
    decreases ts, 0
  {
    if ts == [] then Some([])
    else
      var first := ToDom(ts[0], cs);
      if first == None then None
      else
        var rest := ToDoms(ts[1..], cs);
        if rest == None then None else Some([first.value] + rest.value)
  }

  function PutAll(done: seq<Pair>, fields: seq<Field>, cs: Charset): Option<seq<Pair>>
    decreases fields, 0
  {
    if fields == [] then Some(done)
    else
      var first := ToDom(fields[0].value, cs);
      if first == None then None else PutAll(Put(done, Cut(fields[0].name), first.value), fields[1..], cs)
  }

  // ---- reading, with numbers as text ----

  function NumberBack(number: Bytes, cs: Charset): Option<Bytes> {
    if |number| < ORACLE_NUMBER_SIZE || Decode(number).Failure? || |Decode(number).value.digits| > MAX_DIGITS then None
    else
      var text := BytesOf(Print(Decode(number).value), cs);
      if |text| <= NUMBER_AS_TEXT_CHARS && IsBytes(text) then Some(text) else None
  }

  function FromDom(d: Dom, cs: Charset): Option<Tree>
    decreases d, 0
  {
    match d
    case DomArray(items) =>
      var elements := FromDoms(items, cs);
      if elements == None then None else Some(Array(elements.value))
    case DomObject(pairs) =>
      var fields := FromPairs(pairs, cs);
      if fields == None then None else Some(Object(fields.value))
    case DomString(text) => Some(String(text))
    case DomBinary(data) => Some(Raw(data))
    case DomNumber(number) =>
      var text := NumberBack(number, cs);
      if text == None then None else Some(Number(text.value))
    case DomTrue => Some(Boolean(true))
    case DomFalse => Some(Boolean(false))
    case DomNull => Some(Null)
  }

  function FromDoms(ds: seq<Dom>, cs: Charset): (r: Option<seq<Tree>>)
    ensures r.Some? ==> |r.value| == |ds|
    decreases ds, 0
  {
    if ds == [] then Some([])
    else
      var first := FromDom(ds[0], cs);
      if first == None then None
      else
        var rest := FromDoms(ds[1..], cs);
        if rest == None then None else Some([first.value] + rest.value)
  }

  function FromPairs(ps: seq<Pair>, cs: Charset): (r: Option<seq<Field>>)
    ensures r.Some? ==> |r.value| == |ps|
    decreases ps, 0
  {
    if ps == [] then Some([])
    else
      var first := FromDom(ps[0].value, cs);
      if first == None then None
      else
        var rest := FromPairs(ps[1..], cs);
        if rest == None then None else Some([Field(ps[0].name, first.value)] + rest.value)
  }

  // ---- which trees come back as they are ----

  // The name of a field differs from those of the fields behind it, and its length fits 16 bits.
  predicate DistinctNames(fields: seq<Field>) {
    forall i :: 0 <= i < |fields| ==> |fields[i].name| < MAX_NAME_LENGTH
                                      && forall j :: i < j < |fields| ==> fields[j].name != fields[i].name
  }

  // The text that the driver prints for the number, which has to fit its buffer and an OCI number.
  predicate IsCanonical(numeral: Bytes, cs: Charset) {
    && |numeral| <= NUMBER_AS_TEXT_CHARS
    && ParseNumber(numeral, cs).Success? && Fits(ParseNumber(numeral, cs).value)
    && var d := ParseNumber(numeral, cs).value;
       numeral == BytesOf(if d.digits == [] then "0" else Print(d), cs)
  }

  predicate Faithful(t: Tree, cs: Charset)
    decreases t
  {
    match t
    case Array(elements) => forall i :: 0 <= i < |elements| ==> Faithful(elements[i], cs)
    case Object(fields) => DistinctNames(fields) && forall i :: 0 <= i < |fields| ==> Faithful(fields[i].value, cs)
    case Number(numeral) => IsCanonical(numeral, cs)
    case _ => true
  }

  lemma NumberRoundTrip(numeral: Bytes, cs: Charset, b: Bytes)
    requires NumberDom(numeral, cs) == Some(b)
    ensures NumberBack(b, cs) == Some(numeral) <==> IsCanonical(numeral, cs)
  {
    ParsedIsNormal(numeral, cs);
    var d := ParseNumber(numeral, cs).value;
    EncodedSize(d);
    DecodeInvertsEncode(d, Zeros(NUMBER_BUFFER_SIZE - |Encode(d)|));
    ZeroReadsBack(cs);
  }

  // ---- what becomes of fields ----

  predicate Absent(pairs: seq<Pair>, name: Bytes) {
    forall i :: 0 <= i < |pairs| ==> pairs[i].name != name
  }

  // The names in a document object are distinct and short.
  predicate DomNamesOk(pairs: seq<Pair>) {
    forall i :: 0 <= i < |pairs| ==> |pairs[i].name| < MAX_NAME_LENGTH
                                     && forall j :: i < j < |pairs| ==> pairs[j].name != pairs[i].name
  }

  lemma {:induction false} PutNew(pairs: seq<Pair>, name: Bytes, value: Dom)
    requires Absent(pairs, name)
    ensures Put(pairs, name, value) == pairs + [Pair(name, value)]
  {
    if pairs != [] {
      PutNew(pairs[1..], name, value);
      assert pairs == [pairs[0]] + pairs[1..];
    }
  }

  lemma {:induction false} PutAbsent(pairs: seq<Pair>, name: Bytes, value: Dom, other: Bytes)
    requires Absent(pairs, other) && other != name
    ensures Absent(Put(pairs, name, value), other)
  {
    if pairs != [] && pairs[0].name != name {
      PutAbsent(pairs[1..], name, value, other);
    }
  }

  lemma {:induction false} PutKeepsNames(pairs: seq<Pair>, name: Bytes, value: Dom)
    requires DomNamesOk(pairs) && |name| < MAX_NAME_LENGTH
    ensures DomNamesOk(Put(pairs, name, value))
  {
    if pairs != [] {
      assert Absent(pairs[1..], pairs[0].name);
      if pairs[0].name != name {
        PutKeepsNames(pairs[1..], name, value);
        PutAbsent(pairs[1..], name, value, pairs[0].name);
        NamesCons(pairs[0], Put(pairs[1..], name, value));
      } else {
        NamesCons(Pair(name, value), pairs[1..]);
      }
    }
  }

  lemma NamesCons(p: Pair, rest: seq<Pair>)
    requires |p.name| < MAX_NAME_LENGTH && Absent(rest, p.name) && DomNamesOk(rest)
    ensures DomNamesOk([p] + rest)
  {
  }

  lemma {:induction false} PutAllNames(done: seq<Pair>, fields: seq<Field>, cs: Charset)
    requires DomNamesOk(done) && PutAll(done, fields, cs).Some?
    ensures DomNamesOk(PutAll(done, fields, cs).value)
    decreases |fields|
  {
    if fields != [] {
      var value := ToDom(fields[0].value, cs).value;
      PutKeepsNames(done, Cut(fields[0].name), value);
      PutAllNames(Put(done, Cut(fields[0].name), value), fields[1..], cs);
    }
  }

  // The fields one by one.
  function PairsOf(fields: seq<Field>, cs: Charset): (r: seq<Pair>)
    requires forall i :: 0 <= i < |fields| ==> ToDom(fields[i].value, cs).Some?
    ensures |r| == |fields|
  {
    if fields == [] then [] else [Pair(fields[0].name, ToDom(fields[0].value, cs).value)] + PairsOf(fields[1..], cs)
  }

  lemma {:induction false} PutAllConverts(done: seq<Pair>, fields: seq<Field>, cs: Charset)
    ensures PutAll(done, fields, cs).Some? <==> forall i :: 0 <= i < |fields| ==> ToDom(fields[i].value, cs).Some?
    decreases |fields|
  {
    if fields != [] && ToDom(fields[0].value, cs).Some? {
      PutAllConverts(Put(done, Cut(fields[0].name), ToDom(fields[0].value, cs).value), fields[1..], cs);
      assert forall i :: 1 <= i < |fields| ==> fields[i] == fields[1..][i - 1];
    }
  }

  // Fields with distinct names are put one behind the other.
  lemma {:induction false} PutAllDistinct(done: seq<Pair>, fields: seq<Field>, cs: Charset)
    requires PutAll(done, fields, cs).Some? && DistinctNames(fields)
    requires forall i :: 0 <= i < |fields| ==> Absent(done, fields[i].name)
    ensures forall i :: 0 <= i < |fields| ==> ToDom(fields[i].value, cs).Some?
    ensures PutAll(done, fields, cs) == Some(done + PairsOf(fields, cs))
    decreases |fields|
  {
    PutAllConverts(done, fields, cs);
    if fields == [] {
      assert done + [] == done;
    } else {
      var f := fields[0];
      var p := Pair(f.name, ToDom(f.value, cs).value);
      assert Cut(f.name) == f.name;
      PutNew(done, f.name, p.value);
      PutAllDistinct(done + [p], fields[1..], cs);
      assert done + [p] + PairsOf(fields[1..], cs) == done + ([p] + PairsOf(fields[1..], cs));
    }
  }

  lemma {:induction false} ReadNames(pairs: seq<Pair>, cs: Charset)
    requires FromPairs(pairs, cs).Some?
    ensures forall i :: 0 <= i < |pairs| ==> FromPairs(pairs, cs).value[i].name == pairs[i].name
  {
    if pairs != [] {
      ReadNames(pairs[1..], cs);
    }
  }

  // ---- the round trip ----

  // Writing a tree and reading it back gives the same tree if and only if, at every depth, field
  // names are distinct and shorter than 65536 bytes and numbers are spelled as the driver prints them.
  lemma {:induction false} RoundTrip(t: Tree, cs: Charset)
    requires ToDom(t, cs).Some?
    ensures FromDom(ToDom(t, cs).value, cs) == Some(t) <==> Faithful(t, cs)
    decreases t, 0
  {
    if t.Array? {
      RoundTripAll(t.elements, cs);
    } else if t.Object? {
      RoundTripObject(t.fields, cs);
    } else {
      RoundTripScalar(t, cs);
    }
  }

  lemma NumberRead(b: Bytes, numeral: Bytes, cs: Charset)
    ensures FromDom(DomNumber(b), cs) == Some(Number(numeral)) <==> NumberBack(b, cs) == Some(numeral)
  {
  }

  lemma FaithfulNumber(numeral: Bytes, cs: Charset, b: Bytes)
    requires NumberDom(numeral, cs) == Some(b)
    ensures FromDom(DomNumber(b), cs) == Some(Number(numeral)) <==> Faithful(Number(numeral), cs)
  {
    NumberRoundTrip(numeral, cs, b);
    NumberRead(b, numeral, cs);
  }

  lemma RoundTripScalar(t: Tree, cs: Charset)
    requires !t.Array? && !t.Object? && ToDom(t, cs).Some?
    ensures FromDom(ToDom(t, cs).value, cs) == Some(t) <==> Faithful(t, cs)
  {
    if t.Number? {
      FaithfulNumber(t.numeral, cs, NumberDom(t.numeral, cs).value);
    }
  }

  lemma SameNames(pairs: seq<Pair>, fields: seq<Field>)
    requires DomNamesOk(pairs) && |fields| == |pairs|
    requires forall i :: 0 <= i < |pairs| ==> fields[i].name == pairs[i].name
    ensures DistinctNames(fields)
  {
  }

  // Reading gives distinct and short names only.
  lemma ReadIsDistinct(fields: seq<Field>, pairs: seq<Pair>, cs: Charset)
    requires PutAll([], fields, cs) == Some(pairs) && FromPairs(pairs, cs) == Some(fields)
    ensures DistinctNames(fields)
  {
    PutAllNames([], fields, cs);
    ReadNames(pairs, cs);
    SameNames(pairs, fields);
  }

  lemma {:induction false} RoundTripObject(fields: seq<Field>, cs: Charset)
    requires PutAll([], fields, cs).Some?
    ensures FromPairs(PutAll([], fields, cs).value, cs) == Some(fields) <==>
            DistinctNames(fields) && forall i :: 0 <= i < |fields| ==> Faithful(fields[i].value, cs)
    decreases fields, 1
  {
    var pairs := PutAll([], fields, cs).value;
    if DistinctNames(fields) {
      PutAllDistinct([], fields, cs);
      assert [] + PairsOf(fields, cs) == PairsOf(fields, cs);
      RoundTripFields(fields, cs);
    } else if FromPairs(pairs, cs) == Some(fields) {
      ReadIsDistinct(fields, pairs, cs);
    }
  }

  lemma {:induction false} RoundTripAll(ts: seq<Tree>, cs: Charset)
    requires ToDoms(ts, cs).Some?
    ensures FromDoms(ToDoms(ts, cs).value, cs) == Some(ts) <==> forall i :: 0 <= i < |ts| ==> Faithful(ts[i], cs)
    decreases ts, 0
  {
    if ts != [] {
      RoundTrip(ts[0], cs);
      RoundTripAll(ts[1..], cs);
      FrontAndRest(ts, cs);
      assert ts == [ts[0]] + ts[1..];
      assert ToDoms(ts, cs).value[1..] == ToDoms(ts[1..], cs).value;
    }
  }

  lemma FrontAndRest(ts: seq<Tree>, cs: Charset)
    requires ts != []
    ensures (forall i :: 0 <= i < |ts| ==> Faithful(ts[i], cs)) <==>
            Faithful(ts[0], cs) && forall i :: 0 <= i < |ts[1..]| ==> Faithful(ts[1..][i], cs)
  {
    assert forall i :: 1 <= i < |ts| ==> ts[i] == ts[1..][i - 1];
  }

  lemma {:induction false} RoundTripFields(fields: seq<Field>, cs: Charset)
    requires forall i :: 0 <= i < |fields| ==> ToDom(fields[i].value, cs).Some?
    ensures FromPairs(PairsOf(fields, cs), cs) == Some(fields) <==>
            forall i :: 0 <= i < |fields| ==> Faithful(fields[i].value, cs)
    decreases fields, 0
  {
    if fields != [] {
      RoundTrip(fields[0].value, cs);
      RoundTripFields(fields[1..], cs);
      FrontAndRestFields(fields, cs);
      assert fields == [fields[0]] + fields[1..];
      assert PairsOf(fields, cs)[1..] == PairsOf(fields[1..], cs);
    }
  }

  lemma FrontAndRestFields(fields: seq<Field>, cs: Charset)
    requires fields != []
    ensures (forall i :: 0 <= i < |fields| ==> Faithful(fields[i].value, cs)) <==>
            Faithful(fields[0].value, cs) && forall i :: 0 <= i < |fields[1..]| ==> Faithful(fields[1..][i].value, cs)
  {
    assert forall i :: 1 <= i < |fields| ==> fields[i] == fields[1..][i - 1];
  }
}
