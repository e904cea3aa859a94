/** Which trees can be written and which documents can be read, and what stands in the other when they are:
    said of trees and documents side by side, without the functions that turn one into the other. */
module JsonMeaning {
  import opened Wrappers
  import opened NumberFormat
  import opened OracleNumber
  import opened OracleNumberParser
  import opened JsonTrees

  // Texts, bytes, booleans and null.
  predicate SameScalar(t: Tree, d: Dom) {
    match t
    case String(text) => d.DomString? && d.text == text
    case Raw(data) => d.DomBinary? && d.data == data
    case Boolean(value) => if value then d.DomTrue? else d.DomFalse?
    case Null => d.DomNull?
    case _ => false
  }

  // ---- writing ----

  // Every number in the tree, at any depth, is one.
  predicate NumbersParse(t: Tree, cs: Charset)
    decreases t
  {
    match t
    case Array(elements) => forall i :: 0 <= i < |elements| ==> NumbersParse(elements[i], cs)
    case Object(fields) => forall i :: 0 <= i < |fields| ==> NumbersParse(fields[i].value, cs)
    case Number(numeral) => ParseNumber(numeral, cs).Success?
    case _ => true
  }

  // A tree is written if and only if all of its numbers are numbers.
  lemma {:induction false} WrittenExactly(t: Tree, cs: Charset)
    ensures ToDom(t, cs).Some? <==> NumbersParse(t, cs)
    decreases t, 0
  {
    match t
    case Array(elements) =>
      ArrayWrittenExactly(elements, cs);
    case Object(fields) =>
      PutAllConverts([], fields, cs);
      forall i | 0 <= i < |fields| ensures ToDom(fields[i].value, cs).Some? <==> NumbersParse(fields[i].value, cs) {
        WrittenExactly(fields[i].value, cs);
      }
    case _ =>
  }

  lemma {:induction false} ArrayWrittenExactly(ts: seq<Tree>, cs: Charset)
    ensures ToDoms(ts, cs).Some? <==> forall i :: 0 <= i < |ts| ==> NumbersParse(ts[i], cs)
    decreases ts, 0
  {
    if ts != [] {
      WrittenExactly(ts[0], cs);
      ArrayWrittenExactly(ts[1..], cs);
      assert forall i :: 1 <= i < |ts| ==> ts[i] == ts[1..][i - 1];
    }
  }

  predicate IsLast(fields: seq<Field>, i: nat, name: Bytes) {
    && i < |fields| && Cut(fields[i].name) == name
    && forall j :: i < j < |fields| ==> Cut(fields[j].name) != name
  }

  predicate HasName(fields: seq<Field>, name: Bytes) {
    exists i :: 0 <= i < |fields| && Cut(fields[i].name) == name
  }

  // A number is in its buffer, an array has its elements in their order, and an object has each name once, with
  // the value of the last field of that name.
  ghost predicate WrittenAs(t: Tree, d: Dom, cs: Charset)
    decreases t, 0
  {
    match t
    case Array(elements) =>
      && d.DomArray? && |d.items| == |elements|
      && (forall i :: 0 <= i < |elements| ==> WrittenAs(elements[i], d.items[i], cs))
    case Object(fields) => d.DomObject? && FieldsWrittenAs(fields, d.pairs, cs)
    case Number(numeral) =>
      && ParseNumber(numeral, cs).Success? && d.DomNumber? && Encode(ParseNumber(numeral, cs).value) <= d.number
    case _ => SameScalar(t, d)
  }

  ghost predicate FieldsWrittenAs(fields: seq<Field>, pairs: seq<Pair>, cs: Charset)
    decreases fields, 2
  {
    NamesPut(fields, pairs) && ValuesWrittenAs(fields, pairs, cs)
  }

  ghost predicate NamesPut(fields: seq<Field>, pairs: seq<Pair>) {
    && DomNamesOk(pairs)
    && (forall i :: 0 <= i < |fields| ==> !Absent(pairs, Cut(fields[i].name)))
    && (forall k :: 0 <= k < |pairs| ==> HasName(fields, pairs[k].name))
  }

  ghost predicate ValuesWrittenAs(fields: seq<Field>, pairs: seq<Pair>, cs: Charset)
    decreases fields, 1
  {
    forall i, k :: 0 <= i < |fields| && 0 <= k < |pairs| && IsLast(fields, i, pairs[k].name) ==>
      WrittenAs(fields[i].value, pairs[k].value, cs)
  }

  // Names are cut at multiples of 65536 bytes.
  lemma CutExactly(name: Bytes)
    ensures Cut(name) <= name && |Cut(name)| < 65536 && |name| - |Cut(name)| == 65536 * (|name| / 65536)
    ensures Cut(name) == name <==> |name| < 65536
  {
  }

  // A field that is put replaces the one of its name where it is, or is the last one.
  lemma {:induction false} PutExactly(pairs: seq<Pair>, name: Bytes, value: Dom, k: nat)
    requires DomNamesOk(pairs) && k < |Put(pairs, name, value)|
    ensures var r := Put(pairs, name, value);
            && |r| == (if Absent(pairs, name) then |pairs| + 1 else |pairs|)
            && r[k].name == (if k < |pairs| then pairs[k].name else name)
            && r[k].value == (if k < |pairs| && pairs[k].name != name then pairs[k].value else value)
  {
    if pairs != [] {
      var rest := pairs[1..];
      FirstIs(pairs, name);
      if pairs[0].name != name {
        assert Put(pairs, name, value) == [pairs[0]] + Put(rest, name, value);
        PutExactly(rest, name, value, if k == 0 then 0 else k - 1);
      }
    }
  }

  lemma FirstIs(pairs: seq<Pair>, name: Bytes)
    requires DomNamesOk(pairs) && pairs != []
    ensures Absent(pairs, name) <==> pairs[0].name != name && Absent(pairs[1..], name)
    ensures pairs[0].name == name ==> forall k :: 1 <= k < |pairs| ==> pairs[k].name != name
  {
  }

  lemma LastBefore(fields: seq<Field>, f: Field, i: nat, name: Bytes)
    ensures IsLast(fields + [f], i, name) <==>
            if i == |fields| then Cut(f.name) == name else IsLast(fields, i, name) && Cut(f.name) != name
  {
    var all := fields + [f];
    assert all[|fields|] == f;
    if i < |fields| {
      assert forall j :: i < j < |fields| ==> all[j] == fields[j];
    }
  }

  // The names after a field was put: those before, and its own.
  lemma OneMoreName(fields: seq<Field>, pairs: seq<Pair>, f: Field, name: Bytes, value: Dom, k: nat)
    requires DomNamesOk(pairs) && name == Cut(f.name) && k < |Put(pairs, name, value)|
    requires forall j :: 0 <= j < |pairs| ==> HasName(fields, pairs[j].name)
    ensures HasName(fields + [f], Put(pairs, name, value)[k].name)
  {
    PutExactly(pairs, name, value, k);
    if k < |pairs| {
      var i :| 0 <= i < |fields| && Cut(fields[i].name) == pairs[k].name;
      NameAt(fields, f, i);
    } else {
      NameAt(fields, f, |fields|);
    }
  }

  lemma NameAt(fields: seq<Field>, f: Field, i: nat)
    requires i <= |fields|
    ensures HasName(fields + [f], Cut(if i == |fields| then f.name else fields[i].name))
  {
    assert (fields + [f])[i] == if i == |fields| then f else fields[i];
  }

  lemma {:induction false} PutHas(pairs: seq<Pair>, name: Bytes, value: Dom, other: Bytes)
    ensures Absent(Put(pairs, name, value), other) <==> Absent(pairs, other) && other != name
  {
    if pairs == [] {
      AbsentCons(Pair(name, value), [], other);
    } else {
      var first, rest := pairs[0], pairs[1..];
      AbsentCons(first, rest, other);
      assert [first] + rest == pairs;
      if first.name == name {
        AbsentCons(Pair(name, value), rest, other);
      } else {
        PutHas(rest, name, value, other);
        AbsentCons(first, Put(rest, name, value), other);
      }
    }
  }

  lemma AbsentCons(p: Pair, rest: seq<Pair>, other: Bytes)
    ensures Absent([p] + rest, other) <==> p.name != other && Absent(rest, other)
  {
    var all := [p] + rest;
    assert all[0] == p && forall i :: 0 <= i < |rest| ==> all[i + 1] == rest[i];
  }

  lemma OneMoreValue(fields: seq<Field>, pairs: seq<Pair>, f: Field, name: Bytes, value: Dom, cs: Charset, i: nat, k: nat)
    requires DomNamesOk(pairs) && ValuesWrittenAs(fields, pairs, cs) && WrittenAs(f.value, value, cs)
    requires name == Cut(f.name) && i <= |fields| && k < |Put(pairs, name, value)|
    requires IsLast(fields + [f], i, Put(pairs, name, value)[k].name)
    ensures WrittenAs((fields + [f])[i].value, Put(pairs, name, value)[k].value, cs)
  {
    PutExactly(pairs, name, value, k);
    LastBefore(fields, f, i, Put(pairs, name, value)[k].name);
    assert (fields + [f])[i] == if i == |fields| then f else fields[i];
  }

  lemma MoreNames(fields: seq<Field>, pairs: seq<Pair>, f: Field, name: Bytes, value: Dom)
    requires NamesPut(fields, pairs) && name == Cut(f.name)
    ensures NamesPut(fields + [f], Put(pairs, name, value))
  {
    var r, all := Put(pairs, name, value), fields + [f];
    PutKeepsNames(pairs, name, value);
    forall i | 0 <= i < |all| ensures !Absent(r, Cut(all[i].name)) {
      assert all[i] == if i == |fields| then f else fields[i];
      PutHas(pairs, name, value, Cut(all[i].name));
    }
    forall k | 0 <= k < |r| ensures HasName(all, r[k].name) {
      OneMoreName(fields, pairs, f, name, value, k);
    }
  }

  lemma MoreValues(fields: seq<Field>, pairs: seq<Pair>, f: Field, name: Bytes, value: Dom, cs: Charset)
    requires DomNamesOk(pairs) && ValuesWrittenAs(fields, pairs, cs) && WrittenAs(f.value, value, cs) && name == Cut(f.name)
    ensures ValuesWrittenAs(fields + [f], Put(pairs, name, value), cs)
  {
    var r, all := Put(pairs, name, value), fields + [f];
    forall i, k | 0 <= i < |all| && 0 <= k < |r| && IsLast(all, i, r[k].name)
      ensures WrittenAs(all[i].value, r[k].value, cs)
    {
      OneMoreValue(fields, pairs, f, name, value, cs, i, k);
    }
  }

  lemma OneMoreField(fields: seq<Field>, pairs: seq<Pair>, f: Field, value: Dom, cs: Charset, r: seq<Pair>)
    requires FieldsWrittenAs(fields, pairs, cs) && WrittenAs(f.value, value, cs) && r == Put(pairs, Cut(f.name), value)
    ensures FieldsWrittenAs(fields + [f], r, cs)
  {
    MoreNames(fields, pairs, f, Cut(f.name), value);
    MoreValues(fields, pairs, f, Cut(f.name), value, cs);
  }

  lemma {:induction false} WrittenMeans(t: Tree, cs: Charset)
    requires ToDom(t, cs).Some?
    ensures WrittenAs(t, ToDom(t, cs).value, cs)
    decreases t, 0
  {
    match t
    case Array(elements) => ArrayWrittenMeans(elements, cs);
    case Object(fields) =>
      FieldsWrittenMeans([], fields, [], cs, fields);
    case Number(numeral) => ParsedIsNormal(numeral, cs);
    case _ =>
  }

  lemma {:induction false} ArrayWrittenMeans(ts: seq<Tree>, cs: Charset)
    requires ToDoms(ts, cs).Some?
    ensures forall i :: 0 <= i < |ts| ==> WrittenAs(ts[i], ToDoms(ts, cs).value[i], cs)
    decreases ts, 0
  {
    if ts != [] {
      WrittenMeans(ts[0], cs);
      ArrayWrittenMeans(ts[1..], cs);
    }
  }

  lemma FirstSeen(seen: seq<Field>, fields: seq<Field>, all: seq<Field>)
    requires all == seen + fields && fields != []
    ensures all == (seen + [fields[0]]) + fields[1..]
  {
  }

  lemma {:induction false} FieldsWrittenMeans(seen: seq<Field>, fields: seq<Field>, done: seq<Pair>, cs: Charset,
                                              all: seq<Field>)
    requires FieldsWrittenAs(seen, done, cs) && PutAll(done, fields, cs).Some? && all == seen + fields
    ensures FieldsWrittenAs(all, PutAll(done, fields, cs).value, cs)
    decreases fields, 0
  {
    if fields == [] {
      assert all == seen;
    } else {
      var f, value := fields[0], ToDom(fields[0].value, cs).value;
      WrittenMeans(f.value, cs);
      var more := Put(done, Cut(f.name), value);
      OneMoreField(seen, done, f, value, cs, more);
      FirstSeen(seen, fields, all);
      FieldsWrittenMeans(seen + [f], fields[1..], more, cs, all);
    }
  }

  // ---- reading ----

  // Every number in the document can be decoded, has at most forty digits, and its text fits the buffer.
  predicate NumbersRead(d: Dom, cs: Charset)
    decreases d
  {
    match d
    case DomArray(items) => forall i :: 0 <= i < |items| ==> NumbersRead(items[i], cs)
    case DomObject(pairs) => forall i :: 0 <= i < |pairs| ==> NumbersRead(pairs[i].value, cs)
    case DomNumber(number) =>
      && |number| >= 22 && Decode(number).Success? && |Decode(number).value.digits| <= 40
      && IsBytes(BytesOf(Print(Decode(number).value), cs)) && |BytesOf(Print(Decode(number).value), cs)| <= 172
    case _ => true
  }

  lemma {:induction false} ReadExactly(d: Dom, cs: Charset)
    ensures FromDom(d, cs).Some? <==> NumbersRead(d, cs)
    decreases d, 0
  {
    match d
    case DomArray(items) => ArrayReadExactly(items, cs);
    case DomObject(pairs) => PairsReadExactly(pairs, cs);
    case _ =>
  }

  lemma {:induction false} ArrayReadExactly(ds: seq<Dom>, cs: Charset)
    ensures FromDoms(ds, cs).Some? <==> forall i :: 0 <= i < |ds| ==> NumbersRead(ds[i], cs)
    decreases ds, 0
  {
    if ds != [] {
      ReadExactly(ds[0], cs);
      ArrayReadExactly(ds[1..], cs);
      assert forall i :: 1 <= i < |ds| ==> ds[i] == ds[1..][i - 1];
    }
  }

  lemma {:induction false} PairsReadExactly(ps: seq<Pair>, cs: Charset)
    ensures FromPairs(ps, cs).Some? <==> forall i :: 0 <= i < |ps| ==> NumbersRead(ps[i].value, cs)
    decreases ps, 0
  {
    if ps != [] {
      ReadExactly(ps[0].value, cs);
      PairsReadExactly(ps[1..], cs);
      assert forall i :: 1 <= i < |ps| ==> ps[i] == ps[1..][i - 1];
    }
  }

  // A number is the text that is printed for it; arrays and objects have what is in the document, in its order.
  ghost predicate ReadAs(d: Dom, t: Tree, cs: Charset)
    decreases d
  {
    match d
    case DomArray(items) =>
      && t.Array? && |t.elements| == |items|
      && (forall i :: 0 <= i < |items| ==> ReadAs(items[i], t.elements[i], cs))
    case DomObject(pairs) =>
      && t.Object? && |t.fields| == |pairs|
      && (forall i :: 0 <= i < |pairs| ==>
            t.fields[i].name == pairs[i].name && ReadAs(pairs[i].value, t.fields[i].value, cs))
    case DomNumber(number) =>
      && t.Number? && |number| >= 22 && Decode(number).Success?
      && t.numeral == BytesOf(Print(Decode(number).value), cs)
    case _ => SameScalar(t, d)
  }

  lemma {:induction false} ReadMeans(d: Dom, cs: Charset)
    requires FromDom(d, cs).Some?
    ensures ReadAs(d, FromDom(d, cs).value, cs)
    decreases d, 0
  {
    match d
    case DomArray(items) => ArrayReadMeans(items, cs);
    case DomObject(pairs) => PairsReadMeans(pairs, cs);
    case _ =>
  }

  lemma {:induction false} ArrayReadMeans(ds: seq<Dom>, cs: Charset)
    requires FromDoms(ds, cs).Some?
    ensures forall i :: 0 <= i < |ds| ==> ReadAs(ds[i], FromDoms(ds, cs).value[i], cs)
    decreases ds, 0
  {
    if ds != [] {
      ReadMeans(ds[0], cs);
      ArrayReadMeans(ds[1..], cs);
    }
  }

  lemma {:induction false} PairsReadMeans(ps: seq<Pair>, cs: Charset)
    requires FromPairs(ps, cs).Some?
    ensures var fields := FromPairs(ps, cs).value;
            forall i :: 0 <= i < |ps| ==> fields[i].name == ps[i].name && ReadAs(ps[i].value, fields[i].value, cs)
    decreases ps, 0
  {
    if ps != [] {
      ReadMeans(ps[0].value, cs);
      PairsReadMeans(ps[1..], cs);
    }
  }
}
