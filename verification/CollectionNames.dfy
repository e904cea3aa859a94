/** Collecting the names of SODA collections: one growing buffer for the characters of all names, one
    growing array of lengths, and at the end an array of pointers into the buffer. */
module CollectionNames {
  type Name = seq<int>

  const LENGTHS_GROWTH := 256
  const BUFFER_GROWTH := 32768

  // A write behind the end of the buffer is undefined in C; here it is an outcome.
  datatype Outcome = Collected | CallFailed | Overrun

  // ---- what is collected ----

  function Wanted(cursor: seq<Name>, limit: nat): (names: seq<Name>)
    ensures names <= cursor && |names| == (if limit == 0 || |cursor| < limit then |cursor| else limit)
  {
    if limit == 0 || |cursor| < limit then cursor else cursor[..limit]
  }

  function Concat(names: seq<Name>): (r: Name) {
    if names == [] then [] else names[0] + Concat(names[1..])
  }

  // The sum of the lengths of the names in front.
  function Offset(names: seq<Name>, i: nat): (r: nat)
    requires i <= |names|
  {
    if i == 0 then 0 else |names[0]| + Offset(names[1..], i - 1)
  }

  lemma {:induction false} ConcatAppend(names: seq<Name>, name: Name)
    ensures Concat(names + [name]) == Concat(names) + name
  {
    if names == [] {
      assert ([] + [name])[1..] == [];
    } else {
      ConcatAppend(names[1..], name);
      assert (names + [name])[1..] == names[1..] + [name];
    }
  }

  // Each name is the slice of the buffer at its offset.
  lemma {:induction false} SliceIsName(names: seq<Name>, i: nat)
    requires i < |names|
    ensures Offset(names, i) + |names[i]| == Offset(names, i + 1) <= |Concat(names)|
    ensures Concat(names)[Offset(names, i)..Offset(names, i + 1)] == names[i]
  {
    if i > 0 {
      SliceIsName(names[1..], i - 1);
      var rest := Concat(names[1..]);
      assert Concat(names) == names[0] + rest;
      assert Concat(names)[Offset(names, i)..Offset(names, i + 1)]
             == rest[Offset(names[1..], i - 1)..Offset(names[1..], i)];
    } else {
      assert Offset(names, 1) == |names[0]| + Offset(names[1..], 0);
    }
  }

  // ---- when the buffer is large enough ----

  // The buffer grows by a fixed amount, once for a name that does not fit, however long it is.
  function Grown(used: nat, room: nat, name: Name): nat {
    if used + |name| > room then room + BUFFER_GROWTH else room
  }

  predicate RoomFor(names: seq<Name>, used: nat, room: nat) {
    names == []
    || (used + |names[0]| <= Grown(used, room, names[0])
        && RoomFor(names[1..], used + |names[0]|, Grown(used, room, names[0])))
  }

  // How many times the buffer has grown when it is just large enough.
  function Growths(used: nat): nat {
    (used + BUFFER_GROWTH - 1) / BUFFER_GROWTH
  }

  // No name needs more than one growth beyond what the names in front of it need.
  predicate OneGrowthEach(names: seq<Name>) {
    forall i :: 0 <= i < |names| ==> Growths(Offset(names, i + 1)) <= Growths(Offset(names, i)) + 1
  }

  lemma GrownExactly(used: nat, name: Name)
    ensures var room := BUFFER_GROWTH * Growths(used);
            && used <= room
            && (used + |name| <= Grown(used, room, name) <==> Growths(used + |name|) <= Growths(used) + 1)
            && (Growths(used + |name|) <= Growths(used) + 1 ==>
                  Grown(used, room, name) == BUFFER_GROWTH * Growths(used + |name|))
  {
  }

  predicate OneGrowthAt(names: seq<Name>, used: nat, i: nat)
    requires i < |names|
  {
    Growths(used + Offset(names, i + 1)) <= Growths(used + Offset(names, i)) + 1
  }

  // The same behind names of the given length.
  predicate OneGrowthEachFrom(names: seq<Name>, used: nat) {
    forall i :: 0 <= i < |names| ==> OneGrowthAt(names, used, i)
  }

  lemma OneGrowthShifts(names: seq<Name>, used: nat, i: nat)
    requires i < |names|
    ensures OneGrowthAt(names, used, i) <==>
            if i == 0 then Growths(used + |names[0]|) <= Growths(used) + 1
            else OneGrowthAt(names[1..], used + |names[0]|, i - 1)
  {
    assert Offset(names, i + 1) == |names[0]| + Offset(names[1..], i);
  }

  lemma OneGrowthFirst(names: seq<Name>, used: nat)
    requires names != []
    ensures OneGrowthEachFrom(names, used) <==>
            Growths(used + |names[0]|) <= Growths(used) + 1 && OneGrowthEachFrom(names[1..], used + |names[0]|)
  {
    var rest, more := names[1..], used + |names[0]|;
    forall i | 0 <= i < |names|
      ensures OneGrowthAt(names, used, i) <==>
              if i == 0 then Growths(more) <= Growths(used) + 1 else OneGrowthAt(rest, more, i - 1)
    {
      OneGrowthShifts(names, used, i);
    }
    FirstAndRest(names, used, rest, more, Growths(more) <= Growths(used) + 1);
  }

  lemma FirstAndRest(names: seq<Name>, used: nat, rest: seq<Name>, more: nat, first: bool)
    requires |names| == |rest| + 1
    requires forall i :: 0 <= i < |names| ==>
                 (OneGrowthAt(names, used, i) <==> if i == 0 then first else OneGrowthAt(rest, more, i - 1))
    ensures OneGrowthEachFrom(names, used) <==> first && OneGrowthEachFrom(rest, more)
  {
    if OneGrowthEachFrom(names, used) {
      assert OneGrowthAt(names, used, 0);
      forall i | 0 <= i < |rest|
        ensures OneGrowthAt(rest, more, i)
      {
        assert OneGrowthAt(names, used, i + 1);
      }
    }
  }

  lemma {:induction false} RoomExactlyFrom(names: seq<Name>, used: nat)
    ensures RoomFor(names, used, BUFFER_GROWTH * Growths(used)) <==> OneGrowthEachFrom(names, used)
    decreases |names|
  {
    if names != [] {
      GrownExactly(used, names[0]);
      OneGrowthFirst(names, used);
      RoomExactlyFrom(names[1..], used + |names[0]|);
    }
  }

  // The buffer is large enough if and only if no name needs more than one growth.
  lemma RoomExactly(names: seq<Name>)
    ensures RoomFor(names, 0, 0) <==> OneGrowthEach(names)
  {
    RoomExactlyFrom(names, 0);
    assert BUFFER_GROWTH * Growths(0) == 0;
    assert forall i :: 0 <= i < |names| ==>
        (OneGrowthAt(names, 0, i) <==> Growths(Offset(names, i + 1)) <= Growths(Offset(names, i)) + 1);
  }

  // Names of at most 32768 bytes always fit.
  lemma {:induction false} ShortNamesFit(names: seq<Name>, used: nat, room: nat)
    requires used <= room && forall i :: 0 <= i < |names| ==> |names[i]| <= 32768
    ensures RoomFor(names, used, room)
    decreases |names|
  {
    if names != [] {
      ShortNamesFit(names[1..], used + |names[0]|, Grown(used, room, names[0]));
    }
  }

  // A longer name does not fit behind names that fill the buffer, in particular as the first.
  lemma LongNameOverruns(name: Name, rest: seq<Name>)
    requires |name| == 32769
    ensures !RoomFor([name] + rest, 0, 0)
  {
  }

  // ---- the loop ----

  // The state of the growing arrays after the names in done.
  ghost predicate Holds(done: seq<Name>, nameLengths: array<int>, numAllocatedNames: nat, namesBuffer: array<int>,
                        room: nat, used: nat)
    reads nameLengths, namesBuffer
  {
    && nameLengths.Length == numAllocatedNames && |done| <= numAllocatedNames
    && namesBuffer.Length == room && used == |Concat(done)| <= room
    && namesBuffer[..used] == Concat(done)
    && forall i :: 0 <= i < |done| ==> nameLengths[i] == |done[i]|
  }

  method Grow(a: array<int>, used: nat, size: nat) returns (r: array<int>)
    requires used <= a.Length && used <= size
    ensures fresh(r) && r.Length == size && r[..used] == a[..used]
  {
    r := new int[size];
    var i := 0;
    while i < used
      invariant i <= used && r[..i] == a[..i]
    {
      r[i] := a[i];
      i := i + 1;
    }
  }

  method CopyName(name: Name, target: array<int>, at: nat)
    requires at + |name| <= target.Length
    modifies target
    ensures target[..at + |name|] == old(target[..at]) + name
  {
    var i := 0;
    while i < |name|
      invariant i <= |name| && target[..at + i] == old(target[..at]) + name[..i]
    {
      target[at + i] := name[i];
      i := i + 1;
    }
    assert name[..i] == name;
  }

  // Stores one more name, in arrays that grow when they have to.
  method Store(name: Name, numNames: nat, lengths: array<int>, buffer: array<int>, used: nat, ghost done: seq<Name>)
      returns (outcome: Outcome, nameLengths: array<int>, namesBuffer: array<int>)
    requires |done| == numNames && lengths != buffer
    requires Holds(done, lengths, lengths.Length, buffer, buffer.Length, used)
    modifies lengths, buffer
    ensures nameLengths != namesBuffer && outcome != CallFailed
    ensures nameLengths == lengths || fresh(nameLengths)
    ensures namesBuffer == buffer || fresh(namesBuffer)
    ensures outcome == Overrun <==> used + |name| > Grown(used, buffer.Length, name)
    ensures outcome == Collected ==>
              Holds(done + [name], nameLengths, nameLengths.Length, namesBuffer, Grown(used, buffer.Length, name),
                    used + |name|)
  {
    nameLengths, namesBuffer := lengths, buffer;
    if lengths.Length <= numNames {
      nameLengths := Grow(lengths, numNames, lengths.Length + LENGTHS_GROWTH);
      assert forall i :: 0 <= i < numNames ==> nameLengths[i] == nameLengths[..numNames][i];
    }
    if used + |name| > buffer.Length {
      namesBuffer := Grow(buffer, used, buffer.Length + BUFFER_GROWTH);
    }
    if used + |name| > namesBuffer.Length {
      return Overrun, nameLengths, namesBuffer;
    }
    CopyName(name, namesBuffer, used);
    nameLengths[numNames] := |name|;
    ConcatAppend(done, name);
    outcome := Collected;
  }

  lemma SliceInBuffer(names: seq<Name>, k: nat, buffer: seq<int>)
    requires k < |names| && |Concat(names)| <= |buffer| && buffer[..|Concat(names)|] == Concat(names)
    ensures Offset(names, k) + |names[k]| <= |buffer|
    ensures buffer[Offset(names, k)..Offset(names, k) + |names[k]|] == names[k]
  {
    SliceIsName(names, k);
    SliceOfPrefix(buffer, |Concat(names)|, Offset(names, k), Offset(names, k + 1));
  }

  lemma SliceOfPrefix(s: seq<int>, n: nat, low: nat, high: nat)
    requires low <= high <= n <= |s|
    ensures s[..n][low..high] == s[low..high]
  {
  }

  lemma RoomStep(names: seq<Name>, i: nat, used: nat, room: nat)
    requires i < |names|
    ensures RoomFor(names[i..], used, room) <==>
            used + |names[i]| <= Grown(used, room, names[i])
            && RoomFor(names[i + 1..], used + |names[i]|, Grown(used, room, names[i]))
  {
    assert names[i..][1..] == names[i + 1..];
  }

  // How often OCI is asked for a name: once more than there are, if the limit is not reached before.
  function Rounds(cursor: seq<Name>, limit: nat): nat {
    if limit == 0 || |cursor| < limit then |cursor| + 1 else limit
  }

  // In each round a call to OCI or an allocation can fail. The names are collected if and only if none does and
  // none of the names needs more than one growth of the buffer.
  method CollectAll(cursor: seq<Name>, limit: nat, fails: nat -> bool)
      returns (outcome: Outcome, numNames: nat, nameLengths: array<int>, namesBuffer: array<int>)
    ensures outcome == Collected <==>
            OneGrowthEach(Wanted(cursor, limit)) && forall k :: 0 <= k < Rounds(cursor, limit) ==> !fails(k)
    ensures outcome == CallFailed ==> exists k :: 0 <= k < Rounds(cursor, limit) && fails(k)
    ensures outcome == Overrun ==> !OneGrowthEach(Wanted(cursor, limit))
    ensures outcome == Collected ==>
              && numNames == |Wanted(cursor, limit)|
              && Holds(Wanted(cursor, limit), nameLengths, nameLengths.Length, namesBuffer, namesBuffer.Length,
                       |Concat(Wanted(cursor, limit))|)
    ensures fresh(nameLengths) && fresh(namesBuffer)
  {
    ghost var wanted := Wanted(cursor, limit);
    nameLengths, namesBuffer := new int[0], new int[0];
    var used: nat := 0;
    numNames := 0;
    ghost var fits := OneGrowthEach(wanted);
    RoomExactly(wanted);
    assert wanted[0..] == wanted && wanted[..0] == [];
    while numNames < limit || limit == 0
      invariant numNames <= |wanted| && fresh(nameLengths) && fresh(namesBuffer) && nameLengths != namesBuffer
      invariant Holds(wanted[..numNames], nameLengths, nameLengths.Length, namesBuffer, namesBuffer.Length, used)
      invariant fits <==> RoomFor(wanted[numNames..], used, namesBuffer.Length)
      invariant forall k :: 0 <= k < numNames ==> !fails(k)
      decreases |cursor| - numNames
    {
      if fails(numNames) {
        return CallFailed, numNames, nameLengths, namesBuffer;
      }
      if numNames == |cursor| {
        break;
      }
      var name := cursor[numNames];
      assert name == wanted[numNames];
      RoomStep(wanted, numNames, used, namesBuffer.Length);
      outcome, nameLengths, namesBuffer := Store(name, numNames, nameLengths, namesBuffer, used, wanted[..numNames]);
      if outcome == Overrun {
        return;
      }
      assert wanted[..numNames + 1] == wanted[..numNames] + [name];
      used := used + |name|;
      numNames := numNames + 1;
    }
    assert wanted[..numNames] == wanted;
    outcome := Collected;
  }

  method SetPointers(numNames: nat, nameLengths: array<int>, ghost wanted: seq<Name>) returns (names: array<int>)
    requires numNames == |wanted| <= nameLengths.Length
    requires forall i :: 0 <= i < |wanted| ==> nameLengths[i] == |wanted[i]|
    ensures fresh(names) && names.Length == numNames
    ensures forall k :: 0 <= k < numNames ==> names[k] == Offset(wanted, k)
  {
    names := new int[numNames];
    var i, at := 0, 0;
    while i < numNames
      invariant i <= numNames && at == Offset(wanted, i)
      invariant forall k :: 0 <= k < i ==> names[k] == Offset(wanted, k)
    {
      SliceIsName(wanted, i);
      names[i] := at;
      at := at + nameLengths[i];
      i := i + 1;
    }
  }

  // The pointers are set only when the buffer does not move any more.
  method SetNames(numNames: nat, nameLengths: array<int>, namesBuffer: array<int>, ghost wanted: seq<Name>)
      returns (names: array<int>)
    requires numNames == |wanted|
    requires Holds(wanted, nameLengths, nameLengths.Length, namesBuffer, namesBuffer.Length, |Concat(wanted)|)
    ensures fresh(names) && names.Length == numNames
    ensures forall i :: 0 <= i < numNames ==>
                && 0 <= names[i] <= names[i] + nameLengths[i] <= namesBuffer.Length && names[i] == Offset(wanted, i)
                && namesBuffer[names[i]..names[i] + nameLengths[i]] == wanted[i]
  {
    names := SetPointers(numNames, nameLengths, wanted);
    forall k | 0 <= k < numNames
      ensures 0 <= names[k] <= names[k] + nameLengths[k] <= namesBuffer.Length
      ensures namesBuffer[names[k]..names[k] + nameLengths[k]] == wanted[k]
    {
      SliceInBuffer(wanted, k, namesBuffer[..]);
    }
  }

  // With memory for the pointers, if there are any, the wanted names are where the pointers lead.
  method GetCollectionNames(cursor: seq<Name>, limit: nat, fails: nat -> bool, memory: bool)
      returns (outcome: Outcome, names: array<int>, nameLengths: array<int>, namesBuffer: array<int>)
    ensures outcome == Collected <==>
            && OneGrowthEach(Wanted(cursor, limit)) && (forall k :: 0 <= k < Rounds(cursor, limit) ==> !fails(k))
            && (|Wanted(cursor, limit)| > 0 ==> memory)
    ensures outcome == CallFailed ==>
              (exists k :: 0 <= k < Rounds(cursor, limit) && fails(k)) || (|Wanted(cursor, limit)| > 0 && !memory)
    ensures outcome == Overrun ==> !OneGrowthEach(Wanted(cursor, limit))
    ensures outcome == Collected ==> names.Length == |Wanted(cursor, limit)| <= nameLengths.Length
    ensures outcome == Collected ==> forall i :: 0 <= i < names.Length ==>
                && 0 <= names[i] <= names[i] + nameLengths[i] <= namesBuffer.Length
                && names[i] == Offset(Wanted(cursor, limit), i)
                && namesBuffer[names[i]..names[i] + nameLengths[i]] == Wanted(cursor, limit)[i]
  {
    var numNames;
    outcome, numNames, nameLengths, namesBuffer := CollectAll(cursor, limit, fails);
    if outcome == Collected && numNames > 0 && !memory {
      outcome := CallFailed;
    }
    if outcome != Collected {
      names := new int[0];
      return;
    }
    names := SetNames(numNames, nameLengths, namesBuffer, Wanted(cursor, limit));
  }
}
