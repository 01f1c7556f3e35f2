/** The bounded JSON encoder of Code step outputs (apps/code-runner/src/execution/encode.ts).
    It walks an arbitrary, possibly cyclic heap and never runs user code. */
module CodeEncoder {
  import opened Wrappers
  import opened Sequences
  import opened CodeUnits
  import opened JsonText
  import opened JsonBounds

  // ----- The JavaScript heap, as the captured inspection primitives see it -----

  /** Number.isSafeInteger: up to here String writes the exact digits. */
  type SafeInteger = n: int | -0x1F_FFFF_FFFF_FFFF <= n <= 0x1F_FFFF_FFFF_FFFF

  datatype Value =
    | NullValue
    | BoolValue(b: bool)
    | IntegerValue(n: SafeInteger)
    | NonFiniteValue
    | StringValue(s: Text)
    | UnsupportedValue // undefined, functions, symbols, bigints
    | Reference(r: nat)

  datatype PropertyKey = Name(s: Text) | Symbol(id: nat)

  datatype Property = Data(value: Value, enumerable: bool) | Accessor(enumerable: bool)

  datatype Prototype = ArrayPrototype | ObjectPrototype | NoPrototype | OtherPrototype

  /** One object: own keys in Reflect.ownKeys order and their descriptors. */
  datatype Cell = Cell(
    isProxy: bool,
    isArray: bool,
    prototype: Prototype,
    keys: seq<PropertyKey>,
    properties: map<PropertyKey, Property>)

  /** Every reference denotes an object; the heap may be cyclic and unbounded. */
  type Heap = nat -> Cell

  const LENGTH: PropertyKey := Name([0x6C, 0x65, 0x6E, 0x67, 0x74, 0x68])

  /** JavaScript keeps the length of every array a non-negative integer. */
  ghost predicate ArraysHaveLengths(h: Heap) {
    forall r: nat :: h(r).isArray ==> HasLength(h(r))
  }

  predicate HasLength(cell: Cell) {
    LENGTH in cell.properties && cell.properties[LENGTH].Data?
    && cell.properties[LENGTH].value.IntegerValue? && cell.properties[LENGTH].value.n >= 0
  }

  // ----- What a value means as JSON -----

  function KindOf(cell: Cell): Kind { if cell.isArray then ArrayKind else ObjectKind }

  function Arity(cell: Cell): nat
    requires cell.isArray ==> HasLength(cell)
  {
    if cell.isArray then cell.properties[LENGTH].value.n else |cell.keys|
  }

  predicate PlainPrototype(cell: Cell) {
    cell.prototype == (if cell.isArray then ArrayPrototype else ObjectPrototype)
    || (cell.prototype == NoPrototype && !cell.isArray)
  }

  /** A plain object or a plain array without further properties. */
  predicate Plain(cell: Cell)
    requires cell.isArray ==> HasLength(cell)
  {
    !cell.isProxy && PlainPrototype(cell) && (cell.isArray ==> |cell.keys| == Arity(cell) + 1)
  }

  /** The i-th element or property: an enumerable data property under a string key. */
  function Child(cell: Cell, i: nat): Option<(Text, Value)>
    requires !cell.isArray ==> i < |cell.keys|
  {
    var key := if cell.isArray then Name(Decimal(i)) else cell.keys[i];
    if key.Symbol? || key !in cell.properties then None
    else match cell.properties[key]
         case Accessor(_) => None
         case Data(value, enumerable) =>
           if enumerable then Some((if cell.isArray then [] else key.s, value)) else None
  }

  /** The tree t is the unfolding of the value v. A value on a cycle has none. */
  ghost predicate Unfolds(h: Heap, v: Value, t: Json)
    requires ArraysHaveLengths(h)
    decreases t
  {
    match t
    case Null => v == NullValue
    case Bool(b) => v == BoolValue(b)
    case Num(n) => v.IntegerValue? && v.n == n
    case Str(s) => v == StringValue(s)
    case Compound(kind, entries) =>
      v.Reference? && Plain(h(v.r)) && kind == KindOf(h(v.r)) && |entries| == Arity(h(v.r))
      && forall i :: 0 <= i < |entries| ==> EntryUnfolds(h, h(v.r), i, entries[i])
  }

  ghost predicate EntryUnfolds(h: Heap, cell: Cell, i: nat, e: Entry)
    requires ArraysHaveLengths(h)
    decreases e
  {
    (!cell.isArray ==> i < |cell.keys|)
    && Child(cell, i).Some? && Child(cell, i).value.0 == e.name
    && Unfolds(h, Child(cell, i).value.1, e.value)
  }

  /** The key holds an enumerable data property whose value unfolds to the tree. */
  ghost predicate PropertyUnfolds(h: Heap, cell: Cell, key: PropertyKey, t: Json)
    requires ArraysHaveLengths(h)
  {
    && key in cell.properties && cell.properties[key].Data? && cell.properties[key].enumerable
    && Unfolds(h, cell.properties[key].value, t)
  }

  /** Which objects unfold: neither proxies nor instances of a class, and every own property, in the
      order of the keys, under a string key, enumerable and without a getter. */
  lemma ObjectsUnfold(h: Heap, r: nat, t: Json)
    requires ArraysHaveLengths(h) && !h(r).isArray
    ensures Unfolds(h, Reference(r), t) <==>
              && !h(r).isProxy && (h(r).prototype == ObjectPrototype || h(r).prototype == NoPrototype)
              && t.Compound? && t.kind == ObjectKind && |t.entries| == |h(r).keys|
              && forall i :: 0 <= i < |t.entries| ==>
                   && h(r).keys[i] == Name(t.entries[i].name)
                   && PropertyUnfolds(h, h(r), h(r).keys[i], t.entries[i].value)
  {
    if t.Compound? && |t.entries| == |h(r).keys| {
      forall i | 0 <= i < |t.entries|
        ensures EntryUnfolds(h, h(r), i, t.entries[i]) <==>
                  h(r).keys[i] == Name(t.entries[i].name) && PropertyUnfolds(h, h(r), h(r).keys[i], t.entries[i].value)
      {
      }
    }
  }

  /** Which arrays unfold: plain ones whose own keys are the length and every index, no more and no
      less, each index enumerable and without a getter. */
  lemma ArraysUnfold(h: Heap, r: nat, t: Json)
    requires ArraysHaveLengths(h) && h(r).isArray
    ensures Unfolds(h, Reference(r), t) <==>
              && !h(r).isProxy && h(r).prototype == ArrayPrototype
              && h(r).properties[LENGTH].value.n == |h(r).keys| - 1
              && t.Compound? && t.kind == ArrayKind && |t.entries| == |h(r).keys| - 1
              && forall i :: 0 <= i < |t.entries| ==>
                   t.entries[i].name == [] && PropertyUnfolds(h, h(r), Name(Decimal(i)), t.entries[i].value)
  {
    if t.Compound? {
      forall i | 0 <= i < |t.entries|
        ensures EntryUnfolds(h, h(r), i, t.entries[i]) <==>
                  t.entries[i].name == [] && PropertyUnfolds(h, h(r), Name(Decimal(i)), t.entries[i].value)
      {
      }
    }
  }

  lemma {:induction false} UnfoldingIsUnique(h: Heap, v: Value, t: Json, u: Json)
    requires ArraysHaveLengths(h) && Unfolds(h, v, t) && Unfolds(h, v, u)
    ensures t == u
    decreases t
  {
    if t.Compound? {
      forall i | 0 <= i < |t.entries|
        ensures t.entries[i] == u.entries[i]
      {
        assert EntryUnfolds(h, h(v.r), i, t.entries[i]) && EntryUnfolds(h, h(v.r), i, u.entries[i]);
        UnfoldingIsUnique(h, Child(h(v.r), i).value.1, t.entries[i].value, u.entries[i].value);
      }
      assert t.entries == u.entries;
    }
  }

  lemma {:induction false} UnfoldingIsNameless(h: Heap, v: Value, t: Json)
    requires ArraysHaveLengths(h) && Unfolds(h, v, t)
    ensures Nameless(t)
    decreases t
  {
    if t.Compound? {
      forall i | 0 <= i < |t.entries|
        ensures (t.kind == ArrayKind ==> t.entries[i].name == []) && Nameless(t.entries[i].value)
      {
        assert EntryUnfolds(h, h(v.r), i, t.entries[i]);
        UnfoldingIsNameless(h, Child(h(v.r), i).value.1, t.entries[i].value);
      }
    }
  }

  /** The first entries of an array or object, already unfolded. */
  ghost predicate PrefixUnfolds(h: Heap, cell: Cell, entries: seq<Entry>)
    requires ArraysHaveLengths(h)
  {
    forall i :: 0 <= i < |entries| ==> EntryUnfolds(h, cell, i, entries[i])
  }

  /** Any unfolding of the object starts with them and agrees on the next child. */
  lemma PrefixIsShared(h: Heap, r: nat, entries: seq<Entry>, t: Json)
    requires ArraysHaveLengths(h) && PrefixUnfolds(h, h(r), entries)
    requires Unfolds(h, Reference(r), t) && |entries| <= Arity(h(r))
    ensures t.Compound? && t.entries[..|entries|] == entries
    ensures |entries| < Arity(h(r)) ==> EntryUnfolds(h, h(r), |entries|, t.entries[|entries|])
  {
    forall i | 0 <= i < |entries|
      ensures t.entries[i] == entries[i]
    {
      assert EntryUnfolds(h, h(r), i, t.entries[i]) && EntryUnfolds(h, h(r), i, entries[i]);
      UnfoldingIsUnique(h, Child(h(r), i).value.1, t.entries[i].value, entries[i].value);
    }
  }

  /** The value reached by following child positions from v. */
  ghost function Descend(h: Heap, v: Value, steps: seq<nat>): Option<Value>
    requires ArraysHaveLengths(h)
    decreases |steps|
  {
    if steps == [] then Some(v)
    else if !v.Reference? || steps[0] >= Arity(h(v.r)) then None
    else match Child(h(v.r), steps[0])
         case None => None
         case Some(child) => Descend(h, child.1, steps[1..])
  }

  lemma {:induction false} DescendantUnfolds(h: Heap, v: Value, t: Json, steps: seq<nat>) returns (u: Json)
    requires ArraysHaveLengths(h) && Unfolds(h, v, t) && Descend(h, v, steps).Some?
    ensures Unfolds(h, Descend(h, v, steps).value, u) && Members(u) + |steps| <= Members(t)
    decreases |steps|
  {
    u := t;
    if steps != [] {
      var e := t.entries[steps[0]];
      assert EntryUnfolds(h, h(v.r), steps[0], e);
      PrefixCosts(t.kind, t.entries, steps[0]);
      u := DescendantUnfolds(h, Child(h(v.r), steps[0]).value.1, e.value, steps[1..]);
    }
  }

  /** A value on a cycle, however long, has no unfolding, so it is never encoded. */
  lemma CyclesHaveNoUnfolding(h: Heap, r: nat, steps: seq<nat>, t: Json)
    requires ArraysHaveLengths(h) && steps != []
    requires Descend(h, Reference(r), steps) == Some(Reference(r))
    ensures !Unfolds(h, Reference(r), t)
  {
    if Unfolds(h, Reference(r), t) {
      var u := DescendantUnfolds(h, Reference(r), t, steps);
      UnfoldingIsUnique(h, Reference(r), t, u);
    }
  }

  predicate Within(t: Json, limits: Limits) {
    Bytes(t) <= limits.bytes && Members(t) <= limits.members && Depth(t) <= limits.depth
  }

  // ----- The encoder -----

  datatype Ancestors = NoAncestor | Ancestor(value: nat, parent: Ancestors)

  ghost predicate OnPath(r: nat, path: Ancestors) {
    path.Ancestor? && (path.value == r || OnPath(r, path.parent))
  }

  datatype InvalidCodeOutput =
    | TooManyBytes
    | NotPlainArray
    | AccessorOrHole
    | SymbolProperty
    | TooManyMembers
    | NotJson
    | TooDeep
    | NotPlainObject
    | Cyclic

  datatype Outcome = Done | Thrown(error: InvalidCodeOutput)

  class Encoder {
    const heap: Heap
    const limits: Limits
    var members: nat
    var bytes: nat
    var encoded: Text
    ghost var visits: nat

    constructor (heap: Heap, limits: Limits)
      ensures this.heap == heap && this.limits == limits
      ensures members == 0 && bytes == 0 && encoded == [] && visits == 0
    {
      this.heap, this.limits := heap, limits;
      members, bytes, encoded, visits := 0, 0, [], 0;
    }

    ghost predicate Valid()
      reads this
    {
      && ArraysHaveLengths(heap)
      && bytes == Utf8Length(encoded) <= limits.bytes
      && !EndsHigh(encoded)
      && members <= limits.members && visits <= members + 1
    }

    /** From the given totals and at the given depth, the tree still fits. */
    ghost predicate Fits(t: Json, bytes0: nat, members0: nat, depth: nat) {
      bytes0 + Bytes(t) <= limits.bytes && members0 + Members(t) <= limits.members && depth + Depth(t) <= limits.depth + 1
    }

    /** An ancestor's unfolding would have to fit inside this one: the value is on a cycle. */
    ghost predicate Recurs(t: Json, path: Ancestors)
      requires ArraysHaveLengths(heap)
    {
      exists a: nat, whole: Json ::
        OnPath(a, path) && Unfolds(heap, Reference(a), whole) && Members(whole) <= Members(t)
    }

    /** A correct refusal: no unfolding fits, unless the value is on a cycle with an ancestor. */
    ghost predicate Refusable(v: Value, bytes0: nat, members0: nat, depth: nat, path: Ancestors)
      requires ArraysHaveLengths(heap)
    {
      forall t: Json :: Unfolds(heap, v, t) ==> !Fits(t, bytes0, members0, depth) || Recurs(t, path)
    }

    /** The tree's text, and nothing else, has been appended and paid for. */
    ghost predicate Appended(t: Json, text0: Text, bytes0: nat, members0: nat, depth: nat)
      reads this
    {
      Valid() && encoded == text0 + Print(t) && bytes == bytes0 + Bytes(t)
      && members == members0 + Members(t)
      && depth + Depth(t) <= limits.depth + 1
    }

    method Append(piece: Text) returns (o: Outcome)
      requires Valid() && Piece(piece)
      modifies this`bytes, this`encoded
      ensures o.Done? <==> old(bytes) + Utf8Length(piece) <= limits.bytes
      ensures o.Done? ==> Valid() && encoded == old(encoded) + piece && bytes == old(bytes) + Utf8Length(piece)
    {
      JoinPieces(encoded, piece);
      bytes := bytes + Utf8Length(piece);
      if bytes > limits.bytes {
        return Thrown(TooManyBytes);
      }
      encoded := encoded + piece;
      return Done;
    }

    /** The first entries of the object r have been appended after its opening bracket. */
    ghost predicate InProgress(r: nat, entries: seq<Entry>, text0: Text, bytes0: nat, members0: nat, depth: nat)
      reads this
    {
      Valid() && |entries| <= Arity(heap(r)) && PrefixUnfolds(heap, heap(r), entries)
      && var kind := KindOf(heap(r));
      && encoded == text0 + [Opening(kind)] + PrintEntries(kind, entries)
      && bytes == bytes0 + 1 + EntryBytes(kind, entries)
      && members == members0 + EntryMembers(entries)
      && depth + EntryDepth(entries) <= limits.depth
    }

    /** What an unfolding of r costs beyond the entries already appended. */
    lemma RemainingCost(r: nat, entries: seq<Entry>, t: Json)
      requires ArraysHaveLengths(heap) && PrefixUnfolds(heap, heap(r), entries) && |entries| < Arity(heap(r))
      requires Unfolds(heap, Reference(r), t)
      ensures t.Compound? && |t.entries| == Arity(heap(r)) && EntryUnfolds(heap, heap(r), |entries|, t.entries[|entries|])
      ensures var next := t.entries[|entries|];
              Bytes(t) >= 2 + EntryBytes(t.kind, entries) + CommaBytes(entries)
                          + Utf8Length(NamePart(t.kind, next.name)) + Bytes(next.value)
              && Members(t) >= EntryMembers(entries) + 1 + Members(next.value)
              && Depth(t) >= 1 + Depth(next.value)
    {
      PrefixIsShared(heap, r, entries, t);
      PrefixCosts(t.kind, t.entries, |entries|);
      CompoundBytes(t.kind, t.entries);
    }

    /** Refusing the next child is a reason to refuse the whole object. */
    lemma RefuseFromChild(r: nat, entries: seq<Entry>, bytes0: nat, members0: nat, depth: nat, path: Ancestors,
                          childBytes: nat, childMembers: nat)
      requires ArraysHaveLengths(heap) && PrefixUnfolds(heap, heap(r), entries) && |entries| < Arity(heap(r))
      requires var kind := KindOf(heap(r));
               Child(heap(r), |entries|).Some?
               && childBytes <= bytes0 + 1 + EntryBytes(kind, entries) + CommaBytes(entries)
                                + Utf8Length(NamePart(kind, Child(heap(r), |entries|).value.0))
               && childMembers <= members0 + EntryMembers(entries) + 1
      requires Refusable(Child(heap(r), |entries|).value.1, childBytes, childMembers, depth + 1, Ancestor(r, path))
      ensures Refusable(Reference(r), bytes0, members0, depth, path)
    {
      forall t: Json | Unfolds(heap, Reference(r), t)
        ensures !Fits(t, bytes0, members0, depth) || Recurs(t, path)
      {
        RemainingCost(r, entries, t);
        var child := t.entries[|entries|].value;
        assert !Fits(child, childBytes, childMembers, depth + 1) || Recurs(child, Ancestor(r, path));
        if Recurs(child, Ancestor(r, path)) {
          RecursFromChild(r, t, child, path);
        }
      }
    }

    /** The ancestor that recurs in a child is not the parent itself, which is larger. */
    lemma RecursFromChild(r: nat, t: Json, child: Json, path: Ancestors)
      requires ArraysHaveLengths(heap) && Unfolds(heap, Reference(r), t)
      requires Members(child) < Members(t) && Recurs(child, Ancestor(r, path))
      ensures Recurs(t, path)
    {
      var a: nat, whole :| OnPath(a, Ancestor(r, path)) && Unfolds(heap, Reference(a), whole) && Members(whole) <= Members(child);
      if a == r {
        UnfoldingIsUnique(heap, Reference(r), t, whole);
      } else {
        assert OnPath(a, path);
      }
    }

    /** So is a missing, hidden or symbol property, or a budget the next entry overruns. */
    lemma RefuseFromEntry(r: nat, entries: seq<Entry>, bytes0: nat, members0: nat, depth: nat, path: Ancestors, extra: nat)
      requires ArraysHaveLengths(heap) && PrefixUnfolds(heap, heap(r), entries) && |entries| < Arity(heap(r))
      requires var kind := KindOf(heap(r));
               Child(heap(r), |entries|).None?
               || members0 + EntryMembers(entries) + 1 > limits.members
               || (extra <= CommaBytes(entries) + Utf8Length(NamePart(kind, Child(heap(r), |entries|).value.0))
                   && bytes0 + 1 + EntryBytes(kind, entries) + extra > limits.bytes)
      ensures Refusable(Reference(r), bytes0, members0, depth, path)
    {
      forall t: Json | Unfolds(heap, Reference(r), t)
        ensures !Fits(t, bytes0, members0, depth)
      {
        RemainingCost(r, entries, t);
      }
    }

    /** Appending one more entry keeps the progress record. */
    lemma ExtendEntries(kind: Kind, entries: seq<Entry>, e: Entry)
      ensures var more := entries + [e];
              EntryBytes(kind, more) == EntryBytes(kind, entries) + CommaBytes(entries)
                                        + Utf8Length(NamePart(kind, e.name)) + Bytes(e.value)
              && EntryMembers(more) == EntryMembers(entries) + 1 + Members(e.value)
              && EntryDepth(more) == (if Depth(e.value) > EntryDepth(entries) then Depth(e.value) else EntryDepth(entries))
    {
      EntryBytesAppend(kind, entries, e);
      assert (entries + [e])[..|entries|] == entries;
    }

    lemma ExtendText(kind: Kind, entries: seq<Entry>, e: Entry, start: Text)
      ensures start + PrintEntries(kind, entries) + (Separator(entries) + NamePart(kind, e.name)) + Print(e.value)
           == start + PrintEntries(kind, entries + [e])
    {
      PrintEntriesAppend(kind, entries, e);
      Regroup(Separator(entries), NamePart(kind, e.name), Print(e.value));
      Regroup(start + PrintEntries(kind, entries), Separator(entries) + NamePart(kind, e.name), Print(e.value));
      Regroup(start, PrintEntries(kind, entries), Separator(entries) + EntryText(kind, e));
    }

    /** A compound whose brackets alone overrun the budget. */
    lemma RefuseBrackets(r: nat, bytes0: nat, members0: nat, depth: nat, path: Ancestors)
      requires ArraysHaveLengths(heap) && bytes0 + 1 > limits.bytes
      ensures Refusable(Reference(r), bytes0, members0, depth, path)
    {
      forall t: Json | Unfolds(heap, Reference(r), t)
        ensures !Fits(t, bytes0, members0, depth)
      {
        CompoundBytes(t.kind, t.entries);
      }
    }

    /** More properties than members could be left, or an array that is not plain. */
    lemma RefuseLongCompound(r: nat, bytes0: nat, members0: nat, depth: nat, path: Ancestors)
      requires ArraysHaveLengths(heap)
      requires Plain(heap(r)) ==> Arity(heap(r)) > limits.members
      ensures Refusable(Reference(r), bytes0, members0, depth, path)
    {
      forall t: Json | Unfolds(heap, Reference(r), t)
        ensures !Fits(t, bytes0, members0, depth)
      {
        MembersAtLeastEntries(t.entries);
      }
    }

    lemma {:induction false} MembersAtLeastEntries(entries: seq<Entry>)
      ensures EntryMembers(entries) >= |entries|
      decreases |entries|
    {
      if entries != [] {
        MembersAtLeastEntries(entries[..|entries| - 1]);
      }
    }

    /** Every entry is there: the closing bracket completes the unfolding, or overruns. */
    lemma Finish(r: nat, entries: seq<Entry>, bytes0: nat, members0: nat, depth: nat, path: Ancestors)
      requires ArraysHaveLengths(heap) && Plain(heap(r)) && PrefixUnfolds(heap, heap(r), entries) && |entries| == Arity(heap(r))
      ensures var t := Compound(KindOf(heap(r)), entries);
              && Unfolds(heap, Reference(r), t)
              && Bytes(t) == EntryBytes(t.kind, entries) + 2
      ensures bytes0 + EntryBytes(KindOf(heap(r)), entries) + 2 > limits.bytes ==>
                Refusable(Reference(r), bytes0, members0, depth, path)
    {
      var t := Compound(KindOf(heap(r)), entries);
      CompoundBytes(t.kind, entries);
      forall u: Json | Unfolds(heap, Reference(r), u)
        ensures u == t
      {
        UnfoldingIsUnique(heap, Reference(r), u, t);
      }
    }

    /** The separator, and then also the name, of the next entry have been appended. */
    ghost predicate AtEntry(r: nat, entries: seq<Entry>, lead: Text, text0: Text, bytes0: nat, members0: nat, depth: nat)
      reads this
    {
      Valid() && |entries| < Arity(heap(r)) && PrefixUnfolds(heap, heap(r), entries)
      && var kind := KindOf(heap(r));
      && encoded == text0 + [Opening(kind)] + PrintEntries(kind, entries) + lead
      && bytes == bytes0 + 1 + EntryBytes(kind, entries) + Utf8Length(lead)
      && members == members0 + EntryMembers(entries)
      && depth + EntryDepth(entries) <= limits.depth
    }

    method AppendComma(r: nat, index: nat, ghost entries: seq<Entry>, ghost text0: Text, ghost bytes0: nat,
                       ghost members0: nat, depth: nat, ghost path: Ancestors)
      returns (o: Outcome)
      requires InProgress(r, entries, text0, bytes0, members0, depth) && index == |entries| < Arity(heap(r))
      modifies this`bytes, this`encoded
      ensures o.Done? ==> AtEntry(r, entries, Separator(entries), text0, bytes0, members0, depth)
      ensures o.Thrown? ==> Refusable(Reference(r), bytes0, members0, depth, path)
    {
      o := Done;
      if index > 0 {
        o := Append([COMMA]);
        if o.Thrown? {
          RefuseComma(r, entries, bytes0, members0, depth, path);
        }
      } else {
        assert encoded + [] == encoded;
      }
    }

    lemma RefuseComma(r: nat, entries: seq<Entry>, bytes0: nat, members0: nat, depth: nat, path: Ancestors)
      requires ArraysHaveLengths(heap) && PrefixUnfolds(heap, heap(r), entries) && 0 < |entries| < Arity(heap(r))
      requires bytes0 + 1 + EntryBytes(KindOf(heap(r)), entries) + 1 > limits.bytes
      ensures Refusable(Reference(r), bytes0, members0, depth, path)
    {
      forall t: Json | Unfolds(heap, Reference(r), t)
        ensures !Fits(t, bytes0, members0, depth)
      {
        RemainingCost(r, entries, t);
      }
    }

    method AppendName(r: nat, name: Text, ghost entries: seq<Entry>, ghost text0: Text, ghost bytes0: nat,
                      ghost members0: nat, depth: nat, ghost path: Ancestors)
      returns (o: Outcome)
      requires AtEntry(r, entries, Separator(entries), text0, bytes0, members0, depth) && !heap(r).isArray
      requires Child(heap(r), |entries|).Some? && Child(heap(r), |entries|).value.0 == name
      modifies this`bytes, this`encoded
      ensures o.Done? ==> AtEntry(r, entries, Separator(entries) + NamePart(ObjectKind, name), text0, bytes0, members0, depth)
      ensures o.Thrown? ==> Refusable(Reference(r), bytes0, members0, depth, path)
    {
      ghost var before := encoded;
      NamePartBytes(ObjectKind, name);
      JoinPieces(Separator(entries), NamePart(ObjectKind, name));
      o := Append(Quoted(name));
      if o.Thrown? {
        RefuseFromEntry(r, entries, bytes0, members0, depth, path, CommaBytes(entries) + Utf8Length(Quoted(name)));
        return;
      }
      o := Append([COLON]);
      if o.Thrown? {
        RefuseFromEntry(r, entries, bytes0, members0, depth, path, CommaBytes(entries) + Utf8Length(Quoted(name)) + 1);
        return;
      }
      Regroup(before, Quoted(name), [COLON]);
      Regroup(text0 + [Opening(ObjectKind)] + PrintEntries(ObjectKind, entries), Separator(entries), NamePart(ObjectKind, name));
    }

    /** The member is counted and then its value is walked one level deeper. */
    method WalkMember(r: nat, child: (Text, Value), depth: nat, parent: Ancestors, ghost entries: seq<Entry>, ghost text0: Text,
                      ghost bytes0: nat, ghost members0: nat, ghost path: Ancestors)
      returns (o: Outcome, ghost e: Entry)
      requires AtEntry(r, entries, Separator(entries) + NamePart(KindOf(heap(r)), child.0), text0, bytes0, members0, depth)
      requires Child(heap(r), |entries|) == Some(child) && parent == Ancestor(r, path) && depth <= limits.depth
      modifies this
      ensures o.Done? ==> InProgress(r, entries + [e], text0, bytes0, members0, depth)
      ensures o.Thrown? ==> Refusable(Reference(r), bytes0, members0, depth, path)
      ensures visits <= limits.members + 1
      decreases limits.members - members, 0
    {
      ghost var kind := KindOf(heap(r));
      ghost var start := text0 + [Opening(kind)];
      ghost var lead := Separator(entries) + NamePart(kind, child.0);
      LeadBytes(kind, entries, child.0);
      e := Entry(child.0, Null);
      members := members + 1;
      if members > limits.members {
        RefuseFromEntry(r, entries, bytes0, members0, depth, path, 0);
        return Thrown(TooManyMembers), e;
      }
      ghost var childBytes, childMembers := bytes, members;
      ghost var tree;
      o, tree := Walk(child.1, depth + 1, parent);
      if o.Thrown? {
        RefuseFromChild(r, entries, bytes0, members0, depth, path, childBytes, childMembers);
        return;
      }
      e := Entry(child.0, tree);
      ExtendEntries(kind, entries, e);
      ExtendText(kind, entries, e, start);
      ExtendPrefix(r, entries, e);
    }

    lemma ExtendPrefix(r: nat, entries: seq<Entry>, e: Entry)
      requires ArraysHaveLengths(heap) && PrefixUnfolds(heap, heap(r), entries) && EntryUnfolds(heap, heap(r), |entries|, e)
      ensures PrefixUnfolds(heap, heap(r), entries + [e])
    {
      hide EntryUnfolds, Unfolds, ArraysHaveLengths;
    }

    lemma LeadBytes(kind: Kind, entries: seq<Entry>, name: Text)
      requires kind == ArrayKind ==> name == []
      ensures Utf8Length(Separator(entries) + NamePart(kind, name)) == CommaBytes(entries) + Utf8Length(NamePart(kind, name))
    {
      NamePartBytes(kind, name);
      if kind == ObjectKind {
        JoinPieces(Separator(entries), NamePart(kind, name));
      } else {
        assert Separator(entries) + [] == Separator(entries);
      }
    }

    /** The closing bracket completes the unfolding, or overruns the budget. */
    method Close(r: nat, ghost entries: seq<Entry>, ghost text0: Text, ghost bytes0: nat, ghost members0: nat, depth: nat,
                 ghost path: Ancestors)
      returns (o: Outcome)
      requires InProgress(r, entries, text0, bytes0, members0, depth) && Plain(heap(r)) && |entries| == Arity(heap(r))
      modifies this`bytes, this`encoded
      ensures var t := Compound(KindOf(heap(r)), entries);
              o.Done? ==> Unfolds(heap, Reference(r), t) && Appended(t, text0, bytes0, members0, depth)
      ensures o.Thrown? ==> Refusable(Reference(r), bytes0, members0, depth, path)
    {
      ghost var kind := KindOf(heap(r));
      Finish(r, entries, bytes0, members0, depth, path);
      Regroup(text0, [Opening(kind)], PrintEntries(kind, entries));
      Regroup(text0, [Opening(kind)] + PrintEntries(kind, entries), [Closing(kind)]);
      o := Append([Closing(if heap(r).isArray then ArrayKind else ObjectKind)]);
    }

    method WalkArray(item: nat, properties: seq<PropertyKey>, depth: nat, parent: Ancestors, ghost path: Ancestors)
      returns (o: Outcome, ghost t: Json)
      requires Valid() && heap(item).isArray && !heap(item).isProxy && PlainPrototype(heap(item))
      requires properties == heap(item).keys && depth <= limits.depth && parent == Ancestor(item, path)
      modifies this
      ensures o.Done? ==> Unfolds(heap, Reference(item), t)
      ensures o.Done? ==> Appended(t, old(encoded), old(bytes), old(members), depth)
      ensures o.Thrown? ==> Refusable(Reference(item), old(bytes), old(members), depth, path)
      ensures visits <= limits.members + 1
      decreases limits.members - members, 1
    {
      ghost var text0, bytes0, members0 := encoded, bytes, members;
      var count := heap(item).properties[LENGTH].value.n;
      t := Null;
      if count > limits.members || |properties| != count + 1 {
        RefuseLongCompound(item, bytes0, members0, depth, path);
        return Thrown(NotPlainArray), Null;
      }
      o := Append([Opening(ArrayKind)]);
      if o.Thrown? {
        RefuseBrackets(item, bytes0, members0, depth, path);
        return;
      }
      ghost var entries: seq<Entry> := [];
      assert encoded + [] == encoded;
      var index := 0;
      while index < count
        invariant 0 <= index == |entries| <= count
        invariant InProgress(item, entries, text0, bytes0, members0, depth)
        decreases count - index
      {
        o := AppendComma(item, index, entries, text0, bytes0, members0, depth, path);
        if o.Thrown? {
          return;
        }
        var child := Child(heap(item), index);
        if child.None? {
          RefuseFromEntry(item, entries, bytes0, members0, depth, path, 0);
          return Thrown(AccessorOrHole), Null;
        }
        ghost var e;
        assert Separator(entries) + [] == Separator(entries);
        o, e := WalkMember(item, child.value, depth, parent, entries, text0, bytes0, members0, path);
        if o.Thrown? {
          return;
        }
        entries := entries + [e];
        index := index + 1;
      }
      t := Compound(ArrayKind, entries);
      o := Close(item, entries, text0, bytes0, members0, depth, path);
    }

    method WalkObject(item: nat, properties: seq<PropertyKey>, depth: nat, parent: Ancestors, ghost path: Ancestors)
      returns (o: Outcome, ghost t: Json)
      requires Valid() && !heap(item).isArray && !heap(item).isProxy && PlainPrototype(heap(item))
      requires properties == heap(item).keys && depth <= limits.depth && parent == Ancestor(item, path)
      modifies this
      ensures o.Done? ==> Unfolds(heap, Reference(item), t)
      ensures o.Done? ==> Appended(t, old(encoded), old(bytes), old(members), depth)
      ensures o.Thrown? ==> Refusable(Reference(item), old(bytes), old(members), depth, path)
      ensures visits <= limits.members + 1
      decreases limits.members - members, 1
    {
      ghost var text0, bytes0, members0 := encoded, bytes, members;
      t := Null;
      o := Append([Opening(ObjectKind)]);
      if o.Thrown? {
        RefuseBrackets(item, bytes0, members0, depth, path);
        return;
      }
      ghost var entries: seq<Entry> := [];
      assert encoded + [] == encoded;
      var index := 0;
      while index < |properties|
        invariant 0 <= index == |entries| <= |properties|
        invariant InProgress(item, entries, text0, bytes0, members0, depth)
        decreases |properties| - index
      {
        if properties[index].Symbol? {
          RefuseFromEntry(item, entries, bytes0, members0, depth, path, 0);
          return Thrown(SymbolProperty), Null;
        }
        var child := Child(heap(item), index);
        if child.None? {
          RefuseFromEntry(item, entries, bytes0, members0, depth, path, 0);
          return Thrown(AccessorOrHole), Null;
        }
        o := AppendComma(item, index, entries, text0, bytes0, members0, depth, path);
        if o.Thrown? {
          return;
        }
        o := AppendName(item, child.value.0, entries, text0, bytes0, members0, depth, path);
        if o.Thrown? {
          return;
        }
        ghost var e;
        o, e := WalkMember(item, child.value, depth, parent, entries, text0, bytes0, members0, path);
        if o.Thrown? {
          return;
        }
        entries := entries + [e];
        index := index + 1;
      }
      t := Compound(ObjectKind, entries);
      o := Close(item, entries, text0, bytes0, members0, depth, path);
    }

    /** A value without children. */
    method AppendScalar(item: Value, depth: nat, ghost path: Ancestors, piece: Text, ghost t: Json) returns (o: Outcome)
      requires Valid() && Unfolds(heap, item, t) && !t.Compound? && Print(t) == piece && depth <= limits.depth + 1
      modifies this`bytes, this`encoded
      ensures o.Done? ==> Appended(t, old(encoded), old(bytes), old(members), depth)
      ensures o.Thrown? ==> Refusable(item, old(bytes), old(members), depth, path)
    {
      ghost var bytes0 := bytes;
      PrintIsPiece(t);
      o := Append(piece);
      forall u: Json | o.Thrown? && Unfolds(heap, item, u)
        ensures !Fits(u, bytes0, members, depth)
      {
        UnfoldingIsUnique(heap, item, t, u);
      }
    }

    method Walk(item: Value, depth: nat, ancestors: Ancestors) returns (o: Outcome, ghost t: Json)
      requires Valid() && visits <= members && depth <= limits.depth + 1
      modifies this
      ensures o.Done? ==> Unfolds(heap, item, t)
      ensures o.Done? ==> Appended(t, old(encoded), old(bytes), old(members), depth)
      ensures o.Thrown? ==> Refusable(item, old(bytes), old(members), depth, ancestors)
      ensures visits <= limits.members + 1
      decreases limits.members - members, 3
    {
      visits := visits + 1;
      t := Null;
      match item {
        case NullValue =>
          o := AppendScalar(item, depth, ancestors, NULL_TEXT, t);
        case BoolValue(b) =>
          t := Bool(b);
          o := AppendScalar(item, depth, ancestors, if b then TRUE_TEXT else FALSE_TEXT, t);
        case IntegerValue(n) =>
          t := Num(n);
          o := AppendScalar(item, depth, ancestors, NumberText(n), t);
        case StringValue(s) =>
          t := Str(s);
          if |s| > limits.bytes {
            LongText(s);
            return Thrown(TooManyBytes), t;
          }
          o := AppendScalar(item, depth, ancestors, Quoted(s), t);
        case NonFiniteValue => o := Thrown(NotJson);
        case UnsupportedValue => o := Thrown(NotJson);
        case Reference(r) => o, t := WalkReference(r, depth, ancestors);
      }
    }

    method WalkReference(r: nat, depth: nat, ancestors: Ancestors) returns (o: Outcome, ghost t: Json)
      requires Valid() && depth <= limits.depth + 1
      modifies this
      ensures o.Done? ==> Unfolds(heap, Reference(r), t)
      ensures o.Done? ==> Appended(t, old(encoded), old(bytes), old(members), depth)
      ensures o.Thrown? ==> Refusable(Reference(r), old(bytes), old(members), depth, ancestors)
      ensures visits <= limits.members + 1
      decreases limits.members - members, 2
    {
      t := Null;
      var cell := heap(r);
      if cell.isProxy {
        return Thrown(NotJson), t;
      }
      if depth > limits.depth {
        return Thrown(TooDeep), t;
      }
      if !PlainPrototype(cell) {
        return Thrown(NotPlainObject), t;
      }
      var ancestor := ancestors;
      while ancestor != NoAncestor
        invariant forall a: nat :: OnPath(a, ancestor) ==> OnPath(a, ancestors)
        decreases ancestor
      {
        if ancestor.value == r {
          assert OnPath(r, ancestor);
          return Thrown(Cyclic), t;
        }
        ancestor := ancestor.parent;
      }
      var parent := Ancestor(r, ancestors);
      if |cell.keys| > limits.members + 1 {
        RefuseLongCompound(r, bytes, members, depth, ancestors);
        return Thrown(TooManyMembers), t;
      }
      if cell.isArray {
        o, t := WalkArray(r, cell.keys, depth, parent, ancestors);
      } else {
        o, t := WalkObject(r, cell.keys, depth, parent, ancestors);
      }
    }
  }

  /** Quoting never shortens a string. */
  lemma LongText(s: Text)
    ensures Utf8Length(Quoted(s)) >= |s| + 2
  {
    EscapingNeverShortens(s);
    Utf8LengthAtLeastUnits(Quoted(s));
  }

  datatype Encoding = Encoded(text: Text) | Invalid(error: InvalidCodeOutput)

  /** encodeCodeJson: it succeeds exactly on the values that unfold to a tree within the
      limits, and then its text reads back as that tree. */
  method EncodeCodeJson(heap: Heap, value: Value, limits: Limits) returns (r: Encoding)
    requires ArraysHaveLengths(heap)
    ensures r.Encoded? <==> exists t: Json :: Unfolds(heap, value, t) && Within(t, limits)
    ensures r.Encoded? ==> exists t: Json :: Unfolds(heap, value, t) && Within(t, limits) && Parse(r.text) == Some(t)
    ensures r.Encoded? ==> Utf8Length(r.text) <= limits.bytes
  {
    var encoder := new Encoder(heap, limits);
    var o;
    ghost var t;
    o, t := encoder.Walk(value, 1, NoAncestor);
    match o {
      case Thrown(error) =>
        assert forall a: nat :: !OnPath(a, NoAncestor);
        r := Invalid(error);
      case Done =>
        r := Encoded(encoder.encoded);
        assert [] + Print(t) == Print(t);
        UnfoldingIsNameless(heap, value, t);
        PrintThenParse(t);
        assert Within(t, limits);
    }
  }
}
