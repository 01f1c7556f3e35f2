/** How large a printed tree is, and how its size splits over its entries. */
module JsonBounds {
  import opened CodeUnits
  import opened JsonText

  /** bytes, depth and members of JsonBounds. */
  datatype Limits = Limits(bytes: nat, depth: nat, members: nat)

  function Bytes(t: Json): nat { Utf8Length(Print(t)) }

  function EntryBytes(kind: Kind, entries: seq<Entry>): nat { Utf8Length(PrintEntries(kind, entries)) }

  /** Every array element and object property, at every level. */
  function Members(t: Json): nat
    decreases t
  {
    if t.Compound? then EntryMembers(t.entries) else 0
  }

  function EntryMembers(entries: seq<Entry>): nat
    decreases entries
  {
    if entries == [] then 0
    else EntryMembers(entries[..|entries| - 1]) + 1 + Members(entries[|entries| - 1].value)
  }

  /** How many arrays and objects enclose the innermost value. */
  function Depth(t: Json): nat
    decreases t
  {
    if t.Compound? then 1 + EntryDepth(t.entries) else 0
  }

  function EntryDepth(entries: seq<Entry>): nat
    decreases entries
  {
    if entries == [] then 0
    else
      var front, last := EntryDepth(entries[..|entries| - 1]), Depth(entries[|entries| - 1].value);
      if last > front then last else front
  }

  /** Pieces of JSON text begin and end in ASCII, so none splits a surrogate pair. */
  predicate Piece(s: Text) { s != [] && s[0] < 0x80 && s[|s| - 1] < 0x80 }

  lemma JoinPieces(a: Text, b: Text)
    requires !EndsHigh(a) && Piece(b)
    ensures Utf8Length(a + b) == Utf8Length(a) + Utf8Length(b) && !EndsHigh(a + b)
  {
    Utf8LengthOfConcatenation(a, b);
  }

  lemma {:induction false} PrintIsPiece(t: Json)
    ensures Piece(Print(t))
  {
    PrintStart(t);
  }

  lemma {:induction false} EntriesEndCleanly(kind: Kind, entries: seq<Entry>)
    ensures !EndsHigh(PrintEntries(kind, entries))
  {
    if entries != [] {
      var front, last := entries[..|entries| - 1], entries[|entries| - 1];
      assert entries == front + [last];
      PrintEntriesAppend(kind, front, last);
      PrintIsPiece(last.value);
    }
  }

  lemma NamePartBytes(kind: Kind, name: Text)
    ensures kind == ObjectKind ==>
      Utf8Length(NamePart(kind, name)) == Utf8Length(Quoted(name)) + 1 && Piece(Quoted(name)) && Piece(NamePart(kind, name))
  {
    if kind == ObjectKind {
      JoinPieces(Quoted(name), [COLON]);
    }
  }

  lemma EntryTextBytes(kind: Kind, e: Entry)
    ensures Utf8Length(EntryText(kind, e)) == Utf8Length(NamePart(kind, e.name)) + Bytes(e.value)
    ensures Piece(EntryText(kind, e))
  {
    PrintIsPiece(e.value);
    NamePartBytes(kind, e.name);
    if kind == ArrayKind {
      assert EntryText(kind, e) == Print(e.value);
    } else {
      JoinPieces(NamePart(kind, e.name), Print(e.value));
    }
  }

  function CommaBytes(front: seq<Entry>): nat { if front == [] then 0 else 1 }

  function Separator(front: seq<Entry>): Text { if front == [] then [] else [COMMA] }

  lemma EntryBytesAppend(kind: Kind, front: seq<Entry>, last: Entry)
    ensures EntryBytes(kind, front + [last])
         == EntryBytes(kind, front) + CommaBytes(front) + Utf8Length(NamePart(kind, last.name)) + Bytes(last.value)
  {
    PrintEntriesAppend(kind, front, last);
    EntriesEndCleanly(kind, front);
    EntryTextBytes(kind, last);
    if front == [] {
      assert [] + EntryText(kind, last) == EntryText(kind, last);
      JoinPieces([], EntryText(kind, last));
    } else {
      JoinPieces([COMMA], EntryText(kind, last));
      JoinPieces(PrintEntries(kind, front), [COMMA] + EntryText(kind, last));
    }
  }

  /** An array or object takes two bytes more than its entries. */
  lemma CompoundBytes(kind: Kind, entries: seq<Entry>)
    ensures Bytes(Compound(kind, entries)) == EntryBytes(kind, entries) + 2
  {
    var inside := PrintEntries(kind, entries);
    EntriesEndCleanly(kind, entries);
    Utf8LengthOfConcatenation([Opening(kind)], inside);
    JoinPieces([Opening(kind)] + inside, [Closing(kind)]);
  }

  /** No entry can be left out of the bill: each prefix and the entry after it are paid for. */
  lemma {:induction false} PrefixCosts(kind: Kind, entries: seq<Entry>, i: nat)
    requires i < |entries|
    ensures EntryBytes(kind, entries) >= EntryBytes(kind, entries[..i]) + CommaBytes(entries[..i])
                                         + Utf8Length(NamePart(kind, entries[i].name)) + Bytes(entries[i].value)
    ensures EntryMembers(entries) >= EntryMembers(entries[..i]) + 1 + Members(entries[i].value)
    ensures EntryDepth(entries) >= Depth(entries[i].value)
    decreases |entries|
  {
    var front, last := entries[..|entries| - 1], entries[|entries| - 1];
    assert entries == front + [last];
    EntryBytesAppend(kind, front, last);
    if i < |front| {
      assert front[..i] == entries[..i];
      PrefixCosts(kind, front, i);
    }
  }
}
