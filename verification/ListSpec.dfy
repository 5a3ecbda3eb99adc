/** What the list operations of dplist.h mean, on sequences. */
module ListSpec {
  import opened Records

  function Clamp(index: int, max: nat): (k: nat)
    ensures k <= max
    ensures 0 <= index <= max ==> k == index
    ensures index < 0 ==> k == 0
    ensures index > max ==> k == max
  {
    if index < 0 then 0 else if index > max then max else index
  }

  /** Insertion: an index outside the list selects its nearest end. */
  function InsertAt<T>(s: seq<T>, index: int, x: T): (r: seq<T>)
    ensures |r| == |s| + 1
    ensures r[Clamp(index, |s|)] == x
    ensures forall i {:trigger r[i]} :: 0 <= i < |r| && i != Clamp(index, |s|)
              ==> r[i] == if i < Clamp(index, |s|) then s[i] else s[i - 1]
  {
    var k := Clamp(index, |s|);
    s[..k] + [x] + s[k..]
  }

  /** Removal: an index outside the list selects its nearest element. */
  function RemoveAt<T>(s: seq<T>, index: int): (r: seq<T>)
    ensures |r| == if s == [] then 0 else |s| - 1
    ensures forall i {:trigger r[i]} :: 0 <= i < |r|
              ==> r[i] == if i < Clamp(index, |s| - 1) then s[i] else s[i + 1]
  {
    if s == [] then s
    else
      var k := Clamp(index, |s| - 1);
      s[..k] + s[k + 1..]
  }

  ghost predicate Distinct<T>(s: seq<T>)
  {
    forall i, j :: 0 <= i < j < |s| ==> s[i] != s[j]
  }

  ghost function Elements<T>(s: seq<T>): set<T>
  {
    set x | x in s
  }

  lemma RemoveElements<T>(s: seq<T>, k: nat)
    requires Distinct(s) && k < |s|
    ensures Distinct(RemoveAt(s, k))
    ensures Elements(RemoveAt(s, k)) == Elements(s) - {s[k]}
  {
  }

  lemma InsertElements<T>(s: seq<T>, index: int, x: T)
    requires Distinct(s) && x !in s
    ensures Distinct(InsertAt(s, index, x))
    ensures Elements(InsertAt(s, index, x)) == Elements(s) + {x}
  {
  }

  /** Removing what was just inserted, at the index it was inserted at, gives the list back. */
  lemma InsertThenRemove<T>(s: seq<T>, index: int, x: T)
    ensures InsertAt(s, index, x)[Clamp(index, |s|)] == x
    ensures RemoveAt(InsertAt(s, index, x), Clamp(index, |s|)) == s
  {
  }

  // ----- references: a list as a sequence of (reference, element) cells -----

  datatype Cell<R, T> = Cell(reference: R, element: T)

  datatype Op<R, T> = Inserting(index: int, cell: Cell<R, T>) | Removing(index: int)

  ghost function Apply<R, T>(s: seq<Cell<R, T>>, op: Op<R, T>): seq<Cell<R, T>>
  {
    match op
    case Inserting(index, cell) => InsertAt(s, index, cell)
    case Removing(index) => RemoveAt(s, index)
  }

  ghost function ApplyAll<R, T>(s: seq<Cell<R, T>>, ops: seq<Op<R, T>>): seq<Cell<R, T>>
    decreases |ops|
  {
    if ops == [] then s else ApplyAll(Apply(s, ops[0]), ops[1..])
  }

  ghost function Cells<R, T>(references: seq<R>, elements: seq<T>): (cells: seq<Cell<R, T>>)
    requires |references| == |elements|
    ensures |cells| == |references|
  {
    seq(|references|, i requires 0 <= i < |references| => Cell(references[i], elements[i]))
  }

  lemma CellsInsert<R, T>(references: seq<R>, elements: seq<T>, index: int, reference: R, element: T)
    requires |references| == |elements|
    ensures Cells(InsertAt(references, index, reference), InsertAt(elements, index, element))
         == Apply(Cells(references, elements), Inserting(index, Cell(reference, element)))
  {
  }

  lemma CellsRemove<R, T>(references: seq<R>, elements: seq<T>, index: int)
    requires |references| == |elements|
    ensures Cells(RemoveAt(references, index), RemoveAt(elements, index))
         == Apply(Cells(references, elements), Removing(index))
  {
  }

  /** The element found by scanning for a reference (dpl_get_element_at_reference). */
  ghost function Lookup<R, T>(s: seq<Cell<R, T>>, reference: R): (r: Option<T>)
    ensures (forall i | 0 <= i < |s| :: s[i].reference != reference) ==> r.None?
    ensures r.Some? ==> exists i :: 0 <= i < |s| && s[i] == Cell(reference, r.value)
  {
    if s == [] then None
    else if s[0].reference == reference then
      assert s[0] == Cell(reference, s[0].element);
      Some(s[0].element)
    else
      assert forall i | 0 <= i < |s[1..]| :: s[1..][i] == s[i + 1];
      Lookup(s[1..], reference)
  }

  /** In a list of distinct nodes, the node at an index gives the element at that index. */
  lemma {:induction false} ReferenceGivesElement<R, T>(references: seq<R>, elements: seq<T>, k: nat)
    requires |references| == |elements| && Distinct(references) && k < |references|
    ensures Lookup(Cells(references, elements), references[k]) == Some(elements[k])
  {
    var cells := Cells(references, elements);
    if k > 0 {
      assert cells[1..] == Cells(references[1..], elements[1..]);
      ReferenceGivesElement(references[1..], elements[1..], k - 1);
    }
  }

  /** Every inserted node is a new one, and the node `reference` is not the one removed. */
  ghost predicate Spares<R, T>(s: seq<Cell<R, T>>, ops: seq<Op<R, T>>, reference: R)
    decreases |ops|
  {
    ops != [] ==>
      && (match ops[0]
          case Inserting(_, cell) => cell.reference != reference
          case Removing(index) => s != [] ==> s[Clamp(index, |s| - 1)].reference != reference)
      && Spares(Apply(s, ops[0]), ops[1..], reference)
  }

  lemma LookupConcat<R, T>(a: seq<Cell<R, T>>, b: seq<Cell<R, T>>, reference: R)
    ensures Lookup(a + b, reference)
         == if Lookup(a, reference).Some? then Lookup(a, reference) else Lookup(b, reference)
  {
    if a == [] {
      assert a + b == b;
    } else {
      assert (a + b)[1..] == a[1..] + b;
      if a[0].reference != reference {
        LookupConcat(a[1..], b, reference);
      }
    }
  }

  lemma LookupSkip<R, T>(a: seq<Cell<R, T>>, x: Cell<R, T>, b: seq<Cell<R, T>>, reference: R)
    requires x.reference != reference
    ensures Lookup(a + [x] + b, reference) == Lookup(a + b, reference)
  {
    LookupConcat(a + [x], b, reference);
    LookupConcat(a, [x], reference);
    LookupConcat(a, b, reference);
  }

  /** One operation that spares a reference does not change what the reference gives. */
  lemma {:induction false} SparedByOne<R, T>(s: seq<Cell<R, T>>, op: Op<R, T>, reference: R)
    requires match op
             case Inserting(_, cell) => cell.reference != reference
             case Removing(index) => s != [] ==> s[Clamp(index, |s| - 1)].reference != reference
    ensures Lookup(Apply(s, op), reference) == Lookup(s, reference)
  {
    match op
    case Inserting(index, cell) =>
      var k := Clamp(index, |s|);
      LookupSkip(s[..k], cell, s[k..], reference);
      assert s[..k] + s[k..] == s;
    case Removing(index) =>
      if s != [] {
        var k := Clamp(index, |s| - 1);
        LookupSkip(s[..k], s[k], s[k + 1..], reference);
        assert s[..k] + [s[k]] + s[k + 1..] == s;
      }
  }

  /** A reference keeps giving its element through any inserts and any removals of other nodes. */
  lemma {:induction false} ReferenceSurvives<R, T>(s: seq<Cell<R, T>>, ops: seq<Op<R, T>>, reference: R)
    requires Spares(s, ops, reference)
    ensures Lookup(ApplyAll(s, ops), reference) == Lookup(s, reference)
    decreases |ops|
  {
    if ops != [] {
      SparedByOne(s, ops[0], reference);
      ReferenceSurvives(Apply(s, ops[0]), ops[1..], reference);
    }
  }
}
