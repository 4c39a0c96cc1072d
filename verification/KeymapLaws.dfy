/** What the edits of a keyboard layout do to an ordered key list, which edits undo which, and when order is lost. */
module KeymapLaws {
  import opened Bytes
  import opened Keymap
  import opened Sequences

  function Pos(row: int, col: int): int { 0x100 * row + col }

  function PosOf(k: Key): int { Pos(k.row, k.col) }

  /** Strictly ordered by row, then column. */
  predicate Ordered(km: seq<Key>) { forall i, j :: 0 <= i < j < |km| ==> PosOf(km[i]) < PosOf(km[j]) }

  // ---------------------------------------------------------------- the edits on an ordered list

  lemma {:induction false} SlotIs(km: seq<Key>, k: Key, i: nat)
    requires i <= |km|
    ensures forall j :: i <= j < Slot(km, k, i) ==> PosOf(km[j]) < PosOf(k)
    ensures Slot(km, k, i) < |km| ==> PosOf(k) <= PosOf(km[Slot(km, k, i)])
    decreases |km| - i
  {
    if i < |km| && Slot(km, k, i) != i { SlotIs(km, k, i + 1); }
  }

  function Rights(km: seq<Key>, row: Byte): (r: seq<Key>)
    ensures |r| == |km| && forall j :: 0 <= j < |km| ==> r[j] == Right(km[j], row)
  {
    seq(|km|, j requires 0 <= j < |km| => Right(km[j], row))
  }

  /** From its slot on, every key is at or after `k`, row by row. */
  lemma AfterSlot(km: seq<Key>, k: Key)
    requires Ordered(km)
    ensures var i := Slot(km, k, 0);
            && (forall j :: 0 <= j < i ==> PosOf(km[j]) < PosOf(k))
            && (forall j :: i <= j < |km| ==> PosOf(k) <= PosOf(km[j]))
            && (forall j, l :: i <= j < l < |km| ==> km[j].row <= km[l].row)
  {
    var i := Slot(km, k, 0);
    SlotIs(km, k, 0);
    forall j | i <= j < |km| ensures PosOf(k) <= PosOf(km[j]) { assert i < j ==> PosOf(km[i]) < PosOf(km[j]); }
    forall j, l | i <= j < l < |km| ensures km[j].row <= km[l].row { assert PosOf(km[j]) < PosOf(km[l]); }
  }

  /** `k` is at or before every key of `b`, which go row by row. */
  predicate Tail(b: seq<Key>, k: Key) {
    && (forall j :: 0 <= j < |b| ==> PosOf(k) <= PosOf(b[j]))
    && (forall j, l :: 0 <= j < l < |b| ==> b[j].row <= b[l].row)
  }

  lemma TailAt(km: seq<Key>, k: Key)
    requires Ordered(km)
    ensures Tail(km[Slot(km, k, 0)..], k)
  {
    hide Ordered, PosOf;
    AfterSlot(km, k);
  }

  lemma RightsFront(b: seq<Key>, row: Byte)
    requires b != []
    ensures Rights(b, row) == [Right(b[0], row)] + Rights(b[1..], row)
  {
    hide Right;
  }

  lemma RightsBelow(b: seq<Key>, row: Byte)
    requires forall j :: 0 <= j < |b| ==> b[j].row > row
    ensures Rights(b, row) == b
  {
  }

  lemma TailFirst(b: seq<Key>, k: Key)
    requires Tail(b, k) && b != []
    ensures Tail(b[1..], k) && (b[0].row == k.row ==> b[0].col >= k.col)
    ensures b[0].row > k.row ==> forall j :: 0 <= j < |b| ==> b[j].row > k.row
  {
  }

  lemma {:induction false} ShiftRightIs(a: seq<Key>, b: seq<Key>, k: Key)
    requires Tail(b, k)
    ensures ShiftRight(a + b, k, |a|) == a + Rights(b, k.row)
    decreases |b|
  {
    hide Tail, Rights, Right;
    if b == [] {
      RightsBelow(b, k.row);
      assert a + b == a;
    } else {
      TailFirst(b, k);
      RightsFront(b, k.row);
      var x := Right(b[0], k.row);
      if b[0].row > k.row {
        RightsBelow(b, k.row);
      } else {
        RightOther(b[0], k.row);
        assert (a + b)[|a| := x] == a + [x] + b[1..];
        assert b[0].row != k.row ==> a + b == (a + b)[|a| := x];
        ShiftRightIs(a + [x], b[1..], k);
        assert a + [x] + Rights(b[1..], k.row) == a + ([x] + Rights(b[1..], k.row));
      }
    }
  }

  lemma RightOther(k: Key, row: Byte)
    ensures k.row != row ==> Right(k, row) == k
  {
  }

  /** A key is added unless it is unused and has keys after it. */
  predicate Adds(km: seq<Key>, k: Key) { Slot(km, k, 0) == |km| || k.name != "" }

  lemma InsertedIs(km: seq<Key>, k: Key)
    requires Ordered(km)
    ensures var i := Slot(km, k, 0);
            Inserted(km, k) == km[..i] + (if Adds(km, k) then [k] else []) + Rights(km[i..], k.row)
  {
    hide ShiftRight, Ordered, Rights, Tail, Slot;
    var i := Slot(km, k, 0);
    TailAt(km, k);
    assert km == km[..i] + km[i..];
    if i == |km| {
      RightsBelow(km[i..], k.row);
      assert km[..i] == km && km[i..] == [];
    } else if k.name == "" {
      ShiftRightIs(km[..i], km[i..], k);
      assert km[..i] + [] == km[..i];
    } else {
      ShiftRightIs(km[..i] + [k], km[i..], k);
    }
  }

  // ---------------------------------------------------------------- removing undoes inserting

  lemma {:induction false} RemovedSkips(km: seq<Key>, row: Byte, col: Byte, i: nat, n: nat)
    requires i <= n <= |km| && forall j :: i <= j < n ==> PosOf(km[j]) < Pos(row, col)
    ensures Removed(km, row, col, i) == Removed(km, row, col, n)
    decreases n - i
  {
    if i < n {
      assert PosOf(km[i]) < Pos(row, col);
      RemovedSkips(km, row, col, i + 1, n);
    }
  }

  /** The keys of row `row` come first in `b`. */
  predicate RowFirst(b: seq<Key>, row: Byte) {
    forall j, l :: 0 <= j < l < |b| && b[l].row == row ==> b[j].row == row
  }

  lemma ShiftLeftStep(km: seq<Key>, row: Byte, i: nat)
    requires i <= |km|
    ensures ShiftLeft(km, row, i) == if i == |km| || km[i].row != row then km
                                     else ShiftLeft(km[i := Left(km[i], row)], row, i + 1)
  {
  }

  lemma LeftRight(k: Key, row: Byte)
    ensures Left(Right(k, row), row) == k && Right(k, row).row == k.row
  {
  }

  lemma RowFirstRest(b: seq<Key>, row: Byte)
    requires RowFirst(b, row) && b != []
    ensures RowFirst(b[1..], row)
  {
  }

  /** Shifting a tail left again. */
  lemma {:induction false} ShiftBack(a: seq<Key>, b: seq<Key>, row: Byte)
    requires RowFirst(b, row)
    ensures ShiftLeft(a + Rights(b, row), row, |a|) == a + b
    decreases |b|
  {
    hide Rights, Right, Left, ShiftLeft;
    var t := a + Rights(b, row);
    if b == [] {
      RightsBelow(b, row);
      ShiftLeftStep(t, row, |a|);
      assert a + b == a;
    } else {
      RightsFront(b, row);
      LeftRight(b[0], row);
      assert t[|a|] == Right(b[0], row);
      ShiftLeftStep(t, row, |a|);
      if b[0].row == row {
        Replaced(a, Right(b[0], row), Rights(b[1..], row), b[0]);
        RowFirstRest(b, row);
        ShiftBack(a + [b[0]], b[1..], row);
        assert a + [b[0]] + b[1..] == a + b;
      } else {
        RightsOther(b, row);
      }
    }
  }

  lemma RightsOther(b: seq<Key>, row: Byte)
    requires forall j :: 0 <= j < |b| ==> b[j].row != row
    ensures Rights(b, row) == b
  {
  }

  /** The keys before the slot of an insertion are skipped by the removal at the same place. */
  lemma RemoveAtSlot(km: seq<Key>, k: Key, rest: seq<Key>)
    requires Ordered(km)
    ensures var i := Slot(km, k, 0);
            Removed(km[..i] + rest, k.row, k.col, 0) == Removed(km[..i] + rest, k.row, k.col, i)
  {
    var i := Slot(km, k, 0);
    AfterSlot(km, k);
    assert forall j :: 0 <= j < i ==> (km[..i] + rest)[j] == km[j];
    RemovedSkips(km[..i] + rest, k.row, k.col, 0, i);
  }

  lemma {:induction false} RemovedNothing(km: seq<Key>, row: Byte, col: Byte, i: nat)
    requires i <= |km| && forall j :: i <= j < |km| ==> km[j].row != row
    ensures Removed(km, row, col, i) == km
    decreases |km| - i
  {
    if i < |km| { RemovedNothing(km, row, col, i + 1); }
  }

  lemma TailRowFirst(b: seq<Key>, k: Key)
    requires Tail(b, k)
    ensures RowFirst(b, k.row)
    ensures b != [] && b[0].row != k.row ==> forall j :: 0 <= j < |b| ==> b[j].row != k.row
  {
    forall j, l | 0 <= j < l < |b| && b[l].row == k.row ensures b[j].row == k.row {
      assert PosOf(k) <= PosOf(b[j]);
    }
    if b != [] && b[0].row != k.row { assert PosOf(k) <= PosOf(b[0]); }
  }

  lemma RemovedAt(km: seq<Key>, row: Byte, col: Byte, i: nat)
    requires i < |km|
    ensures km[i].row == row && km[i].col == col ==>
              Removed(km, row, col, i) == ShiftLeft(km[..i] + km[i + 1..], row, i)
    ensures km[i].row == row && col < km[i].col ==> Removed(km, row, col, i) == ShiftLeft(km, row, i)
    ensures km[i].row == row && col > km[i].col ==> Removed(km, row, col, i) == Removed(km, row, col, i + 1)
  {
  }

  lemma UndoNamed(a: seq<Key>, b: seq<Key>, k: Key)
    requires Tail(b, k)
    ensures Removed(a + [k] + Rights(b, k.row), k.row, k.col, |a|) == a + b
  {
    hide Rights, Tail, ShiftLeft, Removed, RowFirst;
    var t := a + [k] + Rights(b, k.row);
    TailRowFirst(b, k);
    SpliceOut(a, k, Rights(b, k.row));
    RemovedAt(t, k.row, k.col, |a|);
    ShiftBack(a, b, k.row);
  }

  lemma UndoOtherRow(a: seq<Key>, b: seq<Key>, k: Key)
    requires Tail(b, k) && b != [] && b[0].row != k.row
    ensures Removed(a + Rights(b, k.row), k.row, k.col, |a|) == a + b
  {
    hide Tail, Removed, Rights;
    TailRowFirst(b, k);
    RightsOther(b, k.row);
    assert forall j :: |a| <= j < |a + b| ==> (a + b)[j] == b[j - |a|];
    RemovedNothing(a + b, k.row, k.col, |a|);
  }

  lemma UndoShift(a: seq<Key>, b: seq<Key>, k: Key)
    requires Tail(b, k) && b != [] && b[0].row == k.row && b[0].col != 0xFF
    ensures Removed(a + Rights(b, k.row), k.row, k.col, |a|) == a + b
  {
    hide Tail, Removed, ShiftLeft, RowFirst;
    var t := a + Rights(b, k.row);
    TailFirst(b, k);
    TailRowFirst(b, k);
    assert t[|a|] == Right(b[0], k.row);
    RemovedAt(t, k.row, k.col, |a|);
    hide Rights;
    ShiftBack(a, b, k.row);
  }

  lemma NoneAfter(b: seq<Key>)
    requires Ordered(b) && b != [] && b[0].col == 0xFF
    ensures forall j :: 0 <= j < |b[1..]| ==> b[1..][j].row != b[0].row
  {
    forall j | 0 <= j < |b[1..]| ensures b[1..][j].row != b[0].row { OrderedAt(b, 0, j + 1); }
  }

  lemma HitShortens(t: seq<Key>, row: Byte, col: Byte, i: nat)
    requires i < |t| && t[i].row == row && t[i].col == col
    ensures |Removed(t, row, col, i)| == |t| - 1
  {
  }

  lemma PassedStays(t: seq<Key>, row: Byte, col: Byte, i: nat)
    requires i < |t| && t[i].row == row && t[i].col < col && forall j :: i < j < |t| ==> t[j].row != row
    ensures Removed(t, row, col, i) == t
  {
    RemovedNothing(t, row, col, i + 1);
  }

  /** The wrapped key is taken for the removed one, or passed over. */
  lemma UndoWrappedKey(a: seq<Key>, y: Key, rest: seq<Key>, k: Key)
    requires y.row == k.row && y.col == 0xFF && forall j :: 0 <= j < |rest| ==> rest[j].row != k.row
    ensures Removed(a + [y.(col := 0)] + rest, k.row, k.col, |a|) != a + [y] + rest
  {
    hide Removed;
    var x := y.(col := 0);
    var t := a + [x] + rest;
    IndexOf(a, x, rest);
    IndexOf(a, y, rest);
    if k.col == 0 { HitShortens(t, k.row, k.col, |a|); } else { PassedStays(t, k.row, k.col, |a|); }
  }

  lemma WrappedRights(b: seq<Key>, row: Byte)
    requires Ordered(b) && b != [] && b[0].row == row && b[0].col == 0xFF
    ensures Rights(b, row) == [b[0].(col := 0)] + b[1..]
  {
    hide Rights, Ordered;
    NoneAfter(b);
    RightsFront(b, row);
    RightsOther(b[1..], row);
  }

  lemma UndoWrapped(a: seq<Key>, b: seq<Key>, k: Key)
    requires Ordered(b) && b != [] && b[0].row == k.row && b[0].col == 0xFF
    ensures Removed(a + Rights(b, k.row), k.row, k.col, |a|) != a + b
  {
    NoneAfter(b);
    WrappedRights(b, k.row);
    var y, rest, shifted := b[0], b[1..], Rights(b, k.row);
    assert b == [y] + rest;
    hide *;
    Assoc(a, [y.(col := 0)], rest);
    Assoc(a, [y], rest);
    UndoWrappedKey(a, y, rest, k);
  }

  /** Removing at the place of an insertion undoes it, for unused keys and for rows that wrap around as well, except
      when an unused key is inserted right before a key in column 255 of its row. */
  lemma RemoveUndoesInsertIff(km: seq<Key>, k: Key)
    requires Ordered(km)
    ensures var i := Slot(km, k, 0);
            Removed(Inserted(km, k), k.row, k.col, 0) == km <==>
            !(k.name == "" && i < |km| && km[i].row == k.row && km[i].col == 0xFF)
  {
    hide Ordered, Slot, Inserted, Removed, Rights, Tail;
    var i := Slot(km, k, 0);
    var a, b := km[..i], km[i..];
    InsertedIs(km, k);
    TailAt(km, k);
    assert km == a + b;
    if Adds(km, k) {
      RemoveAtSlot(km, k, [k] + Rights(b, k.row));
      assert a + [k] + Rights(b, k.row) == a + ([k] + Rights(b, k.row));
      UndoNamed(a, b, k);
    } else {
      RemoveAtSlot(km, k, Rights(b, k.row));
      assert a + [] == a;
      if b[0].row != k.row {
        UndoOtherRow(a, b, k);
      } else if b[0].col != 0xFF {
        UndoShift(a, b, k);
      } else {
        OrderedTail(km, i);
        UndoWrapped(a, b, k);
      }
    }
  }

  lemma OrderedTail(km: seq<Key>, i: nat)
    requires Ordered(km) && i <= |km|
    ensures Ordered(km[i..])
  {
  }

  // ---------------------------------------------------------------- the position map

  /** What a key holds besides its place. */
  function Content(k: Key): Key { k.(row := 0, col := 0) }

  /** The position map: linear lookup, as in GetKeyValueAt and GetKeyNameAt. */
  function At(km: seq<Key>, row: nat, col: nat): Option<Key> {
    match Find(km, row, col, 0)
    case None => None
    case Some(i) => Some(Content(km[i]))
  }

  lemma AtIndex(km: seq<Key>, i: nat)
    requires Ordered(km) && i < |km|
    ensures At(km, km[i].row, km[i].col) == Some(Content(km[i]))
  {
    var r := Find(km, km[i].row, km[i].col, 0);
    assert r.Some?;
    assert PosOf(km[r.value]) == PosOf(km[i]);
  }

  lemma AtNothing(km: seq<Key>, row: nat, col: nat)
    requires forall j :: 0 <= j < |km| ==> km[j].row != row || km[j].col != col
    ensures At(km, row, col) == None
  {
  }

  /** Some key of the row would leave column 255. */
  predicate Wraps(km: seq<Key>, k: Key) { exists j :: 0 <= j < |km| && km[j].row == k.row && km[j].col == 0xFF }

  /** The map after "insert and shift right": key contents from column `k.col` on move one column right. */
  function ShiftedRight(km: seq<Key>, k: Key, row: nat, col: nat): Option<Key> {
    if row != k.row || col < k.col then At(km, row, col)
    else if col == k.col then (if Adds(km, k) then Some(Content(k)) else None)
    else At(km, row, col - 1)
  }

  /** Where the keys of the old list are in the new one. */
  lemma InsertedIndex(km: seq<Key>, k: Key, t: seq<Key>, i: nat, d: nat)
    requires Ordered(km) && t == Inserted(km, k) && i == Slot(km, k, 0) && d == if Adds(km, k) then 1 else 0
    ensures i <= |km| && |t| == |km| + d && (d == 1 ==> t[i] == k)
    ensures forall j :: 0 <= j < i ==> t[j] == km[j]
    ensures forall j :: i <= j < |km| ==> t[j + d] == Right(km[j], k.row)
  {
    hide Inserted, Right, Ordered, Slot;
    InsertedIs(km, k);
  }

  lemma RightPos(km: seq<Key>, k: Key, j: nat)
    requires !Wraps(km, k) && j < |km|
    ensures var x := Right(km[j], k.row);
            && x.row == km[j].row && x.col == (if x.row == k.row then km[j].col + 1 else km[j].col)
            && Content(x) == Content(km[j])
  {
  }

  lemma RightGrows(km: seq<Key>, k: Key, j: nat, l: nat)
    requires Ordered(km) && !Wraps(km, k) && j < l < |km|
    ensures PosOf(Right(km[j], k.row)) < PosOf(Right(km[l], k.row))
  {
    hide Wraps, Ordered, Right;
    OrderedAt(km, j, l);
    RightPos(km, k, j);
    RightPos(km, k, l);
  }

  lemma RightAbove(km: seq<Key>, k: Key, j: nat)
    requires Ordered(km) && !Wraps(km, k) && Slot(km, k, 0) <= j < |km|
    ensures PosOf(km[j]) <= PosOf(Right(km[j], k.row)) && PosOf(k) < PosOf(Right(km[j], k.row))
  {
    hide Wraps, Ordered, Right, Slot;
    AfterSlot(km, k);
    RightPos(km, k, j);
    assert PosOf(k) <= PosOf(km[j]);
  }

  lemma OrderedAt(km: seq<Key>, j: nat, l: nat)
    requires Ordered(km) && j < l < |km|
    ensures PosOf(km[j]) < PosOf(km[l])
  {
  }

  lemma InsertKeepsOrder(km: seq<Key>, k: Key)
    requires Ordered(km) && !Wraps(km, k)
    ensures Ordered(Inserted(km, k))
  {
    hide Inserted, Right, Slot, Wraps, PosOf;
    var t, i, d := Inserted(km, k), Slot(km, k, 0), if Adds(km, k) then 1 else 0;
    InsertedIndex(km, k, t, i, d);
    AfterSlot(km, k);
    forall p, q | 0 <= p < q < |t| ensures PosOf(t[p]) < PosOf(t[q]) {
      if q >= i + d {
        assert t[q - d + d] == t[q];
        RightAbove(km, k, q - d);
        if p >= i + d {
          assert t[p - d + d] == t[p];
          RightGrows(km, k, p - d, q - d);
        } else if p < i {
          OrderedAt(km, p, q - d);
        }
      } else if q < i {
        OrderedAt(km, p, q);
      }
    }
  }

  lemma InsertShifts(km: seq<Key>, k: Key, row: nat, col: nat)
    requires Ordered(km) && !Wraps(km, k)
    ensures At(Inserted(km, k), row, col) == ShiftedRight(km, k, row, col)
  {
    hide Inserted, Right, Slot, Wraps, Ordered, At;
    var t, i, d := Inserted(km, k), Slot(km, k, 0), if Adds(km, k) then 1 else 0;
    InsertedIndex(km, k, t, i, d);
    InsertKeepsOrder(km, k);
    AfterSlot(km, k);
    var from := if row == k.row && col > k.col then col - 1 else col;
    if row == k.row && col == k.col {
      if d == 1 {
        AtIndex(t, i);
      } else {
        forall q | 0 <= q < |t| ensures t[q].row != row || t[q].col != col {
          if q < i { assert PosOf(km[q]) < PosOf(k); } else { RightAbove(km, k, q); }
        }
        AtNothing(t, row, col);
      }
    } else if j :| 0 <= j < |km| && km[j].row == row && km[j].col == from {
      AtIndex(km, j);
      if j < i {
        assert PosOf(km[j]) < PosOf(k);
        AtIndex(t, j);
      } else {
        assert PosOf(k) <= PosOf(km[j]);
        RightPos(km, k, j);
        AtIndex(t, j + d);
      }
    } else {
      AtNothing(km, row, from);
      forall q | 0 <= q < |t| ensures t[q].row != row || t[q].col != col {
        if q < i {
          assert PosOf(km[q]) < PosOf(k);
        } else if q >= i + d {
          assert t[q - d + d] == t[q] && PosOf(k) <= PosOf(km[q - d]);
          RightPos(km, k, q - d);
        }
      }
      AtNothing(t, row, col);
    }
  }

  ghost predicate IsShiftedRight(km: seq<Key>, k: Key, t: seq<Key>) {
    forall row: nat, col: nat :: At(t, row, col) == ShiftedRight(km, k, row, col)
  }

  lemma WrapBreaks(km: seq<Key>, k: Key)
    requires Ordered(km) && Wraps(km, k) && Ordered(Inserted(km, k))
    ensures At(Inserted(km, k), k.row, 0) != ShiftedRight(km, k, k.row, 0)
  {
    hide Inserted, Slot, Ordered, At;
    var t, i, d := Inserted(km, k), Slot(km, k, 0), if Adds(km, k) then 1 else 0;
    InsertedIndex(km, k, t, i, d);
    AfterSlot(km, k);
    var j :| 0 <= j < |km| && km[j].row == k.row && km[j].col == 0xFF;
    assert PosOf(km[j]) < PosOf(k) ==> j < i;
    assert t[j + d].row == k.row && t[j + d].col == 0;
    AtIndex(t, j + d);
    if k.col == 0 {
      if d == 1 { OrderedAt(t, i, j + 1); }
    } else if m :| 0 <= m < |km| && km[m].row == k.row && km[m].col == 0 {
      assert PosOf(km[m]) < PosOf(k);
      OrderedAt(t, m, j + d);
    } else {
      AtNothing(km, k.row, 0);
    }
  }

  /** InsertKey keeps the strict order and implements "shift right" on the position map if and only if no key of the
      row is in column 255. */
  lemma InsertIsShiftIff(km: seq<Key>, k: Key)
    requires Ordered(km)
    ensures Ordered(Inserted(km, k)) && IsShiftedRight(km, k, Inserted(km, k)) <==> !Wraps(km, k)
  {
    hide Inserted, Ordered, Wraps, At, ShiftedRight;
    if Wraps(km, k) {
      if Ordered(Inserted(km, k)) { WrapBreaks(km, k); }
    } else {
      InsertKeepsOrder(km, k);
      forall row: nat, col: nat ensures At(Inserted(km, k), row, col) == ShiftedRight(km, k, row, col) {
        InsertShifts(km, k, row, col);
      }
    }
  }

  // ---------------------------------------------------------------- removing shifts left

  function Lefts(km: seq<Key>, row: Byte): (r: seq<Key>)
    ensures |r| == |km| && forall j :: 0 <= j < |km| ==> r[j] == Left(km[j], row)
  {
    seq(|km|, j requires 0 <= j < |km| => Left(km[j], row))
  }

  lemma LeftsOther(b: seq<Key>, row: Byte)
    requires forall j :: 0 <= j < |b| ==> b[j].row != row
    ensures Lefts(b, row) == b
  {
  }

  lemma {:induction false} ShiftLeftIs(a: seq<Key>, b: seq<Key>, row: Byte)
    requires RowFirst(b, row)
    ensures ShiftLeft(a + b, row, |a|) == a + Lefts(b, row)
    decreases |b|
  {
    hide Left, Lefts, ShiftLeft;
    ShiftLeftStep(a + b, row, |a|);
    if b == [] {
      LeftsOther(b, row);
      assert a + b == a;
    } else if b[0].row == row {
      var x := Left(b[0], row);
      assert b == [b[0]] + b[1..];
      Replaced(a, b[0], b[1..], x);
      RowFirstRest(b, row);
      ShiftLeftIs(a + [x], b[1..], row);
      assert a + [x] + Lefts(b[1..], row) == a + ([x] + Lefts(b[1..], row));
    } else {
      LeftsOther(b, row);
    }
  }

  function PlaceKey(row: Byte, col: Byte): Key { Key(0, row, col, 0, "", 0) }

  /** Does the key at the slot sit exactly at the place? */
  predicate Hit(km: seq<Key>, row: Byte, col: Byte, i: nat) { i < |km| && km[i].row == row && km[i].col == col }

  lemma RemovedIs(km: seq<Key>, row: Byte, col: Byte, i: nat)
    requires Ordered(km) && i == Slot(km, PlaceKey(row, col), 0)
    ensures Removed(km, row, col, 0) == km[..i] + Lefts(km[if Hit(km, row, col, i) then i + 1 else i..], row)
  {
    hide Ordered, Slot, Tail, Removed, ShiftLeft, RowFirst, Lefts;
    var k := PlaceKey(row, col);
    var a, b := km[..i], km[i..];
    assert km == a + b;
    TailAt(km, k);
    TailRowFirst(b, k);
    RemoveAtSlot(km, k, b);
    if b == [] || b[0].row != row {
      LeftsOther(b, row);
      RemovedNothing(km, row, col, i);
    } else {
      TailFirst(b, k);
      RemovedAt(km, row, col, i);
      if b[0].col == col {
        RowFirstRest(b, row);
        assert km[i + 1..] == b[1..];
        ShiftLeftIs(a, b[1..], row);
      } else {
        ShiftLeftIs(a, b, row);
      }
    }
  }

  lemma AroundPlace(km: seq<Key>, row: Byte, col: Byte, i: nat, d: nat)
    requires Ordered(km) && i == Slot(km, PlaceKey(row, col), 0) && d == if Hit(km, row, col, i) then 1 else 0
    ensures forall j :: 0 <= j < i ==> PosOf(km[j]) < Pos(row, col)
    ensures forall j :: i + d <= j < |km| ==> PosOf(km[j]) > Pos(row, col)
  {
    hide Slot;
    AfterSlot(km, PlaceKey(row, col));
    forall j | i + d <= j < |km| ensures PosOf(km[j]) > Pos(row, col) { if i < j { OrderedAt(km, i, j); } }
  }

  lemma RemovedIndex(km: seq<Key>, row: Byte, col: Byte, t: seq<Key>, i: nat, d: nat)
    requires Ordered(km) && t == Removed(km, row, col, 0) && i == Slot(km, PlaceKey(row, col), 0)
    requires d == if Hit(km, row, col, i) then 1 else 0
    ensures i + d <= |km| && |t| == |km| - d && (forall j :: 0 <= j < i ==> t[j] == km[j])
    ensures forall j :: i + d <= j < |km| ==> t[j - d] == Left(km[j], row)
  {
    hide Removed, Left, Slot, Ordered, PosOf;
    RemovedIs(km, row, col, i);
    TailLefts(km, row, t, i, d);
  }

  lemma TailLefts(km: seq<Key>, row: Byte, t: seq<Key>, i: nat, d: nat)
    requires i + d <= |km| && t == km[..i] + Lefts(km[i + d..], row)
    ensures |t| == |km| - d && (forall j :: 0 <= j < i ==> t[j] == km[j])
    ensures forall j :: i + d <= j < |km| ==> t[j - d] == Left(km[j], row)
  {
    hide Left;
    forall j | i + d <= j < |km| ensures t[j - d] == Left(km[j], row) {
      var q := j - (i + d);
      assert t[i + q] == Lefts(km[i + d..], row)[q] && km[i + d..][q] == km[j];
    }
  }

  lemma LeftPos(x: Key, row: Byte, col: Byte)
    requires PosOf(x) > Pos(row, col)
    ensures var y := Left(x, row);
            && y.row == x.row && y.col == (if x.row == row then x.col - 1 else x.col) && Content(y) == Content(x)
            && PosOf(y) >= Pos(row, col)
  {
  }

  lemma LeftGrows(km: seq<Key>, row: Byte, col: Byte, j: nat, l: nat)
    requires Ordered(km) && j < l < |km| && PosOf(km[j]) > Pos(row, col)
    ensures PosOf(Left(km[j], row)) < PosOf(Left(km[l], row))
  {
    hide Ordered, Left;
    OrderedAt(km, j, l);
    LeftPos(km[j], row, col);
    LeftPos(km[l], row, col);
  }

  lemma RemoveKeepsOrder(km: seq<Key>, row: Byte, col: Byte)
    requires Ordered(km)
    ensures Ordered(Removed(km, row, col, 0))
  {
    hide Removed, Left, Slot, PosOf;
    var i := Slot(km, PlaceKey(row, col), 0);
    var t, d := Removed(km, row, col, 0), if Hit(km, row, col, i) then 1 else 0;
    RemovedIndex(km, row, col, t, i, d);
    AroundPlace(km, row, col, i, d);
    forall p, q | 0 <= p < q < |t| ensures PosOf(t[p]) < PosOf(t[q]) {
      if q >= i {
        assert t[q + d - d] == t[q];
        LeftPos(km[q + d], row, col);
        if p >= i {
          assert t[p + d - d] == t[p];
          LeftGrows(km, row, col, p + d, q + d);
        }
      }
    }
  }

  /** RemoveKey keeps the strict order and implements "remove and shift left" on the position map. */
  lemma RemoveShiftsLeft(km: seq<Key>, row: Byte, col: Byte, r: nat, c: nat)
    requires Ordered(km)
    ensures Ordered(Removed(km, row, col, 0))
    ensures At(Removed(km, row, col, 0), r, c) == if r == row && c >= col then At(km, r, c + 1) else At(km, r, c)
  {
    hide Removed, Left, Slot, Ordered, At;
    var i := Slot(km, PlaceKey(row, col), 0);
    var t, d := Removed(km, row, col, 0), if Hit(km, row, col, i) then 1 else 0;
    RemovedIndex(km, row, col, t, i, d);
    AroundPlace(km, row, col, i, d);
    RemoveKeepsOrder(km, row, col);
    var from := if r == row && c >= col then c + 1 else c;
    if j :| 0 <= j < |km| && km[j].row == r && km[j].col == from {
      AtIndex(km, j);
      if j < i {
        AtIndex(t, j);
      } else {
        LeftPos(km[j], row, col);
        AtIndex(t, j - d);
      }
    } else {
      AtNothing(km, r, from);
      forall q | 0 <= q < |t| ensures t[q].row != r || t[q].col != c {
        if q >= i {
          assert t[q + d - d] == t[q];
          LeftPos(km[q + d], row, col);
        } else {
          assert PosOf(km[q]) < Pos(row, col);
        }
      }
      AtNothing(t, r, c);
    }
  }

  // ---------------------------------------------------------------- where the edits fall short

  const LAST_COLUMN := Key(0, 0, 0xFF, 1, "A", 0)

  /** The key in column 255 comes round to the place of the inserted one. */
  lemma InsertWraps()
    ensures var k := LAST_COLUMN.(col := 0, name := "B");
            Inserted([LAST_COLUMN], k) == [k, LAST_COLUMN.(col := 0)] && !Ordered(Inserted([LAST_COLUMN], k))
  {
    var k := LAST_COLUMN.(col := 0, name := "B");
    assert Slot([LAST_COLUMN], k, 0) == 0;
    InsertedIs([LAST_COLUMN], k);
    assert Rights([LAST_COLUMN], 0) == [LAST_COLUMN.(col := 0)];
    var t := Inserted([LAST_COLUMN], k);
    assert t == [k, LAST_COLUMN.(col := 0)];
    assert PosOf(t[0]) == PosOf(t[1]);
  }

  /** Undoing the insertion of an unused key takes the key away that has come round. */
  lemma UndoTakesWrapped()
    ensures var k := LAST_COLUMN.(col := 0, name := "");
            Inserted([LAST_COLUMN], k) == [LAST_COLUMN.(col := 0)] && Removed(Inserted([LAST_COLUMN], k), 0, 0, 0) == []
  {
    var k := LAST_COLUMN.(col := 0, name := "");
    assert Slot([LAST_COLUMN], k, 0) == 0;
    InsertedIs([LAST_COLUMN], k);
    assert Rights([LAST_COLUMN], 0) == [LAST_COLUMN.(col := 0)];
    assert Inserted([LAST_COLUMN], k) == [LAST_COLUMN.(col := 0)];
  }
}
