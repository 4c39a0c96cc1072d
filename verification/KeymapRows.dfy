/** Whole rows, swaps, and the dense map of a keyboard layout. */
module KeymapRows {
  import opened Bytes
  import opened Keymap
  import opened KeymapLaws
  import opened Sequences

  // ---------------------------------------------------------------- rows

  lemma {:induction false} RowSlotIs(km: seq<Key>, row: Byte, i: nat)
    requires i <= |km|
    ensures forall j :: i <= j < RowSlot(km, row, i) ==> km[j].row < row
    ensures RowSlot(km, row, i) < |km| ==> row <= km[RowSlot(km, row, i)].row
    decreases |km| - i
  {
    if i < |km| && km[i].row < row { RowSlotIs(km, row, i + 1); }
  }

  lemma RowsGrow(km: seq<Key>, j: nat, l: nat)
    requires Ordered(km) && j <= l < |km|
    ensures km[j].row <= km[l].row
  {
    if j < l { OrderedAt(km, j, l); }
  }

  lemma {:induction false} WithoutSkips(km: seq<Key>, row: Byte, i: nat, n: nat)
    requires i <= n <= |km| && forall j :: i <= j < n ==> km[j].row < row
    ensures Without(km, row, i) == Without(km, row, n)
    decreases n - i
  {
    if i < n { WithoutSkips(km, row, i + 1, n); }
  }

  lemma {:induction false} WithoutErases(a: seq<Key>, b: seq<Key>, c: seq<Key>, row: Byte)
    requires (forall j :: 0 <= j < |b| ==> b[j].row == row) && (c != [] ==> c[0].row > row)
    ensures Without(a + b + c, row, |a|) == (a + c, |a|)
    decreases |b|
  {
    var t := a + b + c;
    if b == [] {
      assert t == a + c;
    } else {
      assert t[|a|] == b[0] && t[..|a|] + t[|a| + 1..] == a + b[1..] + c;
      WithoutErases(a, b[1..], c, row);
    }
  }

  lemma UpDown(km: seq<Key>, i: nat)
    requires i <= |km|
    ensures Ups(Downs(km, i), i) == km
  {
  }

  /** Removing the row just inserted restores the list, even where later rows wrap around, unless the first key moved
      was in row 255. */
  lemma RemoveRowUndoesIff(km: seq<Key>, rows: Byte, row: Byte)
    requires Ordered(km) && row < rows && RowSlot(km, row, 0) < |km|
    ensures RowInserted(km, rows, row) == Some(Downs(km, RowSlot(km, row, 0)))
    ensures RowRemoved(Downs(km, RowSlot(km, row, 0)), rows, row) == Some(km) <==> km[RowSlot(km, row, 0)].row != 0xFF
  {
    hide Ordered, RowSlot, Without, Ups;
    var i := RowSlot(km, row, 0);
    var t := Downs(km, i);
    RowSlotIs(km, row, 0);
    WithoutSkips(t, row, 0, i);
    if km[i].row != 0xFF {
      assert t[i].row > row;
      WithoutErases(t[..i], [], t[i..], row);
      assert t == t[..i] + [] + t[i..] && t == t[..i] + t[i..];
      UpDown(km, i);
    } else {
      forall j | i <= j < |t| ensures t[j].row == 0 { RowsGrow(km, i, j); }
      if row > 0 {
        WithoutSkips(t, row, i, |t|);
        WithoutEnd(t, row);
      } else {
        WithoutErases(t[..i], t[i..], [], row);
        assert t == t[..i] + t[i..] + [];
      }
    }
  }

  lemma WithoutEnd(km: seq<Key>, row: Byte)
    ensures Without(km, row, |km|) == (km, |km|)
  {
  }

  lemma {:induction false} MaxRowIs(km: seq<Key>)
    ensures forall j :: 0 <= j < |km| ==> km[j].row <= MaxRow(km)
    ensures km != [] ==> exists j :: 0 <= j < |km| && km[j].row == MaxRow(km)
  {
    if km != [] {
      var n := |km| - 1;
      MaxRowIs(km[..n]);
      if km[n].row <= MaxRow(km[..n]) && n > 0 {
        var j :| 0 <= j < n && km[..n][j].row == MaxRow(km[..n]);
        assert km[j].row == MaxRow(km);
      }
    }
  }

  lemma {:induction false} MaxColIs(km: seq<Key>)
    ensures forall j :: 0 <= j < |km| ==> km[j].col <= MaxCol(km)
    ensures km != [] ==> exists j :: 0 <= j < |km| && km[j].col == MaxCol(km)
  {
    if km != [] {
      var n := |km| - 1;
      MaxColIs(km[..n]);
      if km[n].col <= MaxCol(km[..n]) && n > 0 {
        var j :| 0 <= j < n && km[..n][j].col == MaxCol(km[..n]);
        assert km[j].col == MaxCol(km);
      }
    }
  }

  /** With current dimensions, InsertRow stays inside the list unless the list is empty, and RemoveRow undoes every
      insertion of a row that exists. */
  lemma CurrentRowsUndo(km: seq<Key>, row: Byte)
    requires Ordered(km)
    ensures var rows := Next(MaxRow(km));
            && (RowInserted(km, rows, row).None? <==> km == [] && row == 0)
            && (km != [] && row < rows ==> RowRemoved(RowInserted(km, rows, row).value, rows, row) == Some(km))
  {
    hide Ordered, RowSlot, RowRemoved;
    var rows := Next(MaxRow(km));
    MaxRowIs(km);
    RowSlotIs(km, row, 0);
    if row < rows && km != [] {
      var m :| 0 <= m < |km| && km[m].row == MaxRow(km);
      assert row <= km[m].row;
      RemoveRowUndoesIff(km, rows, row);
    }
  }

  lemma DownPos(km: seq<Key>, i: nat, j: nat)
    requires i <= |km| && j < |km| && km[j].row != 0xFF
    ensures var x := Downs(km, i)[j];
            x.row == (if j < i then km[j].row else km[j].row + 1) && x.col == km[j].col && Content(x) == Content(km[j])
  {
  }

  /** The map after "insert a row": it is empty and the rows from it on are one further down. */
  function ShiftedDown(km: seq<Key>, row: Byte, r: nat, c: nat): Option<Key> {
    if r < row then At(km, r, c) else if r == row then None else At(km, r - 1, c)
  }

  lemma InsertRowShifts(km: seq<Key>, row: Byte, r: nat, c: nat)
    requires Ordered(km) && forall j :: 0 <= j < |km| ==> km[j].row != 0xFF
    ensures var t := Downs(km, RowSlot(km, row, 0));
            Ordered(t) && At(t, r, c) == ShiftedDown(km, row, r, c)
  {
    hide Ordered, RowSlot, Downs, At;
    var i := RowSlot(km, row, 0);
    var t := Downs(km, i);
    RowSlotIs(km, row, 0);
    forall j | i <= j < |km| ensures km[j].row >= row { RowsGrow(km, i, j); }
    DownsOrdered(km, i);
    var from := if r > row then r - 1 else r;
    if r == row {
      forall q | 0 <= q < |t| ensures t[q].row != r || t[q].col != c { DownPos(km, i, q); }
      AtNothing(t, r, c);
    } else if j :| 0 <= j < |km| && km[j].row == from && km[j].col == c {
      AtIndex(km, j);
      DownPos(km, i, j);
      AtIndex(t, j);
    } else {
      AtNothing(km, from, c);
      forall q | 0 <= q < |t| ensures t[q].row != r || t[q].col != c { DownPos(km, i, q); }
      AtNothing(t, r, c);
    }
  }

  ghost predicate IsShiftedDown(km: seq<Key>, row: Byte, t: seq<Key>) {
    forall r: nat, c: nat :: At(t, r, c) == ShiftedDown(km, row, r, c)
  }

  /** InsertRow keeps the strict order, empties the row and moves the later ones down if and only if no key is in row
      255. */
  lemma InsertRowShiftsIff(km: seq<Key>, rows: Byte, row: Byte, t: seq<Key>)
    requires Ordered(km) && row < rows && RowInserted(km, rows, row) == Some(t)
    ensures Ordered(t) && IsShiftedDown(km, row, t) <==> forall j :: 0 <= j < |km| ==> km[j].row != 0xFF
  {
    hide Ordered, RowSlot, Downs, At, ShiftedDown;
    if forall j :: 0 <= j < |km| ==> km[j].row != 0xFF {
      assert t == Downs(km, RowSlot(km, row, 0));
      forall r: nat, c: nat
        ensures At(t, r, c) == ShiftedDown(km, row, r, c)
      {
        InsertRowShifts(km, row, r, c);
      }
      InsertRowShifts(km, row, 0, 0);
      assert IsShiftedDown(km, row, t);
    } else {
      var j :| 0 <= j < |km| && km[j].row == 0xFF;
      AtIndex(km, j);
      AtNothing(t, 0x100, km[j].col);
      RowLost(km, row, t, j);
    }
  }

  lemma RowLost(km: seq<Key>, row: Byte, t: seq<Key>, j: nat)
    requires j < |km| && km[j].row == 0xFF && At(km, 0xFF, km[j].col).Some? && At(t, 0x100, km[j].col) == None
    ensures !IsShiftedDown(km, row, t)
  {
    hide At;
    assert At(t, 0x100, km[j].col) != ShiftedDown(km, row, 0x100, km[j].col);
  }

  lemma DownsOrdered(km: seq<Key>, i: nat)
    requires Ordered(km) && i <= |km| && forall j :: 0 <= j < |km| ==> km[j].row != 0xFF
    ensures Ordered(Downs(km, i))
  {
    hide Downs;
    var t := Downs(km, i);
    forall p, q | 0 <= p < q < |t| ensures PosOf(t[p]) < PosOf(t[q]) {
      DownPos(km, i, p);
      DownPos(km, i, q);
    }
  }

  /** The keys of one row lie together. */
  lemma RowSplit(km: seq<Key>, row: Byte) returns (a: seq<Key>, b: seq<Key>, c: seq<Key>)
    requires Ordered(km)
    ensures km == a + b + c
    ensures (forall j :: 0 <= j < |a| ==> a[j].row < row) && (forall j :: 0 <= j < |b| ==> b[j].row == row)
    ensures forall j :: 0 <= j < |c| ==> c[j].row > row
  {
    hide RowSlot, Ordered;
    var i := RowSlot(km, row, 0);
    RowSlotIs(km, row, 0);
    var e := if row == 0xFF then |km| else RowSlot(km, row + 1, i);
    if row != 0xFF { RowSlotIs(km, row + 1, i); }
    a, b, c := km[..i], km[i..e], km[e..];
    forall j | i <= j < e ensures km[j].row == row { RowsGrow(km, i, j); }
    forall j | e <= j < |km| ensures km[j].row > row { RowsGrow(km, e, j); }
    Slices(km, i, e);
  }

  lemma WithoutRow(km: seq<Key>, row: Byte, a: seq<Key>, b: seq<Key>, c: seq<Key>)
    requires km == a + b + c && (forall j :: 0 <= j < |a| ==> a[j].row < row)
    requires (forall j :: 0 <= j < |b| ==> b[j].row == row) && (forall j :: 0 <= j < |c| ==> c[j].row > row)
    ensures Without(km, row, 0) == (a + c, |a|)
  {
    assert forall j :: 0 <= j < |a| ==> km[j] == a[j];
    WithoutSkips(km, row, 0, |a|);
    WithoutErases(a, b, c, row);
  }

  /** With current dimensions, RemoveRow reads past the end of the list if and only if it removes the last row (or the
      only row of an empty list). */
  lemma RemoveRowPastEndIff(km: seq<Key>, row: Byte)
    requires Ordered(km)
    ensures RowRemoved(km, Next(MaxRow(km)), row).None? <==> row < Next(MaxRow(km)) && row == MaxRow(km)
  {
    hide Ordered, Without;
    var a, b, c := RowSplit(km, row);
    WithoutRow(km, row, a, b, c);
    MaxRowIs(km);
    hide MaxRow;
    if km != [] {
      var m :| 0 <= m < |km| && km[m].row == MaxRow(km);
      LowerRows(km, a, b, c, row, m);
      if c != [] { HigherRow(km, a, b, c, row); }
    }
  }

  lemma HigherRow(km: seq<Key>, a: seq<Key>, b: seq<Key>, c: seq<Key>, row: Byte)
    requires km == a + b + c && c != [] && c[0].row > row
    ensures row < MaxRow(km)
  {
    MaxRowIs(km);
    assert km[|a + b|] == c[0];
  }

  lemma LowerRows(km: seq<Key>, a: seq<Key>, b: seq<Key>, c: seq<Key>, row: Byte, m: nat)
    requires km == a + b + c && m < |km| && (forall j :: 0 <= j < |a| ==> a[j].row < row)
    requires forall j :: 0 <= j < |b| ==> b[j].row == row
    ensures km[m].row > row ==> m >= |a| + |b|
  {
    if m < |a| { assert km[m] == a[m]; } else if m < |a| + |b| { assert km[m] == b[m - |a|]; }
  }

  lemma UpsAt(c: seq<Key>, r: nat, col: nat)
    requires forall j :: 0 <= j < |c| ==> c[j].row > 0
    ensures At(Ups(c, 0), r, col) == At(c, r + 1, col)
  {
    var t := Ups(c, 0);
    var x, y := Find(t, r, col, 0), Find(c, r + 1, col, 0);
    assert forall j :: 0 <= j < |c| ==> t[j].row == c[j].row - 1 && t[j].col == c[j].col;
  }

  lemma BelowAbsent(km: seq<Key>, row: int, r: nat, col: nat)
    requires (forall j :: 0 <= j < |km| ==> km[j].row < row) && r >= row
    ensures At(km, r, col) == None
  {
  }

  lemma AboveAbsent(km: seq<Key>, row: int, r: nat, col: nat)
    requires (forall j :: 0 <= j < |km| ==> km[j].row > row) && r <= row
    ensures At(km, r, col) == None
  {
  }

  lemma UpsJoined(a: seq<Key>, c: seq<Key>)
    ensures Ups(a + c, |a|) == a + Ups(c, 0)
  {
  }

  lemma UpsOrdered(km: seq<Key>, row: Byte, a: seq<Key>, b: seq<Key>, c: seq<Key>)
    requires Ordered(km) && km == a + b + c && (forall j :: 0 <= j < |a| ==> a[j].row < row)
    requires forall j :: 0 <= j < |c| ==> c[j].row > row
    ensures Ordered(a + Ups(c, 0))
  {
    hide Ordered, Ups;
    var t, n := a + Ups(c, 0), |a|;
    forall p, q | 0 <= p < q < |t| ensures PosOf(t[p]) < PosOf(t[q]) {
      if q < n {
        assert km[p] == a[p] && km[q] == a[q];
        OrderedAt(km, p, q);
      } else {
        UpPos(c, q - n);
        if p >= n {
          UpPos(c, p - n);
          assert km[p + |b|] == c[p - n] && km[q + |b|] == c[q - n];
          OrderedAt(km, p + |b|, q + |b|);
        }
      }
    }
    OrderedIf(t);
  }

  lemma UpPos(c: seq<Key>, j: nat)
    requires j < |c| && c[j].row > 0
    ensures Ups(c, 0)[j].row == c[j].row - 1 && Ups(c, 0)[j].col == c[j].col
  {
  }

  lemma OrderedIf(km: seq<Key>)
    requires forall i, j :: 0 <= i < j < |km| ==> PosOf(km[i]) < PosOf(km[j])
    ensures Ordered(km)
  {
  }

  /** Removing a row moves the rows after it up by one. */
  lemma RemoveRowShifts(km: seq<Key>, rows: Byte, row: Byte, r: nat, col: nat)
    requires Ordered(km) && row < rows && RowRemoved(km, rows, row).Some?
    ensures var t := RowRemoved(km, rows, row).value;
            Ordered(t) && At(t, r, col) == if r < row then At(km, r, col) else At(km, r + 1, col)
  {
    hide Ordered, Without, At, Ups;
    var a, b, c := RowSplit(km, row);
    WithoutRow(km, row, a, b, c);
    assert c != [] && (a + c)[|a|] == c[0];
    UpsJoined(a, c);
    UpsOrdered(km, row, a, b, c);
    UpsAt(c, r, col);
    AtConcat(a, Ups(c, 0), r, col);
    var from := if r < row then r else r + 1;
    AtConcat(a + b, c, from, col);
    AtConcat(a, b, from, col);
    if r < row {
      AboveAbsent(b, row - 1, r, col);
      AboveAbsent(c, row, r, col);
      AboveAbsent(c, row, r + 1, col);
    } else {
      BelowAbsent(a, row, r, col);
      BelowAbsent(a, row, r + 1, col);
      BelowAbsent(b, row + 1, r + 1, col);
    }
  }

  // ---------------------------------------------------------------- swaps

  /** The place is free, with keys before and after it. */
  predicate FreeBetween(km: seq<Key>, k: Key) {
    && (forall j :: 0 <= j < |km| ==> km[j].row != k.row || km[j].col != k.col)
    && (exists j :: 0 <= j < |km| && PosOf(km[j]) < PosOf(k)) && (exists j :: 0 <= j < |km| && PosOf(k) < PosOf(km[j]))
  }

  lemma {:induction false} SwapSkips(km: seq<Key>, k: Key, i: nat, n: nat)
    requires i <= n <= |km| && forall j :: i <= j < n ==> PosOf(km[j]) < PosOf(k)
    ensures SwappedFrom(km, k, i) == SwappedFrom(km, k, n)
    decreases n - i
  {
    if i < n {
      assert PosOf(km[i]) < PosOf(k);
      SwapSkips(km, k, i + 1, n);
    }
  }

  lemma SwapAt(km: seq<Key>, k: Key, i: nat)
    requires Ordered(km) && i == Slot(km, k, 0)
    ensures SwappedFrom(km, k, 0) ==
            if i == |km| then km
            else if PosOf(km[i]) == PosOf(k) then
              if k.name == "" then km[..i] + km[i + 1..] else km[i := km[i].(name := k.name, value := k.value)]
            else if k.name == "" then km else if i == 0 then [k] + km else km[..i - 1] + [k] + km[i - 1..]
  {
    hide Slot, Ordered;
    AfterSlot(km, k);
    SwapSkips(km, k, 0, i);
    if i < |km| { assert PosOf(k) <= PosOf(km[i]); }
  }

  lemma SwapOrder(km: seq<Key>, k: Key, i: nat)
    requires Ordered(km) && km != [] && i == Slot(km, k, 0)
    ensures Ordered(SwappedFrom(km, k, 0)) <==>
            !(k.name != "" && 0 < i < |km| && PosOf(k) < PosOf(km[i]))
  {
    hide SwappedFrom, Slot;
    SwapAt(km, k, i);
    AfterSlot(km, k);
    var t := SwappedFrom(km, k, 0);
    if k.name != "" && 0 < i < |km| && PosOf(k) < PosOf(km[i]) {
      assert t[i - 1] == k && t[i] == km[i - 1];
      assert PosOf(km[i - 1]) < PosOf(k);
    }
  }

  /** SwapKey keeps the strict order if and only if it is not given a named key for a free place between two keys:
      that key goes one slot too early. */
  lemma SwapKeepsOrderIff(km: seq<Key>, k: Key)
    requires Ordered(km)
    ensures Ordered(Swapped(km, k)) <==> !(k.name != "" && FreeBetween(km, k))
  {
    hide SwappedFrom, Slot;
    var i := Slot(km, k, 0);
    if km != [] {
      SwapOrder(km, k, i);
      AfterSlot(km, k);
      if 0 < i < |km| && PosOf(k) < PosOf(km[i]) {
        assert PosOf(km[i - 1]) < PosOf(k);
        forall j | 0 <= j < |km| ensures km[j].row != k.row || km[j].col != k.col {
          if j >= i { assert PosOf(km[i]) <= PosOf(km[j]) by { if i < j { OrderedAt(km, i, j); } } }
        }
      }
    }
  }

  lemma AtConcat(a: seq<Key>, b: seq<Key>, row: nat, col: nat)
    ensures At(a + b, row, col) == if At(a, row, col).Some? then At(a, row, col) else At(b, row, col)
  {
    var whole, first, second := Find(a + b, row, col, 0), Find(a, row, col, 0), Find(b, row, col, 0);
    if first.Some? {
      assert (a + b)[first.value] == a[first.value];
    } else if second.Some? {
      assert (a + b)[|a| + second.value] == b[second.value];
    }
  }

  lemma AtInsert(a: seq<Key>, x: Key, b: seq<Key>, row: nat, col: nat)
    ensures At(a + [x] + b, row, col) ==
            if At(a, row, col).Some? then At(a, row, col)
            else if x.row == row && x.col == col then Some(Content(x)) else At(b, row, col)
  {
    AtConcat(a + [x], b, row, col);
    AtConcat(a, [x], row, col);
  }

  predicate HasLater(km: seq<Key>, k: Key) { exists j :: 0 <= j < |km| && PosOf(k) < PosOf(km[j]) }

  lemma AtNoneOf(km: seq<Key>, k: Key)
    requires forall j :: 0 <= j < |km| ==> PosOf(km[j]) < PosOf(k)
    ensures At(km, k.row, k.col) == None && !HasLater(km, k)
  {
    AtNothing(km, k.row, k.col);
  }

  /** SwapKey changes the position map at its own place only: an unused key empties it, a named one renames a key that
      is there and fills a free place, but only before some other key or in an empty list. */
  lemma SwapChangesOnePlace(km: seq<Key>, k: Key, row: nat, col: nat)
    requires Ordered(km)
    ensures At(Swapped(km, k), row, col) ==
            if row != k.row || col != k.col then At(km, row, col)
            else if k.name == "" && km != [] then None
            else if At(km, row, col).Some? then Some(At(km, row, col).value.(name := k.name, value := k.value))
            else if km == [] || HasLater(km, k) then Some(Content(k))
            else None
  {
    hide SwappedFrom, Slot, At, Ordered, HasLater, PosOf;
    var i := Slot(km, k, 0);
    if km == [] {
      AtInsert([], k, [], row, col);
      assert [] + [k] + [] == [k];
      AtNothing([], row, col);
    } else {
      SwapAt(km, k, i);
      AfterSlot(km, k);
      if i == |km| {
        AtNoneOf(km, k);
      } else if PosOf(km[i]) == PosOf(k) {
        SwapOccupied(km, k, i, row, col);
      } else {
        assert HasLater(km, k) by { LaterAt(km, k, i); }
        SwapFree(km, k, i, row, col);
        assert km[..0] + [k] + km[0..] == [k] + km;
      }
    }
  }

  lemma LaterAt(km: seq<Key>, k: Key, i: nat)
    requires i < |km| && PosOf(k) < PosOf(km[i])
    ensures HasLater(km, k)
  {
  }

  lemma SwapOccupied(km: seq<Key>, k: Key, i: nat, row: nat, col: nat)
    requires Ordered(km) && i < |km| && PosOf(km[i]) == PosOf(k)
    ensures var x := km[i].(name := k.name, value := k.value);
            var t := if k.name == "" then km[..i] + km[i + 1..] else km[i := x];
            At(t, row, col) == if row != k.row || col != k.col then At(km, row, col)
                               else if k.name == "" then None else Some(Content(x))
    ensures row == k.row && col == k.col ==> At(km, row, col) == Some(Content(km[i]))
  {
    hide At;
    var a, c := km[..i], km[i + 1..];
    var x := km[i].(name := k.name, value := k.value);
    assert km == a + [km[i]] + c && km[i := x] == a + [x] + c;
    AtInsert(a, km[i], c, row, col);
    AtInsert(a, x, c, row, col);
    AtConcat(a, c, row, col);
    if row == k.row && col == k.col {
      forall j | 0 <= j < |a| ensures a[j].row != row || a[j].col != col { OrderedAt(km, j, i); }
      forall j | 0 <= j < |c| ensures c[j].row != row || c[j].col != col { OrderedAt(km, i, i + 1 + j); }
      AtNothing(a, row, col);
      AtNothing(c, row, col);
    }
  }

  lemma NotThere(km: seq<Key>, k: Key, i: nat)
    requires Ordered(km) && i < |km| && i == Slot(km, k, 0) && PosOf(k) < PosOf(km[i])
    ensures forall j :: 0 <= j < |km| ==> km[j].row != k.row || km[j].col != k.col
  {
    AfterSlot(km, k);
    forall j | 0 <= j < |km| ensures km[j].row != k.row || km[j].col != k.col {
      if j > i { OrderedAt(km, i, j); }
    }
  }

  lemma SwapFree(km: seq<Key>, k: Key, i: nat, row: nat, col: nat)
    requires Ordered(km) && i < |km| && i == Slot(km, k, 0) && PosOf(k) < PosOf(km[i])
    ensures var m := if i == 0 then 0 else i - 1;
            var t := if k.name == "" then km else km[..m] + [k] + km[m..];
            At(t, row, col) ==
            if (row != k.row || col != k.col) || k.name == "" then At(km, row, col) else Some(Content(k))
    ensures row == k.row && col == k.col ==> At(km, row, col) == None
  {
    hide At, Slot, Ordered;
    var m := if i == 0 then 0 else i - 1;
    AtInsert(km[..m], k, km[m..], row, col);
    AtConcat(km[..m], km[m..], row, col);
    assert km == km[..m] + km[m..];
    if row == k.row && col == k.col {
      NotThere(km, k, i);
      AtNothing(km, row, col);
      AtNothing(km[..m], row, col);
    }
  }

  // ---------------------------------------------------------------- the dense map

  lemma {:induction false} LastOnly(km: seq<Key>, row: nat, col: nat, i: nat)
    requires i < |km| && km[i].row == row && km[i].col == col
    requires forall j :: i < j < |km| ==> km[j].row != row || km[j].col != col
    ensures LastAt(km, row, col) == Some(i)
  {
  }

  /** The map shows, at every place, the key that lookup finds there, if and only if no two keys share a place. */
  lemma MapIsLookupIff(km: seq<Key>)
    ensures (forall row: nat, col: nat :: LastAt(km, row, col) == Find(km, row, col, 0)) <==> Apart(km)
  {
    if Apart(km) {
      forall row: nat, col: nat ensures LastAt(km, row, col) == Find(km, row, col, 0) {
        var first := Find(km, row, col, 0);
        if first.Some? { LastOnly(km, row, col, first.value); }
      }
    } else {
      var i, j :| 0 <= i < j < |km| && km[i].row == km[j].row && km[i].col == km[j].col;
      var first, last := Find(km, km[i].row, km[i].col, 0), LastAt(km, km[i].row, km[i].col);
      assert first.value <= i && last.value >= j;
      var row: nat, col: nat := km[i].row, km[i].col;
      assert LastAt(km, row, col) != Find(km, row, col, 0);
    }
  }

  lemma OrderedApart(km: seq<Key>)
    requires Ordered(km)
    ensures Apart(km)
  {
    forall i, j | 0 <= i < j < |km| ensures km[i].row != km[j].row || km[i].col != km[j].col { OrderedAt(km, i, j); }
  }

  /** In an ordered list map and lookup agree at every place, so that all edits that keep the order keep them together:
      the cell shows the one key of its place. */
  lemma OrderedMapIsLookup(km: seq<Key>, i: nat)
    requires Ordered(km) && i < |km|
    ensures LastAt(km, km[i].row, km[i].col) == Find(km, km[i].row, km[i].col, 0) == Some(i)
    ensures forall row: nat, col: nat :: LastAt(km, row, col) == Find(km, row, col, 0)
  {
    OrderedApart(km);
    MapIsLookupIff(km);
    var row: nat, col: nat := km[i].row, km[i].col;
    assert LastAt(km, row, col) == Find(km, row, col, 0);
  }

  lemma RowsHoldIff(km: seq<Key>)
    ensures (forall i :: 0 <= i < |km| ==> km[i].row < Next(MaxRow(km))) <==>
            (forall i :: 0 <= i < |km| ==> km[i].row != 0xFF)
  {
    hide MaxRow;
    MaxRowIs(km);
    if km != [] {
      var m :| 0 <= m < |km| && km[m].row == MaxRow(km);
    }
  }

  lemma ColsHoldIff(km: seq<Key>)
    ensures (forall i :: 0 <= i < |km| ==> km[i].col < Next(MaxCol(km))) <==>
            (forall i :: 0 <= i < |km| ==> km[i].col != 0xFF)
  {
    hide MaxCol;
    MaxColIs(km);
    if km != [] {
      var m :| 0 <= m < |km| && km[m].col == MaxCol(km);
    }
  }

  /** Current dimensions hold every key if and only if no key is in row 255 or column 255. */
  lemma DimensionsHoldIff(km: seq<Key>)
    ensures Inside(km, Next(MaxRow(km)), Next(MaxCol(km))) <==>
            forall i :: 0 <= i < |km| ==> km[i].row != 0xFF && km[i].col != 0xFF
  {
    hide MaxRow, MaxCol, Next;
    RowsHoldIff(km);
    ColsHoldIff(km);
  }

  /** With current dimensions GetKeyMap writes only inside height times width if and only if no key is in row 255 or
      column 255; otherwise a dimension comes round to 0, and every key is written past the map. */
  lemma MapWritesInsideIff(km: seq<Key>)
    ensures var height, width := Next(MaxRow(km)), Next(MaxCol(km));
            && ((forall i :: 0 <= i < |km| ==> Offset(km[i].row, km[i].col, width) < Area(height, width)) <==>
                (forall i :: 0 <= i < |km| ==> km[i].row != 0xFF && km[i].col != 0xFF))
            && (!(forall i :: 0 <= i < |km| ==> km[i].row != 0xFF && km[i].col != 0xFF) ==> Area(height, width) == 0)
  {
    hide Offset, Area, MaxRow, MaxCol;
    var height, width := Next(MaxRow(km)), Next(MaxCol(km));
    DimensionsHoldIff(km);
    if Inside(km, height, width) {
      forall i | 0 <= i < |km| ensures Offset(km[i].row, km[i].col, width) < Area(height, width) {
        OffsetInside(km[i].row, km[i].col, height, width);
      }
    } else {
      MaxRowIs(km);
      MaxColIs(km);
      var i :| 0 <= i < |km| && (km[i].row == 0xFF || km[i].col == 0xFF);
      NoArea(height, width);
    }
  }

  lemma NoArea(height: Byte, width: Byte)
    requires height == 0 || width == 0
    ensures Area(height, width) == 0
  {
  }

  /** Where every key is inside, the map shows at each place what Cell says and leaves the rest of the buffer alone. */
  lemma FilledIsMap(km: seq<Key>, fill: Fill, height: Byte, width: Byte, was: U32, j: nat)
    requires Inside(km, height, width)
    ensures j >= Area(height, width) ==> Filled(km, fill, height, width, was, j) == was
    ensures forall row: nat, col: nat :: row < height && col < width && j == Offset(row, col, width) ==>
              Filled(km, fill, height, width, was, j) == Cell(km, fill, width, row, col)
  {
    hide Offset, Area, Entry;
    if j >= Area(height, width) { LastToNothing(km, height, width, j); }
    forall row: nat, col: nat | row < height && col < width && j == Offset(row, col, width)
      ensures Filled(km, fill, height, width, was, j) == Cell(km, fill, width, row, col)
    {
      LastToIsLastAt(km, height, width, row, col);
      OffsetInside(row, col, height, width);
    }
  }

  /** What each kind of map shows: the value of the key that lookup finds, its place in the list, or its place in the
      map; and the marker where there is no key, and only there but for a value that equals it. */
  lemma CellsAreLookups(km: seq<Key>, width: Byte, row: nat, col: nat)
    requires Apart(km) && |km| < 0xFFFF_FFFF
    ensures match Find(km, row, col, 0)
            case None => forall fill :: Cell(km, fill, width, row, col) == NO_KEY
            case Some(i) =>
              && Cell(km, Values, width, row, col) == km[i].value
              && Cell(km, Counts, width, row, col) == i != NO_KEY
              && Cell(km, Indices, width, row, col) == row * (width as nat) + col != NO_KEY
  {
    MapIsLookupIff(km);
    var found := Find(km, row, col, 0);
    assert LastAt(km, row, col) == found;
    if found.Some? { OffsetSmall(row, col, width); }
  }

  /** The same of the buffer, after GetKeyMap has filled it. */
  lemma FilledShows(km: seq<Key>, height: Byte, width: Byte, was: U32, row: nat, col: nat)
    requires Inside(km, height, width) && Apart(km) && |km| < 0xFFFF_FFFF && row < height && col < width
    ensures var j := row * (width as nat) + col;
            match Find(km, row, col, 0)
            case None => forall fill :: Filled(km, fill, height, width, was, j) == NO_KEY
            case Some(i) =>
              && Filled(km, Values, height, width, was, j) == km[i].value
              && Filled(km, Counts, height, width, was, j) == i
              && Filled(km, Indices, height, width, was, j) == j
  {
    hide Filled, Cell, Inside, Apart;
    var j := row * (width as nat) + col;
    assert j == Offset(row, col, width);
    CellsAreLookups(km, width, row, col);
    FilledIsMap(km, Values, height, width, was, j);
    FilledIsMap(km, Counts, height, width, was, j);
    FilledIsMap(km, Indices, height, width, was, j);
    forall fill ensures Filled(km, fill, height, width, was, j) == Cell(km, fill, width, row, col) {
      FilledIsMap(km, fill, height, width, was, j);
    }
  }

  lemma OffsetSmall(row: nat, col: nat, width: Byte)
    requires row < 0x100 && col < 0x100
    ensures Offset(row, col, width) < 0x2_0000
  {
    assert row * (width as nat) <= 0x100 * (width as nat);
  }

  // ---------------------------------------------------------------- where the edits fall short

  const AT_START := Key(0, 0, 0, 1, "A", 0)

  /** A named key for the free place between two keys goes before both. */
  lemma SwapLosesOrder()
    ensures var km, k := [AT_START, AT_START.(col := 2)], AT_START.(col := 1);
            Ordered(km) && Swapped(km, k) == [k] + km && !Ordered(Swapped(km, k))
  {
    var km, k := [AT_START, AT_START.(col := 2)], AT_START.(col := 1);
    assert Slot(km, k, 0) == 1;
    SwapAt(km, k, 1);
    SwapKeepsOrderIff(km, k);
    assert km[..0] + [k] + km[0..] == [k] + km;
    assert FreeBetween(km, k) by { assert PosOf(km[0]) < PosOf(k) && PosOf(k) < PosOf(km[1]); }
  }

  /** One key in column 255: the map has no room, and the key is written 255 places past it. */
  lemma MapLeaves()
    ensures Next(MaxRow([LAST_COLUMN])) == 1 && Next(MaxCol([LAST_COLUMN])) == 0
    ensures Area(1, 0) == 0 && Offset(LAST_COLUMN.row, LAST_COLUMN.col, 0) == 255
  {
    var km := [LAST_COLUMN];
    assert km[..0] == [];
    MaxColIs(km);
  }

  /** Removing the only row reads past the end of the list. */
  lemma RemoveRowLeaves()
    ensures Next(MaxRow([AT_START])) == 1 && RowRemoved([AT_START], 1, 0).None?
  {
    assert [AT_START][..0] == [];
    RemoveRowPastEndIff([AT_START], 0);
  }

  /** A key in row 255 comes round to the first row, and the removal of the inserted row takes it away. */
  lemma RowWraps()
    ensures var km := [AT_START.(row := 0xFF)];
            RowInserted(km, 1, 0) == Some([AT_START]) && !IsShiftedDown(km, 0, [AT_START]) &&
            RowRemoved([AT_START], 1, 0) != Some(km)
  {
    var km := [AT_START.(row := 0xFF)];
    assert Downs(km, 0) == [AT_START];
    InsertRowShiftsIff(km, 1, 0, [AT_START]);
    assert km[0].row == 0xFF;
    RemoveRowLeaves();
  }
}
