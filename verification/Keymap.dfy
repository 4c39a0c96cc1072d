/** The keyboard layout manager: a list of keys ordered by row and column, edited in place with shifts, and the dense
    map that is filled from it. Rows and columns are 8-bit and wrap around. */
module Keymap {
  import opened Bytes

  datatype Key = Key(zone: Byte, row: Byte, col: Byte, value: U32, name: string, opcode: int)

  function Next(x: Byte): Byte { (x + 1) % 0x100 }
  function Prev(x: Byte): Byte { (x + 0xFF) % 0x100 }

  /** `++` and `--` on the column of a key of row `row`. */
  function Right(k: Key, row: Byte): Key { if k.row == row then k.(col := Next(k.col)) else k }
  function Left(k: Key, row: Byte): Key { if k.row == row then k.(col := Prev(k.col)) else k }

  // ---------------------------------------------------------------- what the edits compute

  /** The search of InsertKey: the first key that is not before `k`. */
  function Slot(km: seq<Key>, k: Key, i: nat): (r: nat)
    requires i <= |km|
    ensures i <= r <= |km|
    decreases |km| - i
  {
    if i == |km| || k.row < km[i].row || (k.row == km[i].row && k.col <= km[i].col) then i else Slot(km, k, i + 1)
  }

  /** The shift loop of InsertKey from index `i`. */
  function ShiftRight(km: seq<Key>, k: Key, i: nat): (r: seq<Key>)
    requires i <= |km|
    ensures |r| == |km|
    decreases |km| - i
  {
    if i == |km| then km else
      var t := if km[i].row == k.row && km[i].col >= k.col then km[i := Right(km[i], k.row)] else km;
      if km[i].row > k.row then t else ShiftRight(t, k, i + 1)
  }

  function Inserted(km: seq<Key>, k: Key): seq<Key> {
    var i := Slot(km, k, 0);
    if i == |km| then km + [k]
    else if k.name == "" then ShiftRight(km, k, i)
    else ShiftRight(km[..i] + [k] + km[i..], k, i + 1)
  }

  /** The shift loops of RemoveKey from index `i`. */
  function ShiftLeft(km: seq<Key>, row: Byte, i: nat): (r: seq<Key>)
    requires i <= |km|
    ensures |r| == |km|
    decreases |km| - i
  {
    if i == |km| || km[i].row != row then km else ShiftLeft(km[i := Left(km[i], row)], row, i + 1)
  }

  function Removed(km: seq<Key>, row: Byte, col: Byte, i: nat): seq<Key>
    requires i <= |km|
    decreases |km| - i
  {
    if i == |km| then km
    else if km[i].row == row && km[i].col == col then ShiftLeft(km[..i] + km[i + 1..], row, i)
    else if km[i].row == row && col < km[i].col then ShiftLeft(km, row, i)
    else Removed(km, row, col, i + 1)
  }

  /** SwapKey from index `i`. A key for a free place goes before the key before that place, unless it goes first; past
      the last key it is dropped. */
  function SwappedFrom(km: seq<Key>, k: Key, i: nat): seq<Key>
    requires i <= |km|
    decreases |km| - i
  {
    if i == |km| then km
    else if km[i].row == k.row && km[i].col == k.col then
      if k.name == "" then km[..i] + km[i + 1..] else km[i := km[i].(name := k.name, value := k.value)]
    else if km[i].row > k.row || (km[i].row == k.row && km[i].col > k.col) then
      if k.name == "" then km else if i == 0 then [k] + km else km[..i - 1] + [k] + km[i - 1..]
    else SwappedFrom(km, k, i + 1)
  }

  function Swapped(km: seq<Key>, k: Key): seq<Key> { if km == [] then [k] else SwappedFrom(km, k, 0) }

  /** The first key at or below row `row`. */
  function RowSlot(km: seq<Key>, row: Byte, i: nat): (r: nat)
    requires i <= |km|
    ensures i <= r <= |km|
    decreases |km| - i
  {
    if i == |km| || row <= km[i].row then i else RowSlot(km, row, i + 1)
  }

  function Down(k: Key): Key { k.(row := Next(k.row)) }
  function Up(k: Key): Key { k.(row := Prev(k.row)) }

  function Downs(km: seq<Key>, i: nat): (r: seq<Key>)
    requires i <= |km|
    ensures |r| == |km|
  {
    seq(|km|, j requires 0 <= j < |km| => if j < i then km[j] else Down(km[j]))
  }

  function Ups(km: seq<Key>, i: nat): (r: seq<Key>)
    requires i <= |km|
    ensures |r| == |km|
  {
    seq(|km|, j requires 0 <= j < |km| => if j < i then km[j] else Up(km[j]))
  }

  /** None where InsertRow reads a key past the end of the list. */
  function RowInserted(km: seq<Key>, rows: Byte, row: Byte): Option<seq<Key>> {
    if row >= rows then Some(km)
    else if RowSlot(km, row, 0) == |km| then None
    else Some(Downs(km, RowSlot(km, row, 0)))
  }

  /** The erase loop of RemoveRow: the keys left, and the index it stops at. */
  function Without(km: seq<Key>, row: Byte, i: nat): (r: (seq<Key>, nat))
    requires i <= |km|
    ensures r.1 <= |r.0|
    decreases |km| - i
  {
    if i == |km| || km[i].row > row then (km, i)
    else if km[i].row == row then Without(km[..i] + km[i + 1..], row, i)
    else Without(km, row, i + 1)
  }

  /** None where RemoveRow reads a key past the end of the list. */
  function RowRemoved(km: seq<Key>, rows: Byte, row: Byte): Option<seq<Key>> {
    if row >= rows then Some(km) else
      var (t, i) := Without(km, row, 0);
      if i == |t| then None else Some(if row < t[i].row then Ups(t, i) else t)
  }

  function MaxRow(km: seq<Key>): Byte {
    if km == [] then 0 else
      var m := MaxRow(km[..|km| - 1]);
      if km[|km| - 1].row > m then km[|km| - 1].row else m
  }

  function MaxCol(km: seq<Key>): Byte {
    if km == [] then 0 else
      var m := MaxCol(km[..|km| - 1]);
      if km[|km| - 1].col > m then km[|km| - 1].col else m
  }

  // ---------------------------------------------------------------- the dense map

  const NO_KEY: U32 := 0xFFFF_FFFF

  datatype Fill = Counts | Values | Indices

  /** The first key at a place. */
  function Find(km: seq<Key>, row: nat, col: nat, i: nat): (r: Option<nat>)
    requires i <= |km|
    ensures r.Some? ==> i <= r.value < |km| && km[r.value].row == row && km[r.value].col == col
    ensures forall j :: i <= j < (if r.Some? then r.value else |km|) ==> km[j].row != row || km[j].col != col
    decreases |km| - i
  {
    if i == |km| then None else if km[i].row == row && km[i].col == col then Some(i) else Find(km, row, col, i + 1)
  }

  function Max(a: Byte, b: Byte): (r: Byte)
    ensures r >= a && r >= b && (r == a || r == b)
  {
    if a < b then b else a
  }

  /** What one key writes. */
  function Entry(fill: Fill, k: Key, i: nat, width: Byte): U32 {
    match fill
    case Counts => i % 0x1_0000_0000
    case Values => k.value
    case Indices => Offset(k.row, k.col, width) % 0x1_0000_0000
  }

  function Area(height: nat, width: nat): nat { height * width }

  function Offset(row: nat, col: nat, width: nat): nat { row * width + col }

  lemma OffsetInside(row: nat, col: nat, height: nat, width: nat)
    requires row < height && col < width
    ensures Offset(row, col, width) < Area(height, width)
  {
    assert (row + 1) * width <= height * width;
  }

  lemma OffsetInjective(row: nat, col: nat, row2: nat, col2: nat, width: nat)
    requires col < width && col2 < width && Offset(row, col, width) == Offset(row2, col2, width)
    ensures row == row2 && col == col2
  {
    assert row < row2 ==> (row + 1) * width <= row2 * width;
    assert row2 < row ==> (row2 + 1) * width <= row * width;
  }

  /** The last key at a place: the one whose entry stays. */
  function LastAt(km: seq<Key>, row: nat, col: nat): (r: Option<nat>)
    ensures r.Some? ==> r.value < |km| && km[r.value].row == row && km[r.value].col == col
    ensures forall j :: (if r.Some? then r.value + 1 else 0) <= j < |km| ==> km[j].row != row || km[j].col != col
  {
    if km == [] then None else
      var n := |km| - 1;
      if km[n].row == row && km[n].col == col then Some(n) else LastAt(km[..n], row, col)
  }

  function Cell(km: seq<Key>, fill: Fill, width: Byte, row: nat, col: nat): U32 {
    match LastAt(km, row, col)
    case None => NO_KEY
    case Some(i) => Entry(fill, km[i], i, width)
  }

  /** The last key whose offset is `j`: the one whose entry stays there. */
  function LastTo(km: seq<Key>, width: Byte, j: nat): (r: Option<nat>)
    ensures r.Some? ==> r.value < |km|
  {
    if km == [] then None else
      var n := |km| - 1;
      if Offset(km[n].row, km[n].col, width) == j then Some(n) else LastTo(km[..n], width, j)
  }

  /** What the buffer holds at index `j` after the fill, where it held `was` before. */
  function Filled(km: seq<Key>, fill: Fill, height: Byte, width: Byte, was: U32, j: nat): U32 {
    match LastTo(km, width, j)
    case None => if j < Area(height, width) then NO_KEY else was
    case Some(i) => Entry(fill, km[i], i, width)
  }

  lemma FilledStep(km: seq<Key>, i: nat, fill: Fill, height: Byte, width: Byte, was: U32, j: nat)
    requires i < |km|
    ensures Filled(km[..i + 1], fill, height, width, was, j)
            == if Offset(km[i].row, km[i].col, width) == j then Entry(fill, km[i], i, width)
               else Filled(km[..i], fill, height, width, was, j)
  {
    hide Offset, Area, Entry;
    assert km[..i + 1][..i] == km[..i];
  }

  lemma FilledNothing(km: seq<Key>, fill: Fill, height: Byte, width: Byte, was: U32, j: nat)
    ensures Filled(km[..0], fill, height, width, was, j) == if j < Area(height, width) then NO_KEY else was
  {
  }

  lemma {:induction false} LastToIsLastAt(km: seq<Key>, height: Byte, width: Byte, row: nat, col: nat)
    requires Inside(km, height, width) && row < height && col < width
    ensures LastTo(km, width, Offset(row, col, width)) == LastAt(km, row, col)
  {
    hide Offset;
    if km != [] {
      var n := |km| - 1;
      LastToIsLastAt(km[..n], height, width, row, col);
      if Offset(km[n].row, km[n].col, width) == Offset(row, col, width) {
        OffsetInjective(km[n].row, km[n].col, row, col, width);
      }
    }
  }

  lemma {:induction false} LastToNothing(km: seq<Key>, height: Byte, width: Byte, j: nat)
    requires Inside(km, height, width) && j >= Area(height, width)
    ensures LastTo(km, width, j) == None
  {
    hide Offset, Area;
    if km != [] {
      var n := |km| - 1;
      LastToNothing(km[..n], height, width, j);
      OffsetInside(km[n].row, km[n].col, height, width);
    }
  }

  predicate Inside(km: seq<Key>, height: Byte, width: Byte) {
    forall i :: 0 <= i < |km| ==> km[i].row < height && km[i].col < width
  }

  /** No two keys at one place. */
  predicate Apart(km: seq<Key>) {
    forall i, j :: 0 <= i < j < |km| ==> km[i].row != km[j].row || km[i].col != km[j].col
  }

  class KeyboardLayoutManager {
    var keymap: seq<Key>
    var rows: Byte
    var cols: Byte

    method InsertKey(insKey: Key)
      modifies this`keymap
      ensures keymap == Inserted(old(keymap), insKey)
    {
      ghost var was := keymap;
      var idx := 0;
      while idx < |keymap|
        invariant idx <= |keymap| && keymap == was && Slot(was, insKey, 0) == Slot(was, insKey, idx)
      {
        if insKey.row < keymap[idx].row || (insKey.row == keymap[idx].row && insKey.col <= keymap[idx].col) { break; }
        idx := idx + 1;
      }
      var updateRow := true;
      if idx == |keymap| {
        keymap := keymap + [insKey];
        updateRow := false;
      } else if insKey.name != "" {
        keymap := keymap[..idx] + [insKey] + keymap[idx..];
        idx := idx + 1;
      }
      if updateRow {
        ghost var mid, from := keymap, idx;
        while idx < |keymap|
          invariant from <= idx <= |keymap|
          invariant ShiftRight(mid, insKey, from) == ShiftRight(keymap, insKey, idx)
        {
          ghost var before := keymap;
          if keymap[idx].row == insKey.row && keymap[idx].col >= insKey.col {
            keymap := keymap[idx := keymap[idx].(col := Next(keymap[idx].col))];
          }
          if keymap[idx].row > insKey.row { break; }
          idx := idx + 1;
        }
      }
    }

    method InsertKeys(insKeys: seq<Key>)
      modifies this
      ensures keymap == InsertedAll(old(keymap), insKeys)
      ensures rows == Next(MaxRow(keymap)) && cols == Next(MaxCol(keymap))
    {
      for i := 0 to |insKeys|
        invariant keymap == InsertedAll(old(keymap), insKeys[..i])
      {
        assert insKeys[..i + 1][..i] == insKeys[..i];
        InsertKey(insKeys[i]);
      }
      assert insKeys[..|insKeys|] == insKeys;
      UpdateDimensions();
    }

    method SwapKey(swpKey: Key)
      modifies this`keymap
      ensures keymap == Swapped(old(keymap), swpKey)
    {
      ghost var was := keymap;
      if |keymap| == 0 {
        keymap := keymap + [swpKey];
        return;
      }
      var idx := 0;
      while idx < |keymap|
        invariant idx <= |keymap| && keymap == was && SwappedFrom(was, swpKey, 0) == SwappedFrom(was, swpKey, idx)
      {
        if swpKey.row == keymap[idx].row && swpKey.col == keymap[idx].col {
          if swpKey.name == "" {
            keymap := keymap[..idx] + keymap[idx + 1..];
          } else {
            keymap := keymap[idx := keymap[idx].(name := swpKey.name, value := swpKey.value)];
          }
          return;
        }
        if keymap[idx].row > swpKey.row || (keymap[idx].row == swpKey.row && keymap[idx].col > swpKey.col) {
          if swpKey.name != "" {
            if idx == 0 {
              keymap := [swpKey] + keymap;
            } else {
              keymap := keymap[..idx - 1] + [swpKey] + keymap[idx - 1..];
            }
          }
          return;
        }
        idx := idx + 1;
      }
    }

    /** The inner loop of both branches of RemoveKey. */
    method ShiftRowLeft(from: nat, row: Byte)
      requires from <= |keymap|
      modifies this`keymap
      ensures keymap == ShiftLeft(old(keymap), row, from)
    {
      var idx := from;
      while idx < |keymap|
        invariant from <= idx <= |keymap| && ShiftLeft(old(keymap), row, from) == ShiftLeft(keymap, row, idx)
      {
        if keymap[idx].row != row { break; }
        keymap := keymap[idx := keymap[idx].(col := Prev(keymap[idx].col))];
        idx := idx + 1;
      }
    }

    method RemoveKey(rmvKey: Key)
      modifies this`keymap
      ensures keymap == Removed(old(keymap), rmvKey.row, rmvKey.col, 0)
    {
      ghost var was := keymap;
      var row, col := rmvKey.row, rmvKey.col;
      var idx := 0;
      while idx < |keymap|
        invariant idx <= |keymap| && keymap == was && Removed(was, row, col, 0) == Removed(was, row, col, idx)
      {
        if row == keymap[idx].row && col == keymap[idx].col {
          keymap := keymap[..idx] + keymap[idx + 1..];
          ShiftRowLeft(idx, row);
          return;
        }
        if row == keymap[idx].row && col < keymap[idx].col {
          ShiftRowLeft(idx, row);
          return;
        }
        idx := idx + 1;
      }
    }

    /** Not `inside` where the code would read past the end of the list; the model stops there. */
    method InsertRow(row: Byte) returns (ok: bool, inside: bool)
      modifies this`keymap
      ensures inside <==> RowInserted(old(keymap), rows, row).Some?
      ensures inside ==> RowInserted(old(keymap), rows, row) == Some(keymap) && ok == (row < rows)
    {
      if row >= rows { return false, true; }
      ghost var was := keymap;
      var idx := 0;
      while idx < |keymap|
        invariant idx <= |keymap| && keymap == was && RowSlot(was, row, 0) == RowSlot(was, row, idx)
      {
        if row <= keymap[idx].row { break; }
        idx := idx + 1;
      }
      if idx == |keymap| { return false, false; }
      ghost var from := idx;
      while idx < |keymap|
        invariant from <= idx <= |keymap| == |was|
        invariant forall j :: 0 <= j < |was| ==> keymap[j] == if from <= j < idx then Down(was[j]) else was[j]
      {
        keymap := keymap[idx := keymap[idx].(row := Next(keymap[idx].row))];
        idx := idx + 1;
      }
      assert keymap == Downs(was, from);
      return true, true;
    }

    /** Not `inside` where the code would read past the end of the list; the model stops there. */
    method RemoveRow(row: Byte) returns (inside: bool)
      modifies this`keymap
      ensures inside <==> RowRemoved(old(keymap), rows, row).Some?
      ensures inside ==> RowRemoved(old(keymap), rows, row) == Some(keymap)
    {
      if row >= rows { return true; }
      var idx := 0;
      while idx < |keymap| && row >= keymap[idx].row
        invariant idx <= |keymap| && Without(old(keymap), row, 0) == Without(keymap, row, idx)
        decreases |keymap| - idx
      {
        if row == keymap[idx].row {
          keymap := keymap[..idx] + keymap[idx + 1..];
        } else {
          idx := idx + 1;
        }
      }
      if idx == |keymap| { return false; }
      if row < keymap[idx].row {
        ghost var mid, from := keymap, idx;
        while idx < |keymap|
          invariant from <= idx <= |keymap| == |mid|
          invariant forall j :: 0 <= j < |mid| ==> keymap[j] == if from <= j < idx then Up(mid[j]) else mid[j]
        {
          keymap := keymap[idx := keymap[idx].(row := Prev(keymap[idx].row))];
          idx := idx + 1;
        }
        assert keymap == Ups(mid, from);
      }
      return true;
    }

    method UpdateDimensions()
      modifies this`rows, this`cols
      ensures rows == Next(MaxRow(keymap)) && cols == Next(MaxCol(keymap))
    {
      var maxRow, maxCol: Byte := 0, 0;
      for i := 0 to |keymap|
        invariant maxRow == MaxRow(keymap[..i]) && maxCol == MaxCol(keymap[..i])
      {
        assert keymap[..i + 1][..i] == keymap[..i];
        if keymap[i].row > maxRow { maxRow := keymap[i].row; }
        if keymap[i].col > maxCol { maxCol := keymap[i].col; }
      }
      assert keymap[..|keymap|] == keymap;
      rows, cols := Next(maxRow), Next(maxCol);
    }

    /** The two loops that clear the buffer. */
    method ClearMap(buffer: array<U32>, height: Byte, width: Byte)
      requires buffer.Length >= Area(height, width)
      modifies buffer
      ensures forall j :: 0 <= j < buffer.Length ==>
                buffer[j] == if j < Area(height, width) then NO_KEY else old(buffer[j])
    {
      ghost var w: nat := width;
      for r := 0 to height
        invariant forall j :: 0 <= j < r * w ==> j < buffer.Length && buffer[j] == NO_KEY
        invariant forall j :: Area(height, width) <= j < buffer.Length ==> buffer[j] == old(buffer[j])
      {
        assert r * w + w <= (height as nat) * w by { OffsetRow(r, height, w); }
        for c := 0 to width
          invariant forall j :: 0 <= j < r * w + c ==> j < buffer.Length && buffer[j] == NO_KEY
          invariant forall j :: Area(height, width) <= j < buffer.Length ==> buffer[j] == old(buffer[j])
        {
          buffer[r * (width as nat) + c] := NO_KEY;
        }
        assert (r + 1) * w == r * w + w;
      }
    }

    /** GetKeyMap with a caller's buffer, which holds at least the map, and minimum dimensions. Not `inside` where a key
        would be written past the buffer; the model stops there. */
    method GetKeyMap(buffer: array<U32>, fill: Fill, minHeight: Byte, minWidth: Byte) returns (inside: bool)
      requires buffer.Length >= Area(Max(minHeight, rows), Max(minWidth, cols))
      modifies buffer
      ensures var width := Max(minWidth, cols);
              inside <==> forall i :: 0 <= i < |keymap| ==> Offset(keymap[i].row, keymap[i].col, width) < buffer.Length
      ensures inside ==>
                var height, width := Max(minHeight, rows), Max(minWidth, cols);
                forall j :: 0 <= j < buffer.Length ==>
                  buffer[j] == Filled(keymap, fill, height, width, old(buffer[j]), j)
    {
      hide Offset, Area, Filled, Entry;
      var width, height := Max(minWidth, cols), Max(minHeight, rows);
      ClearMap(buffer, height, width);
      ghost var was := old(buffer[..]);
      forall j | 0 <= j < buffer.Length ensures buffer[j] == Filled(keymap[..0], fill, height, width, was[j], j) {
        FilledNothing(keymap, fill, height, width, was[j], j);
      }
      for i := 0 to |keymap|
        invariant forall k :: 0 <= k < i ==> Offset(keymap[k].row, keymap[k].col, width) < buffer.Length
        invariant forall j :: 0 <= j < buffer.Length ==>
                    buffer[j] == Filled(keymap[..i], fill, height, width, was[j], j)
      {
        var k := keymap[i];
        var offset := Offset(k.row, k.col, width);
        if offset >= buffer.Length { return false; }
        buffer[offset] := Entry(fill, k, i, width);
        forall j | 0 <= j < buffer.Length ensures buffer[j] == Filled(keymap[..i + 1], fill, height, width, was[j], j) {
          FilledStep(keymap, i, fill, height, width, was[j], j);
        }
      }
      assert keymap[..|keymap|] == keymap;
      return true;
    }

    method GetKeyValueAt(row: nat, col: nat) returns (value: U32)
      ensures value == match Find(keymap, row, col, 0) case None => NO_KEY case Some(i) => keymap[i].value
    {
      var idx := 0;
      while idx < |keymap|
        invariant idx <= |keymap| && Find(keymap, row, col, 0) == Find(keymap, row, col, idx)
      {
        if keymap[idx].row == row && keymap[idx].col == col { return keymap[idx].value; }
        idx := idx + 1;
      }
      return NO_KEY;
    }
  }

  function InsertedAll(km: seq<Key>, ks: seq<Key>): seq<Key> {
    if ks == [] then km else Inserted(InsertedAll(km, ks[..|ks| - 1]), ks[|ks| - 1])
  }

  /** Inserting a list of keys is inserting its first keys and then, into the result, the others: one key as InsertKey
      does it, and no key changes nothing. */
  lemma {:induction false} InsertedInTurn(km: seq<Key>, ks: seq<Key>, more: seq<Key>, k: Key)
    ensures InsertedAll(km, ks + more) == InsertedAll(InsertedAll(km, ks), more)
    ensures InsertedAll(km, [k]) == Inserted(km, k) && InsertedAll(km, []) == km
  {
    hide Inserted;
    assert [k][..0] == [];
    if more == [] {
      assert ks + more == ks;
    } else {
      var n := |more| - 1;
      assert (ks + more)[..|ks + more| - 1] == ks + more[..n];
      InsertedInTurn(km, ks, more[..n], k);
    }
  }

  lemma OffsetRow(r: nat, height: nat, width: nat)
    requires r < height
    ensures r * width + width <= height * width
  {
    assert (r + 1) * width <= height * width;
  }
}
