/**
 * key_read of key_app.c: the 4x4 key matrix is scanned column by column. The
 * column being scanned is driven low and the others high; a row that then
 * reads low has a pressed key at that column and row. The first one found
 * ends the scan, and all columns are driven high again before returning.
 */
module KeyScan {
  import opened CInts
  import opened Pins

  /** key_read's result when no key is pressed. */
  const NoKey: UInt8 := 0xFF

  /** The column levels that scan column `col`: low there, high elsewhere. */
  function DriveOnly(col: nat): (levels: seq<PinLevel>)
    ensures |levels| == 4
    ensures forall c | 0 <= c < 4 :: levels[c] == Low <==> c == col
  {
    seq(4, c requires 0 <= c < 4 => if c == col then Low else High)
  }

  /**
   * What a row pin reads with the columns at `levels`: low when a pressed key
   * joins it to a column that is driven low. `pressed(c, r)` is whether the key
   * at column c and row r is down.
   */
  predicate RowReadsLow(levels: seq<PinLevel>, pressed: (nat, nat) -> bool, row: nat) {
    exists c | 0 <= c < |levels| :: levels[c] == Low && pressed(c, row)
  }

  /** With one column driven, a row reads low exactly when the key at that column and row is pressed. */
  lemma DrivenRowRead(col: nat, row: nat, pressed: (nat, nat) -> bool)
    requires col < 4
    ensures RowReadsLow(DriveOnly(col), pressed, row) <==> pressed(col, row)
  {
    if pressed(col, row) {
      assert DriveOnly(col)[col] == Low;
    }
  }

  /**
   * The key index key_read reports, as a search in scan order from position `k`:
   * position k stands for column k / 4 and row k % 4.
   */
  function FirstPressedFrom(pressed: (nat, nat) -> bool, k: nat): (key: UInt8)
    decreases 16 - k
  {
    if k >= 16 then NoKey
    else if pressed(k / 4, k % 4) then k
    else FirstPressedFrom(pressed, k + 1)
  }

  /** The key key_read reports for the whole matrix. */
  function FirstPressed(pressed: (nat, nat) -> bool): UInt8 {
    FirstPressedFrom(pressed, 0)
  }

  /** One row read during the scan: which column was driven, which row was read, and the column levels at the time. */
  datatype RowRead = RowRead(col: nat, row: nat, levels: seq<PinLevel>)

  /** The j-th row read of a scan: column j / 4 driven alone, row j % 4 read. */
  function ScanRead(j: nat): RowRead {
    RowRead(j / 4, j % 4, DriveOnly(j / 4))
  }

  /**
   * key_read. The column outputs are the array `cols`; `pressed` is the state of
   * the keys during the scan. The ghost `trace` records every row read in order.
   */
  method KeyRead(cols: array<PinLevel>, pressed: (nat, nat) -> bool) returns (key: UInt8, ghost trace: seq<RowRead>)
    requires cols.Length == 4
    modifies cols
    ensures key == FirstPressed(pressed)
    ensures forall c | 0 <= c < 4 :: cols[c] == High
    ensures |trace| == (if key == NoKey then 16 else key + 1)
    ensures forall j | 0 <= j < |trace| :: trace[j] == ScanRead(j)
  {
    key := NoKey;
    trace := [];
    var col := 0;
    while col < 4
      invariant 0 <= col <= 4
      invariant key == NoKey
      invariant |trace| == 4 * col
      invariant forall j | 0 <= j < |trace| :: trace[j] == ScanRead(j)
      invariant forall c, r | 0 <= c < col && 0 <= r < 4 :: !pressed(c, r)
    {
      DriveColumn(cols, col);
      var hit, columnReads := ScanColumn(cols, col, pressed);
      forall r | 0 <= r < |columnReads| ensures ScanRead(4 * col + r) == columnReads[r] {
        PositionSplit(col, r);
      }
      trace := trace + columnReads;
      if hit.Some? {
        FirstPressedAt(pressed, col, hit.value);
        key := col * 4 + hit.value;
        break;
      }
      col := col + 1;
    }
    if key == NoKey {
      NothingPressed(pressed);
    }

    // restore every column high
    var i := 0;
    while i < 4
      invariant 0 <= i <= 4
      invariant forall c | 0 <= c < i :: cols[c] == High
    {
      cols[i] := High;
      i := i + 1;
    }
  }

  /** The first inner loop of key_read: column `col` is driven low and the other three high. */
  method DriveColumn(cols: array<PinLevel>, col: nat)
    requires cols.Length == 4
    modifies cols
    ensures cols[..] == DriveOnly(col)
  {
    var i := 0;
    while i < 4
      invariant 0 <= i <= 4
      invariant forall c | 0 <= c < i :: cols[c] == (if c == col then Low else High)
    {
      cols[i] := if i == col then Low else High;
      i := i + 1;
    }
    assert cols[..] == DriveOnly(col);
  }

  /**
   * The second inner loop of key_read: rows 0 to 3 are read with column `col`
   * driven, and the first row that reads low is the hit.
   */
  method ScanColumn(cols: array<PinLevel>, col: nat, pressed: (nat, nat) -> bool)
    returns (hit: Option<nat>, ghost columnReads: seq<RowRead>)
    requires col < 4 && cols.Length == 4 && cols[..] == DriveOnly(col)
    ensures hit.Some? ==> hit.value < 4 && pressed(col, hit.value)
    ensures forall r | 0 <= r < (if hit.Some? then hit.value else 4) :: !pressed(col, r)
    ensures |columnReads| == (if hit.Some? then hit.value + 1 else 4)
    ensures forall r | 0 <= r < |columnReads| :: columnReads[r] == RowRead(col, r, DriveOnly(col))
  {
    columnReads := [];
    var row := 0;
    while row < 4
      invariant 0 <= row <= 4
      invariant |columnReads| == row
      invariant forall r | 0 <= r < row :: !pressed(col, r) && columnReads[r] == RowRead(col, r, DriveOnly(col))
    {
      var low := RowReadsLow(cols[..], pressed, row);
      DrivenRowRead(col, row, pressed);
      columnReads := columnReads + [RowRead(col, row, cols[..])];
      if low {
        return Some(row), columnReads;
      }
      row := row + 1;
    }
    hit := None;
  }

  /** Scan position `4 * col + row` stands for column `col` and row `row`. */
  lemma PositionSplit(col: nat, row: nat)
    requires row < 4
    ensures (4 * col + row) / 4 == col && (4 * col + row) % 4 == row
  {
  }

  /** The key at column `col` and row `row` is reported when it is pressed and every key before it is released. */
  lemma FirstPressedAt(pressed: (nat, nat) -> bool, col: nat, row: nat)
    requires col < 4 && row < 4 && pressed(col, row)
    requires forall c, r | 0 <= c < col && 0 <= r < 4 :: !pressed(c, r)
    requires forall r | 0 <= r < row :: !pressed(col, r)
    ensures FirstPressed(pressed) == 4 * col + row
  {
    PositionSplit(col, row);
    SkipReleased(pressed, 0, 4 * col + row);
  }

  /** Nothing is reported when no key is pressed. */
  lemma NothingPressed(pressed: (nat, nat) -> bool)
    requires forall c, r | 0 <= c < 4 && 0 <= r < 4 :: !pressed(c, r)
    ensures FirstPressed(pressed) == NoKey
  {
    SkipReleased(pressed, 0, 16);
  }

  /** The search passes over released keys: from `i` it reaches the same answer as from `k`. */
  lemma {:induction false} SkipReleased(pressed: (nat, nat) -> bool, i: nat, k: nat)
    requires i <= k <= 16
    requires forall m | i <= m < k :: !pressed(m / 4, m % 4)
    ensures FirstPressedFrom(pressed, i) == FirstPressedFrom(pressed, k)
    decreases k - i
  {
    if i < k {
      SkipReleased(pressed, i + 1, k);
    }
  }

  /** No key is reported exactly when no key of the matrix is pressed. */
  lemma NoKeyIffNonePressed(pressed: (nat, nat) -> bool)
    ensures FirstPressed(pressed) == NoKey <==> forall c, r | 0 <= c < 4 && 0 <= r < 4 :: !pressed(c, r)
  {
    if FirstPressed(pressed) == NoKey {
      forall c, r | 0 <= c < 4 && 0 <= r < 4 ensures !pressed(c, r) {
        PositionSplit(c, r);
        NoneBefore(pressed, 0, 4 * c + r);
      }
    } else {
      FoundIsPressed(pressed, 0);
      var k := FirstPressed(pressed);
      assert pressed(k / 4, k % 4);
    }
  }

  /**
   * A reported key is a position below 16 whose key is pressed, and every key
   * earlier in scan order (a lower column, or the same column and a lower row)
   * is released.
   */
  lemma FirstHitWins(pressed: (nat, nat) -> bool)
    requires FirstPressed(pressed) != NoKey
    ensures FirstPressed(pressed) < 16
    ensures pressed(FirstPressed(pressed) / 4, FirstPressed(pressed) % 4)
    ensures forall c, r | 0 <= c < 4 && 0 <= r < 4 && 4 * c + r < FirstPressed(pressed) :: !pressed(c, r)
  {
    FoundIsPressed(pressed, 0);
    forall c, r | 0 <= c < 4 && 0 <= r < 4 && 4 * c + r < FirstPressed(pressed) ensures !pressed(c, r) {
      PositionSplit(c, r);
      NoneBefore(pressed, 0, 4 * c + r);
    }
  }

  /** A search that finds a key stops at a pressed one at or after its start. */
  lemma {:induction false} FoundIsPressed(pressed: (nat, nat) -> bool, k: nat)
    requires FirstPressedFrom(pressed, k) != NoKey
    ensures k <= FirstPressedFrom(pressed, k) < 16
    ensures pressed(FirstPressedFrom(pressed, k) / 4, FirstPressedFrom(pressed, k) % 4)
    decreases 16 - k
  {
    if k < 16 && !pressed(k / 4, k % 4) {
      FoundIsPressed(pressed, k + 1);
    }
  }

  /** Positions the search from `k` passes over are released. */
  lemma {:induction false} NoneBefore(pressed: (nat, nat) -> bool, k: nat, m: nat)
    requires k <= m < 16
    requires FirstPressedFrom(pressed, k) == NoKey || m < FirstPressedFrom(pressed, k)
    ensures !pressed(m / 4, m % 4)
    decreases m - k
  {
    if m > k {
      NoneBefore(pressed, k + 1, m);
    }
  }
}
