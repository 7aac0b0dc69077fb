/** What byte sequences do to the terminal, in plain rows, columns and cells: the control sequences of
    section 8.3 of ECMA-48, the two-byte escapes and the control characters. */
module ControlSequences {
  import opened Terminal

  // ---- reading a control sequence ---------------------------------------------------------------

  predicate Digital(ds: seq<int>) { forall i | 0 <= i < |ds| :: '0' as int <= ds[i] <= '9' as int }

  /** The decimal number a string of digits stands for, 0 for none. */
  function Number(ds: seq<int>): nat
    requires Digital(ds)
  {
    if ds == [] then 0 else 10 * Number(ds[..|ds| - 1]) + ds[|ds| - 1] - '0' as int
  }

  /** Up to sixteen numbers, any of which may be left out. */
  predicate Parameters(pars: seq<seq<int>>) { 1 <= |pars| <= 16 && forall i | 0 <= i < |pars| :: Digital(pars[i]) }

  /** Number i as an unsigned 64-bit word, 0 if there is none. */
  function Par(pars: seq<seq<int>>, i: nat): (n: nat)
    requires Parameters(pars)
  {
    if i < |pars| then Number(pars[i]) % 0x1_0000_0000_0000_0000 else 0
  }

  function Separated(pars: seq<seq<int>>): seq<int>
  {
    if |pars| == 0 then [] else if |pars| == 1 then pars[0]
    else Separated(pars[..|pars| - 1]) + [';' as int] + pars[|pars| - 1]
  }

  predicate Final(c: int) { 0x40 <= c < 0x7F }

  /** ESC [ numbers and a final byte. */
  function Csi(pars: seq<seq<int>>, c: int): seq<int> { [27, '[' as int] + Separated(pars) + [c] }

  lemma {:induction false} RunJoined(t: Screen, a: seq<int>, b: seq<int>, erase: int)
    ensures Run(t, a + b, erase) == Run(Run(t, a, erase), b, erase)
    decreases |b|
  {
    hide Step;
    if b == [] {
      assert a + b == a;
    } else {
      var n := |b| - 1;
      assert (a + b)[..|a + b| - 1] == a + b[..n] && (a + b)[|a + b| - 1] == b[n];
      RunJoined(t, a, b[..n], erase);
    }
  }

  lemma RunOne(t: Screen, c: int, erase: int)
    ensures Run(t, [c], erase) == Step(t, c, erase)
  {
    assert [c][..0] == [];
  }

  lemma Modular(n: nat, d: nat)
    ensures (10 * (n % MOD64) + d) % MOD64 == (10 * n + d) % MOD64
  {
    var k := n / MOD64;
    assert 10 * n + d == 10 * (n % MOD64) + d + 10 * k * 0x1_0000_0000_0000_0000;
  }

  /** Digits become the value of the current parameter. */
  lemma {:induction false} DigitsRead(t: Screen, ds: seq<int>, erase: int)
    requires t.state == 3 && Digital(ds) && t.par[t.npar] == 0
    ensures Run(t, ds, erase) == t.(par := t.par[t.npar := Number(ds) % MOD64])
    decreases |ds|
  {
    if ds == [] {
      assert t.par[t.npar := 0] == t.par;
    } else {
      var n := |ds| - 1;
      DigitsRead(t, ds[..n], erase);
      Modular(Number(ds[..n]), ds[n] - '0' as int);
      var u := t.(par := t.par[t.npar := Number(ds[..n]) % MOD64]);
      assert Step(u, ds[n], erase).par == t.par[t.npar := Number(ds) % MOD64];
    }
  }

  /** The parameters after reading the list. */
  function Values(pars: seq<seq<int>>): (v: seq<nat>)
    requires Parameters(pars)
    ensures |v| == NPAR && forall i | 0 <= i < NPAR :: v[i] == Par(pars, i)
  {
    seq(NPAR, i requires 0 <= i < NPAR => Par(pars, i))
  }

  /** Inside a control sequence, before its first parameter. */
  function Opened(t: Screen): (r: Screen) { t.(par := NoParameters(), npar := 0, state := 3) }

  lemma {:induction false} ListRead(t: Screen, pars: seq<seq<int>>, erase: int)
    requires Parameters(pars)
    ensures Run(Opened(t), Separated(pars), erase) == t.(par := Values(pars), npar := |pars| - 1, state := 3)
    decreases |pars|
  {
    var n := |pars| - 1;
    if n == 0 {
      DigitsRead(Opened(t), pars[0], erase);
      assert NoParameters()[0 := Par(pars, 0)] == Values(pars);
    } else {
      var (less, last) := (pars[..n], pars[n]);
      ListRead(t, less, erase);
      var u := t.(par := Values(less), npar := n - 1, state := 3);
      assert Values(less)[n := Number(last) % MOD64] == Values(pars);
      assert Values(less)[n] == 0;
      hide Values, Par, Number, Run;
      NextRead(Opened(t), Separated(less), u, last, erase);
    }
  }

  /** A semicolon and one more number. */
  lemma NextRead(t: Screen, bytes: seq<int>, u: Screen, ds: seq<int>, erase: int)
    requires Run(t, bytes, erase) == u && u.state == 3 && Digital(ds) && u.npar < NPAR - 1 && u.par[u.npar + 1] == 0
    ensures Run(t, bytes + [';' as int] + ds, erase) ==
            u.(npar := u.npar + 1, par := u.par[u.npar + 1 := Number(ds) % MOD64])
  {
    hide Number, Run;
    RunJoined(t, bytes, [';' as int], erase);
    RunOne(u, ';' as int, erase);
    RunJoined(t, bytes + [';' as int], ds, erase);
    DigitsRead(u.(npar := u.npar + 1), ds, erase);
  }

  /** The first byte after ESC [ opens the sequence. */
  lemma {:induction false} FirstByte(t: Screen, bytes: seq<int>, erase: int)
    requires t.state == 2 && bytes != [] && bytes[0] != '?' as int
    ensures Run(t, bytes, erase) == Run(Opened(t), bytes, erase)
    decreases |bytes|
  {
    var n := |bytes| - 1;
    if n == 0 {
      assert bytes == [bytes[0]];
      RunOne(t, bytes[0], erase);
      RunOne(Opened(t), bytes[0], erase);
    } else {
      FirstByte(t, bytes[..n], erase);
    }
  }

  lemma {:induction false} FirstOfList(pars: seq<seq<int>>, c: int)
    requires Parameters(pars) && Final(c)
    ensures (Separated(pars) + [c])[0] != '?' as int
    decreases |pars|
  {
    var n := |pars| - 1;
    if n > 0 {
      FirstOfList(pars[..n], c);
    }
  }

  /** A whole control sequence, up to what its final byte does. */
  lemma SequenceRead(t: Screen, pars: seq<seq<int>>, c: int, erase: int)
    requires t.state == 0 && Parameters(pars) && Final(c)
    ensures Run(t, Csi(pars, c), erase) == Control(t.(par := Values(pars), npar := |pars| - 1, state := 3), c)
  {
    var body := Separated(pars);
    var u := t.(state := 2);
    assert [27, '[' as int] == [27] + ['[' as int] && Csi(pars, c) == [27, '[' as int] + (body + [c]);
    RunOne(t, 27, erase);
    RunJoined(t, [27], ['[' as int], erase);
    RunOne(t.(state := 1), '[' as int, erase);
    RunJoined(t, [27, '[' as int], body + [c], erase);
    FirstOfList(pars, c);
    FirstByte(u, body + [c], erase);
    assert Opened(u) == Opened(t);
    RunJoined(Opened(t), body, [c], erase);
    ListRead(t, pars, erase);
    hide Control;
    RunOne(t.(par := Values(pars), npar := |pars| - 1, state := 3), c, erase);
  }

  /** Outside a sequence its parameters mean nothing; a finished one leaves them clear. */
  function Cleared(t: Screen): (r: Screen) { t.(par := NoParameters(), npar := 0) }

  // ---- cursor motion --------------------------------------------------------------------------------

  /** A repetition count: 1 when it is left out, cut to 32 bits like the argument of gotoxy. */
  function Count(pars: seq<seq<int>>): (n: nat)
    requires Parameters(pars)
    ensures n < 0x1_0000_0000
  {
    if Par(pars, 0) == 0 then 1 else Par(pars, 0) % 0x1_0000_0000
  }

  /** A row or column counted from one. */
  function FromOne(p: nat): (n: nat)
    ensures n < 0x1_0000_0000
  {
    if p == 0 then 0 else (p - 1) % 0x1_0000_0000
  }

  /** Subtraction of 32-bit words that must stay below a limit; otherwise nothing moves. */
  function Less(from: nat, n: nat, limit: nat): (r: nat)
    requires n < 0x1_0000_0000
    ensures n <= from < limit ==> r == from - n
  {
    if n <= from then from - n else if from + 0x1_0000_0000 - n < limit then from + 0x1_0000_0000 - n else from
  }

  function More(from: nat, n: nat, limit: nat): (r: nat)
    ensures from + n < limit <= 0x1_0000_0000 ==> r == from + n
  {
    if from + n < limit then from + n else if from + n >= 0x1_0000_0000 then from + n - 0x1_0000_0000 else from
  }

  /** The cursor stands behind the last column, where vertical motion is ignored. */
  predicate Behind(t: Screen) { t.x == 80 }

  lemma MotionRead(t: Screen, pars: seq<seq<int>>, c: int, erase: int)
    requires t.state == 0 && Parameters(pars) && IsMotion(c)
    ensures Run(t, Csi(pars, c), erase) == Motion(Cleared(t), c, Par(pars, 0), Par(pars, 1))
  {
    SequenceRead(t, pars, c, erase);
    hide Run, Csi, Motion, Par;
  }

  /** Addition and subtraction in 32-bit words. */
  lemma Words(a: nat, p: nat)
    requires a < 0x1_0000_0000
    ensures var n := p % 0x1_0000_0000;
            && (a - p) % MOD32 == (if n <= a then a - n else a + 0x1_0000_0000 - n)
            && (a + p) % MOD32 == (if a + n < 0x1_0000_0000 then a + n else a + n - 0x1_0000_0000)
  {
    var (k, n) := (p / 0x1_0000_0000, p % 0x1_0000_0000);
    assert p == n + k * 0x1_0000_0000;
    assert a - p == (if n <= a then a - n else a + 0x1_0000_0000 - n) + (if n <= a then -k else -k - 1) * 0x1_0000_0000;
    assert a + p == (if a + n < 0x1_0000_0000 then a + n else a + n - 0x1_0000_0000)
                    + (if a + n < 0x1_0000_0000 then k else k + 1) * 0x1_0000_0000;
    Remainder(if n <= a then a - n else a + 0x1_0000_0000 - n, if n <= a then -k else -k - 1);
    Remainder(if a + n < 0x1_0000_0000 then a + n else a + n - 0x1_0000_0000, if a + n < 0x1_0000_0000 then k else k + 1);
  }

  lemma Remainder(r: nat, k: int)
    requires r < 0x1_0000_0000
    ensures (r + k * 0x1_0000_0000) % MOD32 == r
  {
  }

  /** A relative motion in one direction. */
  lemma RowSteps(t: Screen, p: nat, n: nat)
    requires n == p % 0x1_0000_0000
    ensures Goto(t, t.x, t.y - p) == t.(y := if Behind(t) then t.y else Less(t.y, n, 25))
    ensures Goto(t, t.x, t.y + p) == t.(y := if Behind(t) then t.y else More(t.y, n, 25))
  {
    Words(t.y, p);
    Remainder(t.x, 0);
  }

  lemma ColumnSteps(t: Screen, p: nat, n: nat)
    requires n == p % 0x1_0000_0000
    ensures Goto(t, t.x - p, t.y) == t.(x := Less(t.x, n, 80))
    ensures Goto(t, t.x + p, t.y) == t.(x := More(t.x, n, 80))
  {
    Words(t.x, p);
    Remainder(t.y, 0);
  }

  lemma LineSteps(t: Screen, pars: seq<seq<int>>)
    requires Parameters(pars)
    ensures var (p, n) := (OrOne(Par(pars, 0)), Count(pars));
            && Goto(t, 0, t.y + p) == (if 25 <= t.y + n < 0x1_0000_0000 then t else t.(x := 0, y := More(t.y, n, 25)))
            && Goto(t, 0, t.y - p) == (if t.y < n <= t.y + 0x1_0000_0000 - 25 then t else t.(x := 0, y := Less(t.y, n, 25)))
  {
    var p := OrOne(Par(pars, 0));
    assert p % 0x1_0000_0000 == Count(pars);
    hide Par, OrOne;
    Words(t.y, p);
  }

  /** An absolute position. */
  lemma Places(t: Screen, p: nat)
    ensures LessOne(p) % MOD32 == FromOne(p) && t.x % MOD32 == t.x && t.y % MOD32 == t.y
    ensures Goto(t, LessOne(p), t.y) == t.(x := if FromOne(p) < 80 then FromOne(p) else t.x)
    ensures Goto(t, t.x, LessOne(p)) == t.(y := if FromOne(p) < 25 && !Behind(t) then FromOne(p) else t.y)
  {
    Remainder(t.x, 0);
    Remainder(t.y, 0);
  }

  /** ESC [ n A: n rows up, in the same column. */
  lemma CursorUp(t: Screen, pars: seq<seq<int>>, erase: int)
    requires t.state == 0 && Parameters(pars)
    ensures Run(t, Csi(pars, 'A' as int), erase) ==
            Cleared(t).(y := if Behind(t) then t.y else Less(t.y, Count(pars), 25))
  {
    MotionRead(t, pars, 'A' as int, erase);
    RowSteps(Cleared(t), OrOne(Par(pars, 0)), Count(pars));
    hide Run, Csi, Goto, OrOne, Par, Count, Less, More;
  }

  /** ESC [ n B and ESC [ n e: n rows down. */
  lemma CursorDown(t: Screen, pars: seq<seq<int>>, c: int, erase: int)
    requires t.state == 0 && Parameters(pars) && (c == 'B' as int || c == 'e' as int)
    ensures Run(t, Csi(pars, c), erase) == Cleared(t).(y := if Behind(t) then t.y else More(t.y, Count(pars), 25))
  {
    MotionRead(t, pars, c, erase);
    RowSteps(Cleared(t), OrOne(Par(pars, 0)), Count(pars));
    hide Run, Csi, Goto, OrOne, Par, Count, Less, More;
  }

  /** ESC [ n C and ESC [ n a: n columns to the right. */
  lemma CursorRight(t: Screen, pars: seq<seq<int>>, c: int, erase: int)
    requires t.state == 0 && Parameters(pars) && (c == 'C' as int || c == 'a' as int)
    ensures Run(t, Csi(pars, c), erase) == Cleared(t).(x := More(t.x, Count(pars), 80))
  {
    MotionRead(t, pars, c, erase);
    ColumnSteps(Cleared(t), OrOne(Par(pars, 0)), Count(pars));
    hide Run, Csi, Goto, OrOne, Par, Count, Less, More;
  }

  /** ESC [ n D: n columns to the left. */
  lemma CursorLeft(t: Screen, pars: seq<seq<int>>, erase: int)
    requires t.state == 0 && Parameters(pars)
    ensures Run(t, Csi(pars, 'D' as int), erase) == Cleared(t).(x := Less(t.x, Count(pars), 80))
  {
    MotionRead(t, pars, 'D' as int, erase);
    ColumnSteps(Cleared(t), OrOne(Par(pars, 0)), Count(pars));
    hide Run, Csi, Goto, OrOne, Par, Count, Less, More;
  }

  /** ESC [ n E: the start of the n-th row below; nothing moves if that is off the screen. */
  lemma NextLine(t: Screen, pars: seq<seq<int>>, erase: int)
    requires t.state == 0 && Parameters(pars)
    ensures Run(t, Csi(pars, 'E' as int), erase) ==
            if 25 <= t.y + Count(pars) < 0x1_0000_0000 then Cleared(t)
            else Cleared(t).(x := 0, y := More(t.y, Count(pars), 25))
  {
    MotionRead(t, pars, 'E' as int, erase);
    LineSteps(Cleared(t), pars);
    hide Run, Csi, Goto, OrOne, Par, Count, Less, More;
  }

  /** ESC [ n F: the start of the n-th row above. */
  lemma PreviousLine(t: Screen, pars: seq<seq<int>>, erase: int)
    requires t.state == 0 && Parameters(pars)
    ensures Run(t, Csi(pars, 'F' as int), erase) ==
            if t.y < Count(pars) <= t.y + 0x1_0000_0000 - 25 then Cleared(t)
            else Cleared(t).(x := 0, y := Less(t.y, Count(pars), 25))
  {
    MotionRead(t, pars, 'F' as int, erase);
    LineSteps(Cleared(t), pars);
    hide Run, Csi, Goto, OrOne, Par, Count, Less, More;
  }

  /** ESC [ n G and ESC [ n `: column n of the row, if there is one. */
  lemma ToColumn(t: Screen, pars: seq<seq<int>>, c: int, erase: int)
    requires t.state == 0 && Parameters(pars) && (c == 'G' as int || c == '`' as int)
    ensures var n := FromOne(Par(pars, 0));
            Run(t, Csi(pars, c), erase) == Cleared(t).(x := if n < 80 then n else t.x)
  {
    MotionRead(t, pars, c, erase);
    Places(Cleared(t), Par(pars, 0));
    hide Run, Csi, Par, FromOne, LessOne, Goto;
  }

  /** ESC [ n d: row n. */
  lemma ToRow(t: Screen, pars: seq<seq<int>>, erase: int)
    requires t.state == 0 && Parameters(pars)
    ensures var n := FromOne(Par(pars, 0));
            Run(t, Csi(pars, 'd' as int), erase) == Cleared(t).(y := if n < 25 && !Behind(t) then n else t.y)
  {
    MotionRead(t, pars, 'd' as int, erase);
    Places(Cleared(t), Par(pars, 0));
    hide Run, Csi, Par, FromOne, LessOne, Goto;
  }

  /** ESC [ row ; column H, or f. */
  lemma ToPosition(t: Screen, pars: seq<seq<int>>, c: int, erase: int)
    requires t.state == 0 && Parameters(pars) && (c == 'H' as int || c == 'f' as int)
    ensures var (row, col) := (FromOne(Par(pars, 0)), FromOne(Par(pars, 1)));
            Run(t, Csi(pars, c), erase) == if row < 25 && col < 80 then Cleared(t).(x := col, y := row) else Cleared(t)
  {
    MotionRead(t, pars, c, erase);
    Places(Cleared(t), Par(pars, 0));
    Places(Cleared(t), Par(pars, 1));
    hide Run, Csi, Par, FromOne, LessOne;
  }

  // ---- erasing, inserting and deleting ----------------------------------------------------------------

  /** Only the grid changes. */
  predicate Repainted(t: Screen, r: Screen) { r == Cleared(t).(grid := r.grid) }

  lemma EditRead(t: Screen, pars: seq<seq<int>>, c: int, erase: int)
    requires t.state == 0 && Parameters(pars) && Final(c) && c as char in "JKLMP@"
    ensures Run(t, Csi(pars, c), erase) == Edit(Cleared(t), c, Par(pars, 0))
  {
    SequenceRead(t, pars, c, erase);
    hide Run, Csi, Edit, Par;
  }

  /** The clamp of the source does not show: no more than a screen can be pushed out. */
  lemma RowsMoved(g: Grid, y: nat, p: nat, n: nat)
    requires y < LINES && n == if p % 0x1_0000_0000 == 0 then 1 else p % 0x1_0000_0000
    ensures forall i, j | 0 <= i < 25 && 0 <= j < 80 :: InsertRows(g, y, Repeat(p, LINES))[i][j] ==
              if i < y then g[i][j] else if i < y + n then BLANK else g[i - n][j]
    ensures forall i, j | 0 <= i < 25 && 0 <= j < 80 :: DeleteRows(g, y, Repeat(p, LINES))[i][j] ==
              if i < y then g[i][j] else if i + n < 25 then g[i + n][j] else BLANK
  {
    var m := Min(Repeat(p, LINES), LINES - y);
    assert m == Min(n, LINES - y);
    hide Repeat;
    var a := InsertRows(g, y, Repeat(p, LINES));
    assert forall i | 0 <= i < 25 :: a[i] == if i < y then g[i] else if i < y + m then BlankRow() else g[i - m];
    var d := DeleteRows(g, y, Repeat(p, LINES));
    assert forall i | 0 <= i < 25 :: d[i] == if i < y then g[i] else if i + m < 25 then g[i + m] else BlankRow();
  }

  lemma CellsMoved(row: Row, x: nat, p: nat, n: nat)
    requires x <= COLUMNS && n == if p % 0x1_0000_0000 == 0 then 1 else p % 0x1_0000_0000
    ensures forall j | 0 <= j < 80 :: InsertInRow(row, x, Repeat(p, COLUMNS))[j] ==
              if j < x then row[j] else if j < x + n then BLANK else row[j - n]
    ensures forall j | 0 <= j < 80 :: DeleteInRow(row, x, Repeat(p, COLUMNS))[j] ==
              if j < x then row[j] else if j + n < 80 then row[j + n] else BLANK
  {
    var m := Min(Repeat(p, COLUMNS), COLUMNS - x);
    assert m == Min(n, COLUMNS - x);
    hide Repeat;
    var a := InsertInRow(row, x, Repeat(p, COLUMNS));
    assert forall j | 0 <= j < 80 :: a[j] == if j < x then row[j] else if j < x + m then BLANK else row[j - m];
    var d := DeleteInRow(row, x, Repeat(p, COLUMNS));
    assert forall j | 0 <= j < 80 :: d[j] == if j < x then row[j] else if j + m < 80 then row[j + m] else BLANK;
  }

  /** ESC [ J erases from the cursor to the end, ESC [ 1 J from the start to before the cursor, and
      ESC [ 2 J everything; other numbers mean nothing. */
  lemma ErasesDisplay(t: Screen, pars: seq<seq<int>>, erase: int)
    requires t.state == 0 && Parameters(pars)
    ensures var (r, v) := (Run(t, Csi(pars, 'J' as int), erase), Par(pars, 0) % 0x1_0000_0000);
            && Repainted(t, r)
            && forall i, j | 0 <= i < 25 && 0 <= j < 80 ::
                 r.grid[i][j] ==
                 if (v == 0 && (i > t.y || (i == t.y && j >= t.x))) || (v == 1 && (i < t.y || (i == t.y && j < t.x))) || v == 2
                 then BLANK else t.grid[i][j]
  {
    EditRead(t, pars, 'J' as int, erase);
    hide Run, Csi, Par;
  }

  /** ESC [ K does the same in the row of the cursor. */
  lemma ErasesLine(t: Screen, pars: seq<seq<int>>, erase: int)
    requires t.state == 0 && Parameters(pars)
    ensures var (r, v) := (Run(t, Csi(pars, 'K' as int), erase), Par(pars, 0) % 0x1_0000_0000);
            && Repainted(t, r)
            && forall i, j | 0 <= i < 25 && 0 <= j < 80 ::
                 r.grid[i][j] ==
                 if i == t.y && ((v == 0 && j >= t.x) || (v == 1 && j < t.x) || v == 2) then BLANK else t.grid[i][j]
  {
    EditRead(t, pars, 'K' as int, erase);
    hide Run, Csi, Par;
  }

  /** How often, counted in 32 bits: at least once. */
  function Times(pars: seq<seq<int>>): (n: nat)
    requires Parameters(pars)
  {
    var n := Par(pars, 0) % 0x1_0000_0000;
    if n == 0 then 1 else n
  }

  /** ESC [ n L: n blank rows above that of the cursor; what is pushed off the bottom is lost. */
  lemma InsertsRows(t: Screen, pars: seq<seq<int>>, erase: int)
    requires t.state == 0 && Parameters(pars)
    ensures var (r, n) := (Run(t, Csi(pars, 'L' as int), erase), Times(pars));
            && Repainted(t, r)
            && forall i, j | 0 <= i < 25 && 0 <= j < 80 ::
                 r.grid[i][j] ==
                 if i < t.y then t.grid[i][j] else if i < t.y + n then BLANK else t.grid[i - n][j]
  {
    EditRead(t, pars, 'L' as int, erase);
    RowsMoved(t.grid, t.y, Par(pars, 0), Times(pars));
    hide Run, Csi, Par, InsertRows, Repeat, Times;
  }

  /** ESC [ n M: n rows from that of the cursor on go, and blank ones come from below. */
  lemma DeletesRows(t: Screen, pars: seq<seq<int>>, erase: int)
    requires t.state == 0 && Parameters(pars)
    ensures var (r, n) := (Run(t, Csi(pars, 'M' as int), erase), Times(pars));
            && Repainted(t, r)
            && forall i, j | 0 <= i < 25 && 0 <= j < 80 ::
                 r.grid[i][j] ==
                 if i < t.y then t.grid[i][j] else if i + n < 25 then t.grid[i + n][j] else BLANK
  {
    EditRead(t, pars, 'M' as int, erase);
    RowsMoved(t.grid, t.y, Par(pars, 0), Times(pars));
    hide Run, Csi, Par, DeleteRows, Repeat, Times;
  }

  /** ESC [ n @: n blanks at the cursor. */
  lemma InsertsCells(t: Screen, pars: seq<seq<int>>, erase: int)
    requires t.state == 0 && Parameters(pars)
    ensures var (r, n) := (Run(t, Csi(pars, '@' as int), erase), Times(pars));
            && Repainted(t, r)
            && forall i, j | 0 <= i < 25 && 0 <= j < 80 ::
                 r.grid[i][j] ==
                 if i != t.y || j < t.x then t.grid[i][j] else if j < t.x + n then BLANK else t.grid[i][j - n]
  {
    EditRead(t, pars, '@' as int, erase);
    CellsMoved(t.grid[t.y], t.x, Par(pars, 0), Times(pars));
    hide Run, Csi, Par, InsertInRow, Repeat, Times;
  }

  /** ESC [ n P: n cells from the cursor on go. */
  lemma DeletesCells(t: Screen, pars: seq<seq<int>>, erase: int)
    requires t.state == 0 && Parameters(pars)
    ensures var (r, n) := (Run(t, Csi(pars, 'P' as int), erase), Times(pars));
            && Repainted(t, r)
            && forall i, j | 0 <= i < 25 && 0 <= j < 80 ::
                 r.grid[i][j] ==
                 if i != t.y || j < t.x then t.grid[i][j] else if j + n < 80 then t.grid[i][j + n] else BLANK
  {
    EditRead(t, pars, 'P' as int, erase);
    CellsMoved(t.grid[t.y], t.x, Par(pars, 0), Times(pars));
    hide Run, Csi, Par, DeleteInRow, Repeat, Times;
  }

  // ---- attributes, region, saved cursor ----------------------------------------------------------------

  predicate Names(n: nat) { n == 0 || n == 1 || n == 4 || n == 7 || n == 27 }

  /** Number k is the last one that names an attribute. */
  predicate Last(vals: seq<nat>, k: nat) { k < |vals| && Names(vals[k]) && forall i | k < i < |vals| :: !Names(vals[i]) }

  function Attribute(n: nat): nat { if n == 0 || n == 27 then 0x07 else if n == 7 then 0x70 else 0x0f }

  lemma {:induction false} LastDecides(attr: nat, vals: seq<nat>, k: nat)
    requires attr < 256 && Last(vals, k)
    ensures Attributes(attr, vals) == Attribute(vals[k])
    decreases |vals|
  {
    var n := |vals| - 1;
    if k < n {
      assert vals[..n][k] == vals[k] && !Names(vals[n]);
      LastDecides(attr, vals[..n], k);
    }
  }

  lemma {:induction false} NoneDecides(attr: nat, vals: seq<nat>)
    requires attr < 256 && forall i | 0 <= i < |vals| :: !Names(vals[i])
    ensures Attributes(attr, vals) == attr
    decreases |vals|
  {
    if vals != [] { NoneDecides(attr, vals[..|vals| - 1]); }
  }

  /** ESC [ n ; ... m: 0 and 27 give the normal attribute, 1 and 4 the bright one, 7 the inverse one;
      the last number that names one decides. */
  lemma SetsAttribute(t: Screen, pars: seq<seq<int>>, erase: int)
    requires t.state == 0 && Parameters(pars)
    ensures var (r, vals) := (Run(t, Csi(pars, 'm' as int), erase), seq(|pars|, i requires 0 <= i < |pars| => Par(pars, i)));
            && r == Cleared(t).(attr := r.attr)
            && ((forall i | 0 <= i < |vals| :: !Names(vals[i])) ==> r.attr == t.attr)
            && forall k: nat | Last(vals, k) :: r.attr == Attribute(vals[k])
  {
    SequenceRead(t, pars, 'm' as int, erase);
    var vals := seq(|pars|, i requires 0 <= i < |pars| => Par(pars, i));
    assert Values(pars)[..|pars|] == vals;
    hide Run, Csi, Par, Attributes, Last;
    if forall i | 0 <= i < |vals| :: !Names(vals[i]) { NoneDecides(t.attr, vals); }
    forall k: nat | Last(vals, k) ensures Attributes(t.attr, vals) == Attribute(vals[k]) { LastDecides(t.attr, vals, k); }
  }

  /** ESC [ a ; b r: rows a to b scroll, all of them when the numbers are left out; an empty region or
      one that ends below the screen is ignored. */
  lemma SetsRegion(t: Screen, pars: seq<seq<int>>, erase: int)
    requires t.state == 0 && Parameters(pars)
    ensures var a := if Par(pars, 0) == 0 then 1 else Par(pars, 0);
            var b := if Par(pars, 1) == 0 then 25 else Par(pars, 1);
            Run(t, Csi(pars, 'r' as int), erase) == if a <= b <= 25 then Cleared(t).(top := a - 1, bottom := b) else Cleared(t)
  {
    SequenceRead(t, pars, 'r' as int, erase);
  }

  lemma SavesCursor(t: Screen, pars: seq<seq<int>>, erase: int)
    requires t.state == 0 && Parameters(pars)
    ensures Run(t, Csi(pars, 's' as int), erase) == Cleared(t).(savedX := t.x, savedY := t.y)
    ensures Run(t, Csi(pars, 'u' as int), erase) == Cleared(t).(x := t.savedX, y := t.savedY)
  {
    SequenceRead(t, pars, 's' as int, erase);
    SequenceRead(t, pars, 'u' as int, erase);
  }

  /** Text, however long, leaves the saved cursor alone. */
  lemma {:induction false} TextKeepsSaved(t: Screen, text: seq<int>, erase: int)
    requires t.state == 0 && Printable(text)
    ensures var r := Run(t, text, erase); r.state == 0 && r.savedX == t.savedX && r.savedY == t.savedY
  {
    if text != [] { TextKeepsSaved(t, text[..|text| - 1], erase); }
  }

  /** ESC [ s, any text, ESC [ u: the cursor is back where it was. */
  lemma CursorComesBack(t: Screen, a: seq<seq<int>>, text: seq<int>, b: seq<seq<int>>, erase: int)
    requires t.state == 0 && Parameters(a) && Parameters(b) && Printable(text)
    ensures var r := Run(t, Csi(a, 's' as int) + text + Csi(b, 'u' as int), erase); r.x == t.x && r.y == t.y && r.state == 0
  {
    var (first, last) := (Csi(a, 's' as int), Csi(b, 'u' as int));
    SavesCursor(t, a, erase);
    var u := Run(t, first, erase);
    RunJoined(t, first, text, erase);
    TextKeepsSaved(u, text, erase);
    var v := Run(u, text, erase);
    SavesCursor(v, b, erase);
    RunJoined(t, first + text, last, erase);
  }

  /** Other final bytes do nothing. */
  lemma OthersIgnored(t: Screen, pars: seq<seq<int>>, c: int, erase: int)
    requires t.state == 0 && Parameters(pars) && Final(c)
    requires c as char !in "@ABCDEFGHJKLMPadefmrsu`"
    ensures Run(t, Csi(pars, c), erase) == Cleared(t)
  {
    SequenceRead(t, pars, c, erase);
  }

  // ---- two-byte escapes and control characters -----------------------------------------------------------

  /** The rows of the region move up by one; a blank row comes in at its end. */
  ghost predicate ScrolledUp(t: Screen, r: Screen)
  {
    r == t.(grid := r.grid) && forall i, j | 0 <= i < 25 && 0 <= j < 80 ::
      r.grid[i][j] == if t.top <= i < t.bottom - 1 then t.grid[i + 1][j] else if i == t.bottom - 1 then BLANK else t.grid[i][j]
  }

  ghost predicate ScrolledDown(t: Screen, r: Screen)
  {
    r == t.(grid := r.grid) && forall i, j | 0 <= i < 25 && 0 <= j < 80 ::
      r.grid[i][j] == if t.top < i < t.bottom then t.grid[i - 1][j] else if i == t.top then BLANK else t.grid[i][j]
  }

  /** One row down; at the end of the region, and anywhere below it, the region scrolls instead. */
  ghost predicate FedDown(t: Screen, r: Screen)
  {
    if t.y + 1 < t.bottom then r == t.(y := t.y + 1) else ScrolledUp(t, r)
  }

  ghost predicate FedUp(t: Screen, r: Screen)
  {
    if t.top < t.y then r == t.(y := t.y - 1) else ScrolledDown(t, r)
  }

  lemma LineFeedMoves(t: Screen)
    ensures FedDown(t, LineFeed(t)) && FedUp(t, ReverseLineFeed(t))
  {
  }

  lemma TwoBytes(t: Screen, c: int, erase: int)
    requires t.state == 0
    ensures Run(t, [27, c], erase) == Escape(t.(state := 1), c)
  {
    assert [27, c] == [27] + [c];
    RunJoined(t, [27], [c], erase);
    RunOne(t, 27, erase);
    RunOne(t.(state := 1), c, erase);
  }

  /** ESC D is a line feed, ESC M a reverse one, and ESC E goes to the start of the next row, if there
      is one. */
  lemma EscapeMoves(t: Screen, erase: int)
    requires t.state == 0
    ensures FedDown(t, Run(t, [27, 'D' as int], erase))
    ensures FedUp(t, Run(t, [27, 'M' as int], erase))
    ensures Run(t, [27, 'E' as int], erase) == if t.y < 24 then t.(x := 0, y := t.y + 1) else t
    ensures Run(t, [27, 'Z' as int], erase) == t.(replies := t.replies + 1)
  {
    hide Run, LineFeed, ReverseLineFeed, FedDown, FedUp;
    TwoBytes(t, 'D' as int, erase);
    TwoBytes(t, 'M' as int, erase);
    TwoBytes(t, 'E' as int, erase);
    TwoBytes(t, 'Z' as int, erase);
    assert t.(state := 1).(state := 0) == t;
    LineFeedMoves(t);
  }

  /** Line feed, vertical tab and form feed go down one row; carriage return goes to the first column. */
  lemma FeedsAndReturn(t: Screen, c: int, erase: int)
    requires t.state == 0
    ensures c == 10 || c == 11 || c == 12 ==> FedDown(t, Run(t, [c], erase))
    ensures c == 13 ==> Run(t, [c], erase) == t.(x := 0)
  {
    RunOne(t, c, erase);
    LineFeedMoves(t);
  }

  /** Backspace goes one column to the left, the erase character also blanks the cell there. */
  lemma BackspaceAndErase(t: Screen, erase: int)
    requires t.state == 0
    ensures erase != 8 ==> Run(t, [8], erase) == if t.x > 0 then t.(x := t.x - 1) else t
    ensures (erase < 10 || 13 < erase < 27 || 27 < erase <= 31 || erase >= 127) ==>
              var r := Run(t, [erase], erase);
              if t.x == 0 then r == t
              else r == t.(x := t.x - 1, grid := r.grid) && forall i, j | 0 <= i < 25 && 0 <= j < 80 ::
                     r.grid[i][j] == if i == t.y && j == t.x - 1 then BLANK else t.grid[i][j]
  {
    RunOne(t, 8, erase);
    RunOne(t, erase, erase);
  }

  /** A tab goes to the next multiple of eight; from behind the last column it goes to column 8 of the
      next row. */
  lemma TabStops(t: Screen, erase: int)
    requires t.state == 0 && erase != 9
    ensures t.x < 80 ==> var r := Run(t, [9], erase); r == t.(x := r.x) && t.x < r.x <= t.x + 8 && r.x % 8 == 0
    ensures t.x == 80 ==> FedDown(t.(x := 8), Run(t, [9], erase))
  {
    RunOne(t, 9, erase);
    if t.x == 80 { LineFeedMoves(t.(x := 8)); }
  }

  /** A character printed behind the last column is the first one of the next row. */
  lemma TextWraps(t: Screen, c: int, erase: int) returns (w: Screen)
    requires t.state == 0 && Behind(t) && 31 < c < 127
    ensures FedDown(t.(x := 0), w) && Run(t, [c], erase) == w.(x := 1, grid := w.grid[w.y := w.grid[w.y][0 := t.attr * 256 + c]])
  {
    RunOne(t, c, erase);
    w := LineFeed(t.(x := 0));
    LineFeedMoves(t.(x := 0));
  }

  /** All other control characters are ignored. */
  lemma RestIgnored(t: Screen, c: int, erase: int)
    requires t.state == 0 && (c <= 31 || c >= 127) && c != 27 && !(8 <= c <= 13) && c != erase
    ensures Run(t, [c], erase) == t
  {
    RunOne(t, c, erase);
  }
}
