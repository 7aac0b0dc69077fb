/** A plain 25 x 80 terminal: what `kernel/console.c` means, without its video memory.
    The control sequences are those of section 8.3 of ECMA-48, in the reading the source gives
    them. */
module Terminal {
  const LINES := 25
  const COLUMNS := 80
  const NPAR := 16
  const BLANK: Cell := 0x0720

  /** A character and its attribute. */
  type Cell = c: nat | c < 0x1_0000
  type Row = r: seq<Cell> | |r| == COLUMNS witness seq(COLUMNS, _ => BLANK)
  type Grid = g: seq<Row> | |g| == LINES witness seq(LINES, _ => seq(COLUMNS, _ => BLANK))

  function Blanks(n: nat): (r: seq<Cell>)
    ensures |r| == n && forall i | 0 <= i < n :: r[i] == BLANK
  {
    seq(n, _ => BLANK)
  }

  function BlankRow(): Row { Blanks(COLUMNS) }

  function BlankRows(n: nat): (r: seq<Row>)
    ensures |r| == n && forall i | 0 <= i < n :: r[i] == BlankRow()
  {
    seq(n, _ => BlankRow())
  }

  function Min(a: nat, b: nat): nat { if a < b then a else b }

  // ---- changes of the grid ----------------------------------------------------------------------

  /** Rows top .. bottom-1 move up by one; the last of them becomes blank. */
  function ScrollUp(g: Grid, top: nat, bottom: nat): (r: Grid)
    requires top < bottom <= LINES
  {
    g[..top] + g[top + 1..bottom] + [BlankRow()] + g[bottom..]
  }

  /** Rows top .. bottom-1 move down by one; the first of them becomes blank. */
  function ScrollDown(g: Grid, top: nat, bottom: nat): (r: Grid)
    requires top < bottom <= LINES
  {
    g[..top] + [BlankRow()] + g[top..bottom - 1] + g[bottom..]
  }

  /** n blank rows are put in at row y; rows pushed off the bottom are lost. */
  function InsertRows(g: Grid, y: nat, n: nat): (r: Grid)
    requires y < LINES
  {
    var m := Min(n, LINES - y);
    g[..y] + BlankRows(m) + g[y..LINES - m]
  }

  /** n rows from row y on are taken out; blank rows follow from below. */
  function DeleteRows(g: Grid, y: nat, n: nat): (r: Grid)
    requires y < LINES
  {
    var m := Min(n, LINES - y);
    g[..y] + g[y + m..] + BlankRows(m)
  }

  function InsertInRow(row: Row, x: nat, n: nat): (r: Row)
    requires x <= COLUMNS
  {
    var m := Min(n, COLUMNS - x);
    row[..x] + Blanks(m) + row[x..COLUMNS - m]
  }

  function DeleteInRow(row: Row, x: nat, n: nat): (r: Row)
    requires x <= COLUMNS
  {
    var m := Min(n, COLUMNS - x);
    row[..x] + row[x + m..] + Blanks(m)
  }

  /** Cells from column a up to column b of a row become blank. */
  function EraseInRow(row: Row, a: nat, b: nat): (r: Row)
    requires a <= b <= COLUMNS
  {
    row[..a] + Blanks(b - a) + row[b..]
  }

  function SetCell(g: Grid, y: nat, x: nat, c: Cell): (r: Grid)
    requires y < LINES && x < COLUMNS
  {
    g[y := g[y][x := c]]
  }

  // ---- the terminal --------------------------------------------------------------------------------

  /** `state`, `npar` and `par` are the automaton that reads escape sequences; `replies` counts the
      answers to ESC Z. */
  datatype Term = Term(
    grid: Grid, x: nat, y: nat, top: nat, bottom: nat, state: nat, npar: nat, par: seq<nat>,
    attr: nat, savedX: nat, savedY: nat, replies: nat)

  /** The cursor may stand behind the last column, never below the last row. */
  predicate Sound(t: Term)
  {
    && t.x <= COLUMNS && t.y < LINES && t.top < t.bottom <= LINES
    && t.savedX <= COLUMNS && t.savedY < LINES
    && t.state < 4 && t.npar < NPAR && |t.par| == NPAR && t.attr < 256
  }

  /** A terminal that meets its invariant. */
  type Screen = t: Term | Sound(t)
    witness Term(seq(LINES, _ => seq(COLUMNS, _ => BLANK)), 0, 0, 0, LINES, 0, 0, seq(NPAR, _ => 0), 7, 0, 0, 0)

  const MOD32 := 0x1_0000_0000
  const MOD64 := 0x1_0000_0000_0000_0000

  /** The terminal at start: what was on the screen, the cursor where it was, the whole screen as
      the region. */
  function Started(g: Grid, x: nat, y: nat): Screen
    requires x < COLUMNS && y < LINES
  {
    Term(g, x, y, 0, LINES, 0, 0, NoParameters(), 7, 0, 0, 0)
  }

  /** gotoxy takes unsigned int arguments and ignores positions off the screen. */
  function Goto(t: Screen, newX: int, newY: int): (r: Screen)
  {
    var (nx, ny) := (newX % MOD32, newY % MOD32);
    if nx >= COLUMNS || ny >= LINES then t else t.(x := nx, y := ny)
  }

  function LineFeed(t: Screen): (r: Screen)
  {
    if t.y + 1 < t.bottom then t.(y := t.y + 1) else t.(grid := ScrollUp(t.grid, t.top, t.bottom))
  }

  function ReverseLineFeed(t: Screen): (r: Screen)
  {
    if t.y > t.top then t.(y := t.y - 1) else t.(grid := ScrollDown(t.grid, t.top, t.bottom))
  }

  /** The line feed of automatic wrap-around. */
  function Wrap(t: Screen): (r: Screen)
  {
    if t.x >= COLUMNS then LineFeed(t.(x := t.x - COLUMNS)) else t
  }

  function Print(t: Screen, c: nat): (r: Screen)
    requires c < 256
  {
    var w := Wrap(t);
    w.(grid := SetCell(w.grid, w.y, w.x, w.attr * 256 + c), x := w.x + 1)
  }

  function Tab(t: Screen): (r: Screen)
  {
    var nx := t.x + (8 - t.x % 8);
    if nx > COLUMNS then LineFeed(t.(x := nx - COLUMNS)) else t.(x := nx)
  }

  function Rubout(t: Screen): (r: Screen)
  {
    if t.x > 0 then t.(x := t.x - 1, grid := SetCell(t.grid, t.y, t.x - 1, BLANK)) else t
  }

  /** Erase in display: behind the cursor, before it, or all of it. */
  function EraseDisplay(t: Screen, v: nat): (r: Screen)
  {
    if v == 0 then t.(grid := t.grid[..t.y] + [EraseInRow(t.grid[t.y], t.x, COLUMNS)] + BlankRows(LINES - 1 - t.y))
    else if v == 1 then t.(grid := BlankRows(t.y) + [EraseInRow(t.grid[t.y], 0, t.x)] + t.grid[t.y + 1..])
    else if v == 2 then t.(grid := BlankRows(LINES))
    else t
  }

  function EraseLine(t: Screen, v: nat): (r: Screen)
  {
    if v == 0 then t.(grid := t.grid[t.y := EraseInRow(t.grid[t.y], t.x, COLUMNS)])
    else if v == 1 then t.(grid := t.grid[t.y := EraseInRow(t.grid[t.y], 0, t.x)])
    else if v == 2 then t.(grid := t.grid[t.y := BlankRow()])
    else t
  }

  /** How often an editing sequence is repeated: 1 for no parameter, at most a full line or page. */
  function Repeat(par: nat, limit: nat): (n: nat)
    ensures n <= limit || n == 1
  {
    var n := par % MOD32;
    if n > limit then limit else if n == 0 then 1 else n
  }

  /** The last parameter that names an attribute decides. */
  function {:tailrecursion false} Attributes(attr: nat, pars: seq<nat>): (a: nat)
    requires attr < 256
    ensures a < 256
    decreases |pars|
  {
    if pars == [] then attr else
    var n := pars[|pars| - 1];
    if n == 0 || n == 27 then 0x07 else if n == 1 || n == 4 then 0x0f else if n == 7 then 0x70
    else Attributes(attr, pars[..|pars| - 1])
  }

  function OrOne(n: nat): nat { if n == 0 then 1 else n }

  function LessOne(n: nat): nat { if n == 0 then 0 else n - 1 }

  /** The parameters of no sequence. They mean nothing outside one. */
  function NoParameters(): (p: seq<nat>)
    ensures |p| == NPAR
  {
    seq(NPAR, _ => 0)
  }

  predicate IsMotion(c: int)
  {
    || c == 'G' as int || c == '`' as int || c == 'A' as int || c == 'B' as int || c == 'e' as int
    || c == 'C' as int || c == 'a' as int || c == 'D' as int || c == 'E' as int || c == 'F' as int
    || c == 'd' as int || c == 'H' as int || c == 'f' as int
  }

  /** Cursor motion, relative for A to F and absolute, counted from one, for the others. */
  function Motion(t: Screen, c: int, p0: nat, p1: nat): (r: Screen)
  {
    if c == 'G' as int || c == '`' as int then Goto(t, LessOne(p0), t.y)
    else if c == 'A' as int then Goto(t, t.x, t.y - OrOne(p0))
    else if c == 'B' as int || c == 'e' as int then Goto(t, t.x, t.y + OrOne(p0))
    else if c == 'C' as int || c == 'a' as int then Goto(t, t.x + OrOne(p0), t.y)
    else if c == 'D' as int then Goto(t, t.x - OrOne(p0), t.y)
    else if c == 'E' as int then Goto(t, 0, t.y + OrOne(p0))
    else if c == 'F' as int then Goto(t, 0, t.y - OrOne(p0))
    else if c == 'd' as int then Goto(t, t.x, LessOne(p0))
    else Goto(t, LessOne(p1), LessOne(p0))
  }

  /** Erasing, inserting and deleting. */
  function Edit(t: Screen, c: int, p0: nat): (r: Screen)
  {
    if c == 'J' as int then EraseDisplay(t, p0 % MOD32)
    else if c == 'K' as int then EraseLine(t, p0 % MOD32)
    else if c == 'L' as int then t.(grid := InsertRows(t.grid, t.y, Repeat(p0, LINES)))
    else if c == 'M' as int then t.(grid := DeleteRows(t.grid, t.y, Repeat(p0, LINES)))
    else if c == 'P' as int then t.(grid := t.grid[t.y := DeleteInRow(t.grid[t.y], t.x, Repeat(p0, COLUMNS))])
    else if c == '@' as int then t.(grid := t.grid[t.y := InsertInRow(t.grid[t.y], t.x, Repeat(p0, COLUMNS))])
    else t
  }

  function Region(t: Screen, p0: nat, p1: nat): (r: Screen)
  {
    var (a, b) := (LessOne(p0), if p1 == 0 then LINES else p1);
    if a < b <= LINES then t.(top := a, bottom := b) else t
  }

  /** The final byte of a control sequence. */
  function Control(t: Screen, c: int): (r: Screen)
  {
    var u := t.(state := 0, npar := 0, par := NoParameters());
    if IsMotion(c) then Motion(u, c, t.par[0], t.par[1])
    else if c == 'm' as int then u.(attr := Attributes(t.attr, t.par[..t.npar + 1]))
    else if c == 'r' as int then Region(u, t.par[0], t.par[1])
    else if c == 's' as int then u.(savedX := t.x, savedY := t.y)
    else if c == 'u' as int then u.(x := t.savedX, y := t.savedY)
    else Edit(u, c, t.par[0])
  }

  function IsDigit(c: int): bool { '0' as int <= c <= '9' as int }

  /** A byte inside a control sequence: next parameter, digit, or the end. */
  function Parameter(t: Screen, c: int): (r: Screen)
  {
    if c == ';' as int && t.npar < NPAR - 1 then t.(npar := t.npar + 1, state := 3)
    else if IsDigit(c) then
      t.(par := t.par[t.npar := (10 * t.par[t.npar] + c - '0' as int) % MOD64], state := 3)
    else Control(t, c)
  }

  /** The byte after ESC. The source tests the column, not the byte, for ESC 7 and ESC 8. */
  function Escape(t: Screen, c: int): (r: Screen)
  {
    var u := t.(state := 0);
    if c == '[' as int then t.(state := 2)
    else if c == 'E' as int then Goto(u, 0, t.y + 1)
    else if c == 'M' as int then ReverseLineFeed(u)
    else if c == 'D' as int then LineFeed(u)
    else if c == 'Z' as int then u.(replies := t.replies + 1)
    else if t.x == '7' as int then u.(savedX := t.x, savedY := t.y)
    else if t.x == '8' as int then u.(x := t.savedX, y := t.savedY)
    else u
  }

  function Plain(t: Screen, c: int, erase: int): (r: Screen)
  {
    if 31 < c < 127 then Print(t, c)
    else if c == 27 then t.(state := 1)
    else if c == 10 || c == 11 || c == 12 then LineFeed(t)
    else if c == 13 then t.(x := 0)
    else if c == erase then Rubout(t)
    else if c == 8 then (if t.x > 0 then t.(x := t.x - 1) else t)
    else if c == 9 then Tab(t)
    else t
  }

  /** One byte of output; bytes are signed, `erase` is the erase character of the line. */
  function Step(t: Screen, c: int, erase: int): (r: Screen)
  {
    if t.state == 0 then Plain(t, c, erase)
    else if t.state == 1 then Escape(t, c)
    else if t.state == 2 then
      var u := t.(par := NoParameters(), npar := 0, state := 3);
      if c == '?' as int then u else Parameter(u, c)
    else Parameter(t, c)
  }

  function Run(t: Screen, bytes: seq<int>, erase: int): (r: Screen)
  {
    if bytes == [] then t else Step(Run(t, bytes[..|bytes| - 1], erase), bytes[|bytes| - 1], erase)
  }

  // ---- what a line of output shows -------------------------------------------------------------------

  predicate Printable(bytes: seq<int>) { forall i | 0 <= i < |bytes| :: 31 < bytes[i] < 127 }

  /** A row in which the cells from column x on hold the bytes. */
  function Overtyped(row: Row, x: nat, bytes: seq<int>, attr: nat): (r: Row)
    requires x + |bytes| <= COLUMNS && Printable(bytes) && attr < 256
  {
    row[..x] + seq(|bytes|, i requires 0 <= i < |bytes| => attr * 256 + bytes[i]) + row[x + |bytes|..]
  }

  /** Printable text that fits on the line appears where the cursor stands, and nothing else
      changes. */
  lemma {:induction false} TextAppears(t: Screen, bytes: seq<int>, erase: int)
    requires t.state == 0 && t.x + |bytes| <= COLUMNS && Printable(bytes)
    ensures Run(t, bytes, erase) ==
              t.(grid := t.grid[t.y := Overtyped(t.grid[t.y], t.x, bytes, t.attr)], x := t.x + |bytes|)
  {
    if bytes == [] {
      assert Overtyped(t.grid[t.y], t.x, bytes, t.attr) == t.grid[t.y];
    } else {
      var n := |bytes| - 1;
      TextAppears(t, bytes[..n], erase);
      var row := Overtyped(t.grid[t.y], t.x, bytes[..n], t.attr);
      assert row[t.x + n := t.attr * 256 + bytes[n]] == Overtyped(t.grid[t.y], t.x, bytes, t.attr);
    }
  }

  /** ESC 7 is meant to save the cursor; the test is of the column, so it does so only in column 55,
      or when there is nothing to save. */
  lemma SaveByEscape(t: Screen)
    ensures (Escape(t, '7' as int) == t.(state := 0, savedX := t.x, savedY := t.y)) <==>
            (t.x == 55 || (t.savedX == t.x && t.savedY == t.y))
  {
  }

  /** Likewise ESC 8 restores it only in column 56, or when there is nothing to restore. */
  lemma RestoreByEscape(t: Screen)
    ensures (Escape(t, '8' as int) == t.(state := 0, x := t.savedX, y := t.savedY)) <==>
            (t.x == 56 || (t.savedX == t.x && t.savedY == t.y))
  {
  }

  /** In those columns any other byte after ESC does so too. */
  lemma AnyByteAfterEscape(t: Screen, c: int)
    requires c != '[' as int && c != 'E' as int && c != 'M' as int && c != 'D' as int && c != 'Z' as int
    ensures t.x == 55 ==> Escape(t, c) == t.(state := 0, savedX := t.x, savedY := t.y)
    ensures t.x == 56 ==> Escape(t, c) == t.(state := 0, x := t.savedX, y := t.savedY)
    ensures t.x != 55 && t.x != 56 ==> Escape(t, c) == t.(state := 0)
  {
  }

  /** From the start: after one letter and ESC 7 the cursor is in column 1, but the saved one is still
      in column 0, so ESC 8 could not bring it back. */
  lemma EscapeSevenFails(g: Grid, erase: int)
    ensures var t := Run(Started(g, 0, 0), ['A' as int, 27, '7' as int], erase);
            t.x == 1 && t.savedX == 0 && t.state == 0
  {
    var s := Started(g, 0, 0);
    RunMore(s, [], 'A' as int, erase);
    RunMore(s, ['A' as int], 27, erase);
    RunMore(s, ['A' as int, 27], '7' as int, erase);
    assert [] + ['A' as int] == ['A' as int] && ['A' as int] + [27] == ['A' as int, 27];
    assert ['A' as int, 27] + ['7' as int] == ['A' as int, 27, '7' as int];
  }

  lemma RunMore(t: Screen, bytes: seq<int>, c: int, erase: int)
    ensures Run(t, bytes + [c], erase) == Step(Run(t, bytes, erase), c, erase)
  {
    assert (bytes + [c])[..|bytes|] == bytes;
  }
}
