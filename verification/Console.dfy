/** `kernel/console.c`: the terminal on video memory with hardware scrolling.

    Video memory from SCREEN_START to SCREEN_END is an array of 16-bit cells; origin, scr_end and
    pos are cell numbers, so two bytes of the source are one step here. */
module ConsoleDriver {
  import opened Terminal

  const VIDEO_CELLS := 0x4000   // (SCREEN_END - SCREEN_START) / 2
  const SCREEN_CELLS := 2000    // LINES * COLUMNS

  /** Cell number of row r, column c of a screen that starts at o. */
  function At(o: nat, r: nat, c: nat): nat { o + 80 * r + c }

  /** The grid a screen that starts at o shows. */
  ghost function Picture(v: seq<Cell>, o: nat): (g: Grid)
    requires o + SCREEN_CELLS <= |v|
  {
    seq(LINES, r requires 0 <= r < LINES => v[At(o, r, 0)..At(o, r, 0) + COLUMNS])
  }

  /** A grid is shown when every cell is. */
  lemma Shown(v: seq<Cell>, o: nat, g: Grid)
    requires o + SCREEN_CELLS <= |v|
    requires forall r, c | 0 <= r < LINES && 0 <= c < COLUMNS :: v[At(o, r, c)] == g[r][c]
    ensures Picture(v, o) == g
  {
    forall r | 0 <= r < LINES ensures Picture(v, o)[r] == g[r] {
      forall c | 0 <= c < COLUMNS ensures Picture(v, o)[r][c] == g[r][c] {
        assert v[At(o, r, c)] == g[r][c];
      }
    }
  }

  lemma PictureAt(v: seq<Cell>, o: nat, r: nat, c: nat)
    requires o + SCREEN_CELLS <= |v| && r < LINES && c < COLUMNS
    ensures Picture(v, o)[r][c] == v[At(o, r, c)]
  {
  }

  /** One row is changed, the others are not. */
  lemma RowShown(v: seq<Cell>, w: seq<Cell>, o: nat, y: nat, row: Row)
    requires o + SCREEN_CELLS <= |v| == |w| && y < LINES
    requires forall k | 0 <= k < |v| && !(At(o, y, 0) <= k < At(o, y, COLUMNS)) :: w[k] == v[k]
    requires forall c | 0 <= c < COLUMNS :: w[At(o, y, c)] == row[c]
    ensures Picture(w, o) == Picture(v, o)[y := row]
  {
    var g := Picture(v, o)[y := row];
    forall r, c | 0 <= r < LINES && 0 <= c < COLUMNS ensures w[At(o, r, c)] == g[r][c] {
      PictureAt(v, o, r, c);
    }
    Shown(w, o, g);
  }

  /** The cell that moves into (r, c) when rows top .. bottom-1 scroll up. */
  function UpCell(v: seq<Cell>, o: nat, top: nat, bottom: nat, r: nat, c: nat): Cell
    requires o + SCREEN_CELLS <= |v| && bottom <= LINES && r < LINES && c < COLUMNS
  {
    if top <= r && r + 1 < bottom then v[At(o, r + 1, c)] else if r + 1 == bottom then BLANK else v[At(o, r, c)]
  }

  lemma ScrolledUpAt(g: Grid, top: nat, bottom: nat, r: nat)
    requires top < bottom <= LINES && r < LINES
    ensures ScrollUp(g, top, bottom)[r] ==
              if top <= r && r + 1 < bottom then g[r + 1] else if r + 1 == bottom then BlankRow() else g[r]
  {
  }

  lemma UpShown(v: seq<Cell>, o: nat, w: seq<Cell>, p: nat, top: nat, bottom: nat)
    requires o + SCREEN_CELLS <= |v| && p + SCREEN_CELLS <= |w| && top < bottom <= LINES
    requires forall r, c | 0 <= r < LINES && 0 <= c < COLUMNS :: w[At(p, r, c)] == UpCell(v, o, top, bottom, r, c)
    ensures Picture(w, p) == ScrollUp(Picture(v, o), top, bottom)
  {
    hide Picture, ScrollUp;
    var g := ScrollUp(Picture(v, o), top, bottom);
    forall r, c | 0 <= r < LINES && 0 <= c < COLUMNS ensures w[At(p, r, c)] == g[r][c] {
      assert w[At(p, r, c)] == UpCell(v, o, top, bottom, r, c);
      ScrolledUpAt(Picture(v, o), top, bottom, r);
      PictureAt(v, o, r, c);
      if r + 1 < LINES { PictureAt(v, o, r + 1, c); }
    }
    Shown(w, p, g);
  }

  function DownCell(v: seq<Cell>, o: nat, top: nat, bottom: nat, r: nat, c: nat): Cell
    requires o + SCREEN_CELLS <= |v| && bottom <= LINES && r < LINES && c < COLUMNS
  {
    if top < r < bottom then v[At(o, r - 1, c)] else if r == top then BLANK else v[At(o, r, c)]
  }

  lemma ScrolledDownAt(g: Grid, top: nat, bottom: nat, r: nat)
    requires top < bottom <= LINES && r < LINES
    ensures ScrollDown(g, top, bottom)[r] ==
              if top < r < bottom then g[r - 1] else if r == top then BlankRow() else g[r]
  {
  }

  lemma DownShown(v: seq<Cell>, w: seq<Cell>, o: nat, top: nat, bottom: nat)
    requires o + SCREEN_CELLS <= |v| == |w| && top < bottom <= LINES
    requires forall r, c | 0 <= r < LINES && 0 <= c < COLUMNS :: w[At(o, r, c)] == DownCell(v, o, top, bottom, r, c)
    ensures Picture(w, o) == ScrollDown(Picture(v, o), top, bottom)
  {
    hide Picture, ScrollDown;
    var g := ScrollDown(Picture(v, o), top, bottom);
    forall r, c | 0 <= r < LINES && 0 <= c < COLUMNS ensures w[At(o, r, c)] == g[r][c] {
      assert w[At(o, r, c)] == DownCell(v, o, top, bottom, r, c);
      ScrolledDownAt(Picture(v, o), top, bottom, r);
      PictureAt(v, o, r, c);
      if r > 0 { PictureAt(v, o, r - 1, c); }
    }
    Shown(w, o, g);
  }

  lemma WindowMoved(v: seq<Cell>, o: nat, w: seq<Cell>, p: nat)
    requires o + SCREEN_CELLS <= |v| == |w| && p + SCREEN_CELLS <= |w|
    requires forall k {:trigger w[k]} | p <= k < p + SCREEN_CELLS ::
               w[k] == if k < p + 1920 then v[k - p + o + 80] else BLANK
    ensures Picture(w, p) == ScrollUp(Picture(v, o), 0, LINES)
  {
    hide Picture, ScrollUp;
    UpShown(v, o, w, p, 0, LINES);
  }

  lemma MovedUp(v: seq<Cell>, w: seq<Cell>, o: nat, top: nat, bottom: nat)
    requires o + SCREEN_CELLS <= |v| == |w| && top < bottom <= LINES
    requires forall k {:trigger w[k]} | o <= k < o + SCREEN_CELLS ::
               w[k] == if o + 80 * top <= k < o + 80 * (bottom - 1) then v[k + 80]
                       else if o + 80 * (bottom - 1) <= k < o + 80 * bottom then BLANK else v[k]
    ensures Picture(w, o) == ScrollUp(Picture(v, o), top, bottom)
  {
    hide Picture, ScrollUp;
    UpShown(v, o, w, o, top, bottom);
  }

  lemma MovedDown(v: seq<Cell>, w: seq<Cell>, o: nat, top: nat, bottom: nat)
    requires o + SCREEN_CELLS <= |v| == |w| && top < bottom <= LINES
    requires forall k {:trigger w[k]} | o <= k < o + SCREEN_CELLS ::
               w[k] == if o + 80 * (top + 1) <= k < o + 80 * bottom then v[k - 80]
                       else if o + 80 * top <= k < o + 80 * (top + 1) then BLANK else v[k]
    ensures Picture(w, o) == ScrollDown(Picture(v, o), top, bottom)
  {
    hide Picture, ScrollDown;
    DownShown(v, w, o, top, bottom);
  }

  /** Some of the cells from dest on lie outside the screen that starts at w. */
  predicate Leaves(w: nat, dest: nat, count: nat)
  {
    count > 0 && !(w <= dest && dest + count <= w + SCREEN_CELLS)
  }

  class Console {
    const video: array<Cell>
    var origin: nat
    var scrEnd: nat
    var pos: nat
    var x: nat
    var y: nat
    var top: nat
    var bottom: nat
    var state: nat
    var npar: nat
    var par: seq<nat>
    var attr: nat
    var savedX: nat
    var savedY: nat
    var replies: nat
    /** The start of the screen being shown or moved to, and whether a store went outside it. */
    ghost var window: nat
    ghost var strayed: bool

    ghost predicate Astray(k: nat)
      reads this
    {
      !(window <= k < window + SCREEN_CELLS)
    }

    /** Parameters count only while a sequence is read. */
    ghost function Shape(): Term
      requires video.Length == VIDEO_CELLS && origin + SCREEN_CELLS <= VIDEO_CELLS
      reads this, video
    {
      Term(Picture(video[..], origin), x, y, top, bottom, state, if state == 3 then npar else 0,
           if state == 3 then par else NoParameters(), attr, savedX, savedY, replies)
    }

    /** The layout invariant: no store ever went outside the visible screen. */
    ghost predicate Valid()
      reads this, video
    {
      && video.Length == VIDEO_CELLS && scrEnd == origin + SCREEN_CELLS <= VIDEO_CELLS
      && Sound(Shape()) && pos == At(origin, y, x) && |par| == NPAR && npar < NPAR
      && window == origin && !strayed
    }

    /** The terminal this console is. */
    ghost function T(): Screen
      requires Valid()
      reads this, video
    {
      Shape()
    }

    /** Outside the visible screen video memory is as it was. */
    twostate predicate OnlyVisible()
      reads this, video
    {
      forall k | 0 <= k < video.Length && !(origin <= k < origin + SCREEN_CELLS) :: video[k] == old(video[k])
    }

    /** con_init on the memory and the cursor the boot loader left. */
    constructor (memory: array<Cell>, cursorX: nat, cursorY: nat)
      requires memory.Length == VIDEO_CELLS && cursorX < COLUMNS && cursorY < LINES
      ensures Valid() && video == memory && T() == Started(Picture(memory[..], 0), cursorX, cursorY)
    {
      video := memory;
      origin, scrEnd, top, bottom, state, npar, par := 0, SCREEN_CELLS, 0, LINES, 0, 0, NoParameters();
      attr, savedX, savedY, replies, x, y := 7, 0, 0, 0, cursorX, cursorY;
      pos := 80 * cursorY + cursorX;
      window, strayed := 0, false;
    }

    // ---- memory helpers -----------------------------------------------------------------------

    method Memsetw(dest: nat, val: Cell, count: nat)
      requires dest + count <= video.Length
      modifies video, `strayed
      ensures forall k | 0 <= k < video.Length :: video[k] == if dest <= k < dest + count then val else old(video[k])
      ensures strayed == (old(strayed) || Leaves(window, dest, count))
    {
      var i := 0;
      while i < count
        invariant 0 <= i <= count
        invariant forall k | 0 <= k < video.Length :: video[k] == if dest <= k < dest + i then val else old(video[k])
        invariant strayed == (old(strayed) || Leaves(window, dest, i))
      {
        video[dest + i] := val;
        strayed := strayed || Astray(dest + i);
        i := i + 1;
      }
    }

    /** Copies upwards; the ranges may overlap when the destination lies lower. */
    method Memcpyw(dest: nat, src: nat, count: nat)
      requires dest <= src && src + count <= video.Length
      modifies video, `strayed
      ensures forall k | 0 <= k < video.Length ::
                video[k] == if dest <= k < dest + count then old(video[k - dest + src]) else old(video[k])
      ensures strayed == (old(strayed) || Leaves(window, dest, count))
    {
      var i := 0;
      while i < count
        invariant 0 <= i <= count
        invariant forall k | 0 <= k < video.Length ::
                    video[k] == if dest <= k < dest + i then old(video[k - dest + src]) else old(video[k])
        invariant strayed == (old(strayed) || Leaves(window, dest, i))
      {
        video[dest + i] := video[src + i];
        strayed := strayed || Astray(dest + i);
        i := i + 1;
      }
    }

    /** Copies downwards; the ranges may overlap when the destination lies higher. */
    method MemcpywBackward(dest: nat, src: nat, count: nat)
      requires src <= dest && dest + count <= video.Length
      modifies video, `strayed
      ensures forall k | 0 <= k < video.Length ::
                video[k] == if dest <= k < dest + count then old(video[k - dest + src]) else old(video[k])
      ensures strayed == (old(strayed) || Leaves(window, dest, count))
    {
      var i := count;
      while i > 0
        invariant 0 <= i <= count
        invariant forall k | 0 <= k < video.Length ::
                    video[k] == if dest + i <= k < dest + count then old(video[k - dest + src]) else old(video[k])
        invariant strayed == (old(strayed) || Leaves(window, dest + i, count - i))
      {
        i := i - 1;
        video[dest + i] := video[src + i];
        strayed := strayed || Astray(dest + i);
      }
    }

    // ---- scrolling ----------------------------------------------------------------------------

    /** The stores of the hardware arm of scrup: the window moves down one line, and to the start of
        video memory when it would leave it; there the lines are copied. */
    method MoveWindow()
      requires video.Length == VIDEO_CELLS && scrEnd == origin + SCREEN_CELLS <= VIDEO_CELLS && origin <= pos
      modifies this, video
      ensures Moves(origin, scrEnd, pos) && window == origin && strayed == old(strayed)
      ensures forall k {:trigger video[k]} | 0 <= k < video.Length ::
                video[k] == if origin <= k < origin + 1920 then old(video[..])[k - origin + old(origin) + 80]
                            else if origin + 1920 <= k < origin + 2000 then BLANK else old(video[k])
      ensures unchanged(`x, `y, `top, `bottom, `state, `npar, `par, `attr, `savedX, `savedY, `replies)
    {
      origin := origin + COLUMNS;
      pos := pos + COLUMNS;
      scrEnd := scrEnd + COLUMNS;
      if scrEnd > VIDEO_CELLS {
        window := 0;
        Memcpyw(0, origin, 80 * (LINES - 1));
        Memsetw(80 * (LINES - 1), BLANK, COLUMNS);
        scrEnd := scrEnd - origin;
        pos := pos - origin;
        origin := 0;
      } else {
        window := origin;
        Memsetw(scrEnd - COLUMNS, BLANK, COLUMNS);
      }
    }

    /** Screen, end and cursor have moved together. */
    twostate predicate Moves(o: nat, e: nat, p: nat)
      reads this
    {
      o + SCREEN_CELLS == e <= VIDEO_CELLS && p - o == old(pos) - old(origin)
    }

    /** The hardware arm of scrup is a scroll of the whole screen. */
    method ScrollWindow()
      requires Valid() && top == 0 && bottom == LINES
      modifies this, video
      ensures Valid() && T() == old(T()).(grid := ScrollUp(old(T()).grid, 0, LINES)) && OnlyVisible()
    {
      hide Picture, ScrollUp;
      MoveWindow();
      WindowMoved(old(video[..]), old(origin), video[..], origin);
    }

    /** The other arm of scrup: the lines of the region are copied. */
    method MoveUp()
      requires video.Length == VIDEO_CELLS && origin + SCREEN_CELLS <= VIDEO_CELLS && top < bottom <= LINES
      modifies video, `strayed
      ensures forall k {:trigger video[k]} | 0 <= k < video.Length ::
                video[k] == if origin + 80 * top <= k < origin + 80 * (bottom - 1) then old(video[k + 80])
                            else if origin + 80 * (bottom - 1) <= k < origin + 80 * bottom then BLANK else old(video[k])
      ensures window == origin ==> strayed == old(strayed)
    {
      Memcpyw(origin + 80 * top, origin + 80 * (top + 1), 80 * (bottom - top - 1));
      Memsetw(origin + 80 * (bottom - 1), BLANK, COLUMNS);
    }

    method MoveDown()
      requires video.Length == VIDEO_CELLS && origin + SCREEN_CELLS <= VIDEO_CELLS && top < bottom <= LINES
      modifies video, `strayed
      ensures forall k {:trigger video[k]} | 0 <= k < video.Length ::
                video[k] == if origin + 80 * (top + 1) <= k < origin + 80 * bottom then old(video[k - 80])
                            else if origin + 80 * top <= k < origin + 80 * (top + 1) then BLANK else old(video[k])
      ensures window == origin ==> strayed == old(strayed)
    {
      MemcpywBackward(origin + 80 * (top + 1), origin + 80 * top, 80 * (bottom - top - 1));
      Memsetw(origin + 80 * top, BLANK, COLUMNS);
    }

    method Scrup()
      requires Valid()
      modifies this, video
      ensures Valid() && T() == old(T()).(grid := ScrollUp(old(T()).grid, old(top), old(bottom))) && OnlyVisible()
    {
      hide Picture, ScrollUp;
      if top == 0 && bottom == LINES {
        ScrollWindow();
        return;
      }
      MoveUp();
      MovedUp(old(video[..]), video[..], origin, top, bottom);
    }

    method Scrdown()
      requires Valid()
      modifies video, `strayed
      ensures Valid() && T() == old(T()).(grid := ScrollDown(old(T()).grid, old(top), old(bottom))) && OnlyVisible()
    {
      hide Picture, ScrollDown;
      MoveDown();
      MovedDown(old(video[..]), video[..], origin, top, bottom);
    }
  
    method Lf()
      requires Valid()
      modifies this, video
      ensures Valid() && T() == LineFeed(old(T())) && OnlyVisible()
    {
      if y + 1 < bottom {
        y := y + 1;
        pos := pos + COLUMNS;
        return;
      }
      Scrup();
    }

    method Ri()
      requires Valid()
      modifies this, video
      ensures Valid() && T() == ReverseLineFeed(old(T())) && OnlyVisible()
    {
      if y > top {
        y := y - 1;
        pos := pos - COLUMNS;
        return;
      }
      Scrdown();
    }

    // ---- the cursor -----------------------------------------------------------------------------

    method Gotoxy(newX: int, newY: int)
      requires Valid()
      modifies this
      ensures Valid() && T() == Goto(old(T()), newX, newY)
    {
      var nx, ny := newX % MOD32, newY % MOD32;
      if nx >= COLUMNS || ny >= LINES { return; }
      x, y := nx, ny;
      pos := origin + 80 * y + x;
    }

    method Cr()
      requires Valid()
      modifies this
      ensures Valid() && T() == old(T()).(x := 0)
    {
      pos := pos - x;
      x := 0;
    }

    method SaveCur()
      requires Valid()
      modifies this
      ensures Valid() && T() == old(T()).(savedX := old(x), savedY := old(y))
    {
      savedX, savedY := x, y;
    }

    method RestoreCur()
      requires Valid()
      modifies this
      ensures Valid() && T() == old(T()).(x := old(savedX), y := old(savedY))
    {
      x, y := savedX, savedY;
      pos := origin + 80 * y + x;
    }

    // ---- single cells ---------------------------------------------------------------------------

    /** A store at the cursor, when the cursor is on the screen. */
    method Poke(c: Cell)
      requires Valid() && x < COLUMNS
      modifies video, `strayed
      ensures Valid() && T() == old(T()).(grid := SetCell(old(T()).grid, y, x, c)) && OnlyVisible()
    {
      ghost var g := SetCell(T().grid, y, x, c);
      video[pos] := c;
      strayed := strayed || Astray(pos);
      forall r, k | 0 <= r < LINES && 0 <= k < COLUMNS ensures video[..][At(origin, r, k)] == g[r][k] {
        PictureAt(old(video[..]), origin, r, k);
        assert At(origin, r, k) == pos ==> r == y && k == x;
      }
      Shown(video[..], origin, g);
    }

    method Del()
      requires Valid()
      modifies this, video
      ensures Valid() && T() == Rubout(old(T())) && OnlyVisible()
    {
      if x > 0 {
        pos := pos - 1;
        x := x - 1;
        Poke(BLANK);
      }
    }

    /** Behind the last column the cursor goes on at the start of the next line. */
    method WrapLine()
      requires Valid()
      modifies this, video
      ensures Valid() && T() == Wrap(old(T())) && OnlyVisible() && x < COLUMNS
    {
      hide Picture, LineFeed;
      if x >= COLUMNS {
        x := x - COLUMNS;
        pos := pos - COLUMNS;
        LineFeedColumn(T());
        Lf();
      }
    }

    /** The printing branch of con_write. */
    method PutChar(c: nat)
      requires Valid() && c < 256
      modifies this, video
      ensures Valid() && T() == Print(old(T()), c) && OnlyVisible()
    {
      hide Picture, SetCell, Wrap;
      WrapLine();
      Poke(attr * 256 + c);
      pos := pos + 1;
      x := x + 1;
    }

    /** The tab branch of con_write. */
    method PutTab()
      requires Valid()
      modifies this, video
      ensures Valid() && T() == Tab(old(T())) && OnlyVisible()
    {
      hide Picture, LineFeed;
      var c := 8 - x % 8;
      x := x + c;
      pos := pos + c;
      if x > COLUMNS {
        x := x - COLUMNS;
        pos := pos - COLUMNS;
        Lf();
      }
    }
  
    // ---- erasing ----------------------------------------------------------------------------------

    /** Cells a .. b-1 of the screen become blank. */
    method Erase(a: nat, b: nat)
      requires Valid() && a <= b <= SCREEN_CELLS
      modifies video, `strayed
      ensures Valid() && T() == old(T()).(grid := Blanked(old(T()).grid, a, b)) && OnlyVisible()
    {
      ghost var g := Blanked(T().grid, a, b);
      Memsetw(origin + a, BLANK, b - a);
      forall r, c | 0 <= r < LINES && 0 <= c < COLUMNS ensures video[..][At(origin, r, c)] == g[r][c] {
        PictureAt(old(video[..]), origin, r, c);
      }
      Shown(video[..], origin, g);
    }

    method CsiJ(v: nat)
      requires Valid()
      modifies video, `strayed
      ensures Valid() && T() == EraseDisplay(old(T()), v) && OnlyVisible()
    {
      hide Picture, Blanked, EraseDisplay;
      BlankedDisplay(T());
      if v == 0 {
        Erase(pos - origin, scrEnd - origin);
      } else if v == 1 {
        Erase(0, pos - origin);
      } else if v == 2 {
        Erase(0, 80 * LINES);
      }
    }

    method CsiK(v: nat)
      requires Valid()
      modifies video, `strayed
      ensures Valid() && T() == EraseLine(old(T()), v) && OnlyVisible()
    {
      hide Picture, Blanked, EraseLine;
      BlankedLine(T());
      if v == 0 {
        if x >= COLUMNS { return; }
        Erase(pos - origin, pos - origin + (COLUMNS - x));
      } else if v == 1 {
        Erase(pos - x - origin, pos - x - origin + if x < COLUMNS then x else COLUMNS);
      } else if v == 2 {
        Erase(pos - x - origin, pos - x - origin + COLUMNS);
      }
    }

    // ---- inserting and deleting -----------------------------------------------------------------

    /** The loop of insert_char: the cells from the cursor to the end of the line move right. */
    method ShiftRight()
      requires pos + (COLUMNS - x) <= video.Length && x <= COLUMNS
      modifies video, `strayed
      ensures forall k {:trigger video[k]} | 0 <= k < video.Length :: video[k] ==
                if k == pos && x < COLUMNS then BLANK
                else if pos < k < pos + (COLUMNS - x) then old(video[k - 1]) else old(video[k])
      ensures !Leaves(window, pos, COLUMNS - x) ==> strayed == old(strayed)
    {
      var i, prev, p := x, BLANK, pos;
      while i < COLUMNS
        invariant x <= i <= COLUMNS && p == pos + (i - x)
        invariant !Leaves(window, pos, COLUMNS - x) ==> strayed == old(strayed)
        invariant i > x ==> prev == old(video[p - 1])
        invariant i == x ==> prev == BLANK
        invariant forall k | 0 <= k < video.Length ::
                    video[k] == if k == pos && pos < p then BLANK else if pos < k < p then old(video[k - 1]) else old(video[k])
      {
        i := i + 1;
        var tmp := video[p];
        video[p] := prev;
        strayed := strayed || Astray(p);
        prev := tmp;
        p := p + 1;
      }
    }

    method InsertChar()
      requires Valid()
      modifies video, `strayed
      ensures Valid() && T() == old(T()).(grid := old(T()).grid[y := InsertInRow(old(T()).grid[y], x, 1)]) && OnlyVisible()
    {
      hide Picture, InsertInRow;
      ShiftRight();
      InsertShown(old(video[..]), video[..], origin, y, x);
    }

    /** The loop of delete_char: the cells behind the cursor move left. */
    method ShiftLeft()
      requires pos + (COLUMNS - x) <= video.Length && x < COLUMNS
      modifies video, `strayed
      ensures forall k {:trigger video[k]} | 0 <= k < video.Length :: video[k] ==
                if k == pos + (79 - x) then BLANK
                else if pos <= k < pos + (79 - x) then old(video[k + 1]) else old(video[k])
      ensures !Leaves(window, pos, COLUMNS - x) ==> strayed == old(strayed)
    {
      var i, p := x, pos;
      while i + 1 < COLUMNS
        invariant x <= i < COLUMNS && p == pos + (i - x)
        invariant !Leaves(window, pos, COLUMNS - x) ==> strayed == old(strayed)
        invariant forall k | 0 <= k < video.Length ::
                    video[k] == if pos <= k < p then old(video[k + 1]) else old(video[k])
      {
        video[p] := video[p + 1];
        strayed := strayed || Astray(p);
        p := p + 1;
        i := i + 1;
      }
      video[p] := BLANK;
      strayed := strayed || Astray(p);
    }

    method DeleteChar()
      requires Valid()
      modifies video, `strayed
      ensures Valid() && T() == old(T()).(grid := old(T()).grid[y := DeleteInRow(old(T()).grid[y], x, 1)]) && OnlyVisible()
    {
      if x >= COLUMNS {
        assert DeleteInRow(T().grid[y], x, 1) == T().grid[y];
        return;
      }
      hide Picture, DeleteInRow;
      ShiftLeft();
      DeleteShown(old(video[..]), video[..], origin, y, x);
    }

    method InsertLine()
      requires Valid()
      modifies `top, `bottom, `strayed, video
      ensures Valid() && T() == old(T()).(grid := InsertRows(old(T()).grid, old(y), 1)) && OnlyVisible()
    {
      InsertOneRow(T().grid, y);
      hide Picture;
      var oldTop, oldBottom := top, bottom;
      top, bottom := y, LINES;
      Scrdown();
      top, bottom := oldTop, oldBottom;
    }

    method DeleteLine()
      requires Valid()
      modifies this, video
      ensures Valid() && T() == old(T()).(grid := DeleteRows(old(T()).grid, old(y), 1)) && OnlyVisible()
    {
      DeleteOneRow(T().grid, y);
      hide Picture;
      var oldTop, oldBottom := top, bottom;
      top, bottom := y, LINES;
      Scrup();
      top, bottom := oldTop, oldBottom;
    }

    method CsiAt(nr: nat)
      requires Valid()
      modifies video, `strayed
      ensures Valid() && OnlyVisible()
      ensures T() == old(T()).(grid := old(T()).grid[y := InsertInRow(old(T()).grid[y], x, Repeat(nr, COLUMNS))])
    {
      hide Picture, InsertInRow;
      ghost var g := T().grid;
      InsertNothing(g, y, x);
      var n, i := Repeat(nr, COLUMNS), 0;
      while i < n
        invariant 0 <= i <= n && Valid() && OnlyVisible()
        invariant T() == old(T()).(grid := g[y := InsertInRow(g[y], x, i)])
      {
        InsertOneMore(g[y], x, i);
        InsertChar();
        i := i + 1;
      }
    }

    method CsiP(nr: nat)
      requires Valid()
      modifies video, `strayed
      ensures Valid() && OnlyVisible()
      ensures T() == old(T()).(grid := old(T()).grid[y := DeleteInRow(old(T()).grid[y], x, Repeat(nr, COLUMNS))])
    {
      hide Picture, DeleteInRow;
      ghost var g := T().grid;
      DeleteNothing(g, y, x);
      var n, i := Repeat(nr, COLUMNS), 0;
      while i < n
        invariant 0 <= i <= n && Valid() && OnlyVisible()
        invariant T() == old(T()).(grid := g[y := DeleteInRow(g[y], x, i)])
      {
        DeleteOneMore(g[y], x, i);
        DeleteChar();
        i := i + 1;
      }
    }

    method CsiL(nr: nat)
      requires Valid()
      modifies `top, `bottom, `strayed, video
      ensures Valid() && OnlyVisible()
      ensures T() == old(T()).(grid := InsertRows(old(T()).grid, old(y), Repeat(nr, LINES)))
    {
      hide Picture, InsertRows;
      ghost var g := T().grid;
      InsertNoRows(g, y);
      var n, i := Repeat(nr, LINES), 0;
      while i < n
        invariant 0 <= i <= n && Valid() && OnlyVisible()
        invariant T() == old(T()).(grid := InsertRows(g, old(y), i))
      {
        InsertRowMore(g, y, i);
        InsertLine();
        i := i + 1;
      }
    }

    /** csi_M. Deleting at the top row of the screen goes through the hardware scroll. */
    method CsiDeleteLines(nr: nat)
      requires Valid()
      modifies this, video
      ensures Valid()
      ensures T() == old(T()).(grid := DeleteRows(old(T()).grid, old(y), Repeat(nr, LINES)))
    {
      hide Picture, DeleteRows;
      ghost var g := T().grid;
      DeleteNoRows(g, y);
      var n, i := Repeat(nr, LINES), 0;
      while i < n
        invariant 0 <= i <= n && Valid()
        invariant T() == old(T()).(grid := DeleteRows(g, old(y), i))
      {
        DeleteRowMore(g, y, i);
        DeleteLine();
        i := i + 1;
      }
    }

    // ---- escape sequences ---------------------------------------------------------------------------

    method CsiM()
      requires Valid()
      modifies `attr
      ensures Valid() && T() == old(T()).(attr := Attributes(old(attr), par[..npar + 1]))
    {
      hide Picture;
      var i := 0;
      while i <= npar
        invariant 0 <= i <= npar + 1 && attr == Attributes(old(attr), par[..i])
      {
        assert par[..i + 1][..i] == par[..i];
        if par[i] == 0 {
          attr := 0x07;
        } else if par[i] == 1 {
          attr := 0x0f;
        } else if par[i] == 4 {
          attr := 0x0f;
        } else if par[i] == 7 {
          attr := 0x70;
        } else if par[i] == 27 {
          attr := 0x07;
        }
        i := i + 1;
      }
    }

    method DecrementParameter(k: nat)
      requires Valid() && k < 2 && state == 0
      modifies `par
      ensures Valid() && T() == old(T()) && par == old(par)[k := LessOne(old(par)[k])]
    {
      if par[k] > 0 { par := par[k := par[k] - 1]; }
    }

    method AtLeastOne()
      requires Valid() && state == 0
      modifies `par
      ensures Valid() && T() == old(T()) && par == old(par)[0 := OrOne(old(par)[0])]
    {
      if par[0] == 0 { par := par[0 := 1]; }
    }

    /** The cases of con_write that move the cursor. */
    method Move(c: int)
      requires Valid() && state == 0 && IsMotion(c)
      modifies this
      ensures Valid() && T() == Motion(old(T()), c, old(par[0]), old(par[1]))
    {
      hide Picture, Goto;
      if c == 'G' as int || c == '`' as int {
        DecrementParameter(0);
        Gotoxy(par[0], y);
      } else if c == 'A' as int {
        AtLeastOne();
        Gotoxy(x, y - par[0]);
      } else if c == 'B' as int || c == 'e' as int {
        AtLeastOne();
        Gotoxy(x, y + par[0]);
      } else if c == 'C' as int || c == 'a' as int {
        AtLeastOne();
        Gotoxy(x + par[0], y);
      } else if c == 'D' as int {
        AtLeastOne();
        Gotoxy(x - par[0], y);
      } else if c == 'E' as int {
        AtLeastOne();
        Gotoxy(0, y + par[0]);
      } else if c == 'F' as int {
        AtLeastOne();
        Gotoxy(0, y - par[0]);
      } else if c == 'd' as int {
        DecrementParameter(0);
        Gotoxy(x, par[0]);
      } else {
        DecrementParameter(0);
        DecrementParameter(1);
        Gotoxy(par[1], par[0]);
      }
    }

    /** The cases of con_write that change the text. */
    method EditText(c: int)
      requires Valid() && state == 0
      modifies this, video
      ensures Valid() && T() == Edit(old(T()), c, old(par[0]))
    {
      hide Picture, EraseDisplay, EraseLine, InsertRows, DeleteRows, InsertInRow, DeleteInRow, Repeat;
      if c == 'J' as int {
        CsiJ(par[0] % MOD32);
      } else if c == 'K' as int {
        CsiK(par[0] % MOD32);
      } else if c == 'L' as int {
        CsiL(par[0]);
      } else if c == 'M' as int {
        CsiDeleteLines(par[0]);
      } else if c == 'P' as int {
        CsiP(par[0]);
      } else if c == '@' as int {
        CsiAt(par[0]);
      }
    }

    method SetRegion()
      requires Valid() && state == 0
      modifies this
      ensures Valid() && T() == Region(old(T()), old(par[0]), old(par[1]))
    {
      hide Picture;
      DecrementParameter(0);
      if par[1] == 0 { par := par[1 := LINES]; }
      if par[0] < par[1] && par[1] <= LINES {
        top, bottom := par[0], par[1];
      }
    }

    /** State 4 of con_write. */
    method FinalByte(c: int)
      requires Valid() && state == 3
      modifies this, video
      ensures Valid() && T() == Control(old(T()), c)
    {
      hide Picture, Motion, IsMotion, Region, Edit, Attributes;
      state := 0;
      if IsMotion(c) {
        Move(c);
      } else if c == 'm' as int {
        CsiM();
      } else if c == 'r' as int {
        SetRegion();
      } else if c == 's' as int {
        SaveCur();
      } else if c == 'u' as int {
        RestoreCur();
      } else {
        EditText(c);
      }
    }

    /** State 3 of con_write. */
    method ParameterByte(c: int)
      requires Valid() && state == 3
      modifies this, video
      ensures Valid() && T() == Parameter(old(T()), c)
    {
      hide Picture, Control;
      if c == ';' as int && npar < NPAR - 1 {
        npar := npar + 1;
      } else if '0' as int <= c <= '9' as int {
        par := par[npar := (10 * par[npar] + c - '0' as int) % MOD64];
      } else {
        FinalByte(c);
      }
    }

    /** State 1 of con_write. */
    method EscapeByte(c: int)
      requires Valid() && state == 1
      modifies this, video
      ensures Valid() && T() == Escape(old(T()), c)
    {
      hide Picture, Goto, LineFeed, ReverseLineFeed;
      state := 0;
      if c == '[' as int {
        state := 2;
      } else if c == 'E' as int {
        Gotoxy(0, y + 1);
      } else if c == 'M' as int {
        Ri();
      } else if c == 'D' as int {
        Lf();
      } else if c == 'Z' as int {
        replies := replies + 1;
      } else if x == '7' as int {
        SaveCur();
      } else if x == '8' as int {
        RestoreCur();
      }
    }

    /** State 0 of con_write. */
    method PlainByte(c: int, erase: int)
      requires Valid() && state == 0
      modifies this, video
      ensures Valid() && T() == Plain(old(T()), c, erase)
    {
      hide Picture, Print, LineFeed, Rubout, Tab;
      if 31 < c < 127 {
        PutChar(c);
      } else if c == 27 {
        state := 1;
      } else if c == 10 || c == 11 || c == 12 {
        Lf();
      } else if c == 13 {
        Cr();
      } else if c == erase {
        Del();
      } else if c == 8 {
        if x > 0 {
          x := x - 1;
          pos := pos - 1;
        }
      } else if c == 9 {
        PutTab();
      }
    }

    method PutByte(c: int, erase: int)
      requires Valid()
      modifies this, video
      ensures Valid() && T() == Terminal.Step(old(T()), c, erase)
    {
      hide Picture, Plain, Escape, Parameter;
      if state == 0 {
        PlainByte(c, erase);
      } else if state == 1 {
        EscapeByte(c);
      } else {
        if state == 2 {
          par, npar := NoParameters(), 0;
          state := 3;
          if c == '?' as int { return; }
        }
        ParameterByte(c);
      }
    }

    /** con_write: the video memory shows what the plain terminal shows after the same bytes, and every
        store on the way lay inside the visible screen. */
    method ConWrite(bytes: seq<int>, erase: int)
      requires Valid()
      modifies this, video
      ensures Valid() && T() == Run(old(T()), bytes, erase) && !strayed
    {
      hide Picture, Terminal.Step;
      var i := 0;
      while i < |bytes|
        invariant 0 <= i <= |bytes| && Valid() && T() == Run(old(T()), bytes[..i], erase)
      {
        assert bytes[..i + 1][..i] == bytes[..i];
        PutByte(bytes[i], erase);
        i := i + 1;
      }
      assert bytes[..i] == bytes;
    }
  }

  // ---- how repeated edits add up ------------------------------------------------------------------

  /** Cells a .. b-1, counted row by row, become blank. */
  ghost function Blanked(g: Grid, a: nat, b: nat): (r: Grid)
  {
    seq(LINES, r requires 0 <= r < LINES =>
      seq(COLUMNS, c requires 0 <= c < COLUMNS => if a <= 80 * r + c < b then BLANK else g[r][c]))
  }

  lemma BlankedDisplay(t: Screen)
    ensures EraseDisplay(t, 0) == t.(grid := Blanked(t.grid, 80 * t.y + t.x, SCREEN_CELLS))
    ensures EraseDisplay(t, 1) == t.(grid := Blanked(t.grid, 0, 80 * t.y + t.x))
    ensures EraseDisplay(t, 2) == t.(grid := Blanked(t.grid, 0, SCREEN_CELLS))
    ensures forall v: nat | v > 2 :: EraseDisplay(t, v) == t
  {
    SameGrid(EraseDisplay(t, 0).grid, Blanked(t.grid, 80 * t.y + t.x, SCREEN_CELLS));
    SameGrid(EraseDisplay(t, 1).grid, Blanked(t.grid, 0, 80 * t.y + t.x));
    SameGrid(EraseDisplay(t, 2).grid, Blanked(t.grid, 0, SCREEN_CELLS));
  }

  lemma BlankedLine(t: Screen)
    ensures EraseLine(t, 0) == t.(grid := Blanked(t.grid, 80 * t.y + t.x, 80 * t.y + COLUMNS))
    ensures EraseLine(t, 1) == t.(grid := Blanked(t.grid, 80 * t.y, 80 * t.y + t.x))
    ensures EraseLine(t, 2) == t.(grid := Blanked(t.grid, 80 * t.y, 80 * t.y + COLUMNS))
    ensures t.x == COLUMNS ==> EraseLine(t, 0) == t
    ensures forall v: nat | v > 2 :: EraseLine(t, v) == t
  {
    SameGrid(EraseLine(t, 0).grid, Blanked(t.grid, 80 * t.y + t.x, 80 * t.y + COLUMNS));
    SameGrid(EraseLine(t, 1).grid, Blanked(t.grid, 80 * t.y, 80 * t.y + t.x));
    SameGrid(EraseLine(t, 2).grid, Blanked(t.grid, 80 * t.y, 80 * t.y + COLUMNS));
    if t.x == COLUMNS { SameGrid(EraseLine(t, 0).grid, t.grid); }
  }

  lemma SameGrid(g: Grid, h: Grid)
    requires forall r, c | 0 <= r < LINES && 0 <= c < COLUMNS :: g[r][c] == h[r][c]
    ensures g == h
  {
    forall r | 0 <= r < LINES ensures g[r] == h[r] {
    }
  }

  lemma InsertShown(v: seq<Cell>, w: seq<Cell>, o: nat, y: nat, x: nat)
    requires o + SCREEN_CELLS <= |v| == |w| && y < LINES && x <= COLUMNS
    requires forall k {:trigger w[k]} | 0 <= k < |v| :: w[k] ==
               if k == At(o, y, x) && x < COLUMNS then BLANK
               else if At(o, y, x) < k < At(o, y, COLUMNS) then v[k - 1] else v[k]
    ensures Picture(w, o) == Picture(v, o)[y := InsertInRow(Picture(v, o)[y], x, 1)]
  {
    var row := InsertInRow(Picture(v, o)[y], x, 1);
    forall c | 0 <= c < COLUMNS ensures w[At(o, y, c)] == row[c] {
      InsertedAt(Picture(v, o)[y], x, 1, c);
      PictureAt(v, o, y, c);
      if c > 0 { PictureAt(v, o, y, c - 1); }
    }
    RowShown(v, w, o, y, row);
  }

  lemma DeleteShown(v: seq<Cell>, w: seq<Cell>, o: nat, y: nat, x: nat)
    requires o + SCREEN_CELLS <= |v| == |w| && y < LINES && x < COLUMNS
    requires forall k {:trigger w[k]} | 0 <= k < |v| :: w[k] ==
               if k == At(o, y, COLUMNS - 1) then BLANK
               else if At(o, y, x) <= k < At(o, y, COLUMNS - 1) then v[k + 1] else v[k]
    ensures Picture(w, o) == Picture(v, o)[y := DeleteInRow(Picture(v, o)[y], x, 1)]
  {
    var row := DeleteInRow(Picture(v, o)[y], x, 1);
    forall c | 0 <= c < COLUMNS ensures w[At(o, y, c)] == row[c] {
      PictureAt(v, o, y, c);
      if c + 1 < COLUMNS { PictureAt(v, o, y, c + 1); }
    }
    RowShown(v, w, o, y, row);
  }

  lemma InsertNothing(g: Grid, y: nat, x: nat)
    requires y < LINES && x <= COLUMNS
    ensures g[y := InsertInRow(g[y], x, 0)] == g
  {
    assert InsertInRow(g[y], x, 0) == g[y];
  }

  lemma InsertedAt(row: Row, x: nat, n: nat, i: nat)
    requires x <= COLUMNS && i < COLUMNS
    ensures InsertInRow(row, x, n)[i] == if i < x then row[i] else if i < x + n then BLANK else row[i - n]
  {
  }

  lemma InsertOneMore(row: Row, x: nat, n: nat)
    requires x <= COLUMNS
    ensures InsertInRow(InsertInRow(row, x, n), x, 1) == InsertInRow(row, x, n + 1)
  {
    var s := InsertInRow(row, x, n);
    var (a, b) := (InsertInRow(s, x, 1), InsertInRow(row, x, n + 1));
    forall i | 0 <= i < COLUMNS ensures a[i] == b[i] {
      InsertedAt(s, x, 1, i);
      InsertedAt(row, x, n + 1, i);
      InsertedAt(row, x, n, i);
      if i > 0 { InsertedAt(row, x, n, i - 1); }
    }
  }

  lemma DeleteNothing(g: Grid, y: nat, x: nat)
    requires y < LINES && x <= COLUMNS
    ensures g[y := DeleteInRow(g[y], x, 0)] == g
  {
    assert DeleteInRow(g[y], x, 0) == g[y];
  }

  lemma DeleteOneMore(row: Row, x: nat, n: nat)
    requires x <= COLUMNS
    ensures DeleteInRow(DeleteInRow(row, x, n), x, 1) == DeleteInRow(row, x, n + 1)
  {
  }

  lemma InsertNoRows(g: Grid, y: nat)
    requires y < LINES
    ensures InsertRows(g, y, 0) == g
  {
  }

  lemma InsertOneRow(g: Grid, y: nat)
    requires y < LINES
    ensures ScrollDown(g, y, LINES) == InsertRows(g, y, 1)
  {
  }

  lemma InsertedRowAt(g: Grid, y: nat, n: nat, i: nat)
    requires y < LINES && i < LINES
    ensures InsertRows(g, y, n)[i] == if i < y then g[i] else if i < y + n then BlankRow() else g[i - n]
  {
  }

  lemma InsertRowMore(g: Grid, y: nat, n: nat)
    requires y < LINES
    ensures InsertRows(InsertRows(g, y, n), y, 1) == InsertRows(g, y, n + 1)
  {
    var h := InsertRows(g, y, n);
    var (a, b) := (InsertRows(h, y, 1), InsertRows(g, y, n + 1));
    forall i | 0 <= i < LINES ensures a[i] == b[i] {
      InsertedRowAt(h, y, 1, i);
      InsertedRowAt(g, y, n + 1, i);
      InsertedRowAt(g, y, n, i);
      if i > 0 { InsertedRowAt(g, y, n, i - 1); }
    }
  }

  lemma DeleteNoRows(g: Grid, y: nat)
    requires y < LINES
    ensures DeleteRows(g, y, 0) == g
  {
  }

  lemma DeleteOneRow(g: Grid, y: nat)
    requires y < LINES
    ensures ScrollUp(g, y, LINES) == DeleteRows(g, y, 1)
  {
  }

  lemma DeleteRowMore(g: Grid, y: nat, n: nat)
    requires y < LINES
    ensures DeleteRows(DeleteRows(g, y, n), y, 1) == DeleteRows(g, y, n + 1)
  {
  }

  lemma LineFeedColumn(t: Screen)
    ensures LineFeed(t).x == t.x
  {
  }
}
