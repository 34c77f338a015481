/** Text as graphemes: lines, columns and soft wrapping. */
module EditorModel {
  // Cursors are grapheme boundaries; `Offset` gives the byte offset the program stores.

  import opened Ids

  type Positive = n: nat | n > 0 witness 1

  // A newline, or any other grapheme cluster with its UTF-8 length and display width.
  datatype Grapheme = Newline | Cluster(id: nat, bytes: Positive, width: Positive)

  type Text = seq<Grapheme>

  function Length(g: Grapheme): Positive {
    if g.Newline? then 1 else g.bytes
  }

  function Bytes(text: Text): nat {
    if text == [] then 0 else Length(text[0]) + Bytes(text[1..])
  }

  function Offset(text: Text, k: nat): nat
    requires k <= |text|
  {
    Bytes(text[..k])
  }

  lemma {:induction false} BytesAppend(a: Text, b: Text)
    ensures Bytes(a + b) == Bytes(a) + Bytes(b)
  {
    if a == [] {
      assert a + b == b;
    } else {
      assert (a + b)[1..] == a[1..] + b;
      BytesAppend(a[1..], b);
    }
  }

  /** Byte offsets and boundaries determine each other. */
  lemma OffsetsIncrease(text: Text, j: nat, k: nat)
    requires j < k <= |text|
    ensures Offset(text, j) < Offset(text, k)
  {
    assert text[..k] == text[..j] + text[j..k];
    BytesAppend(text[..j], text[j..k]);
  }

  // ----- lines -----

  function LineStart(text: Text, k: nat): (i: nat)
    requires k <= |text|
    ensures i <= k
    ensures i == 0 || text[i - 1] == Newline
    ensures forall j :: i <= j < k ==> text[j] != Newline
  {
    if k == 0 || text[k - 1] == Newline then k else LineStart(text, k - 1)
  }

  function LineEnd(text: Text, k: nat): (i: nat)
    requires k <= |text|
    ensures k <= i <= |text|
    ensures i == |text| || text[i] == Newline
    ensures forall j :: k <= j < i ==> text[j] != Newline
    decreases |text| - k
  {
    if k == |text| || text[k] == Newline then k else LineEnd(text, k + 1)
  }

  function WidthOf(g: Grapheme): nat {
    if g.Newline? then 0 else g.width
  }

  /** Display width of the graphemes from `i` up to `j`. */
  function Width(text: Text, i: nat, j: nat): nat
    requires i <= j <= |text|
    decreases j
  {
    if i == j then 0 else Width(text, i, j - 1) + WidthOf(text[j - 1])
  }

  lemma {:induction false} WidthGrows(text: Text, i: nat, j: nat, k: nat)
    requires i <= j < k <= |text| && forall m :: i <= m < k ==> text[m] != Newline
    ensures Width(text, i, j) < Width(text, i, k)
    decreases k
  {
    if j >= k - 1 {
    } else {
      WidthGrows(text, i, j, k - 1);
    }
  }

  /** The greatest boundary of the line [start, end] with display width at most `column`. */
  ghost predicate IsAt(text: Text, start: nat, end: nat, column: nat, b: nat)
    requires start <= end <= |text|
  {
    && start <= b <= end && Width(text, start, b) <= column
    && forall c :: b < c <= end ==> Width(text, start, c) > column
  }

  /** byte_at_display_column, from boundary `b` on. */
  function AtColumn(text: Text, start: nat, end: nat, column: nat, b: nat): nat
    requires start <= b <= end <= |text|
    decreases end - b
  {
    if b == end then end
    else if Width(text, start, b + 1) > column then b
    else if Width(text, start, b + 1) == column then b + 1
    else AtColumn(text, start, end, column, b + 1)
  }

  lemma {:induction false} AtColumnIsGreatest(text: Text, start: nat, end: nat, column: nat, b: nat)
    requires start <= b <= end <= |text| && Width(text, start, b) <= column
    requires forall m :: start <= m < end ==> text[m] != Newline
    ensures IsAt(text, start, end, column, AtColumn(text, start, end, column, b))
    decreases end - b
  {
    if b == end {
    } else {
      if Width(text, start, b + 1) < column {
        AtColumnIsGreatest(text, start, end, column, b + 1);
      } else {
        var r := AtColumn(text, start, end, column, b);
        forall c | r < c <= end ensures Width(text, start, c) > column {
          if c > b + 1 {
            WidthGrows(text, start, b + 1, c);
          }
        }
      }
    }
  }

  // ----- vertical motion -----

  datatype State = State(text: Text, cursor: nat, preferred: Option<nat>)

  predicate InText(s: State) {
    s.cursor <= |s.text|
  }

  function Start(s: State): nat
    requires InText(s)
  {
    LineStart(s.text, s.cursor)
  }

  function End(s: State): (e: nat)
    requires InText(s)
    ensures Start(s) <= s.cursor <= e <= |s.text|
  {
    LineEnd(s.text, s.cursor)
  }

  /** A stored column k means the cursor is the greatest boundary of its line with width at most k. */
  ghost predicate ColumnOk(s: State)
    requires InText(s)
  {
    s.preferred.Some? ==> IsAt(s.text, Start(s), End(s), s.preferred.value, s.cursor)
  }

  ghost predicate Ok(s: State) {
    InText(s) && ColumnOk(s)
  }

  function Column(s: State): nat
    requires InText(s)
  {
    if s.preferred.Some? then s.preferred.value else Width(s.text, Start(s), s.cursor)
  }

  /** Whether there is a line to move to. */
  predicate Moves(s: State, down: bool)
    requires InText(s)
  {
    if down then End(s) != |s.text| else Start(s) != 0
  }

  /** The line to move to. */
  function Target(s: State, down: bool): (line: (nat, nat))
    requires InText(s) && Moves(s, down)
    ensures line.0 <= line.1 <= |s.text|
    ensures forall m :: line.0 <= m < line.1 ==> s.text[m] != Newline
    ensures line.0 == 0 || s.text[line.0 - 1] == Newline
    ensures line.1 == |s.text| || s.text[line.1] == Newline
  {
    if down then (End(s) + 1, LineEnd(s.text, End(s) + 1))
    else (LineStart(s.text, Start(s) - 1), Start(s) - 1)
  }

  function Vertical(s: State, down: bool): State
    requires InText(s)
  {
    if !Moves(s, down) then s
    else
      var (start, end) := Target(s, down);
      State(s.text, AtColumn(s.text, start, end, Column(s), start), Some(Column(s)))
  }

  /** The cursor is the greatest boundary for its own column. */
  lemma OwnColumn(s: State)
    requires Ok(s)
    ensures IsAt(s.text, Start(s), End(s), Column(s), s.cursor)
  {
    forall c | s.cursor < c <= End(s) ensures Width(s.text, Start(s), c) > Width(s.text, Start(s), s.cursor) {
      WidthGrows(s.text, Start(s), s.cursor, c);
    }
  }

  /** A vertical move lands on the target line and keeps the meaning of the stored column. */
  lemma VerticalLands(s: State, down: bool)
    requires InText(s) && Moves(s, down)
    ensures var r := Vertical(s, down);
            && Ok(r) && (Start(r), End(r)) == Target(s, down) && r.text == s.text && r.preferred == Some(Column(s))
  {
    var (start, end) := Target(s, down);
    AtColumnIsGreatest(s.text, start, end, Column(s), start);
  }

  lemma VerticalKeepsOk(s: State, down: bool)
    requires Ok(s)
    ensures Ok(Vertical(s, down))
  {
    if Moves(s, down) {
      VerticalLands(s, down);
    }
  }

  /** One move and one move back restore the cursor, remembering the column. */
  lemma OneBack(s: State, down: bool)
    requires Ok(s) && Moves(s, down)
    ensures InText(Vertical(s, down)) && Vertical(Vertical(s, down), !down) == s.(preferred := Some(Column(s)))
  {
    var r := Vertical(s, down);
    VerticalLands(s, down);
    var (start, end) := Target(r, !down);
    AtColumnIsGreatest(s.text, start, end, Column(s), start);
    OwnColumn(s);
  }

  ghost predicate AllMove(s: State, down: bool, n: nat)
    decreases n
  {
    n > 0 ==> InText(s) && Moves(s, down) && AllMove(Vertical(s, down), down, n - 1)
  }

  function Repeat(s: State, down: bool, n: nat): (r: State)
    requires InText(s)
    decreases n
  {
    if n == 0 || !InText(Vertical(s, down)) then s else Repeat(Vertical(s, down), down, n - 1)
  }

  lemma {:induction false} RepeatKeepsOk(s: State, down: bool, n: nat)
    requires Ok(s)
    ensures Ok(Repeat(s, down, n))
    decreases n
  {
    if n == 0 {
    } else {
      VerticalKeepsOk(s, down);
      RepeatKeepsOk(Vertical(s, down), down, n - 1);
    }
  }

  lemma {:induction false} RepeatLast(s: State, down: bool, n: nat)
    requires Ok(s) && n > 0
    ensures Ok(Repeat(s, down, n - 1)) && Repeat(s, down, n) == Vertical(Repeat(s, down, n - 1), down)
    decreases n
  {
    RepeatKeepsOk(s, down, n - 1);
    VerticalKeepsOk(s, down);
    if n > 1 {
      RepeatLast(Vertical(s, down), down, n - 1);
    }
  }

  /**
   n moves that all find a line, followed by n moves back, restore the cursor exactly, however short
   the lines in between.
   */
  lemma {:induction false} ManyBack(s: State, down: bool, n: nat)
    requires Ok(s) && AllMove(s, down, n) && n > 0
    ensures Ok(Repeat(s, down, n))
    ensures Repeat(Repeat(s, down, n), !down, n) == s.(preferred := Some(Column(s)))
    decreases n
  {
    var next := Vertical(s, down);
    VerticalLands(s, down);
    RepeatKeepsOk(s, down, n);
    if n > 1 {
      ManyBack(next, down, n - 1);
    }
    RepeatLast(Repeat(s, down, n), !down, n);
    OneBack(s, down);
  }

  // ----- soft wrapping -----

  datatype Place = Place(row: nat, column: nat)

  function Cells(g: Grapheme): nat {
    if WidthOf(g) > 1 then WidthOf(g) else 1
  }

  /** Where the next cluster of a given width starts. */
  function Wrapped(p: Place, cells: nat, wrap: nat): Place {
    if p.column == wrap || (p.column > 0 && p.column + cells > wrap) then Place(p.row + 1, 0) else p
  }

  function After(p: Place, g: Grapheme, wrap: nat): Place {
    if g.Newline? then Place(p.row + 1, 0)
    else
      var start := Wrapped(p, Cells(g), wrap);
      Place(start.row, start.column + Cells(g))
  }

  /** Row and column after the first k graphemes, before a full row is closed. */
  function Raw(text: Text, k: nat, wrap: nat): Place
    requires k <= |text|
    decreases k
  {
    if k == 0 then Place(0, 0) else After(Raw(text, k - 1, wrap), text[k - 1], wrap)
  }

  function Closed(p: Place, wrap: nat): Place {
    if p.column == wrap then Place(p.row + 1, 0) else p
  }

  /** The cell in which the cursor at boundary k is drawn. */
  function CursorPlace(text: Text, k: nat, wrap: nat): Place
    requires k <= |text|
  {
    Closed(Raw(text, k, wrap), wrap)
  }

  /** set_cursor_by_visual_position, from boundary i on. */
  function Find(text: Text, i: nat, p: Place, target: Place, wrap: nat): (k: nat)
    requires i <= |text|
    ensures k <= |text|
    decreases |text| - i
  {
    if i == |text| then |text|
    else if text[i].Newline? then
      if p.row == target.row then i else Find(text, i + 1, After(p, text[i], wrap), target, wrap)
    else
      var start := Wrapped(p, Cells(text[i]), wrap);
      if start.row == target.row && target.column < start.column + Cells(text[i]) then i
      else if start.row > target.row then i
      else Find(text, i + 1, After(p, text[i], wrap), target, wrap)
  }

  function BoundaryAt(text: Text, target: Place, wrap: nat): (k: nat)
    ensures k <= |text|
  {
    Find(text, 0, Place(0, 0), target, wrap)
  }

  predicate NotPast(p: Place, target: Place) {
    p.row < target.row || (p.row == target.row && p.column <= target.column)
  }

  lemma {:induction false} RawGrows(text: Text, j: nat, k: nat, wrap: nat)
    requires j <= k <= |text|
    ensures NotPast(Raw(text, j, wrap), Raw(text, k, wrap))
    decreases k
  {
    if j == k {
    } else {
      RawGrows(text, j, k - 1, wrap);
    }
  }

  /** The search passes every boundary that is not past the target. */
  lemma {:induction false} FindReaches(text: Text, k: nat, target: Place, wrap: nat)
    requires k <= |text| && NotPast(Raw(text, k, wrap), target)
    ensures BoundaryAt(text, target, wrap) == Find(text, k, Raw(text, k, wrap), target, wrap)
    decreases k
  {
    if k == 0 {
    } else {
      RawGrows(text, k - 1, k, wrap);
      FindReaches(text, k - 1, target, wrap);
    }
  }

  /** The cursor sits just before a newline at the end of an exactly full row. */
  predicate FullRowBeforeNewline(text: Text, k: nat, wrap: nat)
    requires k <= |text|
  {
    k < |text| && text[k] == Newline && Raw(text, k, wrap).column == wrap
  }

  /**
   The two mappings agree: the cell of any cursor maps back to a cursor drawn in that same cell, and
   to exactly that cursor if and only if it is not just before a newline that follows a full row.
   */
  lemma WrapRoundTrip(text: Text, k: nat, wrap: nat)
    requires k <= |text| && wrap >= 1
    ensures var back := BoundaryAt(text, CursorPlace(text, k, wrap), wrap);
            && CursorPlace(text, back, wrap) == CursorPlace(text, k, wrap)
            && (back == k <==> !FullRowBeforeNewline(text, k, wrap))
            && (FullRowBeforeNewline(text, k, wrap) ==> back == k + 1)
  {
    var target := CursorPlace(text, k, wrap);
    FindReaches(text, k, target, wrap);
    if FullRowBeforeNewline(text, k, wrap) {
      assert Raw(text, k + 1, wrap) == Place(target.row, 0);
      FindReaches(text, k + 1, target, wrap);
    }
  }

  /** Where grapheme k is drawn. */
  function DrawnAt(text: Text, k: nat, wrap: nat): Place
    requires k < |text|
  {
    Wrapped(Raw(text, k, wrap), Cells(text[k]), wrap)
  }

  /** Every cell of a drawn grapheme maps to the boundary before it. */
  lemma CellMapsToGrapheme(text: Text, k: nat, wrap: nat, column: nat)
    requires k < |text| && text[k] != Newline && wrap >= 1
    requires DrawnAt(text, k, wrap).column <= column < DrawnAt(text, k, wrap).column + Cells(text[k])
    ensures BoundaryAt(text, Place(DrawnAt(text, k, wrap).row, column), wrap) == k
  {
    FindReaches(text, k, Place(DrawnAt(text, k, wrap).row, column), wrap);
  }

  /** No two graphemes share a cell. */
  lemma CellsAreDisjoint(text: Text, j: nat, k: nat, wrap: nat)
    requires j < k < |text| && text[j] != Newline && text[k] != Newline
    ensures var p, q := DrawnAt(text, j, wrap), DrawnAt(text, k, wrap);
            p.row < q.row || (p.row == q.row && p.column + Cells(text[j]) <= q.column)
  {
    RawGrows(text, j + 1, k, wrap);
  }
}
