/** The message editor: an object over graphemes whose methods edit and move in place. */
module Editor {
  import opened Ids
  import opened EditorModel
  import opened EditorPaste

  class EditorState {
    var text: Text
    var cursor: nat
    var preferredColumn: Option<nat>

    function Value(): State
      reads this
    {
      State(text, cursor, preferredColumn)
    }

    ghost predicate Valid()
      reads this
    {
      Ok(Value())
    }

    constructor ()
      ensures Valid() && Value() == State([], 0, None)
    {
      text, cursor, preferredColumn := [], 0, None;
    }

    method Set(value: Text)
      modifies this
      ensures Valid() && Value() == State(value, |value|, None)
    {
      text := value;
      cursor := |value|;
      preferredColumn := None;
    }

    /** The longest prefix of the cleaned text that still fits goes in at the cursor; true if that is everything. */
    method Insert(value: seq<Piece>, maxBytes: nat) returns (all: bool)
      requires Valid()
      modifies this
      ensures Valid()
      ensures exists n: nat :: FitsMost(old(text), Normalized(value), maxBytes, n) && (all <==> n == |Normalized(value)|)
                       && text == Splice(old(text), old(cursor), Normalized(value)[..n]) && cursor == old(cursor) + n
      ensures preferredColumn == if value == [] || Bytes(old(text)) >= maxBytes then old(preferredColumn) else None
    {
      if value == [] || Bytes(text) >= maxBytes {
        if value != [] {
          NotEmpty(value);
        }
        assert text == Splice(text, cursor, Normalized(value)[..0]);
        assert FitsMost(text, Normalized(value), maxBytes, 0);
        return value == [];
      }
      var normalized := Normalize(value);
      var remaining := maxBytes - Bytes(text);
      var n := 0;
      while n < |normalized| && Bytes(normalized[..n + 1]) <= remaining
        invariant 0 <= n <= |normalized| && Bytes(normalized[..n]) <= remaining
      {
        n := n + 1;
      }
      assert FitsMost(text, normalized, maxBytes, n);
      text := Splice(text, cursor, normalized[..n]);
      cursor := cursor + n;
      preferredColumn := None;
      all := n == |normalized|;
    }

    method MoveLeft()
      requires Valid()
      modifies this
      ensures Valid() && Value() == State(old(text), if old(cursor) == 0 then 0 else old(cursor) - 1, None)
    {
      if cursor > 0 {
        cursor := cursor - 1;
      }
      preferredColumn := None;
    }

    method MoveRight()
      requires Valid()
      modifies this
      ensures Valid()
      ensures Value() == State(old(text), if old(cursor) == |old(text)| then old(cursor) else old(cursor) + 1, None)
    {
      if cursor < |text| {
        cursor := cursor + 1;
      }
      preferredColumn := None;
    }

    method MoveStart()
      modifies this
      ensures Valid() && Value() == State(old(text), 0, None)
    {
      cursor := 0;
      preferredColumn := None;
    }

    method MoveEnd()
      modifies this
      ensures Valid() && Value() == State(old(text), |old(text)|, None)
    {
      cursor := |text|;
      preferredColumn := None;
    }

    method MoveLineStart()
      requires Valid()
      modifies this
      ensures Valid() && Value() == State(old(text), Start(old(Value())), None)
    {
      cursor := LineStart(text, cursor);
      preferredColumn := None;
    }

    method MoveLineEnd()
      requires Valid()
      modifies this
      ensures Valid() && Value() == State(old(text), End(old(Value())), None)
    {
      cursor := LineEnd(text, cursor);
      preferredColumn := None;
    }

    /** byte_at_display_column. */
    static method ByteAtDisplayColumn(text: Text, start: nat, end: nat, column: nat) returns (b: nat)
      requires start <= end <= |text| && forall m :: start <= m < end ==> text[m] != Newline
      ensures IsAt(text, start, end, column, b) && b == AtColumn(text, start, end, column, start)
    {
      AtColumnIsGreatest(text, start, end, column, start);
      b := start;
      var width := 0;
      while b < end
        invariant start <= b <= end && width == Width(text, start, b)
        invariant AtColumn(text, start, end, column, start) == AtColumn(text, start, end, column, b)
      {
        var next := width + WidthOf(text[b]);
        if next > column {
          return;
        }
        width := next;
        if width == column {
          b := b + 1;
          return;
        }
        b := b + 1;
      }
    }

    /** The line above or below the cursor's, if any. */
    static method TargetLine(text: Text, cursor: nat, down: bool) returns (moves: bool, start: nat, end: nat)
      requires cursor <= |text|
      ensures moves == Moves(State(text, cursor, None), down)
      ensures moves ==> (start, end) == Target(State(text, cursor, None), down)
    {
      var currentStart := LineStart(text, cursor);
      var currentEnd := LineEnd(text, cursor);
      moves, start, end := false, 0, 0;
      if !down {
        if currentStart == 0 {
          return;
        }
        end := currentStart - 1;
        start := LineStart(text, end);
      } else {
        if currentEnd == |text| {
          return;
        }
        start := currentEnd + 1;
        end := LineEnd(text, start);
      }
      moves := true;
    }

    method MoveVertical(down: bool)
      requires Valid()
      modifies this
      ensures Valid() && Value() == Vertical(old(Value()), down)
    {
      ghost var s := Value();
      VerticalKeepsOk(s, down);
      MovesAlike(s, down);
      var column := if preferredColumn.Some? then preferredColumn.value else Width(text, LineStart(text, cursor), cursor);
      var moves, start, end := TargetLine(text, cursor, down);
      if !moves {
        return;
      }
      cursor := ByteAtDisplayColumn(text, start, end, column);
      preferredColumn := Some(column);
    }

    /** Removes the graphemes from `from` to the cursor. */
    method DeleteBack(from: nat)
      requires Valid() && from <= cursor
      modifies this
      ensures Valid() && Value() == State(old(text)[..from] + old(text)[old(cursor)..], from, None)
    {
      text := text[..from] + text[cursor..];
      cursor := from;
      preferredColumn := None;
    }

    method DeleteBackward()
      requires Valid()
      modifies this
      ensures Valid()
      ensures Value() == if old(cursor) == 0 then State(old(text), 0, None)
                         else State(old(text)[..old(cursor) - 1] + old(text)[old(cursor)..], old(cursor) - 1, None)
    {
      if cursor > 0 {
        DeleteBack(cursor - 1);
      }
      preferredColumn := None;
    }

    method DeleteForward()
      requires Valid()
      modifies this
      ensures Valid()
      ensures Value() == if old(cursor) == |old(text)| then State(old(text), old(cursor), None)
                         else State(old(text)[..old(cursor)] + old(text)[old(cursor) + 1..], old(cursor), None)
    {
      if cursor < |text| {
        text := text[..cursor] + text[cursor + 1..];
      }
      preferredColumn := None;
    }

    /** The start of the word before the cursor is found by Unicode word segmentation. */
    method DeleteWordBackward(wordStart: nat)
      requires Valid() && wordStart <= cursor
      modifies this
      ensures Valid()
      ensures Value() == if old(cursor) == 0 then old(Value())
                         else State(old(text)[..wordStart] + old(text)[old(cursor)..], wordStart, None)
    {
      if cursor == 0 {
        return;
      }
      DeleteBack(wordStart);
    }

    method DeleteToLineStart()
      requires Valid()
      modifies this
      ensures Valid()
      ensures var start := Start(old(Value()));
              Value() == State(old(text)[..start] + old(text)[old(cursor)..], start, None)
    {
      DeleteBack(LineStart(text, cursor));
    }

    method SetCursorByVisualPosition(targetRow: nat, targetColumn: nat, wrapWidth: nat)
      requires Valid()
      modifies this
      ensures Valid()
      ensures Value() == State(old(text), BoundaryAt(old(text), Place(targetRow, targetColumn), AtLeastOne(wrapWidth)), None)
    {
      var wrap := AtLeastOne(wrapWidth);
      var row, column, lastCursor, i := 0, 0, 0, 0;
      preferredColumn := None;
      while i < |text|
        invariant text == old(text) && 0 <= i <= |text| && lastCursor == i && preferredColumn == None
        invariant BoundaryAt(text, Place(targetRow, targetColumn), wrap)
               == Find(text, i, Place(row, column), Place(targetRow, targetColumn), wrap)
      {
        if text[i].Newline? {
          if row == targetRow {
            cursor := i;
            return;
          }
          row := row + 1;
          column := 0;
          i := i + 1;
          lastCursor := i;
          continue;
        }
        var width := Cells(text[i]);
        if column == wrap || (column > 0 && column + width > wrap) {
          row := row + 1;
          column := 0;
        }
        if row == targetRow && targetColumn < column + width {
          cursor := i;
          return;
        }
        if row > targetRow {
          cursor := i;
          return;
        }
        column := column + width;
        i := i + 1;
        lastCursor := i;
      }
      cursor := if row < targetRow || targetColumn >= column then |text| else lastCursor;
    }
  }

  /** The target line does not depend on the stored column. */
  lemma MovesAlike(s: State, down: bool)
    requires InText(s)
    ensures Moves(s, down) == Moves(State(s.text, s.cursor, None), down)
    ensures Moves(s, down) ==> Target(s, down) == Target(State(s.text, s.cursor, None), down)
  {
  }

  function AtLeastOne(n: nat): nat {
    if n > 1 then n else 1
  }

  const U16_MAX := 65535

  function Saturated(n: nat): nat {
    if n < U16_MAX then n else U16_MAX
  }

  /** editor_cursor_position. */
  method EditorCursorPosition(text: Text, cursor: nat, width: nat) returns (row: nat, column: nat)
    requires cursor <= |text|
    ensures var p := CursorPlace(text, cursor, AtLeastOne(width));
            row == Saturated(p.row) && column == Saturated(p.column)
  {
    var wrap := AtLeastOne(width);
    row, column := 0, 0;
    var i := 0;
    while i < cursor
      invariant 0 <= i <= cursor && Place(row, column) == Raw(text, i, wrap)
    {
      if text[i].Newline? {
        row := row + 1;
        column := 0;
        i := i + 1;
        continue;
      }
      var cells := Cells(text[i]);
      if column == wrap || (column > 0 && column + cells > wrap) {
        row := row + 1;
        column := 0;
      }
      column := column + cells;
      i := i + 1;
    }
    if column == wrap {
      row := row + 1;
      column := 0;
    }
    row, column := Saturated(row), Saturated(column);
  }

  function Splice(text: Text, cursor: nat, value: Text): Text
    requires cursor <= |text|
  {
    text[..cursor] + value + text[cursor..]
  }

  /** n is the length of the longest prefix of `value` that keeps the text within the limit. */
  ghost predicate FitsMost(text: Text, value: Text, maxBytes: nat, n: nat) {
    && n <= |value|
    && (n > 0 ==> Bytes(text) + Bytes(value[..n]) <= maxBytes)
    && (n < |value| ==> Bytes(text) + Bytes(value[..n + 1]) > maxBytes)
  }

  /** An insertion that adds anything leaves the text within its limit. */
  lemma InsertionKeepsLimit(text: Text, cursor: nat, value: Text, maxBytes: nat, n: nat)
    requires cursor <= |text| && FitsMost(text, value, maxBytes, n)
    ensures n > 0 ==> Bytes(Splice(text, cursor, value[..n])) <= maxBytes
    ensures forall m :: n < m <= |value| ==> Bytes(Splice(text, cursor, value[..m])) > maxBytes
  {
    Spliced(text, cursor, value[..n]);
    forall m | n < m <= |value| ensures Bytes(Splice(text, cursor, value[..m])) > maxBytes {
      Spliced(text, cursor, value[..m]);
      assert value[..m] == value[..n + 1] + value[n + 1..m];
      BytesAppend(value[..n + 1], value[n + 1..m]);
    }
  }

  lemma Spliced(text: Text, cursor: nat, value: Text)
    requires cursor <= |text|
    ensures Bytes(Splice(text, cursor, value)) == Bytes(text) + Bytes(value)
  {
    BytesAppend(text[..cursor] + value, text[cursor..]);
    BytesAppend(text[..cursor], value);
    BytesAppend(text[..cursor], text[cursor..]);
    assert text[..cursor] + text[cursor..] == text;
  }
}
