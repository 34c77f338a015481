/** The layout of soft-wrapped text, read off widths. */
module EditorRows {
  // Each grapheme is placed after the one before it, and a click is resolved by what lies before it.

  import opened EditorModel

  /** How many cells a grapheme takes. */
  function Takes(g: Grapheme): nat {
    match g
    case Newline => 1
    case Cluster(_, _, width) => width
  }

  /** Where a grapheme stands; a newline stands where the text before it ends, even past the last column. */
  function Stands(text: Text, k: nat, wrap: nat): Place
    requires k < |text|
  {
    if text[k].Newline? then Raw(text, k, wrap) else DrawnAt(text, k, wrap)
  }

  lemma TakesCells(g: Grapheme)
    ensures Cells(g) == Takes(g)
  {
  }

  /** The text starts in the first cell. */
  lemma FirstStands(text: Text, wrap: nat)
    requires text != [] && wrap >= 1
    ensures Stands(text, 0, wrap) == Place(0, 0)
  {
  }

  /** Text after a newline starts the next row; other text goes on in its row if and only if it fits there. */
  lemma NextStands(text: Text, k: nat, wrap: nat)
    requires k + 1 < |text| && wrap >= 1
    ensures var p, q := Stands(text, k, wrap), Stands(text, k + 1, wrap); var end := p.column + Takes(text[k]);
            if text[k].Newline? then q == Place(p.row + 1, 0)
            else if text[k + 1].Newline? || end + Takes(text[k + 1]) <= wrap then q == Place(p.row, end)
            else q == Place(p.row + 1, 0)
  {
    TakesCells(text[k]);
    TakesCells(text[k + 1]);
  }

  /** The cursor stands behind the grapheme before it, or starts the next row when that one fills its row. */
  lemma CursorStands(text: Text, k: nat, wrap: nat)
    requires k <= |text| && wrap >= 1
    ensures CursorPlace(text, k, wrap)
         == if k == 0 then Place(0, 0)
            else
              var p := Stands(text, k - 1, wrap); var end := p.column + Takes(text[k - 1]);
              if text[k - 1].Newline? || end == wrap then Place(p.row + 1, 0) else Place(p.row, end)
  {
    if k == 0 {
    } else {
      TakesCells(text[k - 1]);
    }
  }

  /** No row is overfull: only a grapheme wider than a row runs over, and such a one starts its row. */
  lemma {:induction false} RowsFit(text: Text, k: nat, wrap: nat)
    requires k < |text| && text[k].Cluster? && wrap >= 1
    ensures var p := Stands(text, k, wrap); p.column == 0 || p.column + Takes(text[k]) <= wrap
    decreases k
  {
    TakesCells(text[k]);
    if k == 0 {
      FirstStands(text, wrap);
    } else {
      NextStands(text, k - 1, wrap);
    }
  }

  // ----- clicks -----

  /** This grapheme lies before the cell: in a row above, or in its row and ending at or before it. */
  predicate Before(text: Text, k: nat, target: Place, wrap: nat)
    requires k < |text|
  {
    var p := Stands(text, k, wrap);
    p.row < target.row || (p.row == target.row && text[k].Cluster? && p.column + Takes(text[k]) <= target.column)
  }

  lemma {:induction false} FindIsFirst(text: Text, i: nat, target: Place, wrap: nat)
    requires i <= |text| && Raw(text, i, wrap).row <= target.row
    ensures var k := Find(text, i, Raw(text, i, wrap), target, wrap);
            && i <= k && (forall j :: i <= j < k ==> Before(text, j, target, wrap))
            && (k < |text| ==> !Before(text, k, target, wrap))
    decreases |text| - i
  {
    if i == |text| {
    } else {
      TakesCells(text[i]);
      var k := Find(text, i, Raw(text, i, wrap), target, wrap);
      if k != i || Before(text, i, target, wrap) {
        assert Raw(text, i + 1, wrap) == After(Raw(text, i, wrap), text[i], wrap);
        FindIsFirst(text, i + 1, target, wrap);
      }
    }
  }

  /** A click anywhere, also in an empty cell, puts the cursor before the first grapheme that is not before it. */
  lemma ClickIsFirst(text: Text, target: Place, wrap: nat)
    ensures var k := BoundaryAt(text, target, wrap);
            && (forall j :: 0 <= j < k ==> Before(text, j, target, wrap))
            && (k < |text| ==> !Before(text, k, target, wrap))
  {
    FindIsFirst(text, 0, target, wrap);
  }
}
