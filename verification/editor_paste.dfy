/** What the editor makes of inserted text: line endings, tabs and control characters are replaced. */
module EditorPaste {
  import opened EditorModel

  // A character that insertion replaces, or a grapheme cluster without control characters.
  datatype Piece = CarriageReturn | LineFeed | Tab | Control | Plain(id: nat, bytes: Positive, width: Positive)

  const SPACE := Cluster(32, 1, 1)
  const REPLACEMENT := Cluster(0xFFFD, 3, 1)

  /** str::replace("\r\n", "\n"). */
  function JoinPairs(value: seq<Piece>): seq<Piece> {
    if value == [] then []
    else if |value| > 1 && value[0] == CarriageReturn && value[1] == LineFeed then [LineFeed] + JoinPairs(value[2..])
    else [value[0]] + JoinPairs(value[1..])
  }

  /** str::replace('\r', "\n"). */
  function ReplaceReturns(value: seq<Piece>): (replaced: seq<Piece>)
    ensures |replaced| == |value|
    ensures forall i :: 0 <= i < |value| ==> replaced[i] == (if value[i] == CarriageReturn then LineFeed else value[i])
  {
    if value == [] then []
    else [if value[0] == CarriageReturn then LineFeed else value[0]] + ReplaceReturns(value[1..])
  }

  function Replaced(p: Piece): (text: Text)
    ensures text != []
  {
    match p
    case LineFeed => [Newline]
    case Tab => [SPACE, SPACE, SPACE, SPACE]
    case Plain(id, bytes, width) => [Cluster(id, bytes, width)]
    case _ => [REPLACEMENT]
  }

  function Each(value: seq<Piece>): Text {
    if value == [] then [] else Replaced(value[0]) + Each(value[1..])
  }

  /** The text to insert. */
  function Normalized(value: seq<Piece>): Text {
    Each(ReplaceReturns(JoinPairs(value)))
  }

  lemma {:induction false} EachAppend(a: seq<Piece>, b: seq<Piece>)
    ensures Each(a + b) == Each(a) + Each(b)
    decreases |a|
  {
    if a == [] {
      assert a + b == b;
    } else {
      assert (a + b)[1..] == a[1..] + b;
      EachAppend(a[1..], b);
    }
  }

  method Normalize(value: seq<Piece>) returns (normalized: Text)
    ensures normalized == Normalized(value)
  {
    var lineEndings := ReplaceReturns(JoinPairs(value));
    normalized := [];
    for i := 0 to |lineEndings|
      invariant normalized == Each(lineEndings[..i])
    {
      assert lineEndings[..i + 1] == lineEndings[..i] + [lineEndings[i]];
      EachAppend(lineEndings[..i], [lineEndings[i]]);
      assert Each([lineEndings[i]]) == Replaced(lineEndings[i]);
      match lineEndings[i] {
        case LineFeed => normalized := normalized + [Newline];
        case Tab => normalized := normalized + [SPACE, SPACE, SPACE, SPACE];
        case Plain(id, bytes, width) => normalized := normalized + [Cluster(id, bytes, width)];
        case _ => normalized := normalized + [REPLACEMENT];
      }
    }
    assert lineEndings[..|lineEndings|] == lineEndings;
  }

  // ----- in one pass, and in two parts -----

  /** What becomes of one character that is not the first half of a line ending. */
  function Single(p: Piece): Text {
    if p == CarriageReturn then [Newline] else Replaced(p)
  }

  predicate StartsPair(value: seq<Piece>) {
    |value| > 1 && value[0] == CarriageReturn && value[1] == LineFeed
  }

  /** What the first line ending or other character becomes. */
  function First(value: seq<Piece>): Text
    requires value != []
  {
    if StartsPair(value) then [Newline] else Single(value[0])
  }

  function Rest(value: seq<Piece>): seq<Piece>
    requires value != []
  {
    if StartsPair(value) then value[2..] else value[1..]
  }

  lemma NormalizedNext(value: seq<Piece>)
    requires value != []
    ensures Normalized(value) == First(value) + Normalized(Rest(value))
  {
    var first := if StartsPair(value) then LineFeed else value[0];
    assert JoinPairs(value) == [first] + JoinPairs(Rest(value));
    ReturnsCons(first, JoinPairs(Rest(value)));
  }

  lemma ReturnsCons(p: Piece, rest: seq<Piece>)
    ensures Each(ReplaceReturns([p] + rest)) == Single(p) + Each(ReplaceReturns(rest))
  {
    assert ([p] + rest)[1..] == rest;
    var replaced := ReplaceReturns([p] + rest);
    assert replaced == [replaced[0]] + ReplaceReturns(rest);
    assert replaced[1..] == ReplaceReturns(rest);
  }

  /** The same in one pass. */
  function Clean(value: seq<Piece>): Text
    decreases |value|
  {
    if value == [] then [] else First(value) + Clean(Rest(value))
  }

  lemma {:induction false} NormalizedIsClean(value: seq<Piece>)
    ensures Normalized(value) == Clean(value)
    decreases |value|
  {
    if value == [] {
    } else {
      NormalizedNext(value);
      NormalizedIsClean(Rest(value));
    }
  }

  /** The cut goes through a line ending. */
  predicate CutsPair(a: seq<Piece>, b: seq<Piece>) {
    a != [] && b != [] && a[|a| - 1] == CarriageReturn && b[0] == LineFeed
  }

  /** The second part, without the half of a line ending that belongs to the first. */
  function Joined(a: seq<Piece>, b: seq<Piece>): seq<Piece> {
    if CutsPair(a, b) then b[1..] else b
  }

  lemma PeelFirst(a: seq<Piece>, b: seq<Piece>)
    requires a != [] && (|a| == 1 ==> !CutsPair(a, b))
    ensures First(a + b) == First(a) && Rest(a + b) == Rest(a) + b && Joined(Rest(a), b) == Joined(a, b)
  {
    if Rest(a) != [] {
      assert Rest(a)[|Rest(a)| - 1] == a[|a| - 1];
    }
  }

  lemma {:induction false} CleanConcat(a: seq<Piece>, b: seq<Piece>)
    ensures Clean(a + b) == Clean(a) + Clean(Joined(a, b))
    decreases |a|
  {
    if a == [] {
      assert a + b == b;
    } else if |a| == 1 && CutsPair(a, b) {
      assert Rest(a + b) == b[1..] && Rest(a) == [];
    } else {
      PeelFirst(a, b);
      CleanConcat(Rest(a), b);
    }
  }

  /** Pasting in two parts gives the same text if and only if the cut does not go through a line ending. */
  lemma PartsAgreeExactly(a: seq<Piece>, b: seq<Piece>)
    ensures Normalized(a + b) == Normalized(a) + Normalized(b) <==> !CutsPair(a, b)
  {
    NormalizedIsClean(a + b);
    NormalizedIsClean(a);
    NormalizedIsClean(b);
    CleanConcat(a, b);
    if CutsPair(a, b) {
      assert |Clean(b)| == 1 + |Clean(b[1..])|;
    }
  }

  /** What each character becomes; with the rule for parts this determines the whole text. */
  lemma SinglesAre(id: nat, bytes: Positive, width: Positive)
    ensures Normalized([]) == []
    ensures Normalized([LineFeed]) == Normalized([CarriageReturn]) == Normalized([CarriageReturn, LineFeed]) == [Newline]
    ensures Normalized([Tab]) == [Cluster(32, 1, 1), Cluster(32, 1, 1), Cluster(32, 1, 1), Cluster(32, 1, 1)]
    ensures Normalized([Control]) == [Cluster(0xFFFD, 3, 1)]
    ensures Normalized([Plain(id, bytes, width)]) == [Cluster(id, bytes, width)]
  {
    assert Normalized([]) == [];
    forall p: Piece ensures Normalized([p]) == Single(p) {
      NormalizedNext([p]);
      assert Rest([p]) == [] && Single(p) + [] == Single(p);
    }
    var pair := [CarriageReturn, LineFeed];
    NormalizedNext(pair);
    assert Rest(pair) == [];
  }

  lemma NotEmpty(value: seq<Piece>)
    requires value != []
    ensures Normalized(value) != []
  {
    NormalizedNext(value);
  }
}
