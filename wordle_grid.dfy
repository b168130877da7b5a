/**
 * The word-guess grid component (js/components/wordle-grid.js): a rows x cols
 * board of letter tiles, a row cursor and a target word, driven by live
 * letter updates, deletions and word submissions.
 */
module WordleGrid {
  import opened WordleRules

  /** What a tile's text shows. */
  datatype Glyph = Blank | Letter(c: char)

  /** A tile's material: white #ffffff while unscored, otherwise the verdict colour. */
  datatype Paint = White | Scored(verdict: Verdict)

  datatype Tile = Tile(glyph: Glyph, paint: Paint)

  const EmptyTile := Tile(Blank, White)

  /** The message written to the victory banner, if any: "VICTORY!" or "The word was <target>". */
  datatype Banner = NoBanner | Victory | GameOver(word: string)

  /** What a `wordsubmit` event does. */
  datatype SubmitOutcome =
    | InvalidWord                         // falsy or not five characters long
    | RowsExhausted                       // every row already used
    | RowMissing                          // the row entity is not there (grid not generated yet)
    | Crashed(events: seq<TileEvent>)     // fewer than five columns: the tile lookup past the last column throws
    | Accepted(events: seq<TileEvent>, banner: Banner)

  /** The tile a live update leaves at column c: the typed letter in white, or a cleared text. */
  function LiveTile(word: string, c: nat, before: Tile): (t: Tile)
    ensures c < |word| ==> t == Tile(Letter(word[c]), White)
    ensures c >= |word| ==> t.glyph == Blank && t.paint == before.paint
  {
    if c < |word| then Tile(Letter(word[c]), White) else Tile(Blank, before.paint)
  }

  /** The tile a submission leaves at column c: the guessed letter in its verdict colour. */
  function ScoredTile(word: string, target: string, c: nat): (t: Tile)
    requires c < |word|
    ensures t.glyph == Letter(word[c])
    ensures t.paint == Scored(Green) <==> Matches(word, target, c)
    ensures t.paint == Scored(Yellow) <==> !Matches(word, target, c) && word[c] in target
    ensures t.paint == Scored(Grey) <==> !Matches(word, target, c) && word[c] !in target
    ensures t.paint.Scored?
  {
    Tile(Letter(word[c]), Scored(TileVerdict(word, target, c)))
  }

  /** The banner after an accepted submission that leaves the cursor at `rowAfter`. */
  function BannerAfter(word: string, target: string, rowAfter: nat, rows: nat): (b: Banner)
    requires |word| == 5
    ensures b == Victory <==> |target| >= 5 && word == target[..5]
    ensures b.GameOver? <==> rowAfter >= rows && !(|target| >= 5 && word == target[..5])
    ensures b.GameOver? ==> b.word == target
  {
    VictoryIffGuessIsTarget(word, target);
    if CorrectCount(word, target) == 5 then Victory
    else if rowAfter >= rows && CorrectCount(word, target) < 5 then GameOver(target)
    else NoBanner
  }

  class Grid {
    const rows: nat
    const cols: nat
    /** The tile entities, `tiles[r, c]` being column c of row entity `row{r+1}`. */
    const tiles: array2<Tile>
    /** Whether generateGrid has created the row entities. */
    var built: bool
    var currentRow: nat
    var targetWord: string

    ghost predicate Valid()
      reads this
    {
      tiles.Length0 == rows && tiles.Length1 == cols && currentRow <= rows
    }

    /** The entity `row{currentRow+1}` can be found exactly when the grid exists and rows remain. */
    predicate RowFound()
      reads this
    {
      built && currentRow < rows
    }

    constructor (rows: nat, cols: nat, sceneLoaded: bool)
      ensures Valid() && fresh(tiles)
      ensures this.rows == rows && this.cols == cols
      ensures currentRow == 0 && targetWord == "WORLD" && built == sceneLoaded
      ensures sceneLoaded ==> forall r, c :: 0 <= r < rows && 0 <= c < cols ==> tiles[r, c] == EmptyTile
    {
      this.rows, this.cols := rows, cols;
      tiles := new Tile[rows, cols]((r, c) => EmptyTile);
      built := false;
      currentRow := 0;
      targetWord := "WORLD";
      new;
      if sceneLoaded {
        GenerateGrid();
      }
    }

    /** Creates every row and tile with an empty text and the white material. */
    method GenerateGrid()
      requires Valid()
      modifies this`built, tiles
      ensures Valid() && built
      ensures forall r, c :: 0 <= r < rows && 0 <= c < cols ==> tiles[r, c] == EmptyTile
    {
      for i := 0 to rows
        invariant forall r, c :: 0 <= r < i && 0 <= c < cols ==> tiles[r, c] == EmptyTile
      {
        for j := 0 to cols
          invariant forall r, c :: 0 <= r < i && 0 <= c < cols ==> tiles[r, c] == EmptyTile
          invariant forall c :: 0 <= c < j ==> tiles[i, c] == EmptyTile
        {
          tiles[i, j] := EmptyTile;
        }
      }
      built := true;
    }

    /** The target can be replaced from outside the component. */
    method SetTargetWord(word: string)
      requires Valid()
      modifies this`targetWord
      ensures Valid() && targetWord == word
    {
      targetWord := word;
    }

    /** `letterupdate`: shows the unsubmitted word in the current row. */
    method OnLetterUpdate(word: string)
      requires Valid()
      modifies tiles
      ensures Valid()
      ensures forall r, c :: 0 <= r < rows && 0 <= c < cols ==>
                tiles[r, c] == if RowFound() && r == currentRow then LiveTile(word, c, old(tiles[r, c]))
                               else old(tiles[r, c])
    {
      if currentRow >= rows {
        return;
      }
      if !built {
        return;
      }
      var i := 0;
      while i < |word| && i < cols
        invariant 0 <= i <= cols && i <= |word|
        invariant forall r, c :: 0 <= r < rows && 0 <= c < cols ==>
                    tiles[r, c] == if r == currentRow && c < i then LiveTile(word, c, old(tiles[r, c]))
                                   else old(tiles[r, c])
      {
        tiles[currentRow, i] := Tile(Letter(word[i]), White);
        i := i + 1;
      }
      i := |word|;
      while i < cols
        invariant forall r, c :: 0 <= r < rows && 0 <= c < cols ==>
                    tiles[r, c] == if r == currentRow && (c < |word| || c < i) then LiveTile(word, c, old(tiles[r, c]))
                                   else old(tiles[r, c])
      {
        tiles[currentRow, i] := Tile(Blank, tiles[currentRow, i].paint);
        i := i + 1;
      }
    }

    /** `letterdelete`: clears the single tile just after the remaining word. */
    method OnLetterDelete(word: string)
      requires Valid()
      modifies tiles
      ensures Valid()
      ensures forall r, c :: 0 <= r < rows && 0 <= c < cols ==>
                tiles[r, c] == if RowFound() && r == currentRow && c == |word| then Tile(Blank, old(tiles[r, c]).paint)
                               else old(tiles[r, c])
    {
      if !RowFound() {
        return;
      }
      var deleted := |word|;
      if deleted < cols {
        tiles[currentRow, deleted] := Tile(Blank, tiles[currentRow, deleted].paint);
      }
    }

    /** `wordsubmit`: scores a five-letter word in the current row and moves to the next row. */
    method OnWordSubmit(word: string) returns (outcome: SubmitOutcome)
      requires Valid()
      modifies this`currentRow, tiles
      ensures Valid()
      ensures |word| != 5 ==> outcome == InvalidWord
      ensures |word| == 5 && old(currentRow) >= rows ==> outcome == RowsExhausted
      ensures |word| == 5 && old(currentRow) < rows && !built ==> outcome == RowMissing
      ensures |word| == 5 && old(RowFound()) && cols < 5 ==>
                outcome == Crashed(TileEvents(word, targetWord)[..cols])
      ensures |word| == 5 && old(RowFound()) && cols >= 5 ==>
                outcome == Accepted(TileEvents(word, targetWord), BannerAfter(word, targetWord, currentRow, rows))
      ensures currentRow == if outcome.Accepted? then old(currentRow) + 1 else old(currentRow)
      ensures forall r, c :: 0 <= r < rows && 0 <= c < cols ==>
                tiles[r, c] == if |word| == 5 && old(RowFound()) && r == old(currentRow) && c < 5
                               then ScoredTile(word, targetWord, c)
                               else old(tiles[r, c])
    {
      if |word| != 5 {
        return InvalidWord;
      }
      if currentRow >= rows {
        return RowsExhausted;
      }
      if !built {
        return RowMissing;
      }
      var correct, events, crashed := ScoreRow(word, currentRow);
      if crashed {
        return Crashed(events);
      }
      currentRow := currentRow + 1;
      assert word[..5] == word;
      VictoryIffGuessIsTarget(word, targetWord);
      var banner := NoBanner;
      if correct == 5 {
        banner := Victory;
      }
      if currentRow >= rows && correct < 5 {
        banner := GameOver(targetWord);
      }
      outcome := Accepted(events, banner);
    }

    /**
     * The letter loop of `wordsubmit`: colours the tiles of `row` left to right,
     * counting matches and collecting notifications; the tile lookup past the last
     * column throws, so a row narrower than the word stops there.
     */
    method ScoreRow(word: string, row: nat) returns (correct: nat, events: seq<TileEvent>, crashed: bool)
      requires Valid() && row < rows
      modifies tiles
      ensures Valid()
      ensures crashed <==> cols < |word|
      ensures var n := if crashed then cols else |word|;
              correct == CorrectCount(word[..n], targetWord) && events == TileEvents(word, targetWord)[..n]
      ensures forall r, c :: 0 <= r < rows && 0 <= c < cols ==>
                tiles[r, c] == if r == row && c < |word| then ScoredTile(word, targetWord, c)
                               else old(tiles[r, c])
    {
      correct, events, crashed := 0, [], false;
      var i := 0;
      while i < |word|
        invariant 0 <= i <= |word| && i <= cols
        invariant correct == CorrectCount(word[..i], targetWord)
        invariant events == TileEvents(word, targetWord)[..i]
        invariant forall r, c :: 0 <= r < rows && 0 <= c < cols ==>
                    tiles[r, c] == if r == row && c < i then ScoredTile(word, targetWord, c)
                                   else old(tiles[r, c])
      {
        if i >= cols {
          crashed := true;
          return;
        }
        var letter := word[i];
        var verdict: Verdict;
        if i < |targetWord| && letter == targetWord[i] {
          verdict := Green;
          correct := correct + 1;
          events := events + [TileCorrect];
        } else if letter in targetWord {
          verdict := Yellow;
          events := events + [TileIncorrect];
        } else {
          verdict := Grey;
          events := events + [TileIncorrect];
        }
        ScoreStep(word, targetWord, i);
        assert Tile(Letter(letter), Scored(verdict)) == ScoredTile(word, targetWord, i);
        tiles[row, i] := Tile(Letter(letter), Scored(verdict));
        i := i + 1;
      }
    }
  }

  /** Scoring one more letter extends the count and the notifications by that letter's result. */
  lemma ScoreStep(word: string, target: string, i: nat)
    requires i < |word|
    ensures CorrectCount(word[..i + 1], target)
              == CorrectCount(word[..i], target) + (if Matches(word, target, i) then 1 else 0)
    ensures TileEvents(word, target)[..i + 1]
              == TileEvents(word, target)[..i] + [if Matches(word, target, i) then TileCorrect else TileIncorrect]
  {
    assert word[..i + 1][..i] == word[..i];
  }

  /** Winning sets no terminal flag: a further five-letter word is still scored while rows remain. */
  method WinningDoesNotEndTheGame() returns (first: SubmitOutcome, second: SubmitOutcome)
    ensures first.Accepted? && first.banner == Victory
    ensures first.events == [TileCorrect, TileCorrect, TileCorrect, TileCorrect, TileCorrect]
    ensures second.Accepted? && second.banner == NoBanner
  {
    var grid := new Grid(6, 5, true);
    first := grid.OnWordSubmit("WORLD");
    assert "WORLD"[..5] == "WORLD";
    second := grid.OnWordSubmit("WORMS");
    assert "WORMS" != "WORLD"[..5];
  }

  /** The last row's miss writes the game-over banner; the row cursor then blocks further words. */
  method SixMissesEndTheGame() returns (sixth: SubmitOutcome, seventh: SubmitOutcome)
    ensures sixth == Accepted(TileEvents("CRATE", "CRANE"), GameOver("CRANE"))
    ensures seventh == RowsExhausted
  {
    var grid := new Grid(6, 5, true);
    grid.SetTargetWord("CRANE");
    assert "CRANE"[..5] == "CRANE" && "CRATE"[3] != "CRANE"[3];
    var o := grid.OnWordSubmit("CRATE");
    o := grid.OnWordSubmit("CRATE");
    o := grid.OnWordSubmit("CRATE");
    o := grid.OnWordSubmit("CRATE");
    o := grid.OnWordSubmit("CRATE");
    sixth := grid.OnWordSubmit("CRATE");
    seventh := grid.OnWordSubmit("CRANE");
  }
}
