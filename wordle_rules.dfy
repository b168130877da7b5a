/**
 * The letter-colouring rule of the word-guess grid (js/components/wordle-grid.js,
 * onWordSubmit), stated as pure functions, and a separate duplicate-aware
 * two-pass evaluator related to it only by lemmas.
 */
module WordleRules {
  import opened Sequences

  /** The colour a submitted tile receives: green #00d600, yellow #ffcc00, grey #666666. */
  datatype Verdict = Green | Yellow | Grey

  /** The notification dispatched once per submitted letter. */
  datatype TileEvent = TileCorrect | TileIncorrect

  /** `letter === targetWord[i]`: false when the target has no position i. */
  predicate Matches(guess: string, target: string, i: nat)
    requires i < |guess|
  {
    i < |target| && guess[i] == target[i]
  }

  /** Single-pass rule: green on an exact match, else yellow if the letter occurs anywhere in the target. */
  function TileVerdict(guess: string, target: string, i: nat): (v: Verdict)
    requires i < |guess|
    ensures v == Green <==> Matches(guess, target, i)
    ensures v == Yellow <==> !Matches(guess, target, i) && guess[i] in target
    ensures v == Grey <==> !Matches(guess, target, i) && guess[i] !in target
  {
    if Matches(guess, target, i) then Green
    else if guess[i] in target then Yellow
    else Grey
  }

  /** The colours of a whole submitted row, position by position. */
  function Evaluate(guess: string, target: string): (r: seq<Verdict>)
    ensures |r| == |guess|
    ensures forall i :: 0 <= i < |guess| ==> r[i] == TileVerdict(guess, target, i)
  {
    seq(|guess|, i requires 0 <= i < |guess| => TileVerdict(guess, target, i))
  }

  /** The notifications of a submitted row: exactly one per letter, `tilecorrect` exactly on green tiles. */
  function TileEvents(guess: string, target: string): (r: seq<TileEvent>)
    ensures |r| == |guess|
    ensures forall i :: 0 <= i < |guess| ==>
              (r[i] == TileCorrect <==> Evaluate(guess, target)[i] == Green)
  {
    seq(|guess|, i requires 0 <= i < |guess| =>
          if Matches(guess, target, i) then TileCorrect else TileIncorrect)
  }

  /** The positions where the guess agrees with the target. */
  function MatchPositions(guess: string, target: string): set<nat>
  {
    set i: nat | i < |guess| && Matches(guess, target, i)
  }

  /** Adding the last letter adds its position to the matches exactly when it matches. */
  lemma MatchPositionsStep(guess: string, target: string)
    requires guess != []
    ensures var k := |guess| - 1;
            MatchPositions(guess, target)
              == MatchPositions(guess[..k], target) + (if Matches(guess, target, k) then {k} else {})
  {
    var k := |guess| - 1;
    assert forall i: nat :: i < k ==> (Matches(guess[..k], target, i) <==> Matches(guess, target, i));
  }

  /** `correctLetters`: the number of positions where the guess matches the target, counted left to right. */
  function CorrectCount(guess: string, target: string): (n: nat)
    ensures n <= |guess|
    ensures n == |MatchPositions(guess, target)|
    decreases |guess|
  {
    if guess == [] then
      assert MatchPositions(guess, target) == {};
      0
    else
      MatchPositionsStep(guess, target);
      CorrectCount(guess[..|guess| - 1], target)
      + (if Matches(guess, target, |guess| - 1) then 1 else 0)
  }

  /** Every letter counts as correct exactly when the guess is a prefix of the target. */
  lemma {:induction false} AllCorrectIffPrefix(guess: string, target: string)
    ensures CorrectCount(guess, target) == |guess| <==>
            |guess| <= |target| && guess == target[..|guess|]
    decreases |guess|
  {
    if guess != [] {
      var k := |guess| - 1;
      AllCorrectIffPrefix(guess[..k], target);
      if |guess| <= |target| && guess == target[..|guess|] {
        assert guess[..k] == target[..k];
      }
    }
  }

  /** Victory (`correctLetters === 5`) for a five-letter guess holds iff it spells the target's first five letters. */
  lemma VictoryIffGuessIsTarget(guess: string, target: string)
    requires |guess| == 5
    ensures CorrectCount(guess, target) == 5 <==> |target| >= 5 && guess == target[..5]
    ensures |target| == 5 ==> (CorrectCount(guess, target) == 5 <==> guess == target)
  {
    AllCorrectIffPrefix(guess, target);
  }

  // ---------------------------------------------------------------------
  // Duplicate-aware two-pass evaluation, kept apart from the grid's rule.
  // ---------------------------------------------------------------------

  /** Letters of the target not claimed by an exact match, in target order. */
  function Unclaimed(guess: string, target: string): (u: string)
    requires |guess| == |target|
    decreases |guess|
  {
    if guess == [] then []
    else (if guess[0] == target[0] then [] else [target[0]]) + Unclaimed(guess[1..], target[1..])
  }

  lemma {:induction false} UnclaimedFromTarget(guess: string, target: string)
    requires |guess| == |target|
    ensures multiset(Unclaimed(guess, target)) <= multiset(target)
    decreases |guess|
  {
    if guess != [] {
      UnclaimedFromTarget(guess[1..], target[1..]);
      assert target == [target[0]] + target[1..];
    }
  }

  /** Second pass: exact matches stay green; other letters draw from the unclaimed pool. */
  function SecondPass(guess: string, target: string, pool: multiset<char>): (r: seq<Verdict>)
    requires |guess| == |target|
    ensures |r| == |guess|
    decreases |guess|
  {
    if guess == [] then []
    else if guess[0] == target[0] then [Green] + SecondPass(guess[1..], target[1..], pool)
    else if guess[0] in pool then [Yellow] + SecondPass(guess[1..], target[1..], pool - multiset{guess[0]})
    else [Grey] + SecondPass(guess[1..], target[1..], pool)
  }

  function TwoPass(guess: string, target: string): seq<Verdict>
    requires |guess| == |target|
  {
    SecondPass(guess, target, multiset(Unclaimed(guess, target)))
  }

  lemma {:induction false} SecondPassGreens(guess: string, target: string, pool: multiset<char>, i: nat)
    requires |guess| == |target| && i < |guess|
    ensures |SecondPass(guess, target, pool)| == |guess|
    ensures SecondPass(guess, target, pool)[i] == Green <==> guess[i] == target[i]
    decreases |guess|
  {
    if i > 0 {
      var pool' := if guess[0] != target[0] && guess[0] in pool then pool - multiset{guess[0]} else pool;
      SecondPassGreens(guess[1..], target[1..], pool', i - 1);
    }
  }

  /** Both rules colour exactly the same positions green. */
  lemma SameGreens(guess: string, target: string)
    requires |guess| == |target|
    ensures |TwoPass(guess, target)| == |Evaluate(guess, target)|
    ensures forall i :: 0 <= i < |guess| ==>
              (TwoPass(guess, target)[i] == Green <==> Evaluate(guess, target)[i] == Green)
  {
    forall i | 0 <= i < |guess|
      ensures TwoPass(guess, target)[i] == Green <==> Evaluate(guess, target)[i] == Green
    {
      SecondPassGreens(guess, target, multiset(Unclaimed(guess, target)), i);
    }
  }

  lemma {:induction false} SecondPassYellowDrawsFromPool(guess: string, target: string, pool: multiset<char>, i: nat)
    requires |guess| == |target| && i < |guess|
    requires SecondPass(guess, target, pool)[i] == Yellow
    ensures guess[i] != target[i] && guess[i] in pool
    decreases |guess|
  {
    if i > 0 {
      var pool' := if guess[0] != target[0] && guess[0] in pool then pool - multiset{guess[0]} else pool;
      SecondPassYellowDrawsFromPool(guess[1..], target[1..], pool', i - 1);
    }
  }

  /** Whatever the two-pass rule colours yellow, the grid's single-pass rule colours yellow too. */
  lemma TwoPassYellowIsSinglePassYellow(guess: string, target: string, i: nat)
    requires |guess| == |target| && i < |guess|
    requires TwoPass(guess, target)[i] == Yellow
    ensures Evaluate(guess, target)[i] == Yellow
  {
    SecondPassYellowDrawsFromPool(guess, target, multiset(Unclaimed(guess, target)), i);
    UnclaimedFromTarget(guess, target);
    assert guess[i] in multiset(target);
  }

  /** A letter that no exact match claims is in the pool iff it is in the target. */
  lemma {:induction false} UnclaimedHas(guess: string, target: string, c: char)
    requires |guess| == |target|
    requires forall j :: 0 <= j < |guess| && guess[j] == target[j] ==> target[j] != c
    ensures c in Unclaimed(guess, target) <==> c in target
    decreases |guess|
  {
    if guess != [] {
      UnclaimedHas(guess[1..], target[1..], c);
      assert target == [target[0]] + target[1..];
    }
  }

  /** A letter the guess holds only once is yellow in the second pass iff the pool still has it. */
  lemma {:induction false} SecondPassLoneLetter(guess: string, target: string, pool: multiset<char>, i: nat)
    requires |guess| == |target| && i < |guess| && !RepeatedAt(guess, i)
    requires guess[i] != target[i]
    ensures SecondPass(guess, target, pool)[i] == Yellow <==> guess[i] in pool
    decreases |guess|
  {
    if i > 0 {
      var pool' := if guess[0] != target[0] && guess[0] in pool then pool - multiset{guess[0]} else pool;
      assert guess[i] != guess[0];
      assert guess[i] in pool' <==> guess[i] in pool;
      forall j | 0 <= j < |guess| - 1 && j != i - 1
        ensures guess[1..][j] != guess[1..][i - 1]
      {
        assert guess[1..][j] == guess[j + 1];
      }
      SecondPassLoneLetter(guess[1..], target[1..], pool', i - 1);
    }
  }

  /** With no repeated letter in the guess, the two rules agree everywhere. */
  lemma DistinctLettersAgree(guess: string, target: string)
    requires |guess| == |target| && Distinct(guess)
    ensures TwoPass(guess, target) == Evaluate(guess, target)
  {
    var pool := multiset(Unclaimed(guess, target));
    forall i | 0 <= i < |guess|
      ensures TwoPass(guess, target)[i] == Evaluate(guess, target)[i]
    {
      SecondPassGreens(guess, target, pool, i);
      if guess[i] != target[i] {
        SecondPassLoneLetter(guess, target, pool, i);
        UnclaimedHas(guess, target, guess[i]);
      }
    }
  }

  /**
   * Wherever the two rules disagree, the grid's rule says yellow, the two-pass rule
   * says grey, and the letter occurs elsewhere in the guess too.
   */
  lemma RulesDifferOnlyAtRepeats(guess: string, target: string, i: nat)
    requires |guess| == |target| && i < |guess|
    requires TwoPass(guess, target)[i] != Evaluate(guess, target)[i]
    ensures Evaluate(guess, target)[i] == Yellow && TwoPass(guess, target)[i] == Grey
    ensures RepeatedAt(guess, i)
  {
    var pool := multiset(Unclaimed(guess, target));
    SecondPassGreens(guess, target, pool, i);
    if TwoPass(guess, target)[i] == Yellow {
      TwoPassYellowIsSinglePassYellow(guess, target, i);
    }
    if !RepeatedAt(guess, i) {
      SecondPassLoneLetter(guess, target, pool, i);
      UnclaimedHas(guess, target, guess[i]);
    }
  }

  /** Against the default target the grid's rule colours both L's of HELLO yellow-or-green... */
  lemma HelloSinglePass()
    ensures Evaluate("HELLO", "WORLD") == [Grey, Grey, Yellow, Green, Yellow]
  {
    assert TileVerdict("HELLO", "WORLD", 2) == Yellow && TileVerdict("HELLO", "WORLD", 4) == Yellow;
  }

  lemma HelloUnclaimed()
    ensures Unclaimed("HELLO", "WORLD") == "WORD"
  {
    var g, t := "HELLO", "WORLD";
    assert g[4..] == "O" && t[4..] == "D";
    assert Unclaimed(g[4..], t[4..]) == "D";
    assert g[3..] == "LO" && t[3..] == "LD";
    assert Unclaimed(g[3..], t[3..]) == "D";
    assert g[2..] == "LLO" && t[2..] == "RLD";
    assert Unclaimed(g[2..], t[2..]) == "RD";
    assert g[1..] == "ELLO" && t[1..] == "ORLD";
  }

  lemma HelloSecondPassTail()
    ensures SecondPass("LLO", "RLD", multiset{'W', 'O', 'R', 'D'}) == [Grey, Green, Yellow]
  {
    var g, t, pool := "LLO", "RLD", multiset{'W', 'O', 'R', 'D'};
    assert g[2..] == "O" && t[2..] == "D";
    assert SecondPass(g[2..], t[2..], pool) == [Yellow];
    assert g[1..] == "LO" && t[1..] == "LD";
    assert SecondPass(g[1..], t[1..], pool) == [Green, Yellow];
  }

  lemma HelloSecondPass()
    ensures SecondPass("HELLO", "WORLD", multiset{'W', 'O', 'R', 'D'}) == [Grey, Grey, Grey, Green, Yellow]
  {
    var g, t, pool := "HELLO", "WORLD", multiset{'W', 'O', 'R', 'D'};
    HelloSecondPassTail();
    assert g[2..] == "LLO" && t[2..] == "RLD";
    assert g[1..] == "ELLO" && t[1..] == "ORLD";
  }

  /** ...while the two-pass rule leaves the first L grey: WORLD has only one L, already claimed. */
  lemma HelloTwoPass()
    ensures TwoPass("HELLO", "WORLD") == [Grey, Grey, Grey, Green, Yellow]
  {
    HelloUnclaimed();
    assert multiset("WORD") == multiset{'W', 'O', 'R', 'D'};
    HelloSecondPass();
  }

}
