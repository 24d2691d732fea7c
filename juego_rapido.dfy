/** The quick game: a fixed list of four sample cards shown one at a time;
    each self-rating is appended to a list and moves the game to the next
    card, and a summary counts the ratings per category once the game is
    over. */
module JuegoRapido {

  /** The four answers the rating buttons send. */
  datatype Rating = Perfect | Good | Bad | NoRecall  // 'perfect', 'good', 'bad', 'none'

  datatype MockCard = MockCard(question: string, answer: string)

  /** The sample deck the game plays; it is never loaded from the store. */
  const MockFlashcards: seq<MockCard> := [
    MockCard("¿Cuál es la capital de Francia?", "París"),
    MockCard("¿En qué año comenzó la Segunda Guerra Mundial?", "1939"),
    MockCard("¿Quién pintó la Mona Lisa?", "Leonardo da Vinci"),
    MockCard("¿Cuál es el elemento químico más abundante en el universo?", "Hidrógeno")
  ]

  /** The game's two pieces of state. */
  datatype Session = Session(currentCardIndex: int, ratings: seq<Rating>)

  const Initial: Session := Session(0, [])

  /** The bound the rating handler compares the index with, as written:
      `currentCardIndex < mockFlashcards.length - 1`. */
  const AsWrittenLimit: int := |MockFlashcards| - 1

  /** The bound that lets the index reach the game-over value. */
  const CorrectedLimit: int := |MockFlashcards|

  /** One press of a rating button, with the advance bound as a parameter:
      the rating is appended, and the index moves on only while below `limit`. */
  function Rate(s: Session, r: Rating, limit: int): (t: Session)
    ensures |t.ratings| == |s.ratings| + 1
    ensures t.ratings[..|s.ratings|] == s.ratings && t.ratings[|s.ratings|] == r
    ensures s.currentCardIndex < limit ==> t.currentCardIndex == s.currentCardIndex + 1
    ensures s.currentCardIndex >= limit ==> t.currentCardIndex == s.currentCardIndex
    ensures 0 <= s.currentCardIndex <= limit ==> 0 <= t.currentCardIndex <= limit
  {
    Session(if s.currentCardIndex < limit then s.currentCardIndex + 1 else s.currentCardIndex,
            s.ratings + [r])
  }

  /** The state after pressing the buttons `rs` in order from the start. */
  function RateAll(rs: seq<Rating>, limit: int): (s: Session)
    ensures s.ratings == rs
    ensures limit >= 0 ==> 0 <= s.currentCardIndex <= limit
  {
    if rs == [] then Initial
    else Rate(RateAll(rs[..|rs| - 1], limit), rs[|rs| - 1], limit)
  }

  function Min(a: int, b: int): int { if a <= b then a else b }

  /** After n ratings from the start, the list holds exactly those ratings in
      order and the index is n, capped at the advance bound. */
  lemma {:induction false} RateAllShape(rs: seq<Rating>, limit: int)
    requires limit >= 0
    ensures RateAll(rs, limit).ratings == rs
    ensures RateAll(rs, limit).currentCardIndex == Min(|rs|, limit)
  {
    if rs != [] {
      var prefix := rs[..|rs| - 1];
      RateAllShape(prefix, limit);
      assert prefix + [rs[|rs| - 1]] == rs;
    }
  }

  /** `currentCardIndex === mockFlashcards.length` */
  predicate IsGameOver(s: Session)
    ensures IsGameOver(s) ==> !(0 <= s.currentCardIndex < |MockFlashcards|)
    ensures 0 <= s.currentCardIndex <= |MockFlashcards| ==>
              (IsGameOver(s) <==> s.currentCardIndex >= |MockFlashcards|)
  {
    s.currentCardIndex == |MockFlashcards|
  }

  /** As written, the index stays within the sample deck for every sequence of
      ratings, so the game-over test never holds and the summary is never shown. */
  lemma NeverGameOver(rs: seq<Rating>)
    ensures 0 <= RateAll(rs, AsWrittenLimit).currentCardIndex < |MockFlashcards|
    ensures !IsGameOver(RateAll(rs, AsWrittenLimit))
  {
    RateAllShape(rs, AsWrittenLimit);
  }

  /** With the corrected bound the game is over exactly from the fourth
      rating on, and never before. */
  lemma CorrectedGameOver(rs: seq<Rating>)
    ensures IsGameOver(RateAll(rs, CorrectedLimit)) <==> |rs| >= |MockFlashcards|
    ensures 0 <= RateAll(rs, CorrectedLimit).currentCardIndex <= |MockFlashcards|
  {
    RateAllShape(rs, CorrectedLimit);
  }

  /** `ratings.filter(r => r === category).length` */
  function Count(rs: seq<Rating>, category: Rating): (n: nat)
    ensures n <= |rs|
    ensures n == 0 <==> category !in rs
  {
    if rs == [] then 0
    else (if rs[0] == category then 1 else 0) + Count(rs[1..], category)
  }

  /** Every rating is one of the four categories, so the four counts add up
      to the number of ratings. */
  lemma {:induction false} CountsSum(rs: seq<Rating>)
    ensures Count(rs, Perfect) + Count(rs, Good) + Count(rs, Bad) + Count(rs, NoRecall) == |rs|
  {
    if rs != [] {
      CountsSum(rs[1..]);
    }
  }

  /** The counts of a longer list are the counts of its parts. */
  lemma {:induction false} CountAppend(a: seq<Rating>, b: seq<Rating>, category: Rating)
    ensures Count(a + b, category) == Count(a, category) + Count(b, category)
  {
    if a == [] {
      assert a + b == b;
    } else {
      assert (a + b)[1..] == a[1..] + b;
      CountAppend(a[1..], b, category);
    }
  }

  datatype Summary = Summary(totalCards: nat, perfect: nat, good: nat, bad: nat, none: nat)

  /** The end-of-game summary. Its total is the size of the sample deck, not
      the number of ratings given. */
  function GameSummary(s: Session): (m: Summary)
    ensures m.totalCards == |MockFlashcards|
    ensures m.perfect <= |s.ratings| && m.good <= |s.ratings|
    ensures m.bad <= |s.ratings| && m.none <= |s.ratings|
    ensures m.perfect + m.good + m.bad + m.none == |s.ratings|
  {
    CountsSum(s.ratings);
    Summary(|MockFlashcards|,
            Count(s.ratings, Perfect), Count(s.ratings, Good),
            Count(s.ratings, Bad), Count(s.ratings, NoRecall))
  }

  /** With the corrected bound, the summary shown when the game ends accounts
      for one rating per card. */
  lemma CorrectedSummaryTotals(rs: seq<Rating>)
    requires |rs| == |MockFlashcards|
    ensures IsGameOver(RateAll(rs, CorrectedLimit))
    ensures var m := GameSummary(RateAll(rs, CorrectedLimit));
            m.perfect + m.good + m.bad + m.none == m.totalCards
  {
    RateAllShape(rs, CorrectedLimit);
  }

  /** The game page's state, updated in place by the rating handler. */
  class QuickGame {
    var currentCardIndex: int
    var ratings: seq<Rating>

    function State(): Session
      reads this
    {
      Session(currentCardIndex, ratings)
    }

    /** The index always names a card of the sample deck. */
    predicate Valid()
      reads this
    {
      0 <= currentCardIndex <= AsWrittenLimit
    }

    constructor ()
      ensures State() == Initial && Valid()
    {
      currentCardIndex := 0;
      ratings := [];
    }

    /** handleRate as written. */
    method HandleRate(r: Rating)
      requires Valid()
      modifies this
      ensures Valid() && !IsGameOver(State())
      ensures State() == Rate(old(State()), r, AsWrittenLimit)
    {
      ratings := ratings + [r];
      if currentCardIndex < |MockFlashcards| - 1 {
        currentCardIndex := currentCardIndex + 1;
      }
    }

    /** The card on screen: `mockFlashcards[currentCardIndex]`, always in range. */
    method ShownCard() returns (c: MockCard)
      requires Valid()
      ensures currentCardIndex < |MockFlashcards| && c == MockFlashcards[currentCardIndex]
    {
      c := MockFlashcards[currentCardIndex];
    }
  }

  /** Any run of the page's handler from a fresh page ends in the state the
      pure model predicts. */
  method PlayAsWritten(rs: seq<Rating>) returns (final: Session)
    ensures final == RateAll(rs, AsWrittenLimit)
    ensures final.ratings == rs && final.currentCardIndex == Min(|rs|, AsWrittenLimit)
  {
    var game := new QuickGame();
    var i := 0;
    while i < |rs|
      invariant 0 <= i <= |rs|
      invariant game.Valid()
      invariant game.State() == RateAll(rs[..i], AsWrittenLimit)
    {
      assert rs[..i + 1][..i] == rs[..i];
      game.HandleRate(rs[i]);
      i := i + 1;
    }
    assert rs[..|rs|] == rs;
    final := game.State();
    RateAllShape(rs, AsWrittenLimit);
  }
}
