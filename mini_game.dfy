/** The genre guessing game (src/pages/MiniGamePage.jsx): a round shows a
    genre to guess and four options, a guess scores a point when it is the
    round's genre, and a timer then starts the next round. `Math.random()` is
    a parameter: a real in [0, 1) for the genre pick, and the order the
    random-comparator sort leaves the genre list in for the options. */
module MiniGame {
  import opened Seqs

  const Genres: seq<string> := ["Action", "Adventure", "RPG", "Strategy", "Shooter", "Puzzle", "Horror", "Sports"]
  const OptionCount: nat := 4
  const CorrectFeedback: string := "correct"
  const WrongFeedback: string := "wrong"

  /** The eight genres are different names. */
  lemma GenresDistinct()
    ensures Distinct(Genres)
  {
  }

  /** `getRandomGenre()`: `genres[Math.floor(random * genres.length)]`, so the
      unit interval is cut into eight equal parts, one per genre. */
  function RandomGenre(random: real): (g: string)
    requires 0.0 <= random < 1.0
    ensures g in Genres
    ensures exists i :: (0 <= i < |Genres| && g == Genres[i] &&
                         i as real <= random * |Genres| as real < i as real + 1.0)
  {
    var scaled := random * |Genres| as real;
    var i := scaled.Floor;
    assert 0 <= i < |Genres|;
    Genres[i]
  }

  /** Every genre can come up: the start of each eighth of the interval picks
      the genre at that place. */
  lemma RandomGenreReachesAll(i: nat)
    requires i < |Genres|
    ensures RandomGenre(i as real / |Genres| as real) == Genres[i]
  {
    var r := i as real / |Genres| as real;
    assert r * |Genres| as real == i as real;
    assert (r * |Genres| as real).Floor == i;
  }

  /** What `[...genres].sort(() => 0.5 - Math.random())` leaves: eight
      entries, no repeats, each one a genre. */
  predicate HoldsEachGenreOnce(shuffled: seq<string>) {
    |shuffled| == |Genres| && Distinct(shuffled) && forall g :: g in shuffled ==> g in Genres
  }

  /** Every rearrangement of the genre list holds each genre once, whatever
      order the random comparator leaves it in. */
  lemma RearrangementHoldsEachGenreOnce(shuffled: seq<string>)
    requires multiset(shuffled) == multiset(Genres)
    ensures HoldsEachGenreOnce(shuffled)
  {
    GenresDistinct();
    DistinctIffCountsAtMostOne(Genres);
    DistinctIffCountsAtMostOne(shuffled);
    assert |shuffled| == |multiset(Genres)| == |Genres|;
    forall o | o in shuffled ensures o in Genres {
      assert o in multiset(shuffled);
    }
  }

  /** `generateOptions()`: the first four of `shuffled`, the genre list as the
      random-comparator sort left it. */
  function GenerateOptions(shuffled: seq<string>): (options: seq<string>)
    requires HoldsEachGenreOnce(shuffled)
    ensures |options| == OptionCount
    ensures Distinct(options)
    ensures forall o :: o in options ==> o in Genres
    ensures options <= shuffled
  {
    shuffled[..OptionCount]
  }

  /** The genre to guess is drawn apart from the options, so it need not be
      among them: the first genre can be drawn while the options are the last
      four. */
  lemma GuessMayBeMissing()
    ensures var shuffled := Genres[OptionCount..] + Genres[..OptionCount];
      && multiset(shuffled) == multiset(Genres)
      && HoldsEachGenreOnce(shuffled)
      && RandomGenre(0.0) !in GenerateOptions(shuffled)
  {
    var shuffled := Genres[OptionCount..] + Genres[..OptionCount];
    RotationIsRearrangement();
    assert RandomGenre(0.0) == "Action" by {
      assert (0.0 * |Genres| as real).Floor == 0;
    }
    assert GenerateOptions(shuffled) == Genres[OptionCount..];
  }

  /** The genre list with its last four moved to the front is a rearrangement. */
  lemma RotationIsRearrangement()
    ensures var shuffled := Genres[OptionCount..] + Genres[..OptionCount];
      multiset(shuffled) == multiset(Genres) && HoldsEachGenreOnce(shuffled)
  {
    var shuffled := Genres[OptionCount..] + Genres[..OptionCount];
    assert Genres == Genres[..OptionCount] + Genres[OptionCount..];
    RearrangementHoldsEachGenreOnce(shuffled);
  }

  /** The highlight of an option button: green for the round's genre once any
      feedback shows, red for the others after a wrong guess. */
  function ButtonHighlight(genre: string, correctGenre: string, feedback: string): (h: string)
    ensures h == "btn-correct" <==> feedback != "" && genre == correctGenre
    ensures h == "btn-wrong" <==> feedback == WrongFeedback && genre != correctGenre
    ensures h in {"btn-correct", "btn-wrong", ""}
  {
    if feedback != "" && genre == correctGenre then "btn-correct"
    else if feedback == WrongFeedback && genre != correctGenre then "btn-wrong"
    else ""
  }

  /** After a right guess only the right option lights up; after a wrong one
      every option does, one way or the other; between rounds none does. */
  lemma HighlightAfterGuess(options: seq<string>, correctGenre: string, feedback: string)
    ensures feedback == CorrectFeedback ==>
      forall o :: o in options ==> (ButtonHighlight(o, correctGenre, feedback) != "" <==> o == correctGenre)
    ensures feedback == WrongFeedback ==>
      forall o :: o in options ==> ButtonHighlight(o, correctGenre, feedback) != ""
    ensures feedback == "" ==>
      forall o :: o in options ==> ButtonHighlight(o, correctGenre, feedback) == ""
  {
  }

  /** The page state. */
  class Round {
    var score: nat
    var correctGenre: string
    var options: seq<string>
    var feedback: string

    ghost predicate Valid()
      reads this
    {
      && correctGenre in Genres
      && |options| == OptionCount && Distinct(options)
      && (forall o :: o in options ==> o in Genres)
      && feedback in {"", CorrectFeedback, WrongFeedback}
    }

    /** The first render: score 0, a drawn genre, drawn options. */
    constructor (random: real, shuffled: seq<string>)
      requires 0.0 <= random < 1.0 && HoldsEachGenreOnce(shuffled)
      ensures Valid()
      ensures score == 0 && feedback == ""
      ensures correctGenre == RandomGenre(random) && options == GenerateOptions(shuffled)
    {
      score := 0;
      correctGenre := RandomGenre(random);
      options := GenerateOptions(shuffled);
      feedback := "";
    }

    /** `handleGuess(genre)`, up to the timer it sets. */
    method HandleGuess(genre: string)
      requires Valid()
      modifies this`score, this`feedback
      ensures Valid()
      ensures genre == correctGenre ==> score == old(score) + 1 && feedback == CorrectFeedback
      ensures genre != correctGenre ==> score == old(score) && feedback == WrongFeedback
    {
      if genre == correctGenre {
        score := score + 1;
        feedback := CorrectFeedback;
      } else {
        feedback := WrongFeedback;
      }
    }

    /** The timer callback 800 ms after a guess: the feedback clears and a new
        genre and new options are drawn; the score stays. */
    method NextRound(random: real, shuffled: seq<string>)
      requires Valid()
      requires 0.0 <= random < 1.0 && HoldsEachGenreOnce(shuffled)
      modifies this`feedback, this`correctGenre, this`options
      ensures Valid()
      ensures feedback == ""
      ensures correctGenre == RandomGenre(random) && options == GenerateOptions(shuffled)
    {
      feedback := "";
      correctGenre := RandomGenre(random);
      options := GenerateOptions(shuffled);
    }

    /** The reset button: score and feedback clear; the round stays. */
    method ResetScore()
      requires Valid()
      modifies this`score, this`feedback
      ensures Valid()
      ensures score == 0 && feedback == ""
    {
      score := 0;
      feedback := "";
    }
  }
}
