/**
 The top-score ledger of src/main.js: the stored list is read (or defaults to
 three zeros), the new score is appended, the list is sorted descending and
 cut to its first three entries, and the result is stored and returned.
 The browser's storage is replaced by a `Stored` value passed in and out.
 */
module Leaderboard {
  import opened Sorting

  /** How many scores the board keeps. */
  const Slots: nat := 3

  /** What the storage holds under the board's key: nothing, or a parsed list. */
  datatype Stored = Absent | Present(scores: seq<int>)

  /** The board before an update: the stored list, or three zeros when none. */
  function GetTopScores(stored: Stored): (r: seq<int>)
    ensures stored.Present? ==> r == stored.scores
    ensures stored.Absent? ==> |r| == Slots && forall i :: 0 <= i < |r| ==> r[i] == 0
  {
    match stored
    case Absent => [0, 0, 0]
    case Present(s) => s
  }

  /** The first `n` entries of `s`, or all of it when it is shorter. */
  function Take(s: seq<int>, n: nat): (r: seq<int>)
    ensures |r| == if |s| <= n then |s| else n
    ensures r <= s
  {
    if |s| <= n then s else s[..n]
  }

  /** Everything the update ranks: the previous board plus the new score. */
  function Candidates(stored: Stored, newScore: int): seq<int> {
    GetTopScores(stored) + [newScore]
  }

  /**
   Records `newScore`: the result is the best three candidates in
   non-increasing order; every candidate left out is no better than the last
   one kept, and nothing is kept that was not a candidate.
   */
  function UpdateTopScores(stored: Stored, newScore: int): (r: seq<int>)
    ensures SortedDesc(r)
    ensures 1 <= |r| <= Slots
    ensures |r| == if |GetTopScores(stored)| < Slots then |GetTopScores(stored)| + 1 else Slots
    ensures multiset(r) <= multiset(Candidates(stored, newScore))
    ensures forall y :: y in multiset(Candidates(stored, newScore)) - multiset(r) ==> y <= r[|r| - 1]
  {
    var all := Candidates(stored, newScore);
    var sorted := SortDesc(all);
    var r := Take(sorted, Slots);
    TakeOfSorted(sorted, Slots);
    r
  }

  /** A prefix of a sorted list keeps the largest elements. */
  lemma TakeOfSorted(s: seq<int>, n: nat)
    requires SortedDesc(s) && 0 < n && |s| > 0
    ensures SortedDesc(Take(s, n))
    ensures multiset(Take(s, n)) <= multiset(s)
    ensures forall y :: y in multiset(s) - multiset(Take(s, n)) ==> y <= Take(s, n)[|Take(s, n)| - 1]
  {
    if |s| > n {
      assert s == s[..n] + s[n..];
      TailBelowPrefix(s, n);
    }
  }

  /** In an ordered list, everything from position `n` on is at most `s[n-1]`. */
  lemma TailBelowPrefix(s: seq<int>, n: nat)
    requires SortedDesc(s) && 0 < n < |s|
    ensures forall y :: y in multiset(s[n..]) ==> y <= s[n - 1]
  {
    forall y | y in multiset(s[n..])
      ensures y <= s[n - 1]
    {
      assert y in s[n..];
      var k :| 0 <= k < |s[n..]| && s[n..][k] == y;
      assert s[n + k] == y;
    }
  }

  /**
   The result does not depend on which sorting algorithm ranks the
   candidates: any non-increasing arrangement of them gives the same board.
   */
  lemma UpdateIsTopOfAnySort(stored: Stored, newScore: int, sorted: seq<int>)
    requires SortedDesc(sorted)
    requires multiset(sorted) == multiset(Candidates(stored, newScore))
    ensures UpdateTopScores(stored, newScore) == Take(sorted, Slots)
  {
    SortedPermutationUnique(SortDesc(Candidates(stored, newScore)), sorted);
  }

  /** A well-formed board: non-increasing and no longer than `Slots`. */
  predicate WellFormed(stored: Stored) {
    SortedDesc(GetTopScores(stored)) && |GetTopScores(stored)| <= Slots
  }

  /** On an ordered board the update is an insertion of the new score. */
  lemma UpdateOfSortedIsInsert(stored: Stored, newScore: int)
    requires SortedDesc(GetTopScores(stored))
    ensures UpdateTopScores(stored, newScore) == Take(Insert(newScore, GetTopScores(stored)), Slots)
  {
    var board := GetTopScores(stored);
    assert multiset(Insert(newScore, board)) == multiset(Candidates(stored, newScore));
    UpdateIsTopOfAnySort(stored, newScore, Insert(newScore, board));
  }

  /** Recording a score never lowers the score held at any rank of a well-formed board. */
  lemma UpdateNeverLowersRanks(stored: Stored, newScore: int, i: int)
    requires WellFormed(stored)
    requires 0 <= i < |GetTopScores(stored)|
    ensures UpdateTopScores(stored, newScore)[i] >= GetTopScores(stored)[i]
  {
    UpdateOfSortedIsInsert(stored, newScore);
    InsertRaisesRanks(newScore, GetTopScores(stored), i);
  }

  /** A score that does not beat the last entry of a full, ordered board leaves it as it was. */
  lemma LowScoreLeavesBoard(stored: Stored, newScore: int)
    requires WellFormed(stored) && |GetTopScores(stored)| == Slots
    requires newScore <= GetTopScores(stored)[Slots - 1]
    ensures UpdateTopScores(stored, newScore) == GetTopScores(stored)
  {
    var board := GetTopScores(stored);
    UpdateOfSortedIsInsert(stored, newScore);
    InsertKeepsPrefix(newScore, board, Slots);
    assert board[..Slots] == board;
  }

  /** A score that beats the last entry of a full, ordered board takes a place on it. */
  lemma HighScoreEntersBoard(stored: Stored, newScore: int)
    requires WellFormed(stored) && |GetTopScores(stored)| == Slots
    requires newScore > GetTopScores(stored)[Slots - 1]
    ensures newScore in UpdateTopScores(stored, newScore)
  {
    UpdateOfSortedIsInsert(stored, newScore);
    InsertEntersPrefix(newScore, GetTopScores(stored), Slots);
  }

  /** A score at least as high as the best on a full, ordered board becomes the
      new best and pushes the others one rank down, dropping the last. */
  lemma NewBestScore(stored: Stored, newScore: int)
    requires WellFormed(stored) && |GetTopScores(stored)| == Slots
    requires newScore >= GetTopScores(stored)[0]
    ensures UpdateTopScores(stored, newScore) == [newScore] + GetTopScores(stored)[..Slots - 1]
  {
    var board := GetTopScores(stored);
    UpdateOfSortedIsInsert(stored, newScore);
    assert Insert(newScore, board) == [newScore] + board;
    assert Take([newScore] + board, Slots) == [newScore] + board[..Slots - 1];
  }

  /** With nothing stored, a first non-negative score heads a board of zeros. */
  lemma FirstScoreOnEmptyStorage(newScore: int)
    requires newScore >= 0
    ensures UpdateTopScores(Absent, newScore) == [newScore, 0, 0]
  {
    NewBestScore(Absent, newScore);
  }

  /**
   The storage after `times` game-over scenes in a row, each recording the
   same score: every scene records it once more on the board it finds.
   */
  function RecordTimes(stored: Stored, newScore: int, times: nat): (r: Stored)
    ensures times == 0 ==> r == stored
    ensures times == 1 ==> r == Present(UpdateTopScores(stored, newScore))
    ensures times > 0 ==> r.Present? && WellFormed(r) && 1 <= |r.scores| <= Slots
    decreases times
  {
    if times == 0 then stored
    else Present(UpdateTopScores(RecordTimes(stored, newScore, times - 1), newScore))
  }

  /**
   A new best score recorded twice on a full board takes the first two
   ranks, and the old best falls to third.
   */
  lemma NewBestRecordedTwice(stored: Stored, newScore: int)
    requires WellFormed(stored) && |GetTopScores(stored)| == Slots
    requires newScore >= GetTopScores(stored)[0]
    ensures RecordTimes(stored, newScore, 2) == Present([newScore, newScore, GetTopScores(stored)[0]])
  {
    RecordTwice(stored, newScore);
    NewBestTwice(stored, newScore);
  }

  /** The same, stated on two updates in a row. */
  lemma NewBestTwice(stored: Stored, newScore: int)
    requires WellFormed(stored) && |GetTopScores(stored)| == Slots
    requires newScore >= GetTopScores(stored)[0]
    ensures UpdateTopScores(Present(UpdateTopScores(stored, newScore)), newScore)
      == [newScore, newScore, GetTopScores(stored)[0]]
  {
    var first := UpdateTopScores(stored, newScore);
    NewBestScore(stored, newScore);
    BestRecordedAgain(first, newScore);
  }

  /** Recording the best score of a full board again puts it on the board twice. */
  lemma BestRecordedAgain(board: seq<int>, best: int)
    requires |board| == Slots && SortedDesc(board) && board[0] == best
    ensures UpdateTopScores(Present(board), best) == [best, best, board[1]]
  {
    NewBestScore(Present(board), best);
  }


  /** Two recordings are one recording on the board the first one stored. */
  lemma RecordTwice(stored: Stored, newScore: int)
    ensures RecordTimes(stored, newScore, 2) == Present(UpdateTopScores(Present(UpdateTopScores(stored, newScore)), newScore))
  {
    assert RecordTimes(stored, newScore, 1) == Present(UpdateTopScores(stored, newScore));
  }


  /**
   A score between the second and the best entry of a full, ordered board
   takes second place, and the old second falls to third.
   */
  lemma SecondBestScore(board: seq<int>, newScore: int)
    requires SortedDesc(board) && |board| == Slots
    requires board[1] <= newScore < board[0]
    ensures UpdateTopScores(Present(board), newScore) == [board[0], newScore, board[1]]
  {
    var inserted := [board[0], newScore, board[1], board[2]];
    assert UpdateTopScores(Present(board), newScore) == Take(inserted, Slots) by {
      UpdateOfSortedIsInsert(Present(board), newScore);
      InsertSecond(newScore, board);
    }
    assert Take(inserted, Slots) == [board[0], newScore, board[1]];
  }

  /**
   A second-best score recorded twice on a full board fills the second and
   third ranks below the unchanged best.
   */
  lemma SecondBestRecordedTwice(board: seq<int>, newScore: int)
    requires SortedDesc(board) && |board| == Slots
    requires board[1] <= newScore < board[0]
    ensures RecordTimes(Present(board), newScore, 2) == Present([board[0], newScore, newScore])
  {
    RecordTwice(Present(board), newScore);
    SecondBestTwice(board, newScore);
  }

  /** The same, stated on two updates in a row. */
  lemma SecondBestTwice(board: seq<int>, newScore: int)
    requires SortedDesc(board) && |board| == Slots
    requires board[1] <= newScore < board[0]
    ensures UpdateTopScores(Present(UpdateTopScores(Present(board), newScore)), newScore)
      == [board[0], newScore, newScore]
  {
    SecondBestScore(board, newScore);
    SecondBestScore([board[0], newScore, board[1]], newScore);
  }
}
