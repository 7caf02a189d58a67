/**
 * Tienduizend, the dice game scored to 10,000: a roster whose players
 * carry a stored running score and a history of entries, the player
 * whose turn it is, the score keypad (a digit string of at most five
 * characters), and the set of players whose history panel is open.
 */
module Tienduizend {
  import opened Options
  import opened JsNumbers
  import opened JsArrays
  import opened Players

  // ---------------------------------------------------------------------
  // Data

  datatype EntryType = Add | Subtract | Farkle

  /** The keypad's two modes; a farkle is never typed in. */
  type Mode = t: EntryType | t != Farkle witness Add

  /** One history line: +value for an add, -value for a subtract, 0 for a farkle. */
  datatype HistoryEntry = HistoryEntry(value: int, kind: EntryType)

  /** The score is stored and updated in place; the history is a log beside it. */
  datatype Player = Player(id: Id, name: string, score: int, history: seq<HistoryEntry>, color: string)

  /** The score modal's target player and mode (its open flag is left out). */
  datatype ScoreModal = ScoreModal(playerId: Option<Id>, mode: Mode)

  const ClosedModal := ScoreModal(None, Add)

  const TargetScore := 10000
  const QuickScores: seq<nat> := [50, 100, 150, 200, 250, 300, 350, 500, 1000]
  const MaxInputLength := 5

  function IdOf(p: Player): Id { p.id }

  // ---------------------------------------------------------------------
  // The score keypad

  /**
   * What the keypad can show: one to five decimal digits, with no
   * leading zero except for the lone "0" it starts from.
   */
  predicate ValidScoreInput(s: string)
  {
    IsDigitString(s) && 1 <= |s| <= MaxInputLength && (|s| > 1 ==> s[0] != '0')
  }

  /** The input reads as zero exactly when it is the lone "0". */
  lemma InputIsZero(s: string)
    requires ValidScoreInput(s)
    ensures DigitsValue(s) == 0 <==> s == "0"
  {
    if s != "0" {
      LeadingDigitPositive(s);
    }
  }

  /** `parseInt` of the keypad input is its decimal value, below 100,000. */
  lemma InputValue(s: string)
    requires ValidScoreInput(s)
    ensures ParseInt(s) == Some(DigitsValue(s))
    ensures 0 <= DigitsValue(s) < 100000
  {
    ParseIntOfDigits(s);
    DigitsBelow(s, MaxInputLength);
  }

  /** `appendDigit`: a lone "0" is replaced, otherwise the digit is appended while there is room. */
  function InputAppendDigit(s: string, digit: char): (r: string)
    requires ValidScoreInput(s) && IsDigit(digit)
    ensures ValidScoreInput(r)
    ensures |s| < MaxInputLength ==> DigitsValue(r) == DigitsValue(s) * 10 + DigitValue(digit)
    ensures |s| == MaxInputLength ==> r == s
  {
    if s == "0" then [digit]
    else if |s| < MaxInputLength then
      assert (s + [digit])[..|s|] == s;
      s + [digit]
    else s
  }

  /** `backspace`: drops the last digit; a single digit becomes "0". */
  function InputBackspace(s: string): (r: string)
    requires ValidScoreInput(s)
    ensures ValidScoreInput(r)
    ensures |r| == if |s| > 1 then |s| - 1 else 1
    ensures DigitsValue(r) == DigitsValue(s) / 10
  {
    if |s| > 1 then s[..|s| - 1] else "0"
  }

  /** `clearScore`. */
  function InputClear(): (r: string)
    ensures ValidScoreInput(r) && DigitsValue(r) == 0
  {
    "0"
  }

  /** `setQuickScore`: the input spells the chosen quick score. */
  function InputQuickScore(value: nat): (r: string)
    requires value in QuickScores
    ensures ValidScoreInput(r)
    ensures ParseInt(r) == Some(value) && DigitsValue(r) == value
  {
    NatToStringLength(value, MaxInputLength);
    ParseIntOfNatToString(value);
    NatToString(value)
  }

  // ---------------------------------------------------------------------
  // Turns

  /** `currentPlayerIndex` is 0 or points at a player. */
  predicate IndexInRange(i: int, n: int)
  {
    0 <= i && (i < n || i == 0)
  }

  /** `nextTurn`: `(i + 1) % n` with JavaScript's truncating remainder; nothing when n is 0. */
  function NextIndex(i: int, n: int): (r: int)
    ensures n <= 0 ==> r == i
    ensures n > 0 && -1 <= i < n - 1 ==> r == i + 1
    ensures n > 0 && i == n - 1 ==> r == 0
    ensures IndexInRange(i, n) ==> IndexInRange(r, n)
  {
    if n <= 0 then i
    else if i + 1 >= 0 then (i + 1) % n
    else -((-(i + 1)) % n)
  }

  /** k consecutive turns. */
  function Advance(i: int, n: int, k: nat): int
  {
    if k == 0 then i else NextIndex(Advance(i, n, k - 1), n)
  }

  /** a turns followed by b turns are a + b turns. */
  lemma {:induction false} AdvanceCompose(i: int, n: int, a: nat, b: nat)
    ensures Advance(i, n, a + b) == Advance(Advance(i, n, a), n, b)
  {
    if b > 0 {
      AdvanceCompose(i, n, a, b - 1);
    }
  }

  /** Below the end of the roster, each turn moves the index up by one. */
  lemma {:induction false} AdvanceUp(i: int, n: int, k: nat)
    requires 0 <= i && i + k < n
    ensures Advance(i, n, k) == i + k
  {
    if k > 0 {
      AdvanceUp(i, n, k - 1);
    }
  }

  /** n turns bring the turn back to where it started: up to the last player, round to 0, up again. */
  lemma FullRound(i: int, n: int)
    requires 0 <= i < n
    ensures Advance(i, n, n) == i
  {
    var up := n - 1 - i;
    AdvanceUp(i, n, up);
    assert Advance(i, n, up) == n - 1;
    AdvanceCompose(i, n, up, i + 1);
    assert Advance(i, n, n) == Advance(n - 1, n, i + 1);
    AdvanceCompose(n - 1, n, 1, i);
    assert Advance(n - 1, n, 1) == NextIndex(n - 1, n) == 0;
    AdvanceUp(0, n, i);
  }

  /**
   * The index after `deletePlayer`: reset to 0 when it falls off the end
   * of a roster that is still non-empty, kept otherwise.
   */
  function ClampIndex(i: int, newLength: int): (r: int)
    ensures r == i || r == 0
    ensures newLength > 0 && i >= newLength ==> r == 0
    ensures 0 <= i && newLength > 0 ==> 0 <= r < newLength
    ensures !(newLength > 0 && i >= newLength) ==> r == i
  {
    if i >= newLength && newLength > 0 then 0 else i
  }

  // ---------------------------------------------------------------------
  // Scores and history

  function HistorySum(h: seq<HistoryEntry>): int
  {
    if h == [] then 0 else HistorySum(h[..|h| - 1]) + h[|h| - 1].value
  }

  lemma HistorySumAppend(h: seq<HistoryEntry>, e: HistoryEntry)
    ensures HistorySum(h + [e]) == HistorySum(h) + e.value
  {
    assert (h + [e])[..|h|] == h;
  }

  predicate NoSubtractions(h: seq<HistoryEntry>)
  {
    forall i :: 0 <= i < |h| ==> h[i].kind != Subtract
  }

  /**
   * How the stored score relates to the history: never negative, never
   * below the sum of the history (a subtract clamped at 0 only lifts it
   * above), and equal to that sum while nothing was subtracted.
   */
  predicate Consistent(p: Player)
  {
    && 0 <= p.score
    && HistorySum(p.history) <= p.score
    && (NoSubtractions(p.history) ==> p.score == HistorySum(p.history))
  }

  /** The `map` callback of `confirmScore` for the target player. */
  function ApplyScore(p: Player, mode: Mode, value: int): (q: Player)
    ensures q.id == p.id && q.name == p.name && q.color == p.color
    ensures |q.history| == |p.history| + 1 && q.history[..|p.history|] == p.history
    ensures q.history[|p.history|] == HistoryEntry(if mode == Add then value else -value, mode)
    ensures mode == Add ==> q.score == p.score + value
    ensures mode == Subtract ==> q.score == if p.score - value > 0 then p.score - value else 0
  {
    var newScore := if mode == Add then p.score + value
                    else if p.score - value > 0 then p.score - value else 0;
    var entry := HistoryEntry(if mode == Add then value else -value, mode);
    assert (p.history + [entry])[..|p.history|] == p.history;
    p.(score := newScore, history := p.history + [entry])
  }

  /**
   * Confirming keeps a player consistent: an add moves score and history
   * sum together, a subtract can only widen the gap between them.
   */
  lemma ApplyScoreConsistent(p: Player, mode: Mode, value: int)
    requires Consistent(p) && value >= 0
    ensures Consistent(ApplyScore(p, mode, value))
    ensures mode == Add ==>
              ApplyScore(p, mode, value).score - HistorySum(ApplyScore(p, mode, value).history)
              == p.score - HistorySum(p.history)
    ensures mode == Subtract ==>
              ApplyScore(p, mode, value).score - HistorySum(ApplyScore(p, mode, value).history)
              >= p.score - HistorySum(p.history)
  {
    var q := ApplyScore(p, mode, value);
    assert q.history == p.history + [q.history[|p.history|]];
    HistorySumAppend(p.history, q.history[|p.history|]);
    if NoSubtractions(q.history) {
      assert NoSubtractions(p.history) by {
        forall i | 0 <= i < |p.history| ensures p.history[i].kind != Subtract {
          assert q.history[i] == p.history[i];
        }
      }
    }
  }

  /** The `map` callback of `farkle`: a 0 entry of kind farkle, the score untouched. */
  function ApplyFarkle(p: Player): (q: Player)
    ensures q.id == p.id && q.name == p.name && q.color == p.color && q.score == p.score
    ensures q.history == p.history + [HistoryEntry(0, Farkle)]
  {
    p.(history := p.history + [HistoryEntry(0, Farkle)])
  }

  lemma ApplyFarkleConsistent(p: Player)
    requires Consistent(p)
    ensures Consistent(ApplyFarkle(p))
    ensures HistorySum(ApplyFarkle(p).history) == HistorySum(p.history)
  {
    var q := ApplyFarkle(p);
    HistorySumAppend(p.history, HistoryEntry(0, Farkle));
    if NoSubtractions(q.history) {
      assert NoSubtractions(p.history) by {
        forall i | 0 <= i < |p.history| ensures p.history[i].kind != Subtract {
          assert q.history[i] == p.history[i];
        }
      }
    }
  }

  /** `prev.map(...)` in `confirmScore`: only the players with that id get the entry. */
  function ScoreTarget(ps: seq<Player>, id: Id, mode: Mode, value: int): (r: seq<Player>)
    ensures |r| == |ps|
    ensures forall i :: 0 <= i < |r| ==> r[i].id == ps[i].id && (ps[i].id != id ==> r[i] == ps[i])
    ensures forall i :: 0 <= i < |r| && ps[i].id == id ==> r[i] == ApplyScore(ps[i], mode, value)
  {
    seq(|ps|, i requires 0 <= i < |ps| => if ps[i].id == id then ApplyScore(ps[i], mode, value) else ps[i])
  }

  /** `prev.map(...)` in `farkle`. */
  function FarkleTarget(ps: seq<Player>, id: Id): (r: seq<Player>)
    ensures |r| == |ps|
    ensures forall i :: 0 <= i < |r| ==> r[i].id == ps[i].id && r[i].score == ps[i].score
                                         && (ps[i].id != id ==> r[i] == ps[i])
    ensures forall i :: 0 <= i < |r| && ps[i].id == id ==> r[i] == ApplyFarkle(ps[i])
  {
    seq(|ps|, i requires 0 <= i < |ps| => if ps[i].id == id then ApplyFarkle(ps[i]) else ps[i])
  }

  /** `prev.map(...)` in `startNewGame`: same players, ids, names and colours; score 0, no history. */
  function ResetScores(ps: seq<Player>): (r: seq<Player>)
    ensures |r| == |ps|
    ensures forall i :: 0 <= i < |r| ==> r[i].id == ps[i].id && r[i].name == ps[i].name
                                         && r[i].color == ps[i].color && r[i].score == 0 && r[i].history == []
  {
    seq(|ps|, i requires 0 <= i < |ps| => ps[i].(score := 0, history := []))
  }

  /** `prev.map(...)` in `updatePlayerName`. */
  function Rename(ps: seq<Player>, id: Id, name: string): (r: seq<Player>)
    ensures |r| == |ps|
    ensures forall i :: 0 <= i < |r| ==> r[i] == if ps[i].id == id then ps[i].(name := NameOrPlaceholder(name)) else ps[i]
  {
    seq(|ps|, i requires 0 <= i < |ps| => if ps[i].id == id then ps[i].(name := NameOrPlaceholder(name)) else ps[i])
  }

  ghost predicate AllConsistent(ps: seq<Player>)
  {
    forall i :: 0 <= i < |ps| ==> Consistent(ps[i])
  }

  /** A confirm keeps ids distinct and every player consistent. */
  lemma ScoreTargetValid(ps: seq<Player>, id: Id, mode: Mode, value: int)
    requires DistinctIds(ps, IdOf) && AllConsistent(ps) && value >= 0
    ensures DistinctIds(ScoreTarget(ps, id, mode, value), IdOf)
    ensures AllConsistent(ScoreTarget(ps, id, mode, value))
  {
    var r := ScoreTarget(ps, id, mode, value);
    forall a, b | 0 <= a < b < |r| ensures IdOf(r[a]) != IdOf(r[b]) {
      assert IdOf(ps[a]) != IdOf(ps[b]);
    }
    forall i | 0 <= i < |r| ensures Consistent(r[i]) {
      if ps[i].id == id {
        ApplyScoreConsistent(ps[i], mode, value);
      }
    }
  }

  /** A farkle keeps ids distinct and every player consistent. */
  lemma FarkleTargetValid(ps: seq<Player>, id: Id)
    requires DistinctIds(ps, IdOf) && AllConsistent(ps)
    ensures DistinctIds(FarkleTarget(ps, id), IdOf)
    ensures AllConsistent(FarkleTarget(ps, id))
  {
    var r := FarkleTarget(ps, id);
    forall a, b | 0 <= a < b < |r| ensures IdOf(r[a]) != IdOf(r[b]) {
      assert IdOf(ps[a]) != IdOf(ps[b]);
    }
    forall i | 0 <= i < |r| ensures Consistent(r[i]) {
      if ps[i].id == id {
        ApplyFarkleConsistent(ps[i]);
      }
    }
  }

  /**
   * Deleting a player keeps ids distinct and every player consistent, and
   * removes at most one player, so an emptied roster had one player at most.
   */
  lemma RemoveIdValid(ps: seq<Player>, id: Id)
    requires DistinctIds(ps, IdOf) && AllConsistent(ps)
    ensures DistinctIds(RemoveId(ps, id, IdOf), IdOf)
    ensures AllConsistent(RemoveId(ps, id, IdOf))
    ensures |RemoveId(ps, id, IdOf)| >= |ps| - 1
  {
    var r := RemoveId(ps, id, IdOf);
    RemoveIdDistinct(ps, id, IdOf);
    if HasId(ps, id, IdOf) {
      var k :| 0 <= k < |ps| && IdOf(ps[k]) == id;
      RemoveIdAt(ps, id, IdOf, k);
    } else {
      RemoveAbsentId(ps, id, IdOf);
    }
    forall i | 0 <= i < |r| ensures Consistent(r[i]) {
      RemoveIdMember(ps, id, IdOf, r[i]);
      var j :| 0 <= j < |ps| && ps[j] == r[i];
    }
  }

  // ---------------------------------------------------------------------
  // Winner and standings

  predicate AtTarget(p: Player) { p.score >= TargetScore }

  /** `players.find(p => p.score >= TARGET_SCORE)`: the first player in roster order at 10,000 or more. */
  function Winner(players: seq<Player>): (w: Option<Player>)
    ensures w.None? <==> forall i :: 0 <= i < |players| ==> players[i].score < TargetScore
    ensures w.Some? ==> exists i :: 0 <= i < |players| && players[i] == w.value && w.value.score >= TargetScore
                                    && forall j :: 0 <= j < i ==> players[j].score < TargetScore
  {
    Find(players, AtTarget)
  }

  /** An add can only raise scores, so a winner stays a winner. */
  lemma AddKeepsWinner(ps: seq<Player>, id: Id, value: int)
    requires value >= 0 && Winner(ps).Some?
    ensures Winner(ScoreTarget(ps, id, Add, value)).Some?
  {
    var i :| 0 <= i < |ps| && ps[i] == Winner(ps).value && ps[i].score >= TargetScore;
    assert ScoreTarget(ps, id, Add, value)[i].score >= TargetScore;
  }

  /** A farkle leaves every score alone, so the winner is the same player with the same score. */
  lemma FarkleKeepsWinner(ps: seq<Player>, id: Id)
    ensures Winner(FarkleTarget(ps, id)).Some? <==> Winner(ps).Some?
    ensures Winner(ps).Some? ==>
              Winner(FarkleTarget(ps, id)).value.id == Winner(ps).value.id
              && Winner(FarkleTarget(ps, id)).value.score == Winner(ps).value.score
  {
    FindIndexAgrees(ps, AtTarget, FarkleTarget(ps, id), AtTarget);
  }

  /**
   * The winner is recomputed from the scores: when only one player is at
   * 10,000 or more, a subtract that takes them back below it leaves the
   * game without a winner.
   */
  lemma SubtractCanClearWinner(ps: seq<Player>, k: int, value: int)
    requires DistinctIds(ps, IdOf) && 0 <= k < |ps|
    requires ps[k].score >= TargetScore && value > ps[k].score - TargetScore
    requires forall j :: 0 <= j < |ps| && j != k ==> ps[j].score < TargetScore
    ensures Winner(ps) == Some(ps[k])
    ensures Winner(ScoreTarget(ps, ps[k].id, Subtract, value)).None?
  {
    var r := ScoreTarget(ps, ps[k].id, Subtract, value);
    forall j | 0 <= j < |r| ensures r[j].score < TargetScore {
      if j != k {
        assert IdOf(ps[j]) != IdOf(ps[k]);
      }
    }
  }

  /** Such a roster is reachable: one consistent player with a single add of 10,000. */
  lemma SubtractClearsWinnerExample()
    ensures var ps := [Player("a", "Speler 1", 10000, [HistoryEntry(10000, Add)], PlayerColors[0])];
            AllConsistent(ps) && Winner(ps).Some? && Winner(ScoreTarget(ps, "a", Subtract, 50)).None?
  {
    var ps := [Player("a", "Speler 1", 10000, [HistoryEntry(10000, Add)], PlayerColors[0])];
    assert HistorySum(ps[0].history) == 10000 by {
      assert ps[0].history[..0] == [];
    }
    SubtractCanClearWinner(ps, 0, 50);
  }

  /**
   * The check inside `confirmScore`: did the player with that id reach
   * the target? (The turn passes on otherwise.)
   */
  function ReachedTarget(ps: seq<Player>, id: Id): (r: bool)
    ensures r <==> exists i :: 0 <= i < |ps| && ps[i].id == id && ps[i].score >= TargetScore
  {
    Find(ps, (p: Player) => p.id == id && p.score >= TargetScore).Some?
  }

  /** With distinct ids, the check looks at the target player's score; an absent id never reaches it. */
  lemma ReachedTargetAt(ps: seq<Player>, id: Id)
    requires DistinctIds(ps, IdOf)
    ensures forall k :: 0 <= k < |ps| && ps[k].id == id ==> (ReachedTarget(ps, id) <==> ps[k].score >= TargetScore)
    ensures !HasId(ps, id, IdOf) ==> !ReachedTarget(ps, id)
  {
  }

  /** The part of the session `confirmScore` changes besides the modal: the roster and the turn. */
  datatype Turn = Turn(players: seq<Player>, index: int)

  /**
   * `confirmScore` on the roster and the turn: `parseInt` of the input;
   * a value of 0 or a falsy target changes nothing; otherwise the target
   * gets the entry, and the turn passes on unless the `find` sees the
   * target at 10,000 or more.
   */
  function ConfirmTurn(ps: seq<Player>, index: int, input: string, modal: ScoreModal): (t: Turn)
    requires ValidScoreInput(input)
    ensures input == "0" || modal.playerId.None? || modal.playerId == Some("") ==> t == Turn(ps, index)
    ensures |t.players| == |ps|
    ensures forall i :: 0 <= i < |ps| ==> t.players[i].id == ps[i].id
    ensures forall i :: 0 <= i < |ps| && Some(ps[i].id) != modal.playerId ==> t.players[i] == ps[i]
  {
    InputValue(input);
    InputIsZero(input);
    var value := ParseInt(input).value;
    var target := modal.playerId;
    if value == 0 || target.None? || target.value == "" then Turn(ps, index)
    else
      var newPlayers := ScoreTarget(ps, target.value, modal.mode, value);
      if ReachedTarget(newPlayers, target.value) then Turn(newPlayers, index)
      else Turn(newPlayers, NextIndex(index, |ps|))
  }

  /**
   * A confirm for a player on the roster gives that player the entry for
   * the typed value, and passes the turn on exactly when their new score
   * is below 10,000.
   */
  lemma ConfirmTurnAt(ps: seq<Player>, index: int, input: string, modal: ScoreModal, k: int)
    requires ValidScoreInput(input) && DistinctIds(ps, IdOf)
    requires 0 <= k < |ps| && modal.playerId == Some(ps[k].id) && ps[k].id != "" && input != "0"
    ensures ConfirmTurn(ps, index, input, modal).players[k] == ApplyScore(ps[k], modal.mode, DigitsValue(input))
    ensures ConfirmTurn(ps, index, input, modal).index
            == if ApplyScore(ps[k], modal.mode, DigitsValue(input)).score >= TargetScore then index
               else NextIndex(index, |ps|)
  {
    InputValue(input);
    InputIsZero(input);
    var r := ScoreTarget(ps, ps[k].id, modal.mode, DigitsValue(input));
    forall a, b | 0 <= a < b < |r| ensures IdOf(r[a]) != IdOf(r[b]) {
      assert IdOf(ps[a]) != IdOf(ps[b]);
    }
    ReachedTargetAt(r, ps[k].id);
  }

  /** A confirm for an id that is not on the roster changes no player but still passes the turn on. */
  lemma ConfirmTurnAbsent(ps: seq<Player>, index: int, input: string, modal: ScoreModal)
    requires ValidScoreInput(input) && DistinctIds(ps, IdOf) && input != "0"
    requires modal.playerId.Some? && modal.playerId.value != "" && !HasId(ps, modal.playerId.value, IdOf)
    ensures ConfirmTurn(ps, index, input, modal) == Turn(ps, NextIndex(index, |ps|))
  {
    InputValue(input);
    InputIsZero(input);
    var r := ScoreTarget(ps, modal.playerId.value, modal.mode, DigitsValue(input));
    assert r == ps;
    ReachedTargetAt(ps, modal.playerId.value);
  }

  /** A confirm keeps ids distinct, every player consistent and the turn index in range. */
  lemma ConfirmTurnValid(ps: seq<Player>, index: int, input: string, modal: ScoreModal)
    requires ValidScoreInput(input) && DistinctIds(ps, IdOf) && AllConsistent(ps) && IndexInRange(index, |ps|)
    ensures DistinctIds(ConfirmTurn(ps, index, input, modal).players, IdOf)
    ensures AllConsistent(ConfirmTurn(ps, index, input, modal).players)
    ensures IndexInRange(ConfirmTurn(ps, index, input, modal).index, |ps|)
  {
    InputValue(input);
    if modal.playerId.Some? {
      ScoreTargetValid(ps, modal.playerId.value, modal.mode, DigitsValue(input));
    }
  }

  function NegScore(p: Player): int { -p.score }

  /** `[...players].sort((a, b) => b.score - a.score)`. */
  function SortedPlayers(players: seq<Player>): (r: seq<Player>)
    ensures |r| == |players| && multiset(r) == multiset(players)
  {
    SortBy(players, NegScore)
  }

  /** `findIndex` of the id in the standings, plus one; 0 when the id is absent. */
  function PlayerRank(players: seq<Player>, id: Id): (r: int)
    ensures 0 <= r <= |players|
    ensures r > 0 ==> SortedPlayers(players)[r - 1].id == id
  {
    FindIndex(SortedPlayers(players), (p: Player) => p.id == id) + 1
  }

  /**
   * The standings are a permutation of the roster in descending order of
   * score, and players with equal scores keep their roster order.
   */
  lemma StandingsOrder(players: seq<Player>)
    ensures multiset(SortedPlayers(players)) == multiset(players)
    ensures forall i, j :: 0 <= i < j < |players| ==>
              SortedPlayers(players)[i].score >= SortedPlayers(players)[j].score
    ensures forall k :: WithKey(SortedPlayers(players), NegScore, k) == WithKey(players, NegScore, k)
  {
    SortAscending(players, NegScore);
    forall k ensures WithKey(SortedPlayers(players), NegScore, k) == WithKey(players, NegScore, k) {
      SortStable(players, NegScore, k);
    }
  }

  /** The leader of the standings has the highest score and is the first in the roster with it. */
  lemma StandingsLeader(players: seq<Player>)
    requires players != []
    ensures SortedPlayers(players)[0] in players
    ensures forall j :: 0 <= j < |players| ==> SortedPlayers(players)[0].score >= players[j].score
    ensures exists i :: 0 <= i < |players| && players[i] == SortedPlayers(players)[0]
                        && forall j :: 0 <= j < i ==> players[j].score < players[i].score
  {
    SortHead(players, NegScore);
  }

  /** A present player's rank lies in 1..n and points at that player; an absent id ranks 0. */
  lemma RankBounds(players: seq<Player>, id: Id)
    ensures HasId(players, id, IdOf) ==>
              1 <= PlayerRank(players, id) <= |players|
              && SortedPlayers(players)[PlayerRank(players, id) - 1].id == id
    ensures !HasId(players, id, IdOf) ==> PlayerRank(players, id) == 0
  {
    var sorted := SortedPlayers(players);
    if HasId(players, id, IdOf) {
      var i :| 0 <= i < |players| && players[i].id == id;
      FindIndexInSorted(players, NegScore, (p: Player) => p.id == id, i);
    } else {
      forall j | 0 <= j < |sorted| ensures sorted[j].id != id {
        assert sorted[j] in multiset(players);
      }
    }
  }

  // ---------------------------------------------------------------------
  // History panels

  /** `toggleHistory`: flips membership of that id and of no other. */
  function ToggleId(s: set<Id>, id: Id): (r: set<Id>)
    ensures id in r <==> id !in s
    ensures forall x :: x != id ==> (x in r <==> x in s)
  {
    if id in s then s - {id} else s + {id}
  }

  lemma ToggleTwice(s: set<Id>, id: Id)
    ensures ToggleId(ToggleId(s, id), id) == s
  {
  }

  // ---------------------------------------------------------------------
  // The game session

  class Game {
    var players: seq<Player>
    var currentPlayerIndex: int
    var modal: ScoreModal
    var scoreInput: string
    var expandedHistory: set<Id>

    ghost predicate Valid()
      reads this
    {
      && DistinctIds(players, IdOf)
      && IndexInRange(currentPlayerIndex, |players|)
      && ValidScoreInput(scoreInput)
      && AllConsistent(players)
    }

    /** The initial state: no players, index 0, input "0", modal closed, no panel open. */
    constructor ()
      ensures Valid()
      ensures players == [] && currentPlayerIndex == 0 && modal == ClosedModal
      ensures scoreInput == "0" && expandedHistory == {}
    {
      players := [];
      currentPlayerIndex := 0;
      modal := ClosedModal;
      scoreInput := "0";
      expandedHistory := {};
    }

    /** `addPlayer`: score 0, empty history, named and coloured by roster size. */
    method AddPlayer(newId: Id)
      requires Valid() && newId != "" && !HasId(players, newId, IdOf)
      modifies this
      ensures Valid()
      ensures players == old(players) + [Player(newId, DefaultName(|old(players)| + 1), 0, [], ColorFor(|old(players)|))]
      ensures currentPlayerIndex == old(currentPlayerIndex) && modal == old(modal)
      ensures scoreInput == old(scoreInput) && expandedHistory == old(expandedHistory)
    {
      var p := Player(newId, DefaultName(|players| + 1), 0, [], ColorFor(|players|));
      var ps := players + [p];
      AppendDistinct(players, p, IdOf);
      forall i | 0 <= i < |ps| ensures Consistent(ps[i]) {
        if i < |players| {
          assert ps[i] == players[i];
        }
      }
      players := ps;
    }

    /**
     * `deletePlayer`: drops the player with that id; the index is reset
     * to 0 only when it is past the end of a still non-empty roster.
     */
    method DeletePlayer(id: Id)
      requires Valid()
      modifies this
      ensures Valid()
      ensures players == RemoveId(old(players), id, IdOf)
      ensures currentPlayerIndex == ClampIndex(old(currentPlayerIndex), |players|)
      ensures modal == old(modal) && scoreInput == old(scoreInput) && expandedHistory == old(expandedHistory)
    {
      var newPlayers := RemoveId(players, id, IdOf);
      RemoveIdValid(players, id);
      if currentPlayerIndex >= |newPlayers| && |newPlayers| > 0 {
        currentPlayerIndex := 0;
      }
      players := newPlayers;
    }

    /** `updatePlayerName`: the empty name becomes "Speler". */
    method UpdatePlayerName(id: Id, name: string)
      requires Valid()
      modifies this
      ensures Valid()
      ensures players == Rename(old(players), id, name)
      ensures currentPlayerIndex == old(currentPlayerIndex) && modal == old(modal)
      ensures scoreInput == old(scoreInput) && expandedHistory == old(expandedHistory)
    {
      var ps := players;
      players := Rename(ps, id, name);
      forall a, b | 0 <= a < b < |players| ensures IdOf(players[a]) != IdOf(players[b]) {
        assert IdOf(ps[a]) != IdOf(ps[b]);
      }
    }

    /** `openScoreModal`: aims the keypad at a player in a mode and resets the input to "0". */
    method OpenScoreModal(playerId: Id, mode: Mode)
      requires Valid()
      modifies this
      ensures Valid()
      ensures modal == ScoreModal(Some(playerId), mode) && scoreInput == "0"
      ensures players == old(players) && currentPlayerIndex == old(currentPlayerIndex)
      ensures expandedHistory == old(expandedHistory)
    {
      modal := ScoreModal(Some(playerId), mode);
      scoreInput := "0";
    }

    /** `closeScoreModal`: forgets the target and goes back to add mode; the input is kept. */
    method CloseScoreModal()
      requires Valid()
      modifies this
      ensures Valid()
      ensures modal == ClosedModal
      ensures players == old(players) && currentPlayerIndex == old(currentPlayerIndex)
      ensures scoreInput == old(scoreInput) && expandedHistory == old(expandedHistory)
    {
      modal := ClosedModal;
    }

    method AppendDigit(digit: char)
      requires Valid() && IsDigit(digit)
      modifies this
      ensures Valid()
      ensures scoreInput == InputAppendDigit(old(scoreInput), digit)
      ensures players == old(players) && currentPlayerIndex == old(currentPlayerIndex)
      ensures modal == old(modal) && expandedHistory == old(expandedHistory)
    {
      scoreInput := InputAppendDigit(scoreInput, digit);
    }

    method ClearScore()
      requires Valid()
      modifies this
      ensures Valid()
      ensures scoreInput == InputClear()
      ensures players == old(players) && currentPlayerIndex == old(currentPlayerIndex)
      ensures modal == old(modal) && expandedHistory == old(expandedHistory)
    {
      scoreInput := InputClear();
    }

    method Backspace()
      requires Valid()
      modifies this
      ensures Valid()
      ensures scoreInput == InputBackspace(old(scoreInput))
      ensures players == old(players) && currentPlayerIndex == old(currentPlayerIndex)
      ensures modal == old(modal) && expandedHistory == old(expandedHistory)
    {
      scoreInput := InputBackspace(scoreInput);
    }

    method SetQuickScore(value: nat)
      requires Valid() && value in QuickScores
      modifies this
      ensures Valid()
      ensures scoreInput == InputQuickScore(value)
      ensures players == old(players) && currentPlayerIndex == old(currentPlayerIndex)
      ensures modal == old(modal) && expandedHistory == old(expandedHistory)
    {
      scoreInput := InputQuickScore(value);
    }

    /** `nextTurn`. */
    method NextTurn()
      requires Valid()
      modifies this
      ensures Valid()
      ensures currentPlayerIndex == NextIndex(old(currentPlayerIndex), |players|)
      ensures players == old(players) && modal == old(modal)
      ensures scoreInput == old(scoreInput) && expandedHistory == old(expandedHistory)
    {
      currentPlayerIndex := NextIndex(currentPlayerIndex, |players|);
    }

    /**
     * `confirmScore`: the roster and the turn become those `ConfirmTurn`
     * gives, the modal is closed either way, and the input is kept.
     */
    method ConfirmScore()
      requires Valid()
      modifies this
      ensures Valid()
      ensures Turn(players, currentPlayerIndex)
              == ConfirmTurn(old(players), old(currentPlayerIndex), old(scoreInput), old(modal))
      ensures modal == ClosedModal
      ensures scoreInput == old(scoreInput) && expandedHistory == old(expandedHistory)
    {
      var t := ConfirmTurn(players, currentPlayerIndex, scoreInput, modal);
      ConfirmTurnValid(players, currentPlayerIndex, scoreInput, modal);
      assert DistinctIds(t.players, IdOf) && AllConsistent(t.players) && IndexInRange(t.index, |t.players|);
      players := t.players;
      currentPlayerIndex := t.index;
      modal := ClosedModal;
    }

    /** `farkle`: a 0 entry for that player, no score change, and the turn always passes on. */
    method Farkle(playerId: Id)
      requires Valid()
      modifies this
      ensures Valid()
      ensures players == FarkleTarget(old(players), playerId)
      ensures currentPlayerIndex == NextIndex(old(currentPlayerIndex), |old(players)|)
      ensures modal == old(modal) && scoreInput == old(scoreInput) && expandedHistory == old(expandedHistory)
    {
      FarkleTargetValid(players, playerId);
      currentPlayerIndex := NextIndex(currentPlayerIndex, |players|);
      players := FarkleTarget(players, playerId);
    }

    method ToggleHistory(playerId: Id)
      requires Valid()
      modifies this
      ensures Valid()
      ensures expandedHistory == ToggleId(old(expandedHistory), playerId)
      ensures players == old(players) && currentPlayerIndex == old(currentPlayerIndex)
      ensures modal == old(modal) && scoreInput == old(scoreInput)
    {
      expandedHistory := ToggleId(expandedHistory, playerId);
    }

    /** `startNewGame`: same roster, every score 0 and history empty, first player's turn. */
    method StartNewGame()
      requires Valid()
      modifies this
      ensures Valid()
      ensures players == ResetScores(old(players))
      ensures currentPlayerIndex == 0
      ensures modal == old(modal) && scoreInput == old(scoreInput) && expandedHistory == old(expandedHistory)
    {
      var ps := players;
      players := ResetScores(ps);
      forall a, b | 0 <= a < b < |players| ensures IdOf(players[a]) != IdOf(players[b]) {
        assert IdOf(ps[a]) != IdOf(ps[b]);
      }
      currentPlayerIndex := 0;
    }
  }
}
