/**
 * Amerikaans Jokeren: a round-based card game in which the lowest total
 * penalty wins. Every round each player receives one penalty entry; the
 * player who went out that round (the round winner) always gets 0. A
 * total is never stored: it is a fold over the player's entries. The game
 * ends after a number of rounds, once a player's total reaches a points
 * limit, or never.
 */
module Jokeren {
  import opened Options
  import opened JsNumbers
  import opened JsArrays
  import opened Players

  datatype RoundScore = RoundScore(id: Id, round: int, value: int, isWinner: bool)

  datatype Player = Player(id: Id, name: string, scores: seq<RoundScore>, color: string)

  datatype EndCondition = Rounds | Points | NoEnd

  datatype Settings = Settings(endCondition: EndCondition, maxRounds: int, maxPoints: int)

  const DefaultSettings := Settings(NoEnd, 10, 500)

  const QuickScores: seq<nat> := [5, 10, 15, 20, 25, 30, 40, 50, 100]

  /** The longest text the round keypad accepts. */
  const MaxEntryLength := 4

  // ---------------------------------------------------------------------
  // Totals

  /** `scores.reduce((sum, s) => sum + s.value, acc)`. */
  function Reduce(scores: seq<RoundScore>, acc: int): int
  {
    if scores == [] then acc else Reduce(scores[1..], acc + scores[0].value)
  }

  /** `getTotalScore`: never negative while every entry is non-negative, as keypad entries are. */
  function TotalScore(p: Player): (t: int)
    ensures (forall i :: 0 <= i < |p.scores| ==> p.scores[i].value >= 0) ==> t >= 0
    ensures p.scores == [] ==> t == 0
  {
    ReduceAtLeast(p.scores, 0);
    Reduce(p.scores, 0)
  }

  /** With non-negative entries the `reduce` never drops below its start value. */
  lemma {:induction false} ReduceAtLeast(scores: seq<RoundScore>, acc: int)
    ensures (forall i :: 0 <= i < |scores| ==> scores[i].value >= 0) ==> Reduce(scores, acc) >= acc
  {
    if scores != [] && forall i :: 0 <= i < |scores| ==> scores[i].value >= 0 {
      assert forall i :: 0 <= i < |scores[1..]| ==> scores[1..][i] == scores[i + 1];
      ReduceAtLeast(scores[1..], acc + scores[0].value);
    }
  }

  lemma {:induction false} ReduceShift(scores: seq<RoundScore>, acc: int)
    ensures Reduce(scores, acc) == acc + Reduce(scores, 0)
  {
    if scores != [] {
      ReduceShift(scores[1..], acc + scores[0].value);
      ReduceShift(scores[1..], scores[0].value);
    }
  }

  /** The fold is the sum of the values: it adds up over concatenation. */
  lemma {:induction false} ReduceConcat(a: seq<RoundScore>, b: seq<RoundScore>)
    ensures Reduce(a + b, 0) == Reduce(a, 0) + Reduce(b, 0)
  {
    if a == [] {
      assert a + b == b;
    } else {
      assert (a + b)[1..] == a[1..] + b;
      ReduceConcat(a[1..], b);
      ReduceShift(a[1..] + b, a[0].value);
      ReduceShift(a[1..], a[0].value);
    }
  }

  /** Appending an entry raises the total by exactly its value. */
  lemma TotalAppend(p: Player, e: RoundScore)
    ensures TotalScore(p.(scores := p.scores + [e])) == TotalScore(p) + e.value
  {
    ReduceConcat(p.scores, [e]);
  }

  /** `scores.filter(s => s.id !== scoreId)`. */
  function RemoveScore(scores: seq<RoundScore>, scoreId: Id): (r: seq<RoundScore>)
    ensures |r| <= |scores|
  {
    if scores == [] then []
    else (if scores[0].id != scoreId then [scores[0]] else []) + RemoveScore(scores[1..], scoreId)
  }

  /** Deleting keeps exactly the entries with another id. */
  lemma {:induction false} RemoveScoreMembers(scores: seq<RoundScore>, scoreId: Id)
    ensures forall e :: e in RemoveScore(scores, scoreId) <==> e in scores && e.id != scoreId
  {
    if scores != [] {
      assert scores == [scores[0]] + scores[1..];
      RemoveScoreMembers(scores[1..], scoreId);
    }
  }

  lemma {:induction false} RemoveScoreConcat(a: seq<RoundScore>, b: seq<RoundScore>, scoreId: Id)
    ensures RemoveScore(a + b, scoreId) == RemoveScore(a, scoreId) + RemoveScore(b, scoreId)
  {
    if a == [] {
      assert a + b == b;
    } else {
      assert (a + b)[1..] == a[1..] + b;
      RemoveScoreConcat(a[1..], b, scoreId);
    }
  }

  lemma {:induction false} RemoveAbsentScore(scores: seq<RoundScore>, scoreId: Id)
    requires forall e :: e in scores ==> e.id != scoreId
    ensures RemoveScore(scores, scoreId) == scores
  {
    if scores != [] {
      RemoveAbsentScore(scores[1..], scoreId);
      assert scores == [scores[0]] + scores[1..];
    }
  }

  /**
   * Deleting an entry whose id occurs once removes exactly that entry and
   * keeps the order of the rest.
   */
  lemma {:induction false} DeleteUniqueScore(scores: seq<RoundScore>, i: int)
    requires 0 <= i < |scores|
    requires forall j :: 0 <= j < |scores| && j != i ==> scores[j].id != scores[i].id
    ensures RemoveScore(scores, scores[i].id) == scores[..i] + scores[i + 1..]
  {
    var id := scores[i].id;
    if i == 0 {
      IdsOutside(scores, 0);
      RemoveAbsentScore(scores[1..], id);
      assert RemoveScore(scores, id) == [] + scores[1..];
    } else {
      var tail := scores[1..];
      assert tail[i - 1] == scores[i];
      forall j | 0 <= j < |tail| && j != i - 1 ensures tail[j].id != tail[i - 1].id {
        assert tail[j] == scores[j + 1];
      }
      DeleteUniqueScore(tail, i - 1);
      assert RemoveScore(scores, id) == [scores[0]] + (tail[..i - 1] + tail[i..]);
      assert scores[..i] == [scores[0]] + tail[..i - 1];
      assert scores[i + 1..] == tail[i..];
    }
  }

  /** Deleting an entry whose id occurs once lowers the total by exactly its value. */
  lemma DeleteUniqueScoreTotal(scores: seq<RoundScore>, i: int)
    requires 0 <= i < |scores|
    requires forall j :: 0 <= j < |scores| && j != i ==> scores[j].id != scores[i].id
    ensures Reduce(RemoveScore(scores, scores[i].id), 0) == Reduce(scores, 0) - scores[i].value
  {
    DeleteUniqueScore(scores, i);
    ReduceWithout(scores, i);
  }

  /** Taking the entry at index i out of a list lowers the sum by its value. */
  lemma ReduceWithout(scores: seq<RoundScore>, i: int)
    requires 0 <= i < |scores|
    ensures Reduce(scores[..i] + scores[i + 1..], 0) == Reduce(scores, 0) - scores[i].value
  {
    var before, x, after := scores[..i], scores[i], scores[i + 1..];
    assert scores == (before + [x]) + after;
    ReduceConcat(before + [x], after);
    ReduceConcat(before, [x]);
    assert Reduce([x], 0) == Reduce([], x.value);
    ReduceConcat(before, after);
  }

  lemma IdsOutside(scores: seq<RoundScore>, i: int)
    requires 0 <= i < |scores|
    requires forall j :: 0 <= j < |scores| && j != i ==> scores[j].id != scores[i].id
    ensures forall e :: e in scores[..i] ==> e.id != scores[i].id
    ensures forall e :: e in scores[i + 1..] ==> e.id != scores[i].id
  {
    forall e | e in scores[..i] ensures e.id != scores[i].id {
      var k :| 0 <= k < i && scores[..i][k] == e;
    }
    forall e | e in scores[i + 1..] ensures e.id != scores[i].id {
      var k :| 0 <= k < |scores| - i - 1 && scores[i + 1..][k] == e;
      assert scores[i + 1 + k] == e;
    }
  }

  /** Appending an entry with a fresh id and then deleting it restores the entries and the total. */
  lemma AppendThenDelete(scores: seq<RoundScore>, e: RoundScore)
    requires forall x :: x in scores ==> x.id != e.id
    ensures RemoveScore(scores + [e], e.id) == scores
    ensures Reduce(RemoveScore(scores + [e], e.id), 0) == Reduce(scores, 0)
  {
    RemoveScoreConcat(scores, [e], e.id);
    RemoveAbsentScore(scores, e.id);
    assert RemoveScore([e], e.id) == [];
    assert scores + [] == scores;
  }

  // ---------------------------------------------------------------------
  // The roster

  function IdOf(p: Player): Id { p.id }

  // ---------------------------------------------------------------------
  // Standings

  /** `[...players].sort((a, b) => total(a) - total(b))`. */
  function SortedPlayers(players: seq<Player>): (r: seq<Player>)
    ensures |r| == |players| && multiset(r) == multiset(players)
  {
    SortBy(players, TotalScore)
  }

  /** `findIndex` of the id in the standings, plus one; 0 when the id is absent. */
  function PlayerRank(players: seq<Player>, id: Id): (r: int)
    ensures 0 <= r <= |players|
    ensures r > 0 ==> SortedPlayers(players)[r - 1].id == id
  {
    FindIndex(SortedPlayers(players), (p: Player) => p.id == id) + 1
  }

  /**
   * The standings are a permutation of the roster in ascending order of
   * total, and players with equal totals keep their roster order.
   */
  lemma StandingsOrder(players: seq<Player>)
    ensures multiset(SortedPlayers(players)) == multiset(players)
    ensures forall i, j :: 0 <= i < j < |players| ==>
              TotalScore(SortedPlayers(players)[i]) <= TotalScore(SortedPlayers(players)[j])
    ensures forall k :: WithKey(SortedPlayers(players), TotalScore, k) == WithKey(players, TotalScore, k)
  {
    SortAscending(players, TotalScore);
    forall k ensures WithKey(SortedPlayers(players), TotalScore, k) == WithKey(players, TotalScore, k) {
      SortStable(players, TotalScore, k);
    }
  }

  /** A present player's rank lies in 1..n and points at that player; an absent id ranks 0. */
  lemma RankBounds(players: seq<Player>, id: Id)
    ensures HasId(players, id, IdOf) ==>
              1 <= PlayerRank(players, id) <= |players|
              && SortedPlayers(players)[PlayerRank(players, id) - 1].id == id
    ensures !HasId(players, id, IdOf) ==> PlayerRank(players, id) == 0
  {
    var sorted := SortedPlayers(players);
    if HasId(players, id, IdOf) {
      var i :| 0 <= i < |players| && players[i].id == id;
      FindIndexInSorted(players, TotalScore, (p: Player) => p.id == id, i);
    } else {
      forall j | 0 <= j < |sorted| ensures sorted[j].id != id {
        assert sorted[j] in multiset(players);
      }
    }
  }

  /** `getWinner`: nothing until the game has ended with players, then the head of the standings. */
  function GetWinner(gameEnded: bool, players: seq<Player>): (w: Option<Player>)
    ensures w.Some? <==> gameEnded && players != []
  {
    if !gameEnded || |players| == 0 then None else Some(SortedPlayers(players)[0])
  }

  /**
   * The winner has the lowest total, and among players sharing that
   * total it is the first in roster order.
   */
  lemma WinnerHasLowestTotal(gameEnded: bool, players: seq<Player>)
    requires GetWinner(gameEnded, players).Some?
    ensures GetWinner(gameEnded, players).value in players
    ensures forall p :: p in players ==> TotalScore(GetWinner(gameEnded, players).value) <= TotalScore(p)
    ensures exists i :: 0 <= i < |players| && players[i] == GetWinner(gameEnded, players).value
                        && forall j :: 0 <= j < i ==> TotalScore(players[j]) > TotalScore(players[i])
  {
    SortHead(players, TotalScore);
  }

  // ---------------------------------------------------------------------
  // End of game

  /** `players.some(p => total(p) >= limit)`. */
  function AnyReached(players: seq<Player>, limit: int): (r: bool)
    ensures r <==> exists i :: 0 <= i < |players| && TotalScore(players[i]) >= limit
  {
    if players == [] then false
    else if TotalScore(players[0]) >= limit then true
    else
      assert forall i :: 1 <= i < |players| ==> players[i] == players[1..][i - 1];
      AnyReached(players[1..], limit)
  }

  /** `checkGameEnd`: whether the game is over once `newRound` has been reached. */
  function CheckGameEnd(settings: Settings, updatedPlayers: seq<Player>, newRound: int): (ended: bool)
    ensures settings.endCondition == Rounds ==> (ended <==> newRound > settings.maxRounds)
    ensures settings.endCondition == Points ==>
              (ended <==> exists p :: p in updatedPlayers && TotalScore(p) >= settings.maxPoints)
    ensures settings.endCondition == NoEnd ==> !ended
  {
    if settings.endCondition == Rounds && newRound > settings.maxRounds then true
    else if settings.endCondition == Points && AnyReached(updatedPlayers, settings.maxPoints) then true
    else false
  }

  // ---------------------------------------------------------------------
  // Settings

  predicate SettingsInRange(s: Settings)
  {
    1 <= s.maxRounds <= 99 && 100 <= s.maxPoints <= 9999
  }

  /** `Math.max(lo, Math.min(hi, parseInt(input) || fallback))`. */
  function ClampedNumber(input: string, fallback: int, lo: int, hi: int): (r: int)
    requires 0 < lo <= fallback <= hi
    ensures lo <= r <= hi
    ensures ParseInt(input) == None || ParseInt(input) == Some(0) ==> r == fallback
    ensures ParseInt(input).Some? && lo <= ParseInt(input).value <= hi ==> r == ParseInt(input).value
    ensures ParseInt(input).Some? && ParseInt(input).value > hi ==> r == hi
    ensures ParseInt(input).Some? && ParseInt(input).value != 0 && ParseInt(input).value < lo ==> r == lo
  {
    var v := OrFallback(ParseInt(input), fallback);
    if v > hi then hi else if v < lo then lo else v
  }

  /** The rounds field: within 1..99, and 10 for text that is not a number or is 0. */
  function MaxRoundsFrom(input: string): (r: int)
    ensures 1 <= r <= 99
    ensures ParseInt(input) == None || ParseInt(input) == Some(0) ==> r == 10
    ensures ParseInt(input).Some? && 1 <= ParseInt(input).value <= 99 ==> r == ParseInt(input).value
  {
    ClampedNumber(input, 10, 1, 99)
  }

  /** The points field: within 100..9999, and 500 for text that is not a number or is 0. */
  function MaxPointsFrom(input: string): (r: int)
    ensures 100 <= r <= 9999
    ensures ParseInt(input) == None || ParseInt(input) == Some(0) ==> r == 500
    ensures ParseInt(input).Some? && 100 <= ParseInt(input).value <= 9999 ==> r == ParseInt(input).value
  {
    ClampedNumber(input, 500, 100, 9999)
  }

  // ---------------------------------------------------------------------
  // The round-score keypad

  /**
   * The data of the round-score modal: the text typed per player, the
   * round winner, and the player whose field has focus.
   */
  datatype RoundInput = RoundInput(scores: map<Id, string>, winnerId: Option<Id>, active: Option<Id>)

  const ClosedInput := RoundInput(map[], None, None)

  /** `roundScores[id] || ''`: a missing field reads as empty. */
  function Entered(inp: RoundInput, id: Id): string
  {
    if id in inp.scores then inp.scores[id] else ""
  }

  /**
   * What the keypad guarantees: every field holds at most four decimal
   * digits, and the round winner's field reads "0".
   */
  ghost predicate ValidInput(inp: RoundInput)
  {
    && (forall id :: id in inp.scores ==> IsDigitString(inp.scores[id]) && |inp.scores[id]| <= MaxEntryLength)
    && (inp.winnerId.Some? ==> Entered(inp, inp.winnerId.value) == "0")
  }

  /**
   * The keypad does nothing with no field in focus (a missing or empty
   * id is falsy), or when the focus is on the winner's field.
   */
  predicate Blocked(inp: RoundInput)
  {
    inp.active.None? || inp.active.value == "" || inp.winnerId == inp.active
  }

  /** `openRoundScoreModal`: an empty field per player, no winner, focus on the first player (`players[0]?.id || null`). */
  function OpenInput(players: seq<Player>): (inp: RoundInput)
    ensures ValidInput(inp)
    ensures forall id :: Entered(inp, id) == ""
    ensures inp.winnerId == None
    ensures players != [] && players[0].id != "" ==> inp.active == Some(players[0].id)
    ensures players == [] || players[0].id == "" ==> Blocked(inp)
  {
    RoundInput(map p | p in players :: p.id := "", None,
               if players == [] || players[0].id == "" then None else Some(players[0].id))
  }

  /**
   * `setRoundWinner`: crowning a player sets their field to "0"; crowning
   * the current winner again removes the crown and keeps the field.
   */
  function SetRoundWinner(inp: RoundInput, playerId: Id): (r: RoundInput)
    ensures r.active == inp.active
    ensures ValidInput(inp) ==> ValidInput(r)
    ensures inp.winnerId == Some(playerId) ==> r.winnerId == None && r.scores == inp.scores
    ensures inp.winnerId != Some(playerId) ==> r.winnerId == Some(playerId) && Entered(r, playerId) == "0"
    ensures forall id :: id != playerId ==> Entered(r, id) == Entered(inp, id)
  {
    if inp.winnerId == Some(playerId) then inp.(winnerId := None)
    else inp.(winnerId := Some(playerId), scores := inp.scores[playerId := "0"])
  }

  /** Crowning the same player twice leaves no winner, with that player's field at "0". */
  lemma ToggleWinnerTwice(inp: RoundInput, playerId: Id)
    requires inp.winnerId != Some(playerId)
    ensures SetRoundWinner(SetRoundWinner(inp, playerId), playerId).winnerId == None
    ensures Entered(SetRoundWinner(SetRoundWinner(inp, playerId), playerId), playerId) == "0"
  {
  }

  /**
   * `updateRoundScore`: stores any text in a player's field, except the
   * winner's. The component defines it but never calls it.
   */
  function UpdateRoundScore(inp: RoundInput, playerId: Id, value: string): (r: RoundInput)
    ensures r.winnerId == inp.winnerId && r.active == inp.active
    ensures inp.winnerId == Some(playerId) ==> r == inp
    ensures inp.winnerId != Some(playerId) ==> Entered(r, playerId) == value
    ensures forall id :: id != playerId ==> Entered(r, id) == Entered(inp, id)
  {
    if inp.winnerId == Some(playerId) then inp
    else inp.(scores := inp.scores[playerId := value])
  }

  /** Gives the field in focus a new text; the caller has checked that the keypad is not blocked. */
  function WithActive(inp: RoundInput, text: string): RoundInput
    requires inp.active.Some?
  {
    inp.(scores := inp.scores[inp.active.value := text])
  }

  /**
   * `appendDigit`: an empty or "0" field is replaced by the digit,
   * otherwise the digit is appended, unless that would exceed four
   * characters. Read as a number, the field becomes ten times itself plus
   * the digit whenever it had fewer than four characters.
   */
  function AppendDigit(inp: RoundInput, digit: char): (r: RoundInput)
    requires IsDigit(digit)
    ensures Blocked(inp) ==> r == inp
    ensures r.winnerId == inp.winnerId && r.active == inp.active
    ensures forall id :: Some(id) != inp.active ==> Entered(r, id) == Entered(inp, id)
    ensures ValidInput(inp) ==> ValidInput(r)
    ensures ValidInput(inp) && !Blocked(inp) ==>
              var before := Entered(inp, inp.active.value);
              var after := Entered(r, inp.active.value);
              |after| <= MaxEntryLength
              && (before == "" || before == "0" ==> after == [digit])
              && (before != "" && before != "0" && |before| < MaxEntryLength ==> after == before + [digit])
              && (|before| < MaxEntryLength ==> DigitsValue(after) == DigitsValue(before) * 10 + DigitValue(digit))
              && (|before| == MaxEntryLength ==> after == before)
  {
    if Blocked(inp) then inp
    else
      var current := Entered(inp, inp.active.value);
      var newValue := if current == "0" || current == "" then [digit] else current + [digit];
      if |newValue| > MaxEntryLength then inp
      else
        assert current != "" && current != "0" ==> newValue[..|newValue| - 1] == current;
        WithActive(inp, newValue)
  }

  /** `clearActiveScore`: empties the field in focus. */
  function ClearActiveScore(inp: RoundInput): (r: RoundInput)
    ensures Blocked(inp) ==> r == inp
    ensures r.winnerId == inp.winnerId && r.active == inp.active
    ensures forall id :: Some(id) != inp.active ==> Entered(r, id) == Entered(inp, id)
    ensures !Blocked(inp) ==> Entered(r, inp.active.value) == ""
    ensures ValidInput(inp) ==> ValidInput(r)
  {
    if Blocked(inp) then inp else WithActive(inp, "")
  }

  /**
   * `backspace`: drops the last character of the field in focus (an empty
   * field stays empty); read as a number, the field is divided by ten.
   */
  function Backspace(inp: RoundInput): (r: RoundInput)
    ensures Blocked(inp) ==> r == inp
    ensures r.winnerId == inp.winnerId && r.active == inp.active
    ensures forall id :: Some(id) != inp.active ==> Entered(r, id) == Entered(inp, id)
    ensures ValidInput(inp) ==> ValidInput(r)
    ensures ValidInput(inp) && !Blocked(inp) ==>
              var before := Entered(inp, inp.active.value);
              var after := Entered(r, inp.active.value);
              |after| == (if before == "" then 0 else |before| - 1)
              && DigitsValue(after) == DigitsValue(before) / 10
  {
    if Blocked(inp) then inp
    else
      var current := Entered(inp, inp.active.value);
      WithActive(inp, if current == "" then "" else current[..|current| - 1])
  }

  /** A quick score is spelled in at most three digits, which `parseInt` reads back. */
  lemma QuickScoreText(value: nat)
    requires value in QuickScores
    ensures IsDigitString(NatToString(value)) && 1 <= |NatToString(value)| <= 3
    ensures ParseInt(NatToString(value)) == Some(value)
  {
    assert value < Pow10(3);
    NatToStringLength(value, 3);
    ParseIntOfNatToString(value);
  }

  /** Writing a short digit string into a field that is not the winner's keeps the input valid. */
  lemma WithActiveValid(inp: RoundInput, text: string)
    requires !Blocked(inp)
    requires IsDigitString(text) && |text| <= MaxEntryLength
    ensures ValidInput(inp) ==> ValidInput(WithActive(inp, text))
  {
    var r := WithActive(inp, text);
    assert inp.winnerId.Some? ==> Entered(r, inp.winnerId.value) == Entered(inp, inp.winnerId.value);
  }

  /** `setQuickScore`: the field in focus becomes the spelled-out quick score. */
  function SetQuickScore(inp: RoundInput, value: nat): (r: RoundInput)
    requires value in QuickScores
    ensures Blocked(inp) ==> r == inp
    ensures r.winnerId == inp.winnerId && r.active == inp.active
    ensures forall id :: Some(id) != inp.active ==> Entered(r, id) == Entered(inp, id)
    ensures !Blocked(inp) ==> Entered(r, inp.active.value) == NatToString(value)
    ensures !Blocked(inp) ==> ParseInt(Entered(r, inp.active.value)) == Some(value)
    ensures !Blocked(inp) ==> |Entered(r, inp.active.value)| <= 3
    ensures ValidInput(inp) ==> ValidInput(r)
  {
    if Blocked(inp) then inp
    else
      var text := NatToString(value);
      QuickScoreText(value);
      WithActiveValid(inp, text);
      WithActive(inp, text)
  }

  // ---------------------------------------------------------------------
  // Committing a round

  /** The `every` check of `confirmRoundScores`: each non-winner has typed something. */
  predicate AllFilled(players: seq<Player>, inp: RoundInput): (r: bool)
    ensures !r <==> exists i :: 0 <= i < |players| && inp.winnerId != Some(players[i].id) && Entered(inp, players[i].id) == ""
    ensures r && ValidInput(inp) ==>
              forall i :: 0 <= i < |players| && inp.winnerId != Some(players[i].id) ==>
                ParseInt(Entered(inp, players[i].id)) == Some(DigitsValue(Entered(inp, players[i].id)))
  {
    FilledFieldsParse(players, inp);
    forall i :: 0 <= i < |players| ==> inp.winnerId == Some(players[i].id) || Entered(inp, players[i].id) != ""
  }

  /** A typed field is a non-empty digit string, so `parseInt` reads it exactly and never gives NaN. */
  lemma FilledFieldsParse(players: seq<Player>, inp: RoundInput)
    ensures ValidInput(inp) ==>
              forall i :: 0 <= i < |players| && Entered(inp, players[i].id) != "" ==>
                ParseInt(Entered(inp, players[i].id)) == Some(DigitsValue(Entered(inp, players[i].id)))
  {
    if ValidInput(inp) {
      forall i | 0 <= i < |players| && Entered(inp, players[i].id) != ""
        ensures ParseInt(Entered(inp, players[i].id)) == Some(DigitsValue(Entered(inp, players[i].id)))
      {
        ParseIntOfDigits(Entered(inp, players[i].id));
      }
    }
  }

  /**
   * The entry a player receives when the round is committed: the winner
   * gets 0 and the crown, everyone else `parseInt` of their field.
   */
  function RoundEntry(inp: RoundInput, playerId: Id, round: int, scoreId: Id): (e: RoundScore)
    requires ValidInput(inp)
    ensures e.id == scoreId && e.round == round
    ensures e.isWinner <==> inp.winnerId == Some(playerId)
    ensures e.isWinner ==> e.value == 0
    ensures !e.isWinner ==> e.value == DigitsValue(Entered(inp, playerId))
    ensures 0 <= e.value < 10000
  {
    var isWinner := inp.winnerId == Some(playerId);
    var text := if Entered(inp, playerId) == "" then "0" else Entered(inp, playerId);
    ParseIntOfDigits(text);
    DigitsBelow(text, MaxEntryLength);
    RoundScore(scoreId, round, if isWinner then 0 else ParseInt(text).value, isWinner)
  }

  /** A committed round raises each total by the player's entry: 0 for the winner, the typed number otherwise. */
  lemma RoundTotals(p: Player, inp: RoundInput, round: int, scoreId: Id)
    requires ValidInput(inp)
    ensures TotalScore(p.(scores := p.scores + [RoundEntry(inp, p.id, round, scoreId)]))
            == TotalScore(p) + (if inp.winnerId == Some(p.id) then 0 else DigitsValue(Entered(inp, p.id)))
  {
    TotalAppend(p, RoundEntry(inp, p.id, round, scoreId));
  }

  /**
   * A player's entries: one per committed round, rounds strictly
   * increasing and all before the current one, and a winner's entry is 0.
   */
  ghost predicate WellFormedScores(scores: seq<RoundScore>, currentRound: int)
  {
    && (forall i :: 0 <= i < |scores| ==>
          1 <= scores[i].round < currentRound && (scores[i].isWinner ==> scores[i].value == 0))
    && (forall i, j :: 0 <= i < j < |scores| ==> scores[i].round < scores[j].round)
  }

  /** The entries after the first of a well-formed list are well-formed. */
  lemma TailWellFormed(scores: seq<RoundScore>, currentRound: int)
    requires scores != [] && WellFormedScores(scores, currentRound)
    ensures WellFormedScores(scores[1..], currentRound)
  {
    var tail := scores[1..];
    forall i | 0 <= i < |tail| ensures 1 <= tail[i].round < currentRound && (tail[i].isWinner ==> tail[i].value == 0) {
      assert tail[i] == scores[i + 1];
    }
    forall i, j | 0 <= i < j < |tail| ensures tail[i].round < tail[j].round {
      assert tail[i] == scores[i + 1] && tail[j] == scores[j + 1];
    }
  }

  /** An entry whose round comes before every other keeps a well-formed list well-formed when put in front. */
  lemma ConsWellFormed(e: RoundScore, rest: seq<RoundScore>, currentRound: int)
    requires WellFormedScores(rest, currentRound)
    requires 1 <= e.round < currentRound && (e.isWinner ==> e.value == 0)
    requires forall x :: x in rest ==> e.round < x.round
    ensures WellFormedScores([e] + rest, currentRound)
  {
    var t := [e] + rest;
    forall i | 0 <= i < |t| ensures 1 <= t[i].round < currentRound && (t[i].isWinner ==> t[i].value == 0) {
      if i > 0 { assert t[i] == rest[i - 1]; }
    }
    forall i, j | 0 <= i < j < |t| ensures t[i].round < t[j].round {
      assert t[j] == rest[j - 1];
      if i > 0 { assert t[i] == rest[i - 1]; }
    }
  }

  lemma {:induction false} RemoveScoreWellFormed(scores: seq<RoundScore>, scoreId: Id, currentRound: int)
    requires WellFormedScores(scores, currentRound)
    ensures WellFormedScores(RemoveScore(scores, scoreId), currentRound)
  {
    if scores != [] {
      var tail := scores[1..];
      TailWellFormed(scores, currentRound);
      RemoveScoreWellFormed(tail, scoreId, currentRound);
      var rest := RemoveScore(tail, scoreId);
      if scores[0].id != scoreId {
        RemoveScoreMembers(tail, scoreId);
        forall x | x in rest ensures scores[0].round < x.round {
          var k :| 0 <= k < |tail| && tail[k] == x;
          assert scores[k + 1] == x;
        }
        ConsWellFormed(scores[0], rest, currentRound);
      } else {
        assert RemoveScore(scores, scoreId) == [] + rest;
      }
    }
  }

  /** Every player's list gains the entry `RoundEntry` gives them, in roster order. */
  function CommitRound(ps: seq<Player>, inp: RoundInput, round: int, scoreIds: seq<Id>): (r: seq<Player>)
    requires ValidInput(inp) && |scoreIds| == |ps|
    ensures |r| == |ps|
    ensures forall i :: 0 <= i < |r| ==> r[i].id == ps[i].id && r[i].name == ps[i].name && r[i].color == ps[i].color
    ensures forall i :: 0 <= i < |r| ==>
              r[i].scores == ps[i].scores + [RoundEntry(inp, ps[i].id, round, scoreIds[i])]
  {
    seq(|ps|, i requires 0 <= i < |ps| =>
      ps[i].(scores := ps[i].scores + [RoundEntry(inp, ps[i].id, round, scoreIds[i])]))
  }

  /** Appending an entry for the current round keeps a list well-formed for the next round. */
  lemma AppendRoundWellFormed(scores: seq<RoundScore>, e: RoundScore, currentRound: int)
    requires WellFormedScores(scores, currentRound)
    requires e.round == currentRound && currentRound >= 1 && (e.isWinner ==> e.value == 0)
    ensures WellFormedScores(scores + [e], currentRound + 1)
  {
    var t := scores + [e];
    forall i, j | 0 <= i < j < |t| ensures t[i].round < t[j].round {
      if j == |scores| { assert t[i] == scores[i]; }
    }
  }

  /** Committing a round keeps ids distinct and every list well-formed for the next round. */
  lemma CommitRoundValid(ps: seq<Player>, inp: RoundInput, round: int, scoreIds: seq<Id>)
    requires ValidInput(inp) && |scoreIds| == |ps| && round >= 1
    requires DistinctIds(ps, IdOf)
    requires forall i :: 0 <= i < |ps| ==> WellFormedScores(ps[i].scores, round)
    ensures DistinctIds(CommitRound(ps, inp, round, scoreIds), IdOf)
    ensures forall i :: 0 <= i < |ps| ==> WellFormedScores(CommitRound(ps, inp, round, scoreIds)[i].scores, round + 1)
  {
    var r := CommitRound(ps, inp, round, scoreIds);
    forall a, b | 0 <= a < b < |r| ensures IdOf(r[a]) != IdOf(r[b]) {
      assert IdOf(ps[a]) != IdOf(ps[b]);
    }
    forall i | 0 <= i < |ps| ensures WellFormedScores(r[i].scores, round + 1) {
      AppendRoundWellFormed(ps[i].scores, RoundEntry(inp, ps[i].id, round, scoreIds[i]), round);
    }
  }

  // ---------------------------------------------------------------------
  // The game session

  class Game {
    var players: seq<Player>
    var currentRound: int
    var settings: Settings
    var gameEnded: bool
    /** The round-score modal's fields, winner and focus. */
    var input: RoundInput

    ghost predicate Valid()
      reads this
    {
      && DistinctIds(players, IdOf)
      && currentRound >= 1
      && SettingsInRange(settings)
      && ValidInput(input)
      && forall i :: 0 <= i < |players| ==> WellFormedScores(players[i].scores, currentRound)
    }

    /** The initial state: no players, round 1, no end condition (10 rounds, 500 points). */
    constructor ()
      ensures Valid()
      ensures players == [] && currentRound == 1 && settings == DefaultSettings && !gameEnded
      ensures input == ClosedInput
    {
      players := [];
      currentRound := 1;
      settings := DefaultSettings;
      gameEnded := false;
      input := ClosedInput;
    }

    /** `addPlayer`: a new player with no entries, named and coloured by roster size. */
    method AddPlayer(newId: Id)
      requires Valid() && newId != "" && !HasId(players, newId, IdOf)
      modifies this
      ensures Valid()
      ensures players == old(players) + [Player(newId, DefaultName(|old(players)| + 1), [], ColorFor(|old(players)|))]
      ensures currentRound == old(currentRound) && settings == old(settings)
      ensures gameEnded == old(gameEnded) && input == old(input)
    {
      var p := Player(newId, DefaultName(|players| + 1), [], ColorFor(|players|));
      var ps := players + [p];
      AppendDistinct(players, p, IdOf);
      forall i | 0 <= i < |ps| ensures WellFormedScores(ps[i].scores, currentRound) {
        if i < |players| {
          assert ps[i] == players[i];
        }
      }
      players := ps;
    }

    /**
     * `deletePlayer` once confirmed: drops the players with that id,
     * nothing else; with no player pending (a falsy id) it does nothing.
     */
    method DeletePlayer(id: Id)
      requires Valid()
      modifies this
      ensures Valid()
      ensures players == if id == "" then old(players) else RemoveId(old(players), id, IdOf)
      ensures currentRound == old(currentRound) && settings == old(settings)
      ensures gameEnded == old(gameEnded) && input == old(input)
    {
      if id != "" {
        RemoveIdDistinct(players, id, IdOf);
        RemoveIdMembers(players, id, IdOf);
        players := RemoveId(players, id, IdOf);
      }
    }

    /** `updatePlayerName`: renames the player with that id; the empty name becomes "Speler". */
    method UpdatePlayerName(id: Id, name: string)
      requires Valid()
      modifies this
      ensures Valid()
      ensures |players| == |old(players)|
      ensures forall i :: 0 <= i < |players| ==>
                players[i] == if old(players[i]).id == id then old(players[i]).(name := NameOrPlaceholder(name))
                              else old(players[i])
      ensures currentRound == old(currentRound) && settings == old(settings)
      ensures gameEnded == old(gameEnded) && input == old(input)
    {
      var ps := players;
      players := seq(|ps|, i requires 0 <= i < |ps| =>
        if ps[i].id == id then ps[i].(name := NameOrPlaceholder(name)) else ps[i]);
    }

    /** `deleteRoundScore`: drops the entries with that id from that player only. */
    method DeleteRoundScore(playerId: Id, scoreId: Id)
      requires Valid()
      modifies this
      ensures Valid()
      ensures |players| == |old(players)|
      ensures forall i :: 0 <= i < |players| ==>
                players[i] == if old(players[i]).id == playerId
                              then old(players[i]).(scores := RemoveScore(old(players[i]).scores, scoreId))
                              else old(players[i])
      ensures currentRound == old(currentRound) && settings == old(settings)
      ensures gameEnded == old(gameEnded) && input == old(input)
    {
      var ps := players;
      forall i | 0 <= i < |ps| && ps[i].id == playerId
        ensures WellFormedScores(RemoveScore(ps[i].scores, scoreId), currentRound)
      {
        RemoveScoreWellFormed(ps[i].scores, scoreId, currentRound);
      }
      players := seq(|ps|, i requires 0 <= i < |ps| =>
        if ps[i].id == playerId then ps[i].(scores := RemoveScore(ps[i].scores, scoreId)) else ps[i]);
    }

    /** `openRoundScoreModal`. */
    method OpenRoundScoreModal()
      requires Valid()
      modifies this
      ensures Valid()
      ensures input == OpenInput(players)
      ensures players == old(players) && currentRound == old(currentRound)
      ensures settings == old(settings) && gameEnded == old(gameEnded)
    {
      input := OpenInput(players);
    }

    /** `closeRoundScoreModal`: forgets the typed fields, the winner and the focus. */
    method CloseRoundScoreModal()
      requires Valid()
      modifies this
      ensures Valid()
      ensures input == ClosedInput
      ensures players == old(players) && currentRound == old(currentRound)
      ensures settings == old(settings) && gameEnded == old(gameEnded)
    {
      input := ClosedInput;
    }

    /** Tapping a player's row puts the focus on their field. */
    method FocusInput(playerId: Id)
      requires Valid()
      modifies this
      ensures Valid()
      ensures input == old(input).(active := Some(playerId))
      ensures players == old(players) && currentRound == old(currentRound)
      ensures settings == old(settings) && gameEnded == old(gameEnded)
    {
      input := input.(active := Some(playerId));
    }

    method ToggleRoundWinner(playerId: Id)
      requires Valid()
      modifies this
      ensures Valid()
      ensures input == SetRoundWinner(old(input), playerId)
      ensures players == old(players) && currentRound == old(currentRound)
      ensures settings == old(settings) && gameEnded == old(gameEnded)
    {
      input := SetRoundWinner(input, playerId);
    }

    method PressDigit(digit: char)
      requires Valid() && IsDigit(digit)
      modifies this
      ensures Valid()
      ensures input == AppendDigit(old(input), digit)
      ensures players == old(players) && currentRound == old(currentRound)
      ensures settings == old(settings) && gameEnded == old(gameEnded)
    {
      input := AppendDigit(input, digit);
    }

    method PressClear()
      requires Valid()
      modifies this
      ensures Valid()
      ensures input == ClearActiveScore(old(input))
      ensures players == old(players) && currentRound == old(currentRound)
      ensures settings == old(settings) && gameEnded == old(gameEnded)
    {
      input := ClearActiveScore(input);
    }

    method PressBackspace()
      requires Valid()
      modifies this
      ensures Valid()
      ensures input == Backspace(old(input))
      ensures players == old(players) && currentRound == old(currentRound)
      ensures settings == old(settings) && gameEnded == old(gameEnded)
    {
      input := Backspace(input);
    }

    method PressQuickScore(value: nat)
      requires Valid() && value in QuickScores
      modifies this
      ensures Valid()
      ensures input == SetQuickScore(old(input), value)
      ensures players == old(players) && currentRound == old(currentRound)
      ensures settings == old(settings) && gameEnded == old(gameEnded)
    {
      input := SetQuickScore(input, value);
    }

    /**
     * `confirmRoundScores`: when some non-winner's field is empty nothing
     * changes; otherwise every player gets one entry for the current round
     * at the end of their list, the round moves on by one, the game ends
     * if `checkGameEnd` says so, and the modal is cleared. `scoreIds` are
     * the fresh ids `generateId()` hands out, one per player.
     */
    method ConfirmRoundScores(scoreIds: seq<Id>) returns (committed: bool)
      requires Valid() && |scoreIds| == |players|
      modifies this
      ensures Valid()
      ensures committed == AllFilled(old(players), old(input))
      ensures !committed ==>
                players == old(players) && currentRound == old(currentRound)
                && gameEnded == old(gameEnded) && input == old(input)
      ensures committed ==>
                && |players| == |old(players)|
                && (forall i :: 0 <= i < |players| ==>
                      players[i] == old(players[i]).(scores := old(players[i]).scores
                                      + [RoundEntry(old(input), old(players[i]).id, old(currentRound), scoreIds[i])]))
                && currentRound == old(currentRound) + 1
                && gameEnded == (old(gameEnded) || CheckGameEnd(old(settings), players, currentRound))
                && input == ClosedInput
      ensures settings == old(settings)
    {
      if !AllFilled(players, input) {
        return false;
      }
      var newPlayers := CommitRound(players, input, currentRound, scoreIds);
      CommitRoundValid(players, input, currentRound, scoreIds);
      var newRound := currentRound + 1;
      if CheckGameEnd(settings, newPlayers, newRound) {
        gameEnded := true;
      }
      players := newPlayers;
      currentRound := newRound;
      input := ClosedInput;
      committed := true;
    }

    /** `startNewGame`: same players, ids, names, colours and order; no entries; round 1; not ended. */
    method StartNewGame()
      requires Valid()
      modifies this
      ensures Valid()
      ensures |players| == |old(players)|
      ensures forall i :: 0 <= i < |players| ==> players[i] == old(players[i]).(scores := [])
      ensures currentRound == 1 && !gameEnded
      ensures settings == old(settings) && input == old(input)
    {
      var ps := players;
      players := seq(|ps|, i requires 0 <= i < |ps| => ps[i].(scores := []));
      currentRound := 1;
      gameEnded := false;
    }

    method SetEndCondition(condition: EndCondition)
      requires Valid()
      modifies this
      ensures Valid()
      ensures settings == old(settings).(endCondition := condition)
      ensures players == old(players) && currentRound == old(currentRound)
      ensures gameEnded == old(gameEnded) && input == old(input)
    {
      settings := settings.(endCondition := condition);
    }

    /** The rounds field's `onChange`. */
    method SetMaxRounds(text: string)
      requires Valid()
      modifies this
      ensures Valid()
      ensures settings == old(settings).(maxRounds := MaxRoundsFrom(text))
      ensures players == old(players) && currentRound == old(currentRound)
      ensures gameEnded == old(gameEnded) && input == old(input)
    {
      settings := settings.(maxRounds := MaxRoundsFrom(text));
    }

    /** The points field's `onChange`. */
    method SetMaxPoints(text: string)
      requires Valid()
      modifies this
      ensures Valid()
      ensures settings == old(settings).(maxPoints := MaxPointsFrom(text))
      ensures players == old(players) && currentRound == old(currentRound)
      ensures gameEnded == old(gameEnded) && input == old(input)
    {
      settings := settings.(maxPoints := MaxPointsFrom(text));
    }
  }
}
