# Score keepers for Amerikaans Jokeren and Tienduizend

This project models, in Dafny, the game-session logic of two browser
score keepers:

- **Amerikaans Jokeren** (`src/components/AmerikaansJokerenGame.tsx`). A
  round-based card game in which the lowest total wins. Each committed
  round gives every player one penalty entry, and the round winner's
  entry is 0. A total is not stored: it is a fold over the player's
  entries. The game ends after a number of rounds, when someone's total
  reaches a points limit, or never. Round scores are typed on a keypad:
  one field per player, at most four digits, with a crown for the round
  winner.
- **Tienduizend** (`src/components/TienduizendenGame.tsx`). A dice game:
  the first player to 10,000 wins. Each player stores a running score and
  a history of add, subtract and farkle entries. The turn passes around
  the roster. Scores are typed on a five-digit keypad in add or subtract
  mode.

Layout:

| file | module | contents |
|---|---|---|
| `options.dfy` | `Options` | `Option` |
| `js_numbers.dfy` | `JsNumbers` | decimal digit strings, `Number.prototype.toString`, `parseInt` (leading whitespace, sign, `0x`, longest digit prefix, NaN), `parseInt(..) \|\| fallback` |
| `js_arrays.dfy` | `JsArrays` | the stable `Array.prototype.sort` by a numeric key, `findIndex`, `find` |
| `players.dfy` | `Players` | what both rosters share: ids, the colour palette, `Speler n`, the `name \|\| 'Speler'` placeholder, `filter` by id |
| `jokeren.dfy` | `Jokeren` | Amerikaans Jokeren: pure totals, standings, end-of-game and keypad functions, and a `Game` class for the session state |
| `tienduizend.dfy` | `Tienduizend` | Tienduizend: pure keypad, turn, score and standings functions, and a `Game` class for the session state |

Each component's game-state `useState` fields are the fields of its `Game` class (the open/closed flags of modals, the pending delete and the confetti flag are not).
Each event handler is a method that updates them and keeps `Valid()`:
- distinct player ids;
- keypad text that the keypad can actually produce;
- for Jokeren, well-formed round entries;
- for Tienduizend, an in-range turn index and a stored score consistent with the history.

The pure parts are functions. The methods' `ensures` clauses tie each new state to those functions.

Behaviour of the code worth knowing:
- In Tienduizend the score is a stored field that `confirmScore` updates. It is not derived from the history. A subtract mode exists, and it clamps the score at 0. History entries carry no ids and cannot be deleted.
- Confirming a Tienduizend value of 0 closes the keypad without advancing the turn and without a history entry.
- Tienduizend has no ended flag. The winner is recomputed from the scores on every render. A later subtract can therefore take the win away (`Tienduizend.SubtractCanClearWinner`), and a farkle by another player leaves the winner unchanged (`Tienduizend.FarkleKeepsWinner`).
- The rename placeholder replaces only the empty string. A name made of spaces is kept.
- The Jokeren history panel lists all of a player's entries, newest first; the Tienduizend panel shows only the last 20 history entries (`history.slice(-20)`). Both are rendering and are not modelled.

## Model

| member | source | states |
|---|---|---|
| JsNumbers.NatToString | src/components/TienduizendenGame.tsx:112-114 | `value.toString()` of a non-negative number is a non-empty digit string whose decimal value is the number, with no leading zero unless it is the one character "0", which spells exactly 0 |
| JsNumbers.NatToStringLength | src/components/AmerikaansJokerenGame.tsx:217-226 | a number below 10^k is spelled in at most k characters, so every quick score fits its keypad |
| JsNumbers.DigitsBelow | src/components/AmerikaansJokerenGame.tsx:176-190 | a digit string of at most k characters is worth less than 10^k, so a four-digit field is below 10,000 |
| JsNumbers.LeadingDigitPositive | src/components/TienduizendenGame.tsx:96-102 | a digit string that does not start with 0 has a positive value |
| JsNumbers.ParseInt | src/components/AmerikaansJokerenGame.tsx:263 | `parseInt` of an empty or all-white-space string is NaN, and a negative result comes from a leading minus sign (also src/components/TienduizendenGame.tsx:128) |
| JsNumbers.OrFallback | src/components/AmerikaansJokerenGame.tsx:711 | `parseInt(..) \|\| fallback`: NaN and 0 give the fallback, any other number is kept, so the result is 0 only when the fallback is 0 (also line 728) |
| JsNumbers.ParseIntOfDigits | src/components/AmerikaansJokerenGame.tsx:263 | `parseInt` of a non-empty digit string is exactly its decimal value |
| JsNumbers.ParseIntOfNatToString | src/components/TienduizendenGame.tsx:112-114 | round trip: `parseInt(n.toString()) == n` for every non-negative n |
| JsArrays.Insert | src/components/AmerikaansJokerenGame.tsx:91-93 | one insertion step of the sort adds exactly the new element (multiset) |
| JsArrays.SortBy | src/components/AmerikaansJokerenGame.tsx:91-93 | `[...xs].sort(by key)` is a permutation of xs (same multiset, same length) |
| JsArrays.InsertAscending | src/components/AmerikaansJokerenGame.tsx:91-93 | inserting into an ascending sequence keeps it ascending |
| JsArrays.InsertWithKey | src/components/AmerikaansJokerenGame.tsx:91-93 | inserting places the element after every earlier element with the same key |
| JsArrays.SortAscending | src/components/AmerikaansJokerenGame.tsx:91-93 | the sorted sequence is in ascending key order |
| JsArrays.SortStable | src/components/AmerikaansJokerenGame.tsx:91-93 | the sort is stable: the elements with any given key keep their original order |
| JsArrays.FirstWithKey | src/components/AmerikaansJokerenGame.tsx:91-93 | the first element with a key, found through the key-filtered subsequence, is the earliest index with that key |
| JsArrays.SortHead | src/components/AmerikaansJokerenGame.tsx:308-312 | the head of the sort is an element with the smallest key and the first such element in the input |
| JsArrays.FindIndex | src/components/AmerikaansJokerenGame.tsx:95-98 | `findIndex`: the first index satisfying the predicate, or -1 exactly when none does |
| JsArrays.FindIndexAgrees | src/components/TienduizendenGame.tsx:213 | two sequences that agree pointwise on the predicate give the same `findIndex` |
| JsArrays.Find | src/components/TienduizendenGame.tsx:213 | `find`: undefined exactly when no element satisfies the predicate; otherwise the first one that does |
| JsArrays.FindIndexInSorted | src/components/AmerikaansJokerenGame.tsx:95-98 | an element present in the input is found in its sorted copy |
| Players.ColorFor | src/components/AmerikaansJokerenGame.tsx:100-108 | the colour `PLAYER_COLORS[(n - 1) % 6]` of the n-th player is one of the six palette colours |
| Players.ColorCycle | src/components/AmerikaansJokerenGame.tsx:100-108 | the palette colours repeat every six players in join order (also src/components/TienduizendenGame.tsx:60-69) |
| Players.DefaultName | src/components/AmerikaansJokerenGame.tsx:100-108 | the name `Speler ${n}` of the n-th player is "Speler " followed by the canonical decimal spelling of n: a digit string whose value is n, with no leading zero unless it is the single digit 0 (also src/components/TienduizendenGame.tsx:60-69) |
| Players.NameOrPlaceholder | src/components/AmerikaansJokerenGame.tsx:120-124 | `name \|\| 'Speler'`: the empty name becomes "Speler", a non-empty name is kept as is, so the result is never empty |
| Players.RemoveId | src/components/AmerikaansJokerenGame.tsx:114-118 | `filter(p => p.id !== id)` never grows the roster |
| Players.RemoveIdDistinct | src/components/TienduizendenGame.tsx:71-79 | deleting a player keeps the ids distinct |
| Players.RemoveIdMember | src/components/AmerikaansJokerenGame.tsx:114-118 | an element survives the delete iff it was there and has another id |
| Players.RemoveIdMembers | src/components/AmerikaansJokerenGame.tsx:114-118 | the same, for all elements at once |
| Players.RemoveAbsentId | src/components/TienduizendenGame.tsx:71-79 | deleting an id nobody has leaves the roster unchanged |
| Players.RemoveIdAt | src/components/TienduizendenGame.tsx:71-79 | with distinct ids, deleting the id at index i removes exactly that player, keeps the others in order, and shortens the roster by one |
| Jokeren.TotalScore | src/components/AmerikaansJokerenGame.tsx:87-89 | a total is 0 with no entries and never negative while every entry is non-negative |
| Jokeren.ReduceAtLeast | src/components/AmerikaansJokerenGame.tsx:87-89 | with non-negative entries the `reduce` never drops below its start value |
| Jokeren.ReduceShift | src/components/AmerikaansJokerenGame.tsx:87-89 | the `reduce` with start value acc is acc plus the `reduce` from 0 |
| Jokeren.ReduceConcat | src/components/AmerikaansJokerenGame.tsx:87-89 | a total is the sum of the entries' values: it adds up over concatenation |
| Jokeren.TotalAppend | src/components/AmerikaansJokerenGame.tsx:87-89 | appending an entry raises the total by exactly its value |
| Jokeren.RemoveScore | src/components/AmerikaansJokerenGame.tsx:126-134 | `scores.filter(s => s.id !== scoreId)` never grows the list |
| Jokeren.RemoveScoreMembers | src/components/AmerikaansJokerenGame.tsx:126-134 | an entry survives the delete iff it was there and has another id |
| Jokeren.RemoveScoreConcat | src/components/AmerikaansJokerenGame.tsx:126-134 | the entry filter distributes over concatenation |
| Jokeren.RemoveAbsentScore | src/components/AmerikaansJokerenGame.tsx:126-134 | deleting an entry id that does not occur changes nothing |
| Jokeren.DeleteUniqueScore | src/components/AmerikaansJokerenGame.tsx:126-134 | deleting an entry whose id occurs once removes exactly that entry and keeps the rest in order |
| Jokeren.DeleteUniqueScoreTotal | src/components/AmerikaansJokerenGame.tsx:126-134 | deleting an entry whose id occurs once lowers the total by exactly its value |
| Jokeren.ReduceWithout | src/components/AmerikaansJokerenGame.tsx:87-89 | taking the entry at index i out of a list lowers the sum by its value |
| Jokeren.AppendThenDelete | src/components/AmerikaansJokerenGame.tsx:126-134 | appending an entry with a fresh id and then deleting it restores the entries and the total |
| Jokeren.SortedPlayers | src/components/AmerikaansJokerenGame.tsx:91-93 | the standings hold the same players as the roster (same length, same multiset) |
| Jokeren.PlayerRank | src/components/AmerikaansJokerenGame.tsx:95-98 | a rank is in 0..n, and a positive rank r names the standings position r - 1 holding that id |
| Jokeren.StandingsOrder | src/components/AmerikaansJokerenGame.tsx:91-93 | the standings are a permutation of the roster, ascending by total, with ties in roster order |
| Jokeren.RankBounds | src/components/AmerikaansJokerenGame.tsx:95-98 | a present player's rank is in 1..n and indexes that player in the standings; an absent id ranks 0 |
| Jokeren.GetWinner | src/components/AmerikaansJokerenGame.tsx:308-312 | there is a winner iff the game has ended and the roster is not empty |
| Jokeren.WinnerHasLowestTotal | src/components/AmerikaansJokerenGame.tsx:308-312 | the winner is on the roster, has the lowest total, and is the first in roster order with that total |
| Jokeren.AnyReached | src/components/AmerikaansJokerenGame.tsx:238-240 | `some(p => total(p) >= limit)` holds iff some player's total reaches the limit |
| Jokeren.CheckGameEnd | src/components/AmerikaansJokerenGame.tsx:233-246 | rounds: ended iff newRound > maxRounds; points: ended iff some total reaches maxPoints; none: never ended |
| Jokeren.ClampedNumber | src/components/AmerikaansJokerenGame.tsx:709-712 | the clamped value is within [lo, hi]; NaN or 0 gives the fallback; an in-range number is kept; larger numbers give hi; other numbers below lo give lo |
| Jokeren.MaxRoundsFrom | src/components/AmerikaansJokerenGame.tsx:709-712 | the rounds limit is within 1..99, is 10 for text that is NaN or 0, and is the typed number when that is in range |
| Jokeren.MaxPointsFrom | src/components/AmerikaansJokerenGame.tsx:726-729 | the points limit is within 100..9999, is 500 for text that is NaN or 0, and is the typed number when that is in range |
| Jokeren.OpenInput | src/components/AmerikaansJokerenGame.tsx:136-147 | opening the modal gives empty fields and no winner, puts the focus on the first player, and leaves the keypad inert when that is impossible |
| Jokeren.SetRoundWinner | src/components/AmerikaansJokerenGame.tsx:154-163 | crowning a player sets their field to "0"; crowning the current winner removes the crown and keeps the fields; other fields are untouched; valid input stays valid |
| Jokeren.ToggleWinnerTwice | src/components/AmerikaansJokerenGame.tsx:154-163 | crowning the same player twice leaves no winner, with that player's field at "0" |
| Jokeren.UpdateRoundScore | src/components/AmerikaansJokerenGame.tsx:165-174 | stores the text in a non-winner's field only, and no other field changes |
| Jokeren.AppendDigit | src/components/AmerikaansJokerenGame.tsx:176-190 | blocked keypad: no change. Otherwise an empty or "0" field becomes the digit, any other field under four characters gets the digit appended (worth ten times itself plus the digit), a full field is kept, and other fields are untouched |
| Jokeren.ClearActiveScore | src/components/AmerikaansJokerenGame.tsx:192-201 | empties the focused field unless the keypad is blocked; other fields are untouched |
| Jokeren.Backspace | src/components/AmerikaansJokerenGame.tsx:203-215 | drops one character from the focused field, whose value becomes itself divided by 10; other fields are untouched |
| Jokeren.SetQuickScore | src/components/AmerikaansJokerenGame.tsx:217-226 | unless the keypad is blocked, the focused field becomes `value.toString()`, at most three characters, which reads back through `parseInt` as the chosen quick score; other fields are untouched |
| Jokeren.AllFilled | src/components/AmerikaansJokerenGame.tsx:250-254 | not filled iff some non-winner's field is empty; when filled, `parseInt` reads every non-winner's field exactly (never NaN, never the `'0'` default) |
| Jokeren.FilledFieldsParse | src/components/AmerikaansJokerenGame.tsx:261-263 | every typed keypad field reads back through `parseInt` as its decimal value |
| Jokeren.RoundEntry | src/components/AmerikaansJokerenGame.tsx:261-273 | a player's committed entry has the round and the fresh id; it is 0 with the crown for the round winner; otherwise it is the number typed, below 10,000 |
| Jokeren.RoundTotals | src/components/AmerikaansJokerenGame.tsx:260-275 | a commit raises a total by 0 for the round winner and by the typed number for everyone else |
| Jokeren.TailWellFormed | src/components/AmerikaansJokerenGame.tsx:126-134 | the entries after the first of a well-formed list are well-formed |
| Jokeren.ConsWellFormed | src/components/AmerikaansJokerenGame.tsx:126-134 | an entry whose round precedes all others keeps a well-formed list well-formed when put in front |
| Jokeren.RemoveScoreWellFormed | src/components/AmerikaansJokerenGame.tsx:126-134 | deleting entries keeps rounds increasing, earlier than the current round, and winner entries at 0 |
| Jokeren.CommitRound | src/components/AmerikaansJokerenGame.tsx:261-274 | every player keeps id, name and colour and gains exactly their round entry at the end |
| Jokeren.AppendRoundWellFormed | src/components/AmerikaansJokerenGame.tsx:260-276 | appending the current round's entry keeps a player's entries well-formed for the next round |
| Jokeren.CommitRoundValid | src/components/AmerikaansJokerenGame.tsx:260-276 | a commit keeps ids distinct and every player's entries well-formed for the next round |
| Jokeren.Game.constructor | src/components/AmerikaansJokerenGame.tsx:39-59 | a new session: no players, round 1, no end condition with 10 rounds and 500 points, not ended, modal cleared |
| Jokeren.Game.AddPlayer | src/components/AmerikaansJokerenGame.tsx:100-108 | appends `Speler n` with no entries and the palette colour for its position; nothing else changes |
| Jokeren.Game.DeletePlayer | src/components/AmerikaansJokerenGame.tsx:110-118 | with no player pending (a falsy id) nothing changes; otherwise the roster loses the players with that id and nothing else changes |
| Jokeren.Game.UpdatePlayerName | src/components/AmerikaansJokerenGame.tsx:120-124 | only the player with that id is renamed, to the name or "Speler" |
| Jokeren.Game.DeleteRoundScore | src/components/AmerikaansJokerenGame.tsx:126-134 | only that player loses the entries with that id; every other player is unchanged |
| Jokeren.Game.OpenRoundScoreModal | src/components/AmerikaansJokerenGame.tsx:136-147 | the keypad state becomes the fresh input for the current roster |
| Jokeren.Game.CloseRoundScoreModal | src/components/AmerikaansJokerenGame.tsx:149-152 | fields, winner and focus are forgotten |
| Jokeren.Game.FocusInput | src/components/AmerikaansJokerenGame.tsx:549 | the focus moves to that player's field |
| Jokeren.Game.ToggleRoundWinner | src/components/AmerikaansJokerenGame.tsx:562 | the keypad state becomes the result of `setRoundWinner` |
| Jokeren.Game.PressDigit | src/components/AmerikaansJokerenGame.tsx:591 | the keypad state becomes the result of `appendDigit` |
| Jokeren.Game.PressClear | src/components/AmerikaansJokerenGame.tsx:600 | the keypad state becomes the result of `clearActiveScore` |
| Jokeren.Game.PressBackspace | src/components/AmerikaansJokerenGame.tsx:616 | the keypad state becomes the result of `backspace` |
| Jokeren.Game.PressQuickScore | src/components/AmerikaansJokerenGame.tsx:577 | the keypad state becomes the result of `setQuickScore` |
| Jokeren.Game.ConfirmRoundScores | src/components/AmerikaansJokerenGame.tsx:248-289 | if some non-winner field is empty, nothing changes. Otherwise every player gains exactly one entry for the current round at the end, the round goes up by one, the game ends if `checkGameEnd` says so or had already ended, and the modal is cleared |
| Jokeren.Game.StartNewGame | src/components/AmerikaansJokerenGame.tsx:298-306 | same players in the same order with no entries, round 1, not ended |
| Jokeren.Game.SetEndCondition | src/components/AmerikaansJokerenGame.tsx:672-694 | only the end condition changes |
| Jokeren.Game.SetMaxRounds | src/components/AmerikaansJokerenGame.tsx:709-712 | the rounds limit becomes the clamped value of the text |
| Jokeren.Game.SetMaxPoints | src/components/AmerikaansJokerenGame.tsx:726-729 | the points limit becomes the clamped value of the text |
| Tienduizend.InputIsZero | src/components/TienduizendenGame.tsx:127-132 | a keypad input reads as 0 exactly when it is the lone "0" |
| Tienduizend.InputValue | src/components/TienduizendenGame.tsx:128 | `parseInt` of the keypad input is its decimal value, below 100,000 |
| Tienduizend.InputAppendDigit | src/components/TienduizendenGame.tsx:96-102 | the input stays a valid keypad string; under five characters its value becomes ten times itself plus the digit; at five characters it is unchanged |
| Tienduizend.InputBackspace | src/components/TienduizendenGame.tsx:106-110 | the input stays valid and one character shorter, or "0"; its value is divided by 10 |
| Tienduizend.InputClear | src/components/TienduizendenGame.tsx:104 | the cleared input is valid and reads 0 |
| Tienduizend.InputQuickScore | src/components/TienduizendenGame.tsx:112-114 | the input is valid and reads back through `parseInt` as the chosen quick score |
| Tienduizend.NextIndex | src/components/TienduizendenGame.tsx:116-120 | with no players the index stays; otherwise it moves up by one and wraps from the last player to 0; an in-range index stays in range |
| Tienduizend.AdvanceCompose | src/components/TienduizendenGame.tsx:116-120 | a turns followed by b turns are a + b turns |
| Tienduizend.AdvanceUp | src/components/TienduizendenGame.tsx:116-120 | below the end of the roster, k turns move the index up by k |
| Tienduizend.FullRound | src/components/TienduizendenGame.tsx:116-120 | n consecutive turns return to the starting index |
| Tienduizend.ClampIndex | src/components/TienduizendenGame.tsx:71-79 | after a delete the index is kept unless it is past the end of a non-empty roster, in which case it resets to 0; a non-negative index ends in range |
| Tienduizend.HistorySumAppend | src/components/TienduizendenGame.tsx:134-150 | appending a history entry adds its value to the history sum |
| Tienduizend.ApplyScore | src/components/TienduizendenGame.tsx:134-150 | add raises the score by the value and logs +value; subtract sets the score to max(0, score - value) and logs -value; exactly one entry of the mode's kind is appended; id, name and colour are kept |
| Tienduizend.ApplyScoreConsistent | src/components/TienduizendenGame.tsx:134-150 | a confirm keeps the score non-negative and at least the history sum, and equal to it while nothing was subtracted; an add keeps their gap, a subtract only widens it |
| Tienduizend.ApplyFarkle | src/components/TienduizendenGame.tsx:166-173 | a farkle appends a 0 entry of kind farkle and leaves score, id, name and colour alone |
| Tienduizend.ApplyFarkleConsistent | src/components/TienduizendenGame.tsx:166-173 | a farkle keeps a player consistent and leaves the history sum unchanged |
| Tienduizend.ScoreTarget | src/components/TienduizendenGame.tsx:134-150 | the confirm's `map` gives each player with that id `ApplyScore` of the mode and value, keeps every id, and leaves every player with another id unchanged |
| Tienduizend.FarkleTarget | src/components/TienduizendenGame.tsx:166-170 | the farkle's `map` appends a `{0, farkle}` entry (`ApplyFarkle`) to each player with that id, keeps every id and every score, and leaves every player with another id unchanged |
| Tienduizend.ResetScores | src/components/TienduizendenGame.tsx:203-211 | a new game keeps ids, names and colours, with every score 0 and every history empty |
| Tienduizend.Rename | src/components/TienduizendenGame.tsx:81-85 | only the player with that id is renamed, to the name or "Speler" |
| Tienduizend.ScoreTargetValid | src/components/TienduizendenGame.tsx:134-150 | a confirm keeps ids distinct and every player consistent |
| Tienduizend.FarkleTargetValid | src/components/TienduizendenGame.tsx:166-170 | a farkle keeps ids distinct and every player consistent |
| Tienduizend.RemoveIdValid | src/components/TienduizendenGame.tsx:71-79 | deleting a player keeps ids distinct and every player consistent, and removes at most one player |
| Tienduizend.Winner | src/components/TienduizendenGame.tsx:213 | no winner iff every score is below 10,000; otherwise the first player in roster order at 10,000 or more |
| Tienduizend.AddKeepsWinner | src/components/TienduizendenGame.tsx:134-150 | an add never takes a win away |
| Tienduizend.FarkleKeepsWinner | src/components/TienduizendenGame.tsx:166-173 | a farkle leaves the winner's presence, id and score unchanged |
| Tienduizend.SubtractCanClearWinner | src/components/TienduizendenGame.tsx:213 | when player k is the only one at 10,000 or more, they are the winner, and a subtract of more than their excess over 10,000 leaves the game with no winner |
| Tienduizend.SubtractClearsWinnerExample | src/components/TienduizendenGame.tsx:134-150 | such a roster is reachable: a consistent player whose single add of 10,000 wins loses the win to a subtract of 50 |
| Tienduizend.ReachedTarget | src/components/TienduizendenGame.tsx:153 | the confirm's `find` succeeds iff some player with that id has a score of 10,000 or more |
| Tienduizend.ReachedTargetAt | src/components/TienduizendenGame.tsx:152-158 | with distinct ids the confirm's check is "the target's new score is at least 10,000"; an absent target never reaches it |
| Tienduizend.ConfirmTurn | src/components/TienduizendenGame.tsx:127-164 | an input of "0" or a missing or empty target changes neither roster nor turn; otherwise the roster keeps its length and ids, and every player other than the target is unchanged |
| Tienduizend.ConfirmTurnAt | src/components/TienduizendenGame.tsx:127-164 | for a target on the roster, that player gets the entry for the typed value, and the turn passes on exactly when their new score is below 10,000 |
| Tienduizend.ConfirmTurnAbsent | src/components/TienduizendenGame.tsx:127-164 | for a target not on the roster, no player changes but the turn still passes on |
| Tienduizend.ConfirmTurnValid | src/components/TienduizendenGame.tsx:127-164 | a confirm keeps ids distinct, every player consistent and the turn index in range |
| Tienduizend.SortedPlayers | src/components/TienduizendenGame.tsx:187-189 | the standings hold the same players as the roster (same length, same multiset) |
| Tienduizend.PlayerRank | src/components/TienduizendenGame.tsx:191-194 | a rank is in 0..n, and a positive rank r names the standings position r - 1 holding that id |
| Tienduizend.StandingsOrder | src/components/TienduizendenGame.tsx:187-189 | the standings are a permutation of the roster, descending by score, with ties in roster order |
| Tienduizend.StandingsLeader | src/components/TienduizendenGame.tsx:187-189 | the leader has the highest score and is the first on the roster with it |
| Tienduizend.RankBounds | src/components/TienduizendenGame.tsx:191-194 | a present player's rank is in 1..n and indexes that player in the standings; an absent id ranks 0 |
| Tienduizend.ToggleId | src/components/TienduizendenGame.tsx:175-185 | exactly that id's membership flips |
| Tienduizend.ToggleTwice | src/components/TienduizendenGame.tsx:175-185 | toggling twice restores the set |
| Tienduizend.Game.constructor | src/components/TienduizendenGame.tsx:25-36 | a new session: no players, index 0, input "0", modal closed, no panel open |
| Tienduizend.Game.AddPlayer | src/components/TienduizendenGame.tsx:60-69 | appends `Speler n` with score 0, empty history and the palette colour for its position; nothing else changes |
| Tienduizend.Game.DeletePlayer | src/components/TienduizendenGame.tsx:71-79 | the roster loses the player with that id; the index is re-clamped; nothing else changes |
| Tienduizend.Game.UpdatePlayerName | src/components/TienduizendenGame.tsx:81-85 | only the player with that id is renamed |
| Tienduizend.Game.OpenScoreModal | src/components/TienduizendenGame.tsx:87-90 | the keypad targets that player in that mode, and the input is reset to "0" |
| Tienduizend.Game.CloseScoreModal | src/components/TienduizendenGame.tsx:92-94 | the target is forgotten, the mode goes back to add, and the input is kept |
| Tienduizend.Game.AppendDigit | src/components/TienduizendenGame.tsx:96-102 | the input becomes the result of `appendDigit`; nothing else changes |
| Tienduizend.Game.ClearScore | src/components/TienduizendenGame.tsx:104 | the input becomes "0"; nothing else changes |
| Tienduizend.Game.Backspace | src/components/TienduizendenGame.tsx:106-110 | the input becomes the result of `backspace`; nothing else changes |
| Tienduizend.Game.SetQuickScore | src/components/TienduizendenGame.tsx:112-114 | the input spells the quick score; nothing else changes |
| Tienduizend.Game.NextTurn | src/components/TienduizendenGame.tsx:116-120 | the index advances by one turn; nothing else changes |
| Tienduizend.Game.ConfirmScore | src/components/TienduizendenGame.tsx:127-164 | roster and turn become `ConfirmTurn` of the old session, keeping `Valid()`; the modal is always closed and the input kept |
| Tienduizend.Game.Farkle | src/components/TienduizendenGame.tsx:166-173 | that player gets a farkle entry, no score changes, and the turn always passes on |
| Tienduizend.Game.ToggleHistory | src/components/TienduizendenGame.tsx:175-185 | the set of open history panels flips for that id only |
| Tienduizend.Game.StartNewGame | src/components/TienduizendenGame.tsx:203-211 | same roster with every score 0 and every history empty, and the first player's turn |

## Left out

- Rendering, `motion`/`AnimatePresence` animation, the confetti canvas and its timers, `celebrateWinner`, progress-bar percentages and `toLocaleString`: these are presentation or floating point.
- The open/closed flags of the rules, settings, new-game and delete-confirmation modals, and `confirmNewGame`, which only opens a modal. The two-step Jokeren delete (`confirmDeletePlayer` and then `deletePlayer`) is modelled as one `DeletePlayer(id)`.
- Loading and saving through `localStorage` and `JSON.parse` are browser I/O. The load path's `||` defaults are not modelled.
- `generateId` (clock and randomness): fresh ids are parameters. `AddPlayer` requires the new id to be non-empty and unused, and `ConfirmRoundScores` takes one entry id per player.
- React batching and effect ordering: each handler is one sequential transition. In particular, `nextTurn` and `setGameEnded` called inside a `setPlayers` updater are treated as taking effect in the same step.
- The keypads' digit buttons only send the characters `0`–`9`, and the quick-score buttons only send `QUICK_SCORES` entries. `PressDigit`, `AppendDigit`, `PressQuickScore` and `SetQuickScore` require exactly that.
- Jokeren.UpdateRoundScore is a pure function only: the component defines it but no control calls it, so no `Game` method uses it.
- Tienduizend.ConfirmTurn requires a valid keypad input, which `Valid()` guarantees. The input is then always a digit string, so the NaN path of `parseInt` cannot arise and is not modelled there.
- Numbers are unbounded integers. Every value the keypads can produce stays far below 2^53, so JavaScript's double arithmetic is exact on them.
