/**
 * Conventions both score-keepers share for their rosters: opaque player
 * ids, the six-colour palette assigned by join order, the default name
 * `Speler n`, and the `name || 'Speler'` placeholder for an emptied name.
 */
module Players {
  import opened JsNumbers

  /** The ids produced by `generateId()`; the model treats them as opaque strings. */
  type Id = string

  const PlayerColors: seq<string> := ["#e94560", "#08d9d6", "#f9ed69", "#b537f2", "#06d6a0", "#ff6b6b"]

  /** The colour of the player who joins a roster of `count` players. */
  function ColorFor(count: nat): (c: string)
    ensures c in PlayerColors
  {
    PlayerColors[count % |PlayerColors|]
  }

  /** Colours repeat every six players, in join order. */
  lemma ColorCycle(count: nat)
    ensures ColorFor(count + |PlayerColors|) == ColorFor(count)
  {
    assert (count + |PlayerColors|) % |PlayerColors| == count % |PlayerColors|;
  }

  /** The name of the n-th player added: `Speler ${n}`. */
  function DefaultName(n: nat): (r: string)
    ensures |r| > 7 && r[..7] == "Speler "
    ensures IsDigitString(r[7..]) && DigitsValue(r[7..]) == n
    ensures |r| > 8 ==> r[7] != '0'
  {
    var r := "Speler " + NatToString(n);
    assert r[7..] == NatToString(n);
    assert r[7] == NatToString(n)[0];
    r
  }

  /** `name || 'Speler'`: only the empty string is replaced; blank names are kept. */
  function NameOrPlaceholder(name: string): (r: string)
    ensures r != []
    ensures name != [] ==> r == name
    ensures name == [] ==> r == "Speler"
  {
    if name == "" then "Speler" else name
  }

  predicate DistinctIds<T>(s: seq<T>, idOf: T -> Id)
  {
    forall i, j :: 0 <= i < j < |s| ==> idOf(s[i]) != idOf(s[j])
  }

  predicate HasId<T>(s: seq<T>, id: Id, idOf: T -> Id)
  {
    exists i :: 0 <= i < |s| && idOf(s[i]) == id
  }

  /** `players.filter(p => p.id !== id)`. */
  function RemoveId<T>(s: seq<T>, id: Id, idOf: T -> Id): (r: seq<T>)
    ensures |r| <= |s|
  {
    if s == [] then [] else (if idOf(s[0]) != id then [s[0]] else []) + RemoveId(s[1..], id, idOf)
  }

  /** Appending an element whose id nobody has keeps the ids distinct. */
  lemma AppendDistinct<T>(s: seq<T>, x: T, idOf: T -> Id)
    requires DistinctIds(s, idOf) && !HasId(s, idOf(x), idOf)
    ensures DistinctIds(s + [x], idOf)
  {
    var t := s + [x];
    forall i, j | 0 <= i < j < |t| ensures idOf(t[i]) != idOf(t[j]) {
      assert t[i] == s[i];
      if j < |s| {
        assert t[j] == s[j];
      }
    }
  }

  lemma {:induction false} RemoveIdDistinct<T>(s: seq<T>, id: Id, idOf: T -> Id)
    requires DistinctIds(s, idOf)
    ensures DistinctIds(RemoveId(s, id, idOf), idOf)
  {
    if s != [] {
      var tail := s[1..];
      assert DistinctIds(tail, idOf) by {
        forall a, b | 0 <= a < b < |tail| ensures idOf(tail[a]) != idOf(tail[b]) {
          assert tail[a] == s[a + 1] && tail[b] == s[b + 1];
        }
      }
      RemoveIdDistinct(tail, id, idOf);
      var rest := RemoveId(tail, id, idOf);
      forall x | x in rest ensures idOf(x) != idOf(s[0]) {
        RemoveIdMember(tail, id, idOf, x);
        var k :| 0 <= k < |tail| && tail[k] == x;
        assert s[k + 1] == x;
      }
    }
  }

  lemma {:induction false} RemoveIdMember<T>(s: seq<T>, id: Id, idOf: T -> Id, x: T)
    ensures x in RemoveId(s, id, idOf) <==> x in s && idOf(x) != id
  {
    if s != [] {
      assert s == [s[0]] + s[1..];
      RemoveIdMember(s[1..], id, idOf, x);
    }
  }

  /** Deleting keeps exactly the players with another id. */
  lemma {:induction false} RemoveIdMembers<T>(s: seq<T>, id: Id, idOf: T -> Id)
    ensures forall x :: x in RemoveId(s, id, idOf) <==> x in s && idOf(x) != id
  {
    if s != [] {
      assert s == [s[0]] + s[1..];
      RemoveIdMembers(s[1..], id, idOf);
    }
  }

  /** Deleting an id nobody has changes nothing. */
  lemma {:induction false} RemoveAbsentId<T>(s: seq<T>, id: Id, idOf: T -> Id)
    requires !HasId(s, id, idOf)
    ensures RemoveId(s, id, idOf) == s
  {
    if s != [] {
      forall k | 0 <= k < |s| - 1 ensures idOf(s[1..][k]) != id {
        assert s[1..][k] == s[k + 1];
      }
      RemoveAbsentId(s[1..], id, idOf);
      assert s == [s[0]] + s[1..];
    }
  }

  /**
   * With distinct ids, deleting the id of the player at index i removes
   * exactly that player and keeps everyone else in order.
   */
  lemma {:induction false} RemoveIdAt<T>(s: seq<T>, id: Id, idOf: T -> Id, i: int)
    requires DistinctIds(s, idOf) && 0 <= i < |s| && idOf(s[i]) == id
    ensures RemoveId(s, id, idOf) == s[..i] + s[i + 1..]
    ensures |RemoveId(s, id, idOf)| == |s| - 1
  {
    var tail := s[1..];
    if i == 0 {
      forall k | 0 <= k < |tail| ensures idOf(tail[k]) != id {
        assert tail[k] == s[k + 1];
      }
      RemoveAbsentId(tail, id, idOf);
    } else {
      assert idOf(tail[i - 1]) == id;
      assert DistinctIds(tail, idOf) by {
        forall a, b | 0 <= a < b < |tail| ensures idOf(tail[a]) != idOf(tail[b]) {
          assert tail[a] == s[a + 1] && tail[b] == s[b + 1];
        }
      }
      RemoveIdAt(tail, id, idOf, i - 1);
      assert s[..i] == [s[0]] + tail[..i - 1];
      assert s[i + 1..] == tail[i..];
    }
  }
}
