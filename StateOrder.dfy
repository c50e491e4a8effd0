/**
 * The enumeration order of a `Dictionary<GameState, …>` as the devices use it:
 * the keys in the order they were first inserted.
 */
module StateOrder {
  import opened Events

  predicate Distinct(s: seq<GameState>) {
    forall i, j :: 0 <= i < j < |s| ==> s[i] != s[j]
  }

  /** `dict[g] = v`: a new key is enumerated last, an existing key keeps its place. */
  function Insert(s: seq<GameState>, g: GameState): (r: seq<GameState>)
    ensures forall x :: x in r <==> x in s || x == g
    ensures Distinct(s) ==> Distinct(r)
    ensures g in s ==> r == s
    ensures g !in s ==> |r| == |s| + 1 && r[..|s|] == s && r[|s|] == g
  {
    if g in s then s else s + [g]
  }

  /** `dict.Remove(g)`: the key leaves the order, the others keep theirs. */
  function Erase(s: seq<GameState>, g: GameState): (r: seq<GameState>)
    ensures forall x :: x in r <==> x in s && x != g
    ensures Distinct(s) ==> Distinct(r)
    ensures g !in s ==> r == s
    decreases |s|
  {
    if s == [] then []
    else
      var rest := Erase(s[1..], g);
      if s[0] == g then rest
      else
        assert Distinct(s) ==> Distinct([s[0]] + rest) by {
          if Distinct(s) {
            DistinctCons(s[0], rest);
          }
        }
        [s[0]] + rest
  }

  lemma DistinctCons(x: GameState, s: seq<GameState>)
    requires x !in s && Distinct(s)
    ensures Distinct([x] + s)
  {
    forall i, j | 0 <= i < j < |[x] + s|
      ensures ([x] + s)[i] != ([x] + s)[j]
    {
      if i > 0 {
        assert ([x] + s)[i] == s[i - 1];
      }
      assert ([x] + s)[j] == s[j - 1];
    }
  }

  /** Removing a key just inserted restores the order. */
  lemma {:induction false} EraseInsert(s: seq<GameState>, g: GameState)
    requires g !in s
    ensures Erase(Insert(s, g), g) == s
    decreases |s|
  {
    if s == [] {
      assert Insert(s, g) == [g];
      assert Erase([g], g) == Erase([g][1..], g);
    } else {
      var t, rest := s + [g], s[1..];
      assert t[0] == s[0] && t[1..] == rest + [g];
      assert g !in rest && Insert(rest, g) == rest + [g];
      EraseInsert(rest, g);
      assert Erase(t, g) == [s[0]] + Erase(t[1..], g);
      assert s == [s[0]] + rest;
    }
  }

  /** Removing a key that sits at index `k` cuts out exactly that entry. */
  lemma {:induction false} EraseCutsOut(s: seq<GameState>, g: GameState, k: nat)
    requires Distinct(s) && k < |s| && s[k] == g
    ensures Erase(s, g) == s[..k] + s[k + 1..]
    decreases k
  {
    if k == 0 {
      assert g !in s[1..] by {
        forall j | 0 <= j < |s[1..]| ensures s[1..][j] != g {
          assert s[1..][j] == s[j + 1];
        }
      }
      assert Erase(s, g) == Erase(s[1..], g);
    } else {
      var rest := s[1..];
      assert Distinct(rest) by {
        forall i, j | 0 <= i < j < |rest| ensures rest[i] != rest[j] {
          assert rest[i] == s[i + 1] && rest[j] == s[j + 1];
        }
      }
      assert rest[k - 1] == g;
      EraseCutsOut(rest, g, k - 1);
      assert s[0] != g;
      assert Erase(s, g) == [s[0]] + Erase(rest, g);
      assert s[..k] == [s[0]] + rest[..k - 1];
      assert s[k + 1..] == rest[k..];
    }
  }
}
