/** The least-recently-used cache: an ordered map that evicts from its front. */
module Lru {
  import opened Collections
  import opened Options

  type Vector = seq<real>

  // ---------------------------------------------------------------------------------------------
  // Recency

  function Without<K(==)>(s: seq<K>, k: K): (r: seq<K>)
    ensures |r| <= |s| && (k !in s ==> r == s) && k !in r
  {
    if s == [] then []
    else if s[|s| - 1] == k then Without(s[..|s| - 1], k)
    else Without(s[..|s| - 1], k) + [s[|s| - 1]]
  }

  /** The keys touched, each once, in the order of their last touch. */
  ghost function ByRecency(touches: seq<string>): seq<string> {
    if touches == [] then []
    else
      var k := touches[|touches| - 1];
      Without(ByRecency(touches[..|touches| - 1]), k) + [k]
  }

  ghost function Newest(s: seq<string>, n: nat): seq<string> {
    if |s| <= n then s else s[|s| - n..]
  }

  lemma {:induction false} WithoutAppend(s: seq<string>, t: seq<string>, k: string)
    ensures Without(s + t, k) == Without(s, k) + Without(t, k)
  {
    if t == [] {
      assert s + t == s;
    } else {
      assert (s + t)[..|s + t| - 1] == s + t[..|t| - 1];
      WithoutAppend(s, t[..|t| - 1], k);
    }
  }

  lemma {:induction false} WithoutOnce(s: seq<string>, k: string)
    requires NoDuplicates(s)
    ensures NoDuplicates(Without(s, k)) && |Without(s, k)| == |s| - if k in s then 1 else 0
    ensures forall x :: x in Without(s, k) <==> x in s && x != k
  {
    if s != [] {
      var init, last := s[..|s| - 1], s[|s| - 1];
      assert s == init + [last] && last !in init;
      WithoutOnce(init, k);
    }
  }

  lemma {:induction false} RecencyIsDistinct(touches: seq<string>)
    ensures NoDuplicates(ByRecency(touches))
    ensures forall k :: k in ByRecency(touches) <==> k in touches
  {
    if touches != [] {
      var init, k := touches[..|touches| - 1], touches[|touches| - 1];
      assert touches == init + [k];
      RecencyIsDistinct(init);
      WithoutOnce(ByRecency(init), k);
    }
  }

  lemma NewestOfSuffix(a: seq<string>, b: seq<string>, n: nat)
    requires |b| == n || (|b| < n && a == [])
    ensures Newest(a + b, n) == b
  {
    if a == [] {
      assert a + b == b;
    }
  }

  lemma NewestShifts(a: seq<string>, b: seq<string>, k: string, n: nat)
    requires |b| == n || (|b| < n && a == [])
    ensures Newest(a + (b + [k]), n) == Newest(b + [k], n)
  {
    if a == [] {
      assert a + (b + [k]) == b + [k];
    }
  }

  lemma NewestIsSuffix(s: seq<string>, n: nat) returns (gone: seq<string>)
    ensures s == gone + Newest(s, n)
    ensures |Newest(s, n)| == n || (|Newest(s, n)| < n && gone == [])
  {
    gone := s[..|s| - |Newest(s, n)|];
  }

  lemma DistinctParts(a: seq<string>, b: seq<string>)
    requires NoDuplicates(a + b)
    ensures NoDuplicates(a) && NoDuplicates(b) && forall x | x in b :: x !in a
  {
    forall i, j | 0 <= i < |a| && 0 <= j < |b|
      ensures a[i] != b[j]
    {
      assert (a + b)[i] == a[i] && (a + b)[|a| + j] == b[j];
    }
    assert forall i, j | 0 <= i < j < |b| :: (a + b)[|a| + i] == b[i] && (a + b)[|a| + j] == b[j];
    assert forall i | 0 <= i < |a| :: (a + b)[i] == a[i];
  }

  lemma MovesToEnd(gone: seq<string>, kept: seq<string>, k: string, n: nat)
    requires NoDuplicates(gone + kept) && (|kept| == n || (|kept| < n && gone == [])) && k in kept
    ensures Newest(Without(gone + kept, k) + [k], n) == Without(kept, k) + [k]
  {
    WithoutAppend(gone, kept, k);
    DistinctParts(gone, kept);
    WithoutOnce(kept, k);
    assert Without(gone, k) == gone;
    assert Without(gone + kept, k) + [k] == gone + (Without(kept, k) + [k]);
    NewestOfSuffix(gone, Without(kept, k) + [k], n);
  }

  lemma PushesOut(gone: seq<string>, kept: seq<string>, k: string, n: nat)
    requires NoDuplicates(gone + kept) && (|kept| == n || (|kept| < n && gone == [])) && k !in kept
    ensures Newest(Without(gone + kept, k) + [k], n) == Newest(kept + [k], n)
  {
    WithoutAppend(gone, kept, k);
    assert Without(kept, k) == kept;
    assert Without(gone + kept, k) + [k] == Without(gone, k) + (kept + [k]);
    NewestShifts(Without(gone, k), kept, k, n);
  }

  /** Where an `OrderedDict` has a key that is moved to its end, or added; nothing is pushed out yet. */
  function Placed(kept: seq<string>, k: string): seq<string> {
    if k in kept then Without(kept, k) + [k] else kept + [k]
  }

  lemma RecencyAppend(touches: seq<string>, k: string)
    ensures ByRecency(touches + [k]) == Without(ByRecency(touches), k) + [k]
  {
    assert (touches + [k])[..|touches|] == touches;
  }

  /** A hit moves its key to the end of what is kept. */
  lemma HitMoves(touches: seq<string>, kept: seq<string>, k: string, n: nat)
    requires kept == Newest(ByRecency(touches), n) && k in kept
    ensures Newest(ByRecency(touches + [k]), n) == Without(kept, k) + [k]
  {
    RecencyAppend(touches, k);
    RecencyIsDistinct(touches);
    var gone := NewestIsSuffix(ByRecency(touches), n);
    MovesToEnd(gone, kept, k, n);
  }

  /** A new key goes to the end and may push the oldest out. */
  lemma MissPushes(touches: seq<string>, kept: seq<string>, k: string, n: nat)
    requires kept == Newest(ByRecency(touches), n) && k !in kept
    ensures Newest(ByRecency(touches + [k]), n) == Newest(kept + [k], n)
  {
    RecencyAppend(touches, k);
    RecencyIsDistinct(touches);
    var gone := NewestIsSuffix(ByRecency(touches), n);
    PushesOut(gone, kept, k, n);
  }

  lemma KeptIsDistinct(touches: seq<string>, kept: seq<string>, n: nat)
    requires kept == Newest(ByRecency(touches), n)
    ensures NoDuplicates(kept) && |kept| <= n
  {
    RecencyIsDistinct(touches);
    var gone := NewestIsSuffix(ByRecency(touches), n);
    DistinctParts(gone, kept);
  }

  lemma PlacedKeys(kept: seq<string>, k: string)
    requires NoDuplicates(kept)
    ensures NoDuplicates(Placed(kept, k)) && Elements(Placed(kept, k)) == Elements(kept) + {k}
    ensures |Placed(kept, k)| == if k in kept then |kept| else |kept| + 1
  {
    WithoutOnce(kept, k);
    assert forall x :: x in Placed(kept, k) <==> x in kept || x == k;
  }

  // ---------------------------------------------------------------------------------------------
  // Which keys are kept, said without an order

  /** How many different keys were touched since `k` last was. */
  ghost function TouchedSince(touches: seq<string>, k: string): set<string>
    requires k in touches
  {
    if touches[|touches| - 1] == k then {}
    else
      assert k in touches[..|touches| - 1];
      TouchedSince(touches[..|touches| - 1], k) + {touches[|touches| - 1]}
  }

  lemma KeysWithout(s: seq<string>, k: string)
    requires NoDuplicates(s)
    ensures Elements(Without(s, k) + [k]) == Elements(s) + {k}
  {
    WithoutOnce(s, k);
    assert forall x :: x in Without(s, k) + [k] <==> x in Without(s, k) || x == k;
  }

  /** Another key's touch leaves what comes before `k` before it. */
  lemma MovesBehind(front: seq<string>, k: string, back: seq<string>, last: string)
    requires last != k
    ensures Without(front + ([k] + back), last) + [last] == Without(front, last) + ([k] + (Without(back, last) + [last]))
  {
    WithoutAppend(front, [k] + back, last);
    WithoutAppend([k], back, last);
    assert [k][..0] == [];
    assert Without([k], last) == [k];
  }

  lemma {:induction false} SplitByRecency(touches: seq<string>, k: string) returns (front: seq<string>, back: seq<string>)
    requires k in touches
    ensures ByRecency(touches) == front + ([k] + back)
    ensures Elements(back) == TouchedSince(touches, k)
  {
    var init, last := touches[..|touches| - 1], touches[|touches| - 1];
    assert touches == init + [last];
    if last == k {
      front, back := Without(ByRecency(init), k), [];
    } else {
      front, back := SplitByRecency(init, k);
      MovesBehind(front, k, back, last);
      RecencyIsDistinct(init);
      DistinctParts(front, [k] + back);
      DistinctParts([k], back);
      KeysWithout(back, last);
      front, back := Without(front, last), Without(back, last) + [last];
    }
  }

  /** A key is kept exactly when fewer than `n` other keys have been touched since it was. */
  lemma KeptIff(touches: seq<string>, n: nat, k: string)
    ensures k in Newest(ByRecency(touches), n) <==> k in touches && |TouchedSince(touches, k)| < n
  {
    RecencyIsDistinct(touches);
    var all := ByRecency(touches);
    var gone := NewestIsSuffix(all, n);
    if k in touches {
      var front, back := SplitByRecency(touches, k);
      DistinctParts(front, [k] + back);
      DistinctParts([k], back);
      CountElements(back);
      DistinctParts(gone, Newest(all, n));
      assert all[|front|] == k;
      if |front| < |gone| {
        assert gone[|front|] == k;
      } else {
        assert Newest(all, n)[|front| - |gone|] == k;
      }
    } else {
      assert forall x | x in Newest(all, n) :: x in all;
    }
  }

  // ---------------------------------------------------------------------------------------------
  // The cache

  /** Between placing a key and evicting: what is kept has room for one more at most. */
  ghost predicate Overfull(keys: seq<string>, touches: seq<string>, room: nat) {
    keys != [] && |keys| <= room + 1 && NoDuplicates(keys) && Newest(keys, room) == Newest(ByRecency(touches), room)
  }

  lemma PlacedIsOverfull(touches: seq<string>, kept: seq<string>, k: string, n: nat)
    requires kept == Newest(ByRecency(touches), n)
    ensures Overfull(Placed(kept, k), touches + [k], n) && Elements(Placed(kept, k)) == Elements(kept) + {k}
  {
    KeptIsDistinct(touches, kept, n);
    PlacedKeys(kept, k);
    if k in kept {
      HitMoves(touches, kept, k, n);
    } else {
      MissPushes(touches, kept, k, n);
    }
  }

  lemma HitKeeps(touches: seq<string>, kept: seq<string>, k: string, n: nat)
    requires kept == Newest(ByRecency(touches), n) && k in kept
    ensures Without(kept, k) + [k] == Newest(ByRecency(touches + [k]), n) && Elements(Without(kept, k) + [k]) == Elements(kept)
  {
    HitMoves(touches, kept, k, n);
    KeptIsDistinct(touches, kept, n);
    PlacedKeys(kept, k);
    assert Elements(kept) + {k} == Elements(kept);
  }

  lemma EvictionRestores(keys: seq<string>, touches: seq<string>, maxSize: int, room: nat)
    requires Overfull(keys, touches, room) && room == if maxSize < 0 then 0 else maxSize
    ensures (if |keys| > maxSize then keys[1..] else keys) == Newest(ByRecency(touches), room)
    ensures Elements(keys[1..]) == Elements(keys) - {keys[0]}
  {
    assert keys == [keys[0]] + keys[1..];
  }

  class Cache {
    const maxSize: int
    var keys: seq<string>
    var values: map<string, Vector>
    ghost var touches: seq<string>

    ghost function Room(): nat
      reads this
    {
      if maxSize < 0 then 0 else maxSize
    }

    /** The keys kept are the most recently touched ones, oldest first. */
    ghost predicate Valid()
      reads this
    {
      keys == Newest(ByRecency(touches), Room()) && values.Keys == Elements(keys)
    }

    constructor (maxSize: int)
      ensures Valid() && this.maxSize == maxSize && touches == [] && values == map[]
    {
      this.maxSize := maxSize;
      keys, values, touches := [], map[], [];
    }

    method Get(key: string) returns (value: Option<Vector>)
      requires Valid()
      modifies this`keys, this`touches
      ensures Valid() && value == (if key in values then Some(values[key]) else None)
      ensures touches == if key in values then old(touches) + [key] else old(touches)
    {
      if key !in values {
        return None;
      }
      HitKeeps(touches, keys, key, Room());
      keys, touches := Without(keys, key) + [key], touches + [key];
      return Some(values[key]);
    }

    /** Moves the key to the end and writes it, before the size is looked at. */
    method Place(key: string, value: Vector)
      requires Valid()
      modifies this`keys, this`values, this`touches
      ensures touches == old(touches) + [key] && values == old(values)[key := value]
      ensures Overfull(keys, touches, Room()) && values.Keys == Elements(keys)
    {
      ghost var placed := Placed(keys, key);
      PlacedIsOverfull(touches, keys, key, Room());
      assert values[key := value].Keys == values.Keys + {key} == Elements(placed);
      keys, touches, values := Placed(keys, key), touches + [key], values[key := value];
      assert keys == placed;
    }

    method Set(key: string, value: Vector)
      requires Valid()
      modifies this`keys, this`values, this`touches
      ensures Valid() && touches == old(touches) + [key]
      ensures key in values ==> values[key] == value
      ensures forall k | k in values && k != key :: k in old(values) && values[k] == old(values)[k]
    {
      Place(key, value);
      EvictionRestores(keys, touches, maxSize, Room());
      if |keys| > maxSize {
        var oldest := keys[0];
        keys, values := keys[1..], values - {oldest};
      }
    }
  }
}
