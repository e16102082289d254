/** The two users of the cache: the embedder wrapper and the HTTP client. */
module Embedding {
  import opened Options
  import opened Lru

  ghost predicate Injective(digest: string -> string) {
    forall a, b | digest(a) == digest(b) :: a == b
  }

  /** Every cached vector is the one the embedder gives for its text. */
  ghost predicate Agrees(values: map<string, Vector>, digest: string -> string, embed: string -> Vector) {
    forall text: string | digest(text) in values :: values[digest(text)] == embed(text)
  }

  // ---------------------------------------------------------------------------------------------
  // Looking a batch up

  /** `misses` are the positions left open, in order. */
  ghost predicate Split(texts: seq<string>, upTo: nat, found: seq<Option<Vector>>, misses: seq<nat>, embed: string -> Vector) {
    && |found| == |texts| && upTo <= |texts|
    && (forall m | 0 <= m < |misses| :: misses[m] < upTo && found[misses[m]].None?)
    && (forall m, n | 0 <= m < n < |misses| :: misses[m] < misses[n])
    && (forall i | 0 <= i < upTo && found[i].None? :: i in misses)
    && (forall i | 0 <= i < |texts| && found[i].Some? :: i < upTo && found[i].value == embed(texts[i]))
  }

  lemma SplitHit(texts: seq<string>, i: nat, found: seq<Option<Vector>>, misses: seq<nat>, embed: string -> Vector)
    requires Split(texts, i, found, misses, embed) && i < |texts|
    ensures Split(texts, i + 1, found[i := Some(embed(texts[i]))], misses, embed)
  {
  }

  lemma SplitMiss(texts: seq<string>, i: nat, found: seq<Option<Vector>>, misses: seq<nat>, embed: string -> Vector)
    requires Split(texts, i, found, misses, embed) && i < |texts|
    ensures Split(texts, i + 1, found, misses + [i], embed)
  {
    assert found[i].None?;
  }

  /** The keys of the first `n` texts, without those at the positions in `except`. */
  ghost function KeysBut(digest: string -> string, texts: seq<string>, except: seq<nat>, n: nat): seq<string>
    requires n <= |texts|
  {
    if n == 0 then []
    else KeysBut(digest, texts, except, n - 1) + if n - 1 in except then [] else [digest(texts[n - 1])]
  }

  lemma {:induction false} KeysButLater(digest: string -> string, texts: seq<string>, except: seq<nat>, i: nat, n: nat)
    requires n <= |texts| && n <= i
    ensures KeysBut(digest, texts, except + [i], n) == KeysBut(digest, texts, except, n)
  {
    if n > 0 {
      KeysButLater(digest, texts, except, i, n - 1);
    }
  }

  /** `misses` are the positions of the texts that were not cached, and each hit was touched, in order. */
  ghost predicate LookedUp(cached: set<string>, digest: string -> string, texts: seq<string>, misses: seq<nat>, n: nat,
                           before: seq<string>, touches: seq<string>)
    requires n <= |texts|
  {
    && (forall i | 0 <= i < n :: i in misses <==> digest(texts[i]) !in cached)
    && touches == before + KeysBut(digest, texts, misses, n)
  }

  lemma LookedUpHit(cached: set<string>, digest: string -> string, texts: seq<string>, misses: seq<nat>, n: nat,
                    before: seq<string>, touches: seq<string>)
    requires n < |texts| && n !in misses && digest(texts[n]) in cached && LookedUp(cached, digest, texts, misses, n, before, touches)
    ensures LookedUp(cached, digest, texts, misses, n + 1, before, touches + [digest(texts[n])])
  {
  }

  lemma LookedUpMiss(cached: set<string>, digest: string -> string, texts: seq<string>, misses: seq<nat>, n: nat,
                     before: seq<string>, touches: seq<string>)
    requires n < |texts| && digest(texts[n]) !in cached && LookedUp(cached, digest, texts, misses, n, before, touches)
    ensures LookedUp(cached, digest, texts, misses + [n], n + 1, before, touches)
  {
    KeysButLater(digest, texts, misses, n, n);
    forall i | 0 <= i < n + 1
      ensures i in misses + [n] <==> digest(texts[i]) !in cached
    {
      assert i in misses + [n] <==> i in misses || i == n;
    }
  }

  /** One text: a hit is touched and found, a miss is noted. */
  method LookUpOne(cache: Cache, digest: string -> string, texts: seq<string>, i: nat, found: seq<Option<Vector>>, misses: seq<nat>,
                   ghost embed: string -> Vector, ghost before: seq<string>)
    returns (foundNow: seq<Option<Vector>>, missesNow: seq<nat>)
    requires cache.Valid() && Agrees(cache.values, digest, embed) && i < |texts| && Split(texts, i, found, misses, embed)
    requires LookedUp(cache.values.Keys, digest, texts, misses, i, before, cache.touches)
    modifies cache`keys, cache`touches
    ensures cache.Valid() && cache.values == old(cache.values) && Split(texts, i + 1, foundNow, missesNow, embed)
    ensures LookedUp(cache.values.Keys, digest, texts, missesNow, i + 1, before, cache.touches)
  {
    ghost var touches := cache.touches;
    var hit := cache.Get(digest(texts[i]));
    if hit.Some? {
      LookedUpHit(cache.values.Keys, digest, texts, misses, i, before, touches);
      SplitHit(texts, i, found, misses, embed);
      return found[i := hit], misses;
    }
    LookedUpMiss(cache.values.Keys, digest, texts, misses, i, before, touches);
    SplitMiss(texts, i, found, misses, embed);
    return found, misses + [i];
  }

  /** The positions, in order, of the texts that were not cached. */
  ghost predicate Missed(cached: set<string>, digest: string -> string, texts: seq<string>, misses: seq<nat>) {
    && (forall m, n | 0 <= m < n < |misses| :: misses[m] < misses[n])
    && (forall m | 0 <= m < |misses| :: misses[m] < |texts|)
    && (forall i | 0 <= i < |texts| :: i in misses <==> digest(texts[i]) !in cached)
  }

  lemma MissedAre(cached: set<string>, digest: string -> string, texts: seq<string>, misses: seq<nat>, found: seq<Option<Vector>>,
                  embed: string -> Vector, before: seq<string>, touches: seq<string>)
    requires Split(texts, |texts|, found, misses, embed) && LookedUp(cached, digest, texts, misses, |texts|, before, touches)
    ensures Missed(cached, digest, texts, misses)
  {
  }

  method LookUp(cache: Cache, digest: string -> string, texts: seq<string>, ghost embed: string -> Vector)
    returns (found: seq<Option<Vector>>, misses: seq<nat>)
    requires cache.Valid() && Agrees(cache.values, digest, embed)
    modifies cache`keys, cache`touches
    ensures cache.Valid() && Split(texts, |texts|, found, misses, embed) && cache.values == old(cache.values)
    ensures LookedUp(cache.values.Keys, digest, texts, misses, |texts|, old(cache.touches), cache.touches)
    ensures Missed(cache.values.Keys, digest, texts, misses)
  {
    found, misses := seq(|texts|, _ => None), [];
    for i := 0 to |texts|
      invariant cache.Valid() && cache.values == old(cache.values) && Agrees(cache.values, digest, embed)
      invariant Split(texts, i, found, misses, embed)
      invariant LookedUp(cache.values.Keys, digest, texts, misses, i, old(cache.touches), cache.touches)
    {
      found, misses := LookUpOne(cache, digest, texts, i, found, misses, embed, old(cache.touches));
    }
    MissedAre(cache.values.Keys, digest, texts, misses, found, embed, old(cache.touches), cache.touches);
  }

  /** Stores the vector of one miss. */
  method Store(cache: Cache, digest: string -> string, text: string, ghost embed: string -> Vector, value: Vector)
    requires cache.Valid() && Agrees(cache.values, digest, embed) && Injective(digest) && value == embed(text)
    modifies cache`keys, cache`values, cache`touches
    ensures cache.Valid() && Agrees(cache.values, digest, embed)
    ensures cache.touches == old(cache.touches) + [digest(text)]
  {
    cache.Set(digest(text), value);
  }

  // ---------------------------------------------------------------------------------------------
  // The wrapper

  function Present(found: seq<Option<Vector>>): (r: seq<Vector>)
    ensures |r| <= |found|
  {
    if found == [] then []
    else Present(found[..|found| - 1]) + if found[|found| - 1].Some? then [found[|found| - 1].value] else []
  }

  ghost function Embedded(embed: string -> Vector, texts: seq<string>): seq<Vector> {
    seq(|texts|, i requires 0 <= i < |texts| => embed(texts[i]))
  }

  /** Dropping the open positions gives the whole answer exactly when there are none. */
  lemma {:induction false} PresentIsWholeIff(embed: string -> Vector, texts: seq<string>, found: seq<Option<Vector>>)
    requires |found| == |texts| && forall i | 0 <= i < |texts| && found[i].Some? :: found[i].value == embed(texts[i])
    ensures Present(found) == Embedded(embed, texts) <==> forall i | 0 <= i < |found| :: found[i].Some?
    ensures |Present(found)| == |found| <==> forall i | 0 <= i < |found| :: found[i].Some?
  {
    if found != [] {
      var n := |found| - 1;
      PresentIsWholeIff(embed, texts[..n], found[..n]);
      assert Embedded(embed, texts) == Embedded(embed, texts[..n]) + [embed(texts[n])];
      assert forall i | 0 <= i < n :: found[..n][i] == found[i];
      if Present(found) == Embedded(embed, texts) {
        assert |Present(found)| == |found|;
      }
    }
  }

  /** The answers for the first `n` texts, without those at the positions in `except`. */
  ghost function AnswersBut(embed: string -> Vector, texts: seq<string>, except: seq<nat>, n: nat): seq<Vector>
    requires n <= |texts|
  {
    if n == 0 then []
    else AnswersBut(embed, texts, except, n - 1) + if n - 1 in except then [] else [embed(texts[n - 1])]
  }

  /** Dropping the open positions leaves the answers for the others, in order. */
  lemma {:induction false} PresentIsOthers(embed: string -> Vector, texts: seq<string>, found: seq<Option<Vector>>, except: seq<nat>, n: nat)
    requires |found| == |texts| && n <= |texts| && forall i | 0 <= i < |texts| && found[i].Some? :: found[i].value == embed(texts[i])
    requires forall i | 0 <= i < |texts| :: found[i].None? <==> i in except
    ensures Present(found[..n]) == AnswersBut(embed, texts, except, n)
  {
    if n > 0 {
      PresentIsOthers(embed, texts, found, except, n - 1);
      assert found[..n][..n - 1] == found[..n - 1];
    }
  }

  /** What an inner batch call returns for the texts it is sent: right where it answers at all. */
  ghost predicate Truthful(batch: seq<string> -> seq<Vector>, embed: string -> Vector) {
    forall texts, i | 0 <= i < |batch(texts)| && i < |texts| :: batch(texts)[i] == embed(texts[i])
  }

  function Pick(texts: seq<string>, at: seq<nat>): seq<string>
    requires forall m | 0 <= m < |at| :: at[m] < |texts|
  {
    seq(|at|, m requires 0 <= m < |at| => texts[at[m]])
  }

  /** The first `m` misses are answered, the others are open. */
  ghost predicate Filling(texts: seq<string>, r: seq<Option<Vector>>, misses: seq<nat>, m: nat, embed: string -> Vector) {
    && |r| == |texts| && m <= |misses|
    && (forall i | 0 <= i < |texts| && r[i].Some? :: r[i].value == embed(texts[i]))
    && (forall k | m <= k < |misses| :: misses[k] < |r| && r[misses[k]].None?)
    && (forall i | 0 <= i < |texts| && r[i].None? :: i in misses[m..])
  }

  lemma FillStep(texts: seq<string>, r: seq<Option<Vector>>, misses: seq<nat>, m: nat, embed: string -> Vector)
    requires Filling(texts, r, misses, m, embed) && m < |misses|
    requires forall j, k | 0 <= j < k < |misses| :: misses[j] < misses[k]
    ensures Filling(texts, r[misses[m] := Some(embed(texts[misses[m]]))], misses, m + 1, embed)
  {
    assert misses[m..] == [misses[m]] + misses[m + 1..];
  }

  lemma FilledIff(texts: seq<string>, r: seq<Option<Vector>>, misses: seq<nat>, m: nat, embed: string -> Vector)
    requires Filling(texts, r, misses, m, embed)
    ensures (forall i | 0 <= i < |texts| :: r[i].Some?) <==> m == |misses|
  {
    if m == |misses| {
      assert misses[m..] == [];
    } else {
      assert r[misses[m]].None?;
    }
  }

  lemma OpenAre(texts: seq<string>, r: seq<Option<Vector>>, misses: seq<nat>, m: nat, embed: string -> Vector)
    requires Filling(texts, r, misses, m, embed)
    ensures forall i | 0 <= i < |texts| :: r[i].None? <==> i in misses[m..]
  {
    forall i | 0 <= i < |texts| && i in misses[m..]
      ensures r[i].None?
    {
      var k :| 0 <= k < |misses[m..]| && misses[m..][k] == i;
      assert misses[m + k] == i;
    }
  }

  function Fewer(m: nat, n: nat): nat {
    if m < n then m else n
  }

  lemma FilledAnswers(texts: seq<string>, r: seq<Option<Vector>>, misses: seq<nat>, m: nat, embed: string -> Vector)
    requires Filling(texts, r, misses, m, embed)
    ensures Present(r) == AnswersBut(embed, texts, misses[m..], |texts|)
    ensures Present(r) == Embedded(embed, texts) <==> m == |misses|
    ensures |Present(r)| == |texts| <==> m == |misses|
  {
    OpenAre(texts, r, misses, m, embed);
    PresentIsOthers(embed, texts, r, misses[m..], |texts|);
    PresentIsWholeIff(embed, texts, r);
    FilledIff(texts, r, misses, m, embed);
    assert r[..|texts|] == r;
  }

  function Keys(digest: string -> string, texts: seq<string>): seq<string> {
    seq(|texts|, i requires 0 <= i < |texts| => digest(texts[i]))
  }

  lemma OneMoreKey(digest: string -> string, texts: seq<string>, n: nat)
    requires n < |texts|
    ensures Keys(digest, texts[..n + 1]) == Keys(digest, texts[..n]) + [digest(texts[n])]
  {
  }

  class EmbedCache {
    const backend: Cache
    const digest: string -> string
    const embed: string -> Vector

    ghost predicate Valid()
      reads this, backend
    {
      backend.Valid() && Injective(digest) && Agrees(backend.values, digest, embed)
    }

    constructor (digest: string -> string, embed: string -> Vector, maxSize: int)
      requires Injective(digest)
      ensures Valid() && fresh(backend) && this.digest == digest && this.embed == embed && backend.maxSize == maxSize
    {
      this.digest, this.embed := digest, embed;
      backend := new Cache(maxSize);
    }

    /** Whatever was cached or evicted before, the answer is the inner embedder's. */
    method Create(text: string) returns (v: Vector)
      requires Valid()
      modifies backend
      ensures Valid() && v == embed(text)
      ensures backend.touches == old(backend.touches) + [digest(text)]
    {
      var cached := backend.Get(digest(text));
      if cached.Some? {
        return cached.value;
      }
      v := embed(text);
      Store(backend, digest, text, embed, v);
    }

    /** Pairs misses with answers; whichever runs out first ends it. */
    method FillIn(texts: seq<string>, found: seq<Option<Vector>>, misses: seq<nat>, fetched: seq<Vector>) returns (r: seq<Option<Vector>>)
      requires Valid() && Split(texts, |texts|, found, misses, embed)
      requires forall m | 0 <= m < |misses| && m < |fetched| :: fetched[m] == embed(texts[misses[m]])
      modifies backend
      ensures Valid() && Filling(texts, r, misses, Fewer(|misses|, |fetched|), embed)
      ensures backend.touches == old(backend.touches) + Keys(digest, Pick(texts, misses)[..Fewer(|misses|, |fetched|)])
    {
      r := found;
      assert misses[0..] == misses;
      ghost var sent := Pick(texts, misses);
      assert Keys(digest, sent[..0]) == [];
      for m := 0 to Fewer(|misses|, |fetched|)
        invariant Valid() && Filling(texts, r, misses, m, embed)
        invariant backend.touches == old(backend.touches) + Keys(digest, sent[..m])
      {
        FillStep(texts, r, misses, m, embed);
        OneMoreKey(digest, sent, m);
        Store(backend, digest, texts[misses[m]], embed, fetched[m]);
        r := r[misses[m] := Some(fetched[m])];
      }
    }

    /**
     Hits come from the cache, misses go to the inner embedder in one call. The result is the inner
     embedder's answer for every text in order exactly when that call returned a vector for each text
     it was sent; after a short answer the texts it left out have none, the vectors that follow move up
     and no longer line up. Every hit and then every answered miss is touched, in order.
     */
    method CreateBatch(texts: seq<string>, batch: seq<string> -> seq<Vector>) returns (r: seq<Vector>, ghost misses: seq<nat>)
      requires Valid() && Truthful(batch, embed)
      modifies backend
      ensures Valid() && Missed(old(backend.values.Keys), digest, texts, misses)
      ensures
        var sent := Pick(texts, misses);
        var n := if misses == [] then 0 else Fewer(|misses|, |batch(sent)|);
        && (r == Embedded(embed, texts) <==> n == |misses|) && (|r| == |texts| <==> n == |misses|)
        && r == AnswersBut(embed, texts, misses[n..], |texts|)
        && backend.touches == old(backend.touches) + KeysBut(digest, texts, misses, |texts|) + Keys(digest, sent[..n])
    {
      misses := [];
      if texts == [] {
        assert Keys(digest, Pick(texts, misses)[..0]) == [];
        return [], [];
      }
      var found, missed := LookUp(backend, digest, texts, embed);
      misses := missed;
      var missing := Pick(texts, missed);
      ghost var n := 0;
      if missing != [] {
        var fetched := batch(missing);
        found := FillIn(texts, found, missed, fetched);
        n := Fewer(|missed|, |fetched|);
      } else {
        assert Keys(digest, missing[..0]) == [];
      }
      FilledAnswers(texts, found, missed, n, embed);
      r := Present(found);
    }
  }
}
