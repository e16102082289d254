/** The HTTP embedding client: one result per text, hits from the cache, failures never kept. */
module EmbeddingClient {
  import opened Options
  import opened Lru
  import opened Embedding

  datatype Result = Result(text: string, vector: Option<Vector>, error: Option<string>)

  /** A transport failure, an HTTP error status, or a body with at most one usable vector per position. */
  datatype Response = Transport(error: string) | Status(error: string) | Body(items: seq<Option<Vector>>)

  const MISSING := "missing_embedding_in_response"

  predicate Answers(response: Response, pos: nat) {
    response.Body? && pos < |response.items| && response.items[pos].Some?
  }

  ghost predicate TruthfulServer(server: seq<string> -> Response, embed: string -> Vector) {
    forall texts, pos: nat | Answers(server(texts), pos) && pos < |texts| :: server(texts).items[pos].value == embed(texts[pos])
  }

  function Success(text: string, v: Vector): Result {
    Result(text, Some(v), None)
  }

  function Failure(text: string, error: string): Result {
    Result(text, None, Some(error))
  }

  /** One result per text, in order; a vector is the text's own, and its absence is explained. */
  ghost predicate Aligned(texts: seq<string>, r: seq<Result>, embed: string -> Vector) {
    && |r| == |texts|
    && forall i | 0 <= i < |texts| ::
         r[i].text == texts[i] && (r[i].vector.Some? <==> r[i].error.None?) && (r[i].vector.Some? ==> r[i].vector.value == embed(texts[i]))
  }

  /** Every text that was not a hit failed with `error`. */
  function Fallback(texts: seq<string>, found: seq<Option<Vector>>, error: string): seq<Result>
    requires |found| == |texts|
  {
    seq(|texts|, i requires 0 <= i < |texts| => if found[i].Some? then Success(texts[i], found[i].value) else Failure(texts[i], error))
  }

  /** The first `pos` misses are filled as the response answers them, the others are open, the hits untouched. */
  ghost predicate Merged(texts: seq<string>, found: seq<Option<Vector>>, misses: seq<nat>, response: Response, pos: nat,
                         filled: seq<Option<Vector>>, embed: string -> Vector) {
    && |filled| == |texts| == |found| && pos <= |misses| && (forall p: nat | p < |misses| :: misses[p] < |texts|)
    && (forall i | 0 <= i < |texts| && filled[i].Some? :: filled[i].value == embed(texts[i]))
    && (forall i | 0 <= i < |texts| && found[i].Some? :: filled[i] == found[i])
    && (forall p: nat | p < |misses| :: filled[misses[p]].Some? <==> p < pos && Answers(response, p))
  }

  lemma MergeStep(texts: seq<string>, found: seq<Option<Vector>>, misses: seq<nat>, response: Response, pos: nat,
                  filled: seq<Option<Vector>>, embed: string -> Vector)
    requires Merged(texts, found, misses, response, pos, filled, embed) && pos < |misses|
    requires Split(texts, |texts|, found, misses, embed)
    requires Answers(response, pos) ==> response.items[pos].value == embed(texts[misses[pos]])
    ensures Merged(texts, found, misses, response, pos + 1,
                   if Answers(response, pos) then filled[misses[pos] := response.items[pos]] else filled, embed)
  {
    assert forall p: nat | p < |misses| && p != pos :: misses[p] != misses[pos];
  }

  /** A key of the cache that belongs to a text with a vector. */
  ghost predicate Delivered(digest: string -> string, texts: seq<string>, filled: seq<Option<Vector>>, k: string) {
    exists i: nat :: i < |texts| && i < |filled| && k == digest(texts[i]) && filled[i].Some?
  }

  /** Whatever is new in the cache belongs to a text with a vector. */
  ghost predicate NewDelivered(before: set<string>, after: set<string>, digest: string -> string, texts: seq<string>,
                               filled: seq<Option<Vector>>) {
    forall k | k in after && k !in before :: Delivered(digest, texts, filled, k)
  }

  lemma StillDelivered(digest: string -> string, texts: seq<string>, filled: seq<Option<Vector>>, at: nat, v: Vector)
    requires at < |filled| == |texts|
    ensures forall k | Delivered(digest, texts, filled, k) :: Delivered(digest, texts, filled[at := Some(v)], k)
    ensures Delivered(digest, texts, filled[at := Some(v)], digest(texts[at]))
  {
    var after := filled[at := Some(v)];
    assert after[at].Some?;
    forall k | Delivered(digest, texts, filled, k)
      ensures Delivered(digest, texts, after, k)
    {
      var i: nat :| i < |texts| && i < |filled| && k == digest(texts[i]) && filled[i].Some?;
      assert after[i].Some?;
    }
  }

  /** The keys of the texts among the first `n` sent that the response answers. */
  ghost function AnsweredKeys(digest: string -> string, sent: seq<string>, response: Response, n: nat): seq<string>
    requires n <= |sent|
  {
    if n == 0 then []
    else AnsweredKeys(digest, sent, response, n - 1) + if Answers(response, n - 1) then [digest(sent[n - 1])] else []
  }

  /** The answered ones among the first `n` have been touched in turn. */
  ghost predicate TouchedAnswers(before: seq<string>, touches: seq<string>, digest: string -> string, sent: seq<string>,
                                 response: Response, n: nat)
    requires n <= |sent|
  {
    touches == before + AnsweredKeys(digest, sent, response, n)
  }

  /** Every answer is the embedder's for the text at its position. */
  ghost predicate Right(texts: seq<string>, misses: seq<nat>, response: Response, embed: string -> Vector) {
    forall pos: nat | pos < |misses| && misses[pos] < |texts| && Answers(response, pos) ::
      response.items[pos].value == embed(texts[misses[pos]])
  }

  lemma {:induction false} NoneAnswered(digest: string -> string, sent: seq<string>, response: Response, n: nat)
    requires n <= |sent| && !response.Body?
    ensures AnsweredKeys(digest, sent, response, n) == []
  {
    if n > 0 {
      NoneAnswered(digest, sent, response, n - 1);
    }
  }

  /** Hits have vectors; a miss has one exactly when its position was answered, and else says why not. */
  ghost predicate Explained(texts: seq<string>, r: seq<Result>, misses: seq<nat>, response: Response)
    requires |r| == |texts| && forall m | 0 <= m < |misses| :: misses[m] < |texts|
  {
    && (forall i | 0 <= i < |texts| && i !in misses :: r[i].vector.Some?)
    && (forall pos: nat | pos < |misses| ::
          && (r[misses[pos]].vector.Some? <==> Answers(response, pos))
          && (!Answers(response, pos) ==>
                r[misses[pos]].error == Some(if response.Body? then "missing_embedding_in_response" else response.error)))
  }

  lemma OnlyHits(texts: seq<string>, found: seq<Option<Vector>>, misses: seq<nat>, response: Response, embed: string -> Vector)
    requires Split(texts, |texts|, found, misses, embed) && !response.Body?
    ensures Explained(texts, Fallback(texts, found, response.error), misses, response)
  {
  }

  lemma FilledExplained(texts: seq<string>, found: seq<Option<Vector>>, misses: seq<nat>, response: Response,
                        filled: seq<Option<Vector>>, embed: string -> Vector)
    requires Split(texts, |texts|, found, misses, embed) && response.Body?
    requires Merged(texts, found, misses, response, |misses|, filled, embed)
    ensures Explained(texts, Fallback(texts, filled, MISSING), misses, response)
  {
    forall i | 0 <= i < |texts| && i !in misses
      ensures filled[i].Some?
    {
      assert found[i].Some?;
    }
  }

  class Client {
    const cache: Cache
    const digest: string -> string

    ghost predicate Valid(embed: string -> Vector)
      reads this, cache
    {
      cache.Valid() && Injective(digest) && Agrees(cache.values, digest, embed)
    }

    constructor (digest: string -> string, maxSize: int, ghost embed: string -> Vector)
      requires Injective(digest)
      ensures Valid(embed) && fresh(cache) && this.digest == digest
    {
      this.digest := digest;
      cache := new Cache(maxSize);
    }

    /** One answer goes to its miss and into the cache, if there is one. */
    method MergeOne(texts: seq<string>, found: seq<Option<Vector>>, misses: seq<nat>, response: Response, pos: nat,
                    filled: seq<Option<Vector>>, ghost embed: string -> Vector, ghost before: set<string>, ghost touches: seq<string>)
      returns (filledNow: seq<Option<Vector>>)
      requires Valid(embed) && Split(texts, |texts|, found, misses, embed) && response.Body? && pos < |misses|
      requires NewDelivered(before, cache.values.Keys, digest, texts, filled)
      requires Merged(texts, found, misses, response, pos, filled, embed)
      requires Right(texts, misses, response, embed)
      requires TouchedAnswers(touches, cache.touches, digest, Pick(texts, misses), response, pos)
      modifies cache
      ensures Valid(embed) && Merged(texts, found, misses, response, pos + 1, filledNow, embed)
      ensures NewDelivered(before, cache.values.Keys, digest, texts, filledNow)
      ensures TouchedAnswers(touches, cache.touches, digest, Pick(texts, misses), response, pos + 1)
    {
      MergeStep(texts, found, misses, response, pos, filled, embed);
      filledNow := filled;
      if pos < |response.items| && response.items[pos].Some? {
        var at := misses[pos];
        StillDelivered(digest, texts, filled, at, response.items[pos].value);
        StoreNew(texts[at], embed, response.items[pos].value);
        filledNow := filled[at := response.items[pos]];
      }
    }

    /** Answers go to the positions of the misses, not of the texts: hits shift everything down. */
    method Merge(texts: seq<string>, found: seq<Option<Vector>>, misses: seq<nat>, response: Response, ghost embed: string -> Vector)
      returns (filled: seq<Option<Vector>>)
      requires Valid(embed) && Split(texts, |texts|, found, misses, embed) && response.Body?
      requires Right(texts, misses, response, embed)
      modifies cache
      ensures Valid(embed) && Merged(texts, found, misses, response, |misses|, filled, embed)
      ensures NewDelivered(old(cache.values.Keys), cache.values.Keys, digest, texts, filled)
      ensures TouchedAnswers(old(cache.touches), cache.touches, digest, Pick(texts, misses), response, |misses|)
    {
      filled := found;
      for pos: nat := 0 to |misses|
        invariant Valid(embed) && Merged(texts, found, misses, response, pos, filled, embed)
        invariant NewDelivered(old(cache.values.Keys), cache.values.Keys, digest, texts, filled)
        invariant TouchedAnswers(old(cache.touches), cache.touches, digest, Pick(texts, misses), response, pos)
      {
        filled := MergeOne(texts, found, misses, response, pos, filled, embed, old(cache.values.Keys), old(cache.touches));
      }
    }

    method StoreNew(text: string, ghost embed: string -> Vector, v: Vector)
      requires Valid(embed) && v == embed(text)
      modifies cache`keys, cache`values, cache`touches
      ensures Valid(embed) && cache.touches == old(cache.touches) + [digest(text)]
      ensures forall k | k in cache.values && k !in old(cache.values) :: k == digest(text)
    {
      cache.Set(digest(text), v);
    }

    /**
     One result per text in order, whatever the server does. A text fails exactly when it was not cached
     and the server did not answer its position, with the server's error or for want of a vector; nothing
     enters the cache but a vector just returned. Every hit and then every answered miss is touched, in order.
     */
    method Embed(texts: seq<string>, server: seq<string> -> Response, ghost embed: string -> Vector)
      returns (r: seq<Result>, ghost misses: seq<nat>)
      requires Valid(embed) && TruthfulServer(server, embed)
      modifies cache
      ensures Valid(embed) && Aligned(texts, r, embed) && Missed(old(cache.values.Keys), digest, texts, misses)
      ensures Explained(texts, r, misses, server(Pick(texts, misses)))
      ensures forall k | k in cache.values && k !in old(cache.values) :: exists i: nat :: i < |texts| && k == digest(texts[i]) && r[i].vector.Some?
      ensures cache.touches == old(cache.touches) + KeysBut(digest, texts, misses, |texts|) +
        AnsweredKeys(digest, Pick(texts, misses), server(Pick(texts, misses)), |misses|)
    {
      misses := [];
      if texts == [] {
        return [], [];
      }
      var found, missed := LookUp(cache, digest, texts, embed);
      misses := missed;
      if missed == [] {
        r := Fallback(texts, found, "not_cached");
        return;
      }
      r := EmbedMisses(texts, found, missed, server, embed);
    }

    /** The request for the misses, and what becomes of its response. */
    method EmbedMisses(texts: seq<string>, found: seq<Option<Vector>>, misses: seq<nat>, server: seq<string> -> Response,
                       ghost embed: string -> Vector)
      returns (r: seq<Result>)
      requires Valid(embed) && TruthfulServer(server, embed) && Split(texts, |texts|, found, misses, embed) && misses != []
      modifies cache
      ensures Valid(embed) && Aligned(texts, r, embed) && Explained(texts, r, misses, server(Pick(texts, misses)))
      ensures forall k | k in cache.values && k !in old(cache.values) :: exists i: nat :: i < |texts| && k == digest(texts[i]) && r[i].vector.Some?
      ensures cache.touches == old(cache.touches) + AnsweredKeys(digest, Pick(texts, misses), server(Pick(texts, misses)), |misses|)
    {
      var sent := Pick(texts, misses);
      var response := server(sent);
      if !response.Body? {
        r := Fallback(texts, found, response.error);
        NoneAnswered(digest, sent, response, |misses|);
        OnlyHits(texts, found, misses, response, embed);
        return;
      }
      var filled := Merge(texts, found, misses, response, embed);
      r := Fallback(texts, filled, MISSING);
      FilledExplained(texts, found, misses, response, filled, embed);
    }
  }
}
