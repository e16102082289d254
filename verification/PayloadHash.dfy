/** The text an episode's hash is taken of, and when it identifies the episode. */
module PayloadHash {

  datatype Payload = Payload(content: string, group: string, source: string)

  function Preimage(p: Payload): string {
    p.content + "|" + p.group + "|" + p.source
  }

  function Pipes(s: string): nat {
    if s == "" then 0 else (if s[0] == '|' then 1 else 0) + Pipes(s[1..])
  }

  lemma {:induction false} PipesAdd(s: string, t: string)
    ensures Pipes(s + t) == Pipes(s) + Pipes(t)
  {
    if s == "" {
      assert s + t == t;
    } else {
      assert (s + t)[1..] == s[1..] + t;
      PipesAdd(s[1..], t);
    }
  }

  /** A text is cut at a pipe in one way only for each number of pipes left in the tail. */
  lemma CutsAgree(a: string, x: string, b: string, y: string)
    requires a + "|" + x == b + "|" + y && Pipes(x) == Pipes(y)
    ensures a == b && x == y
  {
    if |a| < |b| {
      LaterCut(a, x, b, y);
    } else if |b| < |a| {
      LaterCut(b, y, a, x);
    } else {
      assert a == (a + "|" + x)[..|a|] && b == (b + "|" + y)[..|b|];
      assert x == (a + "|" + x)[|a| + 1..] && y == (b + "|" + y)[|b| + 1..];
    }
  }

  /** Of two ways to cut a text at a pipe, the earlier leaves more pipes in the tail. */
  lemma LaterCut(a: string, x: string, b: string, y: string)
    requires a + "|" + x == b + "|" + y && |a| < |b|
    ensures Pipes(x) > Pipes(y)
  {
    var whole := a + "|" + x;
    assert x == whole[|a| + 1..];
    assert whole == b + ("|" + y);
    var middle := b[|a| + 1..];
    assert x == middle + ("|" + y);
    PipesAdd(middle, "|" + y);
    PipesAdd("|", y);
    assert Pipes("|") == 1;
  }

  lemma PreimageCut(p: Payload)
    ensures Preimage(p) == (p.content + "|" + p.group) + "|" + p.source
    ensures Preimage(p) == p.content + "|" + (p.group + "|" + p.source)
    ensures Pipes(p.group + "|" + p.source) == Pipes(p.group) + 1 + Pipes(p.source)
  {
    assert p.group + "|" + p.source == p.group + ("|" + p.source);
    assert Preimage(p) == p.content + "|" + (p.group + "|" + p.source);
    PipesAdd(p.group, "|" + p.source);
    PipesAdd("|", p.source);
    assert Pipes("|") == 1;
  }

  /** Payloads of one preimage are the same payload exactly when their labels hold as many pipes each. */
  lemma SamePreimageIff(p: Payload, q: Payload)
    requires Preimage(p) == Preimage(q)
    ensures p == q <==> Pipes(p.group) == Pipes(q.group) && Pipes(p.source) == Pipes(q.source)
  {
    PreimageCut(p);
    PreimageCut(q);
    if Pipes(p.group) == Pipes(q.group) && Pipes(p.source) == Pipes(q.source) {
      CutsAgree(p.content + "|" + p.group, p.source, q.content + "|" + q.group, q.source);
      CutsAgree(p.content, p.group + "|" + p.source, q.content, q.group + "|" + q.source);
      CutsAgree(p.content, p.group, q.content, q.group);
    }
  }

  lemma {:induction false} NoPipes(s: string)
    requires '|' !in s
    ensures Pipes(s) == 0
  {
    if s != "" {
      NoPipes(s[1..]);
    }
  }

  /** While neither label holds a pipe, whatever the content holds, the preimage identifies the payload. */
  lemma PipeFreeLabelsIdentify(p: Payload, q: Payload)
    requires '|' !in p.group && '|' !in p.source && '|' !in q.group && '|' !in q.source
    ensures Preimage(p) == Preimage(q) <==> p == q
  {
    NoPipes(p.group);
    NoPipes(p.source);
    NoPipes(q.group);
    NoPipes(q.source);
    if Preimage(p) == Preimage(q) {
      SamePreimageIff(p, q);
    }
  }

  /** A pipe in the source alone is enough to lose that: the content may end where the other's goes on. */
  lemma PipeInSourceCollides()
    ensures Preimage(Payload("a", "b", "c|d")) == Preimage(Payload("a|b", "c", "d"))
    ensures Payload("a", "b", "c|d") != Payload("a|b", "c", "d")
  {
    assert Preimage(Payload("a", "b", "c|d")) == "a|b|c|d";
    assert Preimage(Payload("a|b", "c", "d")) == "a|b|c|d";
  }
}
