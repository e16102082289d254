/** The text whose digest fingerprints a partition, and how faithfully it identifies the partition. */
module PartitionBlob {
  import opened Orders
  import opened Propagation
  import opened GraphComponents

  ghost predicate SamePartition(x: Labels, y: Labels) {
    x.Keys == y.Keys && forall u, v | u in x && v in x :: x[u] == x[v] <==> y[u] == y[v]
  }

  function Members(x: Labels, lab: nat): set<string> {
    set u | u in x && x[u] == lab
  }

  function Groups(x: Labels): set<set<string>> {
    set u | u in x :: Members(x, x[u])
  }

  /** The groups as sorted tuples, in sorted order. */
  function Canonical(groups: set<set<string>>): seq<seq<string>> {
    TupleLeqTotal();
    SortSet(TupleLeq, set c | c in groups :: Listing(c))
  }

  function Decimal(n: nat): string {
    if n < 10 then [('0' as int + n) as char] else Decimal(n / 10) + [('0' as int + n % 10) as char]
  }

  const SEPARATOR: char := 31 as char

  function Join(parts: seq<string>): string {
    if |parts| == 0 then ""
    else if |parts| == 1 then parts[0]
    else parts[0] + [SEPARATOR] + Join(parts[1..])
  }

  /** One group: its size, a colon, and its members joined by the unit separator. */
  function GroupText(group: seq<string>): string {
    Decimal(|group|) + ":" + Join(group)
  }

  function Text(canonical: seq<seq<string>>): string {
    if canonical == [] then "" else GroupText(canonical[0]) + Text(canonical[1..])
  }

  function Blob(x: Labels): string {
    Text(Canonical(Groups(x)))
  }

  ghost predicate Grouped(labels: Labels, done: set<string>, groups: map<nat, set<string>>) {
    && (forall u | u in done && u in labels :: labels[u] in groups && u in groups[labels[u]])
    && (forall l | l in groups :: groups[l] != {} && forall u | u in groups[l] :: u in done && u in labels && labels[u] == l)
  }

  method CollectGroups(labels: Labels) returns (groups: map<nat, set<string>>)
    ensures Grouped(labels, labels.Keys, groups)
  {
    groups := map[];
    var done, todo := {}, labels.Keys;
    while todo != {}
      invariant done == labels.Keys - todo
      invariant Grouped(labels, done, groups)
      decreases todo
    {
      var node :| node in todo;
      var lab := labels[node];
      groups := groups[lab := (if lab in groups then groups[lab] else {}) + {node}];
      done, todo := done + {node}, todo - {node};
    }
    assert done == labels.Keys;
  }

  lemma GroupedIsGroups(labels: Labels, groups: map<nat, set<string>>)
    requires Grouped(labels, labels.Keys, groups)
    ensures groups.Values == Groups(labels)
  {
    forall l | l in groups
      ensures groups[l] == Members(labels, l) && groups[l] in Groups(labels)
    {
      var u :| u in groups[l];
      assert labels[u] == l;
      assert groups[l] == Members(labels, l);
    }
    forall u | u in labels
      ensures Members(labels, labels[u]) in groups.Values
    {
      assert groups[labels[u]] == Members(labels, labels[u]);
    }
  }

  /** Collects the groups label by label, sorts them and writes them out. */
  method PartitionText(labels: Labels) returns (blob: string)
    ensures blob == Blob(labels)
  {
    var groups := CollectGroups(labels);
    GroupedIsGroups(labels, groups);
    var canonical := Canonical(groups.Values);
    blob := Render(canonical);
  }

  method Render(canonical: seq<seq<string>>) returns (blob: string)
    ensures blob == Text(canonical)
  {
    blob := "";
    for i := 0 to |canonical|
      invariant blob + Text(canonical[i..]) == Text(canonical)
    {
      assert canonical[i..][1..] == canonical[i + 1..];
      blob := blob + GroupText(canonical[i]);
    }
    assert canonical[|canonical|..] == [];
  }

  // ---------------------------------------------------------------------------------------------
  // Same partition, same text.

  lemma SamePartitionSameGroups(x: Labels, y: Labels)
    requires SamePartition(x, y)
    ensures Groups(x) == Groups(y)
  {
    forall u | u in x
      ensures Members(x, x[u]) == Members(y, y[u])
    {
    }
  }

  lemma SameGroupsSamePartition(x: Labels, y: Labels)
    requires Groups(x) == Groups(y)
    ensures SamePartition(x, y)
  {
    GroupsAreTheirMembers(x, y);
    GroupsAreTheirMembers(y, x);
  }

  lemma GroupsAreTheirMembers(x: Labels, y: Labels)
    requires Groups(x) == Groups(y)
    ensures forall u | u in x :: u in y && Members(x, x[u]) == Members(y, y[u])
    ensures x.Keys <= y.Keys
    ensures forall u, v | u in x && v in x && u in y && v in y && x[u] == x[v] :: y[u] == y[v]
  {
    forall u | u in x
      ensures u in y && Members(x, x[u]) == Members(y, y[u])
    {
      assert u in Members(x, x[u]) && Members(x, x[u]) in Groups(y);
      var w :| w in y && Members(y, y[w]) == Members(x, x[u]);
      assert u in Members(y, y[w]);
    }
    forall u, v | u in x && v in x && x[u] == x[v]
      ensures y[u] == y[v]
    {
      assert v in Members(x, x[u]);
    }
  }

  // ---------------------------------------------------------------------------------------------
  // The text can be read back when all node ids have one length.

  ghost predicate Digits(s: string) {
    forall c | c in s :: '0' <= c <= '9'
  }

  lemma {:induction false} DecimalIsDigits(n: nat)
    ensures Decimal(n) != [] && Digits(Decimal(n))
    ensures |Decimal(n)| > 1 <==> n >= 10
  {
    if n >= 10 {
      DecimalIsDigits(n / 10);
    }
  }

  lemma {:induction false} DecimalInjective(m: nat, n: nat)
    requires Decimal(m) == Decimal(n)
    ensures m == n
  {
    DecimalIsDigits(m);
    DecimalIsDigits(n);
    if m >= 10 {
      var a, b := Decimal(m / 10), Decimal(n / 10);
      assert Decimal(m)[..|a|] == a && Decimal(n)[..|b|] == b;
      assert Decimal(m)[|a|] == Decimal(n)[|b|];
      DecimalInjective(m / 10, n / 10);
    } else {
      assert Decimal(m)[0] == Decimal(n)[0];
    }
  }

  /** The colon that ends the number is the first colon of the text. */
  lemma FirstColon(n: nat, s: string)
    ensures
      var whole := Decimal(n) + ":" + s;
      whole[|Decimal(n)|] == ':' && forall i | 0 <= i < |Decimal(n)| :: whole[i] != ':'
  {
    DecimalIsDigits(n);
    forall i | 0 <= i < |Decimal(n)|
      ensures (Decimal(n) + ":" + s)[i] != ':'
    {
      assert Decimal(n)[i] in Decimal(n);
    }
  }

  /** A number followed by a colon is read back unambiguously, whatever follows. */
  lemma NumberIsReadBack(m: nat, n: nat, s: string, t: string)
    requires Decimal(m) + ":" + s == Decimal(n) + ":" + t
    ensures m == n && s == t
  {
    FirstColon(m, s);
    FirstColon(n, t);
    var a, b := Decimal(m), Decimal(n);
    var whole := a + ":" + s;
    assert |a| == |b|;
    assert a == whole[..|a|] == b;
    DecimalInjective(m, n);
    assert s == whole[|a| + 1..] == t;
  }

  ghost predicate AllOfLength(parts: seq<string>, length: nat) {
    forall p | p in parts :: |p| == length
  }

  lemma {:induction false} JoinIsReadBack(p: seq<string>, q: seq<string>, length: nat, s: string, t: string)
    requires |p| == |q| && AllOfLength(p, length) && AllOfLength(q, length)
    requires Join(p) + s == Join(q) + t
    ensures p == q && s == t
  {
    if |p| == 0 {
      assert "" + s == s && "" + t == t;
    } else {
      var whole := Join(p) + s;
      assert |p[0]| == |q[0]| == length;
      assert p[0] == whole[..length] == q[0];
      if |p| == 1 {
        assert s == whole[length..] == t;
      } else {
        assert Join(p[1..]) + s == whole[length + 1..] == Join(q[1..]) + t;
        JoinIsReadBack(p[1..], q[1..], length, s, t);
        assert p == [p[0]] + p[1..] && q == [q[0]] + q[1..];
      }
    }
  }

  lemma TextIsEmptyIff(a: seq<seq<string>>)
    ensures Text(a) == "" <==> a == []
  {
  }

  lemma {:induction false} TextIsReadBack(a: seq<seq<string>>, b: seq<seq<string>>, length: nat)
    requires forall group | group in a + b :: AllOfLength(group, length)
    requires Text(a) == Text(b)
    ensures a == b
  {
    TextIsEmptyIff(a);
    TextIsEmptyIff(b);
    if a != [] {
      var s, t := Join(a[0]) + Text(a[1..]), Join(b[0]) + Text(b[1..]);
      assert Text(a) == Decimal(|a[0]|) + ":" + s;
      assert Text(b) == Decimal(|b[0]|) + ":" + t;
      NumberIsReadBack(|a[0]|, |b[0]|, s, t);
      assert a[0] in a + b && b[0] in a + b;
      JoinIsReadBack(a[0], b[0], length, Text(a[1..]), Text(b[1..]));
      TextIsReadBack(a[1..], b[1..], length);
      assert a == [a[0]] + a[1..] && b == [b[0]] + b[1..];
    }
  }

  lemma ListingInjective(c: set<string>, d: set<string>)
    requires Listing(c) == Listing(d)
    ensures c == d
  {
    ListingHolds(c);
    ListingHolds(d);
  }

  lemma CanonicalHolds(groups: set<set<string>>)
    ensures forall c | c in groups :: Listing(c) in Canonical(groups)
    ensures forall l | l in Canonical(groups) :: exists c :: c in groups && l == Listing(c)
  {
    TupleLeqTotal();
  }

  lemma CanonicalSubset(a: set<set<string>>, b: set<set<string>>)
    requires Canonical(a) == Canonical(b)
    ensures a <= b
  {
    CanonicalHolds(a);
    CanonicalHolds(b);
    forall c | c in a
      ensures c in b
    {
      var d :| d in b && Listing(c) == Listing(d);
      ListingInjective(c, d);
    }
  }

  lemma CanonicalOfLength(x: Labels, length: nat)
    requires forall u | u in x :: |u| == length
    ensures forall group | group in Canonical(Groups(x)) :: AllOfLength(group, length)
  {
    CanonicalHolds(Groups(x));
    forall group | group in Canonical(Groups(x))
      ensures AllOfLength(group, length)
    {
      var c :| c in Groups(x) && group == Listing(c);
      ListingHolds(c);
    }
  }

  /**
   The fingerprinted text depends on the partition alone, not on the numbering of its groups; and
   when all node ids have one length it identifies the partition.
   */
  lemma BlobIdentifiesPartition(x: Labels, y: Labels, length: nat)
    requires forall u | u in x.Keys + y.Keys :: |u| == length
    ensures Blob(x) == Blob(y) <==> SamePartition(x, y)
  {
    if SamePartition(x, y) {
      SamePartitionSameGroups(x, y);
    }
    if Blob(x) == Blob(y) {
      CanonicalOfLength(x, length);
      CanonicalOfLength(y, length);
      TextIsReadBack(Canonical(Groups(x)), Canonical(Groups(y)), length);
      CanonicalSubset(Groups(x), Groups(y));
      CanonicalSubset(Groups(y), Groups(x));
      SameGroupsSamePartition(x, y);
    }
  }
}
