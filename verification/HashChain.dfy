/** The hash chain shared by the journal, its witnesses and the workstation events:
    `entry_hash = sha256(prev_hash + body)`, starting from the literal `GENESIS`.

    SHA-256 is a parameter: any function from texts to digests.  Nothing is assumed about collisions in
    general (no function is injective into 64 characters); the binding theorem takes the hypothesis that
    the finite set of texts actually hashed contains no collision. */
module HashChain {

  type Sha = string -> string

  const GENESIS := "GENESIS"

  predicate IsHex(c: char) { '0' <= c <= '9' || 'a' <= c <= 'f' }

  /** The output of `hexdigest`. */
  predicate IsDigest(h: string) { |h| == 64 && forall c <- h :: IsHex(c) }

  ghost predicate Digests(sha: Sha) { forall s :: IsDigest(sha(s)) }

  ghost predicate NoCollision(sha: Sha, texts: set<string>) {
    forall s, t :: s in texts && t in texts && sha(s) == sha(t) ==> s == t
  }

  /** One chained row: what is chained, and the two stored hashes. */
  datatype Link = Link(body: string, prev: string, hash: string)

  /** The hash the next link must point to. */
  function Tip(links: seq<Link>): string {
    if links == [] then GENESIS else links[|links| - 1].hash
  }

  predicate Follows(sha: Sha, tip: string, link: Link) {
    link.prev == tip && link.hash == sha(link.prev + link.body)
  }

  predicate Chained(sha: Sha, links: seq<Link>) {
    links == [] || (Chained(sha, links[..|links| - 1]) && Follows(sha, Tip(links[..|links| - 1]), links[|links| - 1]))
  }

  /** The link that a writer appends to a chain. */
  function NextLink(sha: Sha, links: seq<Link>, body: string): Link {
    Link(body, Tip(links), sha(Tip(links) + body))
  }

  lemma AppendKeepsChain(sha: Sha, links: seq<Link>, body: string)
    requires Chained(sha, links)
    ensures Chained(sha, links + [NextLink(sha, links, body)])
  {
    assert (links + [NextLink(sha, links, body)])[..|links|] == links;
  }

  lemma {:induction false} PrefixChained(sha: Sha, links: seq<Link>, n: nat)
    requires Chained(sha, links) && n <= |links|
    ensures Chained(sha, links[..n])
  {
    if n < |links| {
      PrefixChained(sha, links[..|links| - 1], n);
      assert links[..|links| - 1][..n] == links[..n];
    } else {
      assert links[..n] == links;
    }
  }

  /** The link names the hash of the one before, or the literal that starts every chain, and carries the hash of that
      name followed by its own body. */
  predicate LinkedAt(sha: Sha, links: seq<Link>, i: nat)
    requires i < |links|
  {
    && links[i].prev == (if i == 0 then "GENESIS" else links[i - 1].hash)
    && links[i].hash == sha(links[i].prev + links[i].body)
  }

  /** A chain, link by link. */
  lemma {:induction false} ChainedIff(sha: Sha, links: seq<Link>)
    ensures Chained(sha, links) <==> forall i :: 0 <= i < |links| ==> LinkedAt(sha, links, i)
  {
    if links != [] {
      var front, k := links[..|links| - 1], |links| - 1;
      ChainedIff(sha, front);
      assert LinkedAt(sha, links, k) <==> Follows(sha, Tip(front), links[k]);
      assert forall i :: 0 <= i < k ==> (LinkedAt(sha, links, i) <==> LinkedAt(sha, front, i));
    }
  }

  /** The texts hashed when a chain is verified. */
  function Hashed(links: seq<Link>): set<string> { set l <- links :: l.prev + l.body }

  ghost predicate JsonBodies(links: seq<Link>) { forall l <- links :: l.body != "" && l.body[0] == '{' }

  lemma {:induction false} TipShape(sha: Sha, links: seq<Link>)
    requires Digests(sha) && Chained(sha, links)
    ensures links == [] ==> Tip(links) == GENESIS
    ensures links != [] ==> IsDigest(Tip(links))
    ensures '{' !in Tip(links)
  {
  }

  /** `prev_hash + payload` splits in one way only. */
  lemma SplitInput(p: string, q: string, x: string, y: string)
    requires '{' !in p && '{' !in q && x != "" && y != "" && x[0] == '{' && y[0] == '{'
    requires p + x == q + y
    ensures p == q && x == y
  {
    var l := p + x;
    assert l[|p|] == '{' && l[|q|] == '{';
    assert forall i :: 0 <= i < |p| ==> l[i] == p[i];
    assert forall i :: 0 <= i < |q| ==> l[i] == q[i];
    assert |p| == |q|;
    assert p == l[..|p|] && q == l[..|q|] && x == l[|p|..] && y == l[|q|..];
  }

  /** Two non-empty chains that end in the same hash end in the same link. */
  lemma LastLinkBinding(sha: Sha, a: seq<Link>, b: seq<Link>, texts: set<string>)
    requires Digests(sha) && NoCollision(sha, texts)
    requires Chained(sha, a) && Chained(sha, b) && JsonBodies(a) && JsonBodies(b)
    requires Hashed(a) <= texts && Hashed(b) <= texts
    requires a != [] && b != [] && Tip(a) == Tip(b)
    ensures a[|a| - 1] == b[|b| - 1] && Tip(a[..|a| - 1]) == Tip(b[..|b| - 1])
  {
    var x, y := a[|a| - 1], b[|b| - 1];
    assert x in a && y in b;
    assert x.prev + x.body in Hashed(a) && y.prev + y.body in Hashed(b);
    TipShape(sha, a[..|a| - 1]);
    TipShape(sha, b[..|b| - 1]);
    SplitInput(x.prev, y.prev, x.body, y.body);
  }

  lemma FrontInputs(a: seq<Link>)
    requires a != []
    ensures Hashed(a[..|a| - 1]) <= Hashed(a)
    ensures JsonBodies(a) ==> JsonBodies(a[..|a| - 1])
  {
    assert forall l <- a[..|a| - 1] :: l in a;
  }

  /** Binding: two chains that end in the same hash are the same chain, link for link. */
  lemma {:induction false} Binding(sha: Sha, a: seq<Link>, b: seq<Link>, texts: set<string>)
    requires Digests(sha) && NoCollision(sha, texts)
    requires Chained(sha, a) && Chained(sha, b) && JsonBodies(a) && JsonBodies(b)
    requires Hashed(a) <= texts && Hashed(b) <= texts
    requires Tip(a) == Tip(b)
    ensures a == b
  {
    TipShape(sha, a);
    TipShape(sha, b);
    hide Hashed, JsonBodies, NoCollision, Digests;
    if a != [] && b != [] {
      LastLinkBinding(sha, a, b, texts);
      FrontInputs(a);
      FrontInputs(b);
      Binding(sha, a[..|a| - 1], b[..|b| - 1], texts);
      assert a == a[..|a| - 1] + [a[|a| - 1]] && b == b[..|b| - 1] + [b[|b| - 1]];
    }
  }
}
