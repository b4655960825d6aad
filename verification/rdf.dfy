/** An already-parsed RDF graph as a sequence of triples, and the rdflib queries the
    subject transformers issue against it: `triples((s, p, None))`, `subjects(p, o)` and
    `transitive_objects(s, p)`. */
module Rdf {
  import opened Wrappers
  import opened Seqs

  const SKOS_CORE := "http://www.w3.org/2004/02/skos/core#"
  const NOTATION := SKOS_CORE + "notation"
  const PREF_LABEL := SKOS_CORE + "prefLabel"
  const ALT_LABEL := SKOS_CORE + "altLabel"
  const BROADER := SKOS_CORE + "broader"
  const MEMBER := SKOS_CORE + "member"

  /** A node: an IRI, or a literal with an optional language tag. */
  datatype Term = Iri(iri: string) | Literal(lexical: string, lang: Option<string>)

  datatype Triple = Triple(s: Term, p: string, o: Term)

  /** The graph in the order rdflib enumerates its triples. */
  type Graph = seq<Triple>

  /** `str(term)`. */
  function Str(t: Term): string {
    match t
    case Iri(iri) => iri
    case Literal(lexical, _) => lexical
  }

  /** The objects of the triples `(s, p, _)`, in triple order. */
  function Objects(g: Graph, s: Term, p: string): (r: seq<Term>)
    ensures |r| <= |g|
    ensures forall o :: o in r <==> Triple(s, p, o) in g
  {
    if g == [] then []
    else
      var rest := Objects(g[1..], s, p);
      assert forall t :: t in g <==> t == g[0] || t in g[1..];
      if g[0].s == s && g[0].p == p then [g[0].o] + rest else rest
  }

  /** `Objects` keeps triple order: the objects of a concatenation are those of each part
      in turn, and a single triple gives its object exactly when it matches. */
  lemma {:induction false} ObjectsAppend(a: Graph, b: Graph, s: Term, p: string)
    ensures Objects(a + b, s, p) == Objects(a, s, p) + Objects(b, s, p)
    ensures |a| == 1 ==> Objects(a, s, p) == (if a[0].s == s && a[0].p == p then [a[0].o] else [])
  {
    if a == [] {
      assert a + b == b;
    } else {
      assert (a + b)[0] == a[0] && (a + b)[1..] == a[1..] + b;
      ObjectsAppend(a[1..], b, s, p);
      var h := if a[0].s == s && a[0].p == p then [a[0].o] else [];
      AppendAssociative(h, Objects(a[1..], s, p), Objects(b, s, p));
    }
  }

  /** The subjects of the triples `(_, p, o)`, in triple order. */
  function Subjects(g: Graph, p: string, o: Term): (r: seq<Term>)
    ensures |r| <= |g|
    ensures forall x :: x in r <==> Triple(x, p, o) in g
  {
    if g == [] then []
    else
      var rest := Subjects(g[1..], p, o);
      assert forall t :: t in g <==> t == g[0] || t in g[1..];
      if g[0].p == p && g[0].o == o then [g[0].s] + rest else rest
  }

  /** `Subjects` keeps triple order: the subjects of a concatenation are those of each part
      in turn, and a single triple gives its subject exactly when it matches. */
  lemma {:induction false} SubjectsAppend(a: Graph, b: Graph, p: string, o: Term)
    ensures Subjects(a + b, p, o) == Subjects(a, p, o) + Subjects(b, p, o)
    ensures |a| == 1 ==> Subjects(a, p, o) == (if a[0].p == p && a[0].o == o then [a[0].s] else [])
  {
    if a == [] {
      assert a + b == b;
    } else {
      assert (a + b)[0] == a[0] && (a + b)[1..] == a[1..] + b;
      SubjectsAppend(a[1..], b, p, o);
      var h := if a[0].p == p && a[0].o == o then [a[0].s] else [];
      AppendAssociative(h, Subjects(a[1..], p, o), Subjects(b, p, o));
    }
  }

  /** The first object rdflib yields for `(s, p, None)`, if any. */
  function FirstObject(g: Graph, s: Term, p: string): Option<Term> {
    if g == [] then None
    else if g[0].s == s && g[0].p == p then Some(g[0].o)
    else FirstObject(g[1..], s, p)
  }

  /** `FirstObject` is the object of the earliest triple `(s, p, _)`, and `None` exactly when
      there is no such triple. */
  lemma {:induction false} FirstObjectIsEarliest(g: Graph, s: Term, p: string)
    ensures FirstObject(g, s, p).None? <==> forall i :: 0 <= i < |g| ==> !(g[i].s == s && g[i].p == p)
    ensures FirstObject(g, s, p).Some? ==>
              exists i :: 0 <= i < |g| && g[i] == Triple(s, p, FirstObject(g, s, p).value)
                && forall j :: 0 <= j < i ==> !(g[j].s == s && g[j].p == p)
  {
    if g != [] && !(g[0].s == s && g[0].p == p) {
      FirstObjectIsEarliest(g[1..], s, p);
      assert forall i :: 1 <= i < |g| ==> g[i] == g[1..][i - 1];
      if FirstObject(g, s, p).Some? {
        var i :| 0 <= i < |g[1..]| && g[1..][i] == Triple(s, p, FirstObject(g, s, p).value)
                 && forall j :: 0 <= j < i ==> !(g[1..][j].s == s && g[1..][j].p == p);
        assert g[i + 1] == g[1..][i];
      }
    }
  }

  /** The literal objects of the triples `(s, p, _)` as (language, value) pairs, in triple order. */
  function LiteralLabels(g: Graph, s: Term, p: string): (r: seq<(Option<string>, string)>)
    ensures |r| <= |g|
    ensures forall lang, v :: (lang, v) in r <==> Triple(s, p, Literal(v, lang)) in g
  {
    if g == [] then []
    else
      var rest := LiteralLabels(g[1..], s, p);
      assert forall t :: t in g <==> t == g[0] || t in g[1..];
      if g[0].s == s && g[0].p == p && g[0].o.Literal? then [(g[0].o.lang, g[0].o.lexical)] + rest else rest
  }

  /** `LiteralLabels` keeps triple order: the labels of a concatenation are those of each
      part in turn, and a single triple gives its (language, value) pair exactly when it is a
      matching literal. */
  lemma {:induction false} LiteralLabelsAppend(a: Graph, b: Graph, s: Term, p: string)
    ensures LiteralLabels(a + b, s, p) == LiteralLabels(a, s, p) + LiteralLabels(b, s, p)
    ensures |a| == 1 ==>
              LiteralLabels(a, s, p) == (if a[0].s == s && a[0].p == p && a[0].o.Literal? then [(a[0].o.lang, a[0].o.lexical)] else [])
  {
    if a == [] {
      assert a + b == b;
    } else {
      assert (a + b)[0] == a[0] && (a + b)[1..] == a[1..] + b;
      LiteralLabelsAppend(a[1..], b, s, p);
      var h := if a[0].s == s && a[0].p == p && a[0].o.Literal? then [(a[0].o.lang, a[0].o.lexical)] else [];
      AppendAssociative(h, LiteralLabels(a[1..], s, p), LiteralLabels(b, s, p));
    }
  }

  /** Every object of `(s, p, _)` is a literal. */
  predicate ObjectsAreLiterals(g: Graph, s: Term, p: string) {
    forall i :: 0 <= i < |g| && g[i].s == s && g[i].p == p ==> g[i].o.Literal?
  }

  /** Every object of `(s, p, _)` is a literal with a language tag. */
  predicate ObjectsAreTaggedLiterals(g: Graph, s: Term, p: string) {
    forall i :: 0 <= i < |g| && g[i].s == s && g[i].p == p ==> g[i].o.Literal? && g[i].o.lang.Some?
  }

  /** Every object of the graph. */
  function AllObjects(g: Graph): set<Term> {
    set i | 0 <= i < |g| :: g[i].o
  }

  /** The nodes one `p`-edge away from `x`. */
  function Successors(g: Graph, p: string, x: Term): set<Term> {
    set i | 0 <= i < |g| && g[i].s == x && g[i].p == p :: g[i].o
  }

  /** `S` has every `p`-successor of each of its members. */
  ghost predicate ClosedUnder(g: Graph, p: string, S: set<Term>) {
    forall x :: x in S ==> Successors(g, p, x) <= S
  }

  /** The elements of a sequence, as a set. */
  function Elems(xs: seq<Term>): (r: set<Term>)
    ensures forall x :: x in r <==> x in xs
  {
    set x | x in xs
  }

  /** The elements of `xs` not in `seen`, in order. */
  function Unseen(xs: seq<Term>, seen: set<Term>): (r: seq<Term>)
    ensures forall x :: x in r <==> x in xs && x !in seen
  {
    if xs == [] then []
    else if xs[0] in seen then Unseen(xs[1..], seen)
    else [xs[0]] + Unseen(xs[1..], seen)
  }

  /** The `p`-successors of `x` not seen yet, in triple order. */
  function NewSuccessors(g: Graph, p: string, seen: set<Term>, x: Term): (next: seq<Term>)
    ensures forall y :: y in next <==> y in Successors(g, p, x) && y !in seen
    ensures Elems(next) <= AllObjects(g)
  {
    var next := Unseen(Objects(g, x, p), seen);
    assert forall y :: y in Successors(g, p, x) <==> Triple(x, p, y) in g by {
      forall y | Triple(x, p, y) in g
        ensures y in Successors(g, p, x)
      {
        var i :| 0 <= i < |g| && g[i] == Triple(x, p, y);
      }
    }
    next
  }

  lemma ProperSubsetSmaller(a: set<Term>, b: set<Term>)
    requires a < b
    ensures |a| < |b|
  {
    var d := b - a;
    assert b == a + d;
    assert a * d == {};
    var x :| x in d;
    assert {x} <= d;
  }

  /** Seeing new objects of the graph shrinks the set of unseen ones. */
  lemma UnseenShrinks(g: Graph, seen: set<Term>, next: seq<Term>)
    requires next != []
    requires Elems(next) <= AllObjects(g)
    requires forall y :: y in next ==> y !in seen
    ensures |AllObjects(g) - (seen + Elems(next))| < |AllObjects(g) - seen|
  {
    assert next[0] in AllObjects(g) - seen;
    ProperSubsetSmaller(AllObjects(g) - (seen + Elems(next)), AllObjects(g) - seen);
  }

  /** Taking the head off a queue of seen nodes and appending new ones, now seen too,
      leaves a queue of seen nodes. */
  lemma QueueStaysSeen(seen: set<Term>, queue: seq<Term>, next: seq<Term>)
    requires queue != [] && forall i :: 0 <= i < |queue| ==> queue[i] in seen
    ensures forall i :: 0 <= i < |queue[1..] + next| ==> (queue[1..] + next)[i] in seen + Elems(next)
  {
    var queue' := queue[1..] + next;
    forall i | 0 <= i < |queue'|
      ensures queue'[i] in seen + Elems(next)
    {
      if i < |queue| - 1 {
        assert queue'[i] == queue[i + 1];
      } else {
        assert queue'[i] in next;
      }
    }
  }

  /** Breadth-first exploration: every node reachable from `queue` along `p`-edges, added to `seen`. */
  function Explore(g: Graph, p: string, seen: set<Term>, queue: seq<Term>): (r: set<Term>)
    requires forall i :: 0 <= i < |queue| ==> queue[i] in seen
    ensures seen <= r
    decreases |AllObjects(g) - seen|, |queue|
  {
    if queue == [] then seen
    else
      var next := NewSuccessors(g, p, seen, queue[0]);
      if next == [] then
        Explore(g, p, seen, queue[1..])
      else
        UnseenShrinks(g, seen, next);
        var seen' := seen + Elems(next);
        var queue' := queue[1..] + next;
        QueueStaysSeen(seen, queue, next);
        Explore(g, p, seen', queue')
  }

  /** Exploration ends with a set closed under `p`, provided every seen node that has left
      the queue already had its successors seen. */
  lemma {:induction false} ExploreClosed(g: Graph, p: string, seen: set<Term>, queue: seq<Term>)
    requires forall i :: 0 <= i < |queue| ==> queue[i] in seen
    requires forall x :: x in seen && x !in queue ==> Successors(g, p, x) <= seen
    ensures ClosedUnder(g, p, Explore(g, p, seen, queue))
    decreases |AllObjects(g) - seen|, |queue|
  {
    if queue != [] {
      var next := NewSuccessors(g, p, seen, queue[0]);
      var seen' := seen + Elems(next);
      var queue' := queue[1..] + next;
      QueueStaysSeen(seen, queue, next);
      forall x | x in seen' && x !in queue'
        ensures Successors(g, p, x) <= seen'
      {
        assert x !in next;
        assert x in seen;
      }
      if next == [] {
        assert seen' == seen && queue' == queue[1..];
        ExploreClosed(g, p, seen, queue[1..]);
      } else {
        UnseenShrinks(g, seen, next);
        ExploreClosed(g, p, seen', queue');
      }
    }
  }

  /** Exploration stays inside every `p`-closed set that holds what has been seen. */
  lemma {:induction false} ExploreLeast(g: Graph, p: string, seen: set<Term>, queue: seq<Term>, S: set<Term>)
    requires forall i :: 0 <= i < |queue| ==> queue[i] in seen
    requires seen <= S && ClosedUnder(g, p, S)
    ensures Explore(g, p, seen, queue) <= S
    decreases |AllObjects(g) - seen|, |queue|
  {
    if queue != [] {
      var next := NewSuccessors(g, p, seen, queue[0]);
      assert Successors(g, p, queue[0]) <= S;
      if next == [] {
        ExploreLeast(g, p, seen, queue[1..], S);
      } else {
        UnseenShrinks(g, seen, next);
        QueueStaysSeen(seen, queue, next);
        ExploreLeast(g, p, seen + Elems(next), queue[1..] + next, S);
      }
    }
  }

  /** `transitive_objects(s, p)` as a set: `s` and every node reachable from it along `p`-edges. */
  function TransitiveObjects(g: Graph, s: Term, p: string): (r: set<Term>)
    ensures s in r
  {
    Explore(g, p, {s}, [s])
  }

  /** The reachable set is the least `p`-closed set containing `s`. */
  lemma TransitiveObjectsIsLeastClosedSet(g: Graph, s: Term, p: string, S: set<Term>)
    ensures ClosedUnder(g, p, TransitiveObjects(g, s, p))
    ensures s in S && ClosedUnder(g, p, S) ==> TransitiveObjects(g, s, p) <= S
  {
    ExploreClosed(g, p, {s}, [s]);
    if s in S && ClosedUnder(g, p, S) {
      ExploreLeast(g, p, {s}, [s], S);
    }
  }
}
