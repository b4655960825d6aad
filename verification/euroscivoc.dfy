/** The EuroSciVoc subject transformer: one SKOS concept of the graph becomes a subject
    record with a numeric `euroscivoc:` id, its labels, and its chain of broader concepts. */
module EuroSciVoc {
  import opened Wrappers
  import opened Text
  import opened Rdf
  import opened LabelMaps
  import opened SubjectRecords
  import opened Seqs

  const SCHEME := "EuroSciVoc"
  const ID_PREFIX := "euroscivoc:"

  /** `t` is a `skos:notation` of `s` whose string is all digits. */
  predicate IsNumericNotation(t: Triple, s: Term) {
    t.s == s && t.p == NOTATION && IsDigits(Str(t.o))
  }

  /** `_get_notation`: the first numeric notation of `s` in triple order. */
  function GetNotation(g: Graph, s: Term): (r: Option<string>)
    ensures r.Some? ==> IsDigits(r.value)
  {
    if g == [] then None
    else if IsNumericNotation(g[0], s) then Some(Str(g[0].o))
    else GetNotation(g[1..], s)
  }

  /** `_get_notation` returns `None` exactly when no notation of `s` is all digits. */
  lemma {:induction false} GetNotationNoneIffNoNumeric(g: Graph, s: Term)
    ensures GetNotation(g, s).None? <==> forall i :: 0 <= i < |g| ==> !IsNumericNotation(g[i], s)
  {
    if g != [] && !IsNumericNotation(g[0], s) {
      GetNotationNoneIffNoNumeric(g[1..], s);
      assert forall i :: 1 <= i < |g| ==> g[i] == g[1..][i - 1];
    }
  }

  /** `_get_notation` returns the earliest notation of `s` that is all digits, skipping any
      other notation (a UUID, say) before it. */
  lemma {:induction false} GetNotationIsFirstNumeric(g: Graph, s: Term, i: nat)
    requires i < |g| && IsNumericNotation(g[i], s)
    requires forall j :: 0 <= j < i ==> !IsNumericNotation(g[j], s)
    ensures GetNotation(g, s) == Some(Str(g[i].o))
  {
    if i > 0 {
      assert forall j :: 0 <= j < i - 1 ==> g[1..][j] == g[j + 1];
      GetNotationIsFirstNumeric(g[1..], s, i - 1);
    }
  }

  /** The prefLabels of `s` as (language, value) pairs. */
  function PrefPairs(g: Graph, s: Term): seq<(Lang, string)> {
    LiteralLabels(g, s, PREF_LABEL)
  }

  /** The altLabels of `s` as (language, value) pairs. */
  function AltPairs(g: Graph, s: Term): seq<(Lang, string)> {
    LiteralLabels(g, s, ALT_LABEL)
  }

  /** The inputs on which `_get_labels` does not fail: it reads `.language` of every
      prefLabel object, and of every altLabel object when no `en` prefLabel exists, and
      only a literal has one. */
  predicate LabelsReadable(g: Graph, s: Term) {
    && ObjectsAreLiterals(g, s, PREF_LABEL)
    && (EN !in Keys(PrefPairs(g, s)) ==> ObjectsAreLiterals(g, s, ALT_LABEL))
  }

  /** `_get_labels`: every prefLabel language maps to its last prefLabel; only when there is
      no `en` prefLabel, each further altLabel language maps to its first altLabel. */
  function GetLabels(g: Graph, s: Term): (r: map<Lang, string>)
    requires LabelsReadable(g, s)
    ensures var prefs := PrefPairs(g, s);
            r.Keys == Keys(prefs) + (if EN in Keys(prefs) then {} else Keys(AltPairs(g, s)))
    ensures forall k :: k in Keys(PrefPairs(g, s)) ==> IsLastValue(PrefPairs(g, s), k, r[k])
    ensures EN !in Keys(PrefPairs(g, s)) ==>
              forall k :: k in Keys(AltPairs(g, s)) && k !in Keys(PrefPairs(g, s)) ==> IsFirstValue(AltPairs(g, s), k, r[k])
  {
    var labels := AssignAll(map[], PrefPairs(g, s));
    if EN in labels then labels else SetDefaultAll(labels, AltPairs(g, s))
  }

  /** The first `skos:broader` object of `x`: the parent the walk follows. */
  function FirstBroader(g: Graph, x: Term): Option<Term> {
    FirstObject(g, x, BROADER)
  }

  /** `c` is the walk from `s` that follows the first broader triple at each step until a
      concept without one: `c[i]` is the first broader of its predecessor and the last
      element (or `s` itself, when `c` is empty) has no broader. */
  ghost predicate IsFirstBroaderChain(g: Graph, s: Term, c: seq<Term>) {
    && (forall i :: 0 <= i < |c| ==> FirstBroader(g, ([s] + c)[i]) == Some(c[i]))
    && FirstBroader(g, ([s] + c)[|c|]).None?
  }

  /** The ancestors of `s`, nearest first, along first-broader edges; `None` when the walk
      takes more than `fuel` steps, as it does forever on a cycle. */
  function BroaderChain(g: Graph, s: Term, fuel: nat): (r: Option<seq<Term>>)
    ensures r.Some? ==> |r.value| <= fuel
    decreases fuel
  {
    match FirstBroader(g, s)
    case None => Some([])
    case Some(p) =>
      if fuel == 0 then None
      else
        match BroaderChain(g, p, fuel - 1)
        case None => None
        case Some(rest) => Some([p] + rest)
  }

  /** The ancestors the walk returns are exactly the first-broader walk from `s` to a concept
      without a broader triple. */
  lemma {:induction false} BroaderChainFollowsFirstBroader(g: Graph, s: Term, fuel: nat)
    requires BroaderChain(g, s, fuel).Some?
    ensures IsFirstBroaderChain(g, s, BroaderChain(g, s, fuel).value)
    decreases fuel
  {
    match FirstBroader(g, s)
    case None =>
    case Some(p) =>
      var rest := BroaderChain(g, p, fuel - 1).value;
      BroaderChainFollowsFirstBroader(g, p, fuel - 1);
      assert forall i :: 1 <= i <= |rest| + 1 ==> ([s] + ([p] + rest))[i] == ([p] + rest)[i - 1];
  }

  /** `parents` extended with the notation of the parent found on the previous pass, if any. */
  function WithPrevious(g: Graph, parents: seq<Option<string>>, previous: Option<Term>): seq<Option<string>> {
    if previous.Some? then parents + [GetNotation(g, previous.value)] else parents
  }

  /** The `while True` loop of `_find_parents`, one pass per call: follow the first broader
      triple, recording the notation of the parent found on the pass before; stop when there
      is none. Each pass costs one unit of `fuel`; running out yields `None`. */
  function FindParentsLoop(g: Graph, subject: Term, previous: Option<Term>, parents: seq<Option<string>>, fuel: nat)
    : Option<seq<Option<string>>>
    decreases fuel
  {
    match FirstBroader(g, subject)
    case Some(parent) =>
      if fuel == 0 then None
      else FindParentsLoop(g, parent, Some(parent), WithPrevious(g, parents, previous), fuel - 1)
    case None => Some(WithPrevious(g, parents, previous))
  }

  /** `_find_parents`. */
  function FindParents(g: Graph, s: Term, fuel: nat): Option<seq<Option<string>>> {
    FindParentsLoop(g, s, None, [], fuel)
  }

  /** The notation of each concept of `c`. */
  function Notations(g: Graph, c: seq<Term>): (r: seq<Option<string>>)
    ensures |r| == |c| && forall i :: 0 <= i < |c| ==> r[i] == GetNotation(g, c[i])
  {
    if c == [] then [] else [GetNotation(g, c[0])] + Notations(g, c[1..])
  }

  /** `pre` followed by the notations along `chain`, if the walk ended. */
  function ThenNotations(g: Graph, pre: seq<Option<string>>, chain: Option<seq<Term>>): Option<seq<Option<string>>> {
    match chain
    case None => None
    case Some(c) => Some(pre + Notations(g, c))
  }

  lemma {:induction false} FindParentsLoopFollowsChain(
    g: Graph, x: Term, previous: Option<Term>, parents: seq<Option<string>>, fuel: nat)
    ensures FindParentsLoop(g, x, previous, parents, fuel)
              == ThenNotations(g, WithPrevious(g, parents, previous), BroaderChain(g, x, fuel))
    decreases fuel, 1
  {
    var acc := WithPrevious(g, parents, previous);
    match FirstBroader(g, x)
    case None =>
      assert BroaderChain(g, x, fuel) == Some([]);
      assert acc + Notations(g, []) == acc;
    case Some(p) =>
      if fuel > 0 {
        FindParentsLoopStep(g, x, p, previous, parents, fuel);
      }
  }

  /** One pass of the loop that finds a parent `p`. */
  lemma {:induction false} FindParentsLoopStep(
    g: Graph, x: Term, p: Term, previous: Option<Term>, parents: seq<Option<string>>, fuel: nat)
    requires FirstBroader(g, x) == Some(p) && fuel > 0
    ensures FindParentsLoop(g, x, previous, parents, fuel)
              == ThenNotations(g, WithPrevious(g, parents, previous), BroaderChain(g, x, fuel))
    decreases fuel, 0
  {
    var acc := WithPrevious(g, parents, previous);
    assert FindParentsLoop(g, x, previous, parents, fuel) == FindParentsLoop(g, p, Some(p), acc, fuel - 1);
    FindParentsLoopFollowsChain(g, p, Some(p), acc, fuel - 1);
    match BroaderChain(g, p, fuel - 1)
    case None =>
    case Some(rest) =>
      assert BroaderChain(g, x, fuel) == Some([p] + rest);
      assert WithPrevious(g, acc, Some(p)) == acc + [GetNotation(g, p)];
      assert ([p] + rest)[1..] == rest;
      assert Notations(g, [p] + rest) == [GetNotation(g, p)] + Notations(g, rest);
      AppendAssociative(acc, [GetNotation(g, p)], Notations(g, rest));
  }

  /** `_find_parents` returns, nearest first, the notation of every ancestor on the
      first-broader walk, and an empty list for a concept without a broader triple. */
  lemma FindParentsFollowsChain(g: Graph, s: Term, fuel: nat)
    ensures FindParents(g, s, fuel).Some? <==> BroaderChain(g, s, fuel).Some?
    ensures BroaderChain(g, s, fuel).Some? ==>
              FindParents(g, s, fuel).value == Notations(g, BroaderChain(g, s, fuel).value)
    ensures FirstBroader(g, s).None? ==> FindParents(g, s, fuel) == Some([])
  {
    FindParentsLoopFollowsChain(g, s, None, [], fuel);
  }

  /** More fuel never changes a walk that has ended. */
  lemma {:induction false} BroaderChainFuelMonotone(g: Graph, s: Term, fuel: nat, more: nat)
    requires BroaderChain(g, s, fuel).Some? && fuel <= more
    ensures BroaderChain(g, s, more) == BroaderChain(g, s, fuel)
    decreases fuel
  {
    match FirstBroader(g, s)
    case None =>
    case Some(p) =>
      BroaderChainFuelMonotone(g, p, fuel - 1, more - 1);
  }

  /** The concept `k` first-broader steps above `s`, if the walk gets that far. */
  function Walk(g: Graph, s: Term, k: nat): Option<Term>
    decreases k
  {
    if k == 0 then Some(s)
    else
      match FirstBroader(g, s)
      case None => None
      case Some(p) => Walk(g, p, k - 1)
  }

  lemma {:induction false} WalkAdd(g: Graph, s: Term, j: nat, k: nat)
    requires Walk(g, s, j).Some?
    ensures Walk(g, s, j + k) == Walk(g, Walk(g, s, j).value, k)
    decreases j
  {
    if j > 0 {
      WalkAdd(g, FirstBroader(g, s).value, j - 1, k);
    }
  }

  /** A finished walk passes every concept it reaches with enough fuel left to finish from there. */
  lemma {:induction false} ChainFromWalk(g: Graph, s: Term, j: nat, fuel: nat)
    requires Walk(g, s, j).Some? && BroaderChain(g, s, fuel).Some?
    ensures j <= fuel && BroaderChain(g, Walk(g, s, j).value, fuel - j).Some?
    decreases j
  {
    if j > 0 {
      var p := FirstBroader(g, s).value;
      ChainFromWalk(g, p, j - 1, fuel - 1);
    }
  }

  lemma {:induction false} CycleNeverEnds(g: Graph, t: Term, k: nat, fuel: nat)
    requires k >= 1 && Walk(g, t, k) == Some(t)
    ensures BroaderChain(g, t, fuel).None?
    decreases fuel
  {
    if BroaderChain(g, t, fuel).Some? {
      ChainFromWalk(g, t, k, fuel);
      CycleNeverEnds(g, t, k, fuel - k);
    }
  }

  /** When the first-broader walk from `s` enters a cycle, `_find_parents` never returns: no
      fuel is enough. */
  lemma FindParentsDivergesOnCycle(g: Graph, s: Term, j: nat, k: nat, fuel: nat)
    requires k >= 1 && Walk(g, s, j).Some? && Walk(g, s, j + k) == Walk(g, s, j)
    ensures FindParents(g, s, fuel).None?
  {
    var t := Walk(g, s, j).value;
    WalkAdd(g, s, j, k);
    FindParentsFollowsChain(g, s, fuel);
    if BroaderChain(g, s, fuel).Some? {
      ChainFromWalk(g, s, j, fuel);
      CycleNeverEnds(g, t, k, fuel - j);
    }
  }

  /** The values present in `ns`, in order. */
  function Present(ns: seq<Option<string>>): (r: seq<string>)
    ensures |r| <= |ns|
    ensures r == [] <==> forall i :: 0 <= i < |ns| ==> ns[i].None?
    ensures forall x :: x in r <==> Some(x) in ns
  {
    if ns == [] then []
    else
      var rest := Present(ns[1..]);
      assert forall i :: 1 <= i < |ns| ==> ns[i] == ns[1..][i - 1];
      assert forall o :: o in ns <==> o == ns[0] || o in ns[1..];
      if ns[0].Some? then [ns[0].value] + rest else rest
  }

  /** `Present` keeps order and multiplicity: the present values of a concatenation are
      those of each part in turn, and a single notation gives its value exactly when present. */
  lemma {:induction false} PresentAppend(a: seq<Option<string>>, b: seq<Option<string>>)
    ensures Present(a + b) == Present(a) + Present(b)
    ensures |a| == 1 ==> Present(a) == (if a[0].Some? then [a[0].value] else [])
  {
    if a == [] {
      assert a + b == b;
    } else {
      assert (a + b)[0] == a[0] && (a + b)[1..] == a[1..] + b;
      PresentAppend(a[1..], b);
      var h := if a[0].Some? then [a[0].value] else [];
      AppendAssociative(h, Present(a[1..]), Present(b));
    }
  }

  /** The `props` of a concept whose ancestors, nearest first, have notations `ns`: under
      `"parents"`, the present notations prefixed `euroscivoc:`, root first; no key at all
      when no ancestor has a numeric notation. */
  function ParentProps(ns: seq<Option<string>>): (props: map<string, PropValue>)
    ensures props.Keys <= {"parents"}
    ensures "parents" in props <==> exists i :: 0 <= i < |ns| && ns[i].Some?
    ensures "parents" in props ==>
              && props["parents"].Texts?
              && var ids, present := props["parents"].items, Present(ns);
              && |ids| == |present|
              && forall i :: 0 <= i < |ids| ==> ids[i] == ID_PREFIX + present[|present| - 1 - i]
  {
    var parents := PrefixedReversed(ID_PREFIX, Present(ns));
    if parents != [] then map["parents" := Texts(parents)] else map[]
  }

  /** `_transform_entry` with `_as_dict`'s field names. `fuel` bounds the parent walk,
      which must end. */
  function TransformEntry(g: Graph, s: Term, fuel: nat): (e: Entry)
    requires LabelsReadable(g, s)
    requires BroaderChain(g, s, fuel).Some?
    ensures e.id.Some? <==> GetNotation(g, s).Some?
    ensures e.id.Some? ==> (e.id.value == ID_PREFIX + GetNotation(g, s).value
                            && IsDigits(e.id.value[|ID_PREFIX|..]))
    ensures e.scheme == SCHEME
    ensures e.title == GetLabels(g, s)
    ensures e.subject == (if EN in e.title then Capitalize(e.title[EN]) else "")
    ensures e.identifiers == UrlIdentifiers(Str(s))
    ensures e.props == ParentProps(Notations(g, BroaderChain(g, s, fuel).value))
  {
    var notation := GetNotation(g, s);
    var id := if notation.Some? then Some(ID_PREFIX + notation.value) else None;
    var languages := GetLabels(g, s);
    var prefLabel := if EN in languages then languages[EN] else "";
    FindParentsFollowsChain(g, s, fuel);
    var parentNotations := FindParents(g, s, fuel).value;
    Entry(id, SCHEME, Capitalize(prefLabel), languages, UrlIdentifiers(Str(s)), ParentProps(parentNotations))
  }
}
