/** The GEMET subject transformer: one SKOS concept of the graph becomes a subject record
    whose id is the last two path segments of the concept's URI, with capitalised labels,
    every transitively broader concept as a parent, and its groups and themes. */
module Gemet {
  import opened Wrappers
  import opened Text
  import opened Rdf
  import opened LabelMaps
  import opened SubjectRecords

  const SCHEME := "GEMET"
  const ID_PREFIX := "gemet:"
  const SPLITCHAR := ','

  /** `'/'.join(uri.split('/')[-2:])`: the concept number of a GEMET URI. */
  function LastTwoSegments(uri: string): string {
    var parts := Split(uri, '/');
    Join(if |parts| >= 2 then parts[|parts| - 2..] else parts, '/')
  }

  /** The concept number is the longest suffix of the URI with at most one `/`: the whole
      URI, or the part after the second-to-last `/`. It is empty only for an empty URI. */
  lemma LastTwoSegmentsIsSuffix(uri: string)
    ensures var n := LastTwoSegments(uri);
            && IsSuffix(n, uri)
            && AtMostOnce(n, '/')
            && (n == uri || ('/' in n && |n| < |uri| && uri[|uri| - |n| - 1] == '/'))
            && (n == "" <==> uri == "")
  {
    var parts := Split(uri, '/');
    if |parts| > 2 {
      var a, b := parts[..|parts| - 2], parts[|parts| - 2..];
      assert parts == a + b;
      JoinAppend(a, b, '/');
      assert uri == Join(a, '/') + ['/'] + Join(b, '/');
      assert Join(b, '/') == b[0] + ['/'] + b[1] by {
        assert b[1..] == [b[1]];
      }
      assert '/' !in b[0] && '/' !in b[1];
      OnceBetween(b[0], b[1], '/');
      var n := Join(b, '/');
      assert uri[|uri| - |n|..] == n;
      assert uri[|uri| - |n| - 1] == '/';
    } else if |parts| == 2 {
      assert parts[1..] == [parts[1]];
      OnceBetween(parts[0], parts[1], '/');
    }
  }

  /** `id`: `gemet:` and the concept number, or `None` when that number is empty. */
  function ConceptId(uri: string): (id: Option<string>)
    ensures id.None? <==> uri == ""
    ensures id.Some? ==>
              && |id.value| >= |ID_PREFIX| && id.value[..|ID_PREFIX|] == ID_PREFIX
              && var n := id.value[|ID_PREFIX|..];
              && IsSuffix(n, uri) && AtMostOnce(n, '/')
              && (n == uri || ('/' in n && uri[|uri| - |n| - 1] == '/'))
  {
    var n := LastTwoSegments(uri);
    LastTwoSegmentsIsSuffix(uri);
    if n != "" then
      assert (ID_PREFIX + n)[|ID_PREFIX|..] == n;
      Some(ID_PREFIX + n)
    else None
  }

  /** A language `_get_labels` keeps: tagged, with no `-` in the tag. */
  predicate KeepsLanguage(lang: Lang) {
    lang.Some? && '-' !in lang.value
  }

  /** The label pairs with a kept language, values capitalised, in order. */
  function KeptLabels(ps: seq<(Lang, string)>): (r: seq<(Lang, string)>)
    ensures forall i :: 0 <= i < |r| ==> KeepsLanguage(r[i].0) && IsCapitalized(r[i].1)
    ensures Keys(r) == set k | k in Keys(ps) && KeepsLanguage(k)
  {
    if ps == [] then []
    else
      var rest := KeptLabels(ps[1..]);
      KeysUnfold(ps);
      if KeepsLanguage(ps[0].0) then
        var r := [(ps[0].0, Capitalize(ps[0].1))] + rest;
        KeysUnfold(r);
        assert r[1..] == rest;
        r
      else rest
  }

  /** `KeptLabels` keeps order and ties each title to its own label: the kept pairs of a
      concatenation are those of each part in turn, and a single pair is kept, with its value
      capitalised, exactly when its language is kept. */
  lemma {:induction false} KeptLabelsAppend(a: seq<(Lang, string)>, b: seq<(Lang, string)>)
    ensures KeptLabels(a + b) == KeptLabels(a) + KeptLabels(b)
    ensures |a| == 1 ==> KeptLabels(a) == (if KeepsLanguage(a[0].0) then [(a[0].0, Capitalize(a[0].1))] else [])
  {
    if a == [] {
      assert a + b == b;
    } else {
      assert (a + b)[1..] == a[1..] + b;
      KeptLabelsAppend(a[1..], b);
    }
  }

  function PrefPairs(g: Graph, s: Term): seq<(Lang, string)> {
    KeptLabels(LiteralLabels(g, s, PREF_LABEL))
  }

  function AltPairs(g: Graph, s: Term): seq<(Lang, string)> {
    KeptLabels(LiteralLabels(g, s, ALT_LABEL))
  }

  /** The inputs on which `_get_labels` does not fail: it tests `'-' in label.language` for
      every prefLabel, and for every altLabel when no kept `en` prefLabel exists, which needs
      a literal with a language tag. */
  predicate LabelsReadable(g: Graph, s: Term) {
    && ObjectsAreTaggedLiterals(g, s, PREF_LABEL)
    && (EN !in Keys(PrefPairs(g, s)) ==> ObjectsAreTaggedLiterals(g, s, ALT_LABEL))
  }

  /** Every pair has a kept language and a capitalised value. */
  predicate AllKept(ps: seq<(Lang, string)>) {
    forall i :: 0 <= i < |ps| ==> KeepsLanguage(ps[i].0) && IsCapitalized(ps[i].1)
  }

  lemma KeptValue(ps: seq<(Lang, string)>, k: Lang, v: string)
    requires AllKept(ps)
    requires IsLastValue(ps, k, v) || IsFirstValue(ps, k, v)
    ensures KeepsLanguage(k) && IsCapitalized(v)
  {
    var i :| 0 <= i < |ps| && ps[i] == (k, v);
  }

  /** `_get_labels`: languages with a `-` are dropped and values capitalised; the last
      prefLabel per language wins; only when there is no `en` prefLabel, each further
      altLabel language gets its first altLabel. */
  function GetLabels(g: Graph, s: Term): (r: map<Lang, string>)
    requires LabelsReadable(g, s)
    ensures forall k :: k in r ==> KeepsLanguage(k) && IsCapitalized(r[k])
    ensures var prefs := PrefPairs(g, s);
            r.Keys == Keys(prefs) + (if EN in Keys(prefs) then {} else Keys(AltPairs(g, s)))
    ensures forall k :: k in Keys(PrefPairs(g, s)) ==> IsLastValue(PrefPairs(g, s), k, r[k])
    ensures EN !in Keys(PrefPairs(g, s)) ==>
              forall k :: k in Keys(AltPairs(g, s)) && k !in Keys(PrefPairs(g, s)) ==> IsFirstValue(AltPairs(g, s), k, r[k])
  {
    var prefs, alts := PrefPairs(g, s), AltPairs(g, s);
    assert AllKept(prefs) && AllKept(alts);
    var labels := AssignAll(map[], prefs);
    var r := if EN in labels then labels else SetDefaultAll(labels, alts);
    forall k | k in r ensures KeepsLanguage(k) && IsCapitalized(r[k]) {
      if k in Keys(prefs) {
        KeptValue(prefs, k, r[k]);
      } else {
        KeptValue(alts, k, r[k]);
      }
    }
    r
  }

  /** The elements of `xs` listed only once. */
  predicate Distinct(xs: seq<Term>) {
    forall i, j :: 0 <= i < j < |xs| ==> xs[i] != xs[j]
  }

  /** `order` lists each node of `nodes` exactly once: what `transitive_objects` yields. */
  ghost predicate IsEnumerationOf(order: seq<Term>, nodes: set<Term>) {
    Distinct(order) && forall x :: x in order <==> x in nodes
  }

  /** The concept numbers of the nodes of `order` other than `s`, skipping empty ones. */
  function NotationsExcept(order: seq<Term>, s: Term): (r: seq<string>)
    ensures forall n :: n in r ==> n != "" && exists x :: x in order && x != s && LastTwoSegments(Str(x)) == n
    ensures forall x :: x in order && x != s && LastTwoSegments(Str(x)) != "" ==> LastTwoSegments(Str(x)) in r
    ensures |r| <= |order| && (s in order ==> |r| < |order|)
  {
    if order == [] then []
    else
      var rest := NotationsExcept(order[1..], s);
      assert forall x :: x in order <==> x == order[0] || x in order[1..];
      var n := LastTwoSegments(Str(order[0]));
      if order[0] != s && n != "" then [n] + rest else rest
  }

  /** `_find_parents`, given the nodes `transitive_objects` yields for `s` in the order it
      yields them. */
  function FindParents(g: Graph, s: Term, order: seq<Term>): (r: seq<string>)
    requires IsEnumerationOf(order, TransitiveObjects(g, s, BROADER))
    ensures |r| < |order|
    ensures forall n :: n in r ==>
              n != "" && exists x :: x in TransitiveObjects(g, s, BROADER) && x != s && LastTwoSegments(Str(x)) == n
    ensures forall x :: x in TransitiveObjects(g, s, BROADER) && x != s && LastTwoSegments(Str(x)) != "" ==>
              LastTwoSegments(Str(x)) in r
  {
    NotationsExcept(order, s)
  }

  /** The concept numbers of the nodes of `nodes` other than `s`. */
  function ConceptNumbers(nodes: set<Term>, s: Term): set<string> {
    set x | x in nodes && x != s :: LastTwoSegments(Str(x))
  }

  /** `_find_parents` lists nothing beyond what `broader` leads to: each parent is the
      concept number of a node other than the subject in every set that holds the subject
      and is closed under `broader`. */
  lemma FindParentsWithinClosedSets(g: Graph, s: Term, order: seq<Term>, S: set<Term>)
    requires IsEnumerationOf(order, TransitiveObjects(g, s, BROADER))
    requires s in S && ClosedUnder(g, BROADER, S)
    ensures forall n :: n in FindParents(g, s, order) ==> n in ConceptNumbers(S, s)
  {
    TransitiveObjectsIsLeastClosedSet(g, s, BROADER, S);
    forall n | n in FindParents(g, s, order) ensures n in ConceptNumbers(S, s) {
      var x :| x in TransitiveObjects(g, s, BROADER) && x != s && LastTwoSegments(Str(x)) == n;
      assert x in S;
    }
  }

  /** Python's `"theme" in relation_uri`. */
  predicate IsTheme(uri: string) {
    ContainsSubstring(uri, "theme")
  }

  /** The URIs whose theme-ness is `themes`, in order. */
  function FilterThemes(uris: seq<string>, themes: bool): (r: seq<string>)
    ensures forall u :: u in r <==> u in uris && IsTheme(u) == themes
  {
    if uris == [] then []
    else
      var rest := FilterThemes(uris[1..], themes);
      assert forall u :: u in uris <==> u == uris[0] || u in uris[1..];
      if IsTheme(uris[0]) == themes then [uris[0]] + rest else rest
  }

  /** `FilterThemes` keeps order and multiplicity: the filter of a concatenation is the
      filter of each part in turn, and a single URI is kept exactly when its theme-ness
      matches. */
  lemma {:induction false} FilterThemesAppend(a: seq<string>, b: seq<string>, themes: bool)
    ensures FilterThemes(a + b, themes) == FilterThemes(a, themes) + FilterThemes(b, themes)
    ensures |a| == 1 ==> FilterThemes(a, themes) == (if IsTheme(a[0]) == themes then [a[0]] else [])
  {
    if a == [] {
      assert a + b == b;
    } else {
      assert (a + b)[1..] == a[1..] + b;
      FilterThemesAppend(a[1..], b, themes);
    }
  }

  /** The relations that have `s` as a `skos:member`, as strings, in triple order. */
  function MemberRelations(g: Graph, s: Term): seq<string> {
    var subjects := Subjects(g, MEMBER, s);
    seq(|subjects|, i requires 0 <= i < |subjects| => Str(subjects[i]))
  }

  /** The `for relation in ...` loop of `_get_groups_and_themes`, one relation per call. */
  function GroupsAndThemesLoop(relations: seq<string>, groups: seq<string>, themes: seq<string>)
    : (seq<string>, seq<string>)
    decreases |relations|
  {
    if relations == [] then (groups, themes)
    else if IsTheme(relations[0]) then GroupsAndThemesLoop(relations[1..], groups, themes + [relations[0]])
    else GroupsAndThemesLoop(relations[1..], groups + [relations[0]], themes)
  }

  /** `_get_groups_and_themes`. */
  function GroupsAndThemes(g: Graph, s: Term): (seq<string>, seq<string>) {
    GroupsAndThemesLoop(MemberRelations(g, s), [], [])
  }

  lemma {:induction false} GroupsAndThemesLoopFilters(relations: seq<string>, groups: seq<string>, themes: seq<string>)
    ensures GroupsAndThemesLoop(relations, groups, themes)
              == (groups + FilterThemes(relations, false), themes + FilterThemes(relations, true))
    decreases |relations|
  {
    if relations == [] {
      assert groups + [] == groups && themes + [] == themes;
    } else {
      var x := relations[0];
      if IsTheme(x) {
        GroupsAndThemesLoopFilters(relations[1..], groups, themes + [x]);
        assert themes + [x] + FilterThemes(relations[1..], true) == themes + ([x] + FilterThemes(relations[1..], true));
      } else {
        GroupsAndThemesLoopFilters(relations[1..], groups + [x], themes);
        assert groups + [x] + FilterThemes(relations[1..], false) == groups + ([x] + FilterThemes(relations[1..], false));
      }
    }
  }

  lemma {:induction false} FilterThemesPartition(uris: seq<string>)
    ensures multiset(FilterThemes(uris, false)) + multiset(FilterThemes(uris, true)) == multiset(uris)
  {
    if uris != [] {
      FilterThemesPartition(uris[1..]);
      assert uris == [uris[0]] + uris[1..];
    }
  }

  /** `_get_groups_and_themes` splits the member relations in two, order kept: the URIs
      containing `theme` are the themes, all others the groups, and every relation lands in
      exactly one list. */
  lemma GroupsAndThemesPartitions(g: Graph, s: Term)
    ensures var (groups, themes) := GroupsAndThemes(g, s);
            && groups == FilterThemes(MemberRelations(g, s), false)
            && themes == FilterThemes(MemberRelations(g, s), true)
            && multiset(groups) + multiset(themes) == multiset(MemberRelations(g, s))
  {
    GroupsAndThemesLoopFilters(MemberRelations(g, s), [], []);
    FilterThemesPartition(MemberRelations(g, s));
  }

  /** No item holds a comma. */
  predicate CommaFree(items: seq<string>) {
    forall i :: 0 <= i < |items| ==> SPLITCHAR !in items[i]
  }

  lemma PrefixedCommaFree(parents: seq<string>)
    requires CommaFree(parents)
    ensures CommaFree(PrefixedReversed(ID_PREFIX, parents))
  {
    var items := PrefixedReversed(ID_PREFIX, parents);
    forall i | 0 <= i < |items| ensures SPLITCHAR !in items[i] {
      var n := parents[|parents| - 1 - i];
      assert items[i] == ID_PREFIX + n;
      assert SPLITCHAR !in ID_PREFIX;
    }
  }

  /** A joined list of non-empty items is not empty. */
  lemma JoinNonEmpty(items: seq<string>, sep: char)
    requires items != [] && items[0] != ""
    ensures Join(items, sep) != ""
  {
    if |items| > 1 {
      assert |Join(items, sep)| >= |items[0]|;
    }
  }

  /** The comma-joined prefixed parents are empty only without parents, and split back
      into the prefixed parents when no concept number holds a comma. */
  lemma JoinedParentsFacts(parents: seq<string>)
    ensures var r := Join(PrefixedReversed(ID_PREFIX, parents), SPLITCHAR);
            && (r == "" <==> parents == [])
            && (parents != [] && CommaFree(parents) ==> Split(r, SPLITCHAR) == PrefixedReversed(ID_PREFIX, parents))
  {
    var items := PrefixedReversed(ID_PREFIX, parents);
    if parents != [] {
      JoinNonEmpty(items, SPLITCHAR);
      if CommaFree(parents) {
        PrefixedCommaFree(parents);
        SplitJoin(items, SPLITCHAR);
      }
    }
  }

  /** `",".join(f"gemet:{n}" for n in reversed(parents))`: empty only when there are no
      parents, and otherwise splitting at the commas gives back each prefixed parent, root
      first, as long as no concept number holds a comma. */
  function ParentsValue(parents: seq<string>): (r: string)
    ensures r == "" <==> parents == []
    ensures parents != [] && CommaFree(parents) ==> Split(r, SPLITCHAR) == PrefixedReversed(ID_PREFIX, parents)
  {
    JoinedParentsFacts(parents);
    Join(PrefixedReversed(ID_PREFIX, parents), SPLITCHAR)
  }

  /** The `props` of a GEMET entry: each of `parents`, `groups` and `themes` present exactly
      when it has something to hold. */
  function GemetProps(parents: seq<string>, groups: seq<string>, themes: seq<string>)
    : (props: map<string, PropValue>)
    ensures props.Keys <= {"parents", "groups", "themes"}
    ensures "parents" in props <==> parents != []
    ensures "parents" in props ==> props["parents"] == Text(ParentsValue(parents))
    ensures "groups" in props <==> groups != []
    ensures "groups" in props ==> props["groups"] == Texts(groups)
    ensures "themes" in props <==> themes != []
    ensures "themes" in props ==> props["themes"] == Texts(themes)
  {
    var value := ParentsValue(parents);
    var props := if value != "" then map["parents" := Text(value)] else map[];
    var props := if groups != [] then props["groups" := Texts(groups)] else props;
    if themes != [] then props["themes" := Texts(themes)] else props
  }

  /** `_transform_entry`. The dictionary it returns has the six keys of `Entry`, the record
      here. */
  function TransformEntry(g: Graph, s: Term, order: seq<Term>): (e: Entry)
    requires LabelsReadable(g, s)
    requires IsEnumerationOf(order, TransitiveObjects(g, s, BROADER))
    ensures e.id == ConceptId(Str(s))
    ensures e.scheme == SCHEME
    ensures e.title == GetLabels(g, s)
    ensures e.subject == (if EN in e.title then e.title[EN] else "")
    ensures e.identifiers == UrlIdentifiers(Str(s))
    ensures e.props == GemetProps(FindParents(g, s, order), GroupsAndThemes(g, s).0, GroupsAndThemes(g, s).1)
  {
    var labels := GetLabels(g, s);
    var en := if EN in labels then labels[EN] else "";
    CapitalizeFixesCapitalized(en);
    var (groups, themes) := GroupsAndThemes(g, s);
    var props := GemetProps(FindParents(g, s, order), groups, themes);
    Entry(ConceptId(Str(s)), SCHEME, Capitalize(en), labels, UrlIdentifiers(Str(s)), props)
  }
}
