/** The subject record both transformers produce: the `Entry` named tuple with its six
    fields, and the dictionary `_as_dict` turns it into. */
module SubjectRecords {
  import opened Wrappers

  /** A label's language tag; `None` for a literal without one. */
  type Lang = Option<string>

  const EN: Lang := Some("en")

  datatype Identifier = Identifier(scheme: string, identifier: string)

  /** A value under `props`: a single string or a list of strings. */
  datatype PropValue = Text(text: string) | Texts(items: seq<string>)

  /** The fields of a subject record, in the order the `Entry` tuple declares them. */
  datatype Entry = Entry(
    id: Option<string>,
    scheme: string,
    subject: string,
    title: map<Lang, string>,
    identifiers: seq<Identifier>,
    props: map<string, PropValue>)

  /** A value of the record dictionary. */
  datatype Value =
    | Null
    | String(s: string)
    | LabelMap(labels: map<Lang, string>)
    | IdentifierList(ids: seq<Identifier>)
    | PropMap(props: map<string, PropValue>)

  const ENTRY_KEYS: set<string> := {"id", "scheme", "subject", "title", "props", "identifiers"}

  /** The single `{"scheme": "url", "identifier": str(subject)}` identifier. */
  function UrlIdentifiers(iri: string): (ids: seq<Identifier>)
    ensures |ids| == 1 && ids[0].scheme == "url" && ids[0].identifier == iri
  {
    [Identifier("url", iri)]
  }

  /** `[prefix + n for n in reversed(ns)]`. */
  function PrefixedReversed(prefix: string, ns: seq<string>): (r: seq<string>)
    ensures |r| == |ns|
    ensures forall i :: 0 <= i < |r| ==> r[i] == prefix + ns[|ns| - 1 - i]
  {
    if ns == [] then [] else PrefixedReversed(prefix, ns[1..]) + [prefix + ns[0]]
  }

  /** Reads a record dictionary back into its fields; `None` if a key is missing or holds the wrong kind of value. */
  function FromDict(d: map<string, Value>): Option<Entry> {
    if ENTRY_KEYS <= d.Keys
       && (d["id"].Null? || d["id"].String?)
       && d["scheme"].String? && d["subject"].String?
       && d["title"].LabelMap? && d["props"].PropMap? && d["identifiers"].IdentifierList?
    then
      var id := if d["id"].Null? then None else Some(d["id"].s);
      Some(Entry(id, d["scheme"].s, d["subject"].s, d["title"].labels, d["identifiers"].ids, d["props"].props))
    else None
  }

  /** `_as_dict`: each field under the key of the same name, `None` as null. */
  function AsDict(e: Entry): (d: map<string, Value>)
    ensures d.Keys == ENTRY_KEYS
    ensures FromDict(d) == Some(e)
  {
    map[
      "id" := (if e.id.Some? then String(e.id.value) else Null),
      "scheme" := String(e.scheme),
      "subject" := String(e.subject),
      "title" := LabelMap(e.title),
      "props" := PropMap(e.props),
      "identifiers" := IdentifierList(e.identifiers)]
  }

  /** `_as_dict` adds and drops nothing: a dictionary with exactly the six keys that reads
      back as an entry is that entry's dictionary. */
  lemma AsDictInverse(d: map<string, Value>, e: Entry)
    requires d.Keys == ENTRY_KEYS && FromDict(d) == Some(e)
    ensures AsDict(e) == d
  {
    var d' := AsDict(e);
    assert forall k :: k in ENTRY_KEYS ==> d'[k] == d[k];
  }
}
