# Subject transformers and award validation of invenio-vocabularies, in Dafny

This project models three pieces of invenio-vocabularies:

- **The EuroSciVoc subject transformer.** It turns one SKOS concept of the EuroSciVoc RDF graph into a subject record. The record gets:
  - an id made from the concept's first numeric notation;
  - labels per language;
  - the chain of first-`broader` parents.
- **The GEMET subject transformer.** It does the same for GEMET. The record gets:
  - an id made from the last two path segments of the concept URI;
  - capitalised labels for languages without a region subtag;
  - every transitively broader concept as a parent;
  - the groups and themes the concept is a member of.
- **The award schemas.** This part covers:
  - the cross-field presence checks of award and funding relations;
  - the required, non-blank `number` and `pid` of an award;
  - the `pid` an award takes from its backing record before it is dumped.

The RDF graph is an already-parsed sequence of triples, in the order rdflib enumerates them (`Rdf.Graph`). rdflib's queries are pure functions over that sequence:
- `triples((s, p, None))` is `Rdf.Objects`, `Rdf.FirstObject` or `Rdf.LiteralLabels`;
- `subjects(p, o)` is `Rdf.Subjects`;
- `transitive_objects(s, p)` is `Rdf.TransitiveObjects`.

Python's `str.capitalize`, `str.isdigit`, `str.split`, `str.join` and `in` on strings are in `Text`. Dictionary building by assignment and by `setdefault` is in `LabelMaps`. The subject record (`Entry`) and its dictionary form are in `SubjectRecords`.

Errors:
- **Awards.** A failed validation is `Fail` with the messages per field or group. The field checks of an award report a list of messages per field (`Errors`), because marshmallow wraps their formatted `str` messages in a list. The two schema-level checks report a single message per name (`BareErrors`), because marshmallow wraps neither a dictionary message nor a lazily translated one.
- **Subject transformers.** These raise only on malformed input: a label object that is not a literal, or a GEMET label without a language tag. Each transformer states such inputs as a precondition, `LabelsReadable`.
- **EuroSciVoc parent walk.** It never ends when the first-`broader` chain runs into a cycle. The model gives it fuel, and proves that on a cycle no amount of fuel is enough.

## Model

| member | source | states |
|---|---|---|
| Rdf.Objects | invenio_vocabularies/contrib/subjects/euroscivoc/datastreams.py:79-81 | an object is listed exactly when the graph holds a matching triple with it, and there are no more objects than triples |
| Rdf.ObjectsAppend | invenio_vocabularies/contrib/subjects/euroscivoc/datastreams.py:79-81 | the objects come in triple order, one per matching triple: the objects of a concatenation are those of each part in turn, and one triple gives its object exactly when it matches |
| Rdf.Subjects | invenio_vocabularies/contrib/subjects/gemet/datastreams.py:107 | a subject is listed exactly when the graph holds a matching triple with it |
| Rdf.SubjectsAppend | invenio_vocabularies/contrib/subjects/gemet/datastreams.py:107 | the subjects come in triple order, one per matching triple: those of a concatenation are those of each part in turn, and one triple gives its subject exactly when it matches |
| Rdf.FirstObjectIsEarliest | invenio_vocabularies/contrib/subjects/euroscivoc/datastreams.py:109-117 | the first object the loop sees is the object of the earliest matching triple; there is none exactly when no triple matches |
| Rdf.LiteralLabels | invenio_vocabularies/contrib/subjects/euroscivoc/datastreams.py:90-91 | a (language, value) pair is listed exactly when the graph holds that literal as an object of `(s, p, _)` |
| Rdf.LiteralLabelsAppend | invenio_vocabularies/contrib/subjects/euroscivoc/datastreams.py:90-91 | the labels come in triple order, one per matching literal: those of a concatenation are those of each part in turn, and one triple gives its pair exactly when it is a matching literal |
| Rdf.TransitiveObjectsIsLeastClosedSet | invenio_vocabularies/contrib/subjects/gemet/datastreams.py:94 | the nodes `transitive_objects` reaches form the least set that holds the start node and is closed under the predicate |
| Text.Capitalize | invenio_vocabularies/contrib/subjects/gemet/datastreams.py:71 | the result has an upper-case first letter and lower-case rest, and differs from the input only in letter case |
| Text.CapitalizeIdempotent | invenio_vocabularies/contrib/subjects/gemet/datastreams.py:160 | capitalising an already capitalised label changes nothing |
| Text.Split | invenio_vocabularies/contrib/subjects/gemet/datastreams.py:96 | splitting gives at least one piece, no piece holds the separator, and joining the pieces gives back the string |
| Text.SplitJoin | invenio_vocabularies/contrib/subjects/gemet/datastreams.py:136-138 | splitting a join of separator-free pieces gives back the pieces |
| LabelMaps.AssignAll | invenio_vocabularies/contrib/subjects/euroscivoc/datastreams.py:89-91 | assigning pairs in order keys the map by every language seen, each with the value of its last pair, and keeps other keys |
| LabelMaps.SetDefaultAll | invenio_vocabularies/contrib/subjects/euroscivoc/datastreams.py:93-98 | `setdefault` in order never overwrites an existing key and gives each new key the value of its first pair |
| SubjectRecords.UrlIdentifiers | invenio_vocabularies/contrib/subjects/euroscivoc/datastreams.py:155 | there is one identifier, of scheme `url`, holding the subject URI |
| SubjectRecords.PrefixedReversed | invenio_vocabularies/contrib/subjects/euroscivoc/datastreams.py:143-147 | item i is the prefix followed by the i-th notation from the end |
| SubjectRecords.AsDict | invenio_vocabularies/contrib/subjects/euroscivoc/datastreams.py:160-169 | the dictionary has exactly the six record keys and reads back as the same entry |
| SubjectRecords.AsDictInverse | invenio_vocabularies/contrib/subjects/euroscivoc/datastreams.py:160-169 | a six-key dictionary that reads back as an entry is that entry's dictionary, so nothing is added or lost |
| EuroSciVoc.GetNotation | invenio_vocabularies/contrib/subjects/euroscivoc/datastreams.py:77-85 | a returned notation is a non-empty string of digits |
| EuroSciVoc.GetNotationNoneIffNoNumeric | invenio_vocabularies/contrib/subjects/euroscivoc/datastreams.py:79-85 | there is no notation exactly when no notation of the subject is all digits |
| EuroSciVoc.GetNotationIsFirstNumeric | invenio_vocabularies/contrib/subjects/euroscivoc/datastreams.py:79-84 | the notation returned is that of the earliest all-digit notation triple, whatever non-numeric notations come before it |
| EuroSciVoc.GetLabels | invenio_vocabularies/contrib/subjects/euroscivoc/datastreams.py:87-100 | prefLabel languages take their last prefLabel; only without an `en` prefLabel, the other altLabel languages are added with their first altLabel |
| EuroSciVoc.BroaderChainFollowsFirstBroader | invenio_vocabularies/contrib/subjects/euroscivoc/datastreams.py:107-117 | the reference chain starts at the subject's first broader node, each node is the first broader node of the one before, and the last has none |
| EuroSciVoc.FindParentsFollowsChain | invenio_vocabularies/contrib/subjects/euroscivoc/datastreams.py:102-124 | the walk ends exactly when the first-broader chain ends within the fuel, and then lists the notation of every node of the chain, nearest first |
| EuroSciVoc.BroaderChainFuelMonotone | invenio_vocabularies/contrib/subjects/euroscivoc/datastreams.py:107 | a walk that ends with some fuel ends, with the same chain, with more |
| EuroSciVoc.FindParentsDivergesOnCycle | invenio_vocabularies/contrib/subjects/euroscivoc/datastreams.py:107-122 | once the first-broader walk revisits a node, the loop never ends, whatever the fuel |
| EuroSciVoc.Present | invenio_vocabularies/contrib/subjects/euroscivoc/datastreams.py:143-147 | the result is empty exactly when every notation is missing, and holds exactly the notations that are present |
| EuroSciVoc.PresentAppend | invenio_vocabularies/contrib/subjects/euroscivoc/datastreams.py:143-147 | present notations keep their order and multiplicity: those of a concatenation are those of each part in turn, and one notation is kept exactly when present |
| EuroSciVoc.ParentProps | invenio_vocabularies/contrib/subjects/euroscivoc/datastreams.py:143-152 | `parents` is present exactly when some parent has a notation, and lists the prefixed notations root first |
| EuroSciVoc.TransformEntry | invenio_vocabularies/contrib/subjects/euroscivoc/datastreams.py:126-158 | the id is `euroscivoc:` and the digit notation when there is one; the subject is the capitalised `en` label or empty; the titles, url identifier and parents are as above |
| Gemet.LastTwoSegmentsIsSuffix | invenio_vocabularies/contrib/subjects/gemet/datastreams.py:96 | the concept number is the URI, or its suffix after the second-to-last `/`; it holds at most one `/` and is empty only for an empty URI |
| Gemet.ConceptId | invenio_vocabularies/contrib/subjects/gemet/datastreams.py:133-134 | there is no id exactly for an empty URI; otherwise the id is `gemet:` followed by the concept number |
| Gemet.KeptLabels | invenio_vocabularies/contrib/subjects/gemet/datastreams.py:70-76 | only pairs whose language is tagged and has no `-` are kept, every kept value is capitalised, and every kept language stays |
| Gemet.KeptLabelsAppend | invenio_vocabularies/contrib/subjects/gemet/datastreams.py:70-76 | kept pairs keep their order, and each is its own pair with the value capitalised: those of a concatenation are those of each part in turn, and one pair is kept exactly when its language is kept |
| Gemet.GetLabels | invenio_vocabularies/contrib/subjects/gemet/datastreams.py:68-86 | no title language has a `-` and every title is capitalised; the last kept prefLabel wins; only without an `en` prefLabel, the other altLabel languages get their first altLabel |
| Gemet.FindParents | invenio_vocabularies/contrib/subjects/gemet/datastreams.py:89-100 | the parents are exactly the non-empty concept numbers of the reachable nodes other than the subject |
| Gemet.FindParentsWithinClosedSets | invenio_vocabularies/contrib/subjects/gemet/datastreams.py:89-100 | every parent is the concept number of a node, other than the subject, of every broader-closed set that holds the subject |
| Gemet.FilterThemes | invenio_vocabularies/contrib/subjects/gemet/datastreams.py:122-125 | a relation is kept exactly when its containing `theme` matches the request |
| Gemet.FilterThemesAppend | invenio_vocabularies/contrib/subjects/gemet/datastreams.py:122-125 | the filter keeps order and multiplicity: that of a concatenation is that of each part in turn, and one relation is kept exactly when its theme-ness matches |
| Text.ContainsSubstringIffOccurs | invenio_vocabularies/contrib/subjects/gemet/datastreams.py:122 | `"theme" in uri` holds exactly when `theme` occurs in the URI at some position |
| Gemet.GroupsAndThemesPartitions | invenio_vocabularies/contrib/subjects/gemet/datastreams.py:102-127 | themes are the member relations whose URI contains `theme` and groups are all the others, both in order, and every relation lands in exactly one list |
| Gemet.ParentsValue | invenio_vocabularies/contrib/subjects/gemet/datastreams.py:136-138 | the joined parents are empty only without parents; if no concept number holds a comma, splitting at commas gives back the prefixed parents, root first |
| Gemet.GemetProps | invenio_vocabularies/contrib/subjects/gemet/datastreams.py:142-147 | `parents`, `groups` and `themes` are each present exactly when non-empty, with those values, and no other key appears |
| Gemet.TransformEntry | invenio_vocabularies/contrib/subjects/gemet/datastreams.py:131-164 | the id, titles and url identifier are as above; the subject is the `en` title as it stands or empty; the props come from the parents, groups and themes |
| Awards.ValidateAwardRelation | invenio_vocabularies/contrib/awards/schema.py:61-71 | a rejection reports the bare message under `awards`, not a list, since the lazily translated message is stored unwrapped |
| Awards.AwardRelationAcceptedIffNamed | invenio_vocabularies/contrib/awards/schema.py:61-67 | an award relation is accepted exactly when its truthy fields include `id`, or both `number` and `title` |
| Awards.AwardRelationMonotone | invenio_vocabularies/contrib/awards/schema.py:67 | more truthy fields never turn acceptance into rejection |
| Awards.AwardRelationExamples | invenio_vocabularies/contrib/awards/schema.py:61-71 | `{id}` and `{number, title}` pass; `{}`, `{number}` alone and empty values fail |
| Awards.ValidateFundingRelation | invenio_vocabularies/contrib/awards/schema.py:80-87 | a rejection reports the bare message under `funding`, not a list, since the error is raised with a dictionary message |
| Awards.FundingRelationAccepted | invenio_vocabularies/contrib/awards/schema.py:80-87 | a funding relation is rejected exactly when the funder is absent or empty and the award is absent or empty; an accepted award relation suffices |
| Awards.FundingRelationExamples | invenio_vocabularies/contrib/awards/schema.py:80-87 | `{}` fails; a funder alone or an award alone passes |
| Awards.RequiredNonBlank | invenio_vocabularies/contrib/awards/schema.py:34-42 | a required field has no errors exactly when it is present and non-empty; missing and blank get their own messages |
| Awards.ValidateAward | invenio_vocabularies/contrib/awards/schema.py:34-42 | an award passes exactly when `number` and `pid` are both non-empty; otherwise each failing field, and only those, has its errors, collected together |
| Awards.ValidateAwardFieldsIndependent | invenio_vocabularies/contrib/awards/schema.py:34-42 | whether a field fails depends on that field alone |
| Awards.ExtractPidValue | invenio_vocabularies/contrib/awards/schema.py:45-51 | a falsy `pid` takes the backing pid value; a truthy one and every other field are left alone |
| Awards.ExtractPidValueIdempotent | invenio_vocabularies/contrib/awards/schema.py:45-51 | dumping twice is dumping once, whatever the backing pid value |
| Awards.ExtractPidValueKeepsValid | invenio_vocabularies/contrib/awards/schema.py:45-51 | a valid award is dumped unchanged, and an award with a valid number dumps as a valid award when the backing pid value is non-empty |

## Left out

- Reading and parsing: the HTTP readers, gzip, RDF/XML parsing, and `_iter`'s enumeration of concepts. The graph and the subject are inputs. The `apply` wrappers that put a transformed entry into a stream entry are left out too.
- Unicode: `capitalize` and `isdigit` are modelled for ASCII letters and digits only. Other characters are left as they are and are not digits.
- Typed literals: a label's `.value` is modelled as its lexical form. rdflib's conversion of typed literals to Python values is not modelled.
- Gemet.FindParents: rdflib's `transitive_objects` order is library-defined. The caller supplies it as `order`, any duplicate-free enumeration of the reachable nodes. So only set-level facts about the parents are stated, not their order.
- Gemet.TransformEntry: the `parents` order inherits that of `order` and is not stated.
- EuroSciVoc.TransformEntry: it requires the first-broader walk to end within `fuel` steps. On a cyclic chain the source loops forever, and `FindParentsDivergesOnCycle` proves that no fuel is enough there.
- EuroSciVoc.LabelsReadable, Gemet.LabelsReadable: these are crashes of the source. A label object that is not a literal raises `AttributeError`. A GEMET label without a language tag raises `TypeError` at the `-` test. Such inputs are excluded by precondition, not modelled as results.
- GEMET dead code: the `relation_label` lookup (gemet/datastreams.py:109-119) is never used. It can raise on a non-literal label of a group or theme relation, and that crash is not modelled. The unused dictionary `x` (:148-155) is left out as well.
- GEMET reader quirks: the ignored `origin` argument and the import of a name absent from `config.py` are left out.
- Award identifiers: `IdentifierSet` and `IdentifierSchema` scheme detection depend on idutils and on an `award_schemes` that is not part of this model.
- Awards.ValidateAward: the length check is on the raw value. `SanitizedUnicode` trims and sanitises before it, so a whitespace-only number is blank in the source but not here.
- Awards.ExtractPidValue: the source writes the backing value into the very record being dumped and returns that object, so a dump with a falsy `pid` changes the caller's record for good; the model returns a new award and leaves its input alone. The source reads the backing value through that same record's `pid` attribute and raises when it is unset; here the value is a separate parameter, so that failure and the tie between the two are not modelled.
- Awards.ValidateFundingRelation: nested validation of `funder` (`FunderRelationSchema`, not part of this model) and of `award` runs before this check, and the check is skipped when nested validation fails. Only the presence check itself is modelled.
- Award schema plumbing: `BaseVocabularySchema` fields, `i18n_strings` validation of titles, and `lazy_gettext` message translation are left out. The messages are the untranslated English texts; `MISSING_MESSAGE` is marshmallow's default.
- Plumbing files: `services/components.py`, `config.py` and `__init__.py` hold no logic of the three pieces.
- Test expectations: `tests/contrib/subjects/euroscivoc/test_subjects_euroscivoc_datastream.py:51-75` expects a record the code does not produce. It expects:
  - the URI as `id`;
  - an uncapitalised `subject`;
  - no `props` or `identifiers`.
  
  The model follows the code.
