/** The award schemas: the cross-field presence checks of an award relation and a funding
    relation, the required non-blank `number` and `pid` of an award, and the `pid` an award
    takes from its backing record before it is dumped. A field the input leaves out is
    `None`; Python's truthiness becomes `Truthy`. */
module Awards {
  import opened Wrappers

  const AWARD_RELATION_MESSAGE := "An existing id or number/title must be present."
  const FUNDING_MESSAGE := "At least award or funder should be present."
  const NUMBER_BLANK_MESSAGE := "Number cannot be blank."
  const PID_BLANK_MESSAGE := "Pid cannot be blank."
  /** marshmallow's message for a `required` field the input leaves out. */
  const MISSING_MESSAGE := "Missing data for required field."

  /** The messages of a failed field validation, per field name. marshmallow wraps a
      formatted `str` message in a list. */
  type Errors = map<string, seq<string>>

  /** The report of a schema-level check that raises with a dictionary message or with a
      lazily translated message: marshmallow wraps neither in a list, so each name holds a
      single message. */
  type BareErrors = map<string, string>

  /** A string field is truthy when present and not empty. */
  predicate Truthy(v: Option<string>) {
    v.Some? && v.value != ""
  }

  /** A dictionary field is truthy when present and not empty. */
  predicate TruthyMap<V>(v: Option<map<string, V>>) {
    v.Some? && v.value != map[]
  }

  /** A loaded award relation; `title` maps languages to titles. */
  datatype AwardRelation = AwardRelation(
    id: Option<string>,
    number: Option<string>,
    title: Option<map<string, string>>)

  /** The names of the fields of `r` that are truthy. */
  function PresentFields(r: AwardRelation): (fields: set<string>)
    ensures fields <= {"id", "number", "title"}
  {
    (if Truthy(r.id) then {"id"} else {})
    + (if Truthy(r.number) then {"number"} else {})
    + (if TruthyMap(r.title) then {"title"} else {})
  }

  /** `AwardRelationSchema.validate_data`. Its message is a lazily translated string, not a
      `str`, so marshmallow files it unwrapped under the field name `awards`. */
  function ValidateAwardRelation(r: AwardRelation): (o: Outcome<BareErrors>)
    ensures o.Fail? ==> o.error == map["awards" := AWARD_RELATION_MESSAGE]
  {
    if !Truthy(r.id) && !(Truthy(r.number) && TruthyMap(r.title)) then
      Fail(map["awards" := AWARD_RELATION_MESSAGE])
    else Pass
  }

  /** An award relation is accepted exactly when its truthy fields cover one of the two
      ways of naming an award: an id, or a number with a title. */
  lemma AwardRelationAcceptedIffNamed(r: AwardRelation)
    ensures ValidateAwardRelation(r).Pass? <==>
              ({"id"} <= PresentFields(r) || {"number", "title"} <= PresentFields(r))
  {
  }

  /** Giving an accepted award relation more truthy fields keeps it accepted. */
  lemma AwardRelationMonotone(r: AwardRelation, r': AwardRelation)
    requires PresentFields(r) <= PresentFields(r')
    ensures ValidateAwardRelation(r).Pass? ==> ValidateAwardRelation(r').Pass?
  {
    AwardRelationAcceptedIffNamed(r);
    AwardRelationAcceptedIffNamed(r');
  }

  /** The cases the schema promises: an id alone, or a number and a title, are enough;
      nothing, or a number without a title, is not. */
  lemma AwardRelationExamples()
    ensures ValidateAwardRelation(AwardRelation(Some("X"), None, None)).Pass?
    ensures ValidateAwardRelation(AwardRelation(None, Some("42"), Some(map["en" := "Prize"]))).Pass?
    ensures ValidateAwardRelation(AwardRelation(None, None, None)).Fail?
    ensures ValidateAwardRelation(AwardRelation(None, Some("42"), None)).Fail?
    ensures ValidateAwardRelation(AwardRelation(Some(""), Some("42"), Some(map[]))).Fail?
  {
    assert map["en" := "Prize"] != map[] by {
      assert "en" in map["en" := "Prize"];
    }
  }

  /** The dictionary a loaded award relation becomes: truthy when it holds any key, even
      one with an empty value. */
  predicate AwardRelationTruthy(r: AwardRelation) {
    r.id.Some? || r.number.Some? || r.title.Some?
  }

  /** A loaded funding relation. The funder reference is its dictionary of loaded fields. */
  datatype FundingRelation = FundingRelation(
    funder: Option<map<string, string>>,
    award: Option<AwardRelation>)

  /** `FundingRelationSchema.validate_data`. It raises with a dictionary message, so the
      report holds the bare message under `funding`. */
  function ValidateFundingRelation(f: FundingRelation): (o: Outcome<BareErrors>)
    ensures o.Fail? ==> o.error == map["funding" := FUNDING_MESSAGE]
  {
    if !TruthyMap(f.funder) && !(f.award.Some? && AwardRelationTruthy(f.award.value)) then
      Fail(map["funding" := FUNDING_MESSAGE])
    else Pass
  }

  /** A funding relation is rejected only when it names neither a funder nor an award,
      and an award relation accepted on its own is enough to name an award. */
  lemma FundingRelationAccepted(f: FundingRelation)
    ensures ValidateFundingRelation(f).Fail? <==>
              ((f.funder.None? || f.funder.value == map[]) && (f.award.None? || f.award.value == AwardRelation(None, None, None)))
    ensures f.award.Some? && ValidateAwardRelation(f.award.value).Pass? ==> ValidateFundingRelation(f).Pass?
  {
  }

  lemma FundingRelationExamples()
    ensures ValidateFundingRelation(FundingRelation(None, None)).Fail?
    ensures ValidateFundingRelation(FundingRelation(Some(map["id" := "00k4n6c32"]), None)).Pass?
    ensures ValidateFundingRelation(FundingRelation(None, Some(AwardRelation(Some("755021"), None, None)))).Pass?
  {
    assert "id" in map["id" := "00k4n6c32"];
  }

  /** A loaded award. Its identifiers are left out. */
  datatype Award = Award(
    number: Option<string>,
    funder: Option<map<string, string>>,
    pid: Option<string>,
    acronym: Option<string>)

  /** The errors of one required string field with a minimum length of one. */
  function RequiredNonBlank(v: Option<string>, blank: string): (messages: seq<string>)
    ensures messages == [] <==> Truthy(v)
    ensures v.None? ==> messages == [MISSING_MESSAGE]
    ensures v == Some("") ==> messages == [blank]
  {
    if v.None? then [MISSING_MESSAGE]
    else if |v.value| < 1 then [blank]
    else []
  }

  /** The field errors of `AwardSchema` for `number` and `pid`, all collected together. */
  function ValidateAward(a: Award): (o: Outcome<Errors>)
    ensures o.Pass? <==> Truthy(a.number) && Truthy(a.pid)
    ensures o.Fail? ==>
              && o.error.Keys == (if Truthy(a.number) then {} else {"number"}) + (if Truthy(a.pid) then {} else {"pid"})
              && ("number" in o.error ==> o.error["number"] == RequiredNonBlank(a.number, NUMBER_BLANK_MESSAGE))
              && ("pid" in o.error ==> o.error["pid"] == RequiredNonBlank(a.pid, PID_BLANK_MESSAGE))
  {
    var number := RequiredNonBlank(a.number, NUMBER_BLANK_MESSAGE);
    var pid := RequiredNonBlank(a.pid, PID_BLANK_MESSAGE);
    if number == [] && pid == [] then Pass
    else Fail((if number == [] then map[] else map["number" := number])
              + (if pid == [] then map[] else map["pid" := pid]))
  }

  /** The checks of the two fields are independent: one field's errors do not depend on
      the other field or on the funder and acronym. */
  lemma ValidateAwardFieldsIndependent(a: Award, b: Award)
    requires ValidateAward(a).Fail? && ValidateAward(b).Fail?
    ensures a.number == b.number ==>
              ("number" in ValidateAward(a).error <==> "number" in ValidateAward(b).error)
    ensures a.pid == b.pid ==> ("pid" in ValidateAward(a).error <==> "pid" in ValidateAward(b).error)
  {
  }

  /** `extract_pid_value`: a falsy `pid` is replaced by the pid value of the backing
      record. */
  function ExtractPidValue(a: Award, backingPid: string): (r: Award)
    ensures r.number == a.number && r.funder == a.funder && r.acronym == a.acronym
    ensures Truthy(a.pid) ==> r.pid == a.pid
    ensures !Truthy(a.pid) ==> r.pid == Some(backingPid)
  {
    if !Truthy(a.pid) then a.(pid := Some(backingPid)) else a
  }

  /** Dumping twice is dumping once. */
  lemma ExtractPidValueIdempotent(a: Award, backingPid: string)
    ensures ExtractPidValue(ExtractPidValue(a, backingPid), backingPid) == ExtractPidValue(a, backingPid)
  {
  }

  /** An award that passed loading is dumped unchanged, and any award with a valid number
      dumps as a valid award when the backing pid value is not empty. */
  lemma ExtractPidValueKeepsValid(a: Award, backingPid: string)
    ensures ValidateAward(a).Pass? ==> ExtractPidValue(a, backingPid) == a
    ensures backingPid != "" && Truthy(a.number) ==> ValidateAward(ExtractPidValue(a, backingPid)).Pass?
  {
  }
}
