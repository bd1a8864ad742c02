/**
 * The Stakeholder record: its attributes, its validations, the two code
 * tables and the label and option helpers built on them, and the default
 * listing order by `position`.
 */
module Stakeholders {
  import opened Values
  import opened Sorting

  /** `Stakeholder::LOCATION_TYPES`. */
  const LOCATION_TYPES: seq<string> := ["internal", "external"]

  /** `Stakeholder::INFLUENCE_ATTITUDES`. */
  const INFLUENCE_ATTITUDES: seq<string> :=
    ["completely_unaware", "resistant", "neutral", "supportive", "leading"]

  const NAME_MAX: nat := 255
  const TITLE_MAX: nat := 255
  const LOCATION_TYPE_MAX: nat := 50
  const PROJECT_ROLE_MAX: nat := 255

  /**
   * A stakeholders row. The key, the owning project and the per-project
   * sequence number are typed columns that no request may assign; every
   * other column is an entry of `attrs` (an absent entry reads as nil).
   */
  datatype Stakeholder = Stakeholder(id: int, projectId: int, sequenceNumber: int, attrs: map<string, Value>)

  /** Column names that never come from request parameters. */
  const STRUCTURAL_FIELDS: set<string> := {"id", "project_id", "project_sequence_number"}

  /** The attribute reader `stakeholder.public_send(field)`. */
  function Attr(s: Stakeholder, f: string): (v: Value)
    ensures f == "id" ==> v == Int(s.id)
    ensures f == "project_id" ==> v == Int(s.projectId)
    ensures f == "project_sequence_number" ==> v == Int(s.sequenceNumber)
    ensures f !in STRUCTURAL_FIELDS && f !in s.attrs ==> v == Nil
  {
    if f == "id" then Int(s.id)
    else if f == "project_id" then Int(s.projectId)
    else if f == "project_sequence_number" then Int(s.sequenceNumber)
    else if f in s.attrs then s.attrs[f]
    else Nil
  }

  /** Attribute assignment `stakeholder.field = v` for an assignable column. */
  function Assign(s: Stakeholder, f: string, v: Value): (r: Stakeholder)
    requires f !in STRUCTURAL_FIELDS
    ensures Attr(r, f) == v
    ensures forall g :: g != f ==> Attr(r, g) == Attr(s, g)
    ensures r.id == s.id && r.projectId == s.projectId && r.sequenceNumber == s.sequenceNumber
  {
    s.(attrs := s.attrs[f := v])
  }

  ghost predicate Assignable(params: seq<(string, Value)>)
  {
    forall k :: 0 <= k < |params| ==> params[k].0 !in STRUCTURAL_FIELDS
  }

  function KeysOf(params: seq<(string, Value)>): set<string>
  {
    set k | 0 <= k < |params| :: params[k].0
  }

  ghost predicate DistinctKeys(params: seq<(string, Value)>)
  {
    forall i, j :: 0 <= i < j < |params| ==> params[i].0 != params[j].0
  }

  /** `assign_attributes(params)`: the pairs are written one after another. */
  function AssignAll(s: Stakeholder, params: seq<(string, Value)>): (r: Stakeholder)
    requires Assignable(params)
    ensures r.id == s.id && r.projectId == s.projectId && r.sequenceNumber == s.sequenceNumber
    decreases |params|
  {
    if params == [] then s
    else
      var n := |params| - 1;
      Assign(AssignAll(s, params[..n]), params[n].0, params[n].1)
  }

  /** With distinct keys every submitted attribute ends up with its value, and no other attribute moves. */
  lemma {:induction false} AssignAllAttr(s: Stakeholder, params: seq<(string, Value)>)
    requires Assignable(params) && DistinctKeys(params)
    ensures forall k :: 0 <= k < |params| ==> Attr(AssignAll(s, params), params[k].0) == params[k].1
    ensures forall f :: f !in KeysOf(params) ==> Attr(AssignAll(s, params), f) == Attr(s, f)
    decreases |params|
  {
    if params != [] {
      var n := |params| - 1;
      var init := params[..n];
      AssignAllAttr(s, init);
      assert forall k :: 0 <= k < n ==> init[k] == params[k];
      forall f | f !in KeysOf(params) ensures Attr(AssignAll(s, params), f) == Attr(s, f) {
        assert f != params[n].0;
        forall k | 0 <= k < |init| ensures init[k].0 != f {
          assert params[k].0 in KeysOf(params);
        }
        assert f !in KeysOf(init);
      }
    }
  }

  // ---------------------------------------------------------------------------
  // Validations
  // ---------------------------------------------------------------------------

  /** `length: { maximum: max }, allow_blank: true`. */
  predicate BlankOrAtMost(v: Value, max: nat)
  {
    Blank(v) || Length(v) <= max
  }

  /** `inclusion: { in: INFLUENCE_ATTITUDES }, allow_nil: true`. */
  predicate NilOrInfluenceAttitude(v: Value)
  {
    v == Nil || (v.Str? && v.s in INFLUENCE_ATTITUDES)
  }

  /**
   * `stakeholder.valid?`: every validation of the model passes. The model's
   * project id is an integer, never nil, so the first conjunct holds for every
   * record; it is kept to mirror `validates :project_id, presence: true`, and
   * the "has a project" half of `ValidHasProjectAndName` is trivial for the
   * same reason.
   */
  predicate IsValid(s: Stakeholder)
  {
    && Present(Attr(s, "project_id"))
    && Present(Attr(s, "name")) && Length(Attr(s, "name")) <= NAME_MAX
    && BlankOrAtMost(Attr(s, "title"), TITLE_MAX)
    && BlankOrAtMost(Attr(s, "location_type"), LOCATION_TYPE_MAX)
    && BlankOrAtMost(Attr(s, "project_role"), PROJECT_ROLE_MAX)
    && NilOrInfluenceAttitude(Attr(s, "influence_attitude"))
  }

  /** The mandatory part: a valid record has a project and a present name of at most 255 characters. */
  lemma ValidHasProjectAndName(s: Stakeholder)
    requires IsValid(s)
    ensures Present(Attr(s, "project_id")) && Present(Attr(s, "name")) && |ToS(Attr(s, "name"))| <= 255
  {
  }

  function NameOnly(name: string): map<string, Value>
  {
    map["name" := Str(name)]
  }

  /**
   * `location_type` is only length-checked: a code outside LOCATION_TYPES is
   * accepted, whereas an unknown influence attitude (even the empty string) is not.
   */
  lemma LocationTypeNotRestricted(p: int)
    ensures IsValid(Stakeholder(1, p, 0, NameOnly("a")["location_type" := Str("martian")]))
    ensures !IsValid(Stakeholder(1, p, 0, NameOnly("a")["influence_attitude" := Str("")]))
    ensures !IsValid(Stakeholder(1, p, 0, NameOnly("a")["influence_attitude" := Str("hostile")]))
  {
    var ok := Stakeholder(1, p, 0, NameOnly("a")["location_type" := Str("martian")]);
    assert Attr(ok, "name") == Str("a") && !IsRubySpace("a"[0]);
    assert Attr(ok, "title") == Nil && Attr(ok, "project_role") == Nil && Attr(ok, "influence_attitude") == Nil;
    assert Attr(ok, "location_type") == Str("martian");
    assert Length(Str("martian")) == 7;
    var bad1 := Stakeholder(1, p, 0, NameOnly("a")["influence_attitude" := Str("")]);
    assert Attr(bad1, "influence_attitude") == Str("");
    var bad2 := Stakeholder(1, p, 0, NameOnly("a")["influence_attitude" := Str("hostile")]);
    assert Attr(bad2, "influence_attitude") == Str("hostile");
  }

  /** A blank optional field never makes a record invalid, however it is spelt. */
  lemma BlankOptionalFieldsPass(s: Stakeholder, spaces: string)
    requires IsValid(s)
    requires BlankString(spaces)
    ensures IsValid(Assign(s, "title", Str(spaces)))
    ensures IsValid(Assign(s, "location_type", Str(spaces)))
    ensures IsValid(Assign(s, "project_role", Str(spaces)))
  {
  }

  // ---------------------------------------------------------------------------
  // Labels and options
  // ---------------------------------------------------------------------------

  /** The `I18n.t(key, default: code)` lookup used for a non-blank code value. */
  function CodeLabel(tr: Translations, scope: string, v: Value): (r: string)
    ensures scope + ToS(v) !in tr ==> r == ToS(v)
    ensures scope + ToS(v) in tr ==> r == tr[scope + ToS(v)]
  {
    Translate(tr, scope + ToS(v), ToS(v))
  }

  const LOCATION_TYPE_SCOPE := "stakeholder.location_type."
  const INFLUENCE_ATTITUDE_SCOPE := "stakeholder.influence_attitude."

  function LocationTypeLabel(s: Stakeholder, tr: Translations): (r: string)
    ensures Blank(Attr(s, "location_type")) ==> r == ""
    ensures !Blank(Attr(s, "location_type")) ==> r == CodeLabel(tr, LOCATION_TYPE_SCOPE, Attr(s, "location_type"))
  {
    var v := Attr(s, "location_type");
    if Blank(v) then "" else CodeLabel(tr, LOCATION_TYPE_SCOPE, v)
  }

  function InfluenceAttitudeLabel(s: Stakeholder, tr: Translations): (r: string)
    ensures Blank(Attr(s, "influence_attitude")) ==> r == ""
    ensures !Blank(Attr(s, "influence_attitude")) ==> r == CodeLabel(tr, INFLUENCE_ATTITUDE_SCOPE, Attr(s, "influence_attitude"))
  {
    var v := Attr(s, "influence_attitude");
    if Blank(v) then "" else CodeLabel(tr, INFLUENCE_ATTITUDE_SCOPE, v)
  }

  /** With no translation for the code, a label falls back to the raw code. */
  lemma LabelsDefaultToCode(s: Stakeholder, tr: Translations)
    requires Present(Attr(s, "location_type")) && LOCATION_TYPE_SCOPE + ToS(Attr(s, "location_type")) !in tr
    ensures LocationTypeLabel(s, tr) == ToS(Attr(s, "location_type"))
    ensures |LocationTypeLabel(s, tr)| > 0
  {
    match Attr(s, "location_type")
    case Str(c) => assert c != "";
    case Int(_) =>
  }

  /** `CODES.map { |c| [I18n.t("<scope><c>"), c] }`: [label, code] pairs in table order. */
  function OptionPairs(tr: Translations, scope: string, codes: seq<string>): (r: seq<(string, string)>)
    ensures |r| == |codes|
    ensures forall k :: 0 <= k < |r| ==> r[k] == (TranslateOrMissing(tr, scope + codes[k]), codes[k])
  {
    if codes == [] then []
    else [(TranslateOrMissing(tr, scope + codes[0]), codes[0])] + OptionPairs(tr, scope, codes[1..])
  }

  function LocationTypeOptions(tr: Translations): (r: seq<(string, string)>)
    ensures |r| == 2 && r[0].1 == "internal" && r[1].1 == "external"
  {
    OptionPairs(tr, LOCATION_TYPE_SCOPE, LOCATION_TYPES)
  }

  function InfluenceAttitudeOptions(tr: Translations): (r: seq<(string, string)>)
    ensures |r| == |INFLUENCE_ATTITUDES|
    ensures forall k :: 0 <= k < |r| ==> r[k].1 == INFLUENCE_ATTITUDES[k]
  {
    OptionPairs(tr, INFLUENCE_ATTITUDE_SCOPE, INFLUENCE_ATTITUDES)
  }

  // ---------------------------------------------------------------------------
  // Listing: `default_scope { order(:position) }`
  // ---------------------------------------------------------------------------

  ghost predicate KeyedById(records: map<int, Stakeholder>)
  {
    forall k :: k in records ==> records[k].id == k
  }

  /** The rows of project `p` whose ids lie in [lo, hi), in id order. */
  function ProjectRows(records: map<int, Stakeholder>, p: int, lo: int, hi: int): (r: seq<Stakeholder>)
    requires KeyedById(records)
    ensures forall x :: x in r <==> lo <= x.id < hi && x.id in records && records[x.id] == x && x.projectId == p
    decreases hi - lo
  {
    if lo >= hi then []
    else
      var rest := ProjectRows(records, p, lo + 1, hi);
      if lo in records && records[lo].projectId == p then [records[lo]] + rest else rest
  }

  /** The comparison ORDER BY position applies to two rows. */
  function ByPosition(positionLe: (Value, Value) -> bool): (Stakeholder, Stakeholder) -> bool
  {
    (a: Stakeholder, b: Stakeholder) => positionLe(Attr(a, "position"), Attr(b, "position"))
  }

  lemma ByPositionIsPreorder(positionLe: (Value, Value) -> bool)
    requires TotalPreorder(positionLe)
    ensures TotalPreorder(ByPosition(positionLe))
  {
    var le := ByPosition(positionLe);
    forall a, b ensures le(a, b) || le(b, a) {
      assert positionLe(Attr(a, "position"), Attr(b, "position")) || positionLe(Attr(b, "position"), Attr(a, "position"));
    }
    forall a, b, c | le(a, b) && le(b, c) ensures le(a, c) {
      assert positionLe(Attr(a, "position"), Attr(b, "position")) && positionLe(Attr(b, "position"), Attr(c, "position"));
    }
  }

  /**
   * `project.stakeholders` under the default scope: the project's rows ordered
   * by position. `positionLe` is the database's ordering of position values
   * (its NULL placement and ties are the database's business).
   */
  function ListForProject(records: map<int, Stakeholder>, p: int, bound: int, positionLe: (Value, Value) -> bool): seq<Stakeholder>
    requires KeyedById(records)
  {
    SortBy(ProjectRows(records, p, 0, bound), ByPosition(positionLe))
  }

  /** Two equal elements at two positions count twice in the multiset. */
  lemma RepeatCountsTwice<T>(r: seq<T>, i: int, j: int)
    requires 0 <= i < j < |r|
    ensures r[i] == r[j] ==> multiset(r)[r[i]] >= 2
  {
    assert r == r[..j] + r[j..];
    assert r[i] in r[..j];
    assert r[j] == r[j..][0];
  }

  /** The listing is ordered by position. */
  lemma ListForProjectSorted(records: map<int, Stakeholder>, p: int, bound: int, positionLe: (Value, Value) -> bool)
    requires KeyedById(records)
    requires TotalPreorder(positionLe)
    ensures var r := ListForProject(records, p, bound, positionLe);
      forall i, j :: 0 <= i < j < |r| ==> positionLe(Attr(r[i], "position"), Attr(r[j], "position"))
  {
    var r := ListForProject(records, p, bound, positionLe);
    ByPositionIsPreorder(positionLe);
    SortByCorrect(ProjectRows(records, p, 0, bound), ByPosition(positionLe));
    forall i, j | 0 <= i < j < |r| ensures positionLe(Attr(r[i], "position"), Attr(r[j], "position")) {
      assert ByPosition(positionLe)(r[i], r[j]);
    }
  }

  /** The listing holds exactly the project's rows, each of them once. */
  lemma ListForProjectMembers(records: map<int, Stakeholder>, p: int, bound: int, positionLe: (Value, Value) -> bool)
    requires KeyedById(records)
    requires forall k :: k in records ==> 0 <= k < bound
    ensures var r := ListForProject(records, p, bound, positionLe);
      && (forall x :: x in r <==> x.id in records && records[x.id] == x && x.projectId == p)
      && (forall i, j :: 0 <= i < j < |r| ==> r[i].id != r[j].id)
  {
    var rows := ProjectRows(records, p, 0, bound);
    var r := ListForProject(records, p, bound, positionLe);
    forall x ensures x in r <==> x in rows {
      SortByMembers(rows, ByPosition(positionLe), x);
    }
    ProjectRowsDistinct(records, p, 0, bound);
    forall i, j | 0 <= i < j < |r| ensures r[i].id != r[j].id {
      RepeatCountsTwice(r, i, j);
      assert multiset(rows)[r[i]] <= 1;
    }
  }

  lemma {:induction false} ProjectRowsDistinct(records: map<int, Stakeholder>, p: int, lo: int, hi: int)
    requires KeyedById(records)
    ensures forall x :: multiset(ProjectRows(records, p, lo, hi))[x] <= 1
    decreases hi - lo
  {
    if lo < hi {
      ProjectRowsDistinct(records, p, lo + 1, hi);
    }
  }
}
