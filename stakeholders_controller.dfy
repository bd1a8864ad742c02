/**
 * StakeholdersController: the field-mutation gate in front of the stakeholders
 * table and the audit ledger. Each action is specified by a pure function from
 * the old state and the request to the reply and the new state; the class
 * `StakeholderStore` performs the actions step by step and is proved to agree
 * with those functions.
 */
module StakeholdersController {
  import opened Values
  import opened Stakeholders
  import opened StakeholderHistory

  // ---------------------------------------------------------------------------
  // Whitelists
  // ---------------------------------------------------------------------------

  /** `ALLOWED_INLINE_FIELDS`. */
  const ALLOWED_INLINE_FIELDS: seq<string> :=
    ["name", "title", "location_type", "project_role", "primary_needs", "expectations",
     "participation_degree", "power", "interest"]

  /** `ALLOWED_READABLE_FIELDS`. */
  const ALLOWED_READABLE_FIELDS: seq<string> :=
    ["name", "title", "location_type", "project_role", "primary_needs", "expectations",
     "participation_degree", "power", "interest",
     "project_sequence_number", "id", "created_at", "updated_at"]

  /** The readable columns `format_field_value` shows as stored (its `else` branch). */
  const PLAIN_READABLE_FIELDS: seq<string> :=
    ["name", "title", "project_role", "project_sequence_number", "id", "created_at", "updated_at"]

  /** The scalar keys `stakeholder_params` permits, in the order of the `permit` call. */
  const PERMITTED_PARAMS: seq<string> :=
    ["name", "title", "location_type", "project_role", "primary_needs", "expectations",
     "participation_degree", "power", "interest", "position"]

  /** The inline field whitelist sits inside both other lists and never reaches a protected column. */
  lemma WhitelistRelations()
    ensures forall f :: f in ALLOWED_INLINE_FIELDS ==> f in ALLOWED_READABLE_FIELDS && f in PERMITTED_PARAMS
    ensures "position" !in ALLOWED_INLINE_FIELDS && "id" !in ALLOWED_INLINE_FIELDS
    ensures "project_sequence_number" !in ALLOWED_INLINE_FIELDS && "project_id" !in ALLOWED_INLINE_FIELDS
    ensures forall f :: f in PERMITTED_PARAMS ==> f !in STRUCTURAL_FIELDS
  {
  }

  // ---------------------------------------------------------------------------
  // Replies
  // ---------------------------------------------------------------------------

  const FORBIDDEN := 403
  const UNPROCESSABLE_ENTITY := 422
  const TOO_MANY_REQUESTS := 429

  const PERMISSION_DENIED := "Permission denied"
  const RATE_LIMITED := "Too many requests. Please try again later."
  const INVALID_FIELD := "Invalid field"
  const UPDATE_FAILED := "Update failed. Please check your input."

  /** What `format_field_value` yields for the JSON reply. */
  datatype Formatted =
    | Shown(value: Value)
      /** The field is rendered by a label method of the record that is not part of this model. */
    | LabelNotModelled(labelMethod: string)

  datatype Reply =
    | Ok(formatted: Formatted)                  // JSON `{ success: true, formatted_value: ... }`
    | Rejected(status: int, message: string)    // JSON `{ success: false, errors: [message] }`
    | Redirected                                // redirect to the stakeholder list
    | NotFound                                  // `render_404`
    | BadRequest                                // `params.require(:stakeholder)` raised

  // ---------------------------------------------------------------------------
  // Pure helpers of the controller
  // ---------------------------------------------------------------------------

  /**
   * `sanitize_csv_value`: a string that a spreadsheet would read as a formula
   * gets a leading apostrophe; anything else passes through.
   */
  predicate StartsWithFormulaChar(s: string)
  {
    |s| > 0 && (s[0] == '=' || s[0] == '+' || s[0] == '-' || s[0] == '@' || s[0] == '\t' || s[0] == '\r')
  }

  function SanitizeCsvValue(v: Value): (r: Value)
    ensures !v.Str? ==> r == v
    ensures v.Str? && StartsWithFormulaChar(v.s) ==> r == Str("'" + v.s)
    ensures v.Str? && !StartsWithFormulaChar(v.s) ==> r == v
  {
    match v
    case Str(s) => if StartsWithFormulaChar(s) then Str("'" + s) else v
    case _ => v
  }

  /** No sanitised cell starts with a formula character, and sanitising again changes nothing. */
  lemma SanitizeCsvValueIdempotent(v: Value)
    ensures var r := SanitizeCsvValue(v); !(r.Str? && StartsWithFormulaChar(r.s))
    ensures SanitizeCsvValue(SanitizeCsvValue(v)) == SanitizeCsvValue(v)
  {
    if v.Str? && StartsWithFormulaChar(v.s) {
      assert ("'" + v.s)[0] == '\'';
    }
  }

  /** `String#truncate(length)` with the default "..." omission. */
  function Truncate(text: string, length: nat): (r: string)
    requires length >= 3
    ensures |r| <= length
    ensures |text| <= length ==> r == text
    ensures |text| > length ==> |r| == length && r[..length - 3] == text[..length - 3] && r[length - 3..] == "..."
  {
    if |text| <= length then text else text[..length - 3] + "..."
  }

  const TRUNCATE_LENGTH: nat := 50

  /** `format_field_value(field, stakeholder)`. */
  function FormatFieldValue(field: string, s: Stakeholder, tr: Translations): Formatted
  {
    if field !in ALLOWED_READABLE_FIELDS then Shown(Str(""))
    else if field == "location_type" then Shown(Str(LocationTypeLabel(s, tr)))
    else if field == "influence_attitude" then Shown(Str(InfluenceAttitudeLabel(s, tr)))
    else if field == "power" then LabelNotModelled("power_label")
    else if field == "interest" then LabelNotModelled("interest_label")
    else if field == "participation_degree" then LabelNotModelled("participation_degree_label")
    else if field == "primary_needs" || field == "expectations" then
      var v := Attr(s, field);
      if Present(v) then Shown(Str(Truncate(ToS(v), TRUNCATE_LENGTH))) else Shown(Str(""))
    else
      var v := Attr(s, field);
      if v == Nil then Shown(Str("")) else Shown(v)
  }

  /**
   * The whitelist check comes first: an unlisted field reads as "", and that
   * includes `influence_attitude`, whose own branch can therefore never run.
   * The two long text fields are shown blank-as-empty and cut to 50 characters,
   * a long one as its first 47 characters and "...".
   */
  lemma FormatFieldValueProperties(field: string, s: Stakeholder, tr: Translations)
    ensures field !in ALLOWED_READABLE_FIELDS ==> FormatFieldValue(field, s, tr) == Shown(Str(""))
    ensures FormatFieldValue("influence_attitude", s, tr) == Shown(Str(""))
    ensures (field == "primary_needs" || field == "expectations") ==>
      && FormatFieldValue(field, s, tr).Shown?
      && FormatFieldValue(field, s, tr).value.Str?
      && |FormatFieldValue(field, s, tr).value.s| <= 50
      && (Blank(Attr(s, field)) ==> FormatFieldValue(field, s, tr).value.s == "")
      && (Present(Attr(s, field)) && |ToS(Attr(s, field))| <= 50 ==> FormatFieldValue(field, s, tr).value.s == ToS(Attr(s, field)))
      && (Present(Attr(s, field)) && |ToS(Attr(s, field))| > 50 ==>
            FormatFieldValue(field, s, tr).value.s == ToS(Attr(s, field))[..47] + "...")
    ensures field == "location_type" ==> FormatFieldValue(field, s, tr) == Shown(Str(LocationTypeLabel(s, tr)))
  {
    if (field == "primary_needs" || field == "expectations") && Present(Attr(s, field)) && |ToS(Attr(s, field))| > 50 {
      var t := ToS(Attr(s, field));
      var r := Truncate(t, TRUNCATE_LENGTH);
      assert r == r[..47] + r[47..];
      assert r[..47] == t[..47];
    }
  }

  /**
   * The three label fields call label methods the record does not define; every
   * other readable column is shown as stored, nil as "".
   */
  lemma FormatFieldValueOtherColumns(field: string, s: Stakeholder, tr: Translations)
    ensures FormatFieldValue("power", s, tr) == LabelNotModelled("power_label")
    ensures FormatFieldValue("interest", s, tr) == LabelNotModelled("interest_label")
    ensures FormatFieldValue("participation_degree", s, tr) == LabelNotModelled("participation_degree_label")
    ensures field in PLAIN_READABLE_FIELDS ==>
      FormatFieldValue(field, s, tr) == (if Attr(s, field) == Nil then Shown(Str("")) else Shown(Attr(s, field)))
    ensures forall f :: f in ALLOWED_READABLE_FIELDS ==>
      f in PLAIN_READABLE_FIELDS || f in ["location_type", "primary_needs", "expectations", "power", "interest", "participation_degree"]
  {
  }

  /** `params[:field].to_s` as `format_field_value` sees it. */
  function FieldParam(field: Option<string>): string
  {
    if field.Some? then field.value else ""
  }

  /** The request's `stakeholder` hash. */
  type Params = map<string, Value>

  /** `params.require(:stakeholder)` succeeds: the hash is there and not empty. */
  predicate Required(submitted: Option<Params>)
  {
    submitted.Some? && |submitted.value| > 0
  }

  /**
   * `permit(*keys)`: the submitted pairs whose key is listed, in the order of
   * `keys`; a key listed twice is taken once, as the resulting hash holds it once.
   */
  function Permit(submitted: Params, keys: seq<string>): (r: seq<(string, Value)>)
    ensures forall k :: 0 <= k < |r| ==> r[k].0 in keys && r[k].0 in submitted && r[k].1 == submitted[r[k].0]
    ensures DistinctKeys(r)
    decreases |keys|
  {
    if keys == [] then []
    else
      var n := |keys| - 1;
      var init := Permit(submitted, keys[..n]);
      if keys[n] in submitted && keys[n] !in KeysOf(init) then
        var r := init + [(keys[n], submitted[keys[n]])];
        assert forall k :: 0 <= k < |init| ==> r[k] == init[k] && init[k].0 in KeysOf(init);
        r
      else init
  }

  /** Every listed key that was submitted is kept. */
  lemma {:induction false} PermitKeepsListed(submitted: Params, keys: seq<string>, f: string)
    requires f in keys && f in submitted
    ensures f in KeysOf(Permit(submitted, keys))
    decreases |keys|
  {
    var n := |keys| - 1;
    var init := Permit(submitted, keys[..n]);
    var r := Permit(submitted, keys);
    if f in keys[..n] {
      PermitKeepsListed(submitted, keys[..n], f);
      var k :| 0 <= k < |init| && init[k].0 == f;
      assert r[k] == init[k];
    } else {
      assert keys[n] == f;
      if f !in KeysOf(init) {
        assert r[|init|].0 == f;
      }
    }
  }

  /** `stakeholder_params`. */
  function StakeholderParams(submitted: Params): (r: seq<(string, Value)>)
    ensures Assignable(r) && DistinctKeys(r)
    ensures forall k :: 0 <= k < |r| ==> r[k].0 in PERMITTED_PARAMS && r[k].0 in submitted && r[k].1 == submitted[r[k].0]
  {
    WhitelistRelations();
    Permit(submitted, PERMITTED_PARAMS)
  }

  /** `stakeholder_params` keeps every permitted key that was submitted. */
  lemma StakeholderParamsKeeps(submitted: Params, f: string)
    requires f in PERMITTED_PARAMS && f in submitted
    ensures f in KeysOf(StakeholderParams(submitted))
  {
    PermitKeepsListed(submitted, PERMITTED_PARAMS, f);
  }

  /** `@project.stakeholders.find(id)` followed by the explicit project check of `find_stakeholder`. */
  function FindStakeholder(records: map<int, Stakeholder>, projectId: int, id: int): (r: Option<Stakeholder>)
    ensures r.Some? <==> id in records && records[id].projectId == projectId
    ensures r.Some? ==> r.value == records[id]
  {
    if id !in records || records[id].projectId != projectId then None  // ActiveRecord::RecordNotFound
    else
      var s := records[id];
      if s.projectId != projectId then None else Some(s)
  }

  /** The changes hash built by `update`: the permitted pairs whose stored value differs. */
  function Changes(permitted: seq<(string, Value)>, before: Stakeholder): (r: seq<Change>)
    ensures |r| <= |permitted|
    ensures forall c :: c in r ==> c.oldValue == Attr(before, c.field) && c.oldValue != c.newValue
    decreases |permitted|
  {
    if permitted == [] then []
    else
      var n := |permitted| - 1;
      var (f, v) := permitted[n];
      Changes(permitted[..n], before) + (if Attr(before, f) != v then [Change(f, Attr(before, f), v)] else [])
  }

  function FieldsOf(changes: seq<Change>): set<string>
  {
    set c | c in changes :: c.field
  }

  /**
   * A submitted field is reported as changed exactly when its stored value
   * differs from the submitted one, and then with both values.
   */
  lemma {:induction false} ChangedIff(permitted: seq<(string, Value)>, before: Stakeholder, k: int)
    requires DistinctKeys(permitted)
    requires 0 <= k < |permitted|
    ensures var f := permitted[k].0;
      (f in FieldsOf(Changes(permitted, before)) <==> Attr(before, f) != permitted[k].1)
    ensures Attr(before, permitted[k].0) != permitted[k].1 ==>
      Change(permitted[k].0, Attr(before, permitted[k].0), permitted[k].1) in Changes(permitted, before)
    decreases |permitted|
  {
    var n := |permitted| - 1;
    var init := permitted[..n];
    var f := permitted[k].0;
    var head := Changes(init, before);
    var tail := if Attr(before, permitted[n].0) != permitted[n].1
      then [Change(permitted[n].0, Attr(before, permitted[n].0), permitted[n].1)] else [];
    assert Changes(permitted, before) == head + tail;
    assert FieldsOf(head + tail) == FieldsOf(head) + FieldsOf(tail) by {
      forall c ensures c in head + tail <==> c in head || c in tail { }
    }
    if k < n {
      assert init[k] == permitted[k];
      assert DistinctKeys(init) by {
        forall i, j | 0 <= i < j < |init| ensures init[i].0 != init[j].0 {
          assert init[i] == permitted[i] && init[j] == permitted[j];
        }
      }
      ChangedIff(init, before, k);
      assert permitted[n].0 != f;
      assert f !in FieldsOf(tail);
    } else {
      ChangesFieldsFrom(init, before);
      assert f !in KeysOf(init) by {
        forall i | 0 <= i < |init| ensures init[i].0 != f {
          assert init[i] == permitted[i];
        }
      }
    }
  }

  /** Every reported field is a submitted key. */
  lemma {:induction false} ChangesFieldsFrom(permitted: seq<(string, Value)>, before: Stakeholder)
    ensures FieldsOf(Changes(permitted, before)) <= KeysOf(permitted)
    decreases |permitted|
  {
    if permitted != [] {
      var n := |permitted| - 1;
      ChangesFieldsFrom(permitted[..n], before);
      forall f | f in KeysOf(permitted[..n]) ensures f in KeysOf(permitted) {
        var k :| 0 <= k < n && permitted[..n][k].0 == f;
        assert permitted[k].0 == f;
      }
      assert permitted[n].0 in KeysOf(permitted);
    }
  }

  /** With distinct submitted keys, no field is reported twice. */
  lemma {:induction false} ChangesDistinctFields(permitted: seq<(string, Value)>, before: Stakeholder)
    requires DistinctKeys(permitted)
    ensures var r := Changes(permitted, before);
      forall i, j :: 0 <= i < j < |r| ==> r[i].field != r[j].field
    decreases |permitted|
  {
    if permitted != [] {
      var n := |permitted| - 1;
      var init := permitted[..n];
      assert DistinctKeys(init) by {
        forall i, j | 0 <= i < j < |init| ensures init[i].0 != init[j].0 {
          assert init[i] == permitted[i] && init[j] == permitted[j];
        }
      }
      ChangesDistinctFields(init, before);
      ChangesFieldsFrom(init, before);
      assert permitted[n].0 !in KeysOf(init) by {
        forall k | 0 <= k < n ensures init[k].0 != permitted[n].0 {
          assert init[k] == permitted[k];
        }
      }
      var r := Changes(permitted, before);
      var head := Changes(init, before);
      forall i, j | 0 <= i < j < |r| ensures r[i].field != r[j].field {
        if j >= |head| {
          assert r[i] in head;
          assert r[i].field in FieldsOf(head);
        }
      }
    }
  }

  /** The loop of `update` that fills the changes hash from the old values. */
  method CollectChanges(permitted: seq<(string, Value)>, before: Stakeholder) returns (changes: seq<Change>)
    ensures changes == Changes(permitted, before)
  {
    changes := [];
    var i := 0;
    while i < |permitted|
      invariant 0 <= i <= |permitted|
      invariant changes == Changes(permitted[..i], before)
    {
      var (f, newValue) := permitted[i];
      if Attr(before, f) != newValue {
        changes := changes + [Change(f, Attr(before, f), newValue)];
      }
      assert permitted[..i + 1][..i] == permitted[..i];
      i := i + 1;
    }
    assert permitted[..i] == permitted;
  }

  // ---------------------------------------------------------------------------
  // The rate limiter: `Rails.cache` entries "inline_update:<user id>"
  // ---------------------------------------------------------------------------

  const RATE_LIMIT := 30

  /** `(Rails.cache.read(key) || 0).to_i`. */
  function CounterOf(counters: map<int, int>, userId: int): int
  {
    if userId in counters then counters[userId] else 0
  }

  /** The counters after one call that passed the permission check. */
  function Gate(counters: map<int, int>, userId: int): (r: map<int, int>)
    ensures CounterOf(counters, userId) >= RATE_LIMIT ==> r == counters
    ensures CounterOf(counters, userId) < RATE_LIMIT ==> r == counters[userId := CounterOf(counters, userId) + 1]
  {
    var count := CounterOf(counters, userId);
    if count >= RATE_LIMIT then counters else counters[userId := count + 1]
  }

  /** The counters after `n` permitted calls by the same user. */
  function GateTimes(counters: map<int, int>, userId: int, n: nat): map<int, int>
  {
    if n == 0 then counters else Gate(GateTimes(counters, userId, n - 1), userId)
  }

  /**
   * From an absent counter, calls 1 to 30 pass the gate (the n-th leaves the
   * counter at n) and every later call is refused, leaving it at 30.
   */
  lemma {:induction false} RateLimitBoundary(counters: map<int, int>, userId: int, n: nat)
    requires userId !in counters
    ensures CounterOf(GateTimes(counters, userId, n), userId) == if n <= RATE_LIMIT then n else RATE_LIMIT
    ensures n < RATE_LIMIT ==> CounterOf(GateTimes(counters, userId, n), userId) < RATE_LIMIT
    ensures n >= RATE_LIMIT ==> CounterOf(GateTimes(counters, userId, n), userId) >= RATE_LIMIT
  {
    if n > 0 {
      RateLimitBoundary(counters, userId, n - 1);
    }
  }

  // ---------------------------------------------------------------------------
  // The state an action reads and writes
  // ---------------------------------------------------------------------------

  /** The stakeholders table, the history table and the rate-limit cache. */
  datatype State = State(records: map<int, Stakeholder>, histories: seq<Entry>, counters: map<int, int>)

  /** The unique index on (project_id, project_sequence_number). */
  ghost predicate UniqueSequenceIndex(records: map<int, Stakeholder>)
  {
    forall a, b :: a in records && b in records && a != b && records[a].projectId == records[b].projectId
      ==> records[a].sequenceNumber != records[b].sequenceNumber
  }

  ghost predicate WellFormed(st: State)
  {
    && KeyedById(st.records)
    && UniqueSequenceIndex(st.records)
  }

  // ---------------------------------------------------------------------------
  // The actions
  // ---------------------------------------------------------------------------

  /** `inline_update`, after the `find_stakeholder` filter. */
  function InlineUpdateSpec(st: State, projectId: int, id: int, userId: int, allowed: bool,
                            field: Option<string>, value: Value, tr: Translations, now: int): (Reply, State)
  {
    match FindStakeholder(st.records, projectId, id)
    case None => (NotFound, st)
    case Some(s) =>
      if !allowed then (Rejected(FORBIDDEN, PERMISSION_DENIED), st)
      else if CounterOf(st.counters, userId) >= RATE_LIMIT then (Rejected(TOO_MANY_REQUESTS, RATE_LIMITED), st)
      else InlineWriteSpec(st.(counters := Gate(st.counters, userId)), id, s, userId, field, value, tr, now)
  }

  /** The part of `inline_update` after the rate limiter: whitelist, save, history row. */
  function InlineWriteSpec(st: State, id: int, s: Stakeholder, userId: int,
                           field: Option<string>, value: Value, tr: Translations, now: int): (Reply, State)
  {
    if field.None? || field.value !in ALLOWED_INLINE_FIELDS then (Rejected(FORBIDDEN, INVALID_FIELD), st)
    else
      var f := field.value;
      InlineFieldAssignable(f);
      var oldValue := Attr(s, f);
      var updated := Assign(s, f, value);
      if !IsValid(updated) then (Rejected(UNPROCESSABLE_ENTITY, UPDATE_FAILED), st)
      else
        var entries := if oldValue != value
          then UpdateEntries(Some(id), Some(userId), [Change(f, oldValue, value)], tr, now) else [];
        (Ok(FormatFieldValue(f, updated, tr)),
         st.(records := st.records[id := updated], histories := st.histories + entries))
  }

  lemma InlineFieldAssignable(f: string)
    requires f in ALLOWED_INLINE_FIELDS
    ensures f !in STRUCTURAL_FIELDS
  {
  }

  /** `update`, after the `find_stakeholder` filter. `formatField` is `params[:field]`. */
  function UpdateSpec(st: State, projectId: int, id: int, userId: int, submitted: Option<Params>,
                      formatField: Option<string>, tr: Translations, now: int): (Reply, State)
  {
    match FindStakeholder(st.records, projectId, id)
    case None => (NotFound, st)
    case Some(s) =>
      if !Required(submitted) then (BadRequest, st)
      else UpdateWriteSpec(st, id, s, userId, StakeholderParams(submitted.value), formatField, tr, now)
  }

  /** The part of `update` after parameter filtering: save, then one history row per changed field. */
  function UpdateWriteSpec(st: State, id: int, s: Stakeholder, userId: int, permitted: seq<(string, Value)>,
                           formatField: Option<string>, tr: Translations, now: int): (Reply, State)
    requires Assignable(permitted)
  {
    var updated := AssignAll(s, permitted);
    if !IsValid(updated) then (Rejected(UNPROCESSABLE_ENTITY, UPDATE_FAILED), st)
    else
      var changes := Changes(permitted, s);
      var entries := if |changes| > 0 then UpdateEntries(Some(id), Some(userId), changes, tr, now) else [];
      (Ok(FormatFieldValue(FieldParam(formatField), updated, tr)),
       st.(records := st.records[id := updated], histories := st.histories + entries))
  }

  /** `destroy`: the delete row is written, then the record and all its history rows go. */
  function DestroySpec(st: State, projectId: int, id: int, userId: int, now: int): (Reply, State)
  {
    match FindStakeholder(st.records, projectId, id)
    case None => (NotFound, st)
    case Some(_) =>
      var logged := st.histories + [DeleteEntry(Some(id), Some(userId), now)];
      (Redirected, st.(records := st.records - {id}, histories := WithoutStakeholder(logged, id)))
  }

  // ---------------------------------------------------------------------------
  // Properties of the actions
  // ---------------------------------------------------------------------------

  /**
   * `find_stakeholder` answers 404, and nothing changes, both for an unknown id
   * and for a record of another project.
   */
  lemma CrossProjectGuard(st: State, projectId: int, id: int, userId: int, allowed: bool, field: Option<string>,
                          value: Value, submitted: Option<Params>, tr: Translations, now: int)
    requires id !in st.records || st.records[id].projectId != projectId
    ensures InlineUpdateSpec(st, projectId, id, userId, allowed, field, value, tr, now) == (NotFound, st)
    ensures UpdateSpec(st, projectId, id, userId, submitted, field, tr, now) == (NotFound, st)
    ensures DestroySpec(st, projectId, id, userId, now) == (NotFound, st)
  {
  }

  /**
   * The inline gate runs permission, then rate limit, then whitelist. A refused
   * permission or rate check changes nothing at all; a refused field has only
   * spent one unit of the caller's budget; no refusal touches a record or the ledger.
   */
  lemma InlineUpdateGateOrder(st: State, projectId: int, id: int, userId: int, allowed: bool,
                              field: Option<string>, value: Value, tr: Translations, now: int)
    requires id in st.records && st.records[id].projectId == projectId
    ensures var (reply, st') := InlineUpdateSpec(st, projectId, id, userId, allowed, field, value, tr, now);
      && (!allowed ==> reply == Rejected(FORBIDDEN, PERMISSION_DENIED) && st' == st)
      && (allowed && CounterOf(st.counters, userId) >= RATE_LIMIT ==> reply == Rejected(TOO_MANY_REQUESTS, RATE_LIMITED) && st' == st)
      && (allowed && CounterOf(st.counters, userId) < RATE_LIMIT ==>
            st'.counters == st.counters[userId := CounterOf(st.counters, userId) + 1])
      && (allowed && CounterOf(st.counters, userId) < RATE_LIMIT && (field.None? || field.value !in ALLOWED_INLINE_FIELDS) ==>
            reply == Rejected(FORBIDDEN, INVALID_FIELD) && st'.records == st.records && st'.histories == st.histories)
      && (!reply.Ok? ==> st'.records == st.records && st'.histories == st.histories)
  {
  }

  /**
   * A successful inline update stores the value and appends one history row
   * `{field => [old, value]}` when the value differs, none when it is equal;
   * a failed save stores nothing and returns the generic error.
   */
  lemma InlineUpdateOutcome(st: State, projectId: int, id: int, userId: int, f: string, value: Value, tr: Translations, now: int)
    requires id in st.records && st.records[id].projectId == projectId
    requires CounterOf(st.counters, userId) < RATE_LIMIT
    requires f in ALLOWED_INLINE_FIELDS
    ensures var (reply, st') := InlineUpdateSpec(st, projectId, id, userId, true, Some(f), value, tr, now);
      var s := st.records[id];
      && (IsValid(Assign(s, f, value)) ==>
            && reply == Ok(FormatFieldValue(f, Assign(s, f, value), tr))
            && st'.records == st.records[id := Assign(s, f, value)]
            && Attr(st'.records[id], f) == value
            && (Attr(s, f) == value ==> st'.histories == st.histories)
            && (Attr(s, f) != value ==>
                  st'.histories == st.histories + [UpdateEntry(Some(id), Some(userId), Change(f, Attr(s, f), value), tr, now)]))
      && (!IsValid(Assign(s, f, value)) ==>
            reply == Rejected(UNPROCESSABLE_ENTITY, UPDATE_FAILED) && st'.records == st.records && st'.histories == st.histories)
  {
    WhitelistRelations();
  }

  /**
   * Submitting the same inline payload twice: when the record is found, the
   * budget is not spent, the field is listed and the saved record is valid, the
   * first call succeeds and the second writes no history.
   */
  lemma InlineUpdateIdempotent(st: State, projectId: int, id: int, userId: int, f: string, value: Value, tr: Translations, now1: int, now2: int)
    requires id in st.records && st.records[id].projectId == projectId
    requires CounterOf(st.counters, userId) < RATE_LIMIT
    requires f in ALLOWED_INLINE_FIELDS
    requires IsValid(Assign(st.records[id], f, value))
    ensures InlineUpdateSpec(st, projectId, id, userId, true, Some(f), value, tr, now1).0.Ok?
    ensures var st1 := InlineUpdateSpec(st, projectId, id, userId, true, Some(f), value, tr, now1).1;
      var (reply2, st2) := InlineUpdateSpec(st1, projectId, id, userId, true, Some(f), value, tr, now2);
      && st2.histories == st1.histories
      && (reply2.Ok? ==> st2.records == st1.records)
  {
    var st1 := InlineUpdateSpec(st, projectId, id, userId, true, Some(f), value, tr, now1).1;
    InlineFieldAssignable(f);
    var s1 := Assign(st.records[id], f, value);
    assert st1.records[id] == s1;
    assert Assign(s1, f, value) == s1;
    assert st1.records[id := s1] == st1.records;
  }

  /**
   * The full update writes history only for the fields whose stored value
   * differs from the submitted one, one row each and each under its own field
   * name; a failed save writes nothing and answers the generic error.
   */
  lemma UpdateHistoryOnlyForChanges(st: State, projectId: int, id: int, userId: int, submitted: Params,
                                    formatField: Option<string>, tr: Translations, now: int)
    requires id in st.records && st.records[id].projectId == projectId
    requires |submitted| > 0
    ensures var (reply, st') := UpdateSpec(st, projectId, id, userId, Some(submitted), formatField, tr, now);
      var permitted := StakeholderParams(submitted);
      var changes := Changes(permitted, st.records[id]);
      && (reply.Ok? ==>
            && st'.histories == st.histories + UpdateEntries(Some(id), Some(userId), changes, tr, now)
            && |st'.histories| == |st.histories| + |changes|
            && (forall i, j :: 0 <= i < j < |changes| ==> changes[i].field != changes[j].field)
            && (forall k :: 0 <= k < |permitted| ==>
                  (permitted[k].0 in FieldsOf(changes) <==> Attr(st.records[id], permitted[k].0) != permitted[k].1)))
      && (!reply.Ok? ==> reply == Rejected(UNPROCESSABLE_ENTITY, UPDATE_FAILED) && st' == st)
  {
    var s := st.records[id];
    var permitted := StakeholderParams(submitted);
    var changes := Changes(permitted, s);
    assert UpdateSpec(st, projectId, id, userId, Some(submitted), formatField, tr, now)
      == UpdateWriteSpec(st, id, s, userId, permitted, formatField, tr, now);
    if changes == [] {
      assert UpdateEntries(Some(id), Some(userId), changes, tr, now) == [];
    }
    ChangesDistinctFields(permitted, s);
    forall k | 0 <= k < |permitted|
      ensures permitted[k].0 in FieldsOf(changes) <==> Attr(st.records[id], permitted[k].0) != permitted[k].1
    {
      ChangedIff(permitted, st.records[id], k);
    }
  }

  /** A successful update stores every permitted submitted value and leaves other columns alone. */
  lemma UpdateStoresSubmittedValues(st: State, projectId: int, id: int, userId: int, submitted: Params,
                                    formatField: Option<string>, tr: Translations, now: int)
    requires id in st.records && st.records[id].projectId == projectId
    requires |submitted| > 0
    ensures var (reply, st') := UpdateSpec(st, projectId, id, userId, Some(submitted), formatField, tr, now);
      reply.Ok? ==>
        && id in st'.records
        && (forall f :: f in submitted && f in PERMITTED_PARAMS ==> Attr(st'.records[id], f) == submitted[f])
        && (forall f :: f !in submitted || f !in PERMITTED_PARAMS ==> Attr(st'.records[id], f) == Attr(st.records[id], f))
  {
    var permitted := StakeholderParams(submitted);
    AssignAllAttr(st.records[id], permitted);
    var r := AssignAll(st.records[id], permitted);
    forall f | f in submitted && f in PERMITTED_PARAMS ensures Attr(r, f) == submitted[f] {
      StakeholderParamsKeeps(submitted, f);
      var k :| 0 <= k < |permitted| && permitted[k].0 == f;
    }
    forall f | f !in submitted || f !in PERMITTED_PARAMS ensures Attr(r, f) == Attr(st.records[id], f) {
      assert f !in KeysOf(permitted) by {
        forall k | 0 <= k < |permitted| ensures permitted[k].0 != f { }
      }
    }
  }

  /** Removing every row of a stakeholder also removes a delete row just appended for it. */
  lemma {:induction false} DeleteRowDoesNotSurvive(rows: seq<Entry>, id: int, e: Entry)
    requires e.stakeholderId == Some(id)
    ensures WithoutStakeholder(rows + [e], id) == WithoutStakeholder(rows, id)
  {
    assert (rows + [e])[..|rows|] == rows;
  }

  /**
   * After `destroy` the record is gone and so is every history row of it,
   * including the delete row written just before; all other rows stay, in order.
   */
  lemma DestroyErasesHistory(st: State, projectId: int, id: int, userId: int, now: int)
    requires id in st.records && st.records[id].projectId == projectId
    ensures var (reply, st') := DestroySpec(st, projectId, id, userId, now);
      && reply == Redirected
      && id !in st'.records
      && (forall k :: k in st.records && k != id ==> k in st'.records && st'.records[k] == st.records[k])
      && (forall e :: e in st'.histories ==> e.stakeholderId != Some(id))
      && st'.histories == WithoutStakeholder(st.histories, id)
      && multiset(st'.histories) + multiset(OfStakeholder(st.histories, id)) == multiset(st.histories)
  {
    DeleteRowDoesNotSurvive(st.histories, id, DeleteEntry(Some(id), Some(userId), now));
    PartitionByStakeholder(st.histories, id);
  }

  // ---------------------------------------------------------------------------
  // The actions keep the table well formed
  // ---------------------------------------------------------------------------

  /** Replacing a row by one with the same key, project and number keeps the state well formed. */
  lemma ReplacePreservesWellFormed(st: State, id: int, s: Stakeholder)
    requires WellFormed(st) && id in st.records
    requires s.id == st.records[id].id && s.projectId == st.records[id].projectId
    requires s.sequenceNumber == st.records[id].sequenceNumber
    ensures WellFormed(st.(records := st.records[id := s]))
  {
    var r := st.records[id := s];
    forall a, b | a in r && b in r && a != b && r[a].projectId == r[b].projectId
      ensures r[a].sequenceNumber != r[b].sequenceNumber
    {
      assert r[a].projectId == st.records[a].projectId && r[a].sequenceNumber == st.records[a].sequenceNumber;
      assert r[b].projectId == st.records[b].projectId && r[b].sequenceNumber == st.records[b].sequenceNumber;
    }
  }

  lemma InlineUpdatePreservesWellFormed(st: State, projectId: int, id: int, userId: int, allowed: bool,
                                        field: Option<string>, value: Value, tr: Translations, now: int)
    requires WellFormed(st)
    ensures WellFormed(InlineUpdateSpec(st, projectId, id, userId, allowed, field, value, tr, now).1)
  {
    if field.Some? && field.value in ALLOWED_INLINE_FIELDS { InlineFieldAssignable(field.value); }
    var (reply, st') := InlineUpdateSpec(st, projectId, id, userId, allowed, field, value, tr, now);
    if reply.Ok? {
      var f := field.value;
      var st1 := st.(counters := Gate(st.counters, userId));
      ReplacePreservesWellFormed(st1, id, Assign(st.records[id], f, value));
    }
  }

  lemma UpdatePreservesWellFormed(st: State, projectId: int, id: int, userId: int, submitted: Option<Params>,
                                  formatField: Option<string>, tr: Translations, now: int)
    requires WellFormed(st)
    ensures WellFormed(UpdateSpec(st, projectId, id, userId, submitted, formatField, tr, now).1)
  {
    var (reply, st') := UpdateSpec(st, projectId, id, userId, submitted, formatField, tr, now);
    if reply.Ok? {
      ReplacePreservesWellFormed(st, id, AssignAll(st.records[id], StakeholderParams(submitted.value)));
    }
  }

  lemma DestroyPreservesWellFormed(st: State, projectId: int, id: int, userId: int, now: int)
    requires WellFormed(st)
    ensures WellFormed(DestroySpec(st, projectId, id, userId, now).1)
  {
  }

  // ---------------------------------------------------------------------------
  // The controller over mutable state
  // ---------------------------------------------------------------------------

  class StakeholderStore {
    var records: map<int, Stakeholder>
    var counters: map<int, int>
    const ledger: HistoryLedger

    function Snapshot(): State
      reads this, ledger
    {
      State(records, ledger.rows, counters)
    }

    /**
     * The table is well formed. Every method keeps this invariant; no other
     * contract of the store relies on it, since each method is proved equal
     * to its action's function on any state.
     */
    ghost predicate Valid()
      reads this, ledger
    {
      WellFormed(Snapshot())
    }

    /** A store over an existing stakeholders table, with an empty ledger and cache. */
    constructor (initial: map<int, Stakeholder>)
      requires WellFormed(State(initial, [], map[]))
      ensures Valid() && fresh(ledger)
      ensures Snapshot() == State(initial, [], map[])
    {
      records := initial;
      counters := map[];
      ledger := new HistoryLedger();
    }

    /** The cache entry of a user's counter expires. */
    method Expire(userId: int)
      requires Valid()
      modifies this
      ensures Valid()
      ensures Snapshot() == old(Snapshot()).(counters := old(counters) - {userId})
    {
      counters := counters - {userId};
    }

    method InlineUpdate(projectId: int, id: int, userId: int, allowed: bool, field: Option<string>,
                        value: Value, tr: Translations, now: int) returns (reply: Reply)
      requires Valid()
      modifies this, ledger
      ensures Valid()
      ensures (reply, Snapshot()) == InlineUpdateSpec(old(Snapshot()), projectId, id, userId, allowed, field, value, tr, now)
    {
      ghost var st0 := Snapshot();
      reply := RunInlineUpdate(projectId, id, userId, allowed, field, value, tr, now);
      InlineUpdatePreservesWellFormed(st0, projectId, id, userId, allowed, field, value, tr, now);
    }

    /** The steps of `inline_update`. */
    method RunInlineUpdate(projectId: int, id: int, userId: int, allowed: bool, field: Option<string>,
                           value: Value, tr: Translations, now: int) returns (reply: Reply)
      modifies this, ledger
      ensures (reply, Snapshot()) == InlineUpdateSpec(old(Snapshot()), projectId, id, userId, allowed, field, value, tr, now)
    {
      var found := FindStakeholder(records, projectId, id);
      if found.None? {
        return NotFound;
      }
      if !allowed {
        return Rejected(FORBIDDEN, PERMISSION_DENIED);
      }
      var count := CounterOf(counters, userId);
      if count >= RATE_LIMIT {
        return Rejected(TOO_MANY_REQUESTS, RATE_LIMITED);
      }
      counters := counters[userId := count + 1];
      assert Snapshot() == old(Snapshot()).(counters := Gate(old(counters), userId));
      reply := WriteInline(id, found.value, userId, field, value, tr, now);
    }

    /** Whitelist check, save and history row of `inline_update`. */
    method WriteInline(id: int, s: Stakeholder, userId: int, field: Option<string>,
                       value: Value, tr: Translations, now: int) returns (reply: Reply)
      modifies this, ledger
      ensures (reply, Snapshot()) == InlineWriteSpec(old(Snapshot()), id, s, userId, field, value, tr, now)
    {
      if field.None? || field.value !in ALLOWED_INLINE_FIELDS {
        return Rejected(FORBIDDEN, INVALID_FIELD);
      }
      var f := field.value;
      InlineFieldAssignable(f);
      var oldValue := Attr(s, f);
      var updated := Assign(s, f, value);
      if !IsValid(updated) {
        return Rejected(UNPROCESSABLE_ENTITY, UPDATE_FAILED);
      }
      ghost var st0 := old(Snapshot());
      ghost var entries := if oldValue != value
          then UpdateEntries(Some(id), Some(userId), [Change(f, oldValue, value)], tr, now) else [];
      assert InlineWriteSpec(st0, id, s, userId, field, value, tr, now) == (Ok(FormatFieldValue(f, updated, tr)),
         st0.(records := st0.records[id := updated], histories := st0.histories + entries));
      records := records[id := updated];
      if oldValue != value {
        ledger.RecordUpdate(Some(id), Some(userId), [Change(f, oldValue, value)], tr, now);
      }
      assert ledger.rows == st0.histories + entries;
      assert records == st0.records[id := updated];
      assert counters == st0.counters;
      reply := Ok(FormatFieldValue(f, updated, tr));
    }

    method Update(projectId: int, id: int, userId: int, submitted: Option<Params>, formatField: Option<string>,
                  tr: Translations, now: int) returns (reply: Reply)
      requires Valid()
      modifies this, ledger
      ensures Valid()
      ensures (reply, Snapshot()) == UpdateSpec(old(Snapshot()), projectId, id, userId, submitted, formatField, tr, now)
    {
      ghost var st0 := Snapshot();
      reply := RunUpdate(projectId, id, userId, submitted, formatField, tr, now);
      UpdatePreservesWellFormed(st0, projectId, id, userId, submitted, formatField, tr, now);
    }

    /** The steps of `update`. */
    method RunUpdate(projectId: int, id: int, userId: int, submitted: Option<Params>, formatField: Option<string>,
                     tr: Translations, now: int) returns (reply: Reply)
      modifies this, ledger
      ensures (reply, Snapshot()) == UpdateSpec(old(Snapshot()), projectId, id, userId, submitted, formatField, tr, now)
    {
      var found := FindStakeholder(records, projectId, id);
      if found.None? {
        return NotFound;
      }
      if !Required(submitted) {
        return BadRequest;
      }
      var permitted := StakeholderParams(submitted.value);
      reply := WriteUpdate(id, found.value, userId, permitted, formatField, tr, now);
    }

    /** Save and history rows of `update`. */
    method WriteUpdate(id: int, before: Stakeholder, userId: int, permitted: seq<(string, Value)>,
                       formatField: Option<string>, tr: Translations, now: int) returns (reply: Reply)
      requires Assignable(permitted)
      modifies this, ledger
      ensures (reply, Snapshot()) == UpdateWriteSpec(old(Snapshot()), id, before, userId, permitted, formatField, tr, now)
    {
      var updated := AssignAll(before, permitted);
      if !IsValid(updated) {
        return Rejected(UNPROCESSABLE_ENTITY, UPDATE_FAILED);
      }
      ghost var st0 := old(Snapshot());
      records := records[id := updated];
      var changes := CollectChanges(permitted, before);
      ghost var entries := if |changes| > 0 then UpdateEntries(Some(id), Some(userId), changes, tr, now) else [];
      assert UpdateWriteSpec(st0, id, before, userId, permitted, formatField, tr, now) ==
        (Ok(FormatFieldValue(FieldParam(formatField), updated, tr)),
         st0.(records := st0.records[id := updated], histories := st0.histories + entries));
      if |changes| > 0 {
        ledger.RecordUpdate(Some(id), Some(userId), changes, tr, now);
      }
      assert ledger.rows == st0.histories + entries;
      assert records == st0.records[id := updated] && counters == st0.counters;
      reply := Ok(FormatFieldValue(FieldParam(formatField), updated, tr));
    }

    method Destroy(projectId: int, id: int, userId: int, now: int) returns (reply: Reply)
      requires Valid()
      modifies this, ledger
      ensures Valid()
      ensures (reply, Snapshot()) == DestroySpec(old(Snapshot()), projectId, id, userId, now)
    {
      DestroyPreservesWellFormed(Snapshot(), projectId, id, userId, now);
      var found := FindStakeholder(records, projectId, id);
      if found.None? {
        return NotFound;
      }
      ledger.RecordDelete(Some(id), Some(userId), now);
      ledger.DestroyAllOf(id);
      records := records - {id};
      reply := Redirected;
    }
  }
}
