/**
 * The stakeholder_histories table: an append-only audit ledger. Rows are
 * built by `record_create`, `record_update` and `record_delete`; ActiveRecord's
 * `create` writes a row only when the row passes the model's validations.
 */
module StakeholderHistory {
  import opened Values
  import opened Sorting
  import Stakeholders

  const CREATE := "create"
  const UPDATE := "update"
  const DELETE := "delete"

  /** The inclusion list of the `action` validation. */
  const ACTIONS: seq<string> := [CREATE, UPDATE, DELETE]

  /** A history row. `createdAt` is the timestamp ActiveRecord stamps on insertion. */
  datatype Entry = Entry(
    stakeholderId: Option<int>,
    userId: Option<int>,
    action: string,
    fieldName: Option<string>,
    oldValue: Option<string>,
    newValue: Option<string>,
    createdAt: int)

  /** One changed field: the `field => [old_value, new_value]` pair of a changes hash. */
  datatype Change = Change(field: string, oldValue: Value, newValue: Value)

  /** The model's validations: both ids present, action present and one of ACTIONS. */
  predicate ValidEntry(e: Entry)
  {
    e.stakeholderId.Some? && e.userId.Some? && e.action in ACTIONS
  }

  predicate IsCreateAction(e: Entry) { e.action == CREATE }
  predicate IsUpdateAction(e: Entry) { e.action == UPDATE }
  predicate IsDeleteAction(e: Entry) { e.action == DELETE }

  /** A valid row is of exactly one of the three kinds. */
  lemma ExactlyOneAction(e: Entry)
    requires ValidEntry(e)
    ensures IsCreateAction(e) || IsUpdateAction(e) || IsDeleteAction(e)
    ensures !(IsCreateAction(e) && IsUpdateAction(e))
    ensures !(IsCreateAction(e) && IsDeleteAction(e))
    ensures !(IsUpdateAction(e) && IsDeleteAction(e))
  {
  }

  // ---------------------------------------------------------------------------
  // Display helpers
  // ---------------------------------------------------------------------------

  /** `action_label`. */
  function ActionLabel(e: Entry, tr: Translations): (r: string)
    ensures "stakeholder_history.action." + e.action in tr ==> r == tr["stakeholder_history.action." + e.action]
    ensures "stakeholder_history.action." + e.action !in tr ==> r == e.action
  {
    Translate(tr, "stakeholder_history.action." + e.action, e.action)
  }

  predicate BlankName(name: Option<string>)
  {
    name.None? || BlankString(name.value)
  }

  /** `field_label`: nil for a row without a field name, otherwise the translated name. */
  function FieldLabel(e: Entry, tr: Translations): (r: Option<string>)
    ensures r.None? <==> BlankName(e.fieldName)
    ensures r.Some? ==> r.value == Translate(tr, "field_" + e.fieldName.value, e.fieldName.value)
  {
    if BlankName(e.fieldName) then None
    else Some(Translate(tr, "field_" + e.fieldName.value, e.fieldName.value))
  }

  const UNKNOWN_USER_PREFIX := "Unknown User (ID: "

  /** `user_name`; `users` maps the ids of existing users to their names. */
  function UserName(e: Entry, users: map<int, string>): (r: string)
    ensures e.userId.Some? && e.userId.value in users ==> r == users[e.userId.value]
    ensures !(e.userId.Some? && e.userId.value in users) ==>
      r == UNKNOWN_USER_PREFIX + (if e.userId.Some? then IntToString(e.userId.value) else "") + ")"
  {
    match e.userId
    case Some(u) => if u in users then users[u] else UNKNOWN_USER_PREFIX + IntToString(u) + ")"
    case None => UNKNOWN_USER_PREFIX + ")"
  }

  /** `convert_value_to_label`: codes of the two enum fields become labels, everything else is `to_s`. */
  function ConvertValueToLabel(field: string, v: Value, tr: Translations): (r: string)
    ensures Blank(v) ==> r == ToS(v)
    ensures !Blank(v) && field == "location_type" && ToS(v) in Stakeholders.LOCATION_TYPES ==>
      r == Translate(tr, Stakeholders.LOCATION_TYPE_SCOPE + ToS(v), ToS(v))
    ensures !Blank(v) && field == "influence_attitude" && ToS(v) in Stakeholders.INFLUENCE_ATTITUDES ==>
      r == Translate(tr, Stakeholders.INFLUENCE_ATTITUDE_SCOPE + ToS(v), ToS(v))
    ensures (!(field == "location_type" && ToS(v) in Stakeholders.LOCATION_TYPES)
             && !(field == "influence_attitude" && ToS(v) in Stakeholders.INFLUENCE_ATTITUDES)) ==> r == ToS(v)
  {
    if Blank(v) then ToS(v)
    else if field == "location_type" then
      if ToS(v) in Stakeholders.LOCATION_TYPES
      then Translate(tr, Stakeholders.LOCATION_TYPE_SCOPE + ToS(v), ToS(v))
      else ToS(v)
    else if field == "influence_attitude" then
      if ToS(v) in Stakeholders.INFLUENCE_ATTITUDES
      then Translate(tr, Stakeholders.INFLUENCE_ATTITUDE_SCOPE + ToS(v), ToS(v))
      else ToS(v)
    else ToS(v)
  }

  /** Nil is written as "", and `participation_degree` codes are stored raw, untranslated. */
  lemma ConvertValueToLabelExamples(tr: Translations, code: string)
    ensures ConvertValueToLabel("location_type", Nil, tr) == ""
    ensures ConvertValueToLabel("participation_degree", Str(code), tr) == code
    ensures ConvertValueToLabel("location_type", Str("internal"), tr)
      == Translate(tr, "stakeholder.location_type.internal", "internal")
    ensures ConvertValueToLabel("location_type", Str("mars"), tr) == "mars"
  {
    assert "internal" in Stakeholders.LOCATION_TYPES;
    assert Stakeholders.LOCATION_TYPE_SCOPE + "internal" == "stakeholder.location_type.internal";
    assert !BlankString("internal") by { assert !IsRubySpace("internal"[0]); }
  }

  // ---------------------------------------------------------------------------
  // The rows record_create, record_update and record_delete build
  // ---------------------------------------------------------------------------

  function CreateEntry(sid: Option<int>, uid: Option<int>, now: int): Entry
  {
    Entry(sid, uid, CREATE, None, None, None, now)
  }

  function DeleteEntry(sid: Option<int>, uid: Option<int>, now: int): Entry
  {
    Entry(sid, uid, DELETE, None, None, None, now)
  }

  function UpdateEntry(sid: Option<int>, uid: Option<int>, c: Change, tr: Translations, now: int): Entry
  {
    Entry(sid, uid, UPDATE, Some(c.field),
          Some(ConvertValueToLabel(c.field, c.oldValue, tr)),
          Some(ConvertValueToLabel(c.field, c.newValue, tr)), now)
  }

  /** The rows `record_update` builds: one update row per change, in the hash's order. */
  function UpdateEntries(sid: Option<int>, uid: Option<int>, changes: seq<Change>, tr: Translations, now: int): (r: seq<Entry>)
    ensures |r| == |changes|
    ensures forall k :: 0 <= k < |r| ==> r[k] == UpdateEntry(sid, uid, changes[k], tr, now)
    decreases |changes|
  {
    if changes == [] then []
    else
      var n := |changes| - 1;
      UpdateEntries(sid, uid, changes[..n], tr, now) + [UpdateEntry(sid, uid, changes[n], tr, now)]
  }

  /**
   * Nothing is batched: the k-th row is an update row of the k-th changed
   * field, carrying both values converted to display text.
   */
  lemma UpdateEntriesShape(sid: Option<int>, uid: Option<int>, changes: seq<Change>, tr: Translations, now: int)
    ensures var r := UpdateEntries(sid, uid, changes, tr, now);
      && |r| == |changes|
      && forall k :: 0 <= k < |r| ==>
        && r[k].stakeholderId == sid && r[k].userId == uid && r[k].action == UPDATE
        && r[k].fieldName == Some(changes[k].field)
        && r[k].oldValue == Some(ConvertValueToLabel(changes[k].field, changes[k].oldValue, tr))
        && r[k].newValue == Some(ConvertValueToLabel(changes[k].field, changes[k].newValue, tr))
        && r[k].createdAt == now
  {
  }

  /** Every row the three recorders build is valid exactly when both ids are present. */
  lemma BuiltEntriesValid(sid: Option<int>, uid: Option<int>, changes: seq<Change>, tr: Translations, now: int)
    ensures ValidEntry(CreateEntry(sid, uid, now)) <==> sid.Some? && uid.Some?
    ensures ValidEntry(DeleteEntry(sid, uid, now)) <==> sid.Some? && uid.Some?
    ensures forall e :: e in UpdateEntries(sid, uid, changes, tr, now) ==> (ValidEntry(e) <==> sid.Some? && uid.Some?)
  {
  }

  /** Create and delete rows carry no field name and no values. */
  lemma LifecycleEntriesCarryNoValues(sid: Option<int>, uid: Option<int>, now: int)
    ensures var c := CreateEntry(sid, uid, now);
      c.action == CREATE && c.fieldName.None? && c.oldValue.None? && c.newValue.None? && IsCreateAction(c)
    ensures var d := DeleteEntry(sid, uid, now);
      d.action == DELETE && d.fieldName.None? && d.oldValue.None? && d.newValue.None? && IsDeleteAction(d)
  {
  }

  // ---------------------------------------------------------------------------
  // Scopes
  // ---------------------------------------------------------------------------

  /** `order(created_at: :desc)` as a comparison: `a` may come first when it is not older. */
  function NewestFirst(): (Entry, Entry) -> bool
  {
    (a: Entry, b: Entry) => a.createdAt >= b.createdAt
  }

  lemma NewestFirstIsPreorder()
    ensures TotalPreorder(NewestFirst())
  {
  }

  /** The `ordered` scope. */
  function Ordered(rows: seq<Entry>): seq<Entry>
  {
    SortBy(rows, NewestFirst())
  }

  /** `where(stakeholder_id: sid)`, in table order. */
  function OfStakeholder(rows: seq<Entry>, sid: int): (r: seq<Entry>)
    ensures forall e :: e in r <==> e in rows && e.stakeholderId == Some(sid)
    decreases |rows|
  {
    if rows == [] then []
    else
      var n := |rows| - 1;
      OfStakeholder(rows[..n], sid) + (if rows[n].stakeholderId == Some(sid) then [rows[n]] else [])
  }

  /** The rows that survive when every row of stakeholder `sid` is destroyed. */
  function WithoutStakeholder(rows: seq<Entry>, sid: int): (r: seq<Entry>)
    ensures forall e :: e in r <==> e in rows && e.stakeholderId != Some(sid)
    decreases |rows|
  {
    if rows == [] then []
    else
      var n := |rows| - 1;
      WithoutStakeholder(rows[..n], sid) + (if rows[n].stakeholderId != Some(sid) then [rows[n]] else [])
  }

  /** Splitting the table by stakeholder loses and invents no row. */
  lemma {:induction false} PartitionByStakeholder(rows: seq<Entry>, sid: int)
    ensures multiset(OfStakeholder(rows, sid)) + multiset(WithoutStakeholder(rows, sid)) == multiset(rows)
    decreases |rows|
  {
    if rows != [] {
      var n := |rows| - 1;
      PartitionByStakeholder(rows[..n], sid);
      assert rows == rows[..n] + [rows[n]];
    }
  }

  /** `by_stakeholder(sid)`. */
  function ByStakeholder(rows: seq<Entry>, sid: int): seq<Entry>
  {
    Ordered(OfStakeholder(rows, sid))
  }

  /** `by_stakeholder` returns all and only that stakeholder's rows, newest first. */
  lemma ByStakeholderCorrect(rows: seq<Entry>, sid: int)
    ensures var r := ByStakeholder(rows, sid);
      && multiset(r) == multiset(OfStakeholder(rows, sid))
      && (forall e :: e in r <==> e in rows && e.stakeholderId == Some(sid))
      && (forall i, j :: 0 <= i < j < |r| ==> r[i].createdAt >= r[j].createdAt)
  {
    var of := OfStakeholder(rows, sid);
    var r := ByStakeholder(rows, sid);
    NewestFirstIsPreorder();
    SortByCorrect(of, NewestFirst());
    forall e ensures e in r <==> e in of {
      SortByMembers(of, NewestFirst(), e);
    }
    forall i, j | 0 <= i < j < |r| ensures r[i].createdAt >= r[j].createdAt {
      assert NewestFirst()(r[i], r[j]);
    }
  }

  // ---------------------------------------------------------------------------
  // The table
  // ---------------------------------------------------------------------------

  class HistoryLedger {
    /** The rows in insertion order. */
    var rows: seq<Entry>

    constructor ()
      ensures rows == []
    {
      rows := [];
    }

    /** `StakeholderHistory.create(attrs)`: the row is written only if it is valid. */
    method Insert(e: Entry)
      modifies this
      ensures rows == old(rows) + (if ValidEntry(e) then [e] else [])
    {
      if ValidEntry(e) {
        rows := rows + [e];
      }
    }

    /** `record_create`. */
    method RecordCreate(sid: Option<int>, uid: Option<int>, now: int)
      modifies this
      ensures rows == old(rows) + (if sid.Some? && uid.Some? then [CreateEntry(sid, uid, now)] else [])
    {
      Insert(CreateEntry(sid, uid, now));
    }

    /** `record_update`: one insertion per pair of `changes`, in order. */
    method RecordUpdate(sid: Option<int>, uid: Option<int>, changes: seq<Change>, tr: Translations, now: int)
      modifies this
      ensures rows == old(rows) + (if sid.Some? && uid.Some? then UpdateEntries(sid, uid, changes, tr, now) else [])
    {
      ghost var written := sid.Some? && uid.Some?;
      var i := 0;
      while i < |changes|
        invariant 0 <= i <= |changes|
        invariant rows == old(rows) + (if written then UpdateEntries(sid, uid, changes[..i], tr, now) else [])
      {
        var e := UpdateEntry(sid, uid, changes[i], tr, now);
        ghost var before := UpdateEntries(sid, uid, changes[..i], tr, now);
        assert changes[..i + 1][..i] == changes[..i];
        assert UpdateEntries(sid, uid, changes[..i + 1], tr, now) == before + [e];
        assert ValidEntry(e) == written;
        Insert(e);
        assert written ==> rows == old(rows) + (before + [e]);
        i := i + 1;
      }
      assert changes[..i] == changes;
    }

    /** `record_delete`. */
    method RecordDelete(sid: Option<int>, uid: Option<int>, now: int)
      modifies this
      ensures rows == old(rows) + (if sid.Some? && uid.Some? then [DeleteEntry(sid, uid, now)] else [])
    {
      Insert(DeleteEntry(sid, uid, now));
    }

    /** `has_many :histories, dependent: :destroy`: every row of the stakeholder goes. */
    method DestroyAllOf(sid: int)
      modifies this
      ensures rows == WithoutStakeholder(old(rows), sid)
    {
      rows := WithoutStakeholder(rows, sid);
    }
  }
}
