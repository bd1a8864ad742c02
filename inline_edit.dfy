/**
 * The inline-edit client: how a table cell turns into an editor and back, how
 * it reads the current value out of the displayed span, how it fills a select
 * box, and which keys save or cancel. The DOM element is a datatype; a cell
 * and a select box, whose state the script changes in place, are classes.
 */
module InlineEdit {
  import opened Values
  import Stakeholders

  // ---------------------------------------------------------------------------
  // Reading the current value
  // ---------------------------------------------------------------------------

  /** The `.editable-value` span: its `data-value` attribute, its text, and whether it holds a `.badge`. */
  datatype ValueSpan = ValueSpan(dataValue: Option<string>, textContent: string, hasBadge: bool)

  /** The characters `String.prototype.trim` removes: ECMAScript WhiteSpace and LineTerminator. */
  predicate JsWhitespace(c: char)
  {
    c == '\t' || c == '\n' || c == '\U{B}' || c == '\U{C}' || c == '\r' || c == ' '
    || c == '\U{A0}' || c == '\U{1680}' || ('\U{2000}' <= c <= '\U{200A}')
    || c == '\U{2028}' || c == '\U{2029}' || c == '\U{202F}' || c == '\U{205F}' || c == '\U{3000}' || c == '\U{FEFF}'
  }

  /** The index of the first non-blank character at or after `lo`, or `|s|`. */
  function TrimmedStart(s: string, lo: nat): (i: nat)
    requires lo <= |s|
    ensures lo <= i <= |s|
    ensures forall k :: lo <= k < i ==> JsWhitespace(s[k])
    ensures i == |s| || !JsWhitespace(s[i])
    decreases |s| - lo
  {
    if lo == |s| || !JsWhitespace(s[lo]) then lo else TrimmedStart(s, lo + 1)
  }

  /** The index just past the last non-blank character in `s[lo..hi]`, or `lo`. */
  function TrimmedEnd(s: string, lo: nat, hi: nat): (j: nat)
    requires lo <= hi <= |s|
    ensures lo <= j <= hi
    ensures forall k :: j <= k < hi ==> JsWhitespace(s[k])
    ensures j == lo || !JsWhitespace(s[j - 1])
    decreases hi - lo
  {
    if hi == lo || !JsWhitespace(s[hi - 1]) then hi else TrimmedEnd(s, lo, hi - 1)
  }

  /** No blank at either end. */
  predicate Unpadded(s: string)
  {
    s == [] || (!JsWhitespace(s[0]) && !JsWhitespace(s[|s| - 1]))
  }

  /** `String.prototype.trim`. */
  function Trim(s: string): (r: string)
    ensures Unpadded(r)
  {
    var i := TrimmedStart(s, 0);
    var j := TrimmedEnd(s, i, |s|);
    s[i..j]
  }

  /** Trimming cuts only blanks, and only from the two ends. */
  lemma TrimIsSlice(s: string)
    ensures exists i, j :: (0 <= i <= j <= |s| && Trim(s) == s[i..j]
                            && (forall k :: 0 <= k < i ==> JsWhitespace(s[k]))
                            && (forall k :: j <= k < |s| ==> JsWhitespace(s[k])))
  {
    var i := TrimmedStart(s, 0);
    var j := TrimmedEnd(s, i, |s|);
    assert Trim(s) == s[i..j];
    assert forall k :: 0 <= k < i ==> JsWhitespace(s[k]);
    assert forall k :: j <= k < |s| ==> JsWhitespace(s[k]);
  }

  /** Trimming an unpadded string changes nothing. */
  lemma TrimUnpadded(s: string)
    requires Unpadded(s)
    ensures Trim(s) == s
  {
    assert TrimmedStart(s, 0) == 0;
    assert TrimmedEnd(s, 0, |s|) == |s|;
    assert s[0..|s|] == s;
  }

  lemma TrimIdempotent(s: string)
    ensures Trim(Trim(s)) == Trim(s)
  {
    TrimUnpadded(Trim(s));
  }

  predicate EndsWithEllipsis(s: string)
  {
    |s| >= 3 && s[|s| - 3..] == "..."
  }

  /** `value.replace(/\.\.\.$/, '')`: one trailing "..." is removed. */
  function StripEllipsis(s: string): (r: string)
    ensures EndsWithEllipsis(s) ==> r + "..." == s
    ensures !EndsWithEllipsis(s) ==> r == s
  {
    if EndsWithEllipsis(s) then s[..|s| - 3] else s
  }

  /** `getCleanValue(element)`. */
  function GetCleanValue(span: ValueSpan): string
  {
    if span.dataValue.Some? && span.dataValue.value != "" then span.dataValue.value
    else if span.hasBadge then Trim(span.textContent)
    else StripEllipsis(Trim(span.textContent))
  }

  /**
   * A non-empty `data-value` wins over the text; with a badge the trimmed text
   * is taken as it is; otherwise a display cut short with "..." is read back
   * without the marker, and an unpadded display without an ending "..." is
   * read back unchanged.
   */
  lemma GetCleanValueCases(span: ValueSpan, t: string)
    ensures span.dataValue.Some? && span.dataValue.value != "" ==> GetCleanValue(span) == span.dataValue.value
    ensures (span.dataValue.None? || span.dataValue.value == "") && span.hasBadge ==>
      GetCleanValue(span) == Trim(span.textContent)
    ensures ((span.dataValue.None? || span.dataValue.value == "") && !span.hasBadge
             && span.textContent == t + "..." && Unpadded(t) && t != []) ==>
      GetCleanValue(span) == t
    ensures ((span.dataValue.None? || span.dataValue.value == "") && !span.hasBadge
             && span.textContent == t && Unpadded(t) && !EndsWithEllipsis(t)) ==>
      GetCleanValue(span) == t
  {
    if Unpadded(t) {
      TrimUnpadded(t);
      if t != [] {
        EllipsisUnpadded(t);
        TrimUnpadded(t + "...");
        assert (t + "...")[..|t + "..."| - 3] == t;
      }
    }
  }

  lemma EllipsisUnpadded(t: string)
    requires Unpadded(t) && t != []
    ensures Unpadded(t + "...") && EndsWithEllipsis(t + "...")
  {
    var s := t + "...";
    assert s[0] == t[0];
    assert s[|s| - 3..] == "...";
  }

  /**
   * With a badge a trailing "..." stays part of the value; without one it is
   * taken for the truncation marker and dropped.
   */
  lemma BadgeKeepsEllipsis(t: string)
    requires Unpadded(t) && t != []
    ensures GetCleanValue(ValueSpan(None, t + "...", true)) == t + "..."
    ensures GetCleanValue(ValueSpan(None, t + "...", false)) == t
  {
    EllipsisUnpadded(t);
    TrimUnpadded(t + "...");
    assert (t + "...")[..|t + "..."| - 3] == t;
  }

  // ---------------------------------------------------------------------------
  // Filling a select box
  // ---------------------------------------------------------------------------

  datatype SelectOption = SelectOption(value: string, text: string, selected: bool)

  /** `addOptionsFromData`: one option per [label, value] pair, selected when its value is the current one. */
  function OptionsFromData(data: seq<(string, string)>, current: string): (r: seq<SelectOption>)
    ensures |r| == |data|
    ensures forall k :: 0 <= k < |r| ==> r[k] == SelectOption(data[k].1, data[k].0, data[k].1 == current)
    decreases |data|
  {
    if data == [] then []
    else
      var n := |data| - 1;
      OptionsFromData(data[..n], current) + [SelectOption(data[n].1, data[n].0, data[n].1 == current)]
  }

  /** The fallback option lists of `addFieldOptions`, as (value, label) pairs. */
  function FieldOptionTable(field: string): seq<(string, string)>
  {
    if field == "location_type" then
      [("", "-- \U{9078}\U{64C7}\U{5167}\U{90E8}/\U{5916}\U{90E8} --"),
       ("internal", "\U{5167}\U{90E8}"), ("external", "\U{5916}\U{90E8}")]
    else if field == "influence_attitude" then
      [("", "-- \U{9078}\U{64C7}\U{5F71}\U{97FF}/\U{614B}\U{5EA6} --"),
       ("completely_unaware", "\U{5B8C}\U{5168}\U{4E0D}\U{89BA}"), ("resistant", "\U{62B5}\U{5236}"),
       ("neutral", "\U{4E2D}\U{7ACB}"), ("supportive", "\U{652F}\U{6301}"), ("leading", "\U{9818}\U{5C0E}")]
    else
      [("", "-- Select --")]
  }

  /** `addFieldOptions`: the option selected when its label or its value is the current one. */
  function FieldOptions(table: seq<(string, string)>, current: string): (r: seq<SelectOption>)
    ensures |r| == |table|
    ensures forall k :: 0 <= k < |r| ==>
      r[k] == SelectOption(table[k].0, table[k].1, table[k].1 == current || table[k].0 == current)
    decreases |table|
  {
    if table == [] then []
    else
      var n := |table| - 1;
      FieldOptions(table[..n], current)
        + [SelectOption(table[n].0, table[n].1, table[n].1 == current || table[n].0 == current)]
  }

  /**
   * The fallback lists: a placeholder with value "" and then exactly the codes
   * of the record's constant tables, so the client offers 3, 6 or 1 options.
   */
  lemma FieldOptionTableMatchesModel(field: string)
    ensures |FieldOptionTable("location_type")| == 3 && |FieldOptionTable("influence_attitude")| == 6
    ensures field != "location_type" && field != "influence_attitude" ==> FieldOptionTable(field) == [("", "-- Select --")]
    ensures forall k :: 0 <= k < |Stakeholders.LOCATION_TYPES| ==>
      FieldOptionTable("location_type")[k + 1].0 == Stakeholders.LOCATION_TYPES[k]
    ensures forall k :: 0 <= k < |Stakeholders.INFLUENCE_ATTITUDES| ==>
      FieldOptionTable("influence_attitude")[k + 1].0 == Stakeholders.INFLUENCE_ATTITUDES[k]
    ensures FieldOptionTable(field)[0].0 == ""
  {
  }

  /** With distinct values at most one option from data is selected, and it is the current value's. */
  lemma OptionsFromDataSelection(data: seq<(string, string)>, current: string)
    requires forall i, j :: 0 <= i < j < |data| ==> data[i].1 != data[j].1
    ensures var r := OptionsFromData(data, current);
      && (forall i, j :: 0 <= i < j < |r| && r[i].selected ==> !r[j].selected)
      && (forall k :: 0 <= k < |r| ==> (r[k].selected <==> r[k].value == current))
  {
  }

  /**
   * A label match selects too: on the influence_attitude list the empty value
   * selects only the placeholder, and both "neutral" and its label select only
   * the fourth option.
   */
  lemma FieldOptionsSelection(current: string)
    ensures var r := FieldOptions(FieldOptionTable("influence_attitude"), current);
      current == "" ==> r[0].selected && forall k :: 1 <= k < |r| ==> !r[k].selected
    ensures var r := FieldOptions(FieldOptionTable("influence_attitude"), current);
      current == "neutral" || current == "\U{4E2D}\U{7ACB}" ==> forall k :: 0 <= k < |r| ==> (r[k].selected <==> k == 3)
  {
  }

  /** A `<select>` element: the options appended so far. */
  class Select {
    var options: seq<SelectOption>

    constructor ()
      ensures options == []
    {
      options := [];
    }

    method AddOptionsFromData(data: seq<(string, string)>, current: string)
      modifies this
      ensures options == old(options) + OptionsFromData(data, current)
    {
      var i := 0;
      while i < |data|
        invariant 0 <= i <= |data|
        invariant options == old(options) + OptionsFromData(data[..i], current)
      {
        var (caption, value) := data[i];
        options := options + [SelectOption(value, caption, value == current)];
        assert data[..i + 1][..i] == data[..i];
        i := i + 1;
      }
      assert data[..i] == data;
    }

    method AddFieldOptions(field: string, current: string)
      modifies this
      ensures options == old(options) + FieldOptions(FieldOptionTable(field), current)
    {
      var table := FieldOptionTable(field);
      var i := 0;
      while i < |table|
        invariant 0 <= i <= |table|
        invariant options == old(options) + FieldOptions(table[..i], current)
      {
        var (value, caption) := table[i];
        options := options + [SelectOption(value, caption, caption == current || value == current)];
        assert table[..i + 1][..i] == table[..i];
        i := i + 1;
      }
      assert table[..i] == table;
    }
  }

  // ---------------------------------------------------------------------------
  // Keys
  // ---------------------------------------------------------------------------

  datatype KeyOutcome = CancelEdit | SaveEdit | NoAction

  /** The keydown rule; `cellType` is the cell's `data-type`. */
  function KeyAction(key: string, ctrl: bool, cellType: string): KeyOutcome
  {
    if key == "Escape" then CancelEdit
    else if key == "Enter" && (cellType == "text" || cellType == "select" || ctrl) then SaveEdit
    else NoAction
  }

  /**
   * Escape always cancels; Enter saves a text or select editor at once, a
   * textarea only with Ctrl; no other key does anything.
   */
  lemma KeyActionRules(key: string, ctrl: bool, cellType: string)
    ensures key == "Escape" ==> KeyAction(key, ctrl, cellType) == CancelEdit
    ensures KeyAction("Enter", ctrl, "text") == SaveEdit && KeyAction("Enter", ctrl, "select") == SaveEdit
    ensures KeyAction("Enter", ctrl, "textarea") == (if ctrl then SaveEdit else NoAction)
    ensures key != "Escape" && key != "Enter" ==> KeyAction(key, ctrl, cellType) == NoAction
  {
  }

  // ---------------------------------------------------------------------------
  // The cell
  // ---------------------------------------------------------------------------

  datatype EditorKind = TextArea | SelectBox | TextInput

  /** The editor inserted into a cell: its kind, its value, the value it opened with, its options, whether it is disabled. */
  datatype Editor = Editor(kind: EditorKind, value: string, originalValue: string,
                           options: seq<SelectOption>, disabled: bool)

  /** The editor kind `startEditing` creates for a `data-type`. */
  function KindOf(cellType: string): (k: EditorKind)
    ensures k == TextArea <==> cellType == "textarea"
    ensures k == SelectBox <==> cellType == "select"
  {
    if cellType == "textarea" then TextArea else if cellType == "select" then SelectBox else TextInput
  }

  /** The options a select editor opens with: the server's list when it parses, else the field's fallback. */
  function OpeningOptions(field: string, current: string, optionsData: Option<seq<(string, string)>>): seq<SelectOption>
  {
    if optionsData.Some? then OptionsFromData(optionsData.value, current)
    else FieldOptions(FieldOptionTable(field), current)
  }

  /** `data.formatted_value || newValue`: an empty or missing formatted value falls back to the input. */
  function DisplayAfterSave(formatted: Option<string>, newValue: string): string
  {
    if formatted.Some? && formatted.value != "" then formatted.value else newValue
  }

  /** The span after a successful save as the script writes it: new text, and `data-value` left as it was. */
  function SpanAfterSaveAsWritten(span: ValueSpan, formatted: Option<string>, newValue: string): ValueSpan
  {
    span.(textContent := DisplayAfterSave(formatted, newValue), hasBadge := false)
  }

  /**
   * As written, a select cell that showed "internal" and was saved as
   * "external" still reads as "internal" when it is opened again.
   */
  lemma StaleDataValueAsWritten()
    ensures var span := ValueSpan(Some("internal"), "\U{5167}\U{90E8}", false);
      GetCleanValue(SpanAfterSaveAsWritten(span, Some("\U{5916}\U{90E8}"), "external")) == "internal"
  {
  }

  /** The span after a successful save with the stored code kept in step with the saved value. */
  function SpanAfterSave(span: ValueSpan, formatted: Option<string>, newValue: string): ValueSpan
  {
    span.(dataValue := if span.dataValue.Some? then Some(newValue) else None,
          textContent := DisplayAfterSave(formatted, newValue), hasBadge := false)
  }

  /**
   * After a save the span reads back as the saved value: through `data-value`
   * when it has one, and through the text when the server echoed the value.
   */
  lemma SpanAfterSaveReadsBack(span: ValueSpan, formatted: Option<string>, newValue: string)
    ensures span.dataValue.Some? && newValue != "" ==> GetCleanValue(SpanAfterSave(span, formatted, newValue)) == newValue
    ensures (span.dataValue.None? && (formatted.None? || formatted == Some(newValue))
             && Trim(newValue) == newValue && !EndsWithEllipsis(newValue)) ==>
      GetCleanValue(SpanAfterSave(span, formatted, newValue)) == newValue
  {
  }

  /** A `td.editable` cell. */
  class Cell {
    const field: string
    const cellType: string
    const hasIcon: bool
    var editing: bool
    var span: ValueSpan
    var editor: Option<Editor>

    /** An editor is present exactly while the cell carries the `editing` class. */
    ghost predicate Valid()
      reads this
    {
      editing <==> editor.Some?
    }

    constructor (field: string, cellType: string, hasIcon: bool, span: ValueSpan)
      ensures Valid()
      ensures this.field == field && this.cellType == cellType && this.hasIcon == hasIcon
      ensures this.span == span && !editing && editor == None
    {
      this.field := field;
      this.cellType := cellType;
      this.hasIcon := hasIcon;
      this.span := span;
      editing := false;
      editor := None;
    }

    /** The click handler: ignored while editing or without the edit icon. */
    method Click(optionsData: Option<seq<(string, string)>>)
      requires Valid()
      modifies this
      ensures Valid()
      ensures old(editing) || !hasIcon ==> editing == old(editing) && editor == old(editor) && span == old(span)
      ensures !old(editing) && hasIcon ==>
        && editing && span == old(span)
        && var current := GetCleanValue(span);
           editor == Some(Editor(KindOf(cellType), current, current,
                                 if KindOf(cellType) == SelectBox then OpeningOptions(field, current, optionsData) else [],
                                 false))
    {
      if editing {
        return;
      }
      if !hasIcon {
        return;
      }
      StartEditing(optionsData);
    }

    /** `startEditing`: mark the cell, read the current value, build the editor. */
    method StartEditing(optionsData: Option<seq<(string, string)>>)
      modifies this
      ensures Valid()
      ensures editing && span == old(span)
      ensures var current := GetCleanValue(span);
        editor == Some(Editor(KindOf(cellType), current, current,
                              if KindOf(cellType) == SelectBox then OpeningOptions(field, current, optionsData) else [],
                              false))
    {
      editing := true;
      var current := GetCleanValue(span);
      var kind := KindOf(cellType);
      var options: seq<SelectOption> := [];
      if kind == SelectBox {
        var select := new Select();
        if optionsData.Some? {
          select.AddOptionsFromData(optionsData.value, current);
        } else {
          select.AddFieldOptions(field, current);
        }
        options := select.options;
        assert options == OpeningOptions(field, current, optionsData);
      }
      editor := Some(Editor(kind, current, current, options, false));
    }

    /** The user changes the editor's content. */
    method Input(text: string)
      requires Valid() && editing && !editor.value.disabled
      modifies this
      ensures Valid() && editing && span == old(span)
      ensures editor == Some(old(editor).value.(value := text))
    {
      editor := Some(editor.value.(value := text));
    }

    /** `finishEditing` (also `cancelEdit`): the editor goes and the span is shown again. */
    method FinishEditing()
      modifies this
      ensures Valid() && !editing && editor == None && span == old(span)
    {
      editor := None;
      editing := false;
    }

    /**
     * The keydown handler; a save disables the editor while the request is
     * out, and a disabled editor receives no keys.
     */
    method KeyDown(key: string, ctrl: bool) returns (outcome: KeyOutcome)
      requires Valid() && editing && !editor.value.disabled
      modifies this
      ensures Valid()
      ensures outcome == KeyAction(key, ctrl, cellType)
      ensures outcome == CancelEdit ==> !editing && editor == None
      ensures outcome == SaveEdit ==> editing && editor == Some(old(editor).value.(disabled := true))
      ensures outcome == NoAction ==> editing && editor == old(editor)
      ensures span == old(span)
    {
      outcome := KeyAction(key, ctrl, cellType);
      if outcome == CancelEdit {
        FinishEditing();
      } else if outcome == SaveEdit {
        editor := Some(editor.value.(disabled := true));
      }
    }

    /**
     * A `{ success: true }` reply as the script handles it: the span shows the
     * new value, its `data-value` stays as it was, and the editor closes.
     */
    method SaveSucceeded(formatted: Option<string>)
      requires Valid() && editing
      modifies this
      ensures Valid() && !editing && editor == None
      ensures span == SpanAfterSaveAsWritten(old(span), formatted, old(editor).value.value)
      ensures span.dataValue == old(span).dataValue
    {
      span := SpanAfterSaveAsWritten(span, formatted, editor.value.value);
      FinishEditing();
    }

    /** The same reply with `data-value` kept in step with the saved value. */
    method SaveSucceededInStep(formatted: Option<string>)
      requires Valid() && editing
      modifies this
      ensures Valid() && !editing && editor == None
      ensures span == SpanAfterSave(old(span), formatted, old(editor).value.value)
      ensures old(span).dataValue.Some? && old(editor).value.value != "" ==>
        GetCleanValue(span) == old(editor).value.value
    {
      SpanAfterSaveReadsBack(span, formatted, editor.value.value);
      span := SpanAfterSave(span, formatted, editor.value.value);
      FinishEditing();
    }

    /** A failed reply: the editor stays open and is enabled again. */
    method SaveFailed()
      requires Valid() && editing
      modifies this
      ensures Valid() && editing && span == old(span)
      ensures editor == Some(old(editor).value.(disabled := false))
    {
      editor := Some(editor.value.(disabled := false));
    }
  }
}
