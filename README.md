# redmine_stakeholder in Dafny

This is a model of the core of the Redmine stakeholder plugin, with proofs about it. The core is the field-mutation gate in front of the stakeholders table and the audit ledger it writes. Around it sit:

- the record's validations and label rules;
- the migration that backfills per-project sequence numbers;
- the support-level badge helper;
- the inline-edit client that reads a cell's value, fills a select box and decides which keys save or cancel.

Files (modules):

- `values.dfy` (`Values`): attribute values (`nil`, String, Integer), Rails' `blank?`, Ruby's `to_s`, and the translation table that `I18n.t` reads (an injected map from key to text).
- `sorting.dfy` (`Sorting`): an ORDER BY clause as a sort under a total preorder. It is proved sorted and a permutation of its input.
- `stakeholder.dfy` (`Stakeholders`): the `Stakeholder` record, its validations, the two code tables, the label and option helpers, and the default ordering by `position`.
- `stakeholder_history.dfy` (`StakeholderHistory`): history rows, their validations, the display helpers, the `ordered`/`by_stakeholder` scopes, and the `HistoryLedger` class whose `record_*` methods append rows.
- `stakeholders_controller.dfy` (`StakeholdersController`):
  - `update`, `inline_update` and `destroy`, each as a pure function from the old state and the request to the reply and the new state;
  - the class `StakeholderStore`, whose methods perform the same actions step by step and are proved equal to those functions;
  - the helpers `find_stakeholder`, `stakeholder_params`, `sanitize_csv_value` and `format_field_value`.
- `sequence_backfill.dfy` (`SequenceBackfill`): migration 005. Its `find_each` pass is an in-place loop over an array of rows, proved to give each project the numbers 1..N in id order. It also covers the order of the migration's steps (see Findings).
- `stakeholders_helper.dfy` (`StakeholdersHelper`): `support_level_badge` as a badge class plus text.
- `inline_edit.dfy` (`InlineEdit`): `getCleanValue`, the two option fillers (over a `Select` class), the keydown rule, and the cell's editing state as a `Cell` class.

Inputs the code takes from its surroundings are parameters of the model:

- whether the current user may manage stakeholders;
- the current user's id;
- the translations;
- the timestamp stamped on new history rows;
- the database's ordering of `position` values;
- the names of existing users.

Three facts about the code shape the model:

- `project_sequence_number` is assigned only by migration 005. Creating a record assigns no number, so no creation-time max + 1 is modelled.
- `order(created_at: :desc)` fixes no order among rows with the same timestamp. The model proves the order and that no row is lost or invented, and nothing about ties.
- The JSON reply of `update` carries the formatted value of `params[:field]`, not the set of changed fields.

## Model

| member | source | states |
|---|---|---|
| Values.Blank | app/models/stakeholder.rb:39 | `blank?`: nil and an all-whitespace string are blank, an Integer never is. Its use in validations is proved by `Stakeholders.BlankOptionalFieldsPass`. |
| Values.ToS | app/models/stakeholder_history.rb:83-97 | `to_s`: nil gives "", a String gives itself, an Integer gives a non-empty decimal text. |
| Values.Translate | app/models/stakeholder.rb:40 | `I18n.t` with a default: the translation when the key exists, the default otherwise. |
| Sorting.SortBy | app/models/stakeholder.rb:28 | An ORDER BY: same length and same elements as its input, as a multiset. Sortedness is `Sorting.SortByCorrect`. |
| Stakeholders.Attr | app/controllers/stakeholders_controller.rb:301 | Reading a column: the key, the project and the sequence number read as stored; a column never written reads as nil. |
| Stakeholders.Assign | app/controllers/stakeholders_controller.rb:169 | Writing one assignable column sets it to the value, leaves every other column as it was, and keeps key, project and sequence number. |
| Stakeholders.AssignAll | app/controllers/stakeholders_controller.rb:98 | `assign_attributes` never changes the key, the project or the sequence number. What it stores is `Stakeholders.AssignAllAttr`. |
| Stakeholders.AssignAllAttr | app/controllers/stakeholders_controller.rb:98 | Assigning distinct permitted pairs gives each submitted column its submitted value and leaves every other modelled column as it was. |
| Stakeholders.IsValid | app/models/stakeholder.rb:20-25 | `valid?` as the conjunction of the six validations. Its consequences are proved by `ValidHasProjectAndName`, `LocationTypeNotRestricted` and `BlankOptionalFieldsPass`. |
| Stakeholders.ValidHasProjectAndName | app/models/stakeholder.rb:20-21 | A valid record has a project and a present name of at most 255 characters. |
| Stakeholders.LocationTypeNotRestricted | app/models/stakeholder.rb:22-25 | `location_type` is only length-checked, so "martian" passes. An influence attitude outside the five codes fails, and so does the empty string (only nil is allowed). |
| Stakeholders.BlankOptionalFieldsPass | app/models/stakeholder.rb:22-24 | A blank title, location type or project role never makes a valid record invalid, whatever whitespace it holds. |
| Stakeholders.CodeLabel | app/models/stakeholder.rb:40 | The label of a code is its translation when one exists, and the raw code otherwise. |
| Stakeholders.LocationTypeLabel | app/models/stakeholder.rb:38-41 | `location_type_label` is "" for a blank location type, otherwise the code's label in the location-type scope. |
| Stakeholders.InfluenceAttitudeLabel | app/models/stakeholder.rb:43-46 | `influence_attitude_label` is "" for a blank attitude, otherwise the code's label in the influence-attitude scope. |
| Stakeholders.LabelsDefaultToCode | app/models/stakeholder.rb:38-41 | With no translation, a present location type is labelled by its own non-empty code. |
| Stakeholders.OptionPairs | app/models/stakeholder.rb:30-36 | One [label, code] pair per table entry, in table order, labelled by the translation without a default. |
| Stakeholders.LocationTypeOptions | app/models/stakeholder.rb:30-32 | Exactly two options, "internal" then "external". |
| Stakeholders.InfluenceAttitudeOptions | app/models/stakeholder.rb:34-36 | Exactly one option per influence attitude, in the table's order. |
| Stakeholders.ProjectRows | app/controllers/stakeholders_controller.rb:17 | A row is listed exactly when it is a stored row of the project within the id range. |
| Stakeholders.ByPositionIsPreorder | app/models/stakeholder.rb:28 | Ordering rows by position is a total preorder whenever the database's ordering of positions is one. |
| Stakeholders.ListForProject | app/models/stakeholder.rb:28 | The default scope: the project's rows sorted by position. Order and membership are proved by the next two rows. |
| Stakeholders.ListForProjectSorted | app/models/stakeholder.rb:28 | The default-scope listing of a project is ordered by position. |
| Stakeholders.ListForProjectMembers | app/models/stakeholder.rb:28 | The listing holds exactly the project's rows, none of them twice. |
| StakeholderHistory.ValidEntry | app/models/stakeholder_history.rb:7-9 | Both ids present and the action one of the three codes. `BuiltEntriesValid` proves which built rows pass. |
| StakeholderHistory.ExactlyOneAction | app/models/stakeholder_history.rb:40-52 | For a valid row exactly one of `create_action?`, `update_action?` and `delete_action?` holds. |
| StakeholderHistory.ActionLabel | app/models/stakeholder_history.rb:24-26 | The action's translation, or the raw action code when there is none. |
| StakeholderHistory.FieldLabel | app/models/stakeholder_history.rb:29-32 | nil exactly when the field name is blank; otherwise the translation of "field_<name>", defaulting to the name. |
| StakeholderHistory.UserName | app/models/stakeholder_history.rb:35-37 | The user's name when the user exists, otherwise "Unknown User (ID: <user_id>)". |
| StakeholderHistory.ConvertValueToLabel | app/models/stakeholder_history.rb:82-99 | A blank value gives its `to_s`. A listed location-type or influence-attitude code gives its translation, defaulting to the code. Every other value, and every other field, gives `to_s`. |
| StakeholderHistory.ConvertValueToLabelExamples | app/models/stakeholder_history.rb:83-98 | nil is written as "". `participation_degree` codes are written untranslated. "internal" is translated. An unknown location type is written as it is. |
| StakeholderHistory.UpdateEntries | app/models/stakeholder_history.rb:64-79 | One row per change, in order, the k-th being the update row of the k-th change. |
| StakeholderHistory.UpdateEntriesShape | app/models/stakeholder_history.rb:64-79 | Nothing is batched. Each row is an 'update' row of the two ids, named after its field, with both values converted to display text. |
| StakeholderHistory.BuiltEntriesValid | app/models/stakeholder_history.rb:7-9 | A create, delete or update row passes validation exactly when both ids are present; its action is always in the list. |
| StakeholderHistory.LifecycleEntriesCarryNoValues | app/models/stakeholder_history.rb:55-61 | Create and delete rows carry their action and no field name, old value or new value. |
| StakeholderHistory.NewestFirstIsPreorder | app/models/stakeholder_history.rb:19 | Ordering by `created_at` descending is a total preorder. |
| StakeholderHistory.Ordered | app/models/stakeholder_history.rb:19 | The `ordered` scope: the table sorted newest first. `ByStakeholderCorrect` proves order and permutation. |
| StakeholderHistory.OfStakeholder | app/models/stakeholder_history.rb:20 | A row is selected exactly when it is in the table and belongs to the stakeholder. |
| StakeholderHistory.WithoutStakeholder | app/models/stakeholder.rb:3 | A row survives the cascade exactly when it is in the table and does not belong to the stakeholder. |
| StakeholderHistory.PartitionByStakeholder | app/models/stakeholder.rb:3 | The rows of a stakeholder and the rows that survive its cascade together make up the table, as a multiset. |
| StakeholderHistory.ByStakeholder | app/models/stakeholder_history.rb:20 | `by_stakeholder`: the stakeholder's rows under `ordered`. Its properties are the next row. |
| StakeholderHistory.ByStakeholderCorrect | app/models/stakeholder_history.rb:20 | `by_stakeholder` returns all and only that stakeholder's rows, as a permutation of them, newest first. |
| StakeholderHistory.HistoryLedger.Insert | app/models/stakeholder_history.rb:7-9 | `create` appends the row when it passes validation and appends nothing otherwise. |
| StakeholderHistory.HistoryLedger.RecordCreate | app/models/stakeholder_history.rb:55-61 | Appends exactly the create row when both ids are present. |
| StakeholderHistory.HistoryLedger.RecordUpdate | app/models/stakeholder_history.rb:64-79 | The loop appends exactly the update rows of the changes, in order. |
| StakeholderHistory.HistoryLedger.RecordDelete | app/models/stakeholder_history.rb:103-109 | Appends exactly the delete row when both ids are present. |
| StakeholderHistory.HistoryLedger.DestroyAllOf | app/models/stakeholder.rb:3 | `dependent: :destroy` leaves exactly the rows of other stakeholders, in order. |
| StakeholdersController.WhitelistRelations | app/controllers/stakeholders_controller.rb:10-14 | Every inline field is readable and permitted. `position`, `id`, `project_id` and `project_sequence_number` cannot be set inline. No permitted key is a structural column. |
| StakeholdersController.InlineFieldAssignable | app/controllers/stakeholders_controller.rb:10 | An inline field is never the key, the project or the sequence number. |
| StakeholdersController.SanitizeCsvValue | app/controllers/stakeholders_controller.rb:205-214 | A non-string is unchanged. A string starting with `=`, `+`, `-`, `@`, tab or CR gets a leading apostrophe. Every other string is unchanged. |
| StakeholdersController.SanitizeCsvValueIdempotent | app/controllers/stakeholders_controller.rb:205-214 | No sanitised value starts with a formula character, and sanitising twice equals sanitising once. |
| StakeholdersController.Truncate | app/controllers/stakeholders_controller.rb:302 | At most `length` characters. A short text is unchanged; a long one keeps its prefix and ends in "...". |
| StakeholdersController.FormatFieldValue | app/controllers/stakeholders_controller.rb:281-307 | `format_field_value`. Its behaviour on each branch is proved by `FormatFieldValueProperties` and `FormatFieldValueOtherColumns`. |
| StakeholdersController.FormatFieldValueProperties | app/controllers/stakeholders_controller.rb:281-307 | Any unlisted field, including `influence_attitude` (so its branch is dead), formats as "". The two long text fields give "" when blank, at most 50 characters always before HTML escaping, themselves when short, and their first 47 characters followed by "..." when longer. location_type gives its label. |
| StakeholdersController.FormatFieldValueOtherColumns | app/controllers/stakeholders_controller.rb:294-305 | `power`, `interest` and `participation_degree` reach their undefined label methods. Every other readable column is shown as stored, nil as "". Every readable field falls into one of the branches. |
| StakeholdersController.Permit | app/controllers/stakeholders_controller.rb:231-242 | Only listed, submitted keys, each once, each with its submitted value. |
| StakeholdersController.PermitKeepsListed | app/controllers/stakeholders_controller.rb:231-242 | Every listed key that was submitted is kept. |
| StakeholdersController.StakeholderParams | app/controllers/stakeholders_controller.rb:230-243 | The permitted pairs never name a structural column and never repeat a key, and each carries its submitted value. |
| StakeholdersController.StakeholderParamsKeeps | app/controllers/stakeholders_controller.rb:230-243 | Every permitted key that was submitted reaches the update. |
| StakeholdersController.FindStakeholder | app/controllers/stakeholders_controller.rb:216-228 | A record is found exactly when the id exists and belongs to the current project. |
| StakeholdersController.Changes | app/controllers/stakeholders_controller.rb:100-106 | At most one change per submitted pair. Each change carries the stored old value, which differs from the new one. |
| StakeholdersController.ChangedIff | app/controllers/stakeholders_controller.rb:100-106 | A submitted field is reported as changed if and only if its stored value differs from the submitted one, and then with both values. |
| StakeholdersController.ChangesFieldsFrom | app/controllers/stakeholders_controller.rb:100-106 | Only submitted fields are reported. |
| StakeholdersController.ChangesDistinctFields | app/controllers/stakeholders_controller.rb:100-106 | No field is reported twice. |
| StakeholdersController.CollectChanges | app/controllers/stakeholders_controller.rb:101-106 | The loop builds exactly the changes hash. |
| StakeholdersController.Gate | app/controllers/stakeholders_controller.rb:147-154 | A counter at 30 or more is refused and left unchanged; a lower counter is admitted and incremented. |
| StakeholdersController.RateLimitBoundary | app/controllers/stakeholders_controller.rb:146-154 | From an absent counter, calls 1 to 30 pass (the n-th leaves it at n), and the 31st and later calls are refused and leave it at 30. |
| StakeholdersController.InlineUpdateSpec | app/controllers/stakeholders_controller.rb:138-186 | `inline_update` as a function from the old state to the reply and the new state. Its properties are the next five rows. |
| StakeholdersController.InlineWriteSpec | app/controllers/stakeholders_controller.rb:156-185 | The part of `inline_update` after the rate limiter, as a function of the state: whitelist, save, history row. |
| StakeholdersController.UpdateSpec | app/controllers/stakeholders_controller.rb:94-136 | `update` as a function from the old state to the reply and the new state. Its properties are `UpdateHistoryOnlyForChanges` and `UpdateStoresSubmittedValues`. |
| StakeholdersController.UpdateWriteSpec | app/controllers/stakeholders_controller.rb:96-123 | The part of `update` after parameter filtering, as a function of the state: save, change set, history rows, reply. |
| StakeholdersController.DestroySpec | app/controllers/stakeholders_controller.rb:188-200 | `destroy` as a function of the state: delete row, cascade, removal. Its properties are `DeleteRowDoesNotSurvive` and `DestroyErasesHistory`. |
| StakeholdersController.CrossProjectGuard | app/controllers/stakeholders_controller.rb:216-228 | An unknown id and a record of another project both give 404 and change nothing, on all three actions. |
| StakeholdersController.InlineUpdateGateOrder | app/controllers/stakeholders_controller.rb:138-164 | Permission is checked first, then the rate limit, then the whitelist. The first two refusals change nothing at all. A refused field has already spent one unit of budget. No refusal touches a record or the ledger. |
| StakeholdersController.InlineUpdateOutcome | app/controllers/stakeholders_controller.rb:166-185 | A valid save stores the value and appends one `{field => [old, value]}` row when the value changed, none when it is equal. An invalid save changes nothing and answers 422 with the generic message. |
| StakeholdersController.InlineUpdateIdempotent | app/controllers/stakeholders_controller.rb:167-173 | With values stored as submitted: when the record is in the project, the budget is not spent, the field is listed and the saved record is valid, the call succeeds, and repeating it writes no further history and stores nothing new. |
| StakeholdersController.UpdateHistoryOnlyForChanges | app/controllers/stakeholders_controller.rb:94-135 | On success there is one history row per changed field and none for an unchanged one, with no field twice. A failed save changes nothing and answers 422 with the generic message. |
| StakeholdersController.UpdateStoresSubmittedValues | app/controllers/stakeholders_controller.rb:98 | A successful update stores every permitted submitted value and leaves every other modelled column alone (`updated_at` is not bumped; see Left out). |
| StakeholdersController.DeleteRowDoesNotSurvive | app/controllers/stakeholders_controller.rb:193-196 | The delete row written just before the cascade is removed by it. |
| StakeholdersController.DestroyErasesHistory | app/controllers/stakeholders_controller.rb:188-200 | After `destroy` the record and every history row of it are gone, the delete row included. Every other record and row stays, and no row is lost or invented. |
| StakeholdersController.ReplacePreservesWellFormed | db/migrate/005_add_project_sequence_number_to_stakeholders.rb:4 | Rewriting a row without touching key, project or number keeps rows keyed by id and the (project, number) index unique. |
| StakeholdersController.InlineUpdatePreservesWellFormed | app/controllers/stakeholders_controller.rb:138-186 | `inline_update` keeps the table well formed on every path. |
| StakeholdersController.UpdatePreservesWellFormed | app/controllers/stakeholders_controller.rb:94-136 | `update` keeps the table well formed on every path. |
| StakeholdersController.DestroyPreservesWellFormed | app/controllers/stakeholders_controller.rb:188-200 | `destroy` keeps the table well formed. |
| StakeholdersController.StakeholderStore.Expire | app/controllers/stakeholders_controller.rb:154 | The expired user's counter is gone and nothing else changes. |
| StakeholdersController.StakeholderStore.InlineUpdate | app/controllers/stakeholders_controller.rb:138-186 | Reply and new state are `InlineUpdateSpec` of the old state, and the store stays well formed. |
| StakeholdersController.StakeholderStore.RunInlineUpdate | app/controllers/stakeholders_controller.rb:138-164 | The checks, performed in order, give the reply and state `InlineUpdateSpec` computes from the old state. |
| StakeholdersController.StakeholderStore.WriteInline | app/controllers/stakeholders_controller.rb:156-185 | The whitelist check, the save and the optional history row give the reply and state `InlineWriteSpec` computes from the old state. |
| StakeholdersController.StakeholderStore.Update | app/controllers/stakeholders_controller.rb:94-136 | Reply and new state are `UpdateSpec` of the old state, and the store stays well formed. |
| StakeholdersController.StakeholderStore.RunUpdate | app/controllers/stakeholders_controller.rb:94-98 | The lookup, `require` and permit steps give the reply and state `UpdateSpec` computes from the old state. |
| StakeholdersController.StakeholderStore.WriteUpdate | app/controllers/stakeholders_controller.rb:96-110 | The save, the change loop and `record_update` give the reply and state `UpdateWriteSpec` computes from the old state. |
| StakeholdersController.StakeholderStore.Destroy | app/controllers/stakeholders_controller.rb:188-200 | The delete row, then the cascade, then removal of the record give the reply and state `DestroySpec` computes from the old state, and the store stays well formed. |
| SequenceBackfill.CountNumbered | db/migrate/005_add_project_sequence_number_to_stakeholders.rb:12-14 | The count of numbered rows of the project never exceeds the rows counted. |
| SequenceBackfill.Step | db/migrate/005_add_project_sequence_number_to_stakeholders.rb:9-16 | One iteration touches only the current row. A row already numbered is skipped. A zero row gets 1 + the project's count of numbered rows at that moment, and its project is kept. |
| SequenceBackfill.BackfillFrom | db/migrate/005_add_project_sequence_number_to_stakeholders.rb:8-17 | The rest of the pass from a row on keeps the table's length; its other properties are `BackfillFromFacts` and `BackfillFromZeros`. |
| SequenceBackfill.Backfill | db/migrate/005_add_project_sequence_number_to_stakeholders.rb:8-17 | The in-place loop leaves the table equal to the pass applied to the old table. |
| SequenceBackfill.BackfillFromFacts | db/migrate/005_add_project_sequence_number_to_stakeholders.rb:8-17 | From any position, the rest of the pass keeps every project and every row already numbered, and leaves no later row at 0. |
| SequenceBackfill.BackfillFacts | db/migrate/005_add_project_sequence_number_to_stakeholders.rb:8-17 | On any table the pass keeps projects and existing numbers, and no row ends at 0. |
| SequenceBackfill.AddColumn | db/migrate/005_add_project_sequence_number_to_stakeholders.rb:3 | After the column is added every row holds 0. |
| SequenceBackfill.Numbered | db/migrate/005_add_project_sequence_number_to_stakeholders.rb:8-17 | The intended numbering: each row gets one more than the number of earlier rows of its project. |
| SequenceBackfill.BackfillFromZeros | db/migrate/005_add_project_sequence_number_to_stakeholders.rb:3-17 | Starting from the column default, the pass produces exactly the intended numbering. |
| SequenceBackfill.NumberedIncreasing | db/migrate/005_add_project_sequence_number_to_stakeholders.rb:4-17 | Within a project the numbers increase in id order, so the unique index holds. |
| SequenceBackfill.NumberedInRange | db/migrate/005_add_project_sequence_number_to_stakeholders.rb:8-17 | A project with N rows gets numbers within 1..N. |
| SequenceBackfill.NumberedOnto | db/migrate/005_add_project_sequence_number_to_stakeholders.rb:8-17 | Every number in 1..N is given to some row of the project. |
| SequenceBackfill.UniqueIndexHolds | db/migrate/005_add_project_sequence_number_to_stakeholders.rb:4 | Creating the unique index succeeds exactly when no two rows share project and number. |
| SequenceBackfill.MigrateAsWritten | db/migrate/005_add_project_sequence_number_to_stakeholders.rb:3-17 | The migration as written: the column, then the unique index over all-zero numbers, then the pass. |
| SequenceBackfill.Migrate | db/migrate/005_add_project_sequence_number_to_stakeholders.rb:3-17 | The corrected order: the column, the pass, then the unique index. `MigrateSucceeds` proves it always succeeds. |
| SequenceBackfill.MigrateAsWrittenFails | db/migrate/005_add_project_sequence_number_to_stakeholders.rb:3-4 | As written, the migration stops on its index exactly when some project has two stakeholders. |
| SequenceBackfill.MigrateAsWrittenExample | db/migrate/005_add_project_sequence_number_to_stakeholders.rb:3-4 | Two stakeholders in one project make the migration as written fail. |
| SequenceBackfill.MigrateSucceeds | db/migrate/005_add_project_sequence_number_to_stakeholders.rb:3-17 | With the index created after the pass, the migration always succeeds with the 1..N numbering. |
| StakeholdersHelper.BadgeClass | app/helpers/stakeholders_helper.rb:5-18 | The `case` over the support level. `BadgeClassMatchesTable` proves it agrees with the colour table. |
| StakeholdersHelper.BadgeClassMatchesTable | app/helpers/stakeholders_helper.rb:5-18 | Each listed code gets its colour (strong_support→success, support→info, neutral→secondary, oppose→warning, strong_oppose→danger); any other value gets secondary. |
| StakeholdersHelper.SupportLevelBadge | app/helpers/stakeholders_helper.rb:2-23 | No badge exactly when the level is blank. Otherwise the class is "badge badge-<colour>" and the text is the level's translation, defaulting to the code. |
| StakeholdersHelper.BadgeClassesAreContextual | app/helpers/stakeholders_helper.rb:5-22 | Every colour is one of the five contextual classes, and an untranslated level is shown as itself. |
| StakeholdersHelper.BadgeClassExamples | app/helpers/stakeholders_helper.rb:5-18 | Matching is exact: a differently cased code and an integer fall back to secondary. |
| InlineEdit.Trim | assets/javascripts/inline_edit.js:228 | The trimmed text has no ECMAScript whitespace at either end. |
| InlineEdit.TrimIsSlice | assets/javascripts/inline_edit.js:232 | Trimming removes only whitespace, and only from the two ends. |
| InlineEdit.TrimUnpadded | assets/javascripts/inline_edit.js:232 | Trimming text with no whitespace at its ends changes nothing. |
| InlineEdit.TrimIdempotent | assets/javascripts/inline_edit.js:232 | Trimming twice is trimming once. |
| InlineEdit.StripEllipsis | assets/javascripts/inline_edit.js:235 | Exactly one trailing "..." is removed when there is one; otherwise the text is unchanged. |
| InlineEdit.GetCleanValue | assets/javascripts/inline_edit.js:217-238 | `getCleanValue`: `data-value` first, then the badge's trimmed text, then the trimmed text without a trailing "...". Its cases are the next row. |
| InlineEdit.GetCleanValueCases | assets/javascripts/inline_edit.js:217-238 | A non-empty `data-value` wins. With a badge, the trimmed text is returned. Otherwise a text cut short with "..." reads back without the marker, and an unpadded text without one reads back unchanged. |
| InlineEdit.BadgeKeepsEllipsis | assets/javascripts/inline_edit.js:226-235 | A trailing "..." stays in the value with a badge and is dropped without one. |
| InlineEdit.OptionsFromData | assets/javascripts/inline_edit.js:240-251 | One option per pair, in order, with value pair[1] and label pair[0], selected exactly when pair[1] is the current value. |
| InlineEdit.OptionsFromDataSelection | assets/javascripts/inline_edit.js:242-250 | With distinct values, at most one option is selected, and it is the one whose value is current. |
| InlineEdit.FieldOptionTable | assets/javascripts/inline_edit.js:258-278 | The hard-coded fallback lists. `FieldOptionTableMatchesModel` proves they agree with the record's code tables. |
| InlineEdit.FieldOptions | assets/javascripts/inline_edit.js:280-288 | One option per table entry, in order, selected exactly when its label or its value is the current value. |
| InlineEdit.FieldOptionTableMatchesModel | assets/javascripts/inline_edit.js:258-278 | location_type gives 3 options, influence_attitude 6, any other field the single "-- Select --". After the "" placeholder come exactly the record's code tables. |
| InlineEdit.FieldOptionsSelection | assets/javascripts/inline_edit.js:284-286 | A label matches as well as a value. On the influence_attitude list "" selects only the placeholder, and both "neutral" and its label select only the fourth option. |
| InlineEdit.Select.AddOptionsFromData | assets/javascripts/inline_edit.js:240-251 | The loop appends exactly the options built from the data. |
| InlineEdit.Select.AddFieldOptions | assets/javascripts/inline_edit.js:253-289 | The loop appends exactly the field's fallback options. |
| InlineEdit.KeyAction | assets/javascripts/inline_edit.js:119-127 | The keydown rule as a function of the key, Ctrl and data-type. Its rules are the next row. |
| InlineEdit.KeyActionRules | assets/javascripts/inline_edit.js:119-127 | Escape cancels. Enter saves a text or select editor at once and a textarea only with Ctrl. No other key does anything. |
| InlineEdit.KindOf | assets/javascripts/inline_edit.js:49-75 | A textarea exactly for data-type "textarea", a select exactly for "select", a text input otherwise. |
| InlineEdit.StaleDataValueAsWritten | assets/javascripts/inline_edit.js:158-161 | As written, a select cell saved from "internal" to "external" still reads as "internal". |
| InlineEdit.SpanAfterSaveReadsBack | assets/javascripts/inline_edit.js:158-161 | With the stored code kept in step, a saved cell reads back as the saved value. |
| InlineEdit.Cell.Click | assets/javascripts/inline_edit.js:28-35 | A click while editing or without the edit icon changes nothing. Otherwise the span stays, the cell becomes editing, and the editor is enabled, has the kind data-type gives, starts from the clean current value with that as its original value, and a select gets its opening options. |
| InlineEdit.Cell.StartEditing | assets/javascripts/inline_edit.js:39-78 | The cell becomes editing. The editor's kind follows data-type; its value and original value are the clean current value; a select gets the server's options or the fallback ones. |
| InlineEdit.Cell.Input | assets/javascripts/inline_edit.js:131 | Typing changes only the editor's value. |
| InlineEdit.Cell.FinishEditing | assets/javascripts/inline_edit.js:185-193 | The editor goes, the cell stops editing, and the span is unchanged. |
| InlineEdit.Cell.KeyDown | assets/javascripts/inline_edit.js:119-135 | The key rule decides: cancel closes the editor, save disables it, and anything else changes nothing. |
| InlineEdit.Cell.SaveSucceeded | assets/javascripts/inline_edit.js:157-161 | As written: the span's text becomes the formatted value, or the typed one when that is empty; its `data-value` keeps the old code; the editor closes. |
| InlineEdit.Cell.SaveSucceededInStep | assets/javascripts/inline_edit.js:157-161 | Corrected: the same save with `data-value` set to the saved value, so a cell with a stored code reads back as the saved value. |
| InlineEdit.Cell.SaveFailed | assets/javascripts/inline_edit.js:165-177 | The editor stays open and is enabled again. |

## Left out

- The `index`, `show`, `new`, `create`, `edit`, `history` and `analytics` actions are not modelled. They are rendering or database group/count queries; `create` is outside the modelled core, and no creation-time sequence number exists in the code.
- CSV and XLS generation is not modelled because it relies on the CSV and Builder libraries. Only the per-cell `sanitize_csv_value` is.
- Logging calls and HTML formats (flash notices, `render :edit`, the HTML redirect of `update`) are not modelled. `update` and `inline_update` are modelled with their JSON replies; `destroy` with its redirect.
- Authorisation (`before_action :authorize`, `allowed_to?`) and `find_project_by_project_id` belong to Redmine. Permission is a boolean input and the project id a parameter.
- The cache's `expires_in: 1.minute` involves the clock; it is an explicit `Expire` operation. The non-atomic read-then-write of the counter is a concurrency race, and the model is sequential.
- I18n locale fallbacks and interpolation are not modelled; translations are an injected map. `TranslateOrMissing`'s marker text leaves out the locale prefix of the i18n gem.
- StakeholdersController.InlineUpdateIdempotent: holds because values are stored as submitted. For the integer columns `power` and `interest` the code stores a cast Integer and compares it with the String parameter, so each repeat writes another history row; type casting is not modelled.
- StakeholdersController.UpdateStoresSubmittedValues: the stakeholders table has `t.timestamps` (db/migrate/001_create_stakeholders.rb:12), so a save with changes in `update` or `inline_update` also sets `updated_at` to the current time. The clock is not modelled: the model keeps the old `updated_at`, its frame claims hold for every other column, and a reply formatting `updated_at` after a save shows the old stamp. The same holds for Stakeholders.AssignAllAttr and StakeholdersController.InlineUpdateOutcome.
- ActiveRecord type casting is not modelled. Values are stored and compared as submitted, so an Integer 3 and a String "3" differ, as a stored integer and a raw parameter do.
- StakeholdersController.FormatFieldValue: `power_label`, `interest_label` and `participation_degree_label` are called but not defined in the record's code. The model returns `LabelNotModelled` for them instead of inventing them.
- No validation of `power`/`interest` ranges or of `primary_needs` length exists in the code, and none is modelled. `influence_attitude` is validated as the record's code does, although migration 006 renames that column.
- The `recent` scope depends on the clock and is not modelled. `human_attribute_name` delegates to the framework and is not modelled.
- The database's ordering of `position` values (NULL placement, collation, ties) is an injected total preorder. `SortBy` is one valid result; only sortedness and permutation are claimed.
- History row ids and `created_at` stamping are not modelled; the timestamp is a parameter.
- StakeholdersController.Truncate: `view_context.truncate` HTML-escapes its result by default, and that escaping is not modelled. The 50-character bound holds for the text before escaping; 47 `&` characters come out longer than 50 once escaped.
- DOM and network plumbing in the inline-edit client is not modelled: element creation, focus and selection, the save/cancel buttons, hover icons, `fetch`, the CSRF token, HTTP errors and the feedback timers. A successful or failed reply is an input. A JSON parse failure of `data-options` is modelled the same as missing data.
- `input.value = currentValue` on a select box is not modelled. The browser reconciles it with the options' selected flags; the model keeps the flags as the fillers set them.
- The formatted value written with `innerHTML` is treated as plain text, so no badge survives a save. HTML injection through it is not modelled.
- InlineEdit.Cell.KeyDown and InlineEdit.Cell.Input require an enabled editor: a disabled input receives no key or input events in the browser.
- InlineEdit.Cell.KeyDown: Enter saves without Ctrl only when data-type is exactly "text" or "select". A cell with any other data-type that opens a text input needs Ctrl, as in the code.
- The `find_each` batching of migration 005 is modelled as one pass over the rows in id order. All rows live in one array.

## Findings

| source | as written | input that shows it | evidently intended | confidence | as-written member | corrected member |
|---|---|---|---|---|---|---|
| db/migrate/005_add_project_sequence_number_to_stakeholders.rb:3-4 | The unique index on (project_id, project_sequence_number) is created right after the column is added with default 0, before the loop numbers any row. | Any existing project with two stakeholders, e.g. two rows of project 7: both hold (7, 0) when the index is built. | Create the index after the backfill, when every project's rows hold 1..N. | not executed | SequenceBackfill.MigrateAsWrittenExample | SequenceBackfill.MigrateSucceeds |
| assets/javascripts/inline_edit.js:158-161 | After a successful save only the span's content is replaced. Its `data-value` keeps the old code, and `getCleanValue` prefers `data-value`. | A select cell with `data-value` "internal" saved as "external": opening it again starts from "internal". | `data-value` follows the saved value. | not executed | InlineEdit.StaleDataValueAsWritten | InlineEdit.SpanAfterSaveReadsBack |
