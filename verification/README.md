# TEDAM edit presenter — a Dafny model

This project models `AbstractEditPresenter`. It is the generic controller behind every edit form of the TEDAM test-automation management application. The model covers four pieces of it:

- **The NEW/VIEW/EDIT lifecycle.** This covers the dirty flag `hasChanges`, the leave-confirmation path, validation before any save, audit stamping in `save`, and the transitions of the confirm button (`okPressed`) and the back button (`backPressed`).
- **Read-only propagation (`organizeComponents`).** A recursive walk over the form's component tree.
- **Project authorization.** `checkUserProjectAuthority` and `isAuthorized`.
- **Grid-preference reconciliation.** `findGridPreference`, `saveGridPreference` and `laodGridPreference`; the last name is spelled that way in the source.

Every operation is a pure function over immutable data, or a method with a loop.

- **Collaborators.** The presenter's collaborators become parameters:
  - the current user's name and a clock reading (`Session`)
  - the entity service's save (`persist`, which answers with a stored entity, null, or an integrity violation)
  - the subclass's `enterView` lookup (`load`)
  - the validation stream of the view (`errors`)
  - the user's choice in the leave popup (`answer`)
  - whether the subclass's `enterView` throws a `LocalizedException` when the back button re-enters VIEW (`enterFails`)
  - the user's project list and the entity's project
  - the user, project and view identifiers of a grid preference (`Scope`)
  - the point where a `LocalizedException` interrupts a preference save (`Fault`), and whether the lookup of a preference load fails (`lookupFails`)
- **Effects.** Everything the presenter does to the outside world is returned as a sequence of effects in source order. This covers service calls, URL updates, navigation, notifications, focus and leaving the event bus.
- **Preference store.** The grid-preference service becomes a sequence of rows. Row `i` carries the identifier `i`. The lookup by (user, project, view, grid) is assumed to return the first row with that key. The batch save overwrites the rows that carry an identifier and appends the rest.

Files:

| file | contents |
|---|---|
| `outcomes.dfy` | `Option` and `Result` |
| `entities.dfy` | the audited entity; `IsNew` means "has no id yet" |
| `edit_presenter.dfy` | the view-mode state machine |
| `authorization.dfy` | the project membership check |
| `components.dfy` | the widget tree and `organizeComponents` |
| `grid_preferences.dfy` | lookup, save and load of grid preferences |

Behaviours of the source that the model keeps on purpose:

- `save` stamps the bound bean in place before calling the service. After an integrity violation or a null answer, the bean therefore still carries the new audit stamps.
- In EDIT, `okPressed` stamps the update fields and `save` stamps them again. The model uses one clock reading for both.
- `beforeLeavingView` leaves the event bus before the user answers the popup. Cancelling therefore keeps EDIT and the pending changes, but leaves the presenter unsubscribed.
- `isAuthorized` only shows "not authorized" and returns normally.
- A null entity project is dereferenced on the first comparison. The check therefore fails exactly when the user has at least one project. With no projects it answers "not authorized".
- `organizeComponents` descends only into tab sheets and horizontal, vertical and CSS layouts. Every other container is left unchanged, children included.
- `MultiFileUpload` is set enabled when the form is read-only, the opposite of `Upload`.
- The editable pass re-applies the mode `TedamGrid.getSelectionMode()` reports. The model reads that as the grid's current mode. Under that assumption, a grid switched back to editable keeps the selection mode NONE it was given.
- When the back button's re-entry into VIEW fails, the `LocalizedException` is only logged. The presenter then stays in EDIT, unsubscribed, with its dirty flag still set.
- The preference update and the preference load each use the first grid with a matching id.
- `saveGridPreference` creates rows only when no grid has a row yet. Otherwise grids without a row stay without one.
- Two grids with the same id in one creating save produce two rows with one key. Key uniqueness is therefore proved under distinct grid ids.

## Model

| member | source | states |
|---|---|---|
| EditPresenter.Save | src/main/java/com/lbs/tedam/ui/view/AbstractEditPresenter.java:184-193 | A new entity gets the creation time and creator and keeps its update fields. A persisted entity gets the update time and updater and keeps its creation fields. Id and content are untouched. The service's save is called with the stamped entity. |
| EditPresenter.FieldChanged | src/main/java/com/lbs/tedam/ui/view/AbstractEditPresenter.java:132-136 | Any field change sets the dirty flag and changes nothing else. |
| EditPresenter.RefreshView | src/main/java/com/lbs/tedam/ui/view/AbstractEditPresenter.java:195-199 | Sets the requested mode, binds the item and clears the dirty flag. Subscription and screen are untouched. |
| EditPresenter.RunWithConfirmation | src/main/java/com/lbs/tedam/ui/view/AbstractEditPresenter.java:123-130 | The popup is shown if and only if there are unsaved changes. Without changes, the confirmation action runs at once. With changes, it runs exactly when the user confirms. |
| EditPresenter.BeforeLeavingView | src/main/java/com/lbs/tedam/ui/view/AbstractEditPresenter.java:117-121 | Always leaves the event bus. Asks only when dirty. Navigation proceeds when the form is clean or the user confirms. |
| EditPresenter.FocusFirstErrorField | src/main/java/com/lbs/tedam/ui/view/AbstractEditPresenter.java:262-271 | Returns true exactly when the validation stream is non-empty. Only the first invalid field is reported and focused. |
| EditPresenter.AfterSave | src/main/java/com/lbs/tedam/ui/view/AbstractEditPresenter.java:239-259 | After the service call there is no second save. An integrity violation is reported with no transition. A null answer causes no transition. A stored entity enters VIEW with the returned id; when the mode was NEW, the URL is updated first. The matching success notice comes last. |
| EditPresenter.OkPressed | src/main/java/com/lbs/tedam/ui/view/AbstractEditPresenter.java:231-260 | A validation error blocks every save and transition. The service is called if and only if validation passes outside VIEW. NEW saves with creation stamps. EDIT saves with update stamps. VIEW enters EDIT without saving. A stored result enters VIEW with the returned id; the URL is updated if and only if the mode was NEW. A failed or null save keeps the mode and the dirty flag. |
| EditPresenter.BackPressed | src/main/java/com/lbs/tedam/ui/view/AbstractEditPresenter.java:209-229 | The leave popup is shown if and only if the mode is EDIT and the form is dirty. Outside EDIT it only navigates to the grid view. In EDIT, once confirmed, it re-enters VIEW for the bound entity's id with a clean flag. If that re-entry throws, it stays in EDIT, unsubscribed, with the flag unchanged. When cancelled, it stays in EDIT, unsubscribed. This concerns `backPressed`'s own code only: the navigator's before-leave hook, which can also reach `beforeLeavingView` when navigation starts outside EDIT, is not part of this model. |
| EditPresenter.OkPressedKeepsValid | src/main/java/com/lbs/tedam/ui/view/AbstractEditPresenter.java:231-260 | The confirm button keeps "VIEW and EDIT hold a persisted entity, NEW a new one", given that the service returns stored entities with ids and the lookup binds the requested id. |
| EditPresenter.BackPressedKeepsValid | src/main/java/com/lbs/tedam/ui/view/AbstractEditPresenter.java:209-229 | The back button keeps the same mode/entity invariant. |
| EditPresenter.ConfirmNewScenario | src/main/java/com/lbs/tedam/ui/view/AbstractEditPresenter.java:238-245 | A valid confirm on a new entity that the service stores: the entity is saved with creation stamps, the mode becomes VIEW on an entity with an id, the form is clean, and the created notice is shown. |
| EditPresenter.ChangeThenBackAsksScenario | src/main/java/com/lbs/tedam/ui/view/AbstractEditPresenter.java:209-229 | Changing a field in EDIT and pressing back always shows the leave popup. |
| EditPresenter.FailedReentryKeepsChanges | src/main/java/com/lbs/tedam/ui/view/AbstractEditPresenter.java:216-223 | A confirmed discard whose re-entry into VIEW throws keeps EDIT, the item and the dirty flag; the presenter has left the event bus. |
| EditPresenter.CancelledLeaveStaysUnsubscribed | src/main/java/com/lbs/tedam/ui/view/AbstractEditPresenter.java:117-121 | Cancelling the leave popup keeps the mode, item and dirty flag, but the presenter has left the event bus. |
| Authorization.CheckUserProjectAuthority | src/main/java/com/lbs/tedam/ui/view/AbstractEditPresenter.java:377-390 | Authorized if and only if some project of the user has the entity's project id. A null entity project fails exactly when the user has at least one project. |
| Authorization.IsAuthorized | src/main/java/com/lbs/tedam/ui/view/AbstractEditPresenter.java:369-375 | Shows "not authorized" if and only if the check denies. A denial is only reported and never raised. Only a null project with a non-empty project list fails. |
| Components.OrganizeComponents | src/main/java/com/lbs/tedam/ui/view/AbstractEditPresenter.java:285-353 | Each direct child keeps its shape. A read-only pass locks every reachable input except the cancel and save buttons and multi-file uploads. An editable pass unlocks them, disables multi-file uploads, and leaves every grid with the selection mode it had. Either pass leaves the cancel and save buttons, unrecognised components and unwalked containers, contents included, exactly as they were at any depth. |
| Components.OrganizeFrames | src/main/java/com/lbs/tedam/ui/view/AbstractEditPresenter.java:285-353 | At every depth under the walked containers, the cancel and save buttons, unrecognised components and containers that are not walked, with all their contents, come out unchanged. |
| Components.NestedSaveButtonUntouched | src/main/java/com/lbs/tedam/ui/view/AbstractEditPresenter.java:316-321 | A save button inside a vertical layout keeps its enabled state under either pass. |
| Components.OrganizeKeepsShape | src/main/java/com/lbs/tedam/ui/view/AbstractEditPresenter.java:285-353 | The walk keeps container kinds, child counts, button ids, field kinds and which grids have a row-operations column. |
| Components.ReadOnlyLocks | src/main/java/com/lbs/tedam/ui/view/AbstractEditPresenter.java:285-353 | After a read-only pass, inside the walked containers: buttons other than cancel and save are disabled; menu bars and uploads are disabled; fields are read-only; grids are unselectable with row operations hidden; multi-file uploads are enabled. |
| Components.EditableUnlocks | src/main/java/com/lbs/tedam/ui/view/AbstractEditPresenter.java:285-353 | After an editable pass, inside the walked containers: buttons other than cancel and save, menu bars and uploads are enabled; fields are editable; row operations are shown; multi-file uploads are disabled. |
| Components.OrganizeIdempotent | src/main/java/com/lbs/tedam/ui/view/AbstractEditPresenter.java:285-353 | Applying the same flag twice equals applying it once. |
| Components.ReadOnlyOverrides | src/main/java/com/lbs/tedam/ui/view/AbstractEditPresenter.java:285-353 | A read-only pass gives the same tree whatever pass came before it. |
| Components.UntouchedComponents | src/main/java/com/lbs/tedam/ui/view/AbstractEditPresenter.java:316-321 | The cancel and save buttons, unrecognised components and containers that are not walked come out unchanged. |
| Components.EditableKeepsSelection | src/main/java/com/lbs/tedam/ui/view/AbstractEditPresenter.java:303-309 | An editable pass leaves every grid with its own selection mode, grid by grid, at the same place in the tree. |
| Components.GridSelectionNotRestored | src/main/java/com/lbs/tedam/ui/view/AbstractEditPresenter.java:303-309 | After a read-only pass and then an editable pass, no reachable grid is selectable. |
| Components.GridRoundTripExample | src/main/java/com/lbs/tedam/ui/view/AbstractEditPresenter.java:303-313 | A single-selection grid goes read-only and back to editable: its row-operations column is shown again, but its selection mode stays NONE. |
| Components.MultiFileUploadInverted | src/main/java/com/lbs/tedam/ui/view/AbstractEditPresenter.java:346-351 | A multi-file upload is enabled exactly when read-only. A plain upload is enabled exactly when editable. |
| GridPreferences.FindRow | src/main/java/com/lbs/tedam/ui/view/AbstractEditPresenter.java:405-406 | The lookup's row is the first row with the requested key. No row means no row has that key. |
| GridPreferences.FirstGridIndex | src/main/java/com/lbs/tedam/ui/view/AbstractEditPresenter.java:427-431 | The grid a preference is matched to is the first grid with that id. No grid means no grid has that id. |
| GridPreferences.FindGridPreference | src/main/java/com/lbs/tedam/ui/view/AbstractEditPresenter.java:399-412 | Keeps only the non-null lookups. Every result is the stored row for a grid's key. Every grid with a row contributes it. The result is empty if and only if no grid has a row. |
| GridPreferences.SaveGridPreference | src/main/java/com/lbs/tedam/ui/view/AbstractEditPresenter.java:414-438 | A `LocalizedException` from the lookup or the save is swallowed and leaves the store unchanged. |
| GridPreferences.SaveAllAppends | src/main/java/com/lbs/tedam/ui/view/AbstractEditPresenter.java:435 | Saving rows without identifiers appends them in order, numbered after the existing rows. |
| GridPreferences.SaveAllOverwrites | src/main/java/com/lbs/tedam/ui/view/AbstractEditPresenter.java:435 | Saving rows that carry identifiers of existing rows overwrites exactly those rows and adds none. |
| GridPreferences.SaveCreatesWhenNoneFound | src/main/java/com/lbs/tedam/ui/view/AbstractEditPresenter.java:417-424 | If no grid has a row, exactly one row per grid is appended in grid order. Each is tagged with user, project, view and grid id, and holds the grid's layout. |
| GridPreferences.SaveUpdatesWhenFound | src/main/java/com/lbs/tedam/ui/view/AbstractEditPresenter.java:425-434 | If some grid has a row, no row is added. Exactly the found rows get the layout of the first grid with their grid id. Every key and every other row is unchanged. |
| GridPreferences.SaveKeepsStoreInvariant | src/main/java/com/lbs/tedam/ui/view/AbstractEditPresenter.java:414-438 | For grids with distinct ids, saving keeps "at most one row per (user, project, view, grid)" and keeps row identifiers matching positions. |
| GridPreferences.DuplicateGridIdsDuplicateRows | src/main/java/com/lbs/tedam/ui/view/AbstractEditPresenter.java:417-424 | Two grids with one id, saved into an empty store, produce two rows with the same key. |
| GridPreferences.SaveIdempotent | src/main/java/com/lbs/tedam/ui/view/AbstractEditPresenter.java:414-438 | Saving the same grids twice stores exactly what saving once stores. |
| GridPreferences.LoadGridPreference | src/main/java/com/lbs/tedam/ui/view/AbstractEditPresenter.java:440-452 | A `LocalizedException` from the lookup is swallowed and every grid keeps its layout. Loading has no save step, so the lookup's failure is the only failure modelled. |
| GridPreferences.ApplyAllSpec | src/main/java/com/lbs/tedam/ui/view/AbstractEditPresenter.java:442-449 | Each found preference sets the layout of the first grid with its id. Grids no preference matches first are untouched. Ids and order are kept. |
| GridPreferences.LoadAppliesStoredLayouts | src/main/java/com/lbs/tedam/ui/view/AbstractEditPresenter.java:440-452 | A grid changes if and only if it is the first grid with its id and a row exists for its key. It then takes that row's layout. All other grids, including repeats of an id, keep their layout. |

## Left out

- Event-bus plumbing is reduced to the `subscribed` flag: `subscribeToEventBus`, and the bus inside `destroy`.
- `setView`, the accordion selection and `setGridEditorAttributes` are left out. They are toolkit wiring.
- `displayTestRunsOperationsColumn` is left out. It is empty here, and subclass overrides are not part of this model.
- `delete` is left out. It only forwards to the service.
- `enterView` is abstract in the source. It is modelled as "look the entity up by id, then `refreshView`". Subclasses are not part of this model.
- `getProjectByEntity` returns null by default, and subclasses decide the project. The entity's project is therefore a parameter, possibly null.
- The security context is replaced by explicit parameters: the user name, user id, session project, the user's project list, and the view id (the presenter's class name).
- `LocalDateTime.now()` is replaced by a timestamp parameter. The two clock readings of the EDIT branch are one reading.
- Localized message text is reduced to the field caption in `RequiredFieldReported`.
- The `ConfirmPopup` display is reduced to an effect. The user's answer is a parameter.
- The null test behind `isNew` is assumed. `AbstractBaseEntity` is not part of this model, and `isNew` is modelled as "has no id".
- A `LocalizedException` escaping `save` or `enterView` from `okPressed` is not modelled. Only the caught integrity violation is.
- `EditPresenter.BackPressed` models a failing `enterView` as one that binds nothing before it throws. Where a subclass's `enterView` throws is not part of this model.
- A null button id, which would throw in the button rule, is not modelled. Button ids are strings.
- `Components.GridSelectionNotRestored` assumes that `TedamGrid.getSelectionMode()` returns the grid's current selection mode. `TedamGrid` is not part of this model. If the getter instead returns the mode the grid was built with (the grid views shown build theirs with MULTI), the editable pass restores that mode. `GridSelectionNotRestored`, `GridRoundTripExample` and `EditableKeepsSelection` then describe the current-mode reading only.
- The component categories are assumed disjoint: each component gets exactly one rule. The source tests each category with its own `instanceof`, not `else if`, so a class in two categories would get both rules and the later one would win. Toolkit classes that would fall into two categories are not part of this model.
- `TedamGrid` is not part of this model. `saveGridPreferenceByGrid` is assumed to return a preference with the grid's id and layout. `saveGridPreference` is assumed to write the grid's layout into the preference it is given. `loadGridPreference` is assumed to set the grid's layout.
- A preference save failure is modelled as all-or-nothing: a failed batch save changes no row.
- The preference service's lookup by (user, project, view, grid) is not part of this model. The model assumes it returns the first row with that key. A single-result repository query may instead raise when two rows match, and `DuplicateGridIdsDuplicateRows` shows that two such rows can arise.
- The navigator's before-leave hook, which calls `beforeLeavingView` when the edit view is left by other navigation, is not part of this model. Only `backPressed`'s own call is modelled.
- `GridPreferences.SaveGridPreference` swallows only a `LocalizedException`. Unchecked exceptions propagate in the source and are not modelled: a `DataIntegrityViolationException` from the batch save, for instance on duplicate-key rows, and the null-pointer failure of a null grid id.
- `GridPreferences.SaveGridPreference` states only the failure case in its own contract. The success cases are stated by `SaveCreatesWhenNoneFound`, `SaveUpdatesWhenFound` and `SaveIdempotent`.
- `GridPreferences.LoadGridPreference` swallows only a `LocalizedException`. Unchecked exceptions propagate in the source and are not modelled: the null-pointer failure of a null grid id, and anything the grid's own layout loading might throw, since `TedamGrid` is not part of this model.
- `GridPreferences.LoadGridPreference` states only the failure case in its own contract. The success case is stated by `LoadAppliesStoredLayouts`.
- Grid-view and window classes (`TestSetGridView`, `UserGridView`, `WindowTestStepTypeGridDelete`) are not part of this model.
