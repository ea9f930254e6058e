/** The NEW/VIEW/EDIT lifecycle of AbstractEditPresenter: dirty tracking, the
    leave-confirmation path, validation before persistence, audit stamping and the
    transitions of the confirm (okPressed) and back (backPressed) buttons.

    The presenter's collaborators become parameters. Everything the presenter does
    to the outside world (service calls, navigation, notifications, focus) is
    returned as a sequence of effects, in the order the source performs them. */
module EditPresenter {
  import opened Outcomes
  import opened Entities

  datatype ViewMode = NEW | VIEW | EDIT

  /** Which screen the navigator shows: still this edit form, or the entity's grid view. */
  datatype Screen = EditForm | GridScreen

  /** A form field as the view's validation stream reports it. */
  datatype Field = Field(caption: string)

  /** The presenter's mutable state: the view's mode, the binder's bean, the dirty
      flag, whether it is still subscribed to the view event bus, and the screen. */
  datatype State = State(
    mode: ViewMode,
    item: Entity,
    hasChanges: bool,
    subscribed: bool,
    screen: Screen)

  /** Observable actions, in the order the presenter performs them. */
  datatype Effect =
    | RequiredFieldReported(caption: string)
    | FieldFocused(field: Field)
    | SaveRequested(entity: Entity)
    | ViewParameterUpdated(id: Option<int>)
    | ViewEntered(id: Option<int>, mode: ViewMode)
    | SuccessfulSaveShown
    | SuccessfulUpdateShown
    | DataIntegrityReported
    | Unsubscribed
    | LeaveConfirmShown
    | NavigatedToGrid
    | NotAuthorizedShown

  datatype Step = Step(state: State, effects: seq<Effect>)

  /** The outcome of validation: was an invalid field found, and what was shown. */
  datatype Validation = Validation(hasError: bool, effects: seq<Effect>)

  /** The outcome of the leave path: the state, the effects so far, and whether
      the navigation goes ahead. */
  datatype Leave = Leave(state: State, effects: seq<Effect>, confirmed: bool)

  /** The current user's name and the clock reading an operation stamps with. */
  datatype Session = Session(userName: string, now: Timestamp)

  /** What the entity service's save gives back: the stored entity, null, or a
      DataIntegrityViolationException. */
  datatype SaveResponse = Stored(entity: Entity) | NullResult | IntegrityViolation

  /** The entity handed to the service and what the service answered. */
  datatype SaveCall = SaveCall(sent: Entity, response: SaveResponse)

  /** The leave-confirmation decision: was the popup shown, and does the
      confirmation action run (at once, or because the user confirmed). */
  datatype Confirmation = Confirmation(popupShown: bool, confirmed: bool)

  // ---------------------------------------------------------------- save

  /** The presenter's save: stamp the creation fields on a new entity, the update
      fields on a persisted one, and hand the stamped entity to the service. */
  function Save(item: Entity, session: Session, persist: Entity -> SaveResponse): (r: SaveCall)
    ensures r.sent.id == item.id && r.sent.payload == item.payload
    ensures item.IsNew() ==>
              && r.sent.dateCreated == Some(session.now)
              && r.sent.createdUser == Some(session.userName)
              && r.sent.dateUpdated == item.dateUpdated
              && r.sent.updatedUser == item.updatedUser
    ensures !item.IsNew() ==>
              && r.sent.dateUpdated == Some(session.now)
              && r.sent.updatedUser == Some(session.userName)
              && r.sent.dateCreated == item.dateCreated
              && r.sent.createdUser == item.createdUser
    ensures r.response == persist(r.sent)
  {
    var stamped :=
      if !item.IsNew() then item.(dateUpdated := Some(session.now), updatedUser := Some(session.userName))
      else item.(dateCreated := Some(session.now), createdUser := Some(session.userName));
    SaveCall(stamped, persist(stamped))
  }

  // ---------------------------------------------------------------- dirty tracking

  /** The binder's value-change listener: any field change marks the form dirty. */
  function FieldChanged(s: State): (r: State)
    ensures r.hasChanges
    ensures r.(hasChanges := s.hasChanges) == s
  {
    s.(hasChanges := true)
  }

  /** refreshView: switch the view to `mode`, bind `item`, and forget pending changes. */
  function RefreshView(s: State, item: Entity, mode: ViewMode): (r: State)
    ensures r.mode == mode && r.item == item && !r.hasChanges
    ensures r.subscribed == s.subscribed && r.screen == s.screen
  {
    s.(mode := mode, item := item, hasChanges := false)
  }

  /** enterView of a subclass, with the entity lookup it performs given as `load`:
      the entity with the requested id is bound and the view refreshed. */
  function EnterView(s: State, id: Option<int>, mode: ViewMode, load: Option<int> -> Entity): Step {
    Step(RefreshView(s, load(id), mode), [ViewEntered(id, mode)])
  }

  /** runWithConfirmation: the popup is shown exactly when there are unsaved
      changes; otherwise the confirmation action runs at once. `answer` is the
      user's choice in the popup, consulted only when the popup is shown. */
  function RunWithConfirmation(hasChanges: bool, answer: bool): (r: Confirmation)
    ensures r.popupShown <==> hasChanges
    ensures !hasChanges ==> r.confirmed
    ensures hasChanges ==> (r.confirmed <==> answer)
  {
    if hasChanges then Confirmation(true, answer) else Confirmation(false, true)
  }

  /** beforeLeavingView: unsubscribe from the event bus, then ask for confirmation
      if the form is dirty. The caller runs the navigation when `confirmed`. */
  function BeforeLeavingView(s: State, answer: bool): (r: Leave)
    ensures r.state == s.(subscribed := false)
    ensures r.confirmed <==> !s.hasChanges || answer
    ensures r.effects == [Unsubscribed] + (if s.hasChanges then [LeaveConfirmShown] else [])
  {
    var c := RunWithConfirmation(s.hasChanges, answer);
    Leave(s.(subscribed := false), [Unsubscribed] + (if c.popupShown then [LeaveConfirmShown] else []), c.confirmed)
  }

  // ---------------------------------------------------------------- buttons

  /** focusFirstErrorField: report and focus the first invalid field, if any. */
  function FocusFirstErrorField(errors: seq<Field>): (r: Validation)
    ensures r.hasError <==> |errors| > 0
    ensures !r.hasError ==> r.effects == []
    ensures r.hasError ==> r.effects == [RequiredFieldReported(errors[0].caption), FieldFocused(errors[0])]
  {
    if |errors| > 0 then Validation(true, [RequiredFieldReported(errors[0].caption), FieldFocused(errors[0])])
    else Validation(false, [])
  }

  /** True when the effects contain a call of the service's save. */
  predicate CallsSave(effects: seq<Effect>) {
    exists e :: e in effects && e.SaveRequested?
  }

  /** The rest of the confirm button once the entity has been sent to the service:
      on a stored entity re-enter VIEW with the returned id; on null stay put; on
      an integrity violation report it and stay put. The binder's bean carries the
      audit stamps in every case, since the source stamps it in place. */
  function AfterSave(s: State, call: SaveCall, fromNewMode: bool, load: Option<int> -> Entity): (r: Step)
    ensures |r.effects| >= 1 && r.effects[0] == SaveRequested(call.sent)
    ensures !CallsSave(r.effects[1..])
    ensures call.response.IntegrityViolation? ==>
              r.state == s.(item := call.sent) && r.effects == [SaveRequested(call.sent), DataIntegrityReported]
    ensures call.response.NullResult? ==>
              r.state == s.(item := call.sent) && r.effects == [SaveRequested(call.sent)]
    ensures call.response.Stored? ==>
              var id := call.response.entity.id;
              && r.state == RefreshView(s, load(id), VIEW)
              && r.effects ==
                   [SaveRequested(call.sent)]
                   + (if fromNewMode then [ViewParameterUpdated(id)] else [])
                   + [ViewEntered(id, VIEW)]
                   + [if fromNewMode then SuccessfulSaveShown else SuccessfulUpdateShown]
  {
    var bound := s.(item := call.sent);
    match call.response
    case IntegrityViolation => Step(bound, [SaveRequested(call.sent), DataIntegrityReported])
    case NullResult => Step(bound, [SaveRequested(call.sent)])
    case Stored(e) =>
      var entered := EnterView(bound, e.id, VIEW, load);
      Step(entered.state,
           [SaveRequested(call.sent)]
           + (if fromNewMode then [ViewParameterUpdated(e.id)] else [])
           + entered.effects
           + [if fromNewMode then SuccessfulSaveShown else SuccessfulUpdateShown])
  }

  /** okPressed: validate first; then NEW saves and enters VIEW with the new id,
      EDIT stamps the update fields, saves and enters VIEW, and VIEW enters EDIT. */
  function OkPressed(s: State, errors: seq<Field>, session: Session,
                     persist: Entity -> SaveResponse, load: Option<int> -> Entity): (r: Step)
    // validation always blocks persistence and every transition
    ensures |errors| > 0 ==>
              r.state == s && r.effects == [RequiredFieldReported(errors[0].caption), FieldFocused(errors[0])]
    // the service is called exactly when validation passes outside VIEW
    ensures CallsSave(r.effects) <==> |errors| == 0 && s.mode != VIEW
    ensures |errors| == 0 && s.mode == VIEW ==>
              r.state == RefreshView(s, load(s.item.id), EDIT) && r.effects == [ViewEntered(s.item.id, EDIT)]
    ensures |errors| == 0 && s.mode != VIEW ==>
              && r.effects[0].SaveRequested?
              && r.effects[0].entity.id == s.item.id
              && r.effects[0].entity.payload == s.item.payload
              && (persist(r.effects[0].entity).Stored? ==>
                    var id := persist(r.effects[0].entity).entity.id;
                    && r.state == RefreshView(s, load(id), VIEW)
                    && ViewEntered(id, VIEW) in r.effects
                    && (s.mode == NEW <==> ViewParameterUpdated(id) in r.effects))
    ensures |errors| == 0 && s.mode == NEW ==>
              var sent := r.effects[0].entity;
              && (s.item.IsNew() ==> sent.dateCreated == Some(session.now) && sent.createdUser == Some(session.userName)
                                     && sent.dateUpdated == s.item.dateUpdated && sent.updatedUser == s.item.updatedUser)
              && (persist(sent).Stored? ==> r.effects[|r.effects| - 1] == SuccessfulSaveShown)
    ensures |errors| == 0 && s.mode == EDIT ==>
              var sent := r.effects[0].entity;
              && sent.dateUpdated == Some(session.now) && sent.updatedUser == Some(session.userName)
              && (!s.item.IsNew() ==> sent.dateCreated == s.item.dateCreated && sent.createdUser == s.item.createdUser)
              && (persist(sent).Stored? ==> r.effects[|r.effects| - 1] == SuccessfulUpdateShown)
    // a failed or empty save leaves the mode and the dirty flag alone
    ensures |errors| == 0 && s.mode != VIEW && !persist(r.effects[0].entity).Stored? ==>
              && r.state == s.(item := r.effects[0].entity)
              && (persist(r.effects[0].entity).IntegrityViolation? <==> DataIntegrityReported in r.effects)
  {
    var validation := FocusFirstErrorField(errors);
    if validation.hasError then Step(s, validation.effects)
    else
      match s.mode
      case NEW => AfterSave(s, Save(s.item, session, persist), true, load)
      case EDIT =>
        var touched := s.item.(dateUpdated := Some(session.now), updatedUser := Some(session.userName));
        AfterSave(s, Save(touched, session, persist), false, load)
      case VIEW => EnterView(s, s.item.id, EDIT, load)
  }

  /** backPressed: in EDIT go through the leave path, re-entering VIEW for the
      bound entity once confirmed; in any other mode go straight to the grid view.
      `enterFails` says whether the subclass's enterView throws a LocalizedException;
      the source only logs it, so the presenter stays in EDIT, unsubscribed, with
      its dirty flag as it was. */
  function BackPressed(s: State, answer: bool, enterFails: bool, load: Option<int> -> Entity): (r: Step)
    ensures LeaveConfirmShown in r.effects <==> s.mode == EDIT && s.hasChanges
    ensures s.mode != EDIT ==> r.state == s.(screen := GridScreen) && r.effects == [NavigatedToGrid]
    ensures s.mode == EDIT ==> !r.state.subscribed && NavigatedToGrid !in r.effects
    ensures s.mode == EDIT && (!s.hasChanges || answer) && !enterFails ==>
              && r.state == RefreshView(s, load(s.item.id), VIEW).(subscribed := false)
              && ViewEntered(s.item.id, VIEW) in r.effects
    ensures s.mode == EDIT && (!s.hasChanges || answer) && enterFails ==>
              && r.state == s.(subscribed := false)
              && r.effects == [Unsubscribed] + (if s.hasChanges then [LeaveConfirmShown] else [])
    ensures s.mode == EDIT && s.hasChanges && !answer ==>
              r.state == s.(subscribed := false) && r.effects == [Unsubscribed, LeaveConfirmShown]
  {
    if s.mode == EDIT then
      var leave := BeforeLeavingView(s, answer);
      if leave.confirmed && !enterFails then
        var entered := EnterView(leave.state, s.item.id, VIEW, load);
        Step(entered.state.(hasChanges := false), leave.effects + entered.effects)
      else Step(leave.state, leave.effects)
    else Step(s.(screen := GridScreen), [NavigatedToGrid])
  }

  // ---------------------------------------------------------------- invariants

  /** VIEW and EDIT hold a persisted entity; NEW holds a transient one. */
  predicate Valid(s: State) {
    s.mode == NEW <==> s.item.IsNew()
  }

  /** The subclass lookup binds the entity with the requested id. */
  ghost predicate LoadsById(load: Option<int> -> Entity) {
    forall id :: load(id).id == id
  }

  /** The service hands back stored entities with an identifier. */
  ghost predicate AssignsIds(persist: Entity -> SaveResponse) {
    forall e :: persist(e).Stored? ==> persist(e).entity.id.Some?
  }

  lemma OkPressedKeepsValid(s: State, errors: seq<Field>, session: Session,
                            persist: Entity -> SaveResponse, load: Option<int> -> Entity)
    requires Valid(s) && LoadsById(load) && AssignsIds(persist)
    ensures Valid(OkPressed(s, errors, session, persist, load).state)
  {
    var r := OkPressed(s, errors, session, persist, load);
    if |errors| == 0 && s.mode != VIEW {
      var sent := r.effects[0].entity;
      if persist(sent).Stored? {
        assert r.state.item == load(persist(sent).entity.id);
      }
    }
  }

  lemma BackPressedKeepsValid(s: State, answer: bool, enterFails: bool, load: Option<int> -> Entity)
    requires Valid(s) && LoadsById(load)
    ensures Valid(BackPressed(s, answer, enterFails, load).state)
  {
  }

  /** A successful confirm on a new entity persists it with creation stamps,
      enters VIEW on an identifier and reports the creation. */
  lemma ConfirmNewScenario(s: State, session: Session, persist: Entity -> SaveResponse, load: Option<int> -> Entity)
    requires s.mode == NEW && s.item.IsNew()
    requires LoadsById(load) && AssignsIds(persist)
    requires persist(Save(s.item, session, persist).sent).Stored?
    ensures var r := OkPressed(s, [], session, persist, load);
            && r.state.mode == VIEW && r.state.item.id.Some? && !r.state.hasChanges
            && r.effects[0] == SaveRequested(Save(s.item, session, persist).sent)
            && r.effects[0].entity.dateCreated == Some(session.now)
            && SuccessfulSaveShown in r.effects
  {
    var r := OkPressed(s, [], session, persist, load);
    assert r.effects[|r.effects| - 1] == SuccessfulSaveShown;
  }

  /** Changing a field in EDIT and pressing back always asks before leaving. */
  lemma ChangeThenBackAsksScenario(s: State, answer: bool, enterFails: bool, load: Option<int> -> Entity)
    requires s.mode == EDIT
    ensures LeaveConfirmShown in BackPressed(FieldChanged(s), answer, enterFails, load).effects
  {
  }

  /** Cancelling the leave popup keeps EDIT and the pending changes, but the
      presenter has already left the event bus. */
  lemma CancelledLeaveStaysUnsubscribed(s: State, enterFails: bool, load: Option<int> -> Entity)
    requires s.mode == EDIT && s.hasChanges
    ensures var r := BackPressed(s, false, enterFails, load).state;
            r.mode == EDIT && r.hasChanges && r.item == s.item && !r.subscribed
  {
  }

  /** Confirming the leave popup while the re-entry into VIEW fails leaves the
      form in EDIT with its changes still pending, though unsubscribed. */
  lemma FailedReentryKeepsChanges(s: State, load: Option<int> -> Entity)
    requires s.mode == EDIT && s.hasChanges
    ensures var r := BackPressed(s, true, true, load);
            && r.state.mode == EDIT && r.state.hasChanges && r.state.item == s.item && !r.state.subscribed
            && r.effects == [Unsubscribed, LeaveConfirmShown]
  {
  }
}
