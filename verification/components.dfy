/** Read-only propagation (organizeComponents) over a form's component tree.

    The toolkit's class hierarchy becomes a tagged variant. The walk visits the
    direct children of the component it is given; a tab sheet or a horizontal,
    vertical or CSS layout is walked recursively, every other container is left
    exactly as it is, and each leaf kind gets its own rule. */
module Components {
  import opened Outcomes

  datatype ContainerKind = TabSheet | HorizontalLayout | VerticalLayout | CssLayout | OtherContainer

  datatype FieldKind = ComboBox | TextField | PasswordField | DateField | DateTimeField

  datatype SelectionMode = Single | Multi | NoSelection

  /** A grid's row-operations column, when it has one, carries its hidden flag.
      `selection` is the grid's current selection mode, which is also what the
      editable pass re-applies to it. */
  datatype Widget =
    | Container(kind: ContainerKind, children: seq<Widget>)
    | Grid(selection: SelectionMode, rowOperationsHidden: Option<bool>)
    | Button(id: string, enabled: bool)
    | MenuBar(enabled: bool)
    | InputField(field: FieldKind, readOnly: bool)
    | Upload(enabled: bool)
    | MultiFileUpload(enabled: bool)
    | Other(name: string)

  const CancelButtonId: string := "general.button.cancel"
  const SaveButtonId: string := "general.button.save"

  /** The two action buttons the walk never touches. */
  predicate IsExemptButton(w: Widget) {
    w.Button? && (w.id == CancelButtonId || w.id == SaveButtonId)
  }

  /** The containers the walk descends into. */
  predicate Recursed(kind: ContainerKind) {
    kind != OtherContainer
  }

  /** One component under the read-only flag; containers other than the four
      recursed kinds are returned unchanged, children included. */
  function Organize(w: Widget, readOnly: bool): Widget
    decreases w
  {
    match w
    case Container(kind, children) =>
      if Recursed(kind) then
        Container(kind, seq(|children|, i requires 0 <= i < |children| => Organize(children[i], readOnly)))
      else w
    case Grid(selection, rowOps) =>
      Grid(if readOnly then NoSelection else selection,
           if rowOps.Some? then Some(readOnly) else None)
    case Button(id, enabled) =>
      if id != CancelButtonId && id != SaveButtonId then Button(id, !readOnly) else w
    case MenuBar(_) => MenuBar(!readOnly)
    case InputField(field, _) => InputField(field, readOnly)
    case Upload(_) => Upload(!readOnly)
    case MultiFileUpload(_) => MultiFileUpload(readOnly)
    case Other(_) => w
  }

  /** organizeComponents: apply the rule to each direct child of the component given. */
  function OrganizeComponents(components: seq<Widget>, readOnly: bool): (r: seq<Widget>)
    ensures |r| == |components|
    ensures forall i :: 0 <= i < |r| ==> SameShape(components[i], r[i])
    ensures readOnly ==> forall i :: 0 <= i < |r| ==> Locked(r[i])
    ensures !readOnly ==> forall i :: 0 <= i < |r| ==> Unlocked(r[i])
    ensures !readOnly ==> forall i :: 0 <= i < |r| ==> SameSelections(components[i], r[i])
    ensures forall i :: 0 <= i < |r| ==> Frames(components[i], r[i])
  {
    var r := seq(|components|, i requires 0 <= i < |components| => Organize(components[i], readOnly));
    forall i | 0 <= i < |r|
      ensures SameShape(components[i], r[i])
      ensures readOnly ==> Locked(r[i])
      ensures !readOnly ==> Unlocked(r[i])
      ensures !readOnly ==> SameSelections(components[i], r[i])
      ensures Frames(components[i], r[i])
    {
      OrganizeKeepsShape(components[i], readOnly);
      OrganizeFrames(components[i], readOnly);
      if readOnly {
        ReadOnlyLocks(components[i]);
      } else {
        EditableUnlocks(components[i]);
        EditableKeepsSelection(components[i]);
      }
    }
    r
  }

  // ---------------------------------------------------------------- reference predicates

  /** Two trees have the same components in the same places: same container
      kinds, grid row-operation columns present in the same grids, same button
      ids, same field kinds; only enabled, read-only, selection and hidden
      states may differ. */
  predicate SameShape(a: Widget, b: Widget)
    decreases a
  {
    match a
    case Container(kind, children) =>
      && b.Container? && b.kind == kind && |b.children| == |children|
      && forall i :: 0 <= i < |children| ==> SameShape(children[i], b.children[i])
    case Grid(_, rowOps) => b.Grid? && b.rowOperationsHidden.Some? == rowOps.Some?
    case Button(id, _) => b.Button? && b.id == id
    case MenuBar(_) => b.MenuBar?
    case InputField(field, _) => b.InputField? && b.field == field
    case Upload(_) => b.Upload?
    case MultiFileUpload(_) => b.MultiFileUpload?
    case Other(name) => b == a
  }

  /** What the walk must not touch is untouched in `b`: the cancel and save
      buttons, unrecognised components and every container that is not walked,
      contents included, at any depth under the walked containers. */
  predicate Frames(a: Widget, b: Widget)
    decreases a
  {
    match a
    case Container(kind, children) =>
      if Recursed(kind) then
        && b.Container? && |b.children| == |children|
        && forall i :: 0 <= i < |children| ==> Frames(children[i], b.children[i])
      else b == a
    case Button(_, _) => IsExemptButton(a) ==> b == a
    case Other(_) => b == a
    case _ => true
  }

  /** The read-only state as the source leaves it: inside the recursed containers
      every button but the two exempt ones, every menu bar and upload disabled,
      every field read-only, every grid unselectable with its row operations
      hidden, and every multi-file upload ENABLED. */
  predicate Locked(w: Widget)
    decreases w
  {
    match w
    case Container(kind, children) =>
      Recursed(kind) ==> forall i :: 0 <= i < |children| ==> Locked(children[i])
    case Grid(selection, rowOps) => selection == NoSelection && (rowOps.Some? ==> rowOps.value)
    case Button(id, enabled) => IsExemptButton(w) || !enabled
    case MenuBar(enabled) => !enabled
    case InputField(_, readOnly) => readOnly
    case Upload(enabled) => !enabled
    case MultiFileUpload(enabled) => enabled
    case Other(_) => true
  }

  /** The editable state as the source leaves it: inside the recursed containers
      every button but the two exempt ones, every menu bar and upload enabled,
      every field editable, every row-operations column shown, and every
      multi-file upload DISABLED. Grid selection modes are not constrained. */
  predicate Unlocked(w: Widget)
    decreases w
  {
    match w
    case Container(kind, children) =>
      Recursed(kind) ==> forall i :: 0 <= i < |children| ==> Unlocked(children[i])
    case Grid(_, rowOps) => rowOps.Some? ==> !rowOps.value
    case Button(id, enabled) => IsExemptButton(w) || enabled
    case MenuBar(enabled) => enabled
    case InputField(_, readOnly) => !readOnly
    case Upload(enabled) => enabled
    case MultiFileUpload(enabled) => !enabled
    case Other(_) => true
  }

  /** The number of grids, reachable through recursed containers, whose
      selection mode is not NONE. */
  function SelectableGrids(w: Widget): nat
    decreases w
  {
    match w
    case Container(kind, children) =>
      if Recursed(kind) then SumSelectable(children) else 0
    case Grid(selection, _) => if selection == NoSelection then 0 else 1
    case _ => 0
  }

  function SumSelectable(ws: seq<Widget>): nat
    decreases ws
  {
    if |ws| == 0 then 0 else SelectableGrids(ws[0]) + SumSelectable(ws[1..])
  }

  // ---------------------------------------------------------------- lemmas

  lemma {:induction false} OrganizeKeepsShape(w: Widget, readOnly: bool)
    ensures SameShape(w, Organize(w, readOnly))
    decreases w
  {
    match w
    case Container(kind, children) =>
      if Recursed(kind) {
        forall i | 0 <= i < |children|
          ensures SameShape(children[i], Organize(w, readOnly).children[i])
        {
          OrganizeKeepsShape(children[i], readOnly);
        }
      } else {
        SameShapeReflexive(w);
      }
    case _ =>
  }

  lemma {:induction false} SameShapeReflexive(w: Widget)
    ensures SameShape(w, w)
    decreases w
  {
    match w
    case Container(_, children) =>
      forall i | 0 <= i < |children| ensures SameShape(children[i], children[i]) {
        SameShapeReflexive(children[i]);
      }
    case _ =>
  }

  /** The walk leaves the exempt buttons, unrecognised components and unwalked
      containers alone wherever they sit in the tree. */
  lemma {:induction false} OrganizeFrames(w: Widget, readOnly: bool)
    ensures Frames(w, Organize(w, readOnly))
    decreases w
  {
    match w
    case Container(kind, children) =>
      if Recursed(kind) {
        forall i | 0 <= i < |children| ensures Frames(children[i], Organize(w, readOnly).children[i]) {
          OrganizeFrames(children[i], readOnly);
        }
      }
    case _ =>
  }

  /** A save button nested in a walked layout comes out of either pass unchanged. */
  lemma NestedSaveButtonUntouched(readOnly: bool)
    ensures var w := Container(VerticalLayout, [Button(SaveButtonId, true), Button("x", true)]);
            Organize(w, readOnly).children[0] == Button(SaveButtonId, true)
  {
  }

  /** Read-only propagation reaches every leaf under the recursed containers. */
  lemma {:induction false} ReadOnlyLocks(w: Widget)
    ensures Locked(Organize(w, true))
    decreases w
  {
    match w
    case Container(kind, children) =>
      if Recursed(kind) {
        forall i | 0 <= i < |children| ensures Locked(Organize(w, true).children[i]) {
          ReadOnlyLocks(children[i]);
        }
      }
    case _ =>
  }

  /** Switching back to editable reaches the same leaves. */
  lemma {:induction false} EditableUnlocks(w: Widget)
    ensures Unlocked(Organize(w, false))
    decreases w
  {
    match w
    case Container(kind, children) =>
      if Recursed(kind) {
        forall i | 0 <= i < |children| ensures Unlocked(Organize(w, false).children[i]) {
          EditableUnlocks(children[i]);
        }
      }
    case _ =>
  }

  /** Applying the same flag twice changes nothing more. */
  lemma {:induction false} OrganizeIdempotent(w: Widget, readOnly: bool)
    ensures Organize(Organize(w, readOnly), readOnly) == Organize(w, readOnly)
    decreases w
  {
    match w
    case Container(kind, children) =>
      if Recursed(kind) {
        var once := Organize(w, readOnly);
        var twice := Organize(once, readOnly);
        assert |twice.children| == |once.children|;
        forall i | 0 <= i < |children| ensures twice.children[i] == once.children[i] {
          OrganizeIdempotent(children[i], readOnly);
        }
      }
    case _ =>
  }

  /** A read-only pass erases whatever an earlier pass did. */
  lemma {:induction false} ReadOnlyOverrides(w: Widget, earlier: bool)
    ensures Organize(Organize(w, earlier), true) == Organize(w, true)
    decreases w
  {
    match w
    case Container(kind, children) =>
      if Recursed(kind) {
        var a := Organize(Organize(w, earlier), true);
        var b := Organize(w, true);
        assert |a.children| == |b.children|;
        forall i | 0 <= i < |children| ensures a.children[i] == b.children[i] {
          ReadOnlyOverrides(children[i], earlier);
        }
      }
    case _ =>
  }

  /** The exempt buttons, unrecognised components and containers that are not
      walked come out of the walk exactly as they went in. */
  lemma UntouchedComponents(w: Widget, readOnly: bool)
    requires IsExemptButton(w) || w.Other? || (w.Container? && !Recursed(w.kind))
    ensures Organize(w, readOnly) == w
  {
  }

  /** A grid made read-only stays unselectable when the form becomes editable
      again: the editable pass keeps the grid's current selection mode. */
  lemma {:induction false} GridSelectionNotRestored(w: Widget)
    ensures SelectableGrids(Organize(Organize(w, true), false)) == 0
    decreases w
  {
    match w
    case Container(kind, children) =>
      if Recursed(kind) {
        var ws := Organize(Organize(w, true), false).children;
        forall i | 0 <= i < |ws| ensures SelectableGrids(ws[i]) == 0 {
          GridSelectionNotRestored(children[i]);
        }
        SumSelectableZero(ws);
      }
    case _ =>
  }

  lemma {:induction false} SumSelectableZero(ws: seq<Widget>)
    requires forall i :: 0 <= i < |ws| ==> SelectableGrids(ws[i]) == 0
    ensures SumSelectable(ws) == 0
    decreases |ws|
  {
    if |ws| > 0 {
      SumSelectableZero(ws[1..]);
    }
  }

  /** Every grid of `a` has the selection mode of the grid in the same place of
      `b`; containers are followed position by position. */
  predicate SameSelections(a: Widget, b: Widget)
    decreases a
  {
    match a
    case Container(_, children) =>
      && b.Container? && |b.children| == |children|
      && forall i :: 0 <= i < |children| ==> SameSelections(children[i], b.children[i])
    case Grid(selection, _) => b.Grid? && b.selection == selection
    case _ => true
  }

  lemma {:induction false} SameSelectionsReflexive(w: Widget)
    ensures SameSelections(w, w)
    decreases w
  {
    match w
    case Container(_, children) =>
      forall i | 0 <= i < |children| ensures SameSelections(children[i], children[i]) {
        SameSelectionsReflexive(children[i]);
      }
    case _ =>
  }

  /** The editable pass keeps every grid's own selection mode, grid by grid. */
  lemma {:induction false} EditableKeepsSelection(w: Widget)
    ensures SameSelections(w, Organize(w, false))
    decreases w
  {
    match w
    case Container(kind, children) =>
      if Recursed(kind) {
        forall i | 0 <= i < |children| ensures SameSelections(children[i], Organize(w, false).children[i]) {
          EditableKeepsSelection(children[i]);
        }
      } else {
        SameSelectionsReflexive(w);
      }
    case _ =>
  }

  /** A concrete case: a single-selection grid with a row-operations column, made
      read-only and then editable, shows its column again but remains unselectable. */
  lemma GridRoundTripExample()
    ensures Organize(Organize(Grid(Single, Some(false)), true), false) == Grid(NoSelection, Some(false))
  {
  }

  /** A concrete case: a multi-file upload is enabled by the read-only pass and
      disabled by the editable pass, the opposite of a plain upload. */
  lemma MultiFileUploadInverted(enabled: bool)
    ensures Organize(MultiFileUpload(enabled), true) == MultiFileUpload(true)
    ensures Organize(MultiFileUpload(enabled), false) == MultiFileUpload(false)
    ensures Organize(Upload(enabled), true) == Upload(false)
    ensures Organize(Upload(enabled), false) == Upload(true)
  {
  }
}
