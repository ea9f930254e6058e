/** Grid-preference reconciliation of AbstractEditPresenter (findGridPreference,
    saveGridPreference, laodGridPreference).

    A preference row stores one grid's column layout under the key (user,
    project, view, grid). The preference service becomes a store: a sequence of
    rows in which row `i` carries the identifier `i`. The lookup by key returns
    the first row with that key; the batch save updates the rows that carry an
    identifier and appends the ones that do not. A grid is its identifier and
    its current layout; reading the layout into a preference and writing a
    preference's layout into the grid are the two things the presenter asks of it. */
module GridPreferences {
  import opened Outcomes

  datatype Key = Key(userId: int, projectId: int, viewId: string, gridId: string)

  datatype GridPreference = GridPreference(rowId: Option<nat>, key: Key, layout: string)

  datatype Grid = Grid(id: string, layout: string)

  /** The current user, the session's project and the presenter's view identifier. */
  datatype Scope = Scope(userId: int, projectId: int, viewId: string)

  /** Where a LocalizedException interrupts a save, if anywhere. */
  datatype Fault = NoFault | LookupFails | PersistFails

  function KeyOf(scope: Scope, grid: Grid): Key {
    Key(scope.userId, scope.projectId, scope.viewId, grid.id)
  }

  /** Row `i` of the store carries the identifier `i`. */
  ghost predicate WellFormed(store: seq<GridPreference>) {
    forall i :: 0 <= i < |store| ==> store[i].rowId == Some(i)
  }

  /** At most one row per (user, project, view, grid). */
  ghost predicate UniqueKeys(store: seq<GridPreference>) {
    forall i, j :: 0 <= i < j < |store| ==> store[i].key != store[j].key
  }

  ghost predicate DistinctIds(grids: seq<Grid>) {
    forall i, j :: 0 <= i < j < |grids| ==> grids[i].id != grids[j].id
  }

  // ---------------------------------------------------------------- lookups

  /** The position of the first row with `key`. */
  function FindRow(store: seq<GridPreference>, key: Key): (r: Option<nat>)
    ensures r.Some? ==> r.value < |store| && store[r.value].key == key
    ensures r.Some? ==> forall j :: 0 <= j < r.value ==> store[j].key != key
    ensures r.None? ==> forall j :: 0 <= j < |store| ==> store[j].key != key
    decreases |store|
  {
    if |store| == 0 then None
    else if store[0].key == key then Some(0)
    else
      match FindRow(store[1..], key)
      case None => None
      case Some(j) => Some(j + 1)
  }

  /** The position of the first grid with identifier `id`. */
  function FirstGridIndex(grids: seq<Grid>, id: string): (r: Option<nat>)
    ensures r.Some? ==> r.value < |grids| && grids[r.value].id == id
    ensures r.Some? ==> forall j :: 0 <= j < r.value ==> grids[j].id != id
    ensures r.None? ==> forall j :: 0 <= j < |grids| ==> grids[j].id != id
    decreases |grids|
  {
    if |grids| == 0 then None
    else if grids[0].id == id then Some(0)
    else
      match FirstGridIndex(grids[1..], id)
      case None => None
      case Some(j) => Some(j + 1)
  }

  /** The service's findByUserIdAndProjectIdAndViewIdAndGridId. */
  function Lookup(store: seq<GridPreference>, key: Key): (r: Option<GridPreference>)
    ensures r.Some? <==> FindRow(store, key).Some?
    ensures r.Some? ==> r.value == store[FindRow(store, key).value] && r.value.key == key
  {
    match FindRow(store, key)
    case Some(i) => Some(store[i])
    case None => None
  }

  /** findGridPreference: look every grid up in order and keep the non-null answers. */
  function FindGridPreference(store: seq<GridPreference>, scope: Scope, grids: seq<Grid>): (found: seq<GridPreference>)
    ensures |found| <= |grids|
    ensures forall p :: p in found ==>
              Lookup(store, p.key) == Some(p) && exists g :: g in grids && p.key == KeyOf(scope, g)
    ensures forall g :: g in grids && Lookup(store, KeyOf(scope, g)).Some? ==>
              Lookup(store, KeyOf(scope, g)).value in found
    ensures found == [] <==> forall g :: g in grids ==> Lookup(store, KeyOf(scope, g)).None?
    decreases |grids|
  {
    if |grids| == 0 then []
    else
      var rest := FindGridPreference(store, scope, grids[1..]);
      assert forall g :: g in grids[1..] ==> g in grids;
      assert forall g :: g in grids ==> g == grids[0] || g in grids[1..];
      match Lookup(store, KeyOf(scope, grids[0]))
      case Some(p) => [p] + rest
      case None => rest
  }

  // ---------------------------------------------------------------- persistence

  /** Save one row: a row with an identifier replaces that row, any other is appended. */
  function SaveOne(store: seq<GridPreference>, p: GridPreference): seq<GridPreference> {
    if p.rowId.Some? && p.rowId.value < |store| then store[p.rowId.value := p]
    else store + [p.(rowId := Some(|store|))]
  }

  /** The service's batch save, one row after the other. */
  function SaveAll(store: seq<GridPreference>, batch: seq<GridPreference>): seq<GridPreference>
    decreases |batch|
  {
    if |batch| == 0 then store else SaveAll(SaveOne(store, batch[0]), batch[1..])
  }

  /** A preference freshly read from a grid, tagged with the user, project and view. */
  function NewPreference(scope: Scope, grid: Grid): GridPreference {
    GridPreference(None, KeyOf(scope, grid), grid.layout)
  }

  /** A found preference after the first grid with its grid identifier has written
      its current layout into it. */
  function UpdateByGrid(p: GridPreference, grids: seq<Grid>): GridPreference {
    match FirstGridIndex(grids, p.key.gridId)
    case Some(i) => p.(layout := grids[i].layout)
    case None => p
  }

  /** The rows saveGridPreference hands to the service: one new row per grid when
      nothing was found, otherwise exactly the found rows, updated. */
  function Batch(found: seq<GridPreference>, scope: Scope, grids: seq<Grid>): seq<GridPreference> {
    if found == [] then seq(|grids|, i requires 0 <= i < |grids| => NewPreference(scope, grids[i]))
    else seq(|found|, i requires 0 <= i < |found| => UpdateByGrid(found[i], grids))
  }

  /** saveGridPreference: a LocalizedException from the lookup or the save is swallowed
      and leaves the store as it was. */
  function SaveGridPreference(store: seq<GridPreference>, scope: Scope, grids: seq<Grid>, fault: Fault): (r: seq<GridPreference>)
    ensures fault != NoFault ==> r == store
  {
    match fault
    case LookupFails => store
    case PersistFails => store
    case NoFault => SaveAll(store, Batch(FindGridPreference(store, scope, grids), scope, grids))
  }

  // ---------------------------------------------------------------- loading

  /** Write one found preference into the first grid with its grid identifier. */
  function ApplyOne(p: GridPreference, grids: seq<Grid>): seq<Grid> {
    match FirstGridIndex(grids, p.key.gridId)
    case Some(i) => grids[i := grids[i].(layout := p.layout)]
    case None => grids
  }

  function ApplyAll(found: seq<GridPreference>, grids: seq<Grid>): seq<Grid>
    decreases |found|
  {
    if |found| == 0 then grids else ApplyAll(found[1..], ApplyOne(found[0], grids))
  }

  /** laodGridPreference: a LocalizedException from the lookup is swallowed and
      leaves every grid as it was. Loading persists nothing, so the lookup's is the
      only failure modelled. */
  function LoadGridPreference(store: seq<GridPreference>, scope: Scope, grids: seq<Grid>, lookupFails: bool): (r: seq<Grid>)
    ensures lookupFails ==> r == grids
  {
    if lookupFails then grids else ApplyAll(FindGridPreference(store, scope, grids), grids)
  }

  // ---------------------------------------------------------------- lemmas: persistence

  /** Saving rows without identifiers appends them, numbered in order. */
  lemma {:induction false} SaveAllAppends(store: seq<GridPreference>, batch: seq<GridPreference>)
    requires forall k :: 0 <= k < |batch| ==> batch[k].rowId.None?
    ensures SaveAll(store, batch)
            == store + seq(|batch|, k requires 0 <= k < |batch| => batch[k].(rowId := Some(|store| + k)))
    decreases |batch|
  {
    if |batch| > 0 {
      var next := SaveOne(store, batch[0]);
      SaveAllAppends(next, batch[1..]);
      var lhs := SaveAll(store, batch);
      var rhs := store + seq(|batch|, k requires 0 <= k < |batch| => batch[k].(rowId := Some(|store| + k)));
      assert |lhs| == |rhs|;
      forall j | 0 <= j < |lhs| ensures lhs[j] == rhs[j] {
        if j > |store| {
          assert lhs[j] == batch[1..][j - |next|].(rowId := Some(|next| + (j - |next|)));
        }
      }
    }
  }

  /** Saving rows that all carry identifiers of existing rows, two rows with the
      same identifier being equal, overwrites exactly those rows. */
  lemma {:induction false} SaveAllOverwrites(store: seq<GridPreference>, batch: seq<GridPreference>)
    requires forall p :: p in batch ==> p.rowId.Some? && p.rowId.value < |store|
    requires forall p, q :: p in batch && q in batch && p.rowId == q.rowId ==> p == q
    ensures |SaveAll(store, batch)| == |store|
    ensures forall p :: p in batch ==> SaveAll(store, batch)[p.rowId.value] == p
    ensures forall j :: 0 <= j < |store| && (forall p :: p in batch ==> p.rowId != Some(j)) ==>
              SaveAll(store, batch)[j] == store[j]
    decreases |batch|
  {
    if |batch| > 0 {
      var next := SaveOne(store, batch[0]);
      assert forall p :: p in batch[1..] ==> p in batch;
      SaveAllOverwrites(next, batch[1..]);
      var r := SaveAll(store, batch);
      forall p | p in batch ensures r[p.rowId.value] == p {
        if p != batch[0] {
          assert p in batch[1..];
        } else if exists q :: q in batch[1..] && q.rowId == p.rowId {
          var q :| q in batch[1..] && q.rowId == p.rowId;
          assert q == p;
        }
      }
      forall j | 0 <= j < |store| && (forall p :: p in batch ==> p.rowId != Some(j)) ensures r[j] == store[j] {
        assert batch[0] in batch;
      }
    }
  }

  /** A found row carries the identifier of its position. */
  lemma FoundRowsAreRows(store: seq<GridPreference>, scope: Scope, grids: seq<Grid>)
    requires WellFormed(store)
    ensures forall p :: p in FindGridPreference(store, scope, grids) ==>
              && p.rowId == FindRow(store, p.key)
              && p.rowId.Some? && p.rowId.value < |store| && store[p.rowId.value] == p
  {
  }

  /** A row is found by the lookup of one of the grids. */
  ghost predicate IsFoundRow(store: seq<GridPreference>, scope: Scope, grids: seq<Grid>, j: nat) {
    exists g :: g in grids && FindRow(store, KeyOf(scope, g)) == Some(j)
  }

  /** The store with one new row per grid appended, numbered in order. */
  function Created(store: seq<GridPreference>, scope: Scope, grids: seq<Grid>): (r: seq<GridPreference>)
    ensures |r| == |store| + |grids|
    ensures forall j :: 0 <= j < |store| ==> r[j] == store[j]
    ensures forall i :: 0 <= i < |grids| ==>
              r[|store| + i] == GridPreference(Some(|store| + i), KeyOf(scope, grids[i]), grids[i].layout)
  {
    store + seq(|grids|, i requires 0 <= i < |grids| =>
                  GridPreference(Some(|store| + i), KeyOf(scope, grids[i]), grids[i].layout))
  }

  /** When no grid has a row yet, saving appends one row per grid, in grid order,
      tagged with the user, project and view, and holding the grid's layout. */
  lemma SaveCreatesWhenNoneFound(store: seq<GridPreference>, scope: Scope, grids: seq<Grid>)
    requires forall g :: g in grids ==> Lookup(store, KeyOf(scope, g)).None?
    ensures SaveGridPreference(store, scope, grids, NoFault) == Created(store, scope, grids)
  {
    var batch := Batch(FindGridPreference(store, scope, grids), scope, grids);
    SaveAllAppends(store, batch);
    var lhs := SaveGridPreference(store, scope, grids, NoFault);
    var rhs := Created(store, scope, grids);
    assert |lhs| == |rhs|;
    forall j | 0 <= j < |lhs| ensures lhs[j] == rhs[j] {
    }
  }

  /** Every row of the update batch is a found row of the store, updated by its
      grid, and every found row is in the batch. */
  lemma UpdateBatchRows(store: seq<GridPreference>, scope: Scope, grids: seq<Grid>)
    requires WellFormed(store)
    requires FindGridPreference(store, scope, grids) != []
    ensures var batch := Batch(FindGridPreference(store, scope, grids), scope, grids);
            && (forall p :: p in batch ==>
                  && p.rowId.Some? && p.rowId.value < |store|
                  && IsFoundRow(store, scope, grids, p.rowId.value)
                  && p == UpdateByGrid(store[p.rowId.value], grids))
            && (forall j :: 0 <= j < |store| && IsFoundRow(store, scope, grids, j) ==>
                  UpdateByGrid(store[j], grids) in batch)
  {
    var found := FindGridPreference(store, scope, grids);
    FoundRowsAreRows(store, scope, grids);
    var batch := Batch(found, scope, grids);
    forall p | p in batch
      ensures p.rowId.Some? && p.rowId.value < |store|
      ensures IsFoundRow(store, scope, grids, p.rowId.value)
      ensures p == UpdateByGrid(store[p.rowId.value], grids)
    {
      var k :| 0 <= k < |batch| && batch[k] == p;
      assert found[k] in found;
      var g :| g in grids && found[k].key == KeyOf(scope, g);
    }
    forall j | 0 <= j < |store| && IsFoundRow(store, scope, grids, j)
      ensures UpdateByGrid(store[j], grids) in batch
    {
      var g :| g in grids && FindRow(store, KeyOf(scope, g)) == Some(j);
      assert Lookup(store, KeyOf(scope, g)).value == store[j];
      var k :| 0 <= k < |found| && found[k] == store[j];
      assert batch[k] == UpdateByGrid(store[j], grids);
    }
  }

  /** A found row's grid identifier is the identifier of one of the grids. */
  lemma FoundRowHasGrid(store: seq<GridPreference>, scope: Scope, grids: seq<Grid>, j: nat)
    requires j < |store| && IsFoundRow(store, scope, grids, j)
    ensures FirstGridIndex(grids, store[j].key.gridId).Some?
    ensures UpdateByGrid(store[j], grids)
            == store[j].(layout := grids[FirstGridIndex(grids, store[j].key.gridId).value].layout)
  {
    var g :| g in grids && FindRow(store, KeyOf(scope, g)) == Some(j);
    var gi :| 0 <= gi < |grids| && grids[gi] == g;
  }

  /** `r` is `store` with exactly the found rows' layouts rewritten, each from
      the first grid with its grid identifier: same length, same identifiers and
      keys, every other row as it was. */
  ghost predicate Rewrites(store: seq<GridPreference>, r: seq<GridPreference>, scope: Scope, grids: seq<Grid>) {
    && |r| == |store|
    && (forall j :: 0 <= j < |r| ==> r[j].rowId == store[j].rowId && r[j].key == store[j].key)
    && (forall j :: 0 <= j < |r| && IsFoundRow(store, scope, grids, j) ==>
          && FirstGridIndex(grids, store[j].key.gridId).Some?
          && r[j] == store[j].(layout := grids[FirstGridIndex(grids, store[j].key.gridId).value].layout))
    && (forall j :: 0 <= j < |r| && !IsFoundRow(store, scope, grids, j) ==> r[j] == store[j])
  }

  /** When some grid has a row, saving adds no row: it rewrites the layout of
      exactly the found rows, each from the first grid with its grid identifier,
      and leaves every other row, and every key, as it was. */
  lemma SaveUpdatesWhenFound(store: seq<GridPreference>, scope: Scope, grids: seq<Grid>)
    requires WellFormed(store)
    requires exists g :: g in grids && Lookup(store, KeyOf(scope, g)).Some?
    ensures Rewrites(store, SaveGridPreference(store, scope, grids, NoFault), scope, grids)
  {
    var found := FindGridPreference(store, scope, grids);
    var batch := Batch(found, scope, grids);
    UpdateBatchRows(store, scope, grids);
    SaveAllOverwrites(store, batch);
    var r := SaveGridPreference(store, scope, grids, NoFault);
    assert r == SaveAll(store, batch);
    forall j | 0 <= j < |r|
      ensures IsFoundRow(store, scope, grids, j) ==>
                && FirstGridIndex(grids, store[j].key.gridId).Some?
                && r[j] == store[j].(layout := grids[FirstGridIndex(grids, store[j].key.gridId).value].layout)
      ensures !IsFoundRow(store, scope, grids, j) ==> r[j] == store[j]
      ensures r[j].rowId == store[j].rowId && r[j].key == store[j].key
    {
      if IsFoundRow(store, scope, grids, j) {
        FoundRowHasGrid(store, scope, grids, j);
        var p := UpdateByGrid(store[j], grids);
        assert p in batch && p.rowId == Some(j);
      }
    }
  }

  // ---------------------------------------------------------------- lemmas: store invariants

  lemma {:induction false} SaveAllKeepsWellFormed(store: seq<GridPreference>, batch: seq<GridPreference>)
    requires WellFormed(store)
    ensures WellFormed(SaveAll(store, batch))
    ensures |SaveAll(store, batch)| >= |store|
    decreases |batch|
  {
    if |batch| > 0 {
      SaveAllKeepsWellFormed(SaveOne(store, batch[0]), batch[1..]);
    }
  }

  /** The first row with a key depends on the keys of the rows alone. */
  lemma {:induction false} FindRowKeysOnly(a: seq<GridPreference>, b: seq<GridPreference>, key: Key)
    requires |a| == |b|
    requires forall j :: 0 <= j < |a| ==> a[j].key == b[j].key
    ensures FindRow(a, key) == FindRow(b, key)
    decreases |a|
  {
    if |a| > 0 && a[0].key != key {
      FindRowKeysOnly(a[1..], b[1..], key);
    }
  }

  /** Two grids share their first position exactly when they share an identifier. */
  lemma FirstGridIndexAt(grids: seq<Grid>, i: nat)
    requires i < |grids|
    requires forall k :: 0 <= k < i ==> grids[k].id != grids[i].id
    ensures FirstGridIndex(grids, grids[i].id) == Some(i)
  {
  }

  /** A well-formed store whose keys are unique stays so under every save, as long
      as the grids handed in have distinct identifiers. */
  lemma SaveKeepsStoreInvariant(store: seq<GridPreference>, scope: Scope, grids: seq<Grid>, fault: Fault)
    requires WellFormed(store) && UniqueKeys(store) && DistinctIds(grids)
    ensures WellFormed(SaveGridPreference(store, scope, grids, fault))
    ensures UniqueKeys(SaveGridPreference(store, scope, grids, fault))
  {
    if fault == NoFault {
      var r := SaveGridPreference(store, scope, grids, NoFault);
      SaveAllKeepsWellFormed(store, Batch(FindGridPreference(store, scope, grids), scope, grids));
      if forall g :: g in grids ==> Lookup(store, KeyOf(scope, g)).None? {
        SaveCreatesWhenNoneFound(store, scope, grids);
        forall i, j | 0 <= i < j < |r| ensures r[i].key != r[j].key {
          if j >= |store| {
            var g := grids[j - |store|];
            assert g in grids;
            if i >= |store| {
              assert grids[i - |store|].id != g.id;
            }
          }
        }
      } else {
        SaveUpdatesWhenFound(store, scope, grids);
      }
    }
  }

  /** Duplicate grid identifiers are the one way to get two rows with one key:
      with nothing stored, two grids named "g" produce two rows for "g". */
  lemma DuplicateGridIdsDuplicateRows(scope: Scope)
    ensures var grids := [Grid("g", "a"), Grid("g", "b")];
            var r := SaveGridPreference([], scope, grids, NoFault);
            |r| == 2 && r[0].key == r[1].key && !UniqueKeys(r)
  {
    var grids := [Grid("g", "a"), Grid("g", "b")];
    assert forall g :: g in grids ==> Lookup([], KeyOf(scope, g)).None?;
    SaveCreatesWhenNoneFound([], scope, grids);
  }

  /** Saving twice with the same grids stores the same rows as saving once: the
      second save finds the rows the first one wrote and rewrites the same layouts. */
  lemma SaveIdempotent(store: seq<GridPreference>, scope: Scope, grids: seq<Grid>)
    requires WellFormed(store)
    ensures var once := SaveGridPreference(store, scope, grids, NoFault);
            SaveGridPreference(once, scope, grids, NoFault) == once
  {
    if forall g :: g in grids ==> Lookup(store, KeyOf(scope, g)).None? {
      SecondSaveAfterCreate(store, scope, grids);
    } else {
      SecondSaveAfterUpdate(store, scope, grids);
    }
  }

  lemma CreatedWellFormed(store: seq<GridPreference>, scope: Scope, grids: seq<Grid>)
    requires WellFormed(store)
    ensures WellFormed(Created(store, scope, grids))
  {
    var r := Created(store, scope, grids);
    forall j | 0 <= j < |r| ensures r[j].rowId == Some(j) {
      if j >= |store| {
        assert r[|store| + (j - |store|)].rowId == Some(j);
      }
    }
  }

  lemma SecondSaveAfterCreate(store: seq<GridPreference>, scope: Scope, grids: seq<Grid>)
    requires WellFormed(store)
    requires forall g :: g in grids ==> Lookup(store, KeyOf(scope, g)).None?
    ensures var once := SaveGridPreference(store, scope, grids, NoFault);
            SaveGridPreference(once, scope, grids, NoFault) == once
  {
    SaveCreatesWhenNoneFound(store, scope, grids);
    var once := Created(store, scope, grids);
    if |grids| == 0 {
      assert once == store;
    } else {
      CreatedWellFormed(store, scope, grids);
      assert once[|store| + 0].key == KeyOf(scope, grids[0]);
      assert grids[0] in grids;
      SaveUpdatesWhenFound(once, scope, grids);
      RewriteOfCreated(store, scope, grids, SaveGridPreference(once, scope, grids, NoFault));
    }
  }

  /** Rewriting freshly created rows gives the same rows back. */
  lemma RewriteOfCreated(store: seq<GridPreference>, scope: Scope, grids: seq<Grid>, twice: seq<GridPreference>)
    requires forall g :: g in grids ==> Lookup(store, KeyOf(scope, g)).None?
    requires Rewrites(Created(store, scope, grids), twice, scope, grids)
    ensures twice == Created(store, scope, grids)
  {
    var once := Created(store, scope, grids);
    forall j | 0 <= j < |once| ensures twice[j] == once[j] {
      if IsFoundRow(once, scope, grids, j) {
        CreatedRowIsFirst(store, scope, grids, j);
      }
    }
  }

  /** A row the creating save appended and a later lookup finds holds the layout of
      the first grid with its identifier. */
  lemma CreatedRowIsFirst(store: seq<GridPreference>, scope: Scope, grids: seq<Grid>, j: nat)
    requires forall g :: g in grids ==> Lookup(store, KeyOf(scope, g)).None?
    requires j < |Created(store, scope, grids)| && IsFoundRow(Created(store, scope, grids), scope, grids, j)
    ensures var once := Created(store, scope, grids);
            && FirstGridIndex(grids, once[j].key.gridId).Some?
            && once[j].layout == grids[FirstGridIndex(grids, once[j].key.gridId).value].layout
  {
    var once := Created(store, scope, grids);
    var g :| g in grids && FindRow(once, KeyOf(scope, g)) == Some(j);
    assert Lookup(store, KeyOf(scope, g)).None?;
    var i := j - |store|;
    assert 0 <= i < |grids|;
    forall k | 0 <= k < i ensures grids[k].id != grids[i].id {
      assert once[|store| + k].key != KeyOf(scope, g);
    }
    FirstGridIndexAt(grids, i);
  }

  /** The rows an updating save found are found again in what it wrote. */
  lemma UpdatedStoreFindsSameRows(store: seq<GridPreference>, once: seq<GridPreference>, scope: Scope, grids: seq<Grid>)
    requires |once| == |store|
    requires forall j :: 0 <= j < |once| ==> once[j].key == store[j].key
    ensures forall j: nat :: IsFoundRow(once, scope, grids, j) ==> IsFoundRow(store, scope, grids, j)
  {
    forall j: nat | IsFoundRow(once, scope, grids, j) ensures IsFoundRow(store, scope, grids, j) {
      var g :| g in grids && FindRow(once, KeyOf(scope, g)) == Some(j);
      FindRowKeysOnly(once, store, KeyOf(scope, g));
    }
  }

  /** Rewriting the rows a rewrite produced gives the same rows back. */
  lemma RewriteTwice(store: seq<GridPreference>, once: seq<GridPreference>, twice: seq<GridPreference>,
                     scope: Scope, grids: seq<Grid>)
    requires Rewrites(store, once, scope, grids) && Rewrites(once, twice, scope, grids)
    ensures twice == once
  {
    UpdatedStoreFindsSameRows(store, once, scope, grids);
    forall j | 0 <= j < |once| ensures twice[j] == once[j] {
      if IsFoundRow(once, scope, grids, j) {
        assert IsFoundRow(store, scope, grids, j);
      }
    }
  }

  lemma SecondSaveAfterUpdate(store: seq<GridPreference>, scope: Scope, grids: seq<Grid>)
    requires WellFormed(store)
    requires exists g :: g in grids && Lookup(store, KeyOf(scope, g)).Some?
    ensures var once := SaveGridPreference(store, scope, grids, NoFault);
            SaveGridPreference(once, scope, grids, NoFault) == once
  {
    var once := SaveGridPreference(store, scope, grids, NoFault);
    SaveUpdatesWhenFound(store, scope, grids);
    assert WellFormed(once);
    var g0 :| g0 in grids && Lookup(store, KeyOf(scope, g0)).Some?;
    FindRowKeysOnly(once, store, KeyOf(scope, g0));
    SaveUpdatesWhenFound(once, scope, grids);
    RewriteTwice(store, once, SaveGridPreference(once, scope, grids, NoFault), scope, grids);
  }

  // ---------------------------------------------------------------- lemmas: loading

  /** The first grid with an identifier depends on the grids' identifiers alone. */
  lemma {:induction false} FirstGridIndexIdsOnly(a: seq<Grid>, b: seq<Grid>, id: string)
    requires |a| == |b|
    requires forall j :: 0 <= j < |a| ==> a[j].id == b[j].id
    ensures FirstGridIndex(a, id) == FirstGridIndex(b, id)
    decreases |a|
  {
    if |a| > 0 && a[0].id != id {
      FirstGridIndexIdsOnly(a[1..], b[1..], id);
    }
  }

  /** Applying one preference changes a layout, never an identifier. */
  lemma ApplyOneKeepsIds(p: GridPreference, grids: seq<Grid>)
    ensures |ApplyOne(p, grids)| == |grids|
    ensures forall i :: 0 <= i < |grids| ==> ApplyOne(p, grids)[i].id == grids[i].id
    ensures forall id :: FirstGridIndex(ApplyOne(p, grids), id) == FirstGridIndex(grids, id)
  {
    forall id ensures FirstGridIndex(ApplyOne(p, grids), id) == FirstGridIndex(grids, id) {
      FirstGridIndexIdsOnly(ApplyOne(p, grids), grids, id);
    }
  }

  /** Applying found preferences, two of which agree on the layout whenever they
      agree on the grid identifier, sets the layout of the first grid with each
      preference's identifier and touches no other grid. */
  lemma {:induction false} ApplyAllSpec(found: seq<GridPreference>, grids: seq<Grid>)
    requires forall p, q :: p in found && q in found && p.key.gridId == q.key.gridId ==> p.layout == q.layout
    ensures |ApplyAll(found, grids)| == |grids|
    ensures forall i :: 0 <= i < |grids| ==> ApplyAll(found, grids)[i].id == grids[i].id
    ensures forall p :: p in found && FirstGridIndex(grids, p.key.gridId).Some? ==>
              ApplyAll(found, grids)[FirstGridIndex(grids, p.key.gridId).value].layout == p.layout
    ensures forall i :: 0 <= i < |grids| && (forall p :: p in found ==> FirstGridIndex(grids, p.key.gridId) != Some(i)) ==>
              ApplyAll(found, grids)[i] == grids[i]
    decreases |found|
  {
    if |found| > 0 {
      var first := found[0];
      var next := ApplyOne(first, grids);
      assert forall p :: p in found[1..] ==> p in found;
      ApplyAllSpec(found[1..], next);
      var r := ApplyAll(found, grids);
      assert r == ApplyAll(found[1..], next);
      ApplyOneKeepsIds(first, grids);
      forall p | p in found && FirstGridIndex(grids, p.key.gridId).Some?
        ensures r[FirstGridIndex(grids, p.key.gridId).value].layout == p.layout
      {
        var idx := FirstGridIndex(grids, p.key.gridId).value;
        if p in found[1..] {
        } else if exists q :: q in found[1..] && FirstGridIndex(next, q.key.gridId) == Some(idx) {
          var q :| q in found[1..] && FirstGridIndex(next, q.key.gridId) == Some(idx);
          assert q.key.gridId == grids[idx].id == p.key.gridId;
        } else {
          assert p == first;
        }
      }
    }
  }

  /** Loading leaves the grids' identifiers and order alone, writes the stored
      layout into the first grid with each identifier that has a stored row, and
      leaves every other grid, including later grids with a repeated identifier,
      at the layout it had. */
  lemma LoadAppliesStoredLayouts(store: seq<GridPreference>, scope: Scope, grids: seq<Grid>)
    ensures var r := LoadGridPreference(store, scope, grids, false);
            && |r| == |grids|
            && forall i :: 0 <= i < |grids| ==>
                 r[i] == (if FirstGridIndex(grids, grids[i].id) == Some(i) && Lookup(store, KeyOf(scope, grids[i])).Some?
                          then grids[i].(layout := Lookup(store, KeyOf(scope, grids[i])).value.layout)
                          else grids[i])
  {
    var found := FindGridPreference(store, scope, grids);
    forall p, q | p in found && q in found && p.key.gridId == q.key.gridId ensures p.layout == q.layout {
      var g :| g in grids && p.key == KeyOf(scope, g);
      var h :| h in grids && q.key == KeyOf(scope, h);
      assert p.key == q.key;
    }
    ApplyAllSpec(found, grids);
    var r := LoadGridPreference(store, scope, grids, false);
    forall i | 0 <= i < |grids|
      ensures r[i] == (if FirstGridIndex(grids, grids[i].id) == Some(i) && Lookup(store, KeyOf(scope, grids[i])).Some?
                       then grids[i].(layout := Lookup(store, KeyOf(scope, grids[i])).value.layout)
                       else grids[i])
    {
      assert grids[i] in grids;
      if FirstGridIndex(grids, grids[i].id) == Some(i) && Lookup(store, KeyOf(scope, grids[i])).Some? {
        var p := Lookup(store, KeyOf(scope, grids[i])).value;
        assert p in found;
      } else {
        forall p | p in found ensures FirstGridIndex(grids, p.key.gridId) != Some(i) {
          var g :| g in grids && p.key == KeyOf(scope, g);
        }
      }
    }
  }
}
