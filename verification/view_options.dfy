/**
 * The books table's column-visibility menu. The table's visibility state is an
 * array with one flag per column (in the table's column order); the menu reads
 * and writes it in place. `lockedIds` are the columns the menu never toggles.
 */
module ViewOptions {

  /** A table column as the menu sees it: its id and whether it may be hidden. */
  datatype Column = Column(id: string, canHide: bool)

  const BuiltInLocked: set<string> := {"Title", "Author", "ISBN"}

  /** `lockedIds`: the built-in locked columns and the caller's `disabledColumns`. */
  function LockedIds(disabledColumns: seq<string>): (r: set<string>)
    ensures forall id :: id in r <==> id in BuiltInLocked || id in disabledColumns
  {
    BuiltInLocked + set id | id in disabledColumns
  }

  /** Toggle-all changes exactly the hideable columns that are not locked. */
  predicate Toggleable(c: Column, locked: set<string>) {
    c.canHide && c.id !in locked
  }

  /** A column's checkbox is disabled when it is locked or cannot be hidden. */
  predicate IsDisabled(c: Column, locked: set<string>) {
    c.id in locked || !c.canHide
  }

  /** The `every` check behind `allChecked`: each column is visible or cannot be hidden. */
  predicate AllVisibleOrFixed(columns: seq<Column>, visible: seq<bool>)
    requires |columns| == |visible|
  {
    forall i :: 0 <= i < |columns| ==> visible[i] || !columns[i].canHide
  }

  /** The visibility after toggle-all to `v`. */
  function ToggledAll(columns: seq<Column>, locked: set<string>, visible: seq<bool>, v: bool): (r: seq<bool>)
    requires |columns| == |visible|
    ensures |r| == |visible|
  {
    seq(|visible|, i requires 0 <= i < |visible| => if Toggleable(columns[i], locked) then v else visible[i])
  }

  /** The visibility after the override effect applies `overrides`. */
  function Overridden(columns: seq<Column>, overrides: map<string, bool>, visible: seq<bool>): (r: seq<bool>)
    requires |columns| == |visible|
    ensures |r| == |visible|
  {
    seq(|visible|, i requires 0 <= i < |visible| =>
      if columns[i].id in overrides then overrides[columns[i].id] else visible[i])
  }

  /** `columnVisibility[column.id] ?? column.getIsVisible()`. */
  function Displayed(c: Column, overrides: map<string, bool>, isVisible: bool): (r: bool)
    ensures c.id !in overrides ==> r == isVisible
    ensures c.id in overrides ==> r == overrides[c.id]
  {
    if c.id in overrides then overrides[c.id] else isVisible
  }

  /** The columns the menu lists: all but the `select` column, in order. */
  function ListedColumns(columns: seq<Column>): (r: seq<Column>)
    ensures |r| <= |columns|
    ensures forall c :: c in r <==> c in columns && c.id != "select"
  {
    if columns == [] then []
    else if columns[0].id == "select" then ListedColumns(columns[1..])
    else [columns[0]] + ListedColumns(columns[1..])
  }

  class ViewOptionsMenu {
    const columns: seq<Column>
    const lockedIds: set<string>
    /** The table's visibility state, shared with the table. */
    const visible: array<bool>
    var allChecked: bool
    /** The `columnVisibility` prop. */
    var columnVisibility: map<string, bool>

    ghost predicate Valid()
    {
      visible.Length == |columns|
    }

    /** The first render: `allChecked` starts from the table's visibility as it is. */
    constructor (columns: seq<Column>, visible: array<bool>, disabledColumns: seq<string>,
                 columnVisibility: map<string, bool>)
      requires visible.Length == |columns|
      ensures Valid()
      ensures this.columns == columns && this.visible == visible
      ensures lockedIds == LockedIds(disabledColumns)
      ensures this.columnVisibility == columnVisibility
      ensures allChecked == AllVisibleOrFixed(columns, visible[..])
    {
      this.columns := columns;
      this.visible := visible;
      this.lockedIds := LockedIds(disabledColumns);
      this.columnVisibility := columnVisibility;
      this.allChecked := AllVisibleOrFixed(columns, visible[..]);
    }

    /** A new `columnVisibility` prop. */
    method SetColumnVisibility(m: map<string, bool>)
      modifies this`columnVisibility
      ensures columnVisibility == m
    {
      columnVisibility := m;
    }

    /** The override effect: every column with an entry in the prop takes that value. */
    method ApplyOverrides()
      requires Valid()
      modifies visible
      ensures visible[..] == Overridden(columns, columnVisibility, old(visible[..]))
    {
      var i := 0;
      while i < visible.Length
        invariant 0 <= i <= visible.Length
        invariant forall k :: 0 <= k < i ==>
          visible[k] == if columns[k].id in columnVisibility then columnVisibility[columns[k].id] else old(visible[k])
        invariant forall k :: i <= k < visible.Length ==> visible[k] == old(visible[k])
      {
        if columns[i].id in columnVisibility {
          visible[i] := columnVisibility[columns[i].id];
        }
        i := i + 1;
      }
    }

    /** The synchronising effect: `allChecked` follows the table's visibility. */
    method SyncAllChecked()
      requires Valid()
      modifies this`allChecked
      ensures allChecked == AllVisibleOrFixed(columns, visible[..])
    {
      var next := AllVisibleOrFixed(columns, visible[..]);
      if next != allChecked {
        allChecked := next;
      }
    }

    /** `handleToggleAll`: negate `allChecked` and give every toggleable column the new value. */
    method HandleToggleAll()
      requires Valid()
      modifies this`allChecked, visible
      ensures allChecked == !old(allChecked)
      ensures visible[..] == ToggledAll(columns, lockedIds, old(visible[..]), allChecked)
    {
      var newCheckedState := !allChecked;
      allChecked := newCheckedState;
      var i := 0;
      while i < visible.Length
        invariant 0 <= i <= visible.Length
        invariant allChecked == newCheckedState
        invariant forall k :: 0 <= k < i ==>
          visible[k] == if Toggleable(columns[k], lockedIds) then newCheckedState else old(visible[k])
        invariant forall k :: i <= k < visible.Length ==> visible[k] == old(visible[k])
      {
        if columns[i].canHide && columns[i].id !in lockedIds {
          visible[i] := newCheckedState;
        }
        i := i + 1;
      }
    }

    /** One column's checkbox, which fires only when it is listed and enabled. */
    method ToggleColumn(i: nat, checked: bool)
      requires Valid() && i < |columns|
      requires columns[i].id != "select" && !IsDisabled(columns[i], lockedIds)
      modifies visible
      ensures visible[..] == old(visible[..])[i := checked]
    {
      visible[i] := checked;
    }
  }

  /** A checkbox is disabled exactly for the columns toggle-all leaves alone. */
  lemma DisabledIffNotToggleable(c: Column, locked: set<string>)
    ensures IsDisabled(c, locked) <==> !Toggleable(c, locked)
  {
  }

  /** Toggle-all never changes a locked or unhideable column, and sets every other one. */
  lemma ToggleAllKeepsDisabled(columns: seq<Column>, locked: set<string>, visible: seq<bool>, v: bool, i: nat)
    requires |columns| == |visible| && i < |columns|
    ensures IsDisabled(columns[i], locked) ==> ToggledAll(columns, locked, visible, v)[i] == visible[i]
    ensures !IsDisabled(columns[i], locked) ==> ToggledAll(columns, locked, visible, v)[i] == v
  {
  }

  /** Toggling all twice to the same value is toggling once. */
  lemma ToggleAllIdempotent(columns: seq<Column>, locked: set<string>, visible: seq<bool>, v: bool)
    requires |columns| == |visible|
    ensures ToggledAll(columns, locked, ToggledAll(columns, locked, visible, v), v)
         == ToggledAll(columns, locked, visible, v)
  {
  }

  /** After "select all", the synchronising effect keeps `allChecked` true exactly
      when no locked column that could be hidden is hidden. */
  lemma SelectAllThenSync(columns: seq<Column>, locked: set<string>, visible: seq<bool>)
    requires |columns| == |visible|
    ensures AllVisibleOrFixed(columns, ToggledAll(columns, locked, visible, true)) <==>
      forall i :: 0 <= i < |columns| && columns[i].canHide && columns[i].id in locked ==> visible[i]
  {
    var r := ToggledAll(columns, locked, visible, true);
    if !forall i :: 0 <= i < |columns| && columns[i].canHide && columns[i].id in locked ==> visible[i] {
      var i :| 0 <= i < |columns| && columns[i].canHide && columns[i].id in locked && !visible[i];
      assert !r[i];
    }
  }

  /** After "deselect all", the synchronising effect keeps `allChecked` false as
      soon as one column is toggleable (with none, see `ToggleAllWithoutToggleable`). */
  lemma DeselectAllThenSync(columns: seq<Column>, locked: set<string>, visible: seq<bool>, i: nat)
    requires |columns| == |visible| && i < |columns|
    requires Toggleable(columns[i], locked)
    ensures !AllVisibleOrFixed(columns, ToggledAll(columns, locked, visible, false))
  {
    var r := ToggledAll(columns, locked, visible, false);
    assert !r[i] && columns[i].canHide;
  }

  /** With no toggleable column, toggle-all changes nothing, so the synchronising
      effect sets `allChecked` back to what the visibility already says. */
  lemma ToggleAllWithoutToggleable(columns: seq<Column>, locked: set<string>, visible: seq<bool>, v: bool)
    requires |columns| == |visible|
    requires forall i :: 0 <= i < |columns| ==> !Toggleable(columns[i], locked)
    ensures ToggledAll(columns, locked, visible, v) == visible
    ensures AllVisibleOrFixed(columns, ToggledAll(columns, locked, visible, v)) == AllVisibleOrFixed(columns, visible)
  {
    var r := ToggledAll(columns, locked, visible, v);
    assert forall i :: 0 <= i < |r| ==> r[i] == visible[i];
  }

  /** The override effect changes only the columns with an entry, and afterwards
      each listed checkbox shows the column's actual visibility. */
  lemma OverridesChangeOnlyListed(columns: seq<Column>, overrides: map<string, bool>, visible: seq<bool>, i: nat)
    requires |columns| == |visible| && i < |columns|
    ensures columns[i].id !in overrides ==> Overridden(columns, overrides, visible)[i] == visible[i]
    ensures columns[i].id in overrides ==> Overridden(columns, overrides, visible)[i] == overrides[columns[i].id]
    ensures Displayed(columns[i], overrides, Overridden(columns, overrides, visible)[i])
         == Overridden(columns, overrides, visible)[i]
  {
  }

  /** Applying the same overrides twice is applying them once. */
  lemma OverridesIdempotent(columns: seq<Column>, overrides: map<string, bool>, visible: seq<bool>)
    requires |columns| == |visible|
    ensures Overridden(columns, overrides, Overridden(columns, overrides, visible))
         == Overridden(columns, overrides, visible)
  {
  }

  /** The menu keeps the table's order: listing a concatenation lists each part in turn. */
  lemma {:induction false} ListedColumnsAppend(a: seq<Column>, b: seq<Column>)
    ensures ListedColumns(a + b) == ListedColumns(a) + ListedColumns(b)
  {
    if a == [] {
      assert a + b == b;
    } else {
      assert (a + b)[1..] == a[1..] + b;
      ListedColumnsAppend(a[1..], b);
    }
  }

  /** With no `select` column, every column is listed, in order. */
  lemma {:induction false} ListedWithoutSelect(columns: seq<Column>)
    requires forall i :: 0 <= i < |columns| ==> columns[i].id != "select"
    ensures ListedColumns(columns) == columns
  {
    if columns != [] {
      ListedWithoutSelect(columns[1..]);
    }
  }
}
