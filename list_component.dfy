/**
 * The selection and sort bookkeeping behind the `List` component.
 *
 * The selection is a finite map from an item's key (the caller's
 * `selectedKeyMapper`) to the item. The component changes it in place through
 * four operations (add, remove, clear, replace); the per-item toggle, the
 * select-all button, the prune effect and a new `selected` prop are built from
 * them. The sort state is a property and a direction, and a guard decides
 * whether the caller's `onSort` hears about it.
 *
 * Each state-changing method of class `List` is proved against a function of
 * the old state (`Toggled`, `SelectAllResult`, `Pruned`, `SelectionOf`); the
 * lemmas at the end of the module state what those functions promise.
 */
module ListComponent {
  import opened Wrappers

  /** The `select` prop: 'checkbox', 'switch', 'radio' or '' (no selection control). */
  datatype SelectMode = Checkbox | Switch | Radio | NoSelect

  /** Checkbox and switch lists keep a set of items; radio and plain lists behave like radio buttons. */
  predicate IsMultiSelect(mode: SelectMode) {
    mode == Checkbox || mode == Switch
  }

  // ---------------------------------------------------------------------------
  // Keys of an item collection

  /** The keys `items.map(selectedKeyMapper)` lists, as a set. */
  function KeysOf<T, K(==)>(keyOf: T -> K, items: seq<T>): (ks: set<K>)
    ensures forall i :: 0 <= i < |items| ==> keyOf(items[i]) in ks
    ensures forall k :: k in ks ==> exists i :: 0 <= i < |items| && keyOf(items[i]) == k
    decreases |items|
  {
    if |items| == 0 then {}
    else KeysOf(keyOf, items[..|items| - 1]) + {keyOf(items[|items| - 1])}
  }

  /** No two items share a key (the caller's side of the `selectedKeyMapper` contract). */
  predicate UniqueKeys<T, K(==)>(keyOf: T -> K, items: seq<T>) {
    forall i, j :: 0 <= i < j < |items| ==> keyOf(items[i]) != keyOf(items[j])
  }

  /** Every entry of a selection is filed under its own item's key. */
  ghost predicate KeyedBy<T, K>(keyOf: T -> K, sel: map<K, T>) {
    forall k :: k in sel ==> keyOf(sel[k]) == k
  }

  // ---------------------------------------------------------------------------
  // The selection operations, as functions of the old selection

  /**
   * The selection `replace(items)` builds (and `useMap(selected, …)` starts from):
   * each item filed under its key. Of two items with one key, the later one is kept.
   */
  function SelectionOf<T, K(==)>(keyOf: T -> K, items: seq<T>): (m: map<K, T>)
    ensures m.Keys == KeysOf(keyOf, items)
    ensures KeyedBy(keyOf, m)
    ensures forall k :: k in m ==> m[k] in items
    decreases |items|
  {
    if |items| == 0 then map[]
    else SelectionOf(keyOf, items[..|items| - 1])[keyOf(items[|items| - 1]) := items[|items| - 1]]
  }

  /**
   * `add(item)`: the item's key is selected afterwards and no other entry changes.
   * What an add does to an entry already filed under that key is not claimed.
   */
  function Added<T, K(==)>(keyOf: T -> K, sel: map<K, T>, item: T): (r: map<K, T>)
    ensures r.Keys == sel.Keys + {keyOf(item)}
    ensures forall k :: k in sel && k != keyOf(item) ==> r[k] == sel[k]
    ensures keyOf(item) !in sel ==> r[keyOf(item)] == item
    ensures KeyedBy(keyOf, sel) ==> KeyedBy(keyOf, r)
  {
    if keyOf(item) in sel then sel else sel[keyOf(item) := item]
  }

  /**
   * `handleSelection(item, checked)`. A checkbox or switch list adds the item
   * when `checked` and removes it otherwise, touching no other key. Any other
   * list selects a not-yet-selected item by clearing the selection and adding
   * it, and ignores a click on an item that is already selected.
   */
  function Toggled<T, K(==)>(keyOf: T -> K, mode: SelectMode, sel: map<K, T>, item: T, checked: bool): (r: map<K, T>)
    ensures IsMultiSelect(mode) && checked ==> r.Keys == sel.Keys + {keyOf(item)}
    ensures IsMultiSelect(mode) && !checked ==> r.Keys == sel.Keys - {keyOf(item)}
    ensures IsMultiSelect(mode) ==> forall k :: k in r && k != keyOf(item) ==> r[k] == sel[k]
    ensures !IsMultiSelect(mode) && keyOf(item) !in sel ==> r == map[keyOf(item) := item]
    ensures !IsMultiSelect(mode) && keyOf(item) in sel ==> r == sel
    ensures !IsMultiSelect(mode) ==> keyOf(item) in r && (|sel| <= 1 ==> |r| <= 1)
    ensures KeyedBy(keyOf, sel) ==> KeyedBy(keyOf, r)
  {
    var k := keyOf(item);
    if IsMultiSelect(mode) then
      if k in sel && !checked then sel - {k}
      else if checked then Added(keyOf, sel, item)
      else sel
    else if k !in sel then Added(keyOf, map[], item)
    else sel
  }

  /**
   * `handleSelectAll()`: when the selection is as large as `items` it is
   * emptied; otherwise it becomes exactly `items`.
   */
  function SelectAllResult<T, K(==)>(keyOf: T -> K, sel: map<K, T>, items: seq<T>): (r: map<K, T>)
    ensures |sel| == |items| ==> r == map[]
    ensures |sel| != |items| ==> r == SelectionOf(keyOf, items)
    ensures |sel| != |items| ==> r.Keys == KeysOf(keyOf, items) && KeyedBy(keyOf, r)
    ensures |sel| != |items| ==> forall k :: k in r ==> r[k] in items
  {
    if |sel| == |items| then map[] else SelectionOf(keyOf, items)
  }

  /**
   * The prune effect: every entry whose item's key no longer occurs among
   * `items` is removed, and every other entry is kept as it was.
   */
  function Pruned<T, K(==)>(keyOf: T -> K, sel: map<K, T>, items: seq<T>): (r: map<K, T>)
    ensures forall k :: k in sel ==> (k in r <==> exists i :: 0 <= i < |items| && keyOf(items[i]) == keyOf(sel[k]))
    ensures forall k :: k in r ==> k in sel && r[k] == sel[k]
    ensures KeyedBy(keyOf, sel) ==> KeyedBy(keyOf, r) && r.Keys <= KeysOf(keyOf, items)
  {
    var present := KeysOf(keyOf, items);
    map k | k in sel && keyOf(sel[k]) in present :: sel[k]
  }

  // ---------------------------------------------------------------------------
  // The select-all checkbox and the header

  /** The select-all box is checked: there are items and the selection is as large as `items`. */
  function Checked<T, K>(items: seq<T>, sel: map<K, T>): (r: bool)
    ensures r ==> !Disabled(items)
  {
    |items| > 0 && |sel| == |items|
  }

  /** The select-all box is disabled: there are no items. */
  function Disabled<T>(items: seq<T>): (r: bool)
    ensures r <==> items == []
  {
    |items| == 0
  }

  /** The select-all box shows its third state: items exist, some are selected, and not as many as there are items. */
  function Indeterminate<T, K>(items: seq<T>, sel: map<K, T>): (r: bool)
    ensures r ==> !Checked(items, sel) && !Disabled(items) && sel != map[]
  {
    |items| > 0 && |sel| > 0 && |sel| != |items|
  }

  /**
   * The header is shown when a header is given, the list is a checkbox or
   * switch list (so the select-all box, which sits in the header, is always
   * reachable), a filter handler is given, or a sort handler is given.
   */
  function ShowHeader(headerGiven: bool, mode: SelectMode, onFilterGiven: bool, onSortGiven: bool): (r: bool)
    ensures IsMultiSelect(mode) ==> r
    ensures headerGiven || onFilterGiven || onSortGiven ==> r
    ensures !headerGiven && !onFilterGiven && !onSortGiven ==> (r <==> IsMultiSelect(mode))
  {
    headerGiven || mode == Checkbox || mode == Switch || onFilterGiven || onSortGiven
  }

  // ---------------------------------------------------------------------------
  // Sort state

  /** A sort property: one field name, or a tie-break chain of names. Compared by value. */
  datatype SortProperty = Property(name: string) | Properties(names: seq<string>)

  /** The `sort` prop; either part may be undefined. */
  datatype Sort = Sort(property: Option<SortProperty>, ascending: Option<bool>)

  /** What `onSort` receives. */
  datatype SortRequest = SortRequest(property: Option<SortProperty>, ascending: bool)

  /** The direction the sort prop implies: ascending unless it says otherwise. */
  function AscendingInitial(sort: Sort): (a: bool)
    ensures sort.ascending.None? ==> a
    ensures sort.ascending.Some? ==> a == sort.ascending.value
  {
    sort.ascending.GetOr(true)
  }

  /**
   * The sort effect: `onSort` is called, with the current property and
   * direction, only when it is given and the state differs from the sort prop.
   * In particular a state that agrees with the prop (as on mount) is not reported.
   */
  function SortNotification(onSortGiven: bool, property: Option<SortProperty>, ascending: bool, sort: Sort): (r: Option<SortRequest>)
    ensures r.Some? ==> onSortGiven && r.value == SortRequest(property, ascending)
    ensures property == sort.property && ascending == AscendingInitial(sort) ==> r.None?
    ensures onSortGiven && (property != sort.property || ascending != AscendingInitial(sort)) ==> r.Some?
  {
    if !onSortGiven then None
    else if ascending != AscendingInitial(sort) || property != sort.property then Some(SortRequest(property, ascending))
    else None
  }

  // ---------------------------------------------------------------------------
  // The component's state

  class List<T, K(==)> {
    /** `selectedKeyMapper` */
    const keyOf: T -> K
    /** `select` */
    const mode: SelectMode
    /** The `useMap` selection: key to item. */
    var selection: map<K, T>
    /** The `useState` sort property and direction. */
    var sortProperty: Option<SortProperty>
    var ascending: bool

    ghost predicate Valid()
      reads this
    {
      KeyedBy(keyOf, selection)
    }

    /** Mounting: the selection is seeded from `selected`, the sort state from `sort`. */
    constructor (keyOf: T -> K, mode: SelectMode, selected: seq<T>, sort: Sort)
      ensures Valid() && this.keyOf == keyOf && this.mode == mode
      ensures selection == SelectionOf(keyOf, selected)
      ensures sortProperty == sort.property && ascending == AscendingInitial(sort)
      ensures SortNotification(true, sortProperty, ascending, sort).None?
    {
      this.keyOf := keyOf;
      this.mode := mode;
      selection := SelectionOf(keyOf, selected);
      sortProperty := sort.property;
      ascending := AscendingInitial(sort);
    }

    /** `has(item)`: some selected item has the same key as `item`. */
    predicate Has(item: T)
      reads this
      ensures Valid() ==> (Has(item) <==> exists k :: k in selection && keyOf(selection[k]) == keyOf(item))
    {
      keyOf(item) in selection
    }

    /** `add(item)` */
    method Add(item: T)
      requires Valid()
      modifies this`selection
      ensures Valid()
      ensures selection == Added(keyOf, old(selection), item)
    {
      if keyOf(item) !in selection {
        selection := selection[keyOf(item) := item];
      }
    }

    /** `remove(item)`: removes the item's key, if present. */
    method Remove(item: T)
      requires Valid()
      modifies this`selection
      ensures Valid()
      ensures selection == old(selection) - {keyOf(item)}
    {
      selection := selection - {keyOf(item)};
    }

    /** `clear()` */
    method Clear()
      modifies this`selection
      ensures Valid()
      ensures selection == map[]
    {
      selection := map[];
    }

    /** `replace(items)` */
    method Replace(items: seq<T>)
      modifies this`selection
      ensures Valid()
      ensures selection == SelectionOf(keyOf, items)
    {
      selection := SelectionOf(keyOf, items);
    }

    /** `handleSelection(item, checked)`; an undefined `checked` is false. */
    method HandleSelection(item: T, checked: bool)
      requires Valid()
      modifies this`selection
      ensures Valid()
      ensures selection == Toggled(keyOf, mode, old(selection), item, checked)
    {
      if mode == Checkbox || mode == Switch {
        if Has(item) && !checked {
          Remove(item);
        } else if checked {
          Add(item);
        }
      } else if !Has(item) {
        Clear();
        Add(item);
      }
    }

    /** `handleSelectAll()` */
    method HandleSelectAll(items: seq<T>)
      modifies this`selection
      ensures Valid()
      ensures selection == SelectAllResult(keyOf, old(selection), items)
    {
      if |selection| == |items| {
        Replace([]);
      } else {
        Replace(items);
      }
    }

    /** A new `selected` prop replaces the selection wholesale. */
    method ReceiveSelected(selected: seq<T>)
      modifies this`selection
      ensures Valid()
      ensures selection == SelectionOf(keyOf, selected)
    {
      Replace(selected);
    }

    /** The prune effect: walks the selection and removes each entry whose key is not among `items`. */
    method Prune(items: seq<T>)
      requires Valid()
      modifies this`selection
      ensures Valid()
      ensures selection == Pruned(keyOf, old(selection), items)
    {
      var present := KeysOf(keyOf, items);
      ghost var start := selection;
      var pending := selection.Keys;
      while pending != {}
        invariant Valid()
        invariant pending <= start.Keys
        invariant selection == map k | k in start && (k in pending || keyOf(start[k]) in present) :: start[k]
        decreases pending
      {
        var k :| k in pending;
        var item := selection[k];
        if keyOf(item) !in present {
          Remove(item);
        }
        pending := pending - {k};
      }
    }

    /** The sort header's property setter. */
    method SetSortProperty(property: Option<SortProperty>)
      modifies this`sortProperty
      ensures sortProperty == property
    {
      sortProperty := property;
    }

    /** The sort header's direction setter. */
    method SetAscending(ascending: bool)
      modifies this`ascending
      ensures this.ascending == ascending
    {
      this.ascending := ascending;
    }
  }

  // ---------------------------------------------------------------------------
  // Properties of the selection functions

  /** A set that sits inside another is no larger, and is the same set when it is as large. */
  lemma SubsetSize<K>(a: set<K>, b: set<K>)
    requires a <= b
    ensures |a| <= |b|
    ensures |a| == |b| ==> a == b
  {
    assert b == a + (b - a);
    assert |b| == |a| + |b - a|;
    if |a| == |b| {
      assert b - a == {};
    }
  }

  /** There are never more distinct keys than items, and exactly as many when keys are unique. */
  lemma {:induction false} KeysOfSize<T, K>(keyOf: T -> K, items: seq<T>)
    ensures |KeysOf(keyOf, items)| <= |items|
    ensures UniqueKeys(keyOf, items) ==> |KeysOf(keyOf, items)| == |items|
    decreases |items|
  {
    if |items| > 0 {
      var init := items[..|items| - 1];
      var last := keyOf(items[|items| - 1]);
      KeysOfSize(keyOf, init);
      assert KeysOf(keyOf, items) == KeysOf(keyOf, init) + {last};
      if UniqueKeys(keyOf, items) {
        assert UniqueKeys(keyOf, init) by {
          forall i, j | 0 <= i < j < |init| ensures keyOf(init[i]) != keyOf(init[j]) {
            assert init[i] == items[i] && init[j] == items[j];
          }
        }
      }
    }
  }

  /** With unique keys, `replace(items)` files every item under its own key. */
  lemma {:induction false} SelectionOfUnique<T, K>(keyOf: T -> K, items: seq<T>)
    requires UniqueKeys(keyOf, items)
    ensures |SelectionOf(keyOf, items)| == |items|
    ensures forall i :: 0 <= i < |items| ==> SelectionOf(keyOf, items)[keyOf(items[i])] == items[i]
    decreases |items|
  {
    KeysOfSize(keyOf, items);
    if |items| > 0 {
      var init := items[..|items| - 1];
      assert UniqueKeys(keyOf, init) by {
        forall i, j | 0 <= i < j < |init| ensures keyOf(init[i]) != keyOf(init[j]) {
          assert init[i] == items[i] && init[j] == items[j];
        }
      }
      SelectionOfUnique(keyOf, init);
      forall i | 0 <= i < |items| ensures SelectionOf(keyOf, items)[keyOf(items[i])] == items[i] {
        if i < |items| - 1 {
          assert init[i] == items[i];
        }
      }
    }
  }

  /**
   * Once every selected key occurs among `items` (as after the prune effect),
   * the select-all box is indeterminate exactly when some but not all items are selected.
   */
  lemma IndeterminateWhenReconciled<T, K>(keyOf: T -> K, sel: map<K, T>, items: seq<T>)
    requires sel.Keys <= KeysOf(keyOf, items)
    ensures Indeterminate(items, sel) <==> 0 < |sel| < |items|
  {
    KeysOfSize(keyOf, items);
    SubsetSize(sel.Keys, KeysOf(keyOf, items));
  }

  /**
   * Once every selected key occurs among `items` and keys are unique, the
   * select-all box is checked exactly when every item is selected.
   */
  lemma CheckedWhenReconciled<T, K>(keyOf: T -> K, sel: map<K, T>, items: seq<T>)
    requires sel.Keys <= KeysOf(keyOf, items)
    requires UniqueKeys(keyOf, items)
    ensures Checked(items, sel) <==> items != [] && sel.Keys == KeysOf(keyOf, items)
  {
    KeysOfSize(keyOf, items);
    SubsetSize(sel.Keys, KeysOf(keyOf, items));
  }

  /** The prune effect leaves no dangling entry and keeps the select-all display consistent. */
  lemma PrunedIsReconciled<T, K>(keyOf: T -> K, sel: map<K, T>, items: seq<T>)
    requires KeyedBy(keyOf, sel)
    ensures var r := Pruned(keyOf, sel, items);
      (forall k :: k in r ==> exists i :: 0 <= i < |items| && keyOf(items[i]) == k) &&
      (Indeterminate(items, r) <==> 0 < |r| < |items|)
  {
    IndeterminateWhenReconciled(keyOf, Pruned(keyOf, sel, items), items);
  }

  /** With unique keys and at least one item, pressing select-all flips the checked state of the box. */
  lemma SelectAllFlipsChecked<T, K>(keyOf: T -> K, sel: map<K, T>, items: seq<T>)
    requires UniqueKeys(keyOf, items) && items != []
    ensures Checked(items, SelectAllResult(keyOf, sel, items)) <==> !Checked(items, sel)
  {
    SelectionOfUnique(keyOf, items);
  }

  /**
   * With unique keys and at least one item, pressing select-all twice gives
   * the full selection if it was full and the empty selection otherwise; so
   * from the empty selection it comes back to the empty selection, but a
   * partial selection is not restored.
   */
  lemma SelectAllTwice<T, K>(keyOf: T -> K, sel: map<K, T>, items: seq<T>)
    requires UniqueKeys(keyOf, items) && items != []
    ensures SelectAllResult(keyOf, SelectAllResult(keyOf, sel, items), items)
         == if |sel| == |items| then SelectionOf(keyOf, items) else map[]
  {
    SelectionOfUnique(keyOf, items);
  }

  /** Toggling the same item twice with the same `checked` does what toggling it once does, in every mode. */
  lemma ToggleIdempotent<T, K>(keyOf: T -> K, mode: SelectMode, sel: map<K, T>, item: T, checked: bool)
    ensures var once := Toggled(keyOf, mode, sel, item, checked);
      Toggled(keyOf, mode, once, item, checked) == once
  {
  }

  /** In a checkbox or switch list a toggle is an add when `checked` and a removal otherwise. */
  lemma MultiToggleIsAddOrRemove<T, K>(keyOf: T -> K, mode: SelectMode, sel: map<K, T>, item: T, checked: bool)
    requires IsMultiSelect(mode)
    ensures Toggled(keyOf, mode, sel, item, checked)
         == if checked then Added(keyOf, sel, item) else sel - {keyOf(item)}
  {
    if !checked && keyOf(item) !in sel {
      assert sel - {keyOf(item)} == sel;
    }
  }

  /** Adds of items with different keys commute. */
  lemma AddsCommute<T, K>(keyOf: T -> K, sel: map<K, T>, a: T, b: T)
    requires keyOf(a) != keyOf(b)
    ensures Added(keyOf, Added(keyOf, sel, a), b) == Added(keyOf, Added(keyOf, sel, b), a)
  {
    var ab := Added(keyOf, Added(keyOf, sel, a), b);
    var ba := Added(keyOf, Added(keyOf, sel, b), a);
    assert ab.Keys == ba.Keys;
    forall k | k in ab ensures ab[k] == ba[k] {
    }
  }

  /** An add and a removal of a different key commute. */
  lemma AddRemoveCommute<T, K>(keyOf: T -> K, sel: map<K, T>, a: T, b: T)
    requires keyOf(a) != keyOf(b)
    ensures Added(keyOf, sel - {keyOf(a)}, b) == Added(keyOf, sel, b) - {keyOf(a)}
  {
    var l := Added(keyOf, sel - {keyOf(a)}, b);
    var r := Added(keyOf, sel, b) - {keyOf(a)};
    assert l.Keys == r.Keys;
    forall k | k in l ensures l[k] == r[k] {
    }
  }

  /** In a checkbox or switch list, toggles of items with different keys commute. */
  lemma MultiTogglesCommute<T, K>(keyOf: T -> K, mode: SelectMode, sel: map<K, T>, a: T, ca: bool, b: T, cb: bool)
    requires IsMultiSelect(mode) && keyOf(a) != keyOf(b)
    ensures Toggled(keyOf, mode, Toggled(keyOf, mode, sel, a, ca), b, cb)
         == Toggled(keyOf, mode, Toggled(keyOf, mode, sel, b, cb), a, ca)
  {
    var sa := Toggled(keyOf, mode, sel, a, ca);
    var sb := Toggled(keyOf, mode, sel, b, cb);
    MultiToggleIsAddOrRemove(keyOf, mode, sel, a, ca);
    MultiToggleIsAddOrRemove(keyOf, mode, sel, b, cb);
    MultiToggleIsAddOrRemove(keyOf, mode, sa, b, cb);
    MultiToggleIsAddOrRemove(keyOf, mode, sb, a, ca);
    if ca && cb {
      AddsCommute(keyOf, sel, a, b);
    } else if ca {
      AddRemoveCommute(keyOf, sel, b, a);
    } else if cb {
      AddRemoveCommute(keyOf, sel, a, b);
    } else {
      assert sel - {keyOf(a)} - {keyOf(b)} == sel - {keyOf(b)} - {keyOf(a)};
    }
  }
}
