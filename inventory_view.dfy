/**
 * The derived data of the inventory view (frontend/webapp/src/components/views/Inventory.tsx):
 * the supplier list for the selector and the text, category and supplier filter chain.
 */
module InventoryView {
  import opened Common
  import opened Text
  import opened Seqs

  /** The fields of a front-end inventory item that the derived data reads. */
  datatype Item = Item(
    lotNumber: string,
    name: string,
    category: string,
    quantityAvailable: real,
    unit: string,
    supplier: Option<string>)

  /** A supplier value is truthy when present and non-empty (`.filter(Boolean)`). */
  predicate Truthy(s: Option<string>) { s.Some? && s.value != "" }

  /** `items.map(i => i.supplier)`. */
  function SupplierColumn(items: seq<Item>): (r: seq<Option<string>>)
    ensures |r| == |items|
    ensures forall i :: 0 <= i < |items| ==> r[i] == items[i].supplier
  {
    seq(|items|, i requires 0 <= i < |items| => items[i].supplier)
  }

  /**
   * `Array.from(new Set(items.map(i => i.supplier).filter(Boolean)))`: the truthy suppliers,
   * each once, in order of first occurrence. `seen` holds those already emitted.
   */
  function SuppliersFrom(items: seq<Item>, seen: set<string>): (r: seq<string>)
    ensures |r| <= |items|
  {
    if items == [] then []
    else
      var sup := items[0].supplier;
      if Truthy(sup) && sup.value !in seen then [sup.value] + SuppliersFrom(items[1..], seen + {sup.value})
      else SuppliersFrom(items[1..], seen)
  }

  /** Every emitted supplier is non-empty and new, and none is emitted twice. */
  lemma {:induction false} SuppliersFromFresh(items: seq<Item>, seen: set<string>)
    ensures forall k :: 0 <= k < |SuppliersFrom(items, seen)| ==> SuppliersFrom(items, seen)[k] != ""
    ensures forall k :: 0 <= k < |SuppliersFrom(items, seen)| ==> SuppliersFrom(items, seen)[k] !in seen
    ensures forall k, l :: 0 <= k < l < |SuppliersFrom(items, seen)| ==> SuppliersFrom(items, seen)[k] != SuppliersFrom(items, seen)[l]
  {
    if items != [] {
      var sup := items[0].supplier;
      if Truthy(sup) && sup.value !in seen {
        var r' := SuppliersFrom(items[1..], seen + {sup.value});
        SuppliersFromFresh(items[1..], seen + {sup.value});
        assert SuppliersFrom(items, seen) == [sup.value] + r';
        assert forall k :: 0 <= k < |r'| ==> r'[k] != sup.value;
      } else {
        SuppliersFromFresh(items[1..], seen);
        assert SuppliersFrom(items, seen) == SuppliersFrom(items[1..], seen);
      }
    }
  }

  lemma {:induction false} SuppliersFromMembers(items: seq<Item>, seen: set<string>, x: string)
    ensures x in SuppliersFrom(items, seen) <==> x !in seen && x != "" && Some(x) in SupplierColumn(items)
  {
    if items != [] {
      var sup := items[0].supplier;
      assert SupplierColumn(items) == [sup] + SupplierColumn(items[1..]);
      if Truthy(sup) && sup.value !in seen {
        SuppliersFromMembers(items[1..], seen + {sup.value}, x);
      } else {
        SuppliersFromMembers(items[1..], seen, x);
      }
    }
  }

  /** The selector's supplier list. */
  function Suppliers(items: seq<Item>): seq<string> {
    SuppliersFrom(items, {})
  }

  /** The position of the first item whose supplier is `x`, or `|items|` when there is none. */
  function FirstWithSupplier(items: seq<Item>, x: string): (i: nat)
    ensures i <= |items|
    ensures i < |items| ==> items[i].supplier == Some(x)
  {
    if items == [] then 0
    else if items[0].supplier == Some(x) then 0
    else 1 + FirstWithSupplier(items[1..], x)
  }

  /** The supplier list has no duplicates and no empty entries, and holds exactly the truthy suppliers of the items. */
  lemma SuppliersDistinct(items: seq<Item>)
    ensures var r := Suppliers(items);
      && (forall k :: 0 <= k < |r| ==> r[k] != "")
      && (forall k, l :: 0 <= k < l < |r| ==> r[k] != r[l])
      && (forall x :: x in r <==> x != "" && Some(x) in SupplierColumn(items))
  {
    SuppliersFromFresh(items, {});
    forall x { SuppliersFromMembers(items, {}, x); }
  }

  /** No item before that position has supplier `x`, and a position is found exactly when some item has it. */
  lemma {:induction false} FirstWithSupplierIsFirst(items: seq<Item>, x: string)
    ensures forall k :: 0 <= k < FirstWithSupplier(items, x) ==> items[k].supplier != Some(x)
    ensures FirstWithSupplier(items, x) < |items| <==> Some(x) in SupplierColumn(items)
  {
    if items != [] {
      assert SupplierColumn(items) == [items[0].supplier] + SupplierColumn(items[1..]);
      if items[0].supplier != Some(x) {
        FirstWithSupplierIsFirst(items[1..], x);
        assert forall k :: 1 <= k < FirstWithSupplier(items, x) ==> items[k] == items[1..][k - 1];
      }
    }
  }

  /** The supplier list is in first-occurrence order: an earlier entry is first met at an earlier item. */
  lemma {:induction false} SuppliersFirstOccurrenceOrder(items: seq<Item>, seen: set<string>, k: nat, l: nat)
    requires k < l < |SuppliersFrom(items, seen)|
    ensures FirstWithSupplier(items, SuppliersFrom(items, seen)[k]) < FirstWithSupplier(items, SuppliersFrom(items, seen)[l])
    decreases |items|, 1
  {
    var sup := items[0].supplier;
    if Truthy(sup) && sup.value !in seen {
      if k == 0 {
        OrderFromHead(items, seen, l);
      } else {
        OrderInTail(items, seen, k, l);
      }
    } else {
      OrderWhenSkipped(items, seen, k, l);
    }
  }

  /** Every entry of the supplier list is met at some item. */
  lemma SuppliersFound(items: seq<Item>, seen: set<string>, k: nat)
    requires k < |SuppliersFrom(items, seen)|
    ensures FirstWithSupplier(items, SuppliersFrom(items, seen)[k]) < |items|
  {
    var x := SuppliersFrom(items, seen)[k];
    SuppliersFromMembers(items, seen, x);
    FirstWithSupplierIsFirst(items, x);
  }

  /** The emitted head is met first of all. */
  lemma OrderFromHead(items: seq<Item>, seen: set<string>, l: nat)
    requires 0 < l < |SuppliersFrom(items, seen)|
    requires Truthy(items[0].supplier) && items[0].supplier.value !in seen
    ensures FirstWithSupplier(items, SuppliersFrom(items, seen)[0]) < FirstWithSupplier(items, SuppliersFrom(items, seen)[l])
  {
    var r := SuppliersFrom(items, seen);
    var v := items[0].supplier.value;
    assert r[0] == v by { assert r == [v] + SuppliersFrom(items[1..], seen + {v}); }
    EmittedTail(items, seen, l);
  }

  /** Two later entries after an emitted head keep the order they have in the tail. */
  lemma {:induction false} OrderInTail(items: seq<Item>, seen: set<string>, k: nat, l: nat)
    requires 0 < k < l < |SuppliersFrom(items, seen)|
    requires Truthy(items[0].supplier) && items[0].supplier.value !in seen
    ensures FirstWithSupplier(items, SuppliersFrom(items, seen)[k]) < FirstWithSupplier(items, SuppliersFrom(items, seen)[l])
    decreases |items|, 0
  {
    EmittedTail(items, seen, k);
    EmittedTail(items, seen, l);
    SuppliersFirstOccurrenceOrder(items[1..], seen + {items[0].supplier.value}, k - 1, l - 1);
  }

  /** After an emitted head, a later entry is an entry of the tail's list, first met in the tail. */
  lemma EmittedTail(items: seq<Item>, seen: set<string>, j: nat)
    requires 0 < j < |SuppliersFrom(items, seen)|
    requires Truthy(items[0].supplier) && items[0].supplier.value !in seen
    ensures var seen' := seen + {items[0].supplier.value};
      && j - 1 < |SuppliersFrom(items[1..], seen')|
      && SuppliersFrom(items, seen)[j] == SuppliersFrom(items[1..], seen')[j - 1]
      && FirstWithSupplier(items, SuppliersFrom(items, seen)[j]) == 1 + FirstWithSupplier(items[1..], SuppliersFrom(items, seen)[j])
  {
    var v := items[0].supplier.value;
    var r' := SuppliersFrom(items[1..], seen + {v});
    assert SuppliersFrom(items, seen) == [v] + r';
    SuppliersFromFresh(items[1..], seen + {v});
    assert r'[j - 1] !in seen + {v};
  }

  lemma {:induction false} OrderWhenSkipped(items: seq<Item>, seen: set<string>, k: nat, l: nat)
    requires k < l < |SuppliersFrom(items, seen)|
    requires !(Truthy(items[0].supplier) && items[0].supplier.value !in seen)
    ensures FirstWithSupplier(items, SuppliersFrom(items, seen)[k]) < FirstWithSupplier(items, SuppliersFrom(items, seen)[l])
    decreases |items|, 0
  {
    var r := SuppliersFrom(items, seen);
    assert r == SuppliersFrom(items[1..], seen);
    var x, y := r[k], r[l];
    SuppliersFromFresh(items, seen);
    assert items[0].supplier != Some(x) && items[0].supplier != Some(y);
    SuppliersFirstOccurrenceOrder(items[1..], seen, k, l);
  }

  /** The text filter's test: the search string occurs in the lower-cased name or lot number. */
  predicate MatchesSearch(i: Item, search: string) {
    Contains(Lower(i.name), Lower(search)) || Contains(Lower(i.lotNumber), Lower(search))
  }

  /** `search.trim() ? items.filter(...) : items` — note the untrimmed search string is used to match. */
  function TextFiltered(items: seq<Item>, search: string): seq<Item> {
    if IsBlank(search) then items else Filter(items, (i: Item) => MatchesSearch(i, search))
  }

  function CategoryFiltered(items: seq<Item>, category: string): seq<Item> {
    if category == "all" then items else Filter(items, (i: Item) => i.category == category)
  }

  function SupplierFiltered(items: seq<Item>, supplier: string): seq<Item> {
    if supplier == "all" then items else Filter(items, (i: Item) => i.supplier == Some(supplier))
  }

  /** The list the table shows. */
  function Filtered(items: seq<Item>, search: string, category: string, supplier: string): seq<Item> {
    SupplierFiltered(CategoryFiltered(TextFiltered(items, search), category), supplier)
  }

  /** Whether an item passes all three filters. */
  predicate PassesFilters(i: Item, search: string, category: string, supplier: string) {
    && (IsBlank(search) || MatchesSearch(i, search))
    && (category == "all" || i.category == category)
    && (supplier == "all" || i.supplier == Some(supplier))
  }

  lemma BlankSearchKeepsAll(items: seq<Item>, search: string)
    requires IsBlank(search)
    ensures TextFiltered(items, search) == items
  {
  }

  /** "all" is the identity for the category and supplier filters; otherwise they keep exactly the equal ones. */
  lemma AllIsIdentity(items: seq<Item>, c: string, sp: string)
    ensures CategoryFiltered(items, "all") == items && SupplierFiltered(items, "all") == items
    ensures c != "all" ==> forall x :: x in CategoryFiltered(items, c) <==> x in items && x.category == c
    ensures sp != "all" ==> forall x :: x in SupplierFiltered(items, sp) <==> x in items && x.supplier == Some(sp)
  {
    forall x { FilterMembership(items, (i: Item) => i.category == c, x); }
    forall x { FilterMembership(items, (i: Item) => i.supplier == Some(sp), x); }
  }

  /** A non-blank search keeps an item exactly when it matches, case-insensitively, its name or lot number. */
  lemma SearchMembership(items: seq<Item>, search: string, x: Item)
    requires !IsBlank(search)
    ensures x in TextFiltered(items, search) <==> x in items && MatchesSearch(x, search)
  {
    FilterMembership(items, (i: Item) => MatchesSearch(i, search), x);
  }

  /** The final list is an order-preserving subsequence of the items, holding exactly those that pass every filter. */
  lemma FilteredIsSubsequence(items: seq<Item>, search: string, category: string, supplier: string)
    ensures IsSubsequence(Filtered(items, search, category, supplier), items)
    ensures forall x :: x in Filtered(items, search, category, supplier) <==>
              x in items && PassesFilters(x, search, category, supplier)
  {
    var t := TextFiltered(items, search);
    var c := CategoryFiltered(t, category);
    var f := SupplierFiltered(c, supplier);
    assert IsSubsequence(t, items) by {
      if IsBlank(search) { SelfSubsequence(items); } else { FilterIsSubsequence(items, (i: Item) => MatchesSearch(i, search)); }
    }
    assert IsSubsequence(c, t) by {
      if category == "all" { SelfSubsequence(t); } else { FilterIsSubsequence(t, (i: Item) => i.category == category); }
    }
    assert IsSubsequence(f, c) by {
      if supplier == "all" { SelfSubsequence(c); } else { FilterIsSubsequence(c, (i: Item) => i.supplier == Some(supplier)); }
    }
    SubsequenceTransitive(c, t, items);
    SubsequenceTransitive(f, c, items);
    forall x ensures x in f <==> x in items && PassesFilters(x, search, category, supplier) {
      if !IsBlank(search) { SearchMembership(items, search, x); }
      AllIsIdentity(t, category, supplier);
      AllIsIdentity(c, category, supplier);
    }
  }
}
