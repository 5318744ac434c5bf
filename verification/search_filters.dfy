/** The filter panel of components/search/search-filters.tsx: a list of
    checked system ids and a "has definition" flag. Every handler both
    stores the new filters and hands the same value to the parent, so each
    returns the pair (stored, notified). */
module SearchFilters {

  datatype Filters = Filters(systems: seq<string>, hasDefinition: bool)

  const NoFilters := Filters([], false)

  /** `systems.filter((s) => s !== id)`. */
  function Without(systems: seq<string>, id: string): (r: seq<string>)
    ensures id !in r
    ensures forall x :: x in r <==> x in systems && x != id
    ensures |r| <= |systems|
    decreases |systems|
  {
    if |systems| == 0 then []
    else (if systems[0] != id then [systems[0]] else []) + Without(systems[1..], id)
  }

  /** `handleSystemChange`: checking appends the id (even if it is already
      listed); unchecking removes every copy of it. */
  function SystemChange(f: Filters, id: string, checked: bool): (r: (Filters, Filters))
    ensures r.0 == r.1 && r.0.hasDefinition == f.hasDefinition
    ensures checked ==> r.0.systems == f.systems + [id]
    ensures !checked ==> r.0.systems == Without(f.systems, id)
  {
    var nf := f.(systems := if checked then f.systems + [id] else Without(f.systems, id));
    (nf, nf)
  }

  /** `handleDefinitionChange`: the flag only. */
  function DefinitionChange(f: Filters, checked: bool): (r: (Filters, Filters))
    ensures r.0 == r.1 && r.0.hasDefinition == checked && r.0.systems == f.systems
  {
    var nf := f.(hasDefinition := checked);
    (nf, nf)
  }

  /** `clearFilters`. */
  function ClearFilters(f: Filters): (r: (Filters, Filters))
    ensures r.0 == r.1 == NoFilters
  {
    (NoFilters, NoFilters)
  }

  /** `hasActiveFilters`: some system is checked or the flag is set. */
  predicate HasActiveFilters(f: Filters) {
    |f.systems| > 0 || f.hasDefinition
  }

  /** The checkbox for `id` shows as checked. */
  predicate IsChecked(f: Filters, id: string) {
    id in f.systems
  }

  // ---------------------------------------------------------------------
  // Properties
  // ---------------------------------------------------------------------

  /** Removal keeps the order of what remains: it distributes over concatenation. */
  lemma {:induction false} WithoutDistributes(a: seq<string>, b: seq<string>, id: string)
    ensures Without(a + b, id) == Without(a, id) + Without(b, id)
    decreases |a|
  {
    if |a| == 0 {
      assert a + b == b;
    } else {
      assert (a + b)[1..] == a[1..] + b;
      WithoutDistributes(a[1..], b, id);
    }
  }

  /** Removal changes nothing when the id is not listed. */
  lemma {:induction false} WithoutAbsent(systems: seq<string>, id: string)
    requires id !in systems
    ensures Without(systems, id) == systems
    decreases |systems|
  {
    if |systems| > 0 {
      WithoutAbsent(systems[1..], id);
      assert [systems[0]] + systems[1..] == systems;
    }
  }

  /** Checking a box that was unchecked and then unchecking it restores the
      filters exactly; unchecking always leaves the box unchecked. */
  lemma CheckThenUncheck(f: Filters, id: string)
    ensures !IsChecked(SystemChange(f, id, false).0, id)
    ensures IsChecked(SystemChange(f, id, true).0, id)
    ensures id !in f.systems ==> SystemChange(SystemChange(f, id, true).0, id, false).0 == f
  {
    if id !in f.systems {
      WithoutDistributes(f.systems, [id], id);
      WithoutAbsent(f.systems, id);
      assert Without([id], id) == [];
    }
  }

  /** Other boxes are unaffected by a change to one of them. */
  lemma OtherBoxesUnchanged(f: Filters, id: string, other: string, checked: bool)
    requires other != id
    ensures IsChecked(SystemChange(f, id, checked).0, other) <==> IsChecked(f, other)
  {
  }

  /** The "Clear" button is offered exactly when there is something to clear,
      and after it nothing is active. */
  lemma ClearDeactivates(f: Filters)
    ensures HasActiveFilters(f) <==> f != NoFilters
    ensures !HasActiveFilters(ClearFilters(f).0)
  {
  }
}
