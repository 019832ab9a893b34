/**
 * The admin console's listing page: the search-and-category filter over the
 * listings, the local removal of a deleted listing, the listing count, and
 * the add / edit / cancel view modes that decide whether the form or the
 * list is on screen.
 */
module AdminDashboard {
  import opened Wrappers
  import opened Text
  import opened Json
  import opened Lists

  /** A listing as the listings server returns it. */
  type House = Record

  // ---------------------------------------------------------------------
  // Search and category filter
  // ---------------------------------------------------------------------

  /** `s.toLowerCase().trim()`. */
  function Normalize(s: string): string {
    Trim(ToLower(s))
  }

  /** `(house[key] || "").toString().toLowerCase().trim()`. */
  function FieldKey(house: House, key: string): string {
    Normalize(TextOr(Get(house, key)))
  }

  /** The search box matches the location or the type of the house. */
  predicate MatchesSearch(house: House, searchQuery: string) {
    var q := Normalize(searchQuery);
    Includes(FieldKey(house, "location"), q) || Includes(FieldKey(house, "type"), q)
  }

  /** The category drop-down is "all" or names the type of the house. */
  predicate MatchesCategory(house: House, filterType: string) {
    var f := Normalize(filterType);
    f == "all" || FieldKey(house, "type") == f
  }

  predicate Matches(house: House, searchQuery: string, filterType: string) {
    MatchesSearch(house, searchQuery) && MatchesCategory(house, filterType)
  }

  /**
   * `filteredHouses`: the houses that match both the search and the
   * category, in their original order, and no others.
   */
  function FilterHouses(houses: seq<House>, searchQuery: string, filterType: string): (shown: seq<House>)
    ensures IsSubsequence(shown, houses)
    ensures forall k :: 0 <= k < |shown| ==> shown[k] in houses && Matches(shown[k], searchQuery, filterType)
    ensures forall k :: 0 <= k < |houses| && Matches(houses[k], searchQuery, filterType) ==> houses[k] in shown
    ensures forall h :: multiset(shown)[h] == if Matches(h, searchQuery, filterType) then multiset(houses)[h] else 0
  {
    FilterCountsAll(houses, house => Matches(house, searchQuery, filterType));
    Filter(houses, house => Matches(house, searchQuery, filterType))
  }

  /** A blank search with the "all" category shows every house. */
  lemma ShowsEverythingForBlankSearch(houses: seq<House>, searchQuery: string, filterType: string)
    requires AllSpace(searchQuery) && Normalize(filterType) == "all"
    ensures FilterHouses(houses, searchQuery, filterType) == houses
  {
    TrimEmptyIff(ToLower(searchQuery));
    forall house | house in houses
      ensures Matches(house, searchQuery, filterType)
    {
      IncludesEmpty(FieldKey(house, "location"));
    }
    FilterKeepsAll(houses, house => Matches(house, searchQuery, filterType));
  }

  /** The page's initial search ("" and "All") shows every house. */
  lemma InitialFiltersShowEverything(houses: seq<House>)
    ensures FilterHouses(houses, "", "All") == houses
  {
    var query, category := "", "All";
    NormalizeAll();
    ShowsEverythingForBlankSearch(houses, query, category);
  }

  lemma NormalizeAll()
    ensures Normalize("All") == "all"
  {
    var lower := ToLower("All");
    assert lower[0] == 'a' && lower[1] == 'l' && lower[2] == 'l';
    assert lower == "all";
    assert Trimmed("all");
    TrimOfTrimmed("all");
  }

  /** The letter case of the search text and of the category does not matter. */
  lemma FilterIgnoresCase(houses: seq<House>, q1: string, q2: string, f1: string, f2: string)
    requires ToLower(q1) == ToLower(q2) && ToLower(f1) == ToLower(f2)
    ensures FilterHouses(houses, q1, f1) == FilterHouses(houses, q2, f2)
  {
    FilterCongruent(houses, house => Matches(house, q1, f1), house => Matches(house, q2, f2));
  }

  /**
   * A house whose location and type are missing (or falsy) is searched as
   * "" on both: only a blank search finds it.
   */
  lemma MissingFieldsMatchOnlyBlankSearch(house: House, searchQuery: string)
    requires !Truthy(Get(house, "location")) && !Truthy(Get(house, "type"))
    ensures MatchesSearch(house, searchQuery) <==> Normalize(searchQuery) == ""
  {
    assert FieldKey(house, "location") == "" && FieldKey(house, "type") == "" by {
      assert ToLower("") == "";
    }
    EmptyIncludes(Normalize(searchQuery));
  }

  /** Filtering the filtered list again changes nothing. */
  lemma FilterHousesIdempotent(houses: seq<House>, searchQuery: string, filterType: string)
    ensures FilterHouses(FilterHouses(houses, searchQuery, filterType), searchQuery, filterType)
         == FilterHouses(houses, searchQuery, filterType)
  {
    FilterIdempotent(houses, house => Matches(house, searchQuery, filterType));
  }

  // ---------------------------------------------------------------------
  // Deleting a listing
  // ---------------------------------------------------------------------

  /** `a === b` on ids: `NaN` equals nothing, not even itself. */
  predicate SameId(a: Option<Value>, b: Option<Value>) {
    a == b && a != Some(NaN)
  }

  /** `houses.filter(h => h.id !== id)`. */
  function RemoveHouse(houses: seq<House>, id: Option<Value>): (remaining: seq<House>)
    ensures IsSubsequence(remaining, houses)
    ensures forall k :: 0 <= k < |remaining| ==> remaining[k] in houses && !SameId(Get(remaining[k], "id"), id)
    ensures forall k :: 0 <= k < |houses| && !SameId(Get(houses[k], "id"), id) ==> houses[k] in remaining
    ensures forall h :: multiset(remaining)[h] == if SameId(Get(h, "id"), id) then 0 else multiset(houses)[h]
  {
    FilterCountsAll(houses, house => !SameId(Get(house, "id"), id));
    Filter(houses, house => !SameId(Get(house, "id"), id))
  }

  /** Deleting an id that some house carries shortens the list. */
  lemma RemoveHouseShrinks(houses: seq<House>, id: Option<Value>, k: nat)
    requires k < |houses| && SameId(Get(houses[k], "id"), id)
    ensures |RemoveHouse(houses, id)| < |houses|
  {
    FilterDropsRejected(houses, house => !SameId(Get(house, "id"), id), k);
  }

  /** Deleting an id that no house carries leaves the list as it was. */
  lemma RemoveAbsentHouse(houses: seq<House>, id: Option<Value>)
    requires forall k :: 0 <= k < |houses| ==> !SameId(Get(houses[k], "id"), id)
    ensures RemoveHouse(houses, id) == houses
  {
    FilterKeepsAll(houses, house => !SameId(Get(house, "id"), id));
  }

  // ---------------------------------------------------------------------
  // The page's state and what it shows
  // ---------------------------------------------------------------------

  /** Which handler the form's submit button is wired to. */
  datatype SubmitTarget = AddHouse | UpdateHouse(house: House)

  /** The main area of the page. */
  datatype Main =
    | Spinner
    | Form(initialData: Option<House>, onSubmit: SubmitTarget)
    | Listing(shown: seq<House>)

  /**
   * What is on screen: whether the post button, the statistics and the
   * search bar are shown, the listing count, and the main area.
   */
  datatype Screen = Screen(controls: bool, totalHouses: nat, main: Main)

  class Dashboard {
    var houses: seq<House>
    var editingHouse: Option<House>
    var isAdding: bool
    var loading: bool
    var searchQuery: string
    var filterType: string

    constructor ()
      ensures houses == [] && editingHouse == None && !isAdding && loading
      ensures searchQuery == "" && filterType == "All"
    {
      houses := [];
      editingHouse := None;
      isAdding := false;
      loading := true;
      searchQuery := "";
      filterType := "All";
    }

    /**
     * The rendered page. The form is shown exactly when loading is over and
     * a listing is being added or edited; it submits to the update handler
     * exactly when a listing is being edited.
     */
    function View(): (screen: Screen)
      reads this
      ensures screen.controls <==> !isAdding && editingHouse.None?
      ensures screen.totalHouses == |houses|
      ensures screen.main.Spinner? <==> loading
      ensures screen.main.Form? <==> !loading && (isAdding || editingHouse.Some?)
      ensures screen.main.Form? ==> screen.main.initialData == editingHouse
      ensures screen.main.Form? ==> (screen.main.onSubmit.UpdateHouse? <==> editingHouse.Some?)
      ensures screen.main.Listing? ==> |screen.main.shown| <= screen.totalHouses
      ensures screen.main.Listing? ==> IsSubsequence(screen.main.shown, houses)
      ensures screen.main.Listing? ==> screen.main.shown == FilterHouses(houses, searchQuery, filterType)
    {
      var main :=
        if loading then Spinner
        else if isAdding || editingHouse.Some? then
          Form(editingHouse, if editingHouse.Some? then UpdateHouse(editingHouse.value) else AddHouse)
        else Listing(FilterHouses(houses, searchQuery, filterType));
      Screen(!isAdding && editingHouse.None?, |houses|, main)
    }

    /** The listings fetch finished: its data, if any, replaces the list, and loading ends. */
    method FetchFinished(data: Option<seq<House>>)
      modifies this
      ensures houses == (if data.Some? then data.value else old(houses))
      ensures !loading
      ensures editingHouse == old(editingHouse) && isAdding == old(isAdding)
      ensures searchQuery == old(searchQuery) && filterType == old(filterType)
    {
      if data.Some? {
        houses := data.value;
      }
      loading := false;
    }

    /** "+ Post New Property". */
    method StartAdding()
      modifies this`isAdding
      ensures isAdding
      ensures View().main.Form? <==> !loading
    {
      isAdding := true;
    }

    /** "Edit" on a listing's card. */
    method StartEditing(house: House)
      modifies this`editingHouse
      ensures editingHouse == Some(house)
      ensures !loading ==> View().main == Form(Some(house), UpdateHouse(house))
    {
      editingHouse := Some(house);
    }

    /** "Cancel" on the form: both modes end and the list comes back. */
    method Cancel()
      modifies this`isAdding, this`editingHouse
      ensures !isAdding && editingHouse == None
      ensures View().controls
      ensures !loading ==> View().main == Listing(FilterHouses(houses, searchQuery, filterType))
    {
      isAdding := false;
      editingHouse := None;
    }

    /** The add request ended; only an accepted one closes the adding form. */
    method AddFinished(accepted: bool)
      modifies this`isAdding
      ensures isAdding == (old(isAdding) && !accepted)
    {
      if accepted {
        isAdding := false;
      }
    }

    /** The update request ended; only an accepted one closes the editing form. */
    method UpdateFinished(accepted: bool)
      modifies this`editingHouse
      ensures editingHouse == (if accepted then None else old(editingHouse))
    {
      if accepted {
        editingHouse := None;
      }
    }

    /**
     * "Delete" on a listing's card. Unless the user declines the
     * confirmation or the request cannot be sent at all, every house with
     * that id leaves the list and the others stay, in order.
     */
    method Delete(id: Option<Value>, confirmed: bool, requestFailed: bool)
      modifies this`houses
      ensures houses == if confirmed && !requestFailed then RemoveHouse(old(houses), id) else old(houses)
    {
      if confirmed && !requestFailed {
        houses := RemoveHouse(houses, id);
      }
    }

    method SetSearchQuery(query: string)
      modifies this`searchQuery
      ensures searchQuery == query
    {
      searchQuery := query;
    }

    method SetFilterType(category: string)
      modifies this`filterType
      ensures filterType == category
    {
      filterType := category;
    }
  }
}
