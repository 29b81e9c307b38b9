/**
 * The page's filter state (`HomePage`): the setters the filter bar calls,
 * the special-filter toggle, the page title, and the mobile "reset" button.
 */
module HomePage {
  import opened Types
  import opened Selection

  /** `prev === filter ? null : filter`. */
  function ToggledSpecial(prev: Option<SpecialFilter>, filter: SpecialFilter): Option<SpecialFilter>
  {
    if prev == Some(filter) then None else Some(filter)
  }

  /** Toggling the active special filter clears it. */
  lemma ToggleActiveClears(filter: SpecialFilter)
    ensures ToggledSpecial(Some(filter), filter) == None
  {
  }

  /** Toggling any other filter, or from none, makes it the one active filter. */
  lemma ToggleOtherReplaces(prev: Option<SpecialFilter>, filter: SpecialFilter)
    requires prev != Some(filter)
    ensures ToggledSpecial(prev, filter) == Some(filter)
  {
  }

  /**
   * Pressing the same special button twice returns to the start exactly when
   * the start was "none" or that same filter; from another filter it ends at none.
   */
  lemma ToggleSpecialTwice(prev: Option<SpecialFilter>, filter: SpecialFilter)
    ensures ToggledSpecial(ToggledSpecial(prev, filter), filter)
         == (if prev == Some(filter) then prev else None)
    ensures ToggledSpecial(ToggledSpecial(prev, filter), filter) == prev
        <==> prev == None || prev == Some(filter)
  {
  }

  const SavedTitle := "我的收藏"
  const EditorsPickTitle := "編輯精選"
  const WeeklyHotTitle := "本週熱門"
  const DefaultTitle := "所有提示詞"

  function SpecialTitle(f: SpecialFilter): string
  {
    match f
    case Saved => SavedTitle
    case EditorsPick => EditorsPickTitle
    case WeeklyHot => WeeklyHotTitle
  }

  /** The heading above the grid: special filter, then role, then purpose, then the default. */
  function PageTitle(special: Option<SpecialFilter>, role: RoleFilter, purpose: PurposeFilter): string
  {
    if special == Some(Saved) then SavedTitle
    else if special == Some(EditorsPick) then EditorsPickTitle
    else if special == Some(WeeklyHot) then WeeklyHotTitle
    else if role.OnlyRole? then RoleLabel(role.role)
    else if purpose.OnlyPurpose? then PurposeLabel(purpose.purpose)
    else DefaultTitle
  }

  /** An active special filter decides the title whatever the categories are. */
  lemma SpecialDecidesTitle(f: SpecialFilter, role: RoleFilter, purpose: PurposeFilter)
    ensures PageTitle(Some(f), role, purpose) == SpecialTitle(f)
  {
  }

  /** Without a special filter, a chosen role wins over a chosen purpose. */
  lemma RoleBeforePurpose(r: Role, purpose: PurposeFilter)
    ensures PageTitle(None, OnlyRole(r), purpose) == RoleLabel(r)
  {
  }

  lemma PurposeLast(p: Purpose)
    ensures PageTitle(None, AllRoles, OnlyPurpose(p)) == PurposeLabel(p)
  {
  }

  /**
   * The title tells which rule decided it: the default title appears exactly
   * when no filter is active, and each special title exactly when its filter is.
   */
  lemma TitleShowsDecidingFilter(special: Option<SpecialFilter>, role: RoleFilter, purpose: PurposeFilter)
    ensures PageTitle(special, role, purpose) == DefaultTitle
        <==> special == None && role == AllRoles && purpose == AllPurposes
    ensures forall f :: PageTitle(special, role, purpose) == SpecialTitle(f) <==> special == Some(f)
  {
    FixedTitlesDistinct();
    match role
    case OnlyRole(r) =>
      RoleLabelNotFixedTitle(r);
    case AllRoles =>
    match purpose
    case OnlyPurpose(p) =>
      PurposeLabelNotFixedTitle(p);
    case AllPurposes =>
      if special.Some? {
        assert PageTitle(special, role, purpose) == SpecialTitle(special.value);
      }
  }

  /**
   * A category label as title says which category filter decided it: a role's
   * label appears exactly when that role is chosen and no special filter is on,
   * a purpose's label exactly when only that purpose is chosen.
   */
  lemma TitleNamesCategory(special: Option<SpecialFilter>, role: RoleFilter, purpose: PurposeFilter)
    ensures forall r :: (PageTitle(special, role, purpose) == RoleLabel(r)
                         <==> special == None && role == OnlyRole(r))
    ensures forall p :: (PageTitle(special, role, purpose) == PurposeLabel(p)
                         <==> special == None && role == AllRoles && purpose == OnlyPurpose(p))
  {
    RoleCategoriesEnumerate();
    PurposeCategoriesEnumerate();
    var title := PageTitle(special, role, purpose);
    forall r ensures title == RoleLabel(r) <==> special == None && role == OnlyRole(r) {
      RoleLabelNotFixedTitle(r);
      if special.Some? {
        assert title == SpecialTitle(special.value);
      } else if role.OnlyRole? {
        assert title == RoleLabel(role.role);
      } else if purpose.OnlyPurpose? {
        LabelsDisjoint(r, purpose.purpose);
      } else {
        assert title == DefaultTitle;
      }
    }
    forall p ensures title == PurposeLabel(p) <==> special == None && role == AllRoles && purpose == OnlyPurpose(p) {
      PurposeLabelNotFixedTitle(p);
      if special.Some? {
        assert title == SpecialTitle(special.value);
      } else if role.OnlyRole? {
        LabelsDisjoint(role.role, p);
      } else if purpose.OnlyPurpose? {
        assert title == PurposeLabel(purpose.purpose);
      } else {
        assert title == DefaultTitle;
      }
    }
  }

  lemma FixedTitlesDistinct()
    ensures DefaultTitle != SavedTitle && DefaultTitle != EditorsPickTitle && DefaultTitle != WeeklyHotTitle
    ensures SavedTitle != EditorsPickTitle && SavedTitle != WeeklyHotTitle && EditorsPickTitle != WeeklyHotTitle
  {
    assert SavedTitle[0] != EditorsPickTitle[0] && SavedTitle[0] != WeeklyHotTitle[0];
    assert EditorsPickTitle[0] != WeeklyHotTitle[0];
    assert DefaultTitle[0] !in {SavedTitle[0], EditorsPickTitle[0], WeeklyHotTitle[0]};
  }

  lemma RoleLabelNotFixedTitle(r: Role)
    ensures RoleLabel(r) !in {SavedTitle, EditorsPickTitle, WeeklyHotTitle, DefaultTitle}
  {
  }

  lemma PurposeLabelNotFixedTitle(p: Purpose)
    ensures PurposeLabel(p) !in {SavedTitle, EditorsPickTitle, WeeklyHotTitle, DefaultTitle}
  {
  }

  /** The page's filter state; each field is one `useState` of the page. */
  class FilterState {
    var activeRole: RoleFilter
    var activePurpose: PurposeFilter
    var searchTerm: string
    var sortBy: SortBy
    var specialFilter: Option<SpecialFilter>

    constructor ()
      ensures activeRole == AllRoles && activePurpose == AllPurposes
      ensures searchTerm == "" && sortBy == BySaves && specialFilter == None
    {
      activeRole := AllRoles;
      activePurpose := AllPurposes;
      searchTerm := "";
      sortBy := BySaves;
      specialFilter := None;
    }

    /** The arguments the page passes to `usePrompts`. */
    function CurrentQuery(): Query
      reads this
    {
      Query(activeRole, activePurpose, specialFilter, searchTerm, sortBy)
    }

    /** The list shown in the grid for the given store and saved set. */
    function Displayed(prompts: seq<Prompt>, saved: set<int>): seq<Prompt>
      reads this
    {
      Select(prompts, CurrentQuery(), saved)
    }

    function Title(): string
      reads this
    {
      PageTitle(specialFilter, activeRole, activePurpose)
    }

    method SetRole(role: RoleFilter)
      modifies this
      ensures activeRole == role
      ensures activePurpose == old(activePurpose) && searchTerm == old(searchTerm)
      ensures sortBy == old(sortBy) && specialFilter == old(specialFilter)
    {
      activeRole := role;
    }

    method SetPurpose(purpose: PurposeFilter)
      modifies this
      ensures activePurpose == purpose
      ensures activeRole == old(activeRole) && searchTerm == old(searchTerm)
      ensures sortBy == old(sortBy) && specialFilter == old(specialFilter)
    {
      activePurpose := purpose;
    }

    method SetSearchTerm(term: string)
      modifies this
      ensures searchTerm == term
      ensures activeRole == old(activeRole) && activePurpose == old(activePurpose)
      ensures sortBy == old(sortBy) && specialFilter == old(specialFilter)
    {
      searchTerm := term;
    }

    method SetSortBy(key: SortBy)
      modifies this
      ensures sortBy == key
      ensures activeRole == old(activeRole) && activePurpose == old(activePurpose)
      ensures searchTerm == old(searchTerm) && specialFilter == old(specialFilter)
    {
      sortBy := key;
    }

    /** `handleSpecialFilterToggle`: at most one special filter is ever active. */
    method ToggleSpecial(filter: SpecialFilter)
      modifies this
      ensures specialFilter == ToggledSpecial(old(specialFilter), filter)
      ensures specialFilter == None || specialFilter == Some(filter)
      ensures old(specialFilter) == Some(filter) ==> specialFilter == None
      ensures activeRole == old(activeRole) && activePurpose == old(activePurpose)
      ensures searchTerm == old(searchTerm) && sortBy == old(sortBy)
    {
      specialFilter := if specialFilter == Some(filter) then None else Some(filter);
    }

    /**
     * The mobile filter sheet's reset: both categories back to "All", and the
     * active special filter, if any, toggled off. Search and sort are kept.
     */
    method ResetFilters()
      modifies this
      ensures activeRole == AllRoles && activePurpose == AllPurposes && specialFilter == None
      ensures searchTerm == old(searchTerm) && sortBy == old(sortBy)
      ensures Title() == DefaultTitle
    {
      SetRole(AllRoles);
      SetPurpose(AllPurposes);
      if specialFilter.Some? {
        ToggleSpecial(specialFilter.value);
      }
    }
  }
}
