/**
 * The selection engine (`usePrompts`): role filter, purpose filter, special
 * filter, case-insensitive substring search, then a stable descending sort.
 */
module Selection {
  import opened Types
  import opened Seqs

  datatype RoleFilter = AllRoles | OnlyRole(role: Role)
  datatype PurposeFilter = AllPurposes | OnlyPurpose(purpose: Purpose)
  datatype SpecialFilter = Saved | EditorsPick | WeeklyHot
  datatype SortBy = BySaves | ByLatest

  /** The filter state the page hands to the engine. */
  datatype Query = Query(
    role: RoleFilter,
    purpose: PurposeFilter,
    special: Option<SpecialFilter>,
    searchTerm: string,
    sortBy: SortBy)

  // ----- text matching -----

  /** Lower-cases the ASCII letters and leaves every other character alone. */
  function LowerChar(c: char): char
  {
    if 'A' <= c <= 'Z' then (c as int + 32) as char else c
  }

  function Lower(s: string): string
  {
    seq(|s|, i requires 0 <= i < |s| => LowerChar(s[i]))
  }

  ghost predicate OccursAt(hay: string, needle: string, i: int)
  {
    0 <= i && i + |needle| <= |hay| && hay[i..i + |needle|] == needle
  }

  /** `hay.includes(needle)`: some window of `hay` equals `needle`. */
  function Includes(hay: string, needle: string): (b: bool)
    ensures b <==> exists i :: OccursAt(hay, needle, i)
    decreases |hay|
  {
    if |hay| < |needle| then false
    else if hay[..|needle|] == needle then
      assert OccursAt(hay, needle, 0);
      true
    else
      var b := Includes(hay[1..], needle);
      assert forall i :: OccursAt(hay[1..], needle, i) ==> OccursAt(hay, needle, i + 1) by {
        forall i | OccursAt(hay[1..], needle, i) ensures OccursAt(hay, needle, i + 1) {
          assert hay[1..][i..i + |needle|] == hay[i + 1..i + 1 + |needle|];
        }
      }
      assert forall i :: OccursAt(hay, needle, i) ==> OccursAt(hay[1..], needle, i - 1) by {
        forall i | OccursAt(hay, needle, i) ensures OccursAt(hay[1..], needle, i - 1) {
          assert i != 0;
          assert hay[1..][i - 1..i - 1 + |needle|] == hay[i..i + |needle|];
        }
      }
      b
  }

  /** The search test on one prompt, for an already lower-cased term. */
  predicate TermMatches(p: Prompt, lowered: string)
  {
    || Includes(Lower(p.title), lowered)
    || Includes(Lower(p.description), lowered)
    || Includes(Lower(p.content), lowered)
    || exists tag :: tag in p.tags && Includes(Lower(tag), lowered)
  }

  // ----- what each step keeps -----

  predicate RoleMatches(role: RoleFilter, p: Prompt)
  {
    role.AllRoles? || p.roleCategory == role.role
  }

  predicate PurposeMatches(purpose: PurposeFilter, p: Prompt)
  {
    purpose.AllPurposes? || p.purposeCategory == purpose.purpose
  }

  predicate SpecialMatches(special: Option<SpecialFilter>, saved: set<int>, p: Prompt)
  {
    match special
    case None => true
    case Some(Saved) => p.id in saved
    case Some(EditorsPick) => p.isEditorsPick
    case Some(WeeklyHot) => p.isWeeklyHot
  }

  /**
   * The search condition stated on substrings: an empty term matches
   * everything; otherwise the lower-cased term is a substring of the
   * lower-cased title, description, content or one of the tags.
   */
  ghost predicate SearchMatches(term: string, p: Prompt)
  {
    var t := Lower(term);
    || term == ""
    || (exists i :: OccursAt(Lower(p.title), t, i))
    || (exists i :: OccursAt(Lower(p.description), t, i))
    || (exists i :: OccursAt(Lower(p.content), t, i))
    || (exists tag, i :: tag in p.tags && OccursAt(Lower(tag), t, i))
  }

  /** Everything a prompt must satisfy to be displayed for query `q`. */
  ghost predicate Matches(q: Query, saved: set<int>, p: Prompt)
  {
    && RoleMatches(q.role, p)
    && PurposeMatches(q.purpose, p)
    && SpecialMatches(q.special, saved, p)
    && SearchMatches(q.searchTerm, p)
  }

  // ----- the steps -----

  /** The predicates the hook passes to `filter`, one per step. */
  function HasRole(role: Role): Prompt -> bool
  {
    (p: Prompt) => p.roleCategory == role
  }

  function HasPurpose(purpose: Purpose): Prompt -> bool
  {
    (p: Prompt) => p.purposeCategory == purpose
  }

  function IsSavedIn(saved: set<int>): Prompt -> bool
  {
    (p: Prompt) => p.id in saved
  }

  function IsEditorsPick(): Prompt -> bool
  {
    (p: Prompt) => p.isEditorsPick
  }

  function IsWeeklyHot(): Prompt -> bool
  {
    (p: Prompt) => p.isWeeklyHot
  }

  function MatchesTerm(lowered: string): Prompt -> bool
  {
    (p: Prompt) => TermMatches(p, lowered)
  }

  function ByRole(s: seq<Prompt>, role: RoleFilter): (r: seq<Prompt>)
    ensures role.AllRoles? ==> r == s
    ensures forall p :: multiset(r)[p] == if RoleMatches(role, p) then multiset(s)[p] else 0
  {
    if role.AllRoles? then s
    else
      FilterCount(s, HasRole(role.role));
      Filter(s, HasRole(role.role))
  }

  function ByPurpose(s: seq<Prompt>, purpose: PurposeFilter): (r: seq<Prompt>)
    ensures purpose.AllPurposes? ==> r == s
    ensures forall p :: multiset(r)[p] == if PurposeMatches(purpose, p) then multiset(s)[p] else 0
  {
    if purpose.AllPurposes? then s
    else
      FilterCount(s, HasPurpose(purpose.purpose));
      Filter(s, HasPurpose(purpose.purpose))
  }

  /** The predicate of an active special filter. */
  function SpecialPredicate(special: SpecialFilter, saved: set<int>): Prompt -> bool
  {
    match special
    case Saved => IsSavedIn(saved)
    case EditorsPick => IsEditorsPick()
    case WeeklyHot => IsWeeklyHot()
  }

  function BySpecial(s: seq<Prompt>, special: Option<SpecialFilter>, saved: set<int>): (r: seq<Prompt>)
    ensures special.None? ==> r == s
    ensures forall p :: multiset(r)[p] == if SpecialMatches(special, saved, p) then multiset(s)[p] else 0
  {
    match special
    case None => s
    case Some(f) =>
      FilterCount(s, SpecialPredicate(f, saved));
      Filter(s, SpecialPredicate(f, saved))
  }

  /** The term is not trimmed: only the empty string switches the search off. */
  function BySearch(s: seq<Prompt>, term: string): (r: seq<Prompt>)
    ensures term == "" ==> r == s
    ensures forall p :: multiset(r)[p] == if SearchMatches(term, p) then multiset(s)[p] else 0
  {
    if term == "" then s
    else
      var lowered := Lower(term);
      FilterCount(s, MatchesTerm(lowered));
      assert forall p :: MatchesTerm(lowered)(p) == SearchMatches(term, p);
      Filter(s, MatchesTerm(lowered))
  }

  /** The sort key: creation time for "latest", the raw saves counter otherwise. */
  function SortKey(sortBy: SortBy): Prompt -> int
  {
    if sortBy == ByLatest then (p: Prompt) => p.createdAt else (p: Prompt) => p.saves
  }

  /** The list the page displays. */
  function Select(prompts: seq<Prompt>, q: Query, saved: set<int>): (r: seq<Prompt>)
    ensures |r| <= |prompts|
    ensures forall p :: multiset(r)[p] == if Matches(q, saved, p) then multiset(prompts)[p] else 0
    ensures NonIncreasing(r, SortKey(q.sortBy))
  {
    var afterRole := ByRole(prompts, q.role);
    var afterPurpose := ByPurpose(afterRole, q.purpose);
    var afterSpecial := BySpecial(afterPurpose, q.special, saved);
    var afterSearch := BySearch(afterSpecial, q.searchTerm);
    SortDesc(afterSearch, SortKey(q.sortBy))
  }

  /**
   * The saves count a card shows: the stored counter plus one when the viewer
   * has saved the prompt. The engine never sorts on this number.
   */
  function DisplayedSaves(p: Prompt, isSaved: bool): int
  {
    p.saves + (if isSaved then 1 else 0)
  }
}
