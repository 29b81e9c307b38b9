/** Worked cases of the selection engine on concrete prompts. */
module SelectionExamples {
  import opened Types
  import opened Seqs
  import opened Selection

  function Sample(id: int, title: string, role: Role, saves: int, createdAt: int): Prompt
  {
    Prompt(id, title, "", "", [], role, Copywriting, "", "", "", [], saves, false, false, createdAt)
  }

  /** A needle holding a character the haystack lacks is never found in it. */
  lemma MissingCharNotIncluded(hay: string, needle: string, c: char)
    requires c in needle && c !in hay
    ensures !Includes(hay, needle)
  {
  }

  const Reviewer := Sample(1, "Code Review Helper", Engineer, 0, 0)

  lemma ReviewerLowered()
    ensures Lower(Reviewer.title) == "code review helper"
    ensures Lower(Reviewer.description) == Lower(Reviewer.content) == ""
    ensures Reviewer.tags == []
  {
  }

  /** Matching is on lower-cased substrings: the upper-case term finds the title too. */
  lemma SearchFindsAnyCase()
    ensures TermMatches(Reviewer, Lower("review"))
    ensures TermMatches(Reviewer, Lower("REVIEW"))
  {
    ReviewerLowered();
    assert Lower("review") == "review" == Lower("REVIEW");
    assert OccursAt("code review helper", "review", 5);
  }

  lemma SearchFindsPhrase()
    ensures TermMatches(Reviewer, Lower("Review Helper"))
  {
    ReviewerLowered();
    assert Lower("Review Helper") == "review helper";
    assert OccursAt("code review helper", "review helper", 5);
  }

  lemma SearchRejectsLongerTerm()
    ensures !TermMatches(Reviewer, Lower("reviewz"))
  {
    ReviewerLowered();
    assert Lower("reviewz") == "reviewz";
    MissingCharNotIncluded("code review helper", "reviewz", 'z');
  }

  // Two prompts: the first older and less saved, the second newer and more saved.
  const First := Sample(1, "first", Engineer, 10, 20240101)
  const Second := Sample(2, "second", Sales, 20, 20240601)
  const NoFilter := Query(AllRoles, AllPurposes, None, "", BySaves)

  /** Both sort keys put the second prompt first. */
  lemma SortBothOrders(sortBy: SortBy)
    ensures SortDesc([First, Second], SortKey(sortBy)) == [Second, First]
  {
    var key := SortKey(sortBy);
    assert [First, Second][1..] == [Second];
    assert SortDesc([Second], key) == Insert(Second, [], key) == [Second];
    assert key(First) < key(Second);
    assert Insert(First, [Second], key) == [Second] + Insert(First, [], key);
  }

  /** With no filter both prompts are shown, the more saved (and newer) one first. */
  lemma ScenarioNoFilter(sortBy: SortBy)
    ensures Select([First, Second], NoFilter.(sortBy := sortBy), {}) == [Second, First]
  {
    SortBothOrders(sortBy);
  }

  /** A role filter keeps only that role's prompt. */
  lemma ScenarioRole()
    ensures Select([First, Second], NoFilter.(role := OnlyRole(Engineer)), {}) == [First]
  {
  }

  /** The saved filter keeps exactly the saved prompt, whatever the sort key. */
  lemma ScenarioSaved(sortBy: SortBy)
    ensures Select([First, Second], NoFilter.(special := Some(Saved), sortBy := sortBy), {1}) == [First]
  {
  }

  lemma NoSpaceInSamples()
    ensures !TermMatches(First, " ") && !TermMatches(Second, " ")
  {
    assert Lower("first") == "first" && Lower("second") == "second" && Lower("") == "";
    MissingCharNotIncluded("first", " ", ' ');
    MissingCharNotIncluded("second", " ", ' ');
    MissingCharNotIncluded("", " ", ' ');
  }

  /** A search term of one space is applied, not ignored. */
  lemma ScenarioSpaceTerm()
    ensures Select([First, Second], NoFilter.(searchTerm := " "), {}) == []
  {
    assert Lower(" ") == " ";
    NoSpaceInSamples();
    var s := [First, Second];
    assert s[1..] == [Second] && s[1..][1..] == [];
    assert Filter(s, MatchesTerm(" ")) == [];
  }

  /**
   * Two prompts with 5 stored saves each stay in store order, even when the
   * viewer has saved the second one and its card therefore shows 6.
   */
  lemma SortIgnoresDisplayedCount()
    ensures var a, b := Sample(1, "a", Engineer, 5, 0), Sample(2, "b", Engineer, 5, 0);
            && Select([a, b], NoFilter, {2}) == [a, b]
            && DisplayedSaves(a, 1 in {2}) < DisplayedSaves(b, 2 in {2})
  {
  }
}
