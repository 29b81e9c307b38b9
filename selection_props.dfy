/**
 * What the selection engine promises, stated against the single predicate
 * `Matches` and the reference sort `SortDesc`.
 */
module SelectionProps {
  import opened Types
  import opened Seqs
  import opened Selection

  ghost function RoleFn(role: RoleFilter): Prompt -> bool { p => RoleMatches(role, p) }
  ghost function PurposeFn(purpose: PurposeFilter): Prompt -> bool { p => PurposeMatches(purpose, p) }
  ghost function SpecialFn(special: Option<SpecialFilter>, saved: set<int>): Prompt -> bool
  {
    p => SpecialMatches(special, saved, p)
  }
  ghost function SearchFn(term: string): Prompt -> bool { p => SearchMatches(term, p) }
  ghost function MatchFn(q: Query, saved: set<int>): Prompt -> bool { p => Matches(q, saved, p) }

  lemma ByRoleIsFilter(s: seq<Prompt>, role: RoleFilter)
    ensures ByRole(s, role) == Filter(s, RoleFn(role))
  {
    if role.AllRoles? {
      FilterKeepsAll(s, RoleFn(role));
    } else {
      FilterEquiv(s, HasRole(role.role), RoleFn(role));
    }
  }

  lemma ByPurposeIsFilter(s: seq<Prompt>, purpose: PurposeFilter)
    ensures ByPurpose(s, purpose) == Filter(s, PurposeFn(purpose))
  {
    if purpose.AllPurposes? {
      FilterKeepsAll(s, PurposeFn(purpose));
    } else {
      FilterEquiv(s, HasPurpose(purpose.purpose), PurposeFn(purpose));
    }
  }

  lemma BySpecialIsFilter(s: seq<Prompt>, special: Option<SpecialFilter>, saved: set<int>)
    ensures BySpecial(s, special, saved) == Filter(s, SpecialFn(special, saved))
  {
    match special
    case None => FilterKeepsAll(s, SpecialFn(special, saved));
    case Some(f) => FilterEquiv(s, SpecialPredicate(f, saved), SpecialFn(special, saved));
  }

  lemma BySearchIsFilter(s: seq<Prompt>, term: string)
    ensures BySearch(s, term) == Filter(s, SearchFn(term))
  {
    if term == "" {
      FilterKeepsAll(s, SearchFn(term));
    } else {
      FilterEquiv(s, MatchesTerm(Lower(term)), SearchFn(term));
    }
  }

  ghost function RolePurposeFn(q: Query): Prompt -> bool
  {
    And(RoleFn(q.role), PurposeFn(q.purpose))
  }

  ghost function CategorySpecialFn(q: Query, saved: set<int>): Prompt -> bool
  {
    And(RolePurposeFn(q), SpecialFn(q.special, saved))
  }

  lemma CategoryStep(prompts: seq<Prompt>, q: Query)
    ensures ByPurpose(ByRole(prompts, q.role), q.purpose) == Filter(prompts, RolePurposeFn(q))
  {
    ByRoleIsFilter(prompts, q.role);
    ByPurposeIsFilter(Filter(prompts, RoleFn(q.role)), q.purpose);
    FilterFilter(prompts, RoleFn(q.role), PurposeFn(q.purpose), RolePurposeFn(q));
  }

  lemma SpecialStep(prompts: seq<Prompt>, q: Query, saved: set<int>)
    ensures BySpecial(Filter(prompts, RolePurposeFn(q)), q.special, saved) == Filter(prompts, CategorySpecialFn(q, saved))
  {
    BySpecialIsFilter(Filter(prompts, RolePurposeFn(q)), q.special, saved);
    FilterFilter(prompts, RolePurposeFn(q), SpecialFn(q.special, saved), CategorySpecialFn(q, saved));
  }

  lemma SearchStep(prompts: seq<Prompt>, q: Query, saved: set<int>)
    ensures BySearch(Filter(prompts, CategorySpecialFn(q, saved)), q.searchTerm) == Filter(prompts, MatchFn(q, saved))
  {
    var cs := CategorySpecialFn(q, saved);
    var all := And(cs, SearchFn(q.searchTerm));
    BySearchIsFilter(Filter(prompts, cs), q.searchTerm);
    FilterFilter(prompts, cs, SearchFn(q.searchTerm), all);
    forall x | x in prompts ensures all(x) == MatchFn(q, saved)(x) {
      assert RolePurposeFn(q)(x) == (RoleMatches(q.role, x) && PurposeMatches(q.purpose, x));
      assert cs(x) == (RolePurposeFn(q)(x) && SpecialMatches(q.special, saved, x));
    }
    FilterEquiv(prompts, all, MatchFn(q, saved));
  }

  /**
   * The chain of four filters keeps exactly the prompts that satisfy every
   * active condition, in store order; the result is their stable sort.
   */
  lemma SelectIsSortedMatches(prompts: seq<Prompt>, q: Query, saved: set<int>)
    ensures Select(prompts, q, saved) == SortDesc(Filter(prompts, MatchFn(q, saved)), SortKey(q.sortBy))
  {
    CategoryStep(prompts, q);
    SpecialStep(prompts, q, saved);
    SearchStep(prompts, q, saved);
  }

  /** A prompt is displayed exactly when it is in the store and meets every active condition. */
  lemma SelectMembers(prompts: seq<Prompt>, q: Query, saved: set<int>, x: Prompt)
    ensures x in Select(prompts, q, saved) <==> x in prompts && Matches(q, saved, x)
  {
    var r := Select(prompts, q, saved);
    assert x in r <==> x in multiset(r);
    assert x in prompts <==> x in multiset(prompts);
  }

  /** Displayed prompts with equal sort keys appear in store order. */
  lemma SelectStable(prompts: seq<Prompt>, q: Query, saved: set<int>, k: int)
    ensures Filter(Select(prompts, q, saved), KeyIs(SortKey(q.sortBy), k))
         == Filter(Filter(prompts, MatchFn(q, saved)), KeyIs(SortKey(q.sortBy), k))
  {
    SelectIsSortedMatches(prompts, q, saved);
    SortDescStable(Filter(prompts, MatchFn(q, saved)), SortKey(q.sortBy), k);
  }

  /**
   * The displayed list is the one and only arrangement of the matching
   * prompts that is non-increasing in the sort key and keeps every group of
   * equal keys in store order.
   */
  lemma SelectCharacterized(prompts: seq<Prompt>, q: Query, saved: set<int>, r: seq<Prompt>)
    ensures r == Select(prompts, q, saved) <==>
            && NonIncreasing(r, SortKey(q.sortBy))
            && forall k :: Filter(r, KeyIs(SortKey(q.sortBy), k))
                        == Filter(Filter(prompts, MatchFn(q, saved)), KeyIs(SortKey(q.sortBy), k))
  {
    var key, m := SortKey(q.sortBy), Filter(prompts, MatchFn(q, saved));
    if r == Select(prompts, q, saved) {
      forall k ensures Filter(r, KeyIs(key, k)) == Filter(m, KeyIs(key, k)) {
        SelectStable(prompts, q, saved, k);
      }
    }
    if NonIncreasing(r, key) && forall k :: Filter(r, KeyIs(key, k)) == Filter(m, KeyIs(key, k)) {
      StableSortUnique(m, r, key);
      SelectIsSortedMatches(prompts, q, saved);
    }
  }

  /**
   * `q2` keeps every filter that `q` has switched on and may switch on more;
   * the sort key is free to differ.
   */
  ghost predicate Narrows(q: Query, q2: Query)
  {
    && (q.role.OnlyRole? ==> q2.role == q.role)
    && (q.purpose.OnlyPurpose? ==> q2.purpose == q.purpose)
    && (q.special.Some? ==> q2.special == q.special)
    && (q.searchTerm != "" ==> q2.searchTerm == q.searchTerm)
  }

  /** Switching on another filter never adds a prompt to the list. */
  lemma NarrowingShrinks(prompts: seq<Prompt>, q: Query, q2: Query, saved: set<int>)
    requires Narrows(q, q2)
    ensures multiset(Select(prompts, q2, saved)) <= multiset(Select(prompts, q, saved))
    ensures |Select(prompts, q2, saved)| <= |Select(prompts, q, saved)|
  {
    SelectIsSortedMatches(prompts, q, saved);
    SelectIsSortedMatches(prompts, q2, saved);
    forall x ensures MatchFn(q2, saved)(x) ==> MatchFn(q, saved)(x) {
      NarrowsImplies(q, q2, saved, x);
    }
    FilterStronger(prompts, MatchFn(q, saved), MatchFn(q2, saved));
  }

  lemma NarrowsImplies(q: Query, q2: Query, saved: set<int>, x: Prompt)
    requires Narrows(q, q2)
    ensures Matches(q2, saved, x) ==> Matches(q, saved, x)
  {
  }

  /**
   * The viewer's saved set reaches the engine only through the "saved"
   * special filter: in particular it never changes the sort order.
   */
  lemma SavedSetOnlyFilters(prompts: seq<Prompt>, q: Query, saved1: set<int>, saved2: set<int>)
    requires q.special != Some(Saved)
    ensures Select(prompts, q, saved1) == Select(prompts, q, saved2)
  {
  }

  /** The search depends on the term only through its lower-cased form. */
  lemma SearchCaseInsensitive(prompts: seq<Prompt>, q: Query, term: string, saved: set<int>)
    requires Lower(term) == Lower(q.searchTerm)
    ensures Select(prompts, q.(searchTerm := term), saved) == Select(prompts, q, saved)
  {
    var q2 := q.(searchTerm := term);
    assert |term| == |Lower(term)| && |q.searchTerm| == |Lower(q.searchTerm)|;
    assert term == "" <==> q.searchTerm == "";
    SelectIsSortedMatches(prompts, q, saved);
    SelectIsSortedMatches(prompts, q2, saved);
    FilterEquiv(prompts, MatchFn(q2, saved), MatchFn(q, saved));
  }
}
