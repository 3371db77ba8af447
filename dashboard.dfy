/**
 * The list logic of src/components/Dashboard.tsx: toggling a health filter, the
 * health and search filters over the scanned repositories, and the count line.
 */
module Dashboard {
  import opened Models
  import opened Text
  import FilterBar

  // ---------------------------------------------------------------------------
  // Health filters

  /** `toggleFilter`: a copy of the active set with `health` removed if present and added otherwise. */
  function ToggleFilter(prev: set<RepoHealth>, health: RepoHealth): (next: set<RepoHealth>)
    ensures health in next <==> health !in prev
    ensures forall h :: h != health ==> (h in next <==> h in prev)
  {
    if health in prev then prev - {health} else prev + {health}
  }

  /** Toggling the same health twice restores the filters. */
  lemma ToggleTwice(prev: set<RepoHealth>, health: RepoHealth)
    ensures ToggleFilter(ToggleFilter(prev, health), health) == prev
  {
  }

  /** Clicking a button flips that button's active flag and no other. */
  lemma ToggleFlipsOneButton(prev: set<RepoHealth>, health: RepoHealth, other: RepoHealth)
    ensures FilterBar.IsActive(ToggleFilter(prev, health), health) == !FilterBar.IsActive(prev, health)
    ensures other != health ==>
      FilterBar.IsActive(ToggleFilter(prev, health), other) == FilterBar.IsActive(prev, other)
  {
  }

  // ---------------------------------------------------------------------------
  // Array.prototype.filter and subsequences

  /** `xs.filter(keep)`: the elements that pass, in their original order. */
  function Filter(xs: seq<RepoInfo>, keep: RepoInfo -> bool): (r: seq<RepoInfo>)
    ensures |r| <= |xs|
    ensures forall x :: x in r <==> x in xs && keep(x)
    ensures forall x :: multiset(r)[x] == if keep(x) then multiset(xs)[x] else 0
  {
    if xs == [] then []
    else
      var rest := Filter(xs[1..], keep);
      assert xs == [xs[0]] + xs[1..];
      assert multiset(xs) == multiset{xs[0]} + multiset(xs[1..]);
      (if keep(xs[0]) then [xs[0]] else []) + rest
  }

  /** `xs` can be obtained from `ys` by deleting elements. */
  predicate IsSubsequence(xs: seq<RepoInfo>, ys: seq<RepoInfo>)
    decreases |ys|
  {
    || xs == []
    || (ys != [] && ((xs[0] == ys[0] && IsSubsequence(xs[1..], ys[1..])) || IsSubsequence(xs, ys[1..])))
  }

  /** Filtering keeps the order of what it keeps. */
  lemma {:induction false} FilterIsSubsequence(xs: seq<RepoInfo>, keep: RepoInfo -> bool)
    ensures IsSubsequence(Filter(xs, keep), xs)
  {
    if xs != [] {
      FilterIsSubsequence(xs[1..], keep);
      var rest := Filter(xs[1..], keep);
      if keep(xs[0]) {
        assert Filter(xs, keep) == [xs[0]] + rest;
        assert Filter(xs, keep)[1..] == rest;
      } else {
        assert Filter(xs, keep) == rest;
      }
    }
  }

  /** Filtering with a test every element passes changes nothing. */
  lemma {:induction false} FilterKeepsAll(xs: seq<RepoInfo>, keep: RepoInfo -> bool)
    requires forall i :: 0 <= i < |xs| ==> keep(xs[i])
    ensures Filter(xs, keep) == xs
  {
    if xs != [] {
      FilterKeepsAll(xs[1..], keep);
    }
  }

  /** Two filters in a row are one filter with the conjunction of the tests. */
  lemma {:induction false} FilterTwice(xs: seq<RepoInfo>, p: RepoInfo -> bool, q: RepoInfo -> bool, both: RepoInfo -> bool)
    requires forall x :: both(x) == (p(x) && q(x))
    ensures Filter(Filter(xs, p), q) == Filter(xs, both)
  {
    if xs != [] {
      FilterTwice(xs[1..], p, q, both);
      var rest := Filter(xs[1..], p);
      if p(xs[0]) {
        assert Filter(xs, p) == [xs[0]] + rest;
        assert Filter(xs, p)[1..] == rest;
        assert Filter(Filter(xs, p), q) == (if q(xs[0]) then [xs[0]] else []) + Filter(rest, q);
      } else {
        assert Filter(xs, p) == rest;
      }
    }
  }

  // ---------------------------------------------------------------------------
  // filteredRepos

  /** The search text as the filter uses it: trimmed and lower-cased. */
  function Query(search: string): (query: string)
    ensures query == [] <==> Trim(search) == []
    ensures Lower(query) == query
  {
    LowerIdempotent(Trim(search));
    Lower(Trim(search))
  }

  /** The query occurs in the lower-cased name, branch or path. */
  predicate MatchesQuery(r: RepoInfo, query: string)
  {
    Includes(Lower(r.name), query) || Includes(Lower(r.branch), query) || Includes(Lower(r.path), query)
  }

  /** Whether a repository stays in the list: its health passes the filters and its text matches the query. */
  predicate Kept(r: RepoInfo, activeFilters: set<RepoHealth>, query: string)
  {
    && (activeFilters == {} || r.health in activeFilters)
    && (query == [] || MatchesQuery(r, query))
  }

  /** The test of the health pass, `activeFilters.has(r.health)`. */
  function HealthTest(activeFilters: set<RepoHealth>): RepoInfo -> bool
  {
    (r: RepoInfo) => r.health in activeFilters
  }

  /** The test of the search pass. */
  function QueryTest(query: string): RepoInfo -> bool
  {
    (r: RepoInfo) => MatchesQuery(r, query)
  }

  /** The two passes as one test. */
  function KeptTest(activeFilters: set<RepoHealth>, query: string): RepoInfo -> bool
  {
    (r: RepoInfo) => Kept(r, activeFilters, query)
  }

  /** The repositories `filteredRepos` shows for the given filters and search text. */
  function FilteredRepos(repos: seq<RepoInfo>, activeFilters: set<RepoHealth>, search: string): (result: seq<RepoInfo>)
    ensures result == Filter(repos, KeptTest(activeFilters, Query(search)))
    ensures IsSubsequence(result, repos)
    ensures forall r :: r in result <==> r in repos && Kept(r, activeFilters, Query(search))
    ensures forall r :: multiset(result)[r] == if Kept(r, activeFilters, Query(search)) then multiset(repos)[r] else 0
    ensures activeFilters == {} && Trim(search) == [] ==> result == repos
  {
    var byHealth := if |activeFilters| > 0 then Filter(repos, HealthTest(activeFilters)) else repos;
    var query := Query(search);
    var result := if query != [] then Filter(byHealth, QueryTest(query)) else byHealth;
    SinglePass(repos, activeFilters, query);
    FilterIsSubsequence(repos, KeptTest(activeFilters, query));
    result
  }

  /** The two filter passes of `filteredRepos` keep what one pass with `Kept` keeps, in the same order. */
  lemma SinglePass(repos: seq<RepoInfo>, activeFilters: set<RepoHealth>, query: string)
    ensures
      var byHealth := if |activeFilters| > 0 then Filter(repos, HealthTest(activeFilters)) else repos;
      var result := if query != [] then Filter(byHealth, QueryTest(query)) else byHealth;
      result == Filter(repos, KeptTest(activeFilters, query))
  {
    var health, text, kept := HealthTest(activeFilters), QueryTest(query), KeptTest(activeFilters, query);
    if |activeFilters| > 0 && query != [] {
      FilterTwice(repos, health, text, kept);
    } else if |activeFilters| > 0 {
      FilterSame(repos, health, kept);
    } else if query != [] {
      FilterSame(repos, text, kept);
    } else {
      FilterKeepsAll(repos, kept);
    }
  }

  /** Filters with tests that agree everywhere keep the same elements. */
  lemma {:induction false} FilterSame(xs: seq<RepoInfo>, p: RepoInfo -> bool, q: RepoInfo -> bool)
    requires forall x :: p(x) == q(x)
    ensures Filter(xs, p) == Filter(xs, q)
  {
    if xs != [] {
      FilterSame(xs[1..], p, q);
    }
  }

  /** A search that matches a repository's lower-cased field, word for word, keeps it when its health passes. */
  lemma SearchFindsItsOwnName(r: RepoInfo, repos: seq<RepoInfo>, activeFilters: set<RepoHealth>, search: string)
    requires r in repos
    requires activeFilters == {} || r.health in activeFilters
    requires Query(search) == Lower(r.name)
    ensures r in FilteredRepos(repos, activeFilters, search)
  {
    assert MatchAt(Lower(r.name), Query(search), 0);
  }

  // ---------------------------------------------------------------------------
  // The count line

  /** The line above the list, for `total` scanned and `shown` listed repositories. */
  function CountLine(total: nat, shown: nat): (s: string)
    ensures s == "No repositories scanned yet" <==> total == 0
    ensures total > 0 && shown == total ==> s == Decimal(total) + " repositories"
    ensures total > 0 && shown != total ==> s == Decimal(shown) + " of " + Decimal(total) + " repositories"
  {
    if total == 0 then "No repositories scanned yet"
    else
      var s := if shown == total then Decimal(total) + " repositories"
        else Decimal(shown) + " of " + Decimal(total) + " repositories";
      assert s[0] == Decimal(if shown == total then total else shown)[0];
      s
  }

  /** With no filter and a blank search every repository is listed and the line gives only the total; otherwise "k of N" has k below N. */
  lemma CountLineOfFilter(repos: seq<RepoInfo>, activeFilters: set<RepoHealth>, search: string)
    ensures var shown := |FilteredRepos(repos, activeFilters, search)|;
      && shown <= |repos|
      && (|repos| > 0 && activeFilters == {} && Trim(search) == [] ==>
            CountLine(|repos|, shown) == Decimal(|repos|) + " repositories")
  {
    SubsequenceNoLonger(FilteredRepos(repos, activeFilters, search), repos);
  }

  lemma {:induction false} SubsequenceNoLonger(xs: seq<RepoInfo>, ys: seq<RepoInfo>)
    requires IsSubsequence(xs, ys)
    ensures |xs| <= |ys|
    decreases |ys|
  {
    if xs != [] {
      if xs[0] == ys[0] && IsSubsequence(xs[1..], ys[1..]) {
        SubsequenceNoLonger(xs[1..], ys[1..]);
      } else {
        SubsequenceNoLonger(xs, ys[1..]);
      }
    }
  }
}
