/**
 * The counting side of src/components/FilterBar.tsx: the four health options, the
 * per-health tally shown on each button and whether a button is active.
 */
module FilterBar {
  import opened Models

  /** One filter button: the health it selects and the caption it shows. */
  datatype HealthOption = HealthOption(value: RepoHealth, caption: string)

  /** The buttons, in the order they are drawn. */
  const HealthOptions: seq<HealthOption> := [
    HealthOption(Clean, "Clean"),
    HealthOption(Dirty, "Changes"),
    HealthOption(Diverged, "Diverged"),
    HealthOption(Error, "Error")
  ]

  /** Every health has exactly one button. */
  lemma OptionsCoverEveryHealth(h: RepoHealth)
    ensures exists i :: 0 <= i < |HealthOptions| && HealthOptions[i].value == h
    ensures forall i, j :: 0 <= i < j < |HealthOptions| ==> HealthOptions[i].value != HealthOptions[j].value
  {
    match h
    case Clean => assert HealthOptions[0].value == h;
    case Dirty => assert HealthOptions[1].value == h;
    case Diverged => assert HealthOptions[2].value == h;
    case Error => assert HealthOptions[3].value == h;
  }

  /** The number of repositories in `repos` whose health is `h`. */
  function CountOf(repos: seq<RepoInfo>, h: RepoHealth): nat
  {
    if repos == [] then 0
    else CountOf(repos[..|repos| - 1], h) + (if repos[|repos| - 1].health == h then 1 else 0)
  }

  /** `counts.get(h) ?? 0`: the count a button shows, zero for a health no repository has. */
  function Shown(counts: map<RepoHealth, nat>, h: RepoHealth): (n: nat)
    ensures h !in counts ==> n == 0
    ensures h in counts ==> n == counts[h]
  {
    if h in counts then counts[h] else 0
  }

  /** The tally loop: one pass over the repositories, bumping the entry of each one's health. */
  method Tally(repos: seq<RepoInfo>) returns (counts: map<RepoHealth, nat>)
    ensures forall h :: Shown(counts, h) == CountOf(repos, h)
    ensures forall h :: h in counts <==> CountOf(repos, h) > 0
  {
    counts := map[];
    var i := 0;
    while i < |repos|
      invariant 0 <= i <= |repos|
      invariant forall h :: Shown(counts, h) == CountOf(repos[..i], h)
      invariant forall h :: h in counts <==> CountOf(repos[..i], h) > 0
    {
      var h := repos[i].health;
      counts := counts[h := Shown(counts, h) + 1];
      assert repos[..i + 1][..i] == repos[..i];
      i := i + 1;
    }
    assert repos[..i] == repos;
  }

  /** A health that no repository has is counted zero. */
  lemma {:induction false} AbsentCountsZero(repos: seq<RepoInfo>, h: RepoHealth)
    ensures CountOf(repos, h) == 0 <==> forall i :: 0 <= i < |repos| ==> repos[i].health != h
  {
    if repos != [] {
      var init := repos[..|repos| - 1];
      AbsentCountsZero(init, h);
      assert forall i :: 0 <= i < |init| ==> init[i] == repos[i];
    }
  }

  /** The sum of the counts over a list of options. */
  function OptionTotal(repos: seq<RepoInfo>, options: seq<HealthOption>): nat
  {
    if options == [] then 0 else CountOf(repos, options[0].value) + OptionTotal(repos, options[1..])
  }

  /** The options' total is the sum of the four health counts. */
  lemma OptionTotalOfFour(repos: seq<RepoInfo>)
    ensures OptionTotal(repos, HealthOptions)
      == CountOf(repos, Clean) + CountOf(repos, Dirty) + CountOf(repos, Diverged) + CountOf(repos, Error)
  {
    var o := HealthOptions;
    assert OptionTotal(repos, o[3..]) == CountOf(repos, Error) + OptionTotal(repos, o[4..]);
    assert OptionTotal(repos, o[2..]) == CountOf(repos, Diverged) + OptionTotal(repos, o[2..][1..]);
    assert o[2..][1..] == o[3..];
    assert OptionTotal(repos, o[1..]) == CountOf(repos, Dirty) + OptionTotal(repos, o[1..][1..]);
    assert o[1..][1..] == o[2..];
  }

  /** Every repository has exactly one of the four healths. */
  lemma {:induction false} FourCountsSum(repos: seq<RepoInfo>)
    ensures CountOf(repos, Clean) + CountOf(repos, Dirty) + CountOf(repos, Diverged) + CountOf(repos, Error) == |repos|
  {
    if repos != [] {
      FourCountsSum(repos[..|repos| - 1]);
    }
  }

  /** Because the four options cover every health once, their counts add up to the number of repositories. */
  lemma ShownCountsSum(repos: seq<RepoInfo>)
    ensures OptionTotal(repos, HealthOptions) == |repos|
  {
    OptionTotalOfFour(repos);
    FourCountsSum(repos);
  }

  /** A button is drawn active exactly when its health is one of the active filters. */
  function IsActive(activeFilters: set<RepoHealth>, h: RepoHealth): (active: bool)
    ensures active <==> h in activeFilters
  {
    h in activeFilters
  }
}
