/** The scrolling story (story.js): a slide deck whose current slide is a
    clamped index, with the active flags, the highlighted navigation links and
    the click hint kept in step with it; and the per-arena charts read from the
    story data. */
module Story {
  import opened JsValues
  import opened Collections
  import opened Common

  // ---------- slide navigation ----------

  /** `Math.max(0, Math.min(index, count - 1))`. */
  function Clamp(index: int, count: nat): (r: int)
    requires count > 0
    ensures 0 <= r < count
    ensures 0 <= index < count ==> r == index
    ensures index < 0 ==> r == 0
    ensures index >= count ==> r == count - 1
  {
    var upper := if index < count - 1 then index else count - 1;
    if upper > 0 then upper else 0
  }

  /** The `is-active` flags after toggling each of `count` slides against slide `k`. */
  function OnlyActive(count: nat, k: int): (r: seq<bool>)
    ensures |r| == count
    ensures forall i :: 0 <= i < count ==> (r[i] <==> i == k)
  {
    seq(count, i => i == k)
  }

  function CountTrue(s: seq<bool>): nat {
    if s == [] then 0 else CountTrue(s[..|s| - 1]) + (if s[|s| - 1] then 1 else 0)
  }

  lemma {:induction false} OnlyActiveCount(count: nat, k: int)
    ensures CountTrue(OnlyActive(count, k)) == if 0 <= k < count then 1 else 0
  {
    if count > 0 {
      OnlyActiveCount(count - 1, k);
      assert OnlyActive(count, k)[..count - 1] == OnlyActive(count - 1, k);
    }
  }

  /** After toggling, exactly one slide is active: the one at `k`. */
  lemma ExactlyOneActive(count: nat, k: int)
    requires 0 <= k < count
    ensures CountTrue(OnlyActive(count, k)) == 1
    ensures OnlyActive(count, k)[k]
  {
    OnlyActiveCount(count, k);
  }

  /** The `nav-link--active` flags: a link is highlighted when its target
      parses to the current index; a target that does not parse never matches. */
  function NavActive(targets: seq<string>, current: int): (r: seq<bool>)
    ensures |r| == |targets|
    ensures forall j :: 0 <= j < |targets| ==> (r[j] <==> ParseIntDecimal(targets[j]) == Some(current))
  {
    seq(|targets|, j requires 0 <= j < |targets| => ParseIntDecimal(targets[j]) == Some(current))
  }

  /** A link whose target is the decimal spelling of a slide index is
      highlighted exactly when that index is the current one. */
  lemma NavActiveOfSpelledTarget(targets: seq<string>, current: int, j: int, n: int)
    requires 0 <= j < |targets| && targets[j] == DecimalString(n)
    ensures NavActive(targets, current)[j] <==> n == current
  {
    ParseIntReadsDecimalString(n);
  }

  /** The deck's state: the slides' active flags, the navigation links' targets
      and highlight flags, the current index and whether the click hint is hidden. */
  class SlideDeck {
    var slideCount: nat
    var active: seq<bool>
    var navTargets: seq<string>
    var navActive: seq<bool>
    var currentIndex: int
    var hintHidden: bool

    /** One flag per slide and per link; without slides the index is 0. */
    ghost predicate Shaped()
      reads this
    {
      && |active| == slideCount
      && |navActive| == |navTargets|
      && (slideCount == 0 ==> currentIndex == 0)
    }

    /** With slides present, the index is in range, only its slide is active,
        the links that target it are highlighted and the hint is hidden exactly
        on the last slide. */
    ghost predicate Valid()
      reads this
    {
      && Shaped()
      && (slideCount > 0 ==>
            && 0 <= currentIndex < slideCount
            && active == OnlyActive(slideCount, currentIndex)
            && navActive == NavActive(navTargets, currentIndex)
            && hintHidden == (currentIndex >= slideCount - 1))
    }

    /** `initSlides()`: the first slide starts active. Without slides nothing is
        toggled and the index stays 0. */
    constructor (count: nat, targets: seq<string>)
      ensures Valid()
      ensures slideCount == count && navTargets == targets && currentIndex == 0
      ensures count > 0 ==> CountTrue(active) == 1 && active[0]
      ensures count == 0 ==> active == [] && !hintHidden && navActive == seq(|targets|, j => false)
    {
      slideCount := count;
      navTargets := targets;
      currentIndex := 0;
      active := seq(count, i => false);
      navActive := seq(|targets|, j => false);
      hintHidden := false;
      new;
      if count > 0 {
        ShowSlide(0);
      }
    }

    /** `showSlide(index)`. */
    method ShowSlide(index: int)
      requires Shaped()
      modifies this
      ensures Valid()
      ensures slideCount == old(slideCount) && navTargets == old(navTargets)
      ensures old(slideCount) == 0 ==> unchanged(this)
      ensures slideCount > 0 ==> currentIndex == Clamp(index, slideCount)
      ensures slideCount > 0 ==> CountTrue(active) == 1 && active[currentIndex]
      ensures slideCount > 0 ==> (hintHidden <==> currentIndex == slideCount - 1)
    {
      if slideCount == 0 {
        return;
      }
      var clamped := Clamp(index, slideCount);
      var flags: seq<bool> := [];
      var i := 0;
      while i < slideCount
        invariant 0 <= i <= slideCount
        invariant flags == OnlyActive(i, clamped)
      {
        flags := flags + [i == clamped];
        i := i + 1;
      }
      active := flags;
      currentIndex := clamped;
      UpdateNavButtons();
      UpdateClickHint();
      ExactlyOneActive(slideCount, currentIndex);
    }

    /** `updateNavButtons()`: highlight the links whose target is the current index. */
    method UpdateNavButtons()
      modifies this
      ensures navActive == NavActive(navTargets, currentIndex)
      ensures slideCount == old(slideCount) && active == old(active) && navTargets == old(navTargets)
      ensures currentIndex == old(currentIndex) && hintHidden == old(hintHidden)
    {
      var links: seq<bool> := [];
      var j := 0;
      while j < |navTargets|
        invariant 0 <= j <= |navTargets|
        invariant links == NavActive(navTargets[..j], currentIndex)
      {
        assert navTargets[..j + 1][..j] == navTargets[..j];
        links := links + [ParseIntDecimal(navTargets[j]) == Some(currentIndex)];
        j := j + 1;
      }
      assert navTargets[..j] == navTargets;
      navActive := links;
    }

    /** `updateClickHint()`: the hint is hidden from the last slide on. */
    method UpdateClickHint()
      modifies this
      ensures hintHidden == (currentIndex >= slideCount - 1)
      ensures slideCount == old(slideCount) && active == old(active) && navTargets == old(navTargets)
      ensures currentIndex == old(currentIndex) && navActive == old(navActive)
    {
      hintHidden := currentIndex >= slideCount - 1;
    }

    /** `nextSlide()`: advance by one until the last slide. */
    method NextSlide()
      requires Valid()
      modifies this
      ensures Valid()
      ensures slideCount == old(slideCount) && navTargets == old(navTargets)
      ensures old(currentIndex) < old(slideCount) - 1 ==> currentIndex == old(currentIndex) + 1
      ensures old(currentIndex) >= old(slideCount) - 1 ==> unchanged(this)
    {
      if currentIndex < slideCount - 1 {
        ShowSlide(currentIndex + 1);
      }
    }

    /** A navigation link's click: jump to its `data-target-slide`, read with
        `parseInt(..., 10)`; a target that is not a number does nothing. */
    method NavigateTo(target: string)
      requires Valid()
      modifies this
      ensures Valid()
      ensures slideCount == old(slideCount) && navTargets == old(navTargets)
      ensures ParseIntDecimal(target).None? || slideCount == 0 ==> unchanged(this)
      ensures ParseIntDecimal(target).Some? && slideCount > 0 ==>
                currentIndex == Clamp(ParseIntDecimal(target).value, slideCount)
    {
      var idx := ParseIntDecimal(target);
      if idx.Some? {
        ShowSlide(idx.value);
      }
    }
  }

  // ---------- arena charts ----------

  /** The chart containers of the story and the arena each shows. */
  datatype StoryArena = StoryArena(id: string, arenaName: string)

  const STORY_ARENAS: seq<StoryArena> := [
    StoryArena("#chart-spooky-town", "Spooky Town"),
    StoryArena("#chart-rascals-hideout", "Rascal's Hideout"),
    StoryArena("#chart-serenity-peak", "Serenity Peak"),
    StoryArena("#chart-miners-mine", "Miner's Mine"),
    StoryArena("#chart-legendary-arena", "Legendary Arena")
  ]

  /** Each story chart shows a configured arena, in the configured order. */
  lemma StoryArenasConfigured()
    ensures |STORY_ARENAS| == |ARENA_CONFIG|
    ensures forall i :: 0 <= i < |STORY_ARENAS| ==> STORY_ARENAS[i].arenaName == ARENA_CONFIG[i].name
  {
  }

  function InTwoBins(r: StoryRecord): bool {
    r.bin == ToxicTroop || r.bin == CheapSpell
  }

  /** `getArenaData(arenaName)` with the story data passed in (None when it
      has not been built): the arena's records of the two bins. */
  function GetArenaData(storyData: Option<map<string, seq<StoryRecord>>>, arenaName: string): (r: seq<StoryRecord>)
    ensures storyData.None? ==> r == []
    ensures storyData.Some? && arenaName !in storyData.value ==> r == []
    ensures forall x :: x in r ==> x.bin != Other
  {
    match storyData
    case None => []
    case Some(data) =>
      var arenaData := if arenaName in data then data[arenaName] else [];
      Filter(arenaData, InTwoBins)
  }

  /** Otherwise the result is exactly the arena's records of the two bins,
      with their multiplicities and in their stored order. */
  lemma GetArenaDataExact(data: map<string, seq<StoryRecord>>, arenaName: string)
    requires arenaName in data
    ensures GetArenaData(Some(data), arenaName) == Filter(data[arenaName], InTwoBins)
    ensures forall x :: x in GetArenaData(Some(data), arenaName) <==> x in data[arenaName] && x.bin != Other
  {
    forall x ensures x in GetArenaData(Some(data), arenaName) <==> x in data[arenaName] && x.bin != Other {
      FilterMembership(data[arenaName], InTwoBins, x);
    }
  }

  /** On built story data the bin filter removes nothing: every configured
      arena's chart data is its stored list, and an unknown arena has none. */
  lemma GetArenaDataOfBuiltStory(rows: seq<CardRow>, arenaName: string)
    ensures var data := StoryChartData(rows);
            (forall i :: 0 <= i < |ARENA_CONFIG| ==> ARENA_CONFIG[i].name != arenaName) ==> GetArenaData(Some(data), arenaName) == []
    ensures var data := StoryChartData(rows);
            arenaName in data ==> GetArenaData(Some(data), arenaName) == data[arenaName]
  {
    var data := StoryChartData(rows);
    StoryChartDataEntries(rows);
    if arenaName in data {
      var i :| 0 <= i < |ARENA_CONFIG| && ARENA_CONFIG[i].name == arenaName;
      StoryChartDataShown(rows, i);
      GetArenaDataAllBinned(data, arenaName);
    }
  }

  /** When every stored record of the arena is in one of the two bins, the
      arena's data is its stored list. */
  lemma GetArenaDataAllBinned(data: map<string, seq<StoryRecord>>, arenaName: string)
    requires arenaName in data
    requires forall r :: r in data[arenaName] ==> r.bin != Other
    ensures GetArenaData(Some(data), arenaName) == data[arenaName]
  {
    FilterAllPass(data[arenaName], InTwoBins);
  }

  function StoryWins(r: StoryRecord): int {
    r.wins
  }

  function StoryBin(r: StoryRecord): Bin {
    r.bin
  }

  /** What `renderArenaChart` draws from: nothing ("No data available") when the
      arena has no records, otherwise a copy of them ordered by wins, most first. */
  function ArenaChart(storyData: Option<map<string, seq<StoryRecord>>>, arenaName: string): (r: Option<seq<StoryRecord>>)
    ensures r.None? <==> GetArenaData(storyData, arenaName) == []
    ensures r.Some? ==> multiset(r.value) == multiset(GetArenaData(storyData, arenaName))
    ensures r.Some? ==> SortedDesc(r.value, StoryWins)
  {
    var data := GetArenaData(storyData, arenaName);
    if data == [] then None else Some(SortDesc(data, StoryWins))
  }

  /** Bars with equal wins keep the order of the story data, and the bin means
      are those of the unsorted records. */
  lemma ArenaChartStableAndMeans(storyData: Option<map<string, seq<StoryRecord>>>, arenaName: string, bin: Bin)
    requires ArenaChart(storyData, arenaName).Some?
    ensures var sorted := ArenaChart(storyData, arenaName).value;
            var data := GetArenaData(storyData, arenaName);
            && (forall k :: Filter(sorted, KeyIs(StoryWins, k)) == Filter(data, KeyIs(StoryWins, k)))
            && BinMean(sorted, StoryBin, StoryWins, bin) == BinMean(data, StoryBin, StoryWins, bin)
  {
    var data := GetArenaData(storyData, arenaName);
    var sorted := ArenaChart(storyData, arenaName).value;
    forall k ensures Filter(sorted, KeyIs(StoryWins, k)) == Filter(data, KeyIs(StoryWins, k)) {
      SortDescStable(data, StoryWins, k);
    }
    BinMeanOrderFree(sorted, data, StoryBin, StoryWins, bin);
  }
}
