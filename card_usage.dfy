/** The landing page's card-usage chart (main.js): the id-to-name index of the
    card list, the per-card tally over the sixteen card slots of each battle,
    the trophy-range arenas a click selects battles by, and the highest-winrate
    card of the summary figures. */
module CardUsage {
  import opened JsValues
  import opened Collections

  // ---------- rows ----------

  /** A row of the battle log, column name to cell text. */
  datatype Battle = Battle(columns: map<string, string>)

  /** A cell of a battle row; a column the row lacks reads as `undefined`,
      which the tally treats like the empty string. */
  function Column(b: Battle, key: string): string {
    if key in b.columns then b.columns[key] else ""
  }

  function WinnerId(b: Battle, i: nat): string {
    Column(b, "winner.card" + NaturalString(i) + ".id")
  }

  function LoserId(b: Battle, i: nat): string {
    Column(b, "loser.card" + NaturalString(i) + ".id")
  }

  /** The ids read from slots 1..n, winner before loser in each slot. */
  function SlotsUpTo(b: Battle, n: nat): (r: seq<string>)
    ensures |r| == 2 * n
  {
    if n == 0 then [] else SlotsUpTo(b, n - 1) + [WinnerId(b, n), LoserId(b, n)]
  }

  /** Position 2k of the ids is the winner's card of slot k + 1, position
      2k + 1 the loser's card of that slot. */
  lemma {:induction false} SlotsUpToColumns(b: Battle, n: nat)
    ensures forall j :: 0 <= j < 2 * n ==>
              SlotsUpTo(b, n)[j] == if j % 2 == 0 then WinnerId(b, j / 2 + 1) else LoserId(b, j / 2 + 1)
  {
    if n > 0 {
      SlotsUpToColumns(b, n - 1);
    }
  }

  /** All sixteen card ids of one battle, in the order they are tallied. */
  function SlotIds(b: Battle): seq<string> {
    SlotsUpTo(b, 8)
  }

  /** Every card id of the battles, battle after battle. */
  function AllSlotIds(battles: seq<Battle>): seq<string> {
    if battles == [] then []
    else AllSlotIds(battles[..|battles| - 1]) + SlotIds(battles[|battles| - 1])
  }

  // ---------- the tally ----------

  /** `add(id)`: an empty id is skipped, any other has its count raised by one. */
  function Add(counts: map<string, nat>, id: string): map<string, nat> {
    if id == "" then counts
    else counts[id := (if id in counts then counts[id] else 0) + 1]
  }

  /** The counts after adding each of `ids` in turn. */
  function Tally(ids: seq<string>): map<string, nat> {
    if ids == [] then map[] else Add(Tally(ids[..|ids| - 1]), ids[|ids| - 1])
  }

  /** The tally holds exactly the non-empty ids, each with its number of occurrences. */
  lemma {:induction false} TallyCounts(ids: seq<string>)
    ensures forall id :: id in Tally(ids) <==> id != "" && id in ids
    ensures forall id :: id in Tally(ids) ==> Tally(ids)[id] == multiset(ids)[id]
  {
    if ids != [] {
      var n := |ids|;
      var front := ids[..n - 1];
      TallyCounts(front);
      assert ids == front + [ids[n - 1]];
      forall id ensures id in Tally(ids) <==> id != "" && id in ids {
      }
      forall id | id in Tally(ids) ensures Tally(ids)[id] == multiset(ids)[id] {
        assert multiset(ids) == multiset(front) + multiset{ids[n - 1]};
        if id !in Tally(front) {
          assert id !in front;
        }
      }
    }
  }

  /** One bar of the usage chart. */
  datatype CardCount = CardCount(id: string, name: string, count: nat)

  function CountId(c: CardCount): string {
    c.id
  }

  function CountOf(c: CardCount): int {
    c.count
  }

  /** `cardNameById[id] || "Unknown"`: an unmapped id and an empty name both
      show as "Unknown". */
  function DisplayName(nameById: map<string, string>, id: string): (r: string)
    ensures r == "Unknown" <==> id !in nameById || nameById[id] == "" || nameById[id] == "Unknown"
    ensures r != "Unknown" ==> id in nameById && r == nameById[id]
  {
    if id in nameById && nameById[id] != "" then nameById[id] else "Unknown"
  }

  /** `computeCardCounts(filteredBattles)`: one bar per distinct non-empty card
      id of the battles, counting its occurrences over the sixteen slots, named
      through the index, ordered by count, most first. The order of ids with
      equal counts follows the object's key order, which is left open here. */
  method ComputeCardCounts(battles: seq<Battle>, nameById: map<string, string>) returns (result: seq<CardCount>)
    ensures forall c :: c in result ==>
              && c.id != "" && c.id in AllSlotIds(battles)
              && c.count == multiset(AllSlotIds(battles))[c.id]
              && c.name == DisplayName(nameById, c.id)
    ensures forall id :: id != "" && id in AllSlotIds(battles) ==> exists c :: c in result && c.id == id
    ensures DistinctKeys(result, CountId)
    ensures SortedDesc(result, CountOf)
  {
    var counts := TallyBattles(battles);
    var bars := CountsToBars(counts, nameById);
    result := SortDesc(bars, CountOf);
    SortedBarsCount(AllSlotIds(battles), nameById, bars, result);
  }

  /** Bars made from the tally of `ids`, in any order, count the ids' occurrences. */
  lemma SortedBarsCount(ids: seq<string>, nameById: map<string, string>, bars: seq<CardCount>, result: seq<CardCount>)
    requires forall c :: c in bars ==> BarOf(Tally(ids), nameById, c)
    requires forall id :: id in Tally(ids) ==> exists c :: c in bars && c.id == id
    requires DistinctKeys(bars, CountId)
    requires multiset(result) == multiset(bars)
    ensures forall c :: c in result ==>
              c.id != "" && c.id in ids && c.count == multiset(ids)[c.id] && c.name == DisplayName(nameById, c.id)
    ensures forall id :: id != "" && id in ids ==> exists c :: c in result && c.id == id
    ensures DistinctKeys(result, CountId)
  {
    TallyCounts(ids);
    PermutationKeepsDistinctKeys(bars, result, CountId);
    forall id | id != "" && id in ids ensures exists c :: c in result && c.id == id {
      var c :| c in bars && c.id == id;
      assert multiset(result)[c] == multiset(bars)[c];
    }
    forall c | c in result
      ensures c in bars
    {
      assert multiset(result)[c] == multiset(bars)[c];
    }
  }

  /** The `forEach` over the battles: `add` on each row's sixteen slot ids. */
  method TallyBattles(battles: seq<Battle>) returns (counts: map<string, nat>)
    ensures counts == Tally(AllSlotIds(battles))
  {
    counts := map[];
    var b := 0;
    while b < |battles|
      invariant 0 <= b <= |battles|
      invariant counts == Tally(AllSlotIds(battles[..b]))
    {
      counts := TallyRow(AllSlotIds(battles[..b]), counts, battles[b]);
      AllSlotIdsStep(battles, b);
      b := b + 1;
    }
    assert battles[..b] == battles;
  }

  /** The `for` loop over one row's slots 1..8: winner id, then loser id. */
  method TallyRow(ghost before: seq<string>, counts: map<string, nat>, row: Battle) returns (updated: map<string, nat>)
    requires counts == Tally(before)
    ensures updated == Tally(before + SlotsUpTo(row, 8))
  {
    updated := counts;
    var i := 1;
    assert before + SlotsUpTo(row, 0) == before;
    while i <= 8
      invariant 1 <= i <= 9
      invariant updated == Tally(before + SlotsUpTo(row, i - 1))
    {
      TallySlot(before, row, i);
      updated := Add(updated, WinnerId(row, i));
      updated := Add(updated, LoserId(row, i));
      i := i + 1;
    }
  }

  /** The ids of the first b + 1 battles are those of the first b, then battle b's. */
  lemma AllSlotIdsStep(battles: seq<Battle>, b: nat)
    requires b < |battles|
    ensures AllSlotIds(battles[..b + 1]) == AllSlotIds(battles[..b]) + SlotsUpTo(battles[b], 8)
  {
    assert battles[..b + 1][..b] == battles[..b];
  }

  /** `Object.keys(counts).map(...)`: one bar per key, in an order left open. */
  method CountsToBars(counts: map<string, nat>, nameById: map<string, string>) returns (bars: seq<CardCount>)
    ensures forall c :: c in bars ==> BarOf(counts, nameById, c)
    ensures forall id :: id in counts ==> exists c :: c in bars && c.id == id
    ensures DistinctKeys(bars, CountId)
  {
    bars := [];
    var remaining := counts.Keys;
    while remaining != {}
      invariant remaining <= counts.Keys
      invariant forall c :: c in bars ==> c.id !in remaining && BarOf(counts, nameById, c)
      invariant forall id :: id in counts && id !in remaining ==> exists c :: c in bars && c.id == id
      invariant DistinctKeys(bars, CountId)
      decreases |remaining|
    {
      var id :| id in remaining;
      var bar := CardCount(id, DisplayName(nameById, id), counts[id]);
      DistinctKeysSnoc(bars, bar);
      bars := bars + [bar];
      remaining := remaining - {id};
    }
  }

  /** A bar carries its id's count and display name. */
  ghost predicate BarOf(counts: map<string, nat>, nameById: map<string, string>, c: CardCount) {
    c.id in counts && c.count == counts[c.id] && c.name == DisplayName(nameById, c.id)
  }

  /** Tallying slot i of a row adds its winner id, then its loser id. */
  lemma TallySlot(before: seq<string>, row: Battle, i: nat)
    requires i >= 1
    ensures Tally(before + SlotsUpTo(row, i))
            == Add(Add(Tally(before + SlotsUpTo(row, i - 1)), WinnerId(row, i)), LoserId(row, i))
  {
    var ids := before + SlotsUpTo(row, i - 1);
    var ids' := ids + [WinnerId(row, i)];
    assert before + SlotsUpTo(row, i) == ids' + [LoserId(row, i)];
    TallySnoc(ids', LoserId(row, i));
    TallySnoc(ids, WinnerId(row, i));
  }

  lemma TallySnoc(ids: seq<string>, id: string)
    ensures Tally(ids + [id]) == Add(Tally(ids), id)
  {
    assert (ids + [id])[..|ids|] == ids;
  }

  /** A bar whose id is new keeps the bars' ids distinct. */
  lemma DistinctKeysSnoc(bars: seq<CardCount>, bar: CardCount)
    requires DistinctKeys(bars, CountId)
    requires forall c :: c in bars ==> c.id != bar.id
    ensures DistinctKeys(bars + [bar], CountId)
  {
    var s := bars + [bar];
    forall i, j | 0 <= i < j < |s| ensures CountId(s[i]) != CountId(s[j]) {
      assert s[i] == bars[i];
      if j == |bars| {
        assert s[i] in bars;
      } else {
        assert s[j] == bars[j];
      }
    }
  }

  // ---------- the id-to-name index ----------

  /** A row of the card list: the first card's id and name. */
  datatype CardEntry = CardEntry(id: string, name: string)

  function EntryId(e: CardEntry): string {
    e.id
  }

  function EntryName(e: CardEntry): string {
    e.name
  }

  /** Filling `cardNameById` from the card list: every id of the list is a key,
      and an id listed more than once keeps the name of its last row. */
  method CardNameById(cards: seq<CardEntry>) returns (nameById: map<string, string>)
    ensures nameById == IndexBy(cards, EntryId, EntryName)
    ensures forall id :: id in nameById <==> exists j :: 0 <= j < |cards| && cards[j].id == id
    ensures forall id :: id in nameById ==>
              exists j :: 0 <= j < |cards| && cards[j].id == id && nameById[id] == cards[j].name
                          && forall i :: j < i < |cards| ==> cards[i].id != id
  {
    nameById := map[];
    var k := 0;
    while k < |cards|
      invariant 0 <= k <= |cards|
      invariant nameById == IndexBy(cards[..k], EntryId, EntryName)
    {
      assert cards[..k + 1][..k] == cards[..k];
      nameById := nameById[cards[k].id := cards[k].name];
      k := k + 1;
    }
    assert cards[..k] == cards;
    forall id | id in nameById
      ensures exists j :: 0 <= j < |cards| && cards[j].id == id && nameById[id] == cards[j].name
                          && forall i :: j < i < |cards| ==> cards[i].id != id
    {
      IndexByLastWins(cards, EntryId, EntryName, id);
    }
    forall id ensures id in nameById <==> exists j :: 0 <= j < |cards| && cards[j].id == id {
      if id in nameById {
        var j :| 0 <= j < |cards| && EntryId(cards[j]) == id;
      }
    }
  }

  // ---------- trophy arenas ----------

  /** An arena of the journey and its inclusive trophy range. */
  datatype TrophyArena = TrophyArena(name: string, min: int, max: Num)

  const ARENAS: seq<TrophyArena> := [
    TrophyArena("Goblin Stadium", 0, Finite(299)),
    TrophyArena("Bone Pit", 300, Finite(599)),
    TrophyArena("Barbarian Bowl", 600, Finite(999)),
    TrophyArena("P.E.K.K.A's Playhouse", 1000, Finite(1299)),
    TrophyArena("Spell Valley", 1300, Finite(1599)),
    TrophyArena("Builder's Workshop", 1600, Finite(1999)),
    TrophyArena("Royal Arena", 2000, Finite(2299)),
    TrophyArena("Frozen Peak", 2300, Finite(2599)),
    TrophyArena("Jungle Arena", 2600, Finite(2999)),
    TrophyArena("Hog Mountain", 3000, Finite(3399)),
    TrophyArena("Electro Valley", 3400, Finite(3799)),
    TrophyArena("Spooky Town", 3800, Finite(4199)),
    TrophyArena("Rascal's Hideout", 4200, Finite(4599)),
    TrophyArena("Serenity Peak", 4600, Finite(4999)),
    TrophyArena("Miner's Mine", 5000, Finite(5499)),
    TrophyArena("Legendary", 5500, PosInf)
  ]

  /** `+row["winner.startingTrophies"]`: a missing column is NaN, a cell is read
      as `Number` reads a string. */
  function Trophies(b: Battle): Num {
    var key := "winner.startingTrophies";
    if key in b.columns then ParseNumber(b.columns[key]) else NaN
  }

  /** `t >= min && t <= max`. */
  predicate InRange(t: Num, arena: TrophyArena) {
    NumLessEq(Finite(arena.min), t) && NumLessEq(t, arena.max)
  }

  function InArenaRange(arena: TrophyArena): Battle -> bool {
    (b: Battle) => InRange(Trophies(b), arena)
  }

  /** The battles a click on an arena selects. */
  function BattlesInArena(battles: seq<Battle>, arena: TrophyArena): seq<Battle> {
    Filter(battles, InArenaRange(arena))
  }

  /** A battle is selected exactly when its trophies are a number within the
      range; a non-numeric trophy count selects it for no arena. */
  lemma BattlesInArenaMembership(battles: seq<Battle>, arena: TrophyArena, b: Battle)
    ensures b in BattlesInArena(battles, arena) <==> b in battles && InRange(Trophies(b), arena)
    ensures Trophies(b).NaN? ==> b !in BattlesInArena(battles, arena)
    ensures Trophies(b).Finite? && b in battles && (arena.max.Finite? || arena.max == PosInf) ==>
              (b in BattlesInArena(battles, arena) <==>
                 arena.min <= Trophies(b).v && (arena.max.Finite? ==> Trophies(b).v <= arena.max.v))
  {
    FilterMembership(battles, InArenaRange(arena), b);
    InRangeCases(Trophies(b), arena);
  }

  /** NaN is in no range; a whole number is in a range when it lies between
      the bounds, an infinite upper bound letting every number above the lower one in. */
  lemma InRangeCases(t: Num, arena: TrophyArena)
    ensures t.NaN? ==> !InRange(t, arena)
    ensures t.Finite? && (arena.max.Finite? || arena.max == PosInf) ==>
              (InRange(t, arena) <==> arena.min <= t.v && (arena.max.Finite? ==> t.v <= arena.max.v))
  {
  }

  /** `next` starts right after `arena`'s bounded range ends. */
  predicate Abuts(arena: TrophyArena, next: TrophyArena) {
    arena.max.Finite? && arena.min <= arena.max.v && next.min == arena.max.v + 1
  }

  /** The ranges start at 0, each starts right after the previous one ends, and
      the last is unbounded. */
  ghost predicate Tiles(arenas: seq<TrophyArena>, from: int) {
    && arenas != []
    && arenas[0].min == from
    && (forall i :: 0 <= i < |arenas| - 1 ==> Abuts(arenas[i], arenas[i + 1]))
    && arenas[|arenas| - 1].max == PosInf
  }

  lemma {:induction false} TilesCovers(arenas: seq<TrophyArena>, from: int, t: int)
    requires Tiles(arenas, from) && from <= t
    ensures exists i :: 0 <= i < |arenas| && InRange(Finite(t), arenas[i])
    decreases |arenas|
  {
    if !InRange(Finite(t), arenas[0]) {
      assert |arenas| > 1 && Abuts(arenas[0], arenas[1]);
      var rest := arenas[1..];
      assert Tiles(rest, arenas[0].max.v + 1);
      TilesCovers(rest, arenas[0].max.v + 1, t);
      var i :| 0 <= i < |rest| && InRange(Finite(t), rest[i]);
      assert InRange(Finite(t), arenas[i + 1]);
    }
  }

  lemma {:induction false} TilesDisjoint(arenas: seq<TrophyArena>, from: int, t: int, i: int, j: int)
    requires Tiles(arenas, from)
    requires 0 <= i < j < |arenas|
    ensures !(InRange(Finite(t), arenas[i]) && InRange(Finite(t), arenas[j]))
    decreases |arenas|
  {
    if i == 0 {
      MinsAbove(arenas, from, j);
    } else {
      assert Abuts(arenas[0], arenas[1]);
      TilesDisjoint(arenas[1..], arenas[0].max.v + 1, t, i - 1, j - 1);
    }
  }

  /** Every arena after the first starts above the first one's end. */
  lemma {:induction false} MinsAbove(arenas: seq<TrophyArena>, from: int, j: int)
    requires Tiles(arenas, from)
    requires 0 < j < |arenas|
    ensures arenas[0].max.Finite? && arenas[j].min > arenas[0].max.v
  {
    assert Abuts(arenas[0], arenas[1]) && Abuts(arenas[j - 1], arenas[j]);
    if j > 1 {
      MinsAbove(arenas, from, j - 1);
    }
  }

  lemma ArenasTile()
    ensures Tiles(ARENAS, 0)
  {
    forall i | 0 <= i < |ARENAS| - 1
      ensures Abuts(ARENAS[i], ARENAS[i + 1])
    {
      ArenaAbutsNext(i);
    }
  }

  lemma ArenaAbutsNext(i: nat)
    requires i < |ARENAS| - 1
    ensures Abuts(ARENAS[i], ARENAS[i + 1])
  {
  }

  /** Every non-negative whole trophy count lies in exactly one arena of the journey. */
  lemma ExactlyOneArena(t: nat)
    ensures exists i :: 0 <= i < |ARENAS| && InRange(Finite(t), ARENAS[i])
    ensures forall i, j :: 0 <= i < |ARENAS| && 0 <= j < |ARENAS| && InRange(Finite(t), ARENAS[i]) && InRange(Finite(t), ARENAS[j]) ==> i == j
  {
    ArenasTile();
    TilesCovers(ARENAS, 0, t);
    forall i, j | 0 <= i < |ARENAS| && 0 <= j < |ARENAS| && InRange(Finite(t), ARENAS[i]) && InRange(Finite(t), ARENAS[j])
      ensures i == j
    {
      if i < j {
        TilesDisjoint(ARENAS, 0, t, i, j);
      } else if j < i {
        TilesDisjoint(ARENAS, 0, t, j, i);
      }
    }
  }

  // ---------- summary figures ----------

  /** A card of the summary figures. */
  datatype CardStat = CardStat(card: string, winrate: int, elixir: int)

  const MOCK_DATA: seq<CardStat> := [
    CardStat("Mega Knight", 56, 7),
    CardStat("Hog Rider", 52, 4),
    CardStat("Miner", 54, 3),
    CardStat("Royal Giant", 51, 6),
    CardStat("Firecracker", 49, 3),
    CardStat("Valkyrie", 53, 4)
  ]

  /** `stats.reduce((a, b) => a.winrate > b.winrate ? a : b)`; reducing an
      empty array throws, which is None here. */
  function HighestWinrate(stats: seq<CardStat>): (r: Option<CardStat>)
    ensures r.None? <==> stats == []
  {
    if stats == [] then None
    else if |stats| == 1 then Some(stats[0])
    else
      var a := HighestWinrate(stats[..|stats| - 1]).value;
      var b := stats[|stats| - 1];
      Some(if a.winrate > b.winrate then a else b)
  }

  /** Position i holds a greatest winrate, and every later card's is smaller. */
  ghost predicate LastMaximumAt(stats: seq<CardStat>, i: int) {
    && 0 <= i < |stats|
    && (forall j :: 0 <= j < |stats| ==> stats[j].winrate <= stats[i].winrate)
    && (forall j :: i < j < |stats| ==> stats[j].winrate < stats[i].winrate)
  }

  /** The reduction picks a card with the greatest winrate, and of several
      such cards the last one. */
  lemma {:induction false} HighestWinrateIsLastMaximum(stats: seq<CardStat>)
    requires stats != []
    ensures exists i :: LastMaximumAt(stats, i) && HighestWinrate(stats) == Some(stats[i])
  {
    var n := |stats|;
    if n == 1 {
      assert LastMaximumAt(stats, 0);
    } else {
      var front := stats[..n - 1];
      HighestWinrateIsLastMaximum(front);
      var i :| LastMaximumAt(front, i) && HighestWinrate(front) == Some(front[i]);
      var k := ReduceStep(stats, i);
      assert HighestWinrate(stats) == Some(stats[k]);
    }
  }

  /** One step of the reduction: the running winner is kept only when strictly
      better than the next card. */
  lemma ReduceStep(stats: seq<CardStat>, i: int) returns (k: int)
    requires |stats| > 1 && LastMaximumAt(stats[..|stats| - 1], i)
    ensures LastMaximumAt(stats, k)
    ensures k == (if stats[i].winrate > stats[|stats| - 1].winrate then i else |stats| - 1)
  {
    var n := |stats|;
    assert forall j :: 0 <= j < n - 1 ==> stats[j] == stats[..n - 1][j];
    k := if stats[i].winrate > stats[n - 1].winrate then i else n - 1;
  }

  /** On the page's figures the winner is Mega Knight. */
  lemma MockHighestWinrate()
    ensures HighestWinrate(MOCK_DATA) == Some(MOCK_DATA[0])
    ensures MOCK_DATA[0].card == "Mega Knight"
  {
    HighestWinrateIsLastMaximum(MOCK_DATA);
    var i :| LastMaximumAt(MOCK_DATA, i) && HighestWinrate(MOCK_DATA) == Some(MOCK_DATA[i]);
    assert MOCK_DATA[0].winrate <= MOCK_DATA[i].winrate;
  }
}
