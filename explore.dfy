/** The exploration playground (explore.js): two user-editable bins of card
    names, the search with its AND-composed filters and wins ordering, and the
    bar-chart projection of the bins for the selected arena. Unlike the story
    layer, the explorer matches card names exactly, with their case. */
module Explore {
  import opened JsValues
  import opened Collections
  import opened Common

  // ---------- the two bins ----------

  /** The contents of the two bins, each an insertion-ordered set of names. */
  datatype Bins = Bins(toxic: seq<string>, spell: seq<string>)

  /** Neither bin repeats a name and no name is in both. */
  predicate BinsValid(b: Bins) {
    NoDup(b.toxic) && NoDup(b.spell) && forall n :: n in b.toxic ==> n !in b.spell
  }

  /** `addToBin(binKey, cardName)`: move the name into the chosen bin, taking it
      out of the other; an empty name or an unknown key changes nothing. */
  function AddedToBin(b: Bins, binKey: string, cardName: string): (r: Bins)
    ensures cardName != "" && binKey == "toxic" ==> cardName in r.toxic && cardName !in r.spell
    ensures cardName != "" && binKey == "spell" ==> cardName in r.spell && cardName !in r.toxic
    ensures cardName == "" || (binKey != "toxic" && binKey != "spell") ==> r == b
    ensures forall n :: n != cardName ==> (n in r.toxic <==> n in b.toxic) && (n in r.spell <==> n in b.spell)
    ensures BinsValid(b) ==> BinsValid(r)
  {
    if cardName == "" then b
    else if binKey == "toxic" then Bins(SetAdd(b.toxic, cardName), SetDelete(b.spell, cardName))
    else if binKey == "spell" then Bins(SetDelete(b.toxic, cardName), SetAdd(b.spell, cardName))
    else b
  }

  /** Adding the same name to the same bin twice is the same as adding it once. */
  lemma AddToBinIdempotent(b: Bins, binKey: string, cardName: string)
    ensures AddedToBin(AddedToBin(b, binKey, cardName), binKey, cardName) == AddedToBin(b, binKey, cardName)
  {
    var once := AddedToBin(b, binKey, cardName);
    if cardName != "" && binKey == "toxic" {
      SetDeleteAbsent(once.spell, cardName);
    } else if cardName != "" && binKey == "spell" {
      SetDeleteAbsent(once.toxic, cardName);
    }
  }

  /** The toxic and cheap-spell names among the rows, each in order of first appearance. */
  function InferredBins(cards: seq<CardRow>): Bins {
    if cards == [] then Bins([], [])
    else
      var b := InferredBins(cards[..|cards| - 1]);
      var row := cards[|cards| - 1];
      if row.bin == Some(ToxicTroop) then Bins(SetAdd(b.toxic, row.cardName), b.spell)
      else if row.bin == Some(CheapSpell) then Bins(b.toxic, SetAdd(b.spell, row.cardName))
      else b
  }

  predicate TaggedIn(cards: seq<CardRow>, name: string, bin: Bin) {
    exists i :: 0 <= i < |cards| && cards[i].cardName == name && cards[i].bin == Some(bin)
  }

  /** The inferred bins hold exactly the names of the rows tagged with each bin,
      without repetition. */
  lemma {:induction false} InferredBinsExact(cards: seq<CardRow>)
    ensures forall n :: n in InferredBins(cards).toxic <==> TaggedIn(cards, n, ToxicTroop)
    ensures forall n :: n in InferredBins(cards).spell <==> TaggedIn(cards, n, CheapSpell)
    ensures NoDup(InferredBins(cards).toxic) && NoDup(InferredBins(cards).spell)
  {
    if cards != [] {
      var front := cards[..|cards| - 1];
      InferredBinsExact(front);
      forall n, bin | TaggedIn(front, n, bin) ensures TaggedIn(cards, n, bin) {
        var i :| 0 <= i < |front| && front[i].cardName == n && front[i].bin == Some(bin);
        assert cards[i] == front[i];
      }
      forall n, bin | TaggedIn(cards, n, bin) && !TaggedIn(front, n, bin)
        ensures cards[|cards| - 1].cardName == n && cards[|cards| - 1].bin == Some(bin)
      {
        var i :| 0 <= i < |cards| && cards[i].cardName == n && cards[i].bin == Some(bin);
      }
    }
  }

  /** When every row carries the bin of its own name, the inferred bins are
      disjoint: a name cannot be tagged both ways. */
  lemma InferredBinsValid(cards: seq<CardRow>)
    requires BinsAnnotated(cards)
    ensures BinsValid(InferredBins(cards))
  {
    InferredBinsExact(cards);
    forall n | n in InferredBins(cards).toxic ensures n !in InferredBins(cards).spell {
      var i :| 0 <= i < |cards| && cards[i].cardName == n && cards[i].bin == Some(ToxicTroop);
      assert cards[i] in cards;
    }
  }

  // ---------- search ----------

  /** The values of the search box and the three filter menus; "" means "any". */
  datatype Query = Query(search: string, elixir: string, rarity: string, cardType: string)

  /** `Number(a) === Number(b)`: NaN equals nothing. */
  predicate StrictEqual(a: Num, b: Num) {
    a == b && !a.NaN?
  }

  /** The search box's text, lower-cased. */
  function SearchTerm(q: Query): string {
    ToLower(q.search)
  }

  /** The row has wins in the arena. */
  predicate HasWins(arena: string, row: CardRow) {
    WinsIn(row, arena) > 0
  }

  /** The lower-cased term occurs in the lower-cased name, type or rarity. */
  predicate MentionsTerm(term: string, row: CardRow) {
    Contains(ToLower(row.cardName), term) || Contains(ToLower(row.cardType), term)
    || Contains(ToLower(row.rarity), term)
  }

  /** `Number(row.elixir) === Number(elixirFilter)`. */
  predicate CostsElixir(elixirFilter: string, row: CardRow) {
    StrictEqual(ToNumber(row.elixir), ParseNumber(elixirFilter))
  }

  /** What one row must satisfy to be a search result: every active filter, and
      positive wins in the selected arena when one is selected. */
  predicate Passes(arena: string, q: Query, row: CardRow) {
    var term := SearchTerm(q);
    && (arena == "" || HasWins(arena, row))
    && (term == "" || MentionsTerm(term, row))
    && (q.elixir == "" || CostsElixir(q.elixir, row))
    && (q.rarity == "" || row.rarity == q.rarity)
    && (q.cardType == "" || row.cardType == q.cardType)
  }

  function PassesFn(arena: string, q: Query): CardRow -> bool {
    (row: CardRow) => Passes(arena, q, row)
  }

  function InArena(arena: string): CardRow -> bool {
    (row: CardRow) => HasWins(arena, row)
  }

  function MatchesTerm(term: string): CardRow -> bool {
    (row: CardRow) => MentionsTerm(term, row)
  }

  function HasElixir(elixirFilter: string): CardRow -> bool {
    (row: CardRow) => CostsElixir(elixirFilter, row)
  }

  function HasRarity(rarity: string): CardRow -> bool {
    (row: CardRow) => row.rarity == rarity
  }

  function HasType(cardType: string): CardRow -> bool {
    (row: CardRow) => row.cardType == cardType
  }

  /** The sort key of search results: wins in the selected arena. */
  function ArenaWinsKey(arena: string): CardRow -> int {
    (row: CardRow) => WinsIn(row, arena)
  }

  /** `getFilteredCards()` with the selected arena and the control values as
      parameters: the filters one after another, then the wins ordering when an
      arena is selected. */
  function FilteredCards(cards: seq<CardRow>, arena: string, q: Query): seq<CardRow> {
    var typed := FilterChain(cards, arena, q);
    if arena != "" then SortDesc(typed, ArenaWinsKey(arena)) else typed
  }

  /** The successive filters of the search, before any sorting. */
  function FilterChain(cards: seq<CardRow>, arena: string, q: Query): seq<CardRow> {
    var term := SearchTerm(q);
    var present := if arena != "" then Filter(cards, InArena(arena)) else cards;
    var matched := if term != "" then Filter(present, MatchesTerm(term)) else present;
    var costed := if q.elixir != "" then Filter(matched, HasElixir(q.elixir)) else matched;
    var graded := if q.rarity != "" then Filter(costed, HasRarity(q.rarity)) else costed;
    if q.cardType != "" then Filter(graded, HasType(q.cardType)) else graded
  }

  /** The filter chain keeps exactly the rows that pass the combined test, in catalogue order. */
  lemma FilterChainIsConjunction(cards: seq<CardRow>, arena: string, q: Query)
    ensures FilterChain(cards, arena, q) == Filter(cards, PassesFn(arena, q))
  {
    FilterChainStages(cards, arena, q);
    forall row ensures ChainTest(arena, q)(row) == PassesFn(arena, q)(row) {
      ChainTestIsPasses(arena, q, row);
    }
    FilterExt(cards, ChainTest(arena, q), PassesFn(arena, q));
  }

  /** The five filters of the chain folded into one test, stage by stage. */
  function ChainTest(arena: string, q: Query): CardRow -> bool {
    var p1 := Guarded(arena != "", InArena(arena));
    var p2 := And(p1, Guarded(SearchTerm(q) != "", MatchesTerm(SearchTerm(q))));
    var p3 := And(p2, Guarded(q.elixir != "", HasElixir(q.elixir)));
    var p4 := And(p3, Guarded(q.rarity != "", HasRarity(q.rarity)));
    And(p4, Guarded(q.cardType != "", HasType(q.cardType)))
  }

  lemma FilterChainStages(cards: seq<CardRow>, arena: string, q: Query)
    ensures FilterChain(cards, arena, q) == Filter(cards, ChainTest(arena, q))
  {
    var term := SearchTerm(q);
    var p1 := Guarded(arena != "", InArena(arena));
    var p2 := And(p1, Guarded(term != "", MatchesTerm(term)));
    var p3 := And(p2, Guarded(q.elixir != "", HasElixir(q.elixir)));
    var p4 := And(p3, Guarded(q.rarity != "", HasRarity(q.rarity)));
    var present := if arena != "" then Filter(cards, InArena(arena)) else cards;
    FilterGuarded(cards, arena != "", InArena(arena));
    var matched := if term != "" then Filter(present, MatchesTerm(term)) else present;
    FilterThenGuarded(cards, p1, term != "", MatchesTerm(term));
    var costed := if q.elixir != "" then Filter(matched, HasElixir(q.elixir)) else matched;
    FilterThenGuarded(cards, p2, q.elixir != "", HasElixir(q.elixir));
    var graded := if q.rarity != "" then Filter(costed, HasRarity(q.rarity)) else costed;
    FilterThenGuarded(cards, p3, q.rarity != "", HasRarity(q.rarity));
    FilterThenGuarded(cards, p4, q.cardType != "", HasType(q.cardType));
  }

  lemma ChainTestIsPasses(arena: string, q: Query, row: CardRow)
    ensures ChainTest(arena, q)(row) == Passes(arena, q, row)
  {
  }

  /** Search results are catalogue rows that pass every active filter, every
      such row is a result exactly as often as it is in the catalogue, and with
      an arena selected the results are ordered by wins there, most first,
      ties kept in catalogue order; without one they stay in catalogue order. */
  lemma FilteredCardsSpec(cards: seq<CardRow>, arena: string, q: Query)
    ensures var r := FilteredCards(cards, arena, q);
            && multiset(r) == multiset(Filter(cards, PassesFn(arena, q)))
            && (forall row :: row in r <==> row in cards && Passes(arena, q, row))
            && (arena != "" ==> SortedDesc(r, ArenaWinsKey(arena)))
            && (arena != "" ==> forall k :: Filter(r, KeyIs(ArenaWinsKey(arena), k))
                                            == Filter(Filter(cards, PassesFn(arena, q)), KeyIs(ArenaWinsKey(arena), k)))
            && (arena == "" ==> r == Filter(cards, PassesFn(arena, q)))
  {
    FilterChainIsConjunction(cards, arena, q);
    var kept := Filter(cards, PassesFn(arena, q));
    var r := FilteredCards(cards, arena, q);
    assert multiset(r) == multiset(kept);
    forall row ensures row in r <==> row in cards && Passes(arena, q, row) {
      FilterMembership(cards, PassesFn(arena, q), row);
      assert row in r <==> row in multiset(kept);
    }
    if arena != "" {
      forall k ensures Filter(r, KeyIs(ArenaWinsKey(arena), k)) == Filter(kept, KeyIs(ArenaWinsKey(arena), k)) {
        SortDescStable(kept, ArenaWinsKey(arena), k);
      }
    }
  }

  /** The list shows at most this many results. */
  const MAX_RESULTS: nat := 40

  /** `getFilteredCards().slice(0, 40)`: the first results, at most 40 of them,
      still in wins order. */
  function ShownResults(results: seq<CardRow>): (r: seq<CardRow>)
    ensures |r| == if |results| < MAX_RESULTS then |results| else MAX_RESULTS
    ensures r == results[..|r|]
  {
    if |results| <= MAX_RESULTS then results else results[..MAX_RESULTS]
  }

  /** A prefix of a list ordered by wins is ordered by wins. */
  lemma ShownResultsSorted(results: seq<CardRow>, arena: string)
    requires SortedDesc(results, ArenaWinsKey(arena))
    ensures SortedDesc(ShownResults(results), ArenaWinsKey(arena))
  {
    var r := ShownResults(results);
    forall i, j | 0 <= i < j < |r| ensures ArenaWinsKey(arena)(r[i]) >= ArenaWinsKey(arena)(r[j]) {
      assert r[i] == results[i] && r[j] == results[j];
    }
  }

  // ---------- the chart of the bins ----------

  datatype ChartRecord = ChartRecord(cardName: string, bin: Bin, wins: int)

  function CardNameOf(row: CardRow): string {
    row.cardName
  }

  /** `new Map(allCards.map(row => [row.card_name, row]))`: exact-case names, last row wins. */
  function CardByName(cards: seq<CardRow>): map<string, CardRow> {
    IndexBy(cards, CardNameOf, Id<CardRow>)
  }

  /** What one bin member adds to the chart: its record when the catalogue has
      it and its wins in the arena are positive, otherwise nothing. */
  function ChartStep(byName: map<string, CardRow>, arena: string, bin: Bin, name: string): (r: seq<ChartRecord>)
    ensures |r| <= 1
  {
    if name in byName && WinsIn(byName[name], arena) > 0 then [ChartRecord(name, bin, WinsIn(byName[name], arena))]
    else []
  }

  function ChartStepIn(byName: map<string, CardRow>, arena: string, bin: Bin): string -> seq<ChartRecord> {
    name => ChartStep(byName, arena, bin, name)
  }

  function ChartWins(r: ChartRecord): int {
    r.wins
  }

  /** The records of both bins before ordering: the toxic bin's, then the cheap-spell bin's. */
  function BinRecords(cards: seq<CardRow>, arena: string, toxic: seq<string>, spell: seq<string>): seq<ChartRecord> {
    var byName := CardByName(cards);
    Gather(toxic, ChartStepIn(byName, arena, ToxicTroop)) + Gather(spell, ChartStepIn(byName, arena, CheapSpell))
  }

  /** One loop of `buildChartDataForArena()`: for each member of a bin, push
      its record onto `start` when the catalogue has it with positive wins in
      the arena. */
  method PushBinRecords(byName: map<string, CardRow>, arena: string, bin: Bin, names: seq<string>,
                        start: seq<ChartRecord>) returns (combined: seq<ChartRecord>)
    ensures combined == start + Gather(names, ChartStepIn(byName, arena, bin))
  {
    combined := start;
    var i := 0;
    while i < |names|
      invariant 0 <= i <= |names|
      invariant combined == start + Gather(names[..i], ChartStepIn(byName, arena, bin))
    {
      var name := names[i];
      GatherNext(names, ChartStepIn(byName, arena, bin), i);
      assert ChartStepIn(byName, arena, bin)(name) == ChartStep(byName, arena, bin, name);
      if name in byName {
        var wins := GetWinsForArena(Some(byName[name]), arena).v;
        if wins > 0 {
          combined := combined + [ChartRecord(name, bin, wins)];
        }
      }
      i := i + 1;
    }
    assert names[..i] == names;
  }

  /** `buildChartDataForArena()` on explicit state. */
  function ChartData(cards: seq<CardRow>, arena: string, toxic: seq<string>, spell: seq<string>): seq<ChartRecord> {
    if arena == "" then [] else SortDesc(BinRecords(cards, arena, toxic, spell), ChartWins)
  }

  /** Whether `name` of a bin has a bar: the catalogue has it and it has wins in the arena. */
  predicate HasBar(cards: seq<CardRow>, arena: string, name: string) {
    name in CardByName(cards) && WinsIn(CardByName(cards)[name], arena) > 0
  }

  /** The record is labelled with a bin that holds its name. */
  predicate InItsBin(r: ChartRecord, toxic: seq<string>, spell: seq<string>) {
    (r.bin == ToxicTroop && r.cardName in toxic) || (r.bin == CheapSpell && r.cardName in spell)
  }

  /** The records gathered from one bin are its members that have bars,
      labelled with that bin and carrying their wins. */
  lemma GatheredBinRecords(cards: seq<CardRow>, arena: string, bin: Bin, names: seq<string>, r: ChartRecord)
    ensures r in Gather(names, ChartStepIn(CardByName(cards), arena, bin)) <==>
              r.bin == bin && r.cardName in names && HasBar(cards, arena, r.cardName)
              && r.wins == WinsIn(CardByName(cards)[r.cardName], arena)
  {
    var byName := CardByName(cards);
    var step := ChartStepIn(byName, arena, bin);
    GatherMembership(names, step, r);
    if exists i :: 0 <= i < |names| && step(names[i]) == [r] {
      var i :| 0 <= i < |names| && step(names[i]) == [r];
      ChartStepIs(byName, arena, bin, names[i], r);
    }
    if r.bin == bin && r.cardName in names && HasBar(cards, arena, r.cardName)
       && r.wins == WinsIn(byName[r.cardName], arena)
    {
      var i :| 0 <= i < |names| && names[i] == r.cardName;
      ChartStepIs(byName, arena, bin, names[i], r);
    }
  }

  /** A bin member's step is exactly the record of that member, in that bin,
      with its wins, when it has a bar. */
  lemma ChartStepIs(byName: map<string, CardRow>, arena: string, bin: Bin, name: string, r: ChartRecord)
    ensures ChartStepIn(byName, arena, bin)(name) == [r] <==>
              r.cardName == name && r.bin == bin && name in byName && WinsIn(byName[name], arena) > 0
              && r.wins == WinsIn(byName[name], arena)
  {
  }

  /** The chart is empty without an arena; otherwise its records are the bin
      members that have bars, each labelled by its bin and carrying its wins,
      and it is ordered by wins, tallest first. */
  lemma ChartDataSpec(cards: seq<CardRow>, arena: string, toxic: seq<string>, spell: seq<string>)
    ensures arena == "" ==> ChartData(cards, arena, toxic, spell) == []
    ensures SortedDesc(ChartData(cards, arena, toxic, spell), ChartWins)
    ensures arena != "" ==> multiset(ChartData(cards, arena, toxic, spell)) == multiset(BinRecords(cards, arena, toxic, spell))
    ensures arena != "" ==> forall r :: r in ChartData(cards, arena, toxic, spell) <==>
              InItsBin(r, toxic, spell) && HasBar(cards, arena, r.cardName)
              && r.wins == WinsIn(CardByName(cards)[r.cardName], arena)
  {
    if arena != "" {
      var data := ChartData(cards, arena, toxic, spell);
      var recs := BinRecords(cards, arena, toxic, spell);
      forall r ensures r in data <==>
          InItsBin(r, toxic, spell) && HasBar(cards, arena, r.cardName)
          && r.wins == WinsIn(CardByName(cards)[r.cardName], arena)
      {
        assert r in data <==> r in multiset(recs);
        GatheredBinRecords(cards, arena, ToxicTroop, toxic, r);
        GatheredBinRecords(cards, arena, CheapSpell, spell, r);
      }
    }
  }

  function RecordBin(r: ChartRecord): Bin {
    r.bin
  }

  /** One bin's mean line is drawn exactly when some member of that bin has a bar. */
  lemma BinMeanPresence(cards: seq<CardRow>, arena: string, toxic: seq<string>, spell: seq<string>,
                        bin: Bin, names: seq<string>)
    requires arena != ""
    requires (bin == ToxicTroop && names == toxic) || (bin == CheapSpell && names == spell)
    ensures BinMean(ChartData(cards, arena, toxic, spell), RecordBin, ChartWins, bin).Some?
            <==> exists n :: n in names && HasBar(cards, arena, n)
  {
    var data := ChartData(cards, arena, toxic, spell);
    ChartDataSpec(cards, arena, toxic, spell);
    var hasBar := (n: string) => HasBar(cards, arena, n);
    var winsOf := (n: string) => if n in CardByName(cards) then WinsIn(CardByName(cards)[n], arena) else 0;
    forall r: ChartRecord | r.bin == bin
      ensures r in data <==> r.cardName in names && hasBar(r.cardName) && r.wins == winsOf(r.cardName)
    {
    }
    MeanPresentIffMember(data, bin, names, hasBar, winsOf);
  }

  /** Over records whose members of `bin` are exactly the names that pass `has`,
      each with its wins, the bin has a mean exactly when some name passes. */
  lemma MeanPresentIffMember(data: seq<ChartRecord>, bin: Bin, names: seq<string>,
                             has: string -> bool, winsOf: string -> int)
    requires forall r: ChartRecord :: r.bin == bin ==>
               (r in data <==> r.cardName in names && has(r.cardName) && r.wins == winsOf(r.cardName))
    ensures BinMean(data, RecordBin, ChartWins, bin).Some? <==> exists n :: n in names && has(n)
  {
    if i :| 0 <= i < |data| && RecordBin(data[i]) == bin {
      assert data[i] in data;
    }
    if n :| n in names && has(n) {
      var r := ChartRecord(n, bin, winsOf(n));
      assert r in data;
      var i :| 0 <= i < |data| && data[i] == r;
      assert RecordBin(data[i]) == bin;
    }
  }

  // ---------- the explorer's state ----------

  /** The playground's module state: the loaded catalogue, the selected arena
      ("" when none) and the two bins. */
  class Explorer {
    var allCards: seq<CardRow>
    var selectedArenaName: string
    var toxicBin: seq<string>
    var spellBin: seq<string>

    function CurrentBins(): Bins
      reads this
    {
      Bins(toxicBin, spellBin)
    }

    ghost predicate Valid()
      reads this
    {
      BinsAnnotated(allCards) && BinsValid(CurrentBins())
    }

    /** `initExplorer()` once the catalogue has loaded: the last configured arena
        is selected and the bins are seeded from the rows' bins. */
    constructor (rows: seq<CardRow>)
      requires BinsAnnotated(rows)
      ensures Valid()
      ensures allCards == rows
      ensures selectedArenaName == ARENA_CONFIG[|ARENA_CONFIG| - 1].name
      ensures CurrentBins() == InferredBins(rows)
    {
      allCards := rows;
      selectedArenaName := ARENA_CONFIG[|ARENA_CONFIG| - 1].name;
      toxicBin := [];
      spellBin := [];
      new;
      InferInitialBins();
    }

    /** `inferInitialBins()`: clear both bins, then add each row's name to the bin it is tagged with. */
    method InferInitialBins()
      requires BinsAnnotated(allCards)
      modifies this
      ensures Valid()
      ensures CurrentBins() == InferredBins(allCards)
      ensures allCards == old(allCards) && selectedArenaName == old(selectedArenaName)
    {
      toxicBin := [];
      spellBin := [];
      var i := 0;
      while i < |allCards|
        invariant 0 <= i <= |allCards|
        invariant CurrentBins() == InferredBins(allCards[..i])
        invariant allCards == old(allCards) && selectedArenaName == old(selectedArenaName)
      {
        var row := allCards[i];
        assert allCards[..i + 1][..i] == allCards[..i];
        if row.bin == Some(ToxicTroop) {
          toxicBin := SetAdd(toxicBin, row.cardName);
        } else if row.bin == Some(CheapSpell) {
          spellBin := SetAdd(spellBin, row.cardName);
        }
        i := i + 1;
      }
      assert allCards[..i] == allCards;
      InferredBinsValid(allCards);
    }

    /** `addToBin(binKey, cardName)`. */
    method AddToBin(binKey: string, cardName: string)
      requires Valid()
      modifies this
      ensures Valid()
      ensures CurrentBins() == AddedToBin(old(CurrentBins()), binKey, cardName)
      ensures allCards == old(allCards) && selectedArenaName == old(selectedArenaName)
    {
      if cardName == "" {
        return;
      }
      if binKey == "toxic" {
        spellBin := SetDelete(spellBin, cardName);
        toxicBin := SetAdd(toxicBin, cardName);
      } else if binKey == "spell" {
        toxicBin := SetDelete(toxicBin, cardName);
        spellBin := SetAdd(spellBin, cardName);
      }
    }

    /** The remove button of a toxic-bin pill: that name leaves the toxic bin;
        the cheap-spell bin and every other name stay. */
    method RemoveToxicPill(name: string)
      requires Valid()
      modifies this
      ensures Valid()
      ensures toxicBin == SetDelete(old(toxicBin), name)
      ensures forall n :: n in toxicBin <==> n in old(toxicBin) && n != name
      ensures spellBin == old(spellBin)
      ensures allCards == old(allCards) && selectedArenaName == old(selectedArenaName)
    {
      toxicBin := SetDelete(toxicBin, name);
    }

    /** The remove button of a cheap-spell pill. */
    method RemoveSpellPill(name: string)
      requires Valid()
      modifies this
      ensures Valid()
      ensures spellBin == SetDelete(old(spellBin), name)
      ensures forall n :: n in spellBin <==> n in old(spellBin) && n != name
      ensures toxicBin == old(toxicBin)
      ensures allCards == old(allCards) && selectedArenaName == old(selectedArenaName)
    {
      spellBin := SetDelete(spellBin, name);
    }

    /** "Clear both bins". */
    method ClearBins()
      requires Valid()
      modifies this
      ensures Valid()
      ensures toxicBin == [] && spellBin == []
      ensures allCards == old(allCards) && selectedArenaName == old(selectedArenaName)
    {
      toxicBin := [];
      spellBin := [];
    }

    /** "Reset to default bins". */
    method ResetBins()
      requires Valid()
      modifies this
      ensures Valid()
      ensures CurrentBins() == InferredBins(allCards)
      ensures allCards == old(allCards) && selectedArenaName == old(selectedArenaName)
    {
      InferInitialBins();
    }

    /** The arena menu's change handler. */
    method SelectArena(name: string)
      requires Valid()
      modifies this
      ensures Valid()
      ensures selectedArenaName == name
      ensures allCards == old(allCards) && CurrentBins() == old(CurrentBins())
    {
      selectedArenaName := name;
    }

    /** `getFilteredCards()`, the control values passed in. */
    method GetFilteredCards(q: Query) returns (results: seq<CardRow>)
      ensures results == FilteredCards(allCards, selectedArenaName, q)
      ensures forall row :: row in results <==> row in allCards && Passes(selectedArenaName, q, row)
      ensures selectedArenaName != "" ==> SortedDesc(results, ArenaWinsKey(selectedArenaName))
    {
      FilteredCardsSpec(allCards, selectedArenaName, q);
      results := FilteredCards(allCards, selectedArenaName, q);
    }

    /** `buildChartDataForArena()`: push a record per bin member that has a
        bar, toxic bin first, then order by wins. */
    method BuildChartDataForArena() returns (combined: seq<ChartRecord>)
      ensures combined == ChartData(allCards, selectedArenaName, toxicBin, spellBin)
    {
      if selectedArenaName == "" {
        return [];
      }
      var byName := CardByName(allCards);
      combined := PushBinRecords(byName, selectedArenaName, ToxicTroop, toxicBin, []);
      combined := PushBinRecords(byName, selectedArenaName, CheapSpell, spellBin, combined);
      assert [] + Gather(toxicBin, ChartStepIn(byName, selectedArenaName, ToxicTroop))
             == Gather(toxicBin, ChartStepIn(byName, selectedArenaName, ToxicTroop));
      combined := SortDesc(combined, ChartWins);
    }
  }
}
