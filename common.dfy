/** The shared data layer (common.js): classification of cards into the two
    comparison bins, resolution of an arena given by display name or by column
    key, lenient numeric coercion of win counts, the per-arena story
    projection, and the load-once cache of the card catalogue. */
module Common {
  import opened JsValues
  import opened Collections

  datatype Bin = ToxicTroop | CheapSpell | Other

  /** One catalogue row after parsing. Text columns are strings (an empty or
      absent text cell reads as ""); `elixir` and the `count_N` columns keep the
      value the parser produced; `bin` is absent until loading annotates it. */
  datatype CardRow = CardRow(cardName: string, cardType: string, elixir: Cell, rarity: string,
                             columns: map<string, Cell>, bin: Option<Bin>)

  const TOXIC_TROOPS: seq<string> := ["Skeleton Army", "Wizard", "Valkyrie", "Mega Knight"]
  const CHEAP_SPELLS: seq<string> := ["The Log", "Zap"]

  /** The x-axis order of the story charts: the toxic troops, then the cheap spells. */
  const BIN_CARD_ORDER: seq<string> := TOXIC_TROOPS + CHEAP_SPELLS

  datatype ArenaMeta = ArenaMeta(index: nat, key: string, name: string)

  const ARENA_CONFIG: seq<ArenaMeta> := [
    ArenaMeta(0, "count_0", "Spooky Town"),
    ArenaMeta(1, "count_1", "Rascal's Hideout"),
    ArenaMeta(2, "count_2", "Serenity Peak"),
    ArenaMeta(3, "count_3", "Miner's Mine"),
    ArenaMeta(4, "count_4", "Legendary Arena")
  ]

  /** Each name of a list, lower-cased. */
  function Lowered(names: seq<string>): (r: seq<string>)
    ensures |r| == |names|
    ensures forall i :: 0 <= i < |names| ==> r[i] == ToLower(names[i])
  {
    seq(|names|, i requires 0 <= i < |names| => ToLower(names[i]))
  }

  /** The lower-cased lookup sets of the two bins, as sequences. */
  const TOXIC_SET: seq<string> := Lowered(TOXIC_TROOPS)
  const CHEAP_SET: seq<string> := Lowered(CHEAP_SPELLS)

  // ---------- classification ----------

  /** Two names are the same card name when they agree after lower-casing. */
  predicate SameIgnoringCase(a: string, b: string) {
    ToLower(a) == ToLower(b)
  }

  /** `getCardBin(cardName)`: membership of the lower-cased name decides the bin. */
  function GetCardBin(cardName: string): (b: Bin)
    ensures cardName == "" ==> b == Other
  {
    var key := ToLower(cardName);
    if key in TOXIC_SET then ToxicTroop
    else if key in CHEAP_SET then CheapSpell
    else Other
  }

  /** A lower-cased name is in a lookup set exactly when some listed name has that spelling. */
  lemma LoweredMembership(names: seq<string>, key: string)
    ensures key in Lowered(names) <==> exists n :: n in names && ToLower(n) == key
  {
    if key in Lowered(names) {
      var i :| 0 <= i < |names| && Lowered(names)[i] == key;
      assert names[i] in names;
    }
    if n :| n in names && ToLower(n) == key {
      var i :| 0 <= i < |names| && names[i] == n;
      assert Lowered(names)[i] == key;
    }
  }

  /** No toxic troop is a cheap spell under any casing: their lengths all differ. */
  lemma BinListsDisjoint()
    ensures forall x :: x in TOXIC_SET ==> x !in CHEAP_SET
  {
    assert |TOXIC_SET[0]| == 13 && |TOXIC_SET[1]| == 6 && |TOXIC_SET[2]| == 8 && |TOXIC_SET[3]| == 11;
    assert |CHEAP_SET[0]| == 7 && |CHEAP_SET[1]| == 3;
  }

  /** Classification ignores case: any casing of a listed toxic troop is a toxic
      troop, any casing of a listed cheap spell is a cheap spell, and every
      other name is `other`. */
  lemma BinByListIgnoringCase(name: string)
    ensures GetCardBin(name) == ToxicTroop <==> exists n :: n in TOXIC_TROOPS && SameIgnoringCase(n, name)
    ensures GetCardBin(name) == CheapSpell <==> exists n :: n in CHEAP_SPELLS && SameIgnoringCase(n, name)
    ensures GetCardBin(name) == Other <==> forall n :: n in BIN_CARD_ORDER ==> !SameIgnoringCase(n, name)
  {
    BinListsDisjoint();
    LoweredMembership(TOXIC_TROOPS, ToLower(name));
    LoweredMembership(CHEAP_SPELLS, ToLower(name));
    assert forall n :: n in BIN_CARD_ORDER <==> n in TOXIC_TROOPS || n in CHEAP_SPELLS;
  }

  // ---------- arena lookup and numeric coercion ----------

  /** `arenas.find(a => a.name === name)`: the first arena with that display name. */
  function FindArena(arenas: seq<ArenaMeta>, name: string): (r: Option<ArenaMeta>)
    ensures r.None? <==> forall i :: 0 <= i < |arenas| ==> arenas[i].name != name
    ensures r.Some? ==> exists i :: 0 <= i < |arenas| && arenas[i] == r.value && r.value.name == name
                                    && forall j :: 0 <= j < i ==> arenas[j].name != name
  {
    if arenas == [] then None
    else if arenas[0].name == name then Some(arenas[0])
    else
      var r := FindArena(arenas[1..], name);
      assert forall i :: 1 <= i < |arenas| ==> arenas[i] == arenas[1..][i - 1];
      if r.Some? then
        var i :| 0 <= i < |arenas[1..]| && arenas[1..][i] == r.value && r.value.name == name
                 && forall j :: 0 <= j < i ==> arenas[1..][j].name != name;
        assert arenas[i + 1] == r.value;
        r
      else r
  }

  ghost predicate DistinctArenaNames(arenas: seq<ArenaMeta>) {
    forall i, j :: 0 <= i < j < |arenas| ==> arenas[i].name != arenas[j].name
  }

  /** With unique display names, looking an arena up by its name finds it. */
  lemma FindArenaByOwnName(arenas: seq<ArenaMeta>, i: nat)
    requires i < |arenas| && DistinctArenaNames(arenas)
    ensures FindArena(arenas, arenas[i].name) == Some(arenas[i])
  {
    var r := FindArena(arenas, arenas[i].name);
    var k :| 0 <= k < |arenas| && arenas[k] == r.value && r.value.name == arenas[i].name
             && forall j :: 0 <= j < k ==> arenas[j].name != arenas[i].name;
    assert k == i;
  }

  /** A string whose first character differs from the prefix's does not start with it. */
  lemma NotStartsWith(s: string, prefix: string)
    requires s != [] && prefix != [] && s[0] != prefix[0]
    ensures !StartsWith(s, prefix)
  {
    if |prefix| <= |s| {
      assert s[..|prefix|][0] == s[0];
    }
  }

  /** Every `count_` followed by something starts with `count_`. */
  lemma CountKeyStartsWith(key: string, rest: string)
    requires key == "count_" + rest
    ensures StartsWith(key, "count_")
  {
    assert key[..6] == "count_";
  }

  /** The display names are unique and none looks like a column key; every key does. */
  lemma ArenaConfigWellFormed()
    ensures DistinctArenaNames(ARENA_CONFIG)
    ensures forall i :: 0 <= i < |ARENA_CONFIG| ==>
              !StartsWith(ARENA_CONFIG[i].name, "count_") && StartsWith(ARENA_CONFIG[i].key, "count_")
    ensures forall i :: 0 <= i < |ARENA_CONFIG| ==> ARENA_CONFIG[i].index == i
  {
    ArenaNamesDistinct();
    forall i | 0 <= i < |ARENA_CONFIG|
      ensures !StartsWith(ARENA_CONFIG[i].name, "count_") && StartsWith(ARENA_CONFIG[i].key, "count_")
    {
      var a := ARENA_CONFIG[i];
      NotStartsWith(a.name, "count_");
      CountKeyStartsWith(a.key, [a.key[6]]);
    }
  }

  /** The five display names have five different lengths. */
  lemma ArenaNamesDistinct()
    ensures DistinctArenaNames(ARENA_CONFIG)
  {
    var lengths := [11, 16, 13, 12, 15];
    assert forall i :: 0 <= i < |ARENA_CONFIG| ==> |ARENA_CONFIG[i].name| == lengths[i];
  }

  /** The column an arena reference denotes: a `count_…` key as given, or the
      key of the arena with that display name; none for "" or an unknown name. */
  function ResolveArenaKey(arenaRef: string): (r: Option<string>)
    ensures arenaRef == "" ==> r == None
    ensures arenaRef != "" && StartsWith(arenaRef, "count_") ==> r == Some(arenaRef)
    ensures arenaRef != "" && !StartsWith(arenaRef, "count_") ==>
              (r.None? <==> forall i :: 0 <= i < |ARENA_CONFIG| ==> ARENA_CONFIG[i].name != arenaRef)
    ensures forall i :: 0 <= i < |ARENA_CONFIG| && ARENA_CONFIG[i].name == arenaRef ==> r == Some(ARENA_CONFIG[i].key)
  {
    ConfiguredNamesFound();
    if arenaRef == "" then None
    else if StartsWith(arenaRef, "count_") then Some(arenaRef)
    else match FindArena(ARENA_CONFIG, arenaRef)
      case Some(a) => Some(a.key)
      case None => None
  }

  /** Every configured display name is looked up as itself, and none is taken for a column key. */
  lemma ConfiguredNamesFound()
    ensures forall i :: 0 <= i < |ARENA_CONFIG| ==>
              !StartsWith(ARENA_CONFIG[i].name, "count_") && FindArena(ARENA_CONFIG, ARENA_CONFIG[i].name) == Some(ARENA_CONFIG[i])
  {
    ArenaConfigWellFormed();
    forall i | 0 <= i < |ARENA_CONFIG|
      ensures FindArena(ARENA_CONFIG, ARENA_CONFIG[i].name) == Some(ARENA_CONFIG[i])
    {
      FindArenaByOwnName(ARENA_CONFIG, i);
    }
  }

  /** The cell a row holds in a column; `undefined` when it has no such column. */
  function StoredValue(row: CardRow, key: string): Cell {
    if key in row.columns then row.columns[key] else Missing
  }

  /** Lenient coercion of a stored win count: a finite number is returned as it
      is, anything that `Number(...)` turns into a finite number becomes that
      number, and everything else becomes 0. */
  function CoerceWins(value: Cell): (r: Num)
    ensures r.Finite?
    ensures value.Number? && value.n.Finite? ==> r == value.n
    ensures ToNumber(value).Finite? ==> r == ToNumber(value)
    ensures !ToNumber(value).Finite? ==> r == Finite(0)
  {
    if value.Number? && value.n.Finite? then value.n
    else
      var parsed := ToNumber(value);
      if parsed.Finite? then parsed else Finite(0)
  }

  /** Empty, absent, NaN and infinite cells count as 0 wins. */
  lemma CoercionDefaults()
    ensures CoerceWins(Text("")) == Finite(0)
    ensures CoerceWins(Number(NaN)) == Finite(0)
    ensures CoerceWins(Number(PosInf)) == Finite(0)
    ensures CoerceWins(Number(NegInf)) == Finite(0)
    ensures CoerceWins(Null) == Finite(0)
    ensures CoerceWins(Missing) == Finite(0)
  {
  }

  /** Text that starts with a letter other than the `I` of `Infinity` is not a
      number, so it counts as 0 wins; this covers the text "NaN". */
  lemma CoerceWordIsZero(s: string)
    requires s != [] && s[0] != 'I' && ('a' <= s[0] <= 'z' || 'A' <= s[0] <= 'Z')
    ensures CoerceWins(Text(s)) == Finite(0)
  {
    assert TrimStart(s) == s;
    TrimEndKeepsFirst(s);
    WordIsNaN(s);
  }

  /** Trimming the end of a string that starts with a non-blank keeps that first character. */
  lemma {:induction false} TrimEndKeepsFirst(s: string)
    requires s != [] && !IsWhitespace(s[0])
    ensures TrimEnd(s) != [] && TrimEnd(s)[0] == s[0]
  {
    if |s| > 1 && IsWhitespace(s[|s| - 1]) {
      TrimEndKeepsFirst(s[..|s| - 1]);
    }
  }

  lemma WordIsNaN(s: string)
    requires var t := Trim(s); t != [] && t[0] != 'I' && ('a' <= t[0] <= 'z' || 'A' <= t[0] <= 'Z')
    ensures ParseNumber(s) == NaN
  {
    var t := Trim(s);
    assert !IsDigit(t[0]);
    assert t != "Infinity" && t != "+Infinity" && t != "-Infinity" by {
      assert "Infinity"[0] == 'I' && "+Infinity"[0] == '+' && "-Infinity"[0] == '-';
    }
  }

  /** `getWinsForArena(cardRow, arenaNameOrKey)`. */
  function GetWinsForArena(row: Option<CardRow>, arenaRef: string): (r: Num)
    ensures r.Finite?
    ensures row.None? ==> r == Finite(0)
    ensures arenaRef == "" ==> r == Finite(0)
    ensures !StartsWith(arenaRef, "count_") && (forall i :: 0 <= i < |ARENA_CONFIG| ==> ARENA_CONFIG[i].name != arenaRef) ==> r == Finite(0)
    ensures row.Some? && StartsWith(arenaRef, "count_") && arenaRef in row.value.columns
            && row.value.columns[arenaRef].Number? && row.value.columns[arenaRef].n.Finite?
            ==> r == row.value.columns[arenaRef].n
    ensures row.Some? && StartsWith(arenaRef, "count_") ==> r == CoerceWins(StoredValue(row.value, arenaRef))
    ensures forall i :: 0 <= i < |ARENA_CONFIG| && row.Some? && ARENA_CONFIG[i].name == arenaRef ==>
              r == CoerceWins(StoredValue(row.value, ARENA_CONFIG[i].key))
  {
    if row.None? then Finite(0)
    else match ResolveArenaKey(arenaRef)
      case None => Finite(0)
      case Some(key) => CoerceWins(StoredValue(row.value, key))
  }

  /** The wins of a present row in an arena, as the integer they are. */
  function WinsIn(row: CardRow, arenaRef: string): int {
    GetWinsForArena(Some(row), arenaRef).v
  }

  /** An arena may be named by its display name or by its column key: both give
      the same wins for every row. */
  lemma NameAndKeyAgree(row: Option<CardRow>, i: nat)
    requires i < |ARENA_CONFIG|
    ensures GetWinsForArena(row, ARENA_CONFIG[i].name) == GetWinsForArena(row, ARENA_CONFIG[i].key)
  {
    ResolveOwnName(i);
    ResolveOwnKey(i);
  }

  lemma ResolveOwnName(i: nat)
    requires i < |ARENA_CONFIG|
    ensures ResolveArenaKey(ARENA_CONFIG[i].name) == Some(ARENA_CONFIG[i].key)
  {
    var name := ARENA_CONFIG[i].name;
    assert name != [] && name[0] != 'c';
    NotStartsWith(name, "count_");
    ArenaNamesDistinct();
    FindArenaByOwnName(ARENA_CONFIG, i);
  }

  lemma ResolveOwnKey(i: nat)
    requires i < |ARENA_CONFIG|
    ensures ResolveArenaKey(ARENA_CONFIG[i].key) == Some(ARENA_CONFIG[i].key)
  {
    ArenaConfigWellFormed();
  }

  // ---------- the story projection ----------

  datatype StoryRecord = StoryRecord(cardName: string, bin: Bin, wins: int, arena: string,
                                     cardType: string, elixir: Cell, rarity: string)

  function LowerName(row: CardRow): string {
    ToLower(row.cardName)
  }

  /** `new Map(rows.map(r => [lower(r.card_name), r]))`: a later row replaces an earlier one. */
  function ByLowerName(rows: seq<CardRow>): map<string, CardRow> {
    IndexBy(rows, LowerName, Id<CardRow>)
  }

  /** Every entry of the name index is a catalogue row filed under its own lower-cased name. */
  lemma ByLowerNameFiles(rows: seq<CardRow>)
    ensures forall k :: k in ByLowerName(rows) ==>
              ToLower(ByLowerName(rows)[k].cardName) == k && ByLowerName(rows)[k] in rows
  {
    forall k | k in ByLowerName(rows)
      ensures ToLower(ByLowerName(rows)[k].cardName) == k && ByLowerName(rows)[k] in rows
    {
      IndexByLastWins(rows, LowerName, Id<CardRow>, k);
    }
  }

  /** The record a catalogue row contributes to one arena's chart. */
  function StoryRecordOf(rec: CardRow, arena: ArenaMeta): StoryRecord {
    StoryRecord(rec.cardName, GetCardBin(rec.cardName), WinsIn(rec, arena.key), arena.name,
                rec.cardType, rec.elixir, rec.rarity)
  }

  /** A listed name is shown in an arena when the catalogue has it, its wins
      there are positive and it falls in a bin. */
  predicate ShownInArena(byName: map<string, CardRow>, arena: ArenaMeta, name: string) {
    var key := ToLower(name);
    key in byName && WinsIn(byName[key], arena.key) > 0 && GetCardBin(byName[key].cardName) != Other
  }

  /** What one listed name adds to an arena's rows: its record, or nothing. */
  function StoryStep(byName: map<string, CardRow>, arena: ArenaMeta, name: string): (r: seq<StoryRecord>)
    ensures |r| <= 1
  {
    if ShownInArena(byName, arena, name) then [StoryRecordOf(byName[ToLower(name)], arena)] else []
  }

  function StoryStepIn(byName: map<string, CardRow>, arena: ArenaMeta): string -> seq<StoryRecord> {
    name => StoryStep(byName, arena, name)
  }

  /** The rows of one arena after walking the names of `order` in turn. */
  function ArenaRows(byName: map<string, CardRow>, arena: ArenaMeta, order: seq<string>): seq<StoryRecord> {
    Gather(order, StoryStepIn(byName, arena))
  }

  function ArenaNameOf(arena: ArenaMeta): string {
    arena.name
  }

  /** The rows of each arena over `order`. */
  function RowsOver(byName: map<string, CardRow>, order: seq<string>): ArenaMeta -> seq<StoryRecord> {
    (arena: ArenaMeta) => ArenaRows(byName, arena, order)
  }

  /** The story data after walking `arenas` in turn: each arena's display name
      mapped to its rows over `order`, a later arena replacing an earlier one
      of the same name. */
  function StoryDataOf(byName: map<string, CardRow>, arenas: seq<ArenaMeta>, order: seq<string>): map<string, seq<StoryRecord>> {
    if arenas == [] then map[]
    else
      var last := arenas[|arenas| - 1];
      StoryDataOf(byName, arenas[..|arenas| - 1], order)[last.name := ArenaRows(byName, last, order)]
  }

  /** The story data of every configured arena over the membership order. */
  function StoryChartData(rows: seq<CardRow>): map<string, seq<StoryRecord>> {
    StoryDataOf(ByLowerName(rows), ARENA_CONFIG, BIN_CARD_ORDER)
  }

  /** Walking the arenas is indexing them by display name. */
  lemma {:induction false} StoryDataOfIsIndex(byName: map<string, CardRow>, arenas: seq<ArenaMeta>, order: seq<string>)
    ensures StoryDataOf(byName, arenas, order) == IndexBy(arenas, ArenaNameOf, RowsOver(byName, order))
  {
    if arenas != [] {
      StoryDataOfIsIndex(byName, arenas[..|arenas| - 1], order);
    }
  }

  /** One arena's records: the binned names in display order, each kept when
      the catalogue has it under its lower-cased name, its wins in the arena
      are positive and its bin is not `Other`. */
  method BuildArenaRows(byName: map<string, CardRow>, arena: ArenaMeta) returns (arenaRows: seq<StoryRecord>)
    ensures arenaRows == ArenaRows(byName, arena, BIN_CARD_ORDER)
  {
    arenaRows := [];
    var k := 0;
    while k < |BIN_CARD_ORDER|
      invariant 0 <= k <= |BIN_CARD_ORDER|
      invariant arenaRows == ArenaRows(byName, arena, BIN_CARD_ORDER[..k])
    {
      var name := BIN_CARD_ORDER[k];
      assert BIN_CARD_ORDER[..k + 1][..k] == BIN_CARD_ORDER[..k];
      assert StoryStepIn(byName, arena)(name) == StoryStep(byName, arena, name);
      var key := ToLower(name);
      if key in byName {
        var rec := byName[key];
        var wins := GetWinsForArena(Some(rec), arena.key).v;
        if wins > 0 {
          var bin := GetCardBin(rec.cardName);
          if bin != Other {
            arenaRows := arenaRows + [StoryRecord(rec.cardName, bin, wins, arena.name,
                                                  rec.cardType, rec.elixir, rec.rarity)];
          }
        }
      }
      k := k + 1;
    }
    assert BIN_CARD_ORDER[..k] == BIN_CARD_ORDER;
  }

  /** `buildStoryChartData(rows)`. */
  method BuildStoryChartData(rows: seq<CardRow>) returns (storyData: map<string, seq<StoryRecord>>)
    ensures storyData == StoryChartData(rows)
  {
    var byName := ByLowerName(rows);
    storyData := map[];
    var a := 0;
    while a < |ARENA_CONFIG|
      invariant 0 <= a <= |ARENA_CONFIG|
      invariant storyData == StoryDataOf(byName, ARENA_CONFIG[..a], BIN_CARD_ORDER)
    {
      var arena := ARENA_CONFIG[a];
      var arenaRows := BuildArenaRows(byName, arena);
      assert ARENA_CONFIG[..a + 1][..a] == ARENA_CONFIG[..a];
      storyData := storyData[arena.name := arenaRows];
      a := a + 1;
    }
    assert ARENA_CONFIG[..a] == ARENA_CONFIG;
  }

  lemma StoryChartDataEntries(rows: seq<CardRow>)
    ensures forall x :: x in StoryChartData(rows) <==> exists i :: 0 <= i < |ARENA_CONFIG| && ARENA_CONFIG[i].name == x
    ensures forall i :: 0 <= i < |ARENA_CONFIG| ==>
              StoryChartData(rows)[ARENA_CONFIG[i].name] == ArenaRows(ByLowerName(rows), ARENA_CONFIG[i], BIN_CARD_ORDER)
  {
    var rowsOf := RowsOver(ByLowerName(rows), BIN_CARD_ORDER);
    ArenaNamesDistinct();
    StoryDataOfIsIndex(ByLowerName(rows), ARENA_CONFIG, BIN_CARD_ORDER);
    IndexByEntries(ARENA_CONFIG, ArenaNameOf, rowsOf);
    var data := StoryChartData(rows);
    assert data == IndexBy(ARENA_CONFIG, ArenaNameOf, rowsOf);
    forall i | 0 <= i < |ARENA_CONFIG|
      ensures data[ARENA_CONFIG[i].name] == ArenaRows(ByLowerName(rows), ARENA_CONFIG[i], BIN_CARD_ORDER)
    {
      assert ArenaNameOf(ARENA_CONFIG[i]) == ARENA_CONFIG[i].name;
      assert rowsOf(ARENA_CONFIG[i]) == ArenaRows(ByLowerName(rows), ARENA_CONFIG[i], BIN_CARD_ORDER);
    }
    forall x ensures x in data <==> exists i :: 0 <= i < |ARENA_CONFIG| && ARENA_CONFIG[i].name == x {
      if exists i :: 0 <= i < |ARENA_CONFIG| && ARENA_CONFIG[i].name == x {
        var i :| 0 <= i < |ARENA_CONFIG| && ARENA_CONFIG[i].name == x;
        assert ArenaNameOf(ARENA_CONFIG[i]) == x;
      }
    }
  }

  /** Every shown record has positive wins, a bin that is not `other` and
      agrees with its name, and carries its arena's display name. */
  lemma ArenaRowsShown(byName: map<string, CardRow>, arena: ArenaMeta, order: seq<string>)
    ensures forall r :: r in ArenaRows(byName, arena, order) ==>
              r.wins > 0 && r.bin != Other && r.bin == GetCardBin(r.cardName) && r.arena == arena.name
  {
    forall r | r in ArenaRows(byName, arena, order)
      ensures r.wins > 0 && r.bin != Other && r.bin == GetCardBin(r.cardName) && r.arena == arena.name
    {
      GatherMembers(order, StoryStepIn(byName, arena), r);
    }
  }

  /** An arena's rows follow the order: each comes from a shown name, later
      names come later, and every shown name contributes. */
  lemma ArenaRowsFollowOrder(byName: map<string, CardRow>, arena: ArenaMeta, order: seq<string>)
    ensures exists origin :: GatheredFrom(ArenaRows(byName, arena, order), order, StoryStepIn(byName, arena), origin)
  {
    var origin := GatherOrigins(order, StoryStepIn(byName, arena));
    assert GatheredFrom(ArenaRows(byName, arena, order), order, StoryStepIn(byName, arena), origin);
  }

  /** When the order names distinct cards (ignoring case), each card appears at most once. */
  lemma ArenaRowsDistinct(rows: seq<CardRow>, arena: ArenaMeta, order: seq<string>)
    requires forall p, q :: 0 <= p < q < |order| ==> !SameIgnoringCase(order[p], order[q])
    ensures var recs := ArenaRows(ByLowerName(rows), arena, order);
            forall k, l :: 0 <= k < l < |recs| ==> !SameIgnoringCase(recs[k].cardName, recs[l].cardName)
  {
    var byName := ByLowerName(rows);
    var recs := ArenaRows(byName, arena, order);
    var o := GatherOrigins(order, StoryStepIn(byName, arena));
    ByLowerNameFiles(rows);
    forall k | 0 <= k < |recs| ensures ToLower(recs[k].cardName) == ToLower(order[o[k]]) {
      assert StoryStep(byName, arena, order[o[k]]) == [recs[k]];
    }
  }

  /** The membership order names six different cards, even ignoring case, and
      each of them is in a bin, so the story's `other` check never fires. */
  lemma BinCardOrderWellFormed()
    ensures forall p, q :: 0 <= p < q < |BIN_CARD_ORDER| ==> !SameIgnoringCase(BIN_CARD_ORDER[p], BIN_CARD_ORDER[q])
    ensures forall n :: n in BIN_CARD_ORDER ==> GetCardBin(n) != Other
  {
    forall p, q | 0 <= p < q < |BIN_CARD_ORDER|
      ensures !SameIgnoringCase(BIN_CARD_ORDER[p], BIN_CARD_ORDER[q])
    {
      assert |ToLower(BIN_CARD_ORDER[p])| != |ToLower(BIN_CARD_ORDER[q])|;
    }
    forall n | n in BIN_CARD_ORDER ensures GetCardBin(n) != Other {
      assert SameIgnoringCase(n, n);
    }
  }

  /** What `buildStoryChartData` promises of its result: one entry per arena,
      whose records have positive wins and a bin, name distinct cards and follow
      the membership order. */
  lemma StoryChartDataShown(rows: seq<CardRow>, i: nat)
    requires i < |ARENA_CONFIG|
    ensures ARENA_CONFIG[i].name in StoryChartData(rows)
    ensures var recs := StoryChartData(rows)[ARENA_CONFIG[i].name];
            && (forall r :: r in recs ==> r.wins > 0 && r.bin != Other && r.arena == ARENA_CONFIG[i].name)
            && (forall k, l :: 0 <= k < l < |recs| ==> recs[k].cardName != recs[l].cardName)
            && exists origin :: GatheredFrom(recs, BIN_CARD_ORDER, StoryStepIn(ByLowerName(rows), ARENA_CONFIG[i]), origin)
  {
    StoryChartDataEntries(rows);
    var arena := ARENA_CONFIG[i];
    ArenaRowsShown(ByLowerName(rows), arena, BIN_CARD_ORDER);
    BinCardOrderWellFormed();
    ArenaRowsDistinct(rows, arena, BIN_CARD_ORDER);
    ArenaRowsFollowOrder(ByLowerName(rows), arena, BIN_CARD_ORDER);
  }

  // ---------- per-bin means ----------

  /** The two numbers a mean is made from. */
  datatype MeanParts = MeanParts(sum: int, count: nat)

  function HasBin<T>(binOf: T -> Bin, bin: Bin): T -> bool {
    x => binOf(x) == bin
  }

  /** `values.length ? d3.mean(values) : null` over the wins of one bin: absent
      exactly when no record is in that bin. The division is left out. */
  function BinMean<T>(data: seq<T>, binOf: T -> Bin, winsOf: T -> int, bin: Bin): (r: Option<MeanParts>)
    ensures r.Some? <==> exists i :: 0 <= i < |data| && binOf(data[i]) == bin
    ensures r.Some? ==> r.value.count > 0 && r.value.count == |Filter(data, HasBin(binOf, bin))|
    ensures r.Some? ==> r.value.sum == SumOf(Filter(data, HasBin(binOf, bin)), winsOf)
  {
    var members := Filter(data, HasBin(binOf, bin));
    FilterEmpty(data, HasBin(binOf, bin));
    if |members| > 0 then Some(MeanParts(SumOf(members, winsOf), |members|)) else None
  }

  /** The mean of a bin does not depend on the order of the records. */
  lemma BinMeanOrderFree<T>(a: seq<T>, b: seq<T>, binOf: T -> Bin, winsOf: T -> int, bin: Bin)
    requires multiset(a) == multiset(b)
    ensures BinMean(a, binOf, winsOf, bin) == BinMean(b, binOf, winsOf, bin)
  {
    var fa := Filter(a, HasBin(binOf, bin));
    var fb := Filter(b, HasBin(binOf, bin));
    FilterPermutation(a, b, HasBin(binOf, bin));
    SumOfPermutation(fa, fb, winsOf);
    assert |fa| == |multiset(fa)| == |multiset(fb)| == |fb|;
  }

  // ---------- loading ----------

  /** Every row carries the bin of its own name, as loading leaves it. */
  predicate BinsAnnotated(rows: seq<CardRow>) {
    forall r :: r in rows ==> r.bin == Some(GetCardBin(r.cardName))
  }

  /** Each row tagged with the bin of its name; nothing else about it changes. */
  function Annotated(rows: seq<CardRow>): (r: seq<CardRow>)
    ensures |r| == |rows|
    ensures forall i :: 0 <= i < |r| ==>
              r[i].bin == Some(GetCardBin(r[i].cardName)) && r[i] == rows[i].(bin := r[i].bin)
  {
    seq(|rows|, i requires 0 <= i < |rows| => rows[i].(bin := Some(GetCardBin(rows[i].cardName))))
  }

  /** `rows.forEach(row => { row.bin = getCardBin(row.card_name); })`. */
  method AnnotateBins(rows: array<CardRow>)
    modifies rows
    ensures rows[..] == Annotated(old(rows[..]))
  {
    var i := 0;
    while i < rows.Length
      invariant 0 <= i <= rows.Length
      invariant forall k :: 0 <= k < i ==> rows[k] == old(rows[k]).(bin := Some(GetCardBin(old(rows[k]).cardName)))
      invariant forall k :: i <= k < rows.Length ==> rows[k] == old(rows[k])
    {
      rows[i] := rows[i].(bin := Some(GetCardBin(rows[i].cardName)));
      i := i + 1;
    }
  }

  /** The module's load cache: the catalogue is fetched at most once and every
      later request gets the same outcome, failure included; the story data is
      built once from it and then reused. */
  class CardStore {
    /** The settled catalogue load (`cardDataPromise`); None before the first request. */
    var cardData: Option<Result<seq<CardRow>, string>>
    /** The built story data (`window.STORY_CHART_DATA`). */
    var storyData: Option<map<string, seq<StoryRecord>>>
    /** How many times the CSV has been requested. */
    var fetches: nat

    ghost predicate Valid()
      reads this
    {
      && (cardData.None? <==> fetches == 0)
      && fetches <= 1
      && (cardData.Some? && cardData.value.Ok? ==> BinsAnnotated(cardData.value.value))
      && (storyData.Some? ==> cardData.Some? && cardData.value.Ok?
                              && storyData.value == StoryChartData(cardData.value.value))
    }

    constructor ()
      ensures Valid()
      ensures cardData == None && storyData == None && fetches == 0
    {
      cardData := None;
      storyData := None;
      fetches := 0;
    }

    /** `loadCardData()`. The outcome of the fetch is the parameter; it is
        consulted only on the first request. */
    method LoadCardData(fetched: Result<array<CardRow>, string>) returns (result: Result<seq<CardRow>, string>)
      requires Valid()
      modifies this, if fetched.Ok? then {fetched.value} else {}
      ensures Valid()
      ensures storyData == old(storyData)
      ensures cardData == Some(result)
      ensures old(cardData).Some? ==> result == old(cardData).value && fetches == old(fetches)
      ensures old(cardData).Some? && fetched.Ok? ==> unchanged(fetched.value)
      ensures old(cardData).None? ==> fetches == old(fetches) + 1
      ensures old(cardData).None? && fetched.Ok? ==>
                result == Ok(Annotated(old(fetched.value[..]))) && fetched.value[..] == result.value
      ensures old(cardData).None? && fetched.Err? ==> result == Err(fetched.error)
    {
      if cardData.None? {
        fetches := fetches + 1;
        match fetched {
          case Ok(rows) =>
            AnnotateBins(rows);
            result := Ok(rows[..]);
          case Err(e) =>
            result := Err(e);
        }
        cardData := Some(result);
      } else {
        result := cardData.value;
      }
    }

    /** `loadStoryData()`: reuse the built story data, or build it from the
        (cached) catalogue; a failed load is passed on and nothing is stored. */
    method LoadStoryData(fetched: Result<array<CardRow>, string>)
      returns (result: Result<map<string, seq<StoryRecord>>, string>)
      requires Valid()
      modifies this, if fetched.Ok? then {fetched.value} else {}
      ensures Valid()
      ensures old(storyData).Some? ==> result == Ok(old(storyData).value) && unchanged(this)
      ensures old(cardData).Some? ==> cardData == old(cardData) && fetches == old(fetches)
      ensures old(cardData).Some? && fetched.Ok? ==> unchanged(fetched.value)
      ensures old(storyData).None? && old(cardData).None? ==>
                && fetches == old(fetches) + 1
                && cardData == Some(if fetched.Ok? then Ok(Annotated(old(fetched.value[..]))) else Err(fetched.error))
      ensures old(storyData).None? ==>
                && cardData.Some?
                && (result.Ok? <==> cardData.value.Ok?)
                && (result.Ok? ==> result.value == StoryChartData(cardData.value.value) && storyData == Some(result.value))
                && (result.Err? ==> result.error == cardData.value.error && storyData == None)
    {
      if storyData.Some? {
        result := Ok(storyData.value);
        return;
      }
      var rows := LoadCardData(fetched);
      match rows
      case Err(e) =>
        result := Err(e);
      case Ok(catalogue) =>
        var built := BuildStoryChartData(catalogue);
        storyData := Some(built);
        result := Ok(built);
    }
  }
}
