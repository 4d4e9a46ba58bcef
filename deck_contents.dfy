/** Deck contents (`supabase_helpers.py`): the display name of an item, the
 *  assembly of a deck's contents from its join rows, and the join rows that
 *  `add_to_deck` creates and `remove_from_deck` deletes.  The database is a
 *  `Store` object holding the tables these functions read and write: the
 *  `cards` table, the three fate tables, and the `deck_cards` and
 *  `deck_fates` join tables.  A query returns the matching rows in table
 *  order. */
module DeckContents {
  import opened Wrappers
  import opened Text

  // ---------------------------------------------------------------------------
  // Rows

  /** A row of an item table: its id and its text columns. */
  datatype Record = Record(id: int, fields: map<string, string>)

  /** `obj.get(key)` */
  function Get(r: Record, key: string): Option<string>
  {
    if key in r.fields then Some(r.fields[key]) else None
  }

  /** `get_display_name(obj, type)`: rituals are named by their challenge. */
  function DisplayName(obj: Record, itemType: string): Option<string>
  {
    Get(obj, if itemType == "ritual" then "challenge_name" else "name")
  }

  /** A row of `deck_cards` or `deck_fates`: its id, the deck, the item and,
   *  in `deck_fates`, the fate type (empty in `deck_cards`). */
  datatype JoinRow = JoinRow(id: int, deckId: int, itemId: int, fateType: string)

  datatype Deck = Deck(contentType: Option<string>, id: int, name: string)

  datatype FateTables = FateTables(rituals: seq<Record>, events: seq<Record>, consumables: seq<Record>)

  /** The fate types, in the order the source tries them. */
  const FateTypes: seq<string> := ["ritual", "event", "consumable"]

  /** The table `fate_type + "s"`. */
  function TableOf(ft: FateTables, fateType: string): seq<Record>
  {
    if fateType == "ritual" then ft.rituals else if fateType == "event" then ft.events else ft.consumables
  }

  /** `str(content_type)` */
  function Show(s: Option<string>): string
  {
    if s.Some? then s.value else "None"
  }

  // ---------------------------------------------------------------------------
  // Queries

  /** `fetch_all(table, filters={"id": ids})` */
  function WithIds(table: seq<Record>, ids: seq<int>): (r: seq<Record>)
    ensures forall x :: x in r <==> x in table && x.id in ids
  {
    if table == [] then []
    else (if table[0].id in ids then [table[0]] else []) + WithIds(table[1..], ids)
  }

  /** `fetch_all(table, filters={key: value})` */
  function WithField(table: seq<Record>, key: string, value: string): (r: seq<Record>)
    ensures forall x :: x in r <==> x in table && Get(x, key) == Some(value)
  {
    if table == [] then []
    else (if Get(table[0], key) == Some(value) then [table[0]] else []) + WithField(table[1..], key, value)
  }

  /** The join rows of one deck. */
  function OfDeck(rows: seq<JoinRow>, deckId: int): (r: seq<JoinRow>)
    ensures IsSubsequence(r, rows)
    ensures forall x :: x in r <==> x in rows && x.deckId == deckId
  {
    if rows == [] then []
    else
      var rest := OfDeck(rows[1..], deckId);
      if rows[0].deckId == deckId then
        assert ([rows[0]] + rest)[1..] == rest;
        [rows[0]] + rest
      else
        rest
  }

  /** The join rows linking a deck to one item (of one fate type). */
  function Copies(rows: seq<JoinRow>, deckId: int, itemId: int, fateType: string): (r: seq<JoinRow>)
    ensures forall x :: x in r <==> x in rows && x.deckId == deckId && x.itemId == itemId && x.fateType == fateType
  {
    if rows == [] then []
    else
      (if rows[0].deckId == deckId && rows[0].itemId == itemId && rows[0].fateType == fateType then [rows[0]] else [])
        + Copies(rows[1..], deckId, itemId, fateType)
  }

  /** The rows left after `delete_record` of every id in `ids`. */
  function WithoutIds(rows: seq<JoinRow>, ids: set<int>): (r: seq<JoinRow>)
    ensures IsSubsequence(r, rows)
    ensures forall x :: x in r <==> x in rows && x.id !in ids
  {
    if rows == [] then []
    else
      var rest := WithoutIds(rows[1..], ids);
      if rows[0].id !in ids then
        assert ([rows[0]] + rest)[1..] == rest;
        [rows[0]] + rest
      else
        rest
  }

  function IdsOf(rows: seq<JoinRow>): set<int>
  {
    set x | x in rows :: x.id
  }

  /** The join table invariant: ids are distinct and below the next id. */
  predicate DistinctIds(rows: seq<JoinRow>)
  {
    forall i, j :: 0 <= i < j < |rows| ==> rows[i].id != rows[j].id
  }

  predicate ValidRows(rows: seq<JoinRow>, next: int)
  {
    DistinctIds(rows) && forall i :: 0 <= i < |rows| ==> rows[i].id < next
  }

  // ---------------------------------------------------------------------------
  // get_deck_contents

  /** An element of the returned list: a copy of the record with `item_type`
   *  set (full mode), or a display name. */
  datatype Entry = Full(record: Record) | Name(name: Option<string>)

  /** One join row as the assembly sees it: the item id, the `item_type` a
   *  full copy gets, and the type passed to `get_display_name`. */
  datatype Ref = Ref(id: int, itemType: string, displayType: string)

  function EntryOf(r: Record, ref: Ref, full: bool): Entry
  {
    if full then Full(Record(r.id, r.fields["item_type" := ref.itemType]))
    else Name(DisplayName(r, ref.displayType))
  }

  /** The result list built in join-row order from `id_to_obj`. */
  function Entries(refs: seq<Ref>, index: map<int, Record>, full: bool): seq<Entry>
  {
    if refs == [] then []
    else
      (if refs[0].id in index then [EntryOf(index[refs[0].id], refs[0], full)] else [])
        + Entries(refs[1..], index, full)
  }

  /** The join rows whose item was fetched, in join-row order. */
  function Found(refs: seq<Ref>, index: map<int, Record>): (r: seq<Ref>)
    ensures IsSubsequence(r, refs)
    ensures forall x :: x in r <==> x in refs && x.id in index
  {
    if refs == [] then []
    else
      var rest := Found(refs[1..], index);
      if refs[0].id in index then
        assert ([refs[0]] + rest)[1..] == rest;
        [refs[0]] + rest
      else
        rest
  }

  /** The result has one entry per fetched join row, in join-row order, built
   *  from that row's record: rows whose item was not fetched are skipped. */
  lemma {:induction false} EntriesOfFound(refs: seq<Ref>, index: map<int, Record>, full: bool)
    ensures |Entries(refs, index, full)| == |Found(refs, index)| <= |refs|
    ensures forall i :: 0 <= i < |Found(refs, index)| ==>
      Entries(refs, index, full)[i] == EntryOf(index[Found(refs, index)[i].id], Found(refs, index)[i], full)
  {
    if refs != [] {
      var rest := Found(refs[1..], index);
      var es := Entries(refs[1..], index, full);
      EntriesOfFound(refs[1..], index, full);
      if refs[0].id in index {
        assert Found(refs, index) == [refs[0]] + rest;
        assert Entries(refs, index, full) == [EntryOf(index[refs[0].id], refs[0], full)] + es;
      } else {
        assert Found(refs, index) == rest;
        assert Entries(refs, index, full) == [] + es == es;
      }
    }
  }

  /** When every item was fetched, the result has exactly one entry per join
   *  row, and in full mode entry i is the record of row i tagged with row i's
   *  item type. */
  lemma {:induction false} EntriesAllFound(refs: seq<Ref>, index: map<int, Record>, full: bool)
    requires forall i :: 0 <= i < |refs| ==> refs[i].id in index
    ensures |Entries(refs, index, full)| == |refs|
    ensures forall i :: 0 <= i < |refs| ==> Entries(refs, index, full)[i] == EntryOf(index[refs[i].id], refs[i], full)
  {
    if refs != [] {
      EntriesAllFound(refs[1..], index, full);
    }
  }

  /** `{r["id"]: r for r in records}`: a later record with the same id
   *  replaces an earlier one. */
  function IdMap(recs: seq<Record>): (m: map<int, Record>)
    ensures forall i :: 0 <= i < |recs| ==> recs[i].id in m
    ensures forall k :: k in m ==> m[k] in recs && m[k].id == k
    ensures recs != [] ==> m[recs[|recs| - 1].id] == recs[|recs| - 1]
  {
    if recs == [] then map[]
    else
      var init := IdMap(recs[..|recs| - 1]);
      assert forall i :: 0 <= i < |recs| - 1 ==> recs[..|recs| - 1][i] == recs[i];
      init[recs[|recs| - 1].id := recs[|recs| - 1]]
  }

  function CardRefs(rows: seq<JoinRow>): (refs: seq<Ref>)
    ensures |refs| == |rows|
    ensures forall i :: 0 <= i < |rows| ==> refs[i] == Ref(rows[i].itemId, "card", "cards")
  {
    seq(|rows|, i requires 0 <= i < |rows| => Ref(rows[i].itemId, "card", "cards"))
  }

  function FateRefs(rows: seq<JoinRow>): (refs: seq<Ref>)
    ensures |refs| == |rows|
    ensures forall i :: 0 <= i < |rows| ==> refs[i] == Ref(rows[i].itemId, rows[i].fateType, rows[i].fateType)
  {
    seq(|rows|, i requires 0 <= i < |rows| => Ref(rows[i].itemId, rows[i].fateType, rows[i].fateType))
  }

  function ItemIds(rows: seq<JoinRow>): (ids: seq<int>)
    ensures |ids| == |rows|
    ensures forall i :: 0 <= i < |rows| ==> ids[i] == rows[i].itemId
  {
    seq(|rows|, i requires 0 <= i < |rows| => rows[i].itemId)
  }

  /** The contents of a "cards" deck. */
  function CardContents(cards: seq<Record>, deckCards: seq<JoinRow>, deckId: int, full: bool): Result<seq<Entry>>
  {
    var rows := OfDeck(deckCards, deckId);
    if rows == [] then Ok([])
    else
      var cardData := WithIds(cards, ItemIds(rows));
      if cardData == [] then Err("Failed to fetch card data.")
      else Ok(Entries(CardRefs(rows), IdMap(cardData), full))
  }

  /** `fate_groups[fate_type]`: the fate ids of the rows of that type, in
   *  join-row order. */
  function Group(rows: seq<JoinRow>, fateType: string): seq<int>
  {
    if rows == [] then []
    else
      var last := rows[|rows| - 1];
      Group(rows[..|rows| - 1], fateType) + (if last.fateType == fateType then [last.itemId] else [])
  }

  function Groups(rows: seq<JoinRow>): (groups: map<string, seq<int>>)
  {
    map["ritual" := Group(rows, "ritual"), "event" := Group(rows, "event"), "consumable" := Group(rows, "consumable")]
  }

  /** The `for fate_type, ids in fate_groups.items()` loop from an accumulated
   *  `id_to_obj`: a type with ids whose query returns nothing fails. */
  function FateIndex(acc: map<int, Record>, groups: map<string, seq<int>>, ft: FateTables, types: seq<string>)
    : Result<map<int, Record>>
    requires forall i :: 0 <= i < |types| ==> types[i] in groups
    decreases |types|
  {
    if types == [] then Ok(acc)
    else
      var t := types[0];
      if groups[t] == [] then FateIndex(acc, groups, ft, types[1..])
      else
        var records := WithIds(TableOf(ft, t), groups[t]);
        if records == [] then Err("Failed to fetch " + t + " data.")
        else FateIndex(acc + IdMap(records), groups, ft, types[1..])
  }

  /** The contents of a "fates" deck. */
  function FateContents(ft: FateTables, deckFates: seq<JoinRow>, deckId: int, full: bool): Result<seq<Entry>>
  {
    var rows := OfDeck(deckFates, deckId);
    if rows == [] then Ok([])
    else
      match FateIndex(map[], Groups(rows), ft, FateTypes)
      case Err(e) => Err(e)
      case Ok(index) => Ok(Entries(FateRefs(rows), index, full))
  }

  /** `get_deck_contents(deck, full)`: the result list, or the failure message. */
  function DeckContents(cards: seq<Record>, ft: FateTables, deckCards: seq<JoinRow>, deckFates: seq<JoinRow>,
                        deck: Deck, full: bool): (r: Result<seq<Entry>>)
    ensures deck.contentType == Some("cards") && (forall x :: x in deckCards ==> x.deckId != deck.id) ==> r == Ok([])
    ensures deck.contentType == Some("fates") && (forall x :: x in deckFates ==> x.deckId != deck.id) ==> r == Ok([])
    ensures deck.contentType !in {Some("cards"), Some("fates")} ==>
      r == Err("Unsupported content type: " + Show(deck.contentType))
  {
    if deck.contentType == Some("cards") then CardContents(cards, deckCards, deck.id, full)
    else if deck.contentType == Some("fates") then FateContents(ft, deckFates, deck.id, full)
    else Err("Unsupported content type: " + Show(deck.contentType))
  }

  /** A successful "cards" result has at most one entry per join row of the
   *  deck, in join-row order, each built from the fetched record of its row;
   *  in full mode each is tagged "card". */
  lemma CardContentsShape(cards: seq<Record>, deckCards: seq<JoinRow>, deckId: int, full: bool)
    requires CardContents(cards, deckCards, deckId, full).Ok?
    ensures var rows := OfDeck(deckCards, deckId);
      var entries := CardContents(cards, deckCards, deckId, full).value;
      && |entries| <= |rows|
      && (rows != [] ==>
            var index := IdMap(WithIds(cards, ItemIds(rows)));
            var found := Found(CardRefs(rows), index);
            |entries| == |found| &&
            forall i :: 0 <= i < |found| ==>
              entries[i] == EntryOf(index[found[i].id], found[i], full) && found[i].itemType == "card")
  {
    var rows := OfDeck(deckCards, deckId);
    if rows != [] {
      var index := IdMap(WithIds(cards, ItemIds(rows)));
      EntriesOfFound(CardRefs(rows), index, full);
      var found := Found(CardRefs(rows), index);
      forall i | 0 <= i < |found|
        ensures found[i].itemType == "card"
      {
        assert found[i] in CardRefs(rows);
      }
    }
  }

  /** A successful "fates" result has at most one entry per join row of the
   *  deck, in join-row order, each built from the record found for its row;
   *  in full mode each is tagged with its row's fate type. */
  lemma FateContentsShape(ft: FateTables, deckFates: seq<JoinRow>, deckId: int, full: bool)
    requires FateContents(ft, deckFates, deckId, full).Ok?
    ensures var rows := OfDeck(deckFates, deckId);
      var entries := FateContents(ft, deckFates, deckId, full).value;
      && |entries| <= |rows|
      && (rows != [] ==>
            var index := FateIndex(map[], Groups(rows), ft, FateTypes).value;
            var found := Found(FateRefs(rows), index);
            |entries| == |found| &&
            forall i :: 0 <= i < |found| ==>
              entries[i] == EntryOf(index[found[i].id], found[i], full)
              && exists j :: 0 <= j < |rows| && found[i] == Ref(rows[j].itemId, rows[j].fateType, rows[j].fateType))
  {
    var rows := OfDeck(deckFates, deckId);
    if rows != [] {
      var index := FateIndex(map[], Groups(rows), ft, FateTypes).value;
      EntriesOfFound(FateRefs(rows), index, full);
      var found := Found(FateRefs(rows), index);
      forall i | 0 <= i < |found|
        ensures exists j :: 0 <= j < |rows| && found[i] == Ref(rows[j].itemId, rows[j].fateType, rows[j].fateType)
      {
        assert found[i] in FateRefs(rows);
        var j :| 0 <= j < |rows| && FateRefs(rows)[j] == found[i];
      }
    }
  }

  /** The rows of a type outside ritual, event and consumable. */
  function OtherTypes(rows: seq<JoinRow>): nat
  {
    if rows == [] then 0
    else OtherTypes(rows[..|rows| - 1]) + (if rows[|rows| - 1].fateType in FateTypes then 0 else 1)
  }

  /** A fate id is in a type's group exactly when a join row of that type
   *  carries it. */
  lemma {:induction false} GroupMembers(rows: seq<JoinRow>, fateType: string, x: int)
    ensures x in Group(rows, fateType) <==>
      exists i :: 0 <= i < |rows| && rows[i].fateType == fateType && rows[i].itemId == x
  {
    if rows != [] {
      var init := rows[..|rows| - 1];
      GroupMembers(init, fateType, x);
      assert forall i :: 0 <= i < |init| ==> init[i] == rows[i];
    }
  }

  /** Every row of one of the three fate types lands in exactly one group,
   *  and the rows of any other type are dropped. */
  lemma {:induction false} GroupsDropOthers(rows: seq<JoinRow>)
    ensures |Group(rows, "ritual")| + |Group(rows, "event")| + |Group(rows, "consumable")| + OtherTypes(rows) == |rows|
  {
    if rows != [] {
      GroupsDropOthers(rows[..|rows| - 1]);
    }
  }

  /** Fate ids are looked up in one map shared by the three fate tables, so a
   *  ritual and an event with the same id collide: the event fetched later
   *  replaces the ritual, and the ritual's row shows the event's missing
   *  challenge name. */
  lemma FateIdsShareOneMap()
    ensures
      var ritual := Record(1, map["challenge_name" := "Trial"]);
      var event := Record(1, map["name" := "Storm"]);
      var ft := FateTables([ritual], [event], []);
      var rows := [JoinRow(10, 7, 1, "ritual"), JoinRow(11, 7, 1, "event")];
      FateContents(ft, rows, 7, false) == Ok([Name(None), Name(Some("Storm"))])
  {
    var rows := [JoinRow(10, 7, 1, "ritual"), JoinRow(11, 7, 1, "event")];
    assert rows[1..][1..] == [];
    assert OfDeck(rows, 7) == rows;
    SharedIndex();
    SharedEntries();
  }

  /** The ritual's and the event's id 1 end in one map entry: the event's. */
  lemma SharedIndex()
    ensures
      var ritual := Record(1, map["challenge_name" := "Trial"]);
      var event := Record(1, map["name" := "Storm"]);
      var rows := [JoinRow(10, 7, 1, "ritual"), JoinRow(11, 7, 1, "event")];
      FateIndex(map[], Groups(rows), FateTables([ritual], [event], []), FateTypes) == Ok(map[1 := event])
  {
    var ritual := Record(1, map["challenge_name" := "Trial"]);
    var event := Record(1, map["name" := "Storm"]);
    var ft := FateTables([ritual], [event], []);
    var rows := [JoinRow(10, 7, 1, "ritual"), JoinRow(11, 7, 1, "event")];
    SharedGroups();
    var groups := Groups(rows);
    assert WithIds([ritual], [1]) == [ritual];
    assert WithIds([event], [1]) == [event];
    assert IdMap([ritual]) == map[1 := ritual] by {
      assert [ritual][..0] == [];
    }
    assert IdMap([event]) == map[1 := event] by {
      assert [event][..0] == [];
    }
    assert ["consumable"][1..] == [];
    assert FateTypes[0] == "ritual" && FateTypes[1..] == ["event", "consumable"];
    assert ["event", "consumable"][0] == "event" && ["event", "consumable"][1..] == ["consumable"];
    assert map[] + map[1 := ritual] == map[1 := ritual];
    assert map[1 := ritual] + map[1 := event] == map[1 := event];
    assert FateIndex(map[1 := event], groups, ft, ["consumable"]) == Ok(map[1 := event]);
    assert FateIndex(map[1 := ritual], groups, ft, ["event", "consumable"]) == Ok(map[1 := event]);
  }

  lemma SharedGroups()
    ensures Groups([JoinRow(10, 7, 1, "ritual"), JoinRow(11, 7, 1, "event")])
      == map["ritual" := [1], "event" := [1], "consumable" := []]
  {
    var rows := [JoinRow(10, 7, 1, "ritual"), JoinRow(11, 7, 1, "event")];
    assert rows[..1] == [rows[0]] && rows[..1][..0] == [];
    assert Group(rows, "ritual") == [1];
    assert Group(rows, "event") == [1];
    assert Group(rows, "consumable") == [];
  }

  /** Both rows look up the event, which has no challenge name. */
  lemma SharedEntries()
    ensures
      var event := Record(1, map["name" := "Storm"]);
      var rows := [JoinRow(10, 7, 1, "ritual"), JoinRow(11, 7, 1, "event")];
      Entries(FateRefs(rows), map[1 := event], false) == [Name(None), Name(Some("Storm"))]
  {
    var event := Record(1, map["name" := "Storm"]);
    var rows := [JoinRow(10, 7, 1, "ritual"), JoinRow(11, 7, 1, "event")];
    var refs := FateRefs(rows);
    var index := map[1 := event];
    assert refs == [Ref(1, "ritual", "ritual"), Ref(1, "event", "event")];
    assert refs[1..][1..] == [];
    assert DisplayName(event, "ritual") == None && DisplayName(event, "event") == Some("Storm");
    assert Entries(refs[1..][1..], index, false) == [];
    assert Entries(refs[1..], index, false) == [Name(Some("Storm"))];
  }

  // ---------------------------------------------------------------------------
  // add_to_deck and remove_from_deck on the join tables

  /** The tables as an immutable value, for the specification functions. */
  datatype Joins = Joins(deckCards: seq<JoinRow>, deckFates: seq<JoinRow>, nextCardRow: int, nextFateRow: int)

  /** Both join tables keep the row invariant, and `deck_cards` rows carry no
   *  fate type. */
  predicate ValidJoins(js: Joins)
  {
    && ValidRows(js.deckCards, js.nextCardRow) && ValidRows(js.deckFates, js.nextFateRow)
    && forall x :: x in js.deckCards ==> x.fateType == ""
  }

  /** `n` new join rows for one item, with ids from `start` on. */
  function NewRows(start: int, deckId: int, itemId: int, fateType: string, n: nat): (rows: seq<JoinRow>)
    ensures |rows| == n
    ensures forall k :: 0 <= k < n ==> rows[k] == JoinRow(start + k, deckId, itemId, fateType)
  {
    seq(n, k requires 0 <= k < n => JoinRow(start + k, deckId, itemId, fateType))
  }

  /** The first fate type, in the order ritual, event, consumable, with a
   *  record titled `item`, and that table's first such record. */
  function FirstFate(ft: FateTables, item: string, types: seq<string>): (r: Option<(string, Record)>)
    ensures r.None? <==> forall i :: 0 <= i < |types| ==> WithField(TableOf(ft, types[i]), "title", item) == []
  {
    if types == [] then None
    else
      var matches := WithField(TableOf(ft, types[0]), "title", item);
      if matches != [] then Some((types[0], matches[0]))
      else
        assert forall i :: 1 <= i < |types| ==> types[i] == types[1..][i - 1];
        FirstFate(ft, item, types[1..])
  }

  function AddedMessage(deck: Deck, item: string, count: int): string
  {
    "\U{2705} Added " + IntToDecimal(count) + "x **" + item + "** to deck **" + deck.name + "**."
  }

  function RemovedMessage(deck: Deck, item: string, count: int): string
  {
    "\U{1F5D1}\U{FE0F} Removed " + IntToDecimal(count) + "x **" + item + "** from **" + deck.name + "**."
  }

  function NoCardMessage(item: string): string { "\U{274C} No card found named '" + item + "'." }

  function NoFateMessage(item: string): string { "\U{274C} No fate found named '" + item + "'." }

  function NoCopiesMessage(item: string): string { "\U{274C} No copies of '" + item + "' found in this deck." }

  function UnsupportedMessage(deck: Deck): string { "\U{274C} Unsupported deck type: " + Show(deck.contentType) }

  /** `add_to_deck(deck, item_name, quantity)`: the new join tables, the
   *  success flag and the message.  `range(quantity)` is empty for a
   *  negative quantity, while the message repeats the quantity as given. */
  function AddSpec(js: Joins, cards: seq<Record>, ft: FateTables, deck: Deck, item: string, quantity: int)
    : (r: (Joins, bool, string))
    ensures r.1 <==>
      || (deck.contentType == Some("cards") && WithField(cards, "name", item) != [])
      || (deck.contentType == Some("fates") && FirstFate(ft, item, FateTypes).Some?)
    ensures !r.1 ==> r.0 == js
    ensures r.1 ==> r.2 == AddedMessage(deck, item, quantity)
  {
    var n := Max(quantity, 0);
    if deck.contentType == Some("cards") then
      var matches := WithField(cards, "name", item);
      if matches == [] then (js, false, NoCardMessage(item))
      else
        (js.(deckCards := js.deckCards + NewRows(js.nextCardRow, deck.id, matches[0].id, "", n),
             nextCardRow := js.nextCardRow + n),
         true, AddedMessage(deck, item, quantity))
    else if deck.contentType == Some("fates") then
      match FirstFate(ft, item, FateTypes)
      case None => (js, false, NoFateMessage(item))
      case Some((t, fate)) =>
        (js.(deckFates := js.deckFates + NewRows(js.nextFateRow, deck.id, fate.id, t, n),
             nextFateRow := js.nextFateRow + n),
         true, AddedMessage(deck, item, quantity))
    else (js, false, UnsupportedMessage(deck))
  }

  /** The tables `add_to_deck` leaves once the card is found. */
  lemma AddSpecOfCard(js: Joins, cards: seq<Record>, ft: FateTables, deck: Deck, item: string, quantity: int)
    requires deck.contentType == Some("cards") && WithField(cards, "name", item) != []
    ensures var n := Max(quantity, 0);
      AddSpec(js, cards, ft, deck, item, quantity)
        == (js.(deckCards := js.deckCards + NewRows(js.nextCardRow, deck.id, WithField(cards, "name", item)[0].id, "", n),
                nextCardRow := js.nextCardRow + n),
            true, AddedMessage(deck, item, quantity))
  {
  }

  /** The tables `add_to_deck` leaves once the fate is found. */
  lemma AddSpecOfFate(js: Joins, cards: seq<Record>, ft: FateTables, deck: Deck, item: string, quantity: int,
                      fateType: string, fate: Record)
    requires deck.contentType == Some("fates") && FirstFate(ft, item, FateTypes) == Some((fateType, fate))
    ensures var n := Max(quantity, 0);
      AddSpec(js, cards, ft, deck, item, quantity)
        == (js.(deckFates := js.deckFates + NewRows(js.nextFateRow, deck.id, fate.id, fateType, n),
                nextFateRow := js.nextFateRow + n),
            true, AddedMessage(deck, item, quantity))
  {
  }

  /** `join_rows[:quantity]` deleted from a join table. */
  function DeleteFirst(rows: seq<JoinRow>, matching: seq<JoinRow>, quantity: int): (seq<JoinRow>, int)
  {
    var toDelete := PyPrefix(matching, quantity);
    (WithoutIds(rows, IdsOf(toDelete)), |toDelete|)
  }

  /** The fate branch of `remove_from_deck`: types without a titled record are
   *  skipped; the first type with one decides, even when the deck holds no
   *  copy of it. */
  function RemoveFate(js: Joins, ft: FateTables, deck: Deck, item: string, quantity: int, types: seq<string>)
    : (r: (Joins, bool, string))
    ensures !r.1 ==> r.0 == js
    ensures r.0.deckCards == js.deckCards && r.0.nextCardRow == js.nextCardRow && r.0.nextFateRow == js.nextFateRow
    ensures (forall i :: 0 <= i < |types| ==> WithField(TableOf(ft, types[i]), "title", item) == []) ==>
      r == (js, false, NoFateMessage(item))
    decreases |types|
  {
    if types == [] then (js, false, NoFateMessage(item))
    else
      var fates := WithField(TableOf(ft, types[0]), "title", item);
      if fates == [] then RemoveFate(js, ft, deck, item, quantity, types[1..])
      else
        var joinRows := Copies(js.deckFates, deck.id, fates[0].id, types[0]);
        if joinRows == [] then (js, false, NoCopiesMessage(item))
        else
          var (rest, count) := DeleteFirst(js.deckFates, joinRows, quantity);
          (js.(deckFates := rest), true, RemovedMessage(deck, item, count))
  }

  /** `remove_from_deck(deck, item_name, quantity)` */
  function RemoveSpec(js: Joins, cards: seq<Record>, ft: FateTables, deck: Deck, item: string, quantity: int)
    : (r: (Joins, bool, string))
    ensures !r.1 ==> r.0 == js
    ensures r.0.nextCardRow == js.nextCardRow && r.0.nextFateRow == js.nextFateRow
    ensures deck.contentType == Some("cards") ==>
      (r.1 <==> WithField(cards, "name", item) != []
                && Copies(js.deckCards, deck.id, WithField(cards, "name", item)[0].id, "") != [])
    ensures deck.contentType == Some("cards") && WithField(cards, "name", item) == [] ==>
      r == (js, false, NoCardMessage(item))
    ensures deck.contentType == Some("fates") && FirstFate(ft, item, FateTypes).None? ==>
      r == (js, false, NoFateMessage(item))
    ensures deck.contentType !in {Some("cards"), Some("fates")} ==> r == (js, false, UnsupportedMessage(deck))
  {
    if deck.contentType == Some("cards") then
      var matches := WithField(cards, "name", item);
      if matches == [] then (js, false, NoCardMessage(item))
      else
        var joinRows := Copies(js.deckCards, deck.id, matches[0].id, "");
        if joinRows == [] then (js, false, NoCopiesMessage(item))
        else
          var (rest, count) := DeleteFirst(js.deckCards, joinRows, quantity);
          (js.(deckCards := rest), true, RemovedMessage(deck, item, count))
    else if deck.contentType == Some("fates") then RemoveFate(js, ft, deck, item, quantity, FateTypes)
    else (js, false, UnsupportedMessage(deck))
  }

  // ---------------------------------------------------------------------------
  // Counting lemmas

  lemma {:induction false} CopiesAppend(a: seq<JoinRow>, b: seq<JoinRow>, deckId: int, itemId: int, fateType: string)
    ensures Copies(a + b, deckId, itemId, fateType) == Copies(a, deckId, itemId, fateType) + Copies(b, deckId, itemId, fateType)
  {
    if a == [] {
      assert a + b == b;
    } else {
      assert (a + b)[0] == a[0];
      assert (a + b)[1..] == a[1..] + b;
      CopiesAppend(a[1..], b, deckId, itemId, fateType);
    }
  }

  lemma {:induction false} CopiesOfNew(start: int, deckId: int, itemId: int, fateType: string, n: nat)
    decreases n
    ensures Copies(NewRows(start, deckId, itemId, fateType, n), deckId, itemId, fateType) == NewRows(start, deckId, itemId, fateType, n)
  {
    var rows := NewRows(start, deckId, itemId, fateType, n);
    if n > 0 {
      assert rows[1..] == NewRows(start + 1, deckId, itemId, fateType, n - 1);
      CopiesOfNew(start + 1, deckId, itemId, fateType, n - 1);
    }
  }

  /** Adding creates exactly max(quantity, 0) copies of the item in the deck,
   *  keeps the old rows, and keeps the ids distinct. */
  lemma AddCounts(rows: seq<JoinRow>, next: int, deckId: int, itemId: int, fateType: string, quantity: int)
    requires ValidRows(rows, next)
    ensures var added := rows + NewRows(next, deckId, itemId, fateType, Max(quantity, 0));
      && |Copies(added, deckId, itemId, fateType)| == |Copies(rows, deckId, itemId, fateType)| + Max(quantity, 0)
      && added[..|rows|] == rows
      && ValidRows(added, next + Max(quantity, 0))
  {
    var n := Max(quantity, 0);
    CopiesAppend(rows, NewRows(next, deckId, itemId, fateType, n), deckId, itemId, fateType);
    CopiesOfNew(next, deckId, itemId, fateType, n);
    NewRowsValid(rows, next, deckId, itemId, fateType, n);
  }

  /** Rows numbered from the next id on keep the ids distinct. */
  lemma NewRowsValid(rows: seq<JoinRow>, next: int, deckId: int, itemId: int, fateType: string, n: nat)
    requires ValidRows(rows, next)
    ensures ValidRows(rows + NewRows(next, deckId, itemId, fateType, n), next + n)
  {
    var added := rows + NewRows(next, deckId, itemId, fateType, n);
    assert forall i :: |rows| <= i < |added| ==> added[i].id == next + (i - |rows|);
    assert forall i :: 0 <= i < |rows| ==> added[i] == rows[i];
  }

  lemma {:induction false} SubsequenceDistinct(a: seq<JoinRow>, b: seq<JoinRow>)
    requires IsSubsequence(a, b) && DistinctIds(b)
    ensures DistinctIds(a)
    ensures forall x :: x in a ==> x in b
    decreases |b|
  {
    if a != [] {
      assert b != [];
      if a[0] == b[0] && IsSubsequence(a[1..], b[1..]) {
        SubsequenceDistinct(a[1..], b[1..]);
        forall j | 0 < j < |a|
          ensures a[0].id != a[j].id
        {
          assert a[j] in a[1..];
          var k :| 0 <= k < |b[1..]| && b[1..][k] == a[j];
          assert b[k + 1] == a[j];
        }
        assert forall x :: x in a ==> x == a[0] || x in a[1..];
      } else {
        SubsequenceDistinct(a, b[1..]);
      }
    }
  }

  /** Deleting the ids of a prefix of a list with distinct ids leaves its
   *  remainder. */
  lemma {:induction false} WithoutPrefix(m: seq<JoinRow>, k: nat, ids: set<int>)
    requires k <= |m|
    requires forall i :: 0 <= i < k ==> m[i].id in ids
    requires forall i :: k <= i < |m| ==> m[i].id !in ids
    ensures WithoutIds(m, ids) == m[k..]
  {
    if m != [] {
      WithoutPrefix(m[1..], if k > 0 then k - 1 else 0, ids);
      if k == 0 {
        assert [m[0]] + m[1..] == m;
      }
    }
  }

  lemma {:induction false} CopiesWithout(rows: seq<JoinRow>, ids: set<int>, deckId: int, itemId: int, fateType: string)
    ensures Copies(WithoutIds(rows, ids), deckId, itemId, fateType) == WithoutIds(Copies(rows, deckId, itemId, fateType), ids)
  {
    if rows != [] {
      var h, t := rows[0], rows[1..];
      CopiesWithout(t, ids, deckId, itemId, fateType);
      var w := WithoutIds(t, ids);
      var c := Copies(t, deckId, itemId, fateType);
      var hit := h.deckId == deckId && h.itemId == itemId && h.fateType == fateType;
      assert ([h] + w)[1..] == w && ([h] + c)[1..] == c;
      if h.id !in ids {
        assert WithoutIds(rows, ids) == [h] + w;
        if hit {
          assert Copies([h] + w, deckId, itemId, fateType) == [h] + Copies(w, deckId, itemId, fateType);
          assert WithoutIds([h] + c, ids) == [h] + WithoutIds(c, ids);
        } else {
          assert Copies([h] + w, deckId, itemId, fateType) == Copies(w, deckId, itemId, fateType);
          assert Copies(rows, deckId, itemId, fateType) == [] + c == c;
        }
      } else {
        assert WithoutIds(rows, ids) == w;
        if !hit {
          assert Copies(rows, deckId, itemId, fateType) == [] + c == c;
        } else {
          assert WithoutIds([h] + c, ids) == WithoutIds(c, ids);
        }
      }
    }
  }

  lemma {:induction false} CopiesSubsequence(rows: seq<JoinRow>, deckId: int, itemId: int, fateType: string)
    ensures IsSubsequence(Copies(rows, deckId, itemId, fateType), rows)
  {
    if rows != [] {
      CopiesSubsequence(rows[1..], deckId, itemId, fateType);
      var rest := Copies(rows[1..], deckId, itemId, fateType);
      if rows[0].deckId == deckId && rows[0].itemId == itemId && rows[0].fateType == fateType {
        assert ([rows[0]] + rest)[1..] == rest;
      } else {
        assert [] + rest == rest;
      }
    }
  }

  /** Removing deletes the first min(quantity, n) copies for a quantity of 0
   *  or more (all but the last -quantity for a negative one): the deck's
   *  remaining copies of the item are exactly the later ones, the count
   *  reported is the number deleted, other rows stay, and ids stay distinct. */
  lemma RemoveCounts(rows: seq<JoinRow>, next: int, deckId: int, itemId: int, fateType: string, quantity: int)
    requires ValidRows(rows, next)
    ensures var matching := Copies(rows, deckId, itemId, fateType);
      var (rest, count) := DeleteFirst(rows, matching, quantity);
      && count == |PyPrefix(matching, quantity)|
      && (quantity >= 0 ==> count == Min(quantity, |matching|))
      && Copies(rest, deckId, itemId, fateType) == matching[count..]
      && (forall x :: x in rows && x !in matching ==> x in rest)
      && ValidRows(rest, next)
  {
    var matching := Copies(rows, deckId, itemId, fateType);
    var toDelete := PyPrefix(matching, quantity);
    var k := |toDelete|;
    assert toDelete == matching[..k];
    var rest := WithoutIds(rows, IdsOf(toDelete));
    assert DeleteFirst(rows, matching, quantity) == (rest, k);
    CopiesSubsequence(rows, deckId, itemId, fateType);
    SubsequenceDistinct(matching, rows);
    DeletePrefixOfCopies(rows, deckId, itemId, fateType, k);
    DeletePrefixKeepsOthers(rows, deckId, itemId, fateType, k);
    SubsequenceValid(rest, rows, next);
  }

  lemma SubsequenceValid(a: seq<JoinRow>, b: seq<JoinRow>, next: int)
    requires IsSubsequence(a, b) && ValidRows(b, next)
    ensures ValidRows(a, next)
  {
    SubsequenceDistinct(a, b);
    forall i | 0 <= i < |a|
      ensures a[i].id < next
    {
      assert a[i] in b;
    }
  }

  /** Deleting the first k copies leaves exactly the later copies. */
  lemma DeletePrefixOfCopies(rows: seq<JoinRow>, deckId: int, itemId: int, fateType: string, k: nat)
    requires DistinctIds(Copies(rows, deckId, itemId, fateType))
    requires k <= |Copies(rows, deckId, itemId, fateType)|
    ensures var matching := Copies(rows, deckId, itemId, fateType);
      Copies(WithoutIds(rows, IdsOf(matching[..k])), deckId, itemId, fateType) == matching[k..]
  {
    var matching := Copies(rows, deckId, itemId, fateType);
    var ids := IdsOf(matching[..k]);
    PrefixIds(matching, k);
    WithoutPrefix(matching, k, ids);
    CopiesWithout(rows, ids, deckId, itemId, fateType);
  }

  /** Deleting copies of one item keeps every row that is not such a copy. */
  lemma DeletePrefixKeepsOthers(rows: seq<JoinRow>, deckId: int, itemId: int, fateType: string, k: nat)
    requires DistinctIds(rows)
    requires k <= |Copies(rows, deckId, itemId, fateType)|
    ensures var matching := Copies(rows, deckId, itemId, fateType);
      forall x :: x in rows && x !in matching ==> x in WithoutIds(rows, IdsOf(matching[..k]))
  {
    var matching := Copies(rows, deckId, itemId, fateType);
    var toDelete := matching[..k];
    var ids := IdsOf(toDelete);
    forall x | x in rows && x !in matching
      ensures x in WithoutIds(rows, ids)
    {
      if x.id in ids {
        var y :| y in toDelete && y.id == x.id;
        assert y in matching;
        SameIdSameRow(rows, x, y);
      }
    }
  }

  /** Adding `quantity` copies of a card and then removing as many leaves the
   *  deck with as many copies of it as before, and both calls succeed. */
  lemma AddThenRemoveCard(js: Joins, cards: seq<Record>, ft: FateTables, deck: Deck, item: string, quantity: nat)
    requires ValidJoins(js)
    requires deck.contentType == Some("cards") && WithField(cards, "name", item) != [] && quantity >= 1
    ensures var cardId := WithField(cards, "name", item)[0].id;
      var added := AddSpec(js, cards, ft, deck, item, quantity);
      var removed := RemoveSpec(added.0, cards, ft, deck, item, quantity);
      && added.1 && removed.1
      && removed.2 == RemovedMessage(deck, item, quantity)
      && |Copies(removed.0.deckCards, deck.id, cardId, "")| == |Copies(js.deckCards, deck.id, cardId, "")|
      && ValidJoins(removed.0)
  {
    var cardId := WithField(cards, "name", item)[0].id;
    AddCounts(js.deckCards, js.nextCardRow, deck.id, cardId, "", quantity);
    var added := AddSpec(js, cards, ft, deck, item, quantity);
    RemoveCounts(added.0.deckCards, added.0.nextCardRow, deck.id, cardId, "", quantity);
  }

  /** In a list with distinct ids, the ids of a prefix are exactly those of
   *  its elements before the cut. */
  lemma PrefixIds(m: seq<JoinRow>, k: nat)
    requires DistinctIds(m) && k <= |m|
    ensures forall i :: 0 <= i < k ==> m[i].id in IdsOf(m[..k])
    ensures forall i :: k <= i < |m| ==> m[i].id !in IdsOf(m[..k])
  {
    forall i | 0 <= i < k
      ensures m[i].id in IdsOf(m[..k])
    {
      assert m[..k][i] == m[i];
    }
  }

  lemma SameIdSameRow(rows: seq<JoinRow>, x: JoinRow, y: JoinRow)
    requires DistinctIds(rows) && x in rows && y in rows && x.id == y.id
    ensures x == y
  {
    var i :| 0 <= i < |rows| && rows[i] == x;
    var j :| 0 <= j < |rows| && rows[j] == y;
    assert !(i < j) && !(j < i);
  }

  // ---------------------------------------------------------------------------
  // The database

  class Store {
    var cards: seq<Record>
    var fates: FateTables
    var deckCards: seq<JoinRow>
    var deckFates: seq<JoinRow>
    /** The ids the database gives the next new row of each join table. */
    var nextCardRow: int
    var nextFateRow: int

    function State(): Joins
      reads this
    {
      Joins(deckCards, deckFates, nextCardRow, nextFateRow)
    }

    predicate Valid()
      reads this
    {
      ValidJoins(State())
    }

    /** A database with the given item tables and empty join tables. */
    constructor (cards: seq<Record>, fates: FateTables)
      ensures this.cards == cards && this.fates == fates
      ensures State() == Joins([], [], 0, 0)
      ensures Valid()
    {
      this.cards := cards;
      this.fates := fates;
      deckCards := [];
      deckFates := [];
      nextCardRow := 0;
      nextFateRow := 0;
    }

    /** `create_record("deck_cards" | "deck_fates", ...)` */
    method CreateJoinRow(fateTable: bool, deckId: int, itemId: int, fateType: string)
      modifies this
      ensures cards == old(cards) && fates == old(fates)
      ensures fateTable ==>
        deckFates == old(deckFates) + [JoinRow(old(nextFateRow), deckId, itemId, fateType)]
        && nextFateRow == old(nextFateRow) + 1 && deckCards == old(deckCards) && nextCardRow == old(nextCardRow)
      ensures !fateTable ==>
        deckCards == old(deckCards) + [JoinRow(old(nextCardRow), deckId, itemId, fateType)]
        && nextCardRow == old(nextCardRow) + 1 && deckFates == old(deckFates) && nextFateRow == old(nextFateRow)
    {
      if fateTable {
        deckFates := deckFates + [JoinRow(nextFateRow, deckId, itemId, fateType)];
        nextFateRow := nextFateRow + 1;
      } else {
        deckCards := deckCards + [JoinRow(nextCardRow, deckId, itemId, fateType)];
        nextCardRow := nextCardRow + 1;
      }
    }

    /** `delete_record("deck_cards" | "deck_fates", id)` */
    method DeleteJoinRow(fateTable: bool, id: int)
      modifies this
      ensures cards == old(cards) && fates == old(fates) && nextCardRow == old(nextCardRow) && nextFateRow == old(nextFateRow)
      ensures fateTable ==> deckFates == WithoutIds(old(deckFates), {id}) && deckCards == old(deckCards)
      ensures !fateTable ==> deckCards == WithoutIds(old(deckCards), {id}) && deckFates == old(deckFates)
    {
      if fateTable {
        deckFates := WithoutIds(deckFates, {id});
      } else {
        deckCards := WithoutIds(deckCards, {id});
      }
    }

    /** The `for _ in range(quantity)` loop. */
    method CreateCopies(fateTable: bool, deckId: int, itemId: int, fateType: string, quantity: int)
      modifies this
      ensures cards == old(cards) && fates == old(fates)
      ensures fateTable ==>
        deckFates == old(deckFates) + NewRows(old(nextFateRow), deckId, itemId, fateType, Max(quantity, 0))
        && nextFateRow == old(nextFateRow) + Max(quantity, 0) && deckCards == old(deckCards) && nextCardRow == old(nextCardRow)
      ensures !fateTable ==>
        deckCards == old(deckCards) + NewRows(old(nextCardRow), deckId, itemId, fateType, Max(quantity, 0))
        && nextCardRow == old(nextCardRow) + Max(quantity, 0) && deckFates == old(deckFates) && nextFateRow == old(nextFateRow)
    {
      var i := 0;
      while i < quantity
        invariant 0 <= i <= Max(quantity, 0)
        invariant cards == old(cards) && fates == old(fates)
        invariant fateTable ==>
          deckFates == old(deckFates) + NewRows(old(nextFateRow), deckId, itemId, fateType, i)
          && nextFateRow == old(nextFateRow) + i && deckCards == old(deckCards) && nextCardRow == old(nextCardRow)
        invariant !fateTable ==>
          deckCards == old(deckCards) + NewRows(old(nextCardRow), deckId, itemId, fateType, i)
          && nextCardRow == old(nextCardRow) + i && deckFates == old(deckFates) && nextFateRow == old(nextFateRow)
      {
        CreateJoinRow(fateTable, deckId, itemId, fateType);
        assert NewRows(old(nextFateRow), deckId, itemId, fateType, i + 1)
          == NewRows(old(nextFateRow), deckId, itemId, fateType, i) + [JoinRow(old(nextFateRow) + i, deckId, itemId, fateType)];
        assert NewRows(old(nextCardRow), deckId, itemId, fateType, i + 1)
          == NewRows(old(nextCardRow), deckId, itemId, fateType, i) + [JoinRow(old(nextCardRow) + i, deckId, itemId, fateType)];
        i := i + 1;
      }
    }

    /** The `for row in to_delete` loop. */
    method DeleteRows(fateTable: bool, toDelete: seq<JoinRow>)
      modifies this
      ensures cards == old(cards) && fates == old(fates) && nextCardRow == old(nextCardRow) && nextFateRow == old(nextFateRow)
      ensures fateTable ==> deckFates == WithoutIds(old(deckFates), IdsOf(toDelete)) && deckCards == old(deckCards)
      ensures !fateTable ==> deckCards == WithoutIds(old(deckCards), IdsOf(toDelete)) && deckFates == old(deckFates)
    {
      var i := 0;
      assert IdsOf(toDelete[..0]) == {};
      WithoutNone(old(deckFates));
      WithoutNone(old(deckCards));
      while i < |toDelete|
        invariant 0 <= i <= |toDelete|
        invariant cards == old(cards) && fates == old(fates) && nextCardRow == old(nextCardRow) && nextFateRow == old(nextFateRow)
        invariant fateTable ==> deckFates == WithoutIds(old(deckFates), IdsOf(toDelete[..i])) && deckCards == old(deckCards)
        invariant !fateTable ==> deckCards == WithoutIds(old(deckCards), IdsOf(toDelete[..i])) && deckFates == old(deckFates)
      {
        ghost var before := if fateTable then deckFates else deckCards;
        DeleteJoinRow(fateTable, toDelete[i].id);
        assert IdsOf(toDelete[..i + 1]) == IdsOf(toDelete[..i]) + {toDelete[i].id} by {
          assert toDelete[..i + 1] == toDelete[..i] + [toDelete[i]];
        }
        WithoutTwice(if fateTable then old(deckFates) else old(deckCards), IdsOf(toDelete[..i]), toDelete[i].id);
        i := i + 1;
      }
      assert toDelete[..i] == toDelete;
    }

    /** `add_to_deck(deck, item_name, quantity)` */
    method AddToDeck(deck: Deck, item: string, quantity: int) returns (ok: bool, message: string)
      requires Valid()
      modifies this
      ensures cards == old(cards) && fates == old(fates)
      ensures (State(), ok, message) == AddSpec(old(State()), cards, fates, deck, item, quantity)
      ensures Valid()
    {
      if deck.contentType == Some("cards") {
        var found := WithField(cards, "name", item);
        if found == [] {
          return false, NoCardMessage(item);
        }
        ok, message := AddCard(deck, item, quantity, found[0]);
      } else if deck.contentType == Some("fates") {
        var hit := FindFate(item);
        if hit.None? {
          return false, NoFateMessage(item);
        }
        var (fateType, fate) := hit.value;
        ok, message := AddFate(deck, item, quantity, fateType, fate);
      } else {
        return false, UnsupportedMessage(deck);
      }
    }

    /** The "cards" branch of `add_to_deck` once the card is found. */
    method AddCard(deck: Deck, item: string, quantity: int, card: Record) returns (ok: bool, message: string)
      requires Valid() && deck.contentType == Some("cards")
      requires WithField(cards, "name", item) != [] && card == WithField(cards, "name", item)[0]
      modifies this
      ensures cards == old(cards) && fates == old(fates)
      ensures (State(), ok, message) == AddSpec(old(State()), cards, fates, deck, item, quantity)
      ensures Valid()
    {
      AddSpecOfCard(State(), cards, fates, deck, item, quantity);
      AddCounts(deckCards, nextCardRow, deck.id, card.id, "", quantity);
      CreateCopies(false, deck.id, card.id, "", quantity);
      return true, AddedMessage(deck, item, quantity);
    }

    /** The "fates" branch of `add_to_deck` once the fate is found. */
    method AddFate(deck: Deck, item: string, quantity: int, fateType: string, fate: Record)
      returns (ok: bool, message: string)
      requires Valid() && deck.contentType == Some("fates")
      requires FirstFate(fates, item, FateTypes) == Some((fateType, fate))
      modifies this
      ensures cards == old(cards) && fates == old(fates)
      ensures (State(), ok, message) == AddSpec(old(State()), cards, fates, deck, item, quantity)
      ensures Valid()
    {
      AddSpecOfFate(State(), cards, fates, deck, item, quantity, fateType, fate);
      AddCounts(deckFates, nextFateRow, deck.id, fate.id, fateType, quantity);
      CreateCopies(true, deck.id, fate.id, fateType, quantity);
      return true, AddedMessage(deck, item, quantity);
    }

    /** The search loop of `add_to_deck` over the fate tables by title. */
    method FindFate(item: string) returns (r: Option<(string, Record)>)
      ensures r == FirstFate(fates, item, FateTypes)
    {
      var i := 0;
      while i < |FateTypes|
        invariant 0 <= i <= |FateTypes|
        invariant forall j :: 0 <= j < i ==> WithField(TableOf(fates, FateTypes[j]), "title", item) == []
      {
        var fateType := FateTypes[i];
        var records := WithField(TableOf(fates, fateType), "title", item);
        if records != [] {
          FirstFateIs(fates, item, FateTypes, i);
          return Some((fateType, records[0]));
        }
        i := i + 1;
      }
      return None;
    }

    /** `remove_from_deck(deck, item_name, quantity)` */
    method RemoveFromDeck(deck: Deck, item: string, quantity: int) returns (ok: bool, message: string)
      requires Valid()
      modifies this
      ensures cards == old(cards) && fates == old(fates)
      ensures (State(), ok, message) == RemoveSpec(old(State()), cards, fates, deck, item, quantity)
      ensures Valid()
    {
      if deck.contentType == Some("cards") {
        var found := WithField(cards, "name", item);
        if found == [] {
          return false, NoCardMessage(item);
        }
        var cardId := found[0].id;
        var joinRows := Copies(deckCards, deck.id, cardId, "");
        if joinRows == [] {
          return false, NoCopiesMessage(item);
        }
        var toDelete := PyPrefix(joinRows, quantity);
        RemoveCounts(deckCards, nextCardRow, deck.id, cardId, "", quantity);
        DeleteRows(false, toDelete);
        return true, RemovedMessage(deck, item, |toDelete|);
      } else if deck.contentType == Some("fates") {
        var i := 0;
        while i < |FateTypes|
          invariant 0 <= i <= |FateTypes|
          invariant RemoveFate(State(), fates, deck, item, quantity, FateTypes)
            == RemoveFate(State(), fates, deck, item, quantity, FateTypes[i..])
        {
          var fateType := FateTypes[i];
          var fateRecords := WithField(TableOf(fates, fateType), "title", item);
          assert FateTypes[i..][1..] == FateTypes[i + 1..];
          if fateRecords != [] {
            var fateId := fateRecords[0].id;
            var joinRows := Copies(deckFates, deck.id, fateId, fateType);
            if joinRows == [] {
              return false, NoCopiesMessage(item);
            }
            var toDelete := PyPrefix(joinRows, quantity);
            RemoveCounts(deckFates, nextFateRow, deck.id, fateId, fateType, quantity);
            DeleteRows(true, toDelete);
            return true, RemovedMessage(deck, item, |toDelete|);
          }
          i := i + 1;
        }
        return false, NoFateMessage(item);
      } else {
        return false, UnsupportedMessage(deck);
      }
    }

    /** `get_deck_contents(deck, full)` */
    method GetDeckContents(deck: Deck, full: bool) returns (r: Result<seq<Entry>>)
      ensures r == DeckContents(cards, fates, deckCards, deckFates, deck, full)
    {
      if deck.contentType == Some("cards") {
        var joinRows := OfDeck(deckCards, deck.id);
        if joinRows == [] {
          return Ok([]);
        }
        var cardIds := ItemIds(joinRows);
        var cardData := WithIds(cards, cardIds);
        if cardData == [] {
          return Err("Failed to fetch card data.");
        }
        var idToObj := IdMap(cardData);
        var result := BuildEntries(CardRefs(joinRows), idToObj, full);
        return Ok(result);
      } else if deck.contentType == Some("fates") {
        var joinRows := OfDeck(deckFates, deck.id);
        if joinRows == [] {
          return Ok([]);
        }
        var fateGroups := GroupFates(joinRows);
        var idToObj: map<int, Record> := map[];
        var i := 0;
        while i < |FateTypes|
          invariant 0 <= i <= |FateTypes|
          invariant FateIndex(idToObj, fateGroups, fates, FateTypes[i..]) == FateIndex(map[], fateGroups, fates, FateTypes)
        {
          var fateType := FateTypes[i];
          var ids := fateGroups[fateType];
          assert FateTypes[i..][1..] == FateTypes[i + 1..];
          if ids != [] {
            var records := WithIds(TableOf(fates, fateType), ids);
            if records == [] {
              return Err("Failed to fetch " + fateType + " data.");
            }
            idToObj := idToObj + IdMap(records);
          }
          i := i + 1;
        }
        var result := BuildEntries(FateRefs(joinRows), idToObj, full);
        return Ok(result);
      } else {
        return Err("Unsupported content type: " + Show(deck.contentType));
      }
    }
  }

  lemma {:induction false} WithoutNone(rows: seq<JoinRow>)
    ensures WithoutIds(rows, {}) == rows
  {
    if rows != [] {
      WithoutNone(rows[1..]);
      assert [rows[0]] + rows[1..] == rows;
    }
  }

  lemma {:induction false} WithoutTwice(rows: seq<JoinRow>, ids: set<int>, id: int)
    ensures WithoutIds(WithoutIds(rows, ids), {id}) == WithoutIds(rows, ids + {id})
  {
    if rows != [] {
      WithoutTwice(rows[1..], ids, id);
    }
  }

  /** When the i-th type is the first with a titled record, the search
   *  returns that type and its first such record. */
  lemma {:induction false} FirstFateIs(ft: FateTables, item: string, types: seq<string>, i: nat)
    requires i < |types|
    requires forall j :: 0 <= j < i ==> WithField(TableOf(ft, types[j]), "title", item) == []
    requires WithField(TableOf(ft, types[i]), "title", item) != []
    ensures FirstFate(ft, item, types) == Some((types[i], WithField(TableOf(ft, types[i]), "title", item)[0]))
  {
    if i > 0 {
      FirstFateIs(ft, item, types[1..], i - 1);
    }
  }

  lemma GroupStep(rows: seq<JoinRow>, i: nat, fateType: string)
    requires i < |rows|
    ensures Group(rows[..i + 1], fateType)
      == Group(rows[..i], fateType) + (if rows[i].fateType == fateType then [rows[i].itemId] else [])
  {
    assert rows[..i + 1][..i] == rows[..i];
  }

  /** The grouping loop of `get_deck_contents`, appending each fate id to its
   *  type's list; rows of any other type are dropped. */
  method GroupFates(rows: seq<JoinRow>) returns (groups: map<string, seq<int>>)
    ensures groups == Groups(rows)
    ensures forall i :: 0 <= i < |FateTypes| ==> FateTypes[i] in groups
  {
    groups := map["ritual" := [], "event" := [], "consumable" := []];
    var i := 0;
    while i < |rows|
      invariant 0 <= i <= |rows|
      invariant groups.Keys == {"ritual", "event", "consumable"}
      invariant groups["ritual"] == Group(rows[..i], "ritual") && groups["event"] == Group(rows[..i], "event")
        && groups["consumable"] == Group(rows[..i], "consumable")
    {
      var fateType := rows[i].fateType;
      var fateId := rows[i].itemId;
      assert rows[..i + 1][..i] == rows[..i] && rows[..i + 1][i] == rows[i];
      GroupStep(rows, i, "ritual");
      GroupStep(rows, i, "event");
      GroupStep(rows, i, "consumable");
      if fateType in groups {
        groups := groups[fateType := groups[fateType] + [fateId]];
      }
      i := i + 1;
    }
    assert rows[..i] == rows;
  }

  /** The result loops of `get_deck_contents`. */
  method BuildEntries(refs: seq<Ref>, index: map<int, Record>, full: bool) returns (result: seq<Entry>)
    ensures result == Entries(refs, index, full)
  {
    result := [];
    var i := 0;
    while i < |refs|
      invariant 0 <= i <= |refs|
      invariant result + Entries(refs[i..], index, full) == Entries(refs, index, full)
    {
      var ref := refs[i];
      assert refs[i..][1..] == refs[i + 1..];
      if ref.id in index {
        result := result + [EntryOf(index[ref.id], ref, full)];
      }
      i := i + 1;
    }
    assert refs[i..] == [];
  }
}
