/**
 * Offline progress synchronisation: each item of a batch carries a client timestamp and some of the
 * fields of a row, and is written only when it is more recent than the row. Rites and micro-courses
 * use the same merge with different fields.
 */
module LastWriteWins {
  import opened Basics

  datatype Value = Flag(b: bool) | Count(n: int)

  type Patch = map<string, Value>

  datatype Item = Item(key: string, fields: Patch, clientUpdatedAt: int)

  datatype Row = Row(values: Patch, clientUpdatedAt: int)

  /** The rows of one pilgrim, by rite or by course. */
  type Store = map<string, Row>

  /** Column defaults of a new row. */
  const RITE_DEFAULTS: Patch := map["completed" := Flag(false), "tawafCount" := Count(0), "saiCount" := Count(0)]
  const MICRO_COURSE_DEFAULTS: Patch := map["isCompleted" := Flag(false)]

  /** A value a column can hold: of its type, counters not negative. */
  predicate Fits(v: Value, column: Value) {
    match v
    case Flag(_) => column.Flag?
    case Count(n) => column.Count? && n >= 0
  }

  predicate FitsColumns(fields: Patch, defaults: Patch) {
    fields.Keys <= defaults.Keys && forall f | f in fields :: Fits(fields[f], defaults[f])
  }

  /** The defaults of both tables are values of their own columns, as the results below ask. */
  lemma DefaultsFit()
    ensures FitsColumns(RITE_DEFAULTS, RITE_DEFAULTS) && FitsColumns(MICRO_COURSE_DEFAULTS, MICRO_COURSE_DEFAULTS)
  {
  }

  /** Rows have every column. */
  ghost predicate PossibleStore(s: Store, defaults: Patch) {
    forall key | key in s :: s[key].values.Keys == defaults.Keys && FitsColumns(s[key].values, defaults)
  }

  /** Validated items carry some of the columns. */
  ghost predicate PossibleItems(items: seq<Item>, defaults: Patch) {
    forall x | x in items :: FitsColumns(x.fields, defaults)
  }

  function Base(s: Store, key: string, defaults: Patch): Patch {
    if key in s then s[key].values else defaults
  }

  predicate Stale(s: Store, item: Item) {
    item.key in s && s[item.key].clientUpdatedAt >= item.clientUpdatedAt
  }

  function ApplyItem(s: Store, item: Item, defaults: Patch): Store {
    if Stale(s, item) then s
    else s[item.key := Row(Base(s, item.key, defaults) + item.fields, item.clientUpdatedAt)]
  }

  function ApplyAll(s: Store, items: seq<Item>, defaults: Patch): Store {
    if items == [] then s
    else ApplyItem(ApplyAll(s, items[..|items| - 1], defaults), items[|items| - 1], defaults)
  }

  class ProgressService {
    const defaults: Patch
    var store: Store

    constructor (defaults: Patch)
      ensures this.defaults == defaults && store == map[]
    {
      this.defaults := defaults;
      store := map[];
    }

    method SyncBatch(items: seq<Item>) returns (results: seq<Row>)
      modifies this
      ensures store == ApplyAll(old(store), items, defaults)
      ensures |results| == |items|
      ensures forall i | 0 <= i < |items| ::
                var after := ApplyAll(old(store), items[..i + 1], defaults);
                items[i].key in after && results[i] == after[items[i].key]
    {
      hide ApplyAll;
      ghost var start := store;
      results := [];
      ApplyNone(start, defaults);
      for i := 0 to |items|
        invariant store == ApplyAll(start, items[..i], defaults)
        invariant |results| == i
        invariant forall k | 0 <= k < i ::
                    var after := ApplyAll(start, items[..k + 1], defaults);
                    items[k].key in after && results[k] == after[items[k].key]
      {
        var item := items[i];
        ApplyLast(start, items[..i], item, defaults);
        assert items[..i] + [item] == items[..i + 1];
        if item.key in store && store[item.key].clientUpdatedAt >= item.clientUpdatedAt {
          results := results + [store[item.key]];
        } else {
          var values := if item.key in store then store[item.key].values + item.fields else defaults + item.fields;
          store := store[item.key := Row(values, item.clientUpdatedAt)];
          results := results + [store[item.key]];
        }
      }
      assert items[..|items|] == items;
    }
  }

  lemma ApplyNone(s: Store, defaults: Patch)
    ensures ApplyAll(s, [], defaults) == s
  {
  }

  // ---------------------------------------------------------------- batches and replays

  /** Sending a list in several batches is sending it in one. */
  lemma {:induction false} BatchesConcat(s: Store, a: seq<Item>, b: seq<Item>, defaults: Patch)
    ensures ApplyAll(s, a + b, defaults) == ApplyAll(ApplyAll(s, a, defaults), b, defaults)
  {
    if b == [] {
      assert a + b == a;
    } else {
      assert (a + b)[..|a + b| - 1] == a + b[..|b| - 1];
      BatchesConcat(s, a, b[..|b| - 1], defaults);
    }
  }

  /** The timestamp of a row after a batch. */
  function Stamp(s: Store, key: string): Option<int> {
    if key in s then Some(s[key].clientUpdatedAt) else None
  }

  function Later(a: Option<int>, b: int): Option<int> {
    Some(if a.Some? && a.value >= b then a.value else b)
  }

  /** The most recent timestamp offered for a key, starting from what is stored. */
  function LatestStamp(start: Option<int>, items: seq<Item>, key: string): Option<int> {
    if items == [] then start
    else
      var before := LatestStamp(start, items[..|items| - 1], key);
      if items[|items| - 1].key == key then Later(before, items[|items| - 1].clientUpdatedAt) else before
  }

  /** Stored timestamps are the running maximum of what was offered. */
  lemma {:induction false} StampsAreRunningMaxima(s: Store, items: seq<Item>, key: string, defaults: Patch)
    ensures Stamp(ApplyAll(s, items, defaults), key) == LatestStamp(Stamp(s, key), items, key)
  {
    if items != [] {
      StampsAreRunningMaxima(s, items[..|items| - 1], key, defaults);
    }
  }

  /** Items that are not more recent than the rows leave the row of their key alone. */
  lemma {:induction false} StaleKeyUnchanged(s: Store, items: seq<Item>, key: string, defaults: Patch)
    requires forall x | x in items && x.key == key :: Stale(s, x)
    requires key in s
    ensures key in ApplyAll(s, items, defaults) && ApplyAll(s, items, defaults)[key] == s[key]
  {
    if items != [] {
      assert items == items[..|items| - 1] + [items[|items| - 1]];
      StaleKeyUnchanged(s, items[..|items| - 1], key, defaults);
    }
  }

  lemma {:induction false} StaleItemsChangeNothing(s: Store, items: seq<Item>, defaults: Patch)
    requires forall x | x in items :: Stale(s, x)
    ensures ApplyAll(s, items, defaults) == s
  {
    if items != [] {
      assert items == items[..|items| - 1] + [items[|items| - 1]];
      StaleItemsChangeNothing(s, items[..|items| - 1], defaults);
    }
  }

  /** An item, once offered, is stale for ever, even when it carried only some fields. */
  lemma {:induction false} OfferedItemsAreStale(s: Store, items: seq<Item>, x: Item, defaults: Patch)
    requires x in items || Stale(s, x)
    ensures Stale(ApplyAll(s, items, defaults), x)
  {
    if items != [] {
      var init := items[..|items| - 1];
      assert items == init + [items[|items| - 1]];
      if x in init || Stale(s, x) {
        OfferedItemsAreStale(s, init, x, defaults);
      }
    }
  }

  /** Sending again any selection of items already sent, in any order, changes nothing. */
  lemma ReplayChangesNothing(s: Store, sent: seq<Item>, again: seq<Item>, defaults: Patch)
    requires forall x | x in again :: x in sent
    ensures ApplyAll(ApplyAll(s, sent, defaults), again, defaults) == ApplyAll(s, sent, defaults)
  {
    forall x | x in again ensures Stale(ApplyAll(s, sent, defaults), x) {
      OfferedItemsAreStale(s, sent, x, defaults);
    }
    StaleItemsChangeNothing(ApplyAll(s, sent, defaults), again, defaults);
  }

  /** From an empty table, synchronisation only ever makes rows the table can hold. */
  lemma {:induction false} StoresStayPossible(s: Store, items: seq<Item>, defaults: Patch)
    requires PossibleStore(s, defaults) && PossibleItems(items, defaults) && FitsColumns(defaults, defaults)
    ensures PossibleStore(ApplyAll(s, items, defaults), defaults)
  {
    if items != [] {
      StoresStayPossible(s, items[..|items| - 1], defaults);
    }
  }

  // ---------------------------------------------------------------- when the order does not matter

  /** No item for `key` is more recent than `top`, which carries every field another one carries. */
  ghost predicate Dominates(top: Item, items: seq<Item>, key: string) {
    && top in items && top.key == key
    && forall x | x in items && x.key == key ::
         x == top || (x.clientUpdatedAt < top.clientUpdatedAt && x.fields.Keys <= top.fields.Keys)
  }

  /** For every key, the most recent item repeats every field that the others carry. */
  ghost predicate Dominated(items: seq<Item>) {
    forall x | x in items :: exists top :: Dominates(top, items, x.key)
  }

  /** On every store the tables can hold. */
  ghost predicate OrderIndependent(items: seq<Item>, defaults: Patch) {
    forall s: Store, other: seq<Item> | PossibleStore(s, defaults) && multiset(other) == multiset(items) ::
      ApplyAll(s, other, defaults) == ApplyAll(s, items, defaults)
  }

  /** What a key holds after its dominating item and any older ones, in whatever order. */
  function Settled(s: Store, top: Item, defaults: Patch): Row {
    if Stale(s, top) then s[top.key] else Row(Base(s, top.key, defaults) + top.fields, top.clientUpdatedAt)
  }

  lemma {:induction false} UntouchedKey(s: Store, items: seq<Item>, key: string, defaults: Patch)
    requires forall x | x in items :: x.key != key
    ensures key in ApplyAll(s, items, defaults) <==> key in s
    ensures key in s ==> ApplyAll(s, items, defaults)[key] == s[key]
  {
    if items != [] {
      assert items == items[..|items| - 1] + [items[|items| - 1]];
      UntouchedKey(s, items[..|items| - 1], key, defaults);
    }
  }

  /** Items older than `top` with fields among its own only prepare a row that `top` will overwrite. */
  lemma {:induction false} BeforeTop(s: Store, items: seq<Item>, top: Item, defaults: Patch)
    requires !Stale(s, top)
    requires forall x | x in items && x.key == top.key ::
               x.clientUpdatedAt < top.clientUpdatedAt && x.fields.Keys <= top.fields.Keys
    ensures var after := ApplyAll(s, items, defaults);
            !Stale(after, top) && Base(after, top.key, defaults) + top.fields == Base(s, top.key, defaults) + top.fields
  {
    if items != [] {
      var init, last := items[..|items| - 1], items[|items| - 1];
      assert items == init + [last];
      BeforeTop(s, init, top, defaults);
      var before := ApplyAll(s, init, defaults);
      if last.key == top.key && !Stale(before, last) {
        assert (Base(before, top.key, defaults) + last.fields) + top.fields == Base(before, top.key, defaults) + top.fields;
      }
    }
  }

  /** A dominated key settles on the same row whatever the order of the items. */
  lemma {:induction false} DominatedKeySettles(s: Store, items: seq<Item>, top: Item, defaults: Patch)
    requires Dominates(top, items, top.key)
    ensures var after := ApplyAll(s, items, defaults);
            top.key in after && after[top.key] == Settled(s, top, defaults)
  {
    hide ApplyAll;
    if Stale(s, top) {
      StaleKeyUnchanged(s, items, top.key, defaults);
    } else {
      var i := FirstOccurrence(items, top);
      var before, rest := items[..i], items[i + 1..];
      assert items == (before + [top]) + rest;
      forall x | x in before && x.key == top.key
        ensures x.clientUpdatedAt < top.clientUpdatedAt && x.fields.Keys <= top.fields.Keys
      {
        assert x in items;
      }
      BeforeTop(s, before, top, defaults);
      var written := ApplyAll(s, before + [top], defaults);
      ApplyLast(s, before, top, defaults);
      forall x | x in rest && x.key == top.key ensures Stale(written, x) {
        assert x in items;
      }
      StaleKeyUnchanged(written, rest, top.key, defaults);
      BatchesConcat(s, before + [top], rest, defaults);
    }
  }

  lemma {:induction false} FirstOccurrence(items: seq<Item>, x: Item) returns (i: nat)
    requires x in items
    ensures i < |items| && items[i] == x && x !in items[..i]
  {
    if items[0] == x {
      i := 0;
    } else {
      var k := FirstOccurrence(items[1..], x);
      i := k + 1;
      assert items[..i] == [items[0]] + items[1..][..k];
    }
  }

  lemma ApplyLast(s: Store, items: seq<Item>, x: Item, defaults: Patch)
    ensures ApplyAll(s, items + [x], defaults) == ApplyItem(ApplyAll(s, items, defaults), x, defaults)
  {
    assert (items + [x])[..|items|] == items;
  }

  lemma ApplyOne(s: Store, x: Item, defaults: Patch)
    ensures ApplyAll(s, [x], defaults) == ApplyItem(s, x, defaults)
  {
    assert [x][..0] == [];
    assert ApplyAll(s, [x][..0], defaults) == s;
  }

  lemma SameItems(a: seq<Item>, b: seq<Item>, x: Item)
    requires multiset(a) == multiset(b)
    ensures x in a <==> x in b
  {
    assert x in multiset(a) <==> x in multiset(b);
  }

  lemma DominatesPermuted(top: Item, items: seq<Item>, other: seq<Item>, key: string)
    requires multiset(other) == multiset(items) && Dominates(top, items, key)
    ensures Dominates(top, other, key)
  {
    SameItems(items, other, top);
    forall x | x in other ensures x in items {
      SameItems(items, other, x);
    }
  }

  lemma SameRow(s: Store, items: seq<Item>, other: seq<Item>, key: string, defaults: Patch)
    requires multiset(other) == multiset(items) && Dominated(items)
    ensures var (a, b) := (ApplyAll(s, items, defaults), ApplyAll(s, other, defaults));
            (key in a <==> key in b) && (key in a ==> a[key] == b[key])
  {
    hide ApplyAll, Dominates, Settled;
    if x :| x in items && x.key == key {
      var top :| Dominates(top, items, key);
      SameSettledRow(s, items, other, top, key, defaults);
    } else {
      forall x | x in other ensures x.key != key {
        SameItems(items, other, x);
      }
      UntouchedKey(s, items, key, defaults);
      UntouchedKey(s, other, key, defaults);
    }
  }

  lemma SameSettledRow(s: Store, items: seq<Item>, other: seq<Item>, top: Item, key: string, defaults: Patch)
    requires multiset(other) == multiset(items) && Dominates(top, items, key)
    ensures var (a, b) := (ApplyAll(s, items, defaults), ApplyAll(s, other, defaults));
            key in a && key in b && a[key] == b[key]
  {
    hide ApplyAll, Settled;
    DominatesPermuted(top, items, other, key);
    DominatedKeySettles(s, items, top, defaults);
    DominatedKeySettles(s, other, top, defaults);
  }

  lemma DominatedIsOrderIndependent(items: seq<Item>, defaults: Patch)
    requires Dominated(items)
    ensures OrderIndependent(items, defaults)
  {
    hide ApplyAll;
    forall s: Store, other: seq<Item> | PossibleStore(s, defaults) && multiset(other) == multiset(items)
      ensures ApplyAll(s, other, defaults) == ApplyAll(s, items, defaults)
    {
      var a, b := ApplyAll(s, items, defaults), ApplyAll(s, other, defaults);
      forall key ensures (key in a <==> key in b) && (key in a ==> a[key] == b[key]) {
        SameRow(s, items, other, key, defaults);
      }
      assert a.Keys == b.Keys;
    }
  }

  // ---------------------------------------------------------------- and only then

  function Other(v: Value): Value {
    match v
    case Flag(b) => Flag(!b)
    case Count(n) => Count(if n == 0 then 1 else 0)
  }

  /** Values that disagree with every field of `x`. */
  function Disagreeing(x: Item): Patch {
    map f | f in x.fields :: Other(x.fields[f])
  }

  /** A stored row that disagrees with every field of `a` and of `b`. */
  function DisagreeingRow(a: Item, b: Item, defaults: Patch, at: int): Row {
    Row(defaults + (Disagreeing(a) + Disagreeing(b)), at)
  }

  lemma DisagreeingIsPossible(a: Item, b: Item, defaults: Patch, at: int)
    requires FitsColumns(defaults, defaults) && FitsColumns(a.fields, defaults) && FitsColumns(b.fields, defaults)
    ensures PossibleStore(map[a.key := DisagreeingRow(a, b, defaults, at)], defaults)
  {
    var values := DisagreeingRow(a, b, defaults, at).values;
    assert values.Keys == defaults.Keys;
    forall f | f in values ensures Fits(values[f], defaults[f]) {
      if f in b.fields {
        assert Fits(b.fields[f], defaults[f]);
      } else if f in a.fields {
        assert Fits(a.fields[f], defaults[f]);
      }
    }
  }

  lemma TakeOut(items: seq<Item>, x: Item) returns (rest: seq<Item>)
    requires x in items
    ensures multiset(items) == multiset([x]) + multiset(rest)
    ensures forall y | y in rest :: y in items
    ensures forall y | y in items && y != x :: y in rest
  {
    var i := FirstOccurrence(items, x);
    rest := items[..i] + items[i + 1..];
    assert items == items[..i] + [x] + items[i + 1..];
  }

  /** The most recent of the items of a key. */
  lemma {:induction false} MostRecent(items: seq<Item>, key: string) returns (top: Item)
    requires exists x :: x in items && x.key == key
    ensures top in items && top.key == key
    ensures forall x | x in items && x.key == key :: x.clientUpdatedAt <= top.clientUpdatedAt
  {
    var init, last := items[..|items| - 1], items[|items| - 1];
    assert items == init + [last];
    if exists x :: x in init && x.key == key {
      top := MostRecent(init, key);
      if last.key == key && last.clientUpdatedAt > top.clientUpdatedAt {
        top := last;
      }
    } else {
      top := last;
    }
  }

  /** Sending `first` and then the rest of the items leaves the row that `first` wrote, if none is more recent. */
  lemma FirstWins(s: Store, first: Item, rest: seq<Item>, defaults: Patch)
    requires !Stale(s, first)
    requires forall x | x in rest && x.key == first.key :: x.clientUpdatedAt <= first.clientUpdatedAt
    ensures var after := ApplyAll(s, [first] + rest, defaults);
            first.key in after && after[first.key].values == Base(s, first.key, defaults) + first.fields
  {
    var s1 := ApplyAll(s, [first], defaults);
    ApplyOne(s, first, defaults);
    StaleKeyUnchanged(s1, rest, first.key, defaults);
    BatchesConcat(s, [first], rest, defaults);
  }

  lemma SecondOverwrites(s: Store, a: Item, top: Item, rest: seq<Item>, defaults: Patch)
    requires !Stale(s, a) && a.key == top.key && a.clientUpdatedAt < top.clientUpdatedAt
    requires forall x | x in rest && x.key == top.key :: x.clientUpdatedAt <= top.clientUpdatedAt
    ensures var after := ApplyAll(s, [a] + ([top] + rest), defaults);
            top.key in after && after[top.key].values == (Base(s, top.key, defaults) + a.fields) + top.fields
  {
    var s1 := ApplyAll(s, [a], defaults);
    ApplyOne(s, a, defaults);
    FirstWins(s1, top, rest, defaults);
    BatchesConcat(s, [a], [top] + rest, defaults);
  }

  /** Two orders of the items that leave different values for a key. */
  lemma OrderMatters(items: seq<Item>, p: seq<Item>, q: seq<Item>, s: Store, key: string, defaults: Patch)
    requires PossibleStore(s, defaults) && multiset(p) == multiset(items) == multiset(q)
    requires key in ApplyAll(s, p, defaults) && key in ApplyAll(s, q, defaults)
    requires ApplyAll(s, p, defaults)[key].values != ApplyAll(s, q, defaults)[key].values
    ensures !OrderIndependent(items, defaults)
  {
    hide ApplyAll, PossibleStore;
  }

  lemma DifferentPatches(a: Item, b: Item, defaults: Patch)
    requires a.fields != b.fields
    ensures var values := defaults + (Disagreeing(a) + Disagreeing(b)); values + a.fields != values + b.fields
  {
    var values := defaults + (Disagreeing(a) + Disagreeing(b));
    if f :| f in a.fields && f in b.fields && a.fields[f] != b.fields[f] {
      assert (values + a.fields)[f] != (values + b.fields)[f];
    } else if f :| f in a.fields && f !in b.fields {
      assert (values + a.fields)[f] != (values + b.fields)[f];
    } else {
      assert a.fields.Keys != b.fields.Keys;
      var f :| f in b.fields && f !in a.fields;
      assert (values + a.fields)[f] != (values + b.fields)[f];
    }
  }

  /** Two items of one key at the same timestamp: whichever comes first wins. */
  lemma TieDependsOnOrder(items: seq<Item>, a: Item, top: Item, defaults: Patch)
    requires a in items && top in items && a != top && a.key == top.key && a.clientUpdatedAt == top.clientUpdatedAt
    requires forall x | x in items && x.key == top.key :: x.clientUpdatedAt <= top.clientUpdatedAt
    requires FitsColumns(a.fields, defaults) && FitsColumns(top.fields, defaults) && FitsColumns(defaults, defaults)
    ensures !OrderIndependent(items, defaults)
  {
    hide ApplyAll, PossibleStore, OrderIndependent, FitsColumns;
    var row := DisagreeingRow(a, top, defaults, top.clientUpdatedAt - 1);
    var s: Store := map[top.key := row];
    DisagreeingIsPossible(a, top, defaults, top.clientUpdatedAt - 1);
    var restA := TakeOut(items, a);
    var restTop := TakeOut(items, top);
    FirstWins(s, a, restA, defaults);
    FirstWins(s, top, restTop, defaults);
    DifferentPatches(a, top, defaults);
    OrderMatters(items, [a] + restA, [top] + restTop, s, top.key, defaults);
  }

  /** An older item with a field the most recent one lacks: that field is lost or kept depending on the order. */
  lemma MissingFieldDependsOnOrder(items: seq<Item>, a: Item, top: Item, field: string, defaults: Patch)
    requires a in items && top in items && a.key == top.key && a.clientUpdatedAt < top.clientUpdatedAt
    requires forall x | x in items && x.key == top.key :: x.clientUpdatedAt <= top.clientUpdatedAt
    requires field in a.fields && field !in top.fields
    requires FitsColumns(a.fields, defaults) && FitsColumns(top.fields, defaults) && FitsColumns(defaults, defaults)
    ensures !OrderIndependent(items, defaults)
  {
    hide ApplyAll, PossibleStore, OrderIndependent, FitsColumns;
    var row := DisagreeingRow(a, top, defaults, a.clientUpdatedAt - 1);
    var s: Store := map[top.key := row];
    DisagreeingIsPossible(a, top, defaults, a.clientUpdatedAt - 1);
    var restTop := TakeOut(items, top);
    var rest := TakeOut(restTop, a);
    FirstWins(s, top, restTop, defaults);
    SecondOverwrites(s, a, top, rest, defaults);
    LostField(row.values, a, top, field);
    OrderMatters(items, [top] + restTop, [a] + ([top] + rest), s, top.key, defaults);
  }

  lemma LostField(values: Patch, a: Item, top: Item, field: string)
    requires field in values && field in a.fields && field !in top.fields && values[field] != a.fields[field]
    ensures values + top.fields != (values + a.fields) + top.fields
  {
    assert (values + top.fields)[field] == values[field];
  }

  /**
   * The order in which items arrive never matters, on any store the tables can hold, if and only if for each
   * key the most recent item is alone at its timestamp and carries every field the older ones carry.
   */
  lemma OrderIndependentIffDominated(items: seq<Item>, defaults: Patch)
    requires PossibleItems(items, defaults) && FitsColumns(defaults, defaults)
    ensures OrderIndependent(items, defaults) <==> Dominated(items)
  {
    hide ApplyAll, OrderIndependent, FitsColumns;
    if Dominated(items) {
      DominatedIsOrderIndependent(items, defaults);
    } else {
      var x :| x in items && !exists top :: Dominates(top, items, x.key);
      var top := MostRecent(items, x.key);
      assert !Dominates(top, items, x.key);
      var a :| a in items && a.key == x.key && a != top &&
               !(a.clientUpdatedAt < top.clientUpdatedAt && a.fields.Keys <= top.fields.Keys);
      if a.clientUpdatedAt == top.clientUpdatedAt {
        TieDependsOnOrder(items, a, top, defaults);
      } else {
        var field :| field in a.fields.Keys && field !in top.fields.Keys;
        MissingFieldDependsOnOrder(items, a, top, field, defaults);
      }
    }
  }

  /** Two items of one rite, from an empty table: the completion is kept in one order and lost in the other. */
  lemma CompletionCanBeLost()
    ensures var done := Item("tawaf", map["completed" := Flag(true)], 1);
            var counted := Item("tawaf", map["tawafCount" := Count(7)], 2);
            && PossibleItems([done, counted], RITE_DEFAULTS)
            && ApplyAll(map[], [done, counted], RITE_DEFAULTS) ==
               map["tawaf" := Row(RITE_DEFAULTS + done.fields + counted.fields, 2)]
            && ApplyAll(map[], [counted, done], RITE_DEFAULTS) == map["tawaf" := Row(RITE_DEFAULTS + counted.fields, 2)]
            && (RITE_DEFAULTS + done.fields + counted.fields)["completed"] == Flag(true)
            && (RITE_DEFAULTS + counted.fields)["completed"] == Flag(false)
  {
    var done := Item("tawaf", map["completed" := Flag(true)], 1);
    var counted := Item("tawaf", map["tawafCount" := Count(7)], 2);
    ApplyOne(map[], done, RITE_DEFAULTS);
    ApplyOne(map[], counted, RITE_DEFAULTS);
    ApplyLast(map[], [done], counted, RITE_DEFAULTS);
    ApplyLast(map[], [counted], done, RITE_DEFAULTS);
    hide ApplyAll;
    assert [done] + [counted] == [done, counted] && [counted] + [done] == [counted, done];
  }

  /** Items that carry every field, at distinct timestamps for each key, can arrive in any order. */
  lemma CompleteItemsCommute(items: seq<Item>, defaults: Patch)
    requires forall x | x in items :: x.fields.Keys == defaults.Keys
    requires forall x, y | x in items && y in items && x.key == y.key && x != y :: x.clientUpdatedAt != y.clientUpdatedAt
    ensures OrderIndependent(items, defaults)
  {
    hide OrderIndependent;
    forall x | x in items ensures exists top :: Dominates(top, items, x.key) {
      var top := MostRecent(items, x.key);
      assert Dominates(top, items, x.key);
    }
    DominatedIsOrderIndependent(items, defaults);
  }
}
