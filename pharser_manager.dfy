/**
 * The common-phrase table: an in-memory map from row id to phrase item,
 * edited in place (new items, deletions and updates are only flagged) and
 * later written back to the database in three batches.
 *
 * Items are values here; the table, the static id counter and the "loaded"
 * flag are the fields of a class. The database is left out: loading takes the
 * rows a query would return, and writing returns the batches it would send.
 */
module PharserManager {
  import opened JavaLang

  /** IModify's edit flags. */
  datatype Flag = OpNormal | OpInsert | OpUpdate | OpDelete

  /** One phrase row. `typeCode` records the single-argument setType. */
  datatype ItemData = ItemData(
    rowId: int,
    pharser: string,
    mmsType: int,
    telType: int,
    typeCode: Option<int>,
    canModify: int,
    resId: int,
    flag: Flag,
    indexOfArray: int)

  /** Ids handed out by GroupID start above this value. */
  const FIRST_NEW_ID := 10000

  /** A new phrase as addNewData builds it: flagged for insertion and modifiable. */
  function NewItem(rowId: int, pharser: string, mms: int, tel: int): ItemData {
    ItemData(rowId, pharser, mms, tel, None, 1, 0, OpInsert, 0)
  }

  // ---------------------------------------------------------------------------
  // Key order

  /** `s` lists distinct keys in strictly ascending order. */
  predicate Ascending(s: seq<int>) {
    forall i, j :: 0 <= i < j < |s| ==> s[i] < s[j]
  }

  predicate Distinct(s: seq<int>) {
    forall i, j :: 0 <= i < j < |s| ==> s[i] != s[j]
  }

  /** `x` placed into the ascending sequence `s` before the first larger key. */
  function InsertKey(x: int, s: seq<int>): (r: seq<int>)
    ensures multiset(r) == multiset(s) + multiset{x}
  {
    if s == [] then [x]
    else if x <= s[0] then [x] + s
    else
      assert s == [s[0]] + s[1..];
      [s[0]] + InsertKey(x, s[1..])
  }

  /** Arrays.sort on the key array: the same keys, rearranged. */
  function SortKeys(keys: seq<int>): (r: seq<int>)
    ensures multiset(r) == multiset(keys)
    ensures forall k :: k in r <==> k in keys
  {
    if keys == [] then []
    else
      assert keys == [keys[0]] + keys[1..];
      var r := InsertKey(keys[0], SortKeys(keys[1..]));
      assert forall k :: k in r <==> k in multiset(r);
      r
  }

  lemma AscendingCons(a: int, t: seq<int>)
    requires Ascending(t) && forall k :: k in t ==> a < k
    ensures Ascending([a] + t)
  {
    var r := [a] + t;
    forall i, j | 0 <= i < j < |r|
      ensures r[i] < r[j]
    {
      assert r[j] == t[j - 1] && t[j - 1] in t;
      if i > 0 {
        assert r[i] == t[i - 1];
      }
    }
  }

  lemma {:induction false} InsertKeyAscending(x: int, s: seq<int>)
    requires Ascending(s) && x !in s
    ensures Ascending(InsertKey(x, s))
  {
    if s == [] {
    } else if x <= s[0] {
      assert s[0] in s;
      AscendingCons(x, s);
    } else {
      InsertKeyAscending(x, s[1..]);
      var tail := InsertKey(x, s[1..]);
      forall k | k in tail
        ensures s[0] < k
      {
        assert k in multiset(tail);
        if k != x {
          assert k in multiset(s[1..]);
          var j :| 0 <= j < |s[1..]| && s[1..][j] == k;
          assert s[j + 1] == k;
        }
      }
      AscendingCons(s[0], tail);
    }
  }

  /** Sorting distinct keys yields the same keys, strictly ascending. */
  lemma {:induction false} SortKeysAscending(keys: seq<int>)
    requires Distinct(keys)
    ensures Ascending(SortKeys(keys))
  {
    if keys != [] {
      assert keys == [keys[0]] + keys[1..];
      assert Distinct(keys[1..]);
      SortKeysAscending(keys[1..]);
      assert keys[0] !in multiset(keys[1..]);
      assert keys[0] !in multiset(SortKeys(keys[1..]));
      InsertKeyAscending(keys[0], SortKeys(keys[1..]));
    }
  }

  /**
   * Two ascending sequences with the same keys are equal: the sorted key
   * array does not depend on the order the key set hands its keys out in.
   */
  lemma {:induction false} AscendingUnique(s: seq<int>, t: seq<int>)
    requires Ascending(s) && Ascending(t)
    requires forall k :: k in s <==> k in t
    ensures s == t
  {
    if s != [] {
      assert s[0] in s;
    }
    if t != [] {
      assert t[0] in t;
    }
    if s == [] {
      if t != [] {
        assert false;
      }
    } else if t == [] {
      assert false;
    } else {
      if s[0] < t[0] {
        assert false;
      } else if t[0] < s[0] {
        assert false;
      }
      forall k
        ensures k in s[1..] <==> k in t[1..]
      {
        if k in s[1..] {
          var i :| 0 <= i < |s[1..]| && s[1..][i] == k;
          assert s[i + 1] == k && k in s && k != s[0];
        }
        if k in t[1..] {
          var i :| 0 <= i < |t[1..]| && t[1..][i] == k;
          assert t[i + 1] == k && k in t && k != t[0];
        }
      }
      AscendingUnique(s[1..], t[1..]);
      assert s == [s[0]] + s[1..];
      assert t == [t[0]] + t[1..];
    }
  }

  /** Whatever the enumeration order, sorting it lists the key set in ascending order. */
  lemma SortedKeySet(order: seq<int>, other: seq<int>, keys: set<int>)
    requires IsEnumeration(order, keys) && IsEnumeration(other, keys)
    ensures Ascending(SortKeys(order)) && (forall k :: k in SortKeys(order) <==> k in keys)
    ensures SortKeys(order) == SortKeys(other)
  {
    SortKeysAscending(order);
    SortKeysAscending(other);
    AscendingUnique(SortKeys(order), SortKeys(other));
  }

  /** `order` visits every key of `keys` exactly once. */
  predicate IsEnumeration(order: seq<int>, keys: set<int>) {
    (forall k :: k in order ==> k in keys) && (forall k :: k in keys ==> k in order) && Distinct(order)
  }

  /** The keys among `keys` whose item is not flagged for deletion, in the same order. */
  function Visible(items: map<int, ItemData>, keys: seq<int>): seq<int>
    requires forall k :: k in keys ==> k in items
  {
    if keys == [] then []
    else
      var last := keys[|keys| - 1];
      Visible(items, keys[..|keys| - 1]) + (if items[last].flag == OpDelete then [] else [last])
  }

  /** Visible keeps exactly the keys not flagged for deletion. */
  lemma {:induction false} VisibleMembers(items: map<int, ItemData>, keys: seq<int>)
    requires forall k :: k in keys ==> k in items
    ensures forall k :: k in Visible(items, keys) <==> k in keys && items[k].flag != OpDelete
  {
    if keys != [] {
      VisibleMembers(items, keys[..|keys| - 1]);
      assert keys == keys[..|keys| - 1] + [keys[|keys| - 1]];
    }
  }

  /** Visible keeps ascending keys ascending. */
  lemma {:induction false} VisibleAscending(items: map<int, ItemData>, keys: seq<int>)
    requires forall k :: k in keys ==> k in items
    requires Ascending(keys)
    ensures Ascending(Visible(items, keys))
  {
    if keys != [] {
      var init := keys[..|keys| - 1];
      var last := keys[|keys| - 1];
      assert Ascending(init);
      VisibleAscending(items, init);
      VisibleMembers(items, init);
      var v := Visible(items, init);
      forall k | k in v
        ensures k < last
      {
        var i :| 0 <= i < |init| && init[i] == k;
      }
      var r := Visible(items, keys);
      forall i, j | 0 <= i < j < |r|
        ensures r[i] < r[j]
      {
        assert r[i] == v[i];
        if j == |v| {
          assert v[i] in v;
        } else {
          assert r[j] == v[j];
        }
      }
    }
  }

  // ---------------------------------------------------------------------------
  // The WriteToDisk partition

  datatype BatchKind = DeleteBatch | UpdateBatch | InsertBatch | NoBatch

  /**
   * The batch an item lands in. The three tests run one after the other on
   * the item's current flag, and the update test resets the flag first, so an
   * UPDATE with a small id never reaches the insert test.
   */
  function BatchOf(id: int, item: ItemData): BatchKind {
    if item.flag == OpDelete then DeleteBatch
    else if item.flag == OpUpdate && id <= FIRST_NEW_ID then UpdateBatch
    else if item.flag == OpInsert || (item.flag == OpUpdate && id > FIRST_NEW_ID) then InsertBatch
    else NoBatch
  }

  /** An item after the partition: insert and update batch members are back to OP_NORMAL. */
  function Flushed(id: int, item: ItemData): ItemData {
    if BatchOf(id, item) == UpdateBatch || BatchOf(id, item) == InsertBatch then item.(flag := OpNormal) else item
  }

  /** The items of one batch, in the order the keys are visited. */
  function Batch(items: map<int, ItemData>, order: seq<int>, kind: BatchKind): seq<ItemData>
    requires forall k :: k in order ==> k in items
  {
    if order == [] then []
    else
      var last := order[|order| - 1];
      Batch(items, order[..|order| - 1], kind)
        + (if BatchOf(last, items[last]) == kind then [Flushed(last, items[last])] else [])
  }

  /** The table after the partition has visited `keys`. */
  function FlushAll(start: map<int, ItemData>, keys: seq<int>): map<int, ItemData>
    requires forall k :: k in keys ==> k in start
  {
    if keys == [] then start
    else
      var last := keys[|keys| - 1];
      FlushAll(start, keys[..|keys| - 1])[last := Flushed(last, start[last])]
  }

  /** The partition touches the visited items only, and each of them only by Flushed. */
  lemma {:induction false} FlushAllEntries(start: map<int, ItemData>, keys: seq<int>)
    requires forall k :: k in keys ==> k in start
    ensures FlushAll(start, keys).Keys == start.Keys
    ensures forall k :: k in start ==> FlushAll(start, keys)[k] == if k in keys then Flushed(k, start[k]) else start[k]
  {
    if keys != [] {
      FlushAllEntries(start, keys[..|keys| - 1]);
      assert keys == keys[..|keys| - 1] + [keys[|keys| - 1]];
    }
  }

  /** One more key visited: its untouched entry is flushed and joins the batch of its kind. */
  lemma PartitionStep(start: map<int, ItemData>, order: seq<int>, i: int)
    requires forall k :: k in order ==> k in start
    requires Distinct(order) && 0 <= i < |order|
    ensures var id := order[i];
      id in FlushAll(start, order[..i]) && FlushAll(start, order[..i])[id] == start[id] &&
      FlushAll(start, order[..i + 1]) == FlushAll(start, order[..i])[id := Flushed(id, start[id])] &&
      forall kind :: Batch(start, order[..i + 1], kind) ==
        Batch(start, order[..i], kind) + (if BatchOf(id, start[id]) == kind then [Flushed(id, start[id])] else [])
  {
    assert order[..i + 1][..i] == order[..i];
    FlushAllEntries(start, order[..i]);
    assert order[i] !in order[..i];
  }

  /**
   * Every visited item lands in exactly one of the four batches: the four
   * sizes add up to the number of keys visited.
   */
  lemma {:induction false} BatchesPartition(items: map<int, ItemData>, order: seq<int>)
    requires forall k :: k in order ==> k in items
    ensures |Batch(items, order, DeleteBatch)| + |Batch(items, order, UpdateBatch)|
            + |Batch(items, order, InsertBatch)| + |Batch(items, order, NoBatch)| == |order|
  {
    if order != [] {
      BatchesPartition(items, order[..|order| - 1]);
    }
  }

  /** An item is in the batch of its kind, with the flag the partition leaves it with. */
  lemma {:induction false} BatchMembership(items: map<int, ItemData>, order: seq<int>, i: int)
    requires forall k :: k in order ==> k in items
    requires 0 <= i < |order|
    ensures Flushed(order[i], items[order[i]]) in Batch(items, order, BatchOf(order[i], items[order[i]]))
  {
    var init := order[..|order| - 1];
    if i < |order| - 1 {
      assert order[i] == init[i];
      BatchMembership(items, init, i);
    }
  }

  /** Deletions keep their flag; update and insert batches carry OP_NORMAL items only. */
  lemma {:induction false} BatchFlags(items: map<int, ItemData>, order: seq<int>)
    requires forall k :: k in order ==> k in items
    ensures forall x :: x in Batch(items, order, DeleteBatch) ==> x.flag == OpDelete
    ensures forall x :: x in Batch(items, order, UpdateBatch) ==> x.flag == OpNormal
    ensures forall x :: x in Batch(items, order, InsertBatch) ==> x.flag == OpNormal
  {
    if order != [] {
      BatchFlags(items, order[..|order| - 1]);
    }
  }

  // ---------------------------------------------------------------------------
  // insertData's order and changeWhere's clause

  predicate SortedByRowId(s: seq<ItemData>) {
    forall i, j :: 0 <= i < j < |s| ==> s[i].rowId <= s[j].rowId
  }

  /** The row ids as Integer.toString renders them. */
  function RowIdStrings(items: seq<ItemData>): (r: seq<string>)
    ensures |r| == |items|
  {
    seq(|items|, i requires 0 <= i < |items| => IntToString(items[i].rowId))
  }

  /** The WHERE clause that selects the given rows by id. */
  function WhereClause(items: seq<ItemData>): string {
    "_id IN(" + Join(RowIdStrings(items), ',') + ")"
  }

  /**
   * The clause names exactly the given rows: the text between the
   * parentheses splits on ',' into one decimal id per item, in order.
   */
  lemma WhereClauseIds(items: seq<ItemData>)
    requires |items| > 0
    ensures var w := WhereClause(items);
      |w| >= 8 && w[..7] == "_id IN(" && w[|w| - 1] == ')' &&
      var ids := Split(w[7..|w| - 1], ',');
      |ids| == |items| &&
      forall i :: 0 <= i < |items| ==>
        (AllDigits(ids[i]) || (|ids[i]| > 0 && ids[i][0] == '-' && AllDigits(ids[i][1..]))) &&
        ParseInt(ids[i]) == items[i].rowId
  {
    var strs := RowIdStrings(items);
    var inner := Join(strs, ',');
    var w := WhereClause(items);
    assert w[7..|w| - 1] == inner;
    forall i | 0 <= i < |strs|
      ensures ',' !in strs[i]
    {
      IntToStringChars(items[i].rowId);
    }
    SplitJoin(strs, ',');
    forall i | 0 <= i < |items|
      ensures ParseInt(strs[i]) == items[i].rowId
    {
      IntToStringRoundTrip(items[i].rowId);
    }
    assert |w| >= 8;
  }

  /** The rows one write-back sends: the bulk insert, the bulk update and the delete clause. */
  datatype DiskWrites = DiskWrites(bulkInsert: seq<ItemData>, bulkUpdate: seq<ItemData>, deleteWhere: Option<string>)

  /** The table rows a query returns, put into a map by row id (a later row wins). */
  function Table(rows: seq<ItemData>): map<int, ItemData>
  {
    if rows == [] then map[]
    else
      var last := rows[|rows| - 1];
      Table(rows[..|rows| - 1])[last.rowId := last]
  }

  /**
   * The loaded table files every row under its own id, holds one entry per
   * distinct id, and an id's entry is the last row carrying it.
   */
  lemma {:induction false} TableProperties(rows: seq<ItemData>)
    ensures forall k :: k in Table(rows) ==> Table(rows)[k].rowId == k && Table(rows)[k] in rows
    ensures forall i :: 0 <= i < |rows| ==> rows[i].rowId in Table(rows)
    ensures forall i :: 0 <= i < |rows| && (forall j :: i < j < |rows| ==> rows[j].rowId != rows[i].rowId) ==>
              Table(rows)[rows[i].rowId] == rows[i]
  {
    if rows != [] {
      var init := rows[..|rows| - 1];
      TableProperties(init);
      forall i | 0 <= i < |rows| - 1
        ensures rows[i] == init[i]
      {
      }
    }
  }

  /** insertData: orders the insert batch by row id, in place, by exchanging items. */
  method InsertData(a: array<ItemData>)
    modifies a
    ensures SortedByRowId(a[..])
    ensures multiset(a[..]) == multiset(old(a[..]))
  {
    var count := a.Length;
    var i := 0;
    while i < count
      invariant 0 <= i <= count
      invariant forall x, y :: 0 <= x < i && x < y < count ==> a[x].rowId <= a[y].rowId
      invariant multiset(a[..]) == multiset(old(a[..]))
    {
      BringSmallestTo(a, i);
      i := i + 1;
    }
  }

  /** The insert batch copied into an array and ordered there by insertData. */
  method SortedInsertBatch(inserts: seq<ItemData>) returns (sorted: seq<ItemData>)
    ensures SortedByRowId(sorted)
    ensures multiset(sorted) == multiset(inserts)
  {
    var a := new ItemData[|inserts|](i requires 0 <= i < |inserts| => inserts[i]);
    assert a[..] == inserts;
    InsertData(a);
    sorted := a[..];
  }

  /**
   * The inner loop of insertData: exchanges a[i] with every later item of a
   * smaller row id, so a[i] ends up the smallest of a[i..]; the items before
   * i stay, and stay no larger than anything after them.
   */
  method BringSmallestTo(a: array<ItemData>, i: nat)
    requires i < a.Length
    requires forall x, y :: 0 <= x < i && x < y < a.Length ==> a[x].rowId <= a[y].rowId
    modifies a
    ensures forall x, y :: 0 <= x < i && x < y < a.Length ==> a[x].rowId <= a[y].rowId
    ensures forall y :: i < y < a.Length ==> a[i].rowId <= a[y].rowId
    ensures multiset(a[..]) == multiset(old(a[..]))
  {
    var j := i + 1;
    while j < a.Length
      invariant i < j <= a.Length
      invariant forall x, y :: 0 <= x < i && x < y < a.Length ==> a[x].rowId <= a[y].rowId
      invariant forall y :: i < y < j ==> a[i].rowId <= a[y].rowId
      invariant multiset(a[..]) == multiset(old(a[..]))
    {
      if a[j].rowId < a[i].rowId {
        a[i], a[j] := a[j], a[i];  // swapObject
      }
      j := j + 1;
    }
  }

  /** The clause text before its closing parenthesis, for the first `i` rows. */
  function OpenClause(items: seq<ItemData>, i: nat): string
    requires i <= |items|
  {
    "_id IN(" + Join(RowIdStrings(items[..i]), ',')
  }

  /** One more row appends a comma (except for the first row) and the row id. */
  lemma OpenClauseStep(items: seq<ItemData>, i: nat)
    requires i < |items|
    ensures OpenClause(items, i + 1) ==
      OpenClause(items, i) + (if i != 0 then [','] else []) + IntToString(items[i].rowId)
  {
    var strs := RowIdStrings(items[..i]);
    var x := IntToString(items[i].rowId);
    assert RowIdStrings(items[..i + 1]) == strs + [x];
    JoinSnoc(strs, x, ',');
  }

  /** changeWhere: builds the delete clause for the given rows. */
  method ChangeWhere(changeArray: seq<ItemData>) returns (where: string)
    ensures where == WhereClause(changeArray)
  {
    where := "_id IN(";
    var i := 0;
    while i < |changeArray|
      invariant 0 <= i <= |changeArray|
      invariant where == OpenClause(changeArray, i)
    {
      OpenClauseStep(changeArray, i);
      if i != 0 {
        where := where + [','];
      }
      where := where + IntToString(changeArray[i].rowId);
      i := i + 1;
    }
    assert changeArray[..|changeArray|] == changeArray;
    where := where + ")";
  }

  /**
   * What MapToArrayList leaves behind after visiting `keys`: the table, with
   * the positions recorded, and the list.
   */
  function Listing(start: map<int, ItemData>, keys: seq<int>): (r: (map<int, ItemData>, seq<ItemData>))
    requires forall k :: k in keys ==> k in start
    ensures r.0.Keys == start.Keys
  {
    if keys == [] then (start, [])
    else
      var prev := Listing(start, keys[..|keys| - 1]);
      var key := keys[|keys| - 1];
      if prev.0[key].flag == OpDelete then prev
      else
        var item := prev.0[key].(indexOfArray := |prev.1|);
        (prev.0[key := item], prev.1 + [item])
  }

  /** One more key visited, as the loop of MapToArrayList takes it. */
  lemma ListingStep(start: map<int, ItemData>, keys: seq<int>, i: nat)
    requires forall k :: k in keys ==> k in start
    requires i < |keys|
    ensures var (m, list) := Listing(start, keys[..i]);
      var key := keys[i];
      key in m &&
      Listing(start, keys[..i + 1]) ==
        if m[key].flag == OpDelete then (m, list)
        else (m[key := m[key].(indexOfArray := |list|)], list + [m[key].(indexOfArray := |list|)])
  {
    assert keys[..i + 1][..i] == keys[..i];
  }

  /**
   * Visiting distinct keys lists exactly the visible items, in the order
   * visited, each stamped with its position in the list, and the table entry
   * of a listed key is the listed item.
   */
  lemma {:induction false} ListingList(start: map<int, ItemData>, keys: seq<int>)
    requires forall k :: k in keys ==> k in start
    requires Distinct(keys)
    ensures var (m, list) := Listing(start, keys);
      var v := Visible(start, keys);
      |list| == |v| &&
      forall i :: 0 <= i < |v| ==> v[i] in start && list[i] == start[v[i]].(indexOfArray := i) && m[v[i]] == list[i]
  {
    if keys != [] {
      var init := keys[..|keys| - 1];
      var key := keys[|keys| - 1];
      assert Distinct(init);
      assert key !in init;
      ListingList(start, init);
      ListingUntouched(start, init);
      var prev := Listing(start, init);
      var v0 := Visible(start, init);
      assert forall k :: k in v0 ==> k in init by {
        VisibleMembers(start, init);
      }
      assert prev.0[key] == start[key];
      if start[key].flag != OpDelete {
        var item := start[key].(indexOfArray := |prev.1|);
        var m, list, v := prev.0[key := item], prev.1 + [item], v0 + [key];
        assert Listing(start, keys) == (m, list);
        assert Visible(start, keys) == v;
        forall i | 0 <= i < |v|
          ensures v[i] in start && list[i] == start[v[i]].(indexOfArray := i) && m[v[i]] == list[i]
        {
          if i < |v0| {
            assert v0[i] in v0;
          }
        }
      }
    }
  }

  /** Keys not visited, and keys flagged for deletion, keep their entries. */
  lemma {:induction false} ListingUntouched(start: map<int, ItemData>, keys: seq<int>)
    requires forall k :: k in keys ==> k in start
    ensures forall k :: k in start && (k !in keys || start[k].flag == OpDelete) ==> Listing(start, keys).0[k] == start[k]
  {
    if keys != [] {
      var init := keys[..|keys| - 1];
      ListingUntouched(start, init);
      assert forall k :: k in keys <==> k in init || k == keys[|keys| - 1];
    }
  }

  /** MapToArrayList changes no entry but its recorded position. */
  lemma {:induction false} ListingStamps(start: map<int, ItemData>, keys: seq<int>)
    requires forall k :: k in keys ==> k in start
    ensures forall k :: k in start ==> Listing(start, keys).0[k] == start[k].(indexOfArray := Listing(start, keys).0[k].indexOfArray)
  {
    if keys != [] {
      ListingStamps(start, keys[..|keys| - 1]);
    }
  }

  /** Listing keeps every item filed under its own row id. */
  lemma ListingKeepsRowIds(start: map<int, ItemData>, keys: seq<int>)
    requires forall k :: k in keys ==> k in start
    requires forall k :: k in start ==> start[k].rowId == k
    ensures forall k :: k in Listing(start, keys).0 ==> Listing(start, keys).0[k].rowId == k
  {
    ListingStamps(start, keys);
  }

  /** The phrase table (the singleton instance and its static id counter). */
  class PharserManager {
    var items: map<int, ItemData>
    var newId: int
    var isInit: bool

    /** Every item is filed under its own row id, and the counter has not gone below its start. */
    predicate Valid()
      reads this`items, this`newId
    {
      (forall k :: k in items ==> items[k].rowId == k) && newId >= FIRST_NEW_ID
    }

    constructor ()
      ensures Valid() && items == map[] && newId == FIRST_NEW_ID && !isInit
    {
      items := map[];
      newId := FIRST_NEW_ID;
      isInit := false;
    }

    /** GroupID: the next id from the pre-incremented counter. */
    method GroupId() returns (id: int)
      modifies this`newId
      ensures id == old(newId) + 1 && newId == id
      ensures old(newId) >= FIRST_NEW_ID ==> id > FIRST_NEW_ID
    {
      newId := newId + 1;
      id := newId;
    }

    /** addNewData: adds a phrase flagged for insertion under a new id, unless the text is empty. */
    method AddNewData(value: Option<string>, mms: int, tel: int) returns (r: int)
      requires Valid()
      modifies this`items, this`newId
      ensures Valid()
      ensures IsEmpty(value) ==> r == -1 && items == old(items) && newId == old(newId)
      ensures !IsEmpty(value) ==>
                r == 0 && newId == old(newId) + 1 && newId > FIRST_NEW_ID
                && items == old(items)[newId := NewItem(newId, value.value, mms, tel)]
    {
      if value.Some? && value.value != [] {
        var id := GroupId();
        var ins := NewItem(id, value.value, mms, tel);
        items := items[ins.rowId := ins];
        return 0;
      } else {
        return -1;
      }
    }

    /** DelByID: flags an existing phrase for deletion; the entry stays. */
    method DelById(key: int) returns (r: int)
      requires Valid()
      modifies this`items
      ensures Valid()
      ensures key !in old(items) ==> r == -1 && items == old(items)
      ensures key in old(items) ==> r == 0 && items == old(items)[key := old(items)[key].(flag := OpDelete)]
    {
      if key !in items {
        return -1;
      }
      items := items[key := items[key].(flag := OpDelete)];
      return 0;
    }

    /** updateByID: replaces the supplied fields of an existing phrase and flags it as updated. */
    method UpdateById(key: int, value: Option<string>, typeCode: Option<int>) returns (r: int)
      requires Valid()
      modifies this`items
      ensures Valid()
      ensures (value.None? && typeCode.None?) || key !in old(items) ==> r == -1 && items == old(items)
      ensures !((value.None? && typeCode.None?) || key !in old(items)) ==>
                r == 0 && items.Keys == old(items).Keys &&
                (forall k :: k in items && k != key ==> items[k] == old(items)[k]) &&
                var before := old(items)[key];
                items[key] == before.(pharser := if value.Some? then value.value else before.pharser,
                                      typeCode := if typeCode.Some? then typeCode else before.typeCode,
                                      flag := OpUpdate)
    {
      if (value.None? && typeCode.None?) || key !in items {
        return -1;
      }
      var ins := items[key];
      if value.Some? {
        ins := ins.(pharser := value.value);
      }
      if typeCode.Some? {
        ins := ins.(typeCode := typeCode);
      }
      ins := ins.(flag := OpUpdate);
      items := items[key := ins];
      return 0;
    }

    /**
     * MapToArrayList: refills the caller's list with the phrases not flagged
     * for deletion, in ascending id order, and records each one's position in
     * the item itself. `order` is the order the key set hands out its keys.
     */
    method MapToArrayList(list: Option<seq<ItemData>>, order: seq<int>) returns (r: Option<seq<ItemData>>)
      requires Valid() && IsEnumeration(order, items.Keys)
      modifies this`items
      ensures Valid()
      ensures list.None? ==> r.None? && items == old(items)
      ensures list.Some? ==> r.Some? && (items, r.value) == Listing(old(items), SortKeys(order))
    {
      if list.None? {
        return None;
      }
      ghost var start := items;
      var keys := SortKeys(order);
      assert forall k :: k in keys ==> k in start;
      var result := ListVisible(keys);
      ListingKeepsRowIds(start, keys);
      return Some(result);
    }

    /** The loop of MapToArrayList over the sorted keys. */
    method ListVisible(keys: seq<int>) returns (result: seq<ItemData>)
      requires forall k :: k in keys ==> k in items
      modifies this`items
      ensures (items, result) == Listing(old(items), keys)
    {
      ghost var start := items;
      result := [];
      var i := 0;
      while i < |keys|
        invariant 0 <= i <= |keys|
        invariant items == Listing(start, keys[..i]).0 && result == Listing(start, keys[..i]).1
      {
        var key := keys[i];
        ListingStep(start, keys, i);
        if items[key].flag == OpDelete {
          // logged only
        } else {
          var item := items[key].(indexOfArray := |result|);
          items := items[key := item];
          result := result + [item];
        }
        i := i + 1;
      }
      assert keys[..|keys|] == keys;
    }

    /** The loop of WriteToDisk: sorts the items into the three batches and resets their flags. */
    method Partition(order: seq<int>) returns (inserts: seq<ItemData>, updates: seq<ItemData>, deletes: seq<ItemData>)
      requires Valid() && IsEnumeration(order, items.Keys)
      modifies this`items
      ensures Valid()
      ensures items == FlushAll(old(items), order)
      ensures deletes == Batch(old(items), order, DeleteBatch)
      ensures updates == Batch(old(items), order, UpdateBatch)
      ensures inserts == Batch(old(items), order, InsertBatch)
    {
      ghost var start := items;
      inserts, updates, deletes := [], [], [];
      var i := 0;
      while i < |order|
        invariant 0 <= i <= |order|
        invariant items == FlushAll(start, order[..i])
        invariant deletes == Batch(start, order[..i], DeleteBatch)
        invariant updates == Batch(start, order[..i], UpdateBatch)
        invariant inserts == Batch(start, order[..i], InsertBatch)
      {
        var id := order[i];
        PartitionStep(start, order, i);
        ghost var kind := BatchOf(id, start[id]);
        ghost var flushed := Flushed(id, start[id]);
        // the batches hold the very objects whose flags are reset below, so
        // they see OP_NORMAL as well
        var item := items[id];
        if item.flag == OpDelete {
          deletes := deletes + [item];
        }
        if item.flag == OpUpdate && id <= FIRST_NEW_ID {
          item := item.(flag := OpNormal);
          updates := updates + [item];
        }
        if item.flag == OpInsert || (item.flag == OpUpdate && id > FIRST_NEW_ID) {
          item := item.(flag := OpNormal);
          inserts := inserts + [item];
        }
        assert item == flushed;
        assert deletes == Batch(start, order[..i], DeleteBatch) + (if kind == DeleteBatch then [flushed] else []);
        assert updates == Batch(start, order[..i], UpdateBatch) + (if kind == UpdateBatch then [flushed] else []);
        assert inserts == Batch(start, order[..i], InsertBatch) + (if kind == InsertBatch then [flushed] else []);
        items := items[id := item];
        i := i + 1;
      }
      assert order[..|order|] == order;
      FlushAllEntries(start, order);
    }

    /**
     * WriteToDisk: partitions the table, then issues a bulk insert of the
     * insert batch in row-id order, a bulk update of the update batch and a
     * delete of the delete batch, each only when non-empty; afterwards the
     * table counts as not loaded. `order` is the iteration order of the key set.
     */
    method WriteToDisk(order: seq<int>) returns (r: bool, writes: DiskWrites)
      requires Valid() && IsEnumeration(order, items.Keys)
      modifies this`items, this`isInit
      ensures r && !isInit
      ensures Valid() && items.Keys == old(items).Keys
      ensures forall k :: k in items ==> items[k] == Flushed(k, old(items)[k])
      ensures SortedByRowId(writes.bulkInsert)
      ensures multiset(writes.bulkInsert) == multiset(Batch(old(items), order, InsertBatch))
      ensures writes.bulkUpdate == Batch(old(items), order, UpdateBatch)
      ensures var deletes := Batch(old(items), order, DeleteBatch);
              writes.deleteWhere == if deletes == [] then None else Some(WhereClause(deletes))
    {
      ghost var start := items;
      var inserts, updates, deletes := Partition(order);
      assert Valid() && items.Keys == start.Keys && forall k :: k in items ==> items[k] == Flushed(k, start[k]) by {
        FlushAllEntries(start, order);
      }
      var bulkInsert: seq<ItemData> := [];
      if |inserts| != 0 {
        bulkInsert := SortedInsertBatch(inserts);
      }
      var deleteWhere: Option<string> := None;
      if |deletes| != 0 {
        var where := ChangeWhere(deletes);
        deleteWhere := Some(where);
      }
      writes := DiskWrites(bulkInsert, updates, deleteWhere);
      isInit := false;
      r := true;
    }

    /**
     * LoadFromDatabase: does nothing once loaded; otherwise replaces the table
     * by the query's rows. A failed query (None) changes nothing; an empty
     * result leaves the table empty and not loaded.
     */
    method LoadFromDatabase(cursor: Option<seq<ItemData>>) returns (r: bool)
      requires Valid()
      modifies this`items, this`isInit
      ensures Valid()
      ensures old(isInit) ==> r && items == old(items) && isInit
      ensures !old(isInit) && cursor.None? ==> !r && items == old(items) && !isInit
      ensures !old(isInit) && cursor == Some([]) ==> !r && items == map[] && !isInit
      ensures !old(isInit) && cursor.Some? && cursor.value != [] ==> r && isInit && items == Table(cursor.value)
    {
      if isInit {
        return true;
      }
      if cursor.None? {
        return false;
      }
      items := map[];
      var rows := cursor.value;
      if |rows| == 0 {
        return false;
      }
      var i := 0;
      while i < |rows|
        invariant 0 <= i <= |rows|
        invariant items == Table(rows[..i])
      {
        assert rows[..i + 1][..i] == rows[..i];
        items := items[rows[i].rowId := rows[i]];
        i := i + 1;
      }
      assert rows[..|rows|] == rows;
      TableProperties(rows);
      isInit := true;
      return true;
    }
  }
}
