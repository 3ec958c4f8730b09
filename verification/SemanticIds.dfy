/** Semantic IDs: quantizer labels made unique by collision suffixes, and the prefix trie over them. */
module SemanticIds {
  import opened Outcomes
  import opened Seqs
  import opened Sorting

  type Code = seq<int>

  datatype Entry = Entry(item: int, code: Code)

  /** The code table is a dictionary; `codes` holds its items in insertion order. */
  datatype SemanticIdIndex = SemanticIdIndex(itemIds: seq<int>, codes: seq<Entry>) {
    /** Keys are unique, and so are codes, all of one positive length. */
    ghost predicate WellFormed() {
      && (forall i, j :: 0 <= i < j < |codes| ==> codes[i].item != codes[j].item && codes[i].code != codes[j].code)
      && (forall i, j :: 0 <= i < j < |codes| ==> |codes[i].code| == |codes[j].code|)
      && (forall i :: 0 <= i < |codes| ==> |codes[i].code| > 0)
    }

    ghost function CodeSet(): set<Code> {
      set e | e in codes :: e.code
    }

    function ItemForCode(code: Code): Option<int> {
      FirstMatch(codes, code)
    }

    function ValidNextTokens(prefix: Code): seq<int> {
      SortedUniques(Map(Filter(codes, (e: Entry) => Continues(prefix, e.code)),
                        (e: Entry) => if Continues(prefix, e.code) then e.code[|prefix|] else 0))
    }
  }

  /** The trie has an edge from the prefix towards the code. */
  predicate Continues(prefix: Code, code: Code) {
    |code| > |prefix| && code[..|prefix|] == prefix
  }

  function FirstMatch(entries: seq<Entry>, code: Code): Option<int> {
    if entries == [] then None
    else if entries[0].code == code then Some(entries[0].item)
    else FirstMatch(entries[1..], code)
  }

  lemma {:induction false} FirstMatchCorrect(entries: seq<Entry>, code: Code)
    ensures FirstMatch(entries, code) == None <==> forall e :: e in entries ==> e.code != code
    ensures forall i :: (0 <= i < |entries| && entries[i].code == code &&
                         (forall j :: 0 <= j < i ==> entries[j].code != code)) ==>
      FirstMatch(entries, code) == Some(entries[i].item)
  {
    if entries != [] {
      FirstMatchCorrect(entries[1..], code);
      assert entries == [entries[0]] + entries[1..];
      forall i | 0 < i < |entries| && entries[i].code == code
        && (forall j :: 0 <= j < i ==> entries[j].code != code)
        ensures FirstMatch(entries, code) == Some(entries[i].item)
      {
        assert entries[0].code != code;
        forall j | 0 <= j < i - 1 ensures entries[1..][j].code != code {
          assert entries[j + 1].code != code;
        }
        assert entries[1..][i - 1].code == code;
      }
    }
  }

  /** `item_for_code` inverts the code table. */
  lemma ItemForCodeInverts(index: SemanticIdIndex, code: Code, item: int)
    requires index.WellFormed()
    ensures index.ItemForCode(code) == Some(item) <==> Entry(item, code) in index.codes
    ensures index.ItemForCode(code) == None <==> code !in index.CodeSet()
  {
    FirstMatchCorrect(index.codes, code);
    if e :| e in index.codes && e.code == code {
      var i :| 0 <= i < |index.codes| && index.codes[i] == e;
      assert index.ItemForCode(code) == Some(e.item);
      if item == e.item {
        assert Entry(item, code) == e;
      }
    }
  }

  /** The valid next tokens are, in ascending order, the labels of the trie's edges at the prefix. */
  lemma ValidNextTokensCorrect(index: SemanticIdIndex, prefix: Code)
    ensures Increasing(index.ValidNextTokens(prefix))
    ensures forall t :: t in index.ValidNextTokens(prefix) <==>
      exists e :: e in index.codes && Continues(prefix, e.code) && e.code[|prefix|] == t
  {
    var p := (e: Entry) => Continues(prefix, e.code);
    var f := (e: Entry) => if Continues(prefix, e.code) then e.code[|prefix|] else 0;
    var kept := Filter(index.codes, p);
    FilterContains(index.codes, p);
    SortedUniquesCorrect(Map(kept, f));
    forall t ensures t in Map(kept, f) <==>
      exists e :: e in index.codes && Continues(prefix, e.code) && e.code[|prefix|] == t
    {
      if t in Map(kept, f) {
        var i :| 0 <= i < |kept| && Map(kept, f)[i] == t;
        assert kept[i] in index.codes && Continues(prefix, kept[i].code) && kept[i].code[|prefix|] == t;
      }
      if e :| e in index.codes && Continues(prefix, e.code) && e.code[|prefix|] == t {
        assert e in kept;
        var i :| 0 <= i < |kept| && kept[i] == e;
        assert Map(kept, f)[i] == t;
      }
    }
  }

  // ---------------------------------------------------------------------------------------------
  // Fitting. The clusterer is foreign: `labels[level][row]` is what it returned at each level.

  /** The row's quantizer labels: what `zip(*level_codes)` yields at `row`. */
  function RowPrefix(labels: seq<seq<int>>, row: nat): Code
    requires forall l :: l in labels ==> row < |l|
  {
    seq(|labels|, level requires 0 <= level < |labels| => labels[level][row])
  }

  ghost predicate Labelled(labels: seq<seq<int>>, rows: nat) {
    forall l :: l in labels ==> |l| == rows
  }

  /** The rows whose labels collide with those of `row` and whose item id is smaller. */
  ghost function Smaller(itemIds: seq<int>, labels: seq<seq<int>>, row: nat): set<nat>
    requires Labelled(labels, |itemIds|) && row < |itemIds|
  {
    set r: nat | r < |itemIds| && RowPrefix(labels, r) == RowPrefix(labels, row) && itemIds[r] < itemIds[row]
  }

  /** The code the row's item must get. */
  ghost function RowCode(itemIds: seq<int>, labels: seq<seq<int>>, row: nat): Code
    requires Labelled(labels, |itemIds|) && row < |itemIds|
  {
    RowPrefix(labels, row) + [|Smaller(itemIds, labels, row)|]
  }

  /** The code table gives every item the code of its row, and holds nothing else. */
  ghost predicate HasRow(e: Entry, itemIds: seq<int>, labels: seq<seq<int>>)
    requires Labelled(labels, |itemIds|)
  {
    exists row: nat :: row < |itemIds| && e.item == itemIds[row] && e.code == RowCode(itemIds, labels, row)
  }

  ghost predicate Coded(codes: seq<Entry>, itemIds: seq<int>, labels: seq<seq<int>>)
    requires Labelled(labels, |itemIds|)
  {
    && |codes| == |itemIds|
    && (forall row :: 0 <= row < |itemIds| ==> Entry(itemIds[row], RowCode(itemIds, labels, row)) in codes)
    && (forall e :: e in codes ==> HasRow(e, itemIds, labels))
    && (forall i, j :: 0 <= i < j < |codes| ==> codes[i].item != codes[j].item)
  }

  lemma RowCodeInjective(itemIds: seq<int>, labels: seq<seq<int>>, r1: nat, r2: nat)
    requires Labelled(labels, |itemIds|) && r1 < |itemIds| && r2 < |itemIds|
    requires itemIds[r1] < itemIds[r2]
    ensures RowCode(itemIds, labels, r1) != RowCode(itemIds, labels, r2)
  {
    var p1, p2 := RowPrefix(labels, r1), RowPrefix(labels, r2);
    var s1, s2 := Smaller(itemIds, labels, r1), Smaller(itemIds, labels, r2);
    if p1 == p2 {
      assert s1 + {r1} <= s2 && r1 !in s1;
      SubsetSize(s1 + {r1}, s2);
      assert (p1 + [|s1|])[|p1|] != (p2 + [|s2|])[|p1|];
    } else {
      assert (p1 + [|s1|])[..|labels|] == p1 && (p2 + [|s2|])[..|labels|] == p2;
    }
  }

  /** Codes made unique by their collision suffix: the table is one a beam search can use. */
  lemma CodedIsWellFormed(index: SemanticIdIndex, labels: seq<seq<int>>)
    requires Labelled(labels, |index.itemIds|) && Coded(index.codes, index.itemIds, labels)
    ensures index.WellFormed()
  {
    forall i, j | 0 <= i < |index.codes| && 0 <= j < |index.codes|
      ensures |index.codes[i].code| == |index.codes[j].code| > 0
      ensures index.codes[i].item != index.codes[j].item ==> index.codes[i].code != index.codes[j].code
    {
      RowsDiffer(index.codes[i], index.codes[j], index.itemIds, labels);
    }
  }

  lemma RowsDiffer(e1: Entry, e2: Entry, ids: seq<int>, labels: seq<seq<int>>)
    requires Labelled(labels, |ids|) && HasRow(e1, ids, labels) && HasRow(e2, ids, labels)
    ensures |e1.code| == |e2.code| > 0
    ensures e1.item != e2.item ==> e1.code != e2.code
  {
    var r1: nat :| r1 < |ids| && e1.item == ids[r1] && e1.code == RowCode(ids, labels, r1);
    var r2: nat :| r2 < |ids| && e2.item == ids[r2] && e2.code == RowCode(ids, labels, r2);
    if ids[r1] < ids[r2] {
      RowCodeInjective(ids, labels, r1, r2);
    } else if ids[r2] < ids[r1] {
      RowCodeInjective(ids, labels, r2, r1);
    }
  }

  /** Sort key of the collision group: the row's item id. */
  function ById(itemIds: seq<int>): (nat, nat) -> bool {
    (a: nat, b: nat) => (if a < |itemIds| then itemIds[a] else 0) <= (if b < |itemIds| then itemIds[b] else 0)
  }

  /** A row's place in its sorted collision group is its collision suffix. */
  lemma SortedGroupRank(itemIds: seq<int>, labels: seq<seq<int>>, prefix: Code, rows: seq<nat>, k: nat)
    requires Labelled(labels, |itemIds|) && Distinct(itemIds) && Distinct(rows) && k < |rows|
    requires forall r: nat :: r in rows <==> r < |itemIds| && RowPrefix(labels, r) == prefix
    requires Sorted(rows, ById(itemIds))
    ensures rows[k] < |itemIds| && RowCode(itemIds, labels, rows[k]) == prefix + [k]
  {
    assert rows[k] in rows;
    SortedRank(rows, ById(itemIds), k);
    forall r: nat ensures r in Smaller(itemIds, labels, rows[k]) <==> r in ToSet(rows[..k]) {
      assert r in rows <==> r < |itemIds| && RowPrefix(labels, r) == prefix;
    }
    assert Smaller(itemIds, labels, rows[k]) == ToSet(rows[..k]);
  }

  lemma ById_Order(itemIds: seq<int>)
    ensures TotalPreorder(ById(itemIds))
  {
  }

  /** The entries made so far: one for every row in `done`, with its own code. */
  ghost predicate CodesOf(codes: seq<Entry>, done: seq<nat>, itemIds: seq<int>, labels: seq<seq<int>>)
    requires Labelled(labels, |itemIds|)
  {
    && |codes| == |done|
    && Distinct(done)
    && forall i :: 0 <= i < |done| ==>
         done[i] < |itemIds| && codes[i] == Entry(itemIds[done[i]], RowCode(itemIds, labels, done[i]))
  }

  predicate RowPrefixIs(labels: seq<seq<int>>, row: nat, prefix: Code) {
    (forall l :: l in labels ==> row < |l|) && RowPrefix(labels, row) == prefix
  }

  /** `rows` lists the rows below n with this prefix. */
  ghost predicate RowsOf(rows: seq<nat>, labels: seq<seq<int>>, n: nat, prefix: Code) {
    Distinct(rows) && forall r: nat :: r in rows <==> r < n && RowPrefixIs(labels, r, prefix)
  }

  ghost predicate Grouped(groups: map<Code, seq<nat>>, labels: seq<seq<int>>, n: nat)
    requires forall l :: l in labels ==> n <= |l|
  {
    && (forall p :: p in groups ==> RowsOf(groups[p], labels, n, p))
    && (forall r: nat :: r < n ==> RowPrefix(labels, r) in groups)
  }

  lemma NothingGrouped(labels: seq<seq<int>>)
    ensures Grouped(map[], labels, 0)
  {
  }

  lemma RowsSnoc(rows: seq<nat>, labels: seq<seq<int>>, n: nat, prefix: Code)
    requires RowsOf(rows, labels, n, prefix)
    ensures RowPrefixIs(labels, n, prefix) ==> RowsOf(rows + [n], labels, n + 1, prefix)
    ensures !RowPrefixIs(labels, n, prefix) ==> RowsOf(rows, labels, n + 1, prefix)
  {
    hide RowPrefixIs;
    assert forall i :: 0 <= i < |rows| ==> rows[i] in rows;
    forall r: nat ensures r in rows + [n] <==> r in rows || r == n {
    }
  }

  lemma GroupedSnoc(groups: map<Code, seq<nat>>, labels: seq<seq<int>>, row: nat)
    requires (forall l :: l in labels ==> row < |l|) && Grouped(groups, labels, row)
    ensures var prefix := RowPrefix(labels, row);
      Grouped(groups[prefix := (if prefix in groups then groups[prefix] else []) + [row]], labels, row + 1)
  {
    var prefix := RowPrefix(labels, row);
    var own := if prefix in groups then groups[prefix] else [];
    if prefix !in groups {
      forall r: nat ensures !(r < row && RowPrefixIs(labels, r, prefix)) {
      }
    }
    RowsSnoc(own, labels, row, prefix);
    forall p | p in groups && p != prefix ensures RowsOf(groups[p], labels, row + 1, p) {
      RowsSnoc(groups[p], labels, row, p);
    }
  }

  method GroupRows(labels: seq<seq<int>>, rows: nat) returns (order: seq<Code>, groups: map<Code, seq<nat>>)
    requires Labelled(labels, rows)
    ensures Distinct(order) && forall p :: p in order <==> p in groups
    ensures Grouped(groups, labels, rows)
  {
    hide Grouped;
    order, groups := [], map[];
    NothingGrouped(labels);
    for row := 0 to rows
      invariant Distinct(order) && forall p :: p in order <==> p in groups
      invariant Grouped(groups, labels, row)
    {
      var prefix := RowPrefix(labels, row);
      GroupedSnoc(groups, labels, row);
      if prefix in groups {
        groups := groups[prefix := groups[prefix] + [row]];
      } else {
        order := order + [prefix];
        assert [] + [row] == [row];
        groups := groups[prefix := [row]];
      }
    }
  }

  /** The collision group sorted by item id: each row's place is its suffix. */
  lemma SortedGroup(itemIds: seq<int>, labels: seq<seq<int>>, prefix: Code, rows: seq<nat>)
    requires Labelled(labels, |itemIds|) && Distinct(itemIds) && Distinct(rows)
    requires forall r: nat :: r in rows <==> r < |itemIds| && RowPrefix(labels, r) == prefix
    ensures var sorted := SortBy<nat>(rows, ById(itemIds));
      && Distinct(sorted) && (forall r: nat :: r in sorted <==> r in rows)
      && (forall k :: 0 <= k < |sorted| ==>
            sorted[k] < |itemIds| && RowCode(itemIds, labels, sorted[k]) == prefix + [k])
  {
    var sorted := SortBy<nat>(rows, ById(itemIds));
    ById_Order(itemIds);
    SortCorrect(rows, ById(itemIds));
    SortDistinct(rows, ById(itemIds));
    hide SortBy, ById, RowCode;
    forall k | 0 <= k < |sorted|
      ensures sorted[k] < |itemIds| && RowCode(itemIds, labels, sorted[k]) == prefix + [k]
    {
      SortedGroupRank(itemIds, labels, prefix, sorted, k);
    }
  }

  method SuffixGroup(itemIds: seq<int>, labels: seq<seq<int>>, prefix: Code, rows: seq<nat>)
    returns (entries: seq<Entry>, ghost done: seq<nat>)
    requires Labelled(labels, |itemIds|) && Distinct(itemIds) && Distinct(rows)
    requires forall r: nat :: r in rows <==> r < |itemIds| && RowPrefix(labels, r) == prefix
    ensures CodesOf(entries, done, itemIds, labels)
    ensures forall r: nat :: r in done <==> r in rows
  {
    done := SortBy<nat>(rows, ById(itemIds));
    SortedGroup(itemIds, labels, prefix, rows);
    entries := SuffixRows(itemIds, labels, prefix, SortBy<nat>(rows, ById(itemIds)));
  }

  /** The enumeration of one sorted group. */
  method SuffixRows(itemIds: seq<int>, labels: seq<seq<int>>, prefix: Code, sorted: seq<nat>)
    returns (entries: seq<Entry>)
    requires Labelled(labels, |itemIds|) && Distinct(sorted)
    requires forall k :: 0 <= k < |sorted| ==>
        sorted[k] < |itemIds| && RowCode(itemIds, labels, sorted[k]) == prefix + [k]
    ensures CodesOf(entries, sorted, itemIds, labels)
  {
    hide CodesOf, RowCode;
    entries := [];
    NoCodes(itemIds, labels);
    for k := 0 to |sorted|
      invariant CodesOf(entries, sorted[..k], itemIds, labels)
    {
      assert sorted[..k + 1] == sorted[..k] + [sorted[k]];
      CodesSnoc(entries, sorted[..k], itemIds, labels, sorted[k]);
      entries := entries + [Entry(itemIds[sorted[k]], prefix + [k])];
    }
    assert sorted[..|sorted|] == sorted;
  }

  lemma NoCodes(itemIds: seq<int>, labels: seq<seq<int>>)
    ensures Labelled(labels, |itemIds|) ==> CodesOf([], [], itemIds, labels)
  {
  }

  lemma CodesSnoc(codes: seq<Entry>, done: seq<nat>, itemIds: seq<int>, labels: seq<seq<int>>, row: nat)
    requires Labelled(labels, |itemIds|) && CodesOf(codes, done, itemIds, labels) && row < |itemIds| && row !in done
    ensures CodesOf(codes + [Entry(itemIds[row], RowCode(itemIds, labels, row))], done + [row], itemIds, labels)
  {
    hide RowCode;
    assert forall i :: 0 <= i < |done| ==> done[i] in done;
  }

  method Fit(itemIds: seq<int>, embeddingRows: nat, labels: seq<seq<int>>)
    returns (r: Result<SemanticIdIndex, string>)
    requires Labelled(labels, embeddingRows)
    ensures r.Success? <==>
      embeddingRows == |itemIds| && Distinct(itemIds) && (itemIds != [] || labels == [])
    ensures r.Success? ==> r.value.itemIds == itemIds && r.value.WellFormed()
    ensures r.Success? && labels == [] ==> r.value.codes == []
    ensures r.Success? && labels != [] ==> Coded(r.value.codes, itemIds, labels)
  {
    var unique := SortedUniques(itemIds);
    UniquesSize(itemIds);
    if embeddingRows != |itemIds| || |unique| != |itemIds| {
      return Failure("item IDs and embeddings must be aligned and unique");
    }
    if labels == [] {
      return Success(SemanticIdIndex(itemIds, []));
    }
    if itemIds == [] {
      return Failure("no clusters to fit");
    }
    var codes := AssignCodes(itemIds, labels);
    r := Success(SemanticIdIndex(itemIds, codes));
    CodedIsWellFormed(r.value, labels);
  }

  method AssignCodes(itemIds: seq<int>, labels: seq<seq<int>>) returns (codes: seq<Entry>)
    requires Labelled(labels, |itemIds|) && Distinct(itemIds)
    ensures Coded(codes, itemIds, labels)
  {
    var order, groups := GroupRows(labels, |itemIds|);
    codes := [];
    ghost var done: seq<nat> := [];
    for g := 0 to |order|
      invariant CodesOf(codes, done, itemIds, labels)
      invariant forall r: nat :: r in done <==> r < |itemIds| && RowPrefix(labels, r) in order[..g]
    {
      var prefix := order[g];
      assert prefix in order;
      var entries, rows := SuffixGroup(itemIds, labels, prefix, groups[prefix]);
      assert order[..g + 1] == order[..g] + [prefix];
      CodesOfConcat(codes, done, entries, rows, itemIds, labels);
      codes, done := codes + entries, done + rows;
    }
    assert order[..|order|] == order;
    AllRowsDone(codes, done, itemIds, labels);
  }

  lemma CodesOfConcat(c1: seq<Entry>, d1: seq<nat>, c2: seq<Entry>, d2: seq<nat>, itemIds: seq<int>,
                      labels: seq<seq<int>>)
    requires Labelled(labels, |itemIds|)
    requires CodesOf(c1, d1, itemIds, labels) && CodesOf(c2, d2, itemIds, labels)
    requires forall r :: r in d1 ==> r !in d2
    ensures CodesOf(c1 + c2, d1 + d2, itemIds, labels)
  {
    forall i, j | 0 <= i < |d1| && 0 <= j < |d2| ensures d1[i] != d2[j] {
      assert d1[i] in d1 && d2[j] in d2;
    }
  }

  lemma AllRowsDone(codes: seq<Entry>, done: seq<nat>, itemIds: seq<int>, labels: seq<seq<int>>)
    requires Labelled(labels, |itemIds|) && Distinct(itemIds) && CodesOf(codes, done, itemIds, labels)
    requires forall r: nat :: r in done <==> r < |itemIds|
    ensures Coded(codes, itemIds, labels)
  {
    RangeContains(|itemIds|);
    SameElementsSameSize(done, Range(|itemIds|));
    forall row: nat | row < |itemIds| ensures Entry(itemIds[row], RowCode(itemIds, labels, row)) in codes {
      assert row in done;
      var i :| 0 <= i < |done| && done[i] == row;
      assert codes[i] in codes;
    }
    forall i, j | 0 <= i < j < |codes| ensures codes[i].item != codes[j].item {
      assert done[i] != done[j];
    }
  }
}
