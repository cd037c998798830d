/** The row-join engine: keyed join (`_joinData`), positional pairing
    (`_getJoinedData`, and the combination in HyperView's `loadCombinedData`),
    column append (`_addColumnsToMainData`) and expand merge
    (`_mergeAndAddExpandData`). Rows are string-keyed maps; the spread
    `{...a, ...b}` is the right-biased union `a + b`. */
module RowJoin {
  import opened Js
  import opened Seqs
  import opened MetadataIndex
  import opened Columns

  /** A JavaScript array of rows that a routine changes in place. */
  class RowArray {
    var rows: seq<Row>

    constructor(rows: seq<Row>)
      ensures this.rows == rows
    {
      this.rows := rows;
    }
  }

  /** `joinItem[prop] === key` */
  function KeyMatches(prop: string, key: Value): Row -> bool {
    (r: Row) => StrictEquals(Get(r, prop), key)
  }

  /** The first row whose `prop` strictly equals `key`, or `{}`. */
  function MatchOrEmpty(rows: seq<Row>, prop: string, key: Value): Row {
    match Find(rows, KeyMatches(prop, key))
    case Some(r) => r
    case None => map[]
  }

  /** The row `_joinData` pushes for a main row: the main row overlaid by
      the first matching row of the join array as it stands. */
  function JoinedRow(acc: seq<Row>, mainRow: Row, mainProp: string, joinProp: string): Row {
    mainRow + MatchOrEmpty(acc, joinProp, Get(mainRow, mainProp))
  }

  /** The join array after a run, and whether the run threw. */
  datatype JoinOutcome = JoinOutcome(rows: seq<Row>, failed: bool)

  /** `_joinData` from join array `acc` on: each main row appends its
      joined row to the very array that later searches look in. With
      `checkMainKey` (Backup.js) a falsy main key throws. */
  function JoinFrom(acc: seq<Row>, main: seq<Row>, mainProp: string, joinProp: string, checkMainKey: bool): JoinOutcome
    decreases |main|
  {
    if |main| == 0 then JoinOutcome(acc, false)
    else if checkMainKey && !Truthy(Get(main[0], mainProp)) then JoinOutcome(acc, true)
    else JoinFrom(acc + [JoinedRow(acc, main[0], mainProp, joinProp)], main[1..], mainProp, joinProp, checkMainKey)
  }

  /** One step of a run that does not throw. */
  lemma JoinFromStep(acc: seq<Row>, main: seq<Row>, mainProp: string, joinProp: string, checkMainKey: bool)
    requires |main| > 0 && !(checkMainKey && !Truthy(Get(main[0], mainProp)))
    ensures JoinFrom(acc, main, mainProp, joinProp, checkMainKey) ==
            JoinFrom(acc + [JoinedRow(acc, main[0], mainProp, joinProp)], main[1..], mainProp, joinProp, checkMainKey)
  {
  }

  /** Rows from index `n` on are main rows joined against the rows before
      them, in main order. */
  predicate JoinedFrom(rows: seq<Row>, n: nat, main: seq<Row>, mainProp: string, joinProp: string) {
    n <= |rows| <= n + |main| &&
    forall j :: n <= j < |rows| ==> rows[j] == JoinedRow(rows[..j], main[j - n], mainProp, joinProp)
  }

  /** What a run appends: it keeps the join rows it started with and adds
      at most one row per main row, in main order, each the main row
      overlaid by the first match among the rows before it. */
  lemma {:induction false} JoinFromAppends(acc: seq<Row>, main: seq<Row>, mainProp: string, joinProp: string, checkMainKey: bool)
    ensures JoinedFrom(JoinFrom(acc, main, mainProp, joinProp, checkMainKey).rows, |acc|, main, mainProp, joinProp)
    ensures JoinFrom(acc, main, mainProp, joinProp, checkMainKey).rows[..|acc|] == acc
    decreases |main|
  {
    if |main| > 0 && !(checkMainKey && !Truthy(Get(main[0], mainProp))) {
      var row := JoinedRow(acc, main[0], mainProp, joinProp);
      var acc' := acc + [row];
      JoinFromStep(acc, main, mainProp, joinProp, checkMainKey);
      JoinFromAppends(acc', main[1..], mainProp, joinProp, checkMainKey);
      var rows := JoinFrom(acc', main[1..], mainProp, joinProp, checkMainKey).rows;
      JoinedFromCons(acc, main, rows, mainProp, joinProp);
    }
  }

  /** The rows of one step in front of what the rest of the run appends. */
  lemma JoinedFromCons(acc: seq<Row>, main: seq<Row>, rows: seq<Row>, mainProp: string, joinProp: string)
    requires |main| > 0 && |acc| < |rows|
    requires rows[..|acc| + 1] == acc + [JoinedRow(acc, main[0], mainProp, joinProp)]
    requires JoinedFrom(rows, |acc| + 1, main[1..], mainProp, joinProp)
    ensures JoinedFrom(rows, |acc|, main, mainProp, joinProp)
    ensures rows[..|acc|] == acc
  {
    var step := (pre: seq<Row>, m: Row) => JoinedRow(pre, m, mainProp, joinProp);
    assert forall j :: |acc| + 1 <= j < |rows| ==> rows[j] == step(rows[..j], main[1..][j - (|acc| + 1)]);
    StepsCons(acc, main, rows, step);
  }

  /** Index bookkeeping for a run that appends `step(rows before, source)`
      per source element: one step in front of the rest. */
  lemma StepsCons<T, U>(acc: seq<T>, src: seq<U>, rows: seq<T>, step: (seq<T>, U) -> T)
    requires |src| > 0 && |acc| < |rows| <= |acc| + |src|
    requires rows[..|acc| + 1] == acc + [step(acc, src[0])]
    requires forall j :: |acc| + 1 <= j < |rows| ==> rows[j] == step(rows[..j], src[1..][j - (|acc| + 1)])
    ensures rows[..|acc|] == acc
    ensures forall j :: |acc| <= j < |rows| ==> rows[j] == step(rows[..j], src[j - |acc|])
  {
    var n := |acc|;
    assert rows[..n] == rows[..n + 1][..n];
    forall j | n <= j < |rows|
      ensures rows[j] == step(rows[..j], src[j - n])
    {
      if j == n {
        assert rows[j] == rows[..n + 1][n];
      } else {
        assert src[1..][j - (n + 1)] == src[j - n];
      }
    }
  }

  /** The rows after one step of a run that does not throw: one more than
      before. */
  lemma JoinFromNext(acc: seq<Row>, main: seq<Row>, mainProp: string, joinProp: string, checkMainKey: bool)
    returns (acc': seq<Row>)
    requires |main| > 0 && !(checkMainKey && !Truthy(Get(main[0], mainProp)))
    ensures |acc'| == |acc| + 1
    ensures JoinFrom(acc, main, mainProp, joinProp, checkMainKey) == JoinFrom(acc', main[1..], mainProp, joinProp, checkMainKey)
  {
    acc' := acc + [JoinedRow(acc, main[0], mainProp, joinProp)];
    JoinFromStep(acc, main, mainProp, joinProp, checkMainKey);
  }

  /** A run throws exactly when the main key is checked and some main row
      lacks it. */
  lemma {:induction false} JoinFromFails(acc: seq<Row>, main: seq<Row>, mainProp: string, joinProp: string, checkMainKey: bool)
    ensures JoinFrom(acc, main, mainProp, joinProp, checkMainKey).failed <==>
              checkMainKey && exists i :: 0 <= i < |main| && !Truthy(Get(main[i], mainProp))
    decreases |main|
  {
    if |main| > 0 && !(checkMainKey && !Truthy(Get(main[0], mainProp))) {
      var acc' := JoinFromNext(acc, main, mainProp, joinProp, checkMainKey);
      JoinFromFails(acc', main[1..], mainProp, joinProp, checkMainKey);
      if checkMainKey && exists i :: 0 <= i < |main| && !Truthy(Get(main[i], mainProp)) {
        var i :| 0 <= i < |main| && !Truthy(Get(main[i], mainProp));
        assert main[1..][i - 1] == main[i];
      }
    }
  }

  /** The first `n` main rows all have a truthy main key. */
  predicate KeyedPrefix(main: seq<Row>, mainProp: string, n: nat)
    requires n <= |main|
  {
    forall i :: 0 <= i < n ==> Truthy(Get(main[i], mainProp))
  }

  lemma KeyedPrefixCons(main: seq<Row>, mainProp: string, n: nat)
    requires 0 < n <= |main|
    requires Truthy(Get(main[0], mainProp)) && KeyedPrefix(main[1..], mainProp, n - 1)
    ensures KeyedPrefix(main, mainProp, n)
  {
    forall i | 0 < i < n
      ensures Truthy(Get(main[i], mainProp))
    {
      assert main[1..][i - 1] == main[i];
    }
  }

  /** A run that does not throw adds one row per main row; one that throws
      stops at the first main row without the key. */
  lemma {:induction false} JoinFromStops(acc: seq<Row>, main: seq<Row>, mainProp: string, joinProp: string, checkMainKey: bool)
    ensures var o := JoinFrom(acc, main, mainProp, joinProp, checkMainKey);
            (!o.failed ==> |o.rows| == |acc| + |main|) &&
            (o.failed ==> checkMainKey && |acc| <= |o.rows| < |acc| + |main| && !Truthy(Get(main[|o.rows| - |acc|], mainProp)) &&
                          KeyedPrefix(main, mainProp, |o.rows| - |acc|))
    decreases |main|
  {
    if |main| > 0 && !(checkMainKey && !Truthy(Get(main[0], mainProp))) {
      var acc' := JoinFromNext(acc, main, mainProp, joinProp, checkMainKey);
      JoinFromStops(acc', main[1..], mainProp, joinProp, checkMainKey);
      var o := JoinFrom(acc', main[1..], mainProp, joinProp, checkMainKey);
      if o.failed {
        var n := |o.rows| - |acc|;
        assert main[1..][n - 1] == main[n];
        KeyedPrefixCons(main, mainProp, n);
      }
    }
  }

  /** When a run throws: exactly when keys are checked and some main key is
      falsy; it then stops at the first such row, and otherwise appends one
      row per main row. */
  lemma {:induction false} JoinFromFailure(acc: seq<Row>, main: seq<Row>, mainProp: string, joinProp: string, checkMainKey: bool)
    ensures var o := JoinFrom(acc, main, mainProp, joinProp, checkMainKey);
            (o.failed <==> checkMainKey && exists i :: 0 <= i < |main| && !Truthy(Get(main[i], mainProp))) &&
            (!o.failed ==> |o.rows| == |acc| + |main|) &&
            (o.failed ==> |acc| <= |o.rows| < |acc| + |main| && !Truthy(Get(main[|o.rows| - |acc|], mainProp)) &&
                          forall i :: 0 <= i < |o.rows| - |acc| ==> Truthy(Get(main[i], mainProp)))
  {
    JoinFromFails(acc, main, mainProp, joinProp, checkMainKey);
    JoinFromStops(acc, main, mainProp, joinProp, checkMainKey);
    var o := JoinFrom(acc, main, mainProp, joinProp, checkMainKey);
    if o.failed {
      assert KeyedPrefix(main, mainProp, |o.rows| - |acc|);
    }
  }

  /** `_joinData`: `join` is the `aJoinData` array, which the routine both
      searches and pushes into; the array itself is what it returns. */
  method JoinData(main: seq<Row>, join: RowArray, mainProp: string, joinProp: string, checkMainKey: bool)
    returns (r: Result<seq<Row>>)
    modifies join
    ensures join.rows == JoinFrom(old(join.rows), main, mainProp, joinProp, checkMainKey).rows
    ensures JoinFrom(old(join.rows), main, mainProp, joinProp, checkMainKey).failed ==> r == Failure(JoinKeyMissing)
    ensures !JoinFrom(old(join.rows), main, mainProp, joinProp, checkMainKey).failed ==> r == Success(join.rows)
  {
    for i := 0 to |main|
      invariant JoinFrom(old(join.rows), main, mainProp, joinProp, checkMainKey) ==
                JoinFrom(join.rows, main[i..], mainProp, joinProp, checkMainKey)
    {
      var mainKey := Get(main[i], mainProp);
      if checkMainKey && !Truthy(mainKey) {
        return Failure(JoinKeyMissing);
      }
      var matched := Find(join.rows, KeyMatches(joinProp, mainKey));
      var added := main[i] + (if matched.Some? then matched.value else map[]);
      assert added == JoinedRow(join.rows, main[i], mainProp, joinProp);
      assert main[i..][1..] == main[i + 1..];
      join.rows := join.rows + [added];
    }
    return Success(join.rows);
  }

  /** The join the routine evidently means: each main row overlaid by the
      first matching row of the original join rows. */
  function Intended(orig: seq<Row>, main: seq<Row>, mainProp: string, joinProp: string): (r: seq<Row>)
    ensures |r| == |main|
    ensures forall i :: 0 <= i < |main| ==> r[i] == JoinedRow(orig, main[i], mainProp, joinProp)
  {
    seq(|main|, i requires 0 <= i < |main| => JoinedRow(orig, main[i], mainProp, joinProp))
  }

  /** Every appended row's join value is undefined or one of the original
      join rows' values. */
  predicate ValuesFromOriginal(extra: seq<Row>, orig: seq<Row>, joinProp: string) {
    forall r :: r in extra ==> Get(r, joinProp) == Undefined || Get(r, joinProp) in JoinValues(orig, joinProp)
  }

  /** The join values of the original join rows. */
  function JoinValues(orig: seq<Row>, joinProp: string): set<Value> {
    set o | o in orig :: Get(o, joinProp)
  }

  /** Rows appended after the original ones never win a search for a
      defined key: their join values are undefined or already present. */
  lemma FirstMatchInOriginal(orig: seq<Row>, extra: seq<Row>, joinProp: string, key: Value)
    requires ValuesFromOriginal(extra, orig, joinProp)
    requires key != Undefined
    ensures MatchOrEmpty(orig + extra, joinProp, key) == MatchOrEmpty(orig, joinProp, key)
  {
    var p := KeyMatches(joinProp, key);
    FindAppend(orig, extra, p);
    if Find(orig, p).None? {
      forall r | r in extra
        ensures !p(r)
      {
        if Get(r, joinProp) != Undefined {
          var o :| o in orig && Get(o, joinProp) == Get(r, joinProp);
          assert !p(o);
        }
      }
    }
  }

  /** A joined main row without the join column carries the join value of
      its match, or none. */
  lemma JoinedRowValue(orig: seq<Row>, extra: seq<Row>, mainRow: Row, mainProp: string, joinProp: string)
    requires ValuesFromOriginal(extra, orig, joinProp)
    requires joinProp !in mainRow
    ensures ValuesFromOriginal(extra + [JoinedRow(orig, mainRow, mainProp, joinProp)], orig, joinProp)
  {
    var row := JoinedRow(orig, mainRow, mainProp, joinProp);
    var matched := Find(orig, KeyMatches(joinProp, Get(mainRow, mainProp)));
    if matched.Some? {
      assert Get(row, joinProp) == Get(matched.value, joinProp);
    } else {
      assert Get(row, joinProp) == Undefined;
    }
  }

  lemma IntendedCons(orig: seq<Row>, main: seq<Row>, mainProp: string, joinProp: string)
    requires |main| > 0
    ensures Intended(orig, main, mainProp, joinProp) ==
            [JoinedRow(orig, main[0], mainProp, joinProp)] + Intended(orig, main[1..], mainProp, joinProp)
  {
    var r := [JoinedRow(orig, main[0], mainProp, joinProp)] + Intended(orig, main[1..], mainProp, joinProp);
    forall i | 1 <= i < |main|
      ensures r[i] == JoinedRow(orig, main[i], mainProp, joinProp)
    {
      assert main[1..][i - 1] == main[i];
    }
  }

  /** When the main rows do not carry the join column and no main key is
      undefined, the pushed rows never win a search: the run appends exactly
      the intended join to the original rows. */
  lemma {:induction false} JoinSelfFeedHarmless(orig: seq<Row>, extra: seq<Row>, main: seq<Row>,
                                                 mainProp: string, joinProp: string, checkMainKey: bool)
    requires ValuesFromOriginal(extra, orig, joinProp)
    requires forall i :: 0 <= i < |main| ==> joinProp !in main[i] && Get(main[i], mainProp) != Undefined
    requires checkMainKey ==> forall i :: 0 <= i < |main| ==> Truthy(Get(main[i], mainProp))
    ensures JoinFrom(orig + extra, main, mainProp, joinProp, checkMainKey) ==
            JoinOutcome(orig + extra + Intended(orig, main, mainProp, joinProp), false)
    decreases |main|
  {
    if |main| == 0 {
      assert orig + extra + [] == orig + extra;
    } else {
      var row := JoinedRow(orig, main[0], mainProp, joinProp);
      var rest := main[1..];
      assert JoinedRow(orig + extra, main[0], mainProp, joinProp) == row by {
        FirstMatchInOriginal(orig, extra, joinProp, Get(main[0], mainProp));
      }
      JoinFromStep(orig + extra, main, mainProp, joinProp, checkMainKey);
      assert ValuesFromOriginal(extra + [row], orig, joinProp) by {
        JoinedRowValue(orig, extra, main[0], mainProp, joinProp);
      }
      assert forall i :: 0 <= i < |rest| ==> rest[i] == main[i + 1];
      JoinSelfFeedHarmless(orig, extra + [row], rest, mainProp, joinProp, checkMainKey);
      IntendedCons(orig, main, mainProp, joinProp);
      ConcatRegroup(orig, extra, row, Intended(orig, rest, mainProp, joinProp));
    }
  }

  lemma ConcatRegroup(a: seq<Row>, b: seq<Row>, x: Row, c: seq<Row>)
    ensures a + b + [x] == a + (b + [x])
    ensures a + (b + [x]) + c == a + b + ([x] + c)
  {
  }

  /** The bug made visible: joining a set with itself on `K`, the second
      main row finds the row pushed for the first and loses its own `X`. */
  lemma JoinSelfFeedCounterexample()
    ensures var a := map["K" := Str("a"), "X" := Num(1)];
            var b := map["K" := Str("a"), "X" := Num(2)];
            JoinFrom([], [a, b], "K", "K", true) == JoinOutcome([a, a], false) &&
            Intended([], [a, b], "K", "K") == [a, b]
  {
    var a := map["K" := Str("a"), "X" := Num(1)];
    var b := map["K" := Str("a"), "X" := Num(2)];
    var noRows: seq<Row> := [];
    var p := KeyMatches("K", Str("a"));
    assert Find(noRows, p) == None;
    assert JoinedRow(noRows, a, "K", "K") == a;
    assert p(a);
    FindIsFirst([a], p, 0);
    assert JoinedRow([a], b, "K", "K") == b + a;
    assert b + a == a;
    var step1 := JoinFrom(noRows, [a, b], "K", "K", true);
    assert [a, b][1..] == [b];
    assert noRows + [a] == [a];
    assert step1 == JoinFrom([a], [b], "K", "K", true);
    assert [b][1..] == [];
    assert JoinFrom([a], [b], "K", "K", true) == JoinFrom([a, a], [], "K", "K", true);
    var intended := Intended(noRows, [a, b], "K", "K");
    assert intended[0] == a;
    assert intended[1] == b + map[];
    assert b + map[] == b;
  }

  /** The positional combination: row `i` of the first result overlaid by
      row `i` of the second, when there is one. */
  function PairByIndex(rows1: seq<Row>, rows2: seq<Row>): (r: seq<Row>)
    ensures |r| == |rows1|
    ensures forall i :: 0 <= i < |rows1| && i >= |rows2| ==> r[i] == rows1[i]
    ensures forall i :: 0 <= i < |rows1| && i < |rows2| ==>
              r[i].Keys == rows1[i].Keys + rows2[i].Keys &&
              (forall k :: k in rows2[i] ==> r[i][k] == rows2[i][k]) &&
              (forall k :: k in rows1[i] && k !in rows2[i] ==> r[i][k] == rows1[i][k])
  {
    seq(|rows1|, i requires 0 <= i < |rows1| => rows1[i] + (if i < |rows2| then rows2[i] else map[]))
  }

  /** `_getJoinedData`: by position when either join property is falsy,
      otherwise `_joinData` on the two results. Backup.js checks the main
      keys; the BaseController.js revision does not. */
  method GetJoinedData(results1: seq<Row>, joinProp1: Option<string>, results2: RowArray,
                       joinProp2: Option<string>, checkMainKey: bool)
    returns (r: Result<seq<Row>>)
    modifies results2
    ensures !(NameTruthy(joinProp1) && NameTruthy(joinProp2)) ==>
              r == Success(PairByIndex(results1, old(results2.rows))) && results2.rows == old(results2.rows)
    ensures NameTruthy(joinProp1) && NameTruthy(joinProp2) ==>
              var o := JoinFrom(old(results2.rows), results1, joinProp1.value, joinProp2.value, checkMainKey);
              results2.rows == o.rows && r == (if o.failed then Failure(JoinKeyMissing) else Success(o.rows))
  {
    if !NameTruthy(joinProp1) || !NameTruthy(joinProp2) {
      return Success(PairByIndex(results1, results2.rows));
    }
    r := JoinData(results1, results2, joinProp1.value, joinProp2.value, checkMainKey);
  }

  /** HyperView's positional combination `{id: i, ...item1, ...item2,
      __metadata: []}`; `freshBase + i` stands for the new empty array of row
      `i`. */
  function CombineWithIndex(rows1: seq<Row>, rows2: seq<Row>, freshBase: nat): (r: seq<Row>)
    ensures |r| == |rows1|
    ensures forall i :: 0 <= i < |r| ==> "__metadata" in r[i] && r[i]["__metadata"] == Obj(freshBase + i)
    ensures forall i :: 0 <= i < |r| ==>
              "id" in r[i] &&
              ("id" !in rows1[i] && (i >= |rows2| || "id" !in rows2[i]) ==> r[i]["id"] == Num(i))
    ensures forall i, k :: 0 <= i < |r| && k != "__metadata" && k != "id" ==>
              (k in r[i] <==> k in PairByIndex(rows1, rows2)[i]) &&
              (k in r[i] ==> r[i][k] == PairByIndex(rows1, rows2)[i][k])
  {
    seq(|rows1|, i requires 0 <= i < |rows1| =>
      (map["id" := Num(i)] + rows1[i] + (if i < |rows2| then rows2[i] else map[]))["__metadata" := Obj(freshBase + i)])
  }

  /** The combined rows are the positional pairing with `id` underneath and
      a new `__metadata` on top. */
  lemma CombineIsPairing(rows1: seq<Row>, rows2: seq<Row>, freshBase: nat)
    ensures forall i :: 0 <= i < |rows1| ==>
              CombineWithIndex(rows1, rows2, freshBase)[i] ==
                (map["id" := Num(i)] + PairByIndex(rows1, rows2)[i])["__metadata" := Obj(freshBase + i)]
  {
    forall i | 0 <= i < |rows1|
      ensures CombineWithIndex(rows1, rows2, freshBase)[i] ==
                (map["id" := Num(i)] + PairByIndex(rows1, rows2)[i])["__metadata" := Obj(freshBase + i)]
    {
      var second: Row := if i < |rows2| then rows2[i] else map[];
      assert map["id" := Num(i)] + rows1[i] + second == map["id" := Num(i)] + (rows1[i] + second);
    }
  }

  /** `""` for every sub-entity column. */
  function Blanks(cols: seq<ColumnMeta>): (b: Row)
    ensures b.Keys == NamesOf(cols)
    ensures forall k :: k in b ==> b[k] == Str("")
  {
    map k | k in NamesOf(cols) :: Str("")
  }

  /** One main row after `_addColumnsToMainData`: on a match, the fields of
      the matched row the main row lacks; otherwise `""` for each
      sub-entity column the main row lacks. */
  function AddColumnsRow(row: Row, joined: seq<Row>, mainProp: string, subProp: string, subColumns: seq<ColumnMeta>): (r: Row)
    ensures forall k :: k in row ==> k in r && r[k] == row[k]
    ensures Find(joined, KeyMatches(subProp, Get(row, mainProp))).Some? ==>
              var j := Find(joined, KeyMatches(subProp, Get(row, mainProp))).value;
              r.Keys == row.Keys + j.Keys && forall k :: k in r && k !in row ==> r[k] == j[k]
    ensures Find(joined, KeyMatches(subProp, Get(row, mainProp))).None? ==>
              r.Keys == row.Keys + NamesOf(subColumns) && forall k :: k in r && k !in row ==> r[k] == Str("")
  {
    match Find(joined, KeyMatches(subProp, Get(row, mainProp)))
    case Some(j) => j + row
    case None => Blanks(subColumns) + row
  }

  /** `_addColumnsToMainData`: every main row is updated in place, in order;
      the returned metadata is the old one followed by the sub-entity
      columns, with no de-duplication. */
  method AddColumnsToMainData(main: RowArray, joined: seq<Row>, mainProp: string, subProp: string,
                              metadata: seq<ColumnMeta>, subInfo: EntitySetInfo, subSetName: string,
                              subModel: ODataModel)
    returns (data: seq<Row>, newMetadata: seq<ColumnMeta>)
    modifies main
    ensures |main.rows| == |old(main.rows)|
    ensures forall i :: 0 <= i < |main.rows| ==>
              main.rows[i] == AddColumnsRow(old(main.rows)[i], joined, mainProp, subProp,
                                            CreateColumnMetadata(subInfo, subSetName, subModel))
    ensures data == main.rows
    ensures newMetadata == metadata + CreateColumnMetadata(subInfo, subSetName, subModel)
  {
    var subColumns := CreateColumnMetadata(subInfo, subSetName, subModel);
    for i := 0 to |main.rows|
      invariant |main.rows| == |old(main.rows)|
      invariant forall j :: 0 <= j < i ==>
                  main.rows[j] == AddColumnsRow(old(main.rows)[j], joined, mainProp, subProp, subColumns)
      invariant forall j :: i <= j < |main.rows| ==> main.rows[j] == old(main.rows)[j]
    {
      var row := main.rows[i];
      var joinedRow := Find(joined, KeyMatches(subProp, Get(row, mainProp)));
      if joinedRow.Some? {
        row := joinedRow.value + row;
      } else {
        row := Blanks(subColumns) + row;
      }
      main.rows := main.rows[i := row];
    }
    return main.rows, metadata + subColumns;
  }

  /** The metadata array `_mergeAndAddExpandData` pushes into. */
  class ColumnList {
    var columns: seq<ColumnMeta>

    constructor(columns: seq<ColumnMeta>)
      ensures this.columns == columns
    {
      this.columns := columns;
    }
  }

  predicate HasColumn(cols: seq<ColumnMeta>, name: string) {
    exists i :: 0 <= i < |cols| && cols[i].columnName == name
  }

  /** Pushing each new column unless the growing array already has a
      column of that name. */
  function AppendNewColumns(cols: seq<ColumnMeta>, incoming: seq<ColumnMeta>): seq<ColumnMeta>
    decreases |incoming|
  {
    if |incoming| == 0 then cols
    else AppendNewColumns(if HasColumn(cols, incoming[0].columnName) then cols else cols + [incoming[0]], incoming[1..])
  }

  predicate DistinctNames(cols: seq<ColumnMeta>) {
    forall i, j :: 0 <= i < j < |cols| ==> cols[i].columnName != cols[j].columnName
  }

  /** One push of the merge: the array is kept as a prefix, names stay
      distinct, the new name is present and nothing foreign comes in. */
  lemma AppendOneSpec(cols: seq<ColumnMeta>, c: ColumnMeta)
    ensures var next := if HasColumn(cols, c.columnName) then cols else cols + [c];
            |cols| <= |next| && next[..|cols|] == cols &&
            (DistinctNames(cols) ==> DistinctNames(next)) &&
            HasColumn(next, c.columnName) &&
            forall x :: x in next ==> x in cols || x == c
  {
    if !HasColumn(cols, c.columnName) {
      var next := cols + [c];
      assert next[|cols|] == c;
      assert next[..|cols|] == cols;
    }
  }

  /** A name present in a prefix is present in the whole. */
  lemma HasColumnExtends(cols: seq<ColumnMeta>, out: seq<ColumnMeta>, name: string)
    requires |cols| <= |out| && out[..|cols|] == cols
    requires HasColumn(cols, name)
    ensures HasColumn(out, name)
  {
    var k :| 0 <= k < |cols| && cols[k].columnName == name;
    assert out[k] == cols[k];
  }

  /** The merge keeps the array it starts with as a prefix, keeps column
      names distinct when they were, and brings in only incoming columns. */
  lemma {:induction false} AppendNewColumnsKeeps(cols: seq<ColumnMeta>, incoming: seq<ColumnMeta>)
    ensures |cols| <= |AppendNewColumns(cols, incoming)| && AppendNewColumns(cols, incoming)[..|cols|] == cols
    ensures DistinctNames(cols) ==> DistinctNames(AppendNewColumns(cols, incoming))
    ensures forall c :: c in AppendNewColumns(cols, incoming) ==> c in cols || c in incoming
    decreases |incoming|
  {
    if |incoming| > 0 {
      var next := if HasColumn(cols, incoming[0].columnName) then cols else cols + [incoming[0]];
      AppendOneSpec(cols, incoming[0]);
      AppendNewColumnsKeeps(next, incoming[1..]);
      var out := AppendNewColumns(next, incoming[1..]);
      assert out[..|cols|] == out[..|next|][..|cols|];
      forall c | c in out
        ensures c in cols || c in incoming
      {
        if c in incoming[1..] {
          var k :| 0 <= k < |incoming[1..]| && incoming[1..][k] == c;
          assert incoming[k + 1] == c;
        }
      }
    }
  }

  /** After the merge every incoming name is present. */
  lemma {:induction false} AppendNewColumnsCovers(cols: seq<ColumnMeta>, incoming: seq<ColumnMeta>)
    ensures forall i :: 0 <= i < |incoming| ==> HasColumn(AppendNewColumns(cols, incoming), incoming[i].columnName)
    decreases |incoming|
  {
    if |incoming| > 0 {
      var next := if HasColumn(cols, incoming[0].columnName) then cols else cols + [incoming[0]];
      AppendOneSpec(cols, incoming[0]);
      AppendNewColumnsCovers(next, incoming[1..]);
      AppendNewColumnsKeeps(next, incoming[1..]);
      var out := AppendNewColumns(next, incoming[1..]);
      HasColumnExtends(next, out, incoming[0].columnName);
      forall i | 1 <= i < |incoming|
        ensures HasColumn(out, incoming[i].columnName)
      {
        assert incoming[1..][i - 1] == incoming[i];
      }
    }
  }

  /** The merge keeps the metadata it starts with, keeps column names
      distinct when they were, and leaves every new name present. */
  lemma {:induction false} AppendNewColumnsSpec(cols: seq<ColumnMeta>, incoming: seq<ColumnMeta>)
    ensures |cols| <= |AppendNewColumns(cols, incoming)| && AppendNewColumns(cols, incoming)[..|cols|] == cols
    ensures DistinctNames(cols) ==> DistinctNames(AppendNewColumns(cols, incoming))
    ensures forall i :: 0 <= i < |incoming| ==> HasColumn(AppendNewColumns(cols, incoming), incoming[i].columnName)
    ensures forall c :: c in AppendNewColumns(cols, incoming) ==> c in cols || c in incoming
  {
    AppendNewColumnsKeeps(cols, incoming);
    AppendNewColumnsCovers(cols, incoming);
  }

  /** `expandRow.ID === mainRow.ID` */
  function SameId(row: Row): Row -> bool {
    (e: Row) => StrictEquals(Get(e, "ID"), Get(row, "ID"))
  }

  /** The object-valued fields of a row (`typeof v === 'object' && v !== null`). */
  function ObjectFields(e: Row): (f: Row)
    ensures f.Keys <= e.Keys
    ensures forall k :: k in e ==> (k in f <==> IsObject(e[k]))
    ensures forall k :: k in f ==> f[k] == e[k]
  {
    map k | k in e && IsObject(e[k]) :: e[k]
  }

  /** One main row after `_mergeAndAddExpandData`: the object-valued fields
      of the expanded row with the same `ID` are copied over it. */
  function MergeExpandRow(row: Row, expanded: seq<Row>): (r: Row)
    ensures Find(expanded, SameId(row)).None? ==> r == row
    ensures Find(expanded, SameId(row)).Some? ==>
              var e := Find(expanded, SameId(row)).value;
              r.Keys == row.Keys + ObjectFields(e).Keys &&
              (forall k :: k in e && IsObject(e[k]) ==> r[k] == e[k]) &&
              (forall k :: k in row && !(k in e && IsObject(e[k])) ==> r[k] == row[k])
  {
    match Find(expanded, SameId(row))
    case Some(e) => row + ObjectFields(e)
    case None => row
  }

  /** `_mergeAndAddExpandData`: the metadata array gains the expanded set's
      columns whose names it lacks, and every main row is updated in place. */
  method MergeAndAddExpandData(main: RowArray, expanded: seq<Row>, metadata: ColumnList,
                               info: EntitySetInfo, setName: string, model: ODataModel)
    returns (data: seq<Row>, newMetadata: seq<ColumnMeta>)
    modifies main, metadata
    ensures metadata.columns == AppendNewColumns(old(metadata.columns), CreateColumnMetadata(info, setName, model))
    ensures |main.rows| == |old(main.rows)|
    ensures forall i :: 0 <= i < |main.rows| ==> main.rows[i] == MergeExpandRow(old(main.rows)[i], expanded)
    ensures data == main.rows && newMetadata == metadata.columns
  {
    var incoming := CreateColumnMetadata(info, setName, model);
    for i := 0 to |incoming|
      invariant AppendNewColumns(old(metadata.columns), incoming) == AppendNewColumns(metadata.columns, incoming[i..])
      invariant main.rows == old(main.rows)
    {
      if !HasColumn(metadata.columns, incoming[i].columnName) {
        metadata.columns := metadata.columns + [incoming[i]];
      }
      assert incoming[i..][1..] == incoming[i + 1..];
    }
    for i := 0 to |main.rows|
      invariant metadata.columns == AppendNewColumns(old(metadata.columns), incoming)
      invariant |main.rows| == |old(main.rows)|
      invariant forall j :: 0 <= j < i ==> main.rows[j] == MergeExpandRow(old(main.rows)[j], expanded)
      invariant forall j :: i <= j < |main.rows| ==> main.rows[j] == old(main.rows)[j]
    {
      var row := main.rows[i];
      var expandedRow := Find(expanded, SameId(row));
      if expandedRow.Some? {
        row := row + ObjectFields(expandedRow.value);
      }
      main.rows := main.rows[i := row];
    }
    return main.rows, metadata.columns;
  }
}
