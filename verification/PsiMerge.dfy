/** Putting the rows of a data file into the order of a private-set-intersection result.

Rows arrive in file order. A row whose key is the head of the remaining intersection list is written
at once; any other row of the intersection waits in a buffer. After every row, heads that are waiting
in the buffer are written.
*/
module PsiMerge {
  import opened Wrappers

  /** A row; its key is absent when the row is empty or has no such column. */
  datatype Row = Row(key: Option<string>, text: string)

  datatype Merge = Merge(list: seq<string>, waiting: map<string, Row>, out: seq<Row>)

  function Drain(m: Merge): Merge
    decreases |m.list|
  {
    if m.list != [] && m.list[0] in m.waiting then
      Drain(Merge(m.list[1..], m.waiting, m.out + [m.waiting[m.list[0]]]))
    else m
  }

  /** A key of the intersection that comes after the list is exhausted is dropped: looking at the head
      of the empty list raises, and the row is skipped. */
  function Accept(m: Merge, keys: set<string>, row: Row): Merge {
    if row.key.None? || row.key.value !in keys || m.list == [] then m
    else if row.key.value != m.list[0] then
      Drain(m.(waiting := m.waiting[row.key.value := row]))
    else
      Drain(Merge(m.list[1..], m.waiting, m.out + [row]))
  }

  function AcceptAll(m: Merge, keys: set<string>, rows: seq<Row>): Merge {
    if rows == [] then m else Accept(AcceptAll(m, keys, rows[..|rows| - 1]), keys, rows[|rows| - 1])
  }

  function KeySet(list: seq<string>): set<string> {
    set k | k in list
  }

  /** The loop over the data file. */
  method MergeRows(list: seq<string>, rows: seq<Row>) returns (out: seq<Row>)
    ensures out == AcceptAll(Merge(list, map[], []), KeySet(list), rows).out
  {
    var keys := KeySet(list);
    var todo: seq<string>, waiting: map<string, Row> := list, map[];
    out := [];
    ghost var start := Merge(list, map[], []);
    for i := 0 to |rows|
      invariant Merge(todo, waiting, out) == AcceptAll(start, keys, rows[..i])
    {
      ghost var m := Merge(todo, waiting, out);
      var row := rows[i];
      assert rows[..i + 1][..i] == rows[..i];
      if row.key.Some? && row.key.value in keys && todo != [] {
        if row.key.value != todo[0] {
          waiting := waiting[row.key.value := row];
        } else {
          out := out + [row];
          todo := todo[1..];
        }
        ghost var goal := Drain(Merge(todo, waiting, out));
        while todo != [] && todo[0] in waiting
          invariant Drain(Merge(todo, waiting, out)) == goal
          decreases |todo|
        {
          out := out + [waiting[todo[0]]];
          todo := todo[1..];
        }
      }
    }
    assert rows[..|rows|] == rows;
  }

  // ----- what the merge writes

  predicate Distinct(s: seq<string>) {
    forall i, j | 0 <= i < j < |s| :: s[i] != s[j]
  }

  function Seen(rows: seq<Row>): set<string> {
    set i | 0 <= i < |rows| && rows[i].key.Some? :: rows[i].key.value
  }

  /** The length of the longest prefix of the list whose keys have all been seen. */
  function SeenPrefix(list: seq<string>, seen: set<string>): (n: nat)
    ensures n <= |list|
    ensures forall k | 0 <= k < n :: list[k] in seen
    ensures n < |list| ==> list[n] !in seen
  {
    if list == [] || list[0] !in seen then 0 else 1 + SeenPrefix(list[1..], seen)
  }

  lemma {:induction false} SeenPrefixUnique(list: seq<string>, seen: set<string>, n: nat)
    requires n <= |list| && (forall k | 0 <= k < n :: list[k] in seen) && (n < |list| ==> list[n] !in seen)
    ensures SeenPrefix(list, seen) == n
  {
    if n > 0 { SeenPrefixUnique(list[1..], seen, n - 1); }
  }

  /** The state of the merge between rows: what is written is a prefix of the list, in list order, and
      the buffer holds, of the keys still to come, exactly those that have been seen. */
  ghost predicate InOrder(list: seq<string>, m: Merge, seen: set<string>, rows: seq<Row>) {
    && |m.out| <= |list| && m.list == list[|m.out|..]
    && (forall k | 0 <= k < |m.out| :: m.out[k].key == Some(list[k]) && m.out[k] in rows && list[k] in seen)
    && (forall k | k in m.waiting :: m.waiting[k].key == Some(k) && m.waiting[k] in rows && k in seen)
  }

  ghost predicate Buffered(list: seq<string>, m: Merge, seen: set<string>)
    requires |m.out| <= |list|
  {
    forall k | |m.out| <= k < |list| && list[k] in seen :: list[k] in m.waiting
  }

  lemma {:induction false} DrainKeeps(list: seq<string>, m: Merge, seen: set<string>, rows: seq<Row>)
    requires InOrder(list, m, seen, rows) && Buffered(list, m, seen)
    ensures InOrder(list, Drain(m), seen, rows) && Buffered(list, Drain(m), seen)
    ensures |Drain(m).out| < |list| ==> list[|Drain(m).out|] !in seen
    decreases |m.list|
  {
    if m.list != [] && m.list[0] in m.waiting {
      var w := |m.out|;
      var m' := Merge(m.list[1..], m.waiting, m.out + [m.waiting[m.list[0]]]);
      assert m.list[0] == list[w] && m'.list == list[w + 1..];
      DrainKeeps(list, m', seen, rows);
    } else if m.list != [] {
      assert m.list[0] == list[|m.out|];
    }
  }

  lemma SeenSnoc(rows: seq<Row>, row: Row)
    ensures Seen(rows + [row]) == Seen(rows) + if row.key.Some? then {row.key.value} else {}
  {
    var all := rows + [row];
    assert all[|rows|] == row && forall i | 0 <= i < |rows| :: all[i] == rows[i];
    forall k ensures k in Seen(all) <==> k in Seen(rows) + if row.key.Some? then {row.key.value} else {} {
      if k in Seen(rows) {
        var i :| 0 <= i < |rows| && rows[i].key.Some? && rows[i].key.value == k;
        assert all[i].key.value == k;
      }
    }
  }

  /** A row of the intersection that is not the next one waits. */
  lemma WaitKeeps(list: seq<string>, m: Merge, seen: set<string>, rows: seq<Row>, row: Row)
    requires InOrder(list, m, seen, rows) && Buffered(list, m, seen) && row.key.Some?
    ensures var m' := m.(waiting := m.waiting[row.key.value := row]);
            var seen' := seen + {row.key.value};
            InOrder(list, m', seen', rows + [row]) && Buffered(list, m', seen')
  {
  }

  /** The next row is written; its key does not come again. */
  lemma WriteKeeps(list: seq<string>, m: Merge, seen: set<string>, rows: seq<Row>, row: Row)
    requires Distinct(list) && InOrder(list, m, seen, rows) && Buffered(list, m, seen)
    requires m.list != [] && row.key == Some(m.list[0])
    ensures var m' := Merge(m.list[1..], m.waiting, m.out + [row]);
            var seen' := seen + {row.key.value};
            InOrder(list, m', seen', rows + [row]) && Buffered(list, m', seen')
  {
    assert m.list[0] == list[|m.out|] && m.list[1..] == list[|m.out| + 1..];
  }

  lemma AcceptKeeps(list: seq<string>, m: Merge, rows: seq<Row>, row: Row)
    requires Distinct(list) && InOrder(list, m, Seen(rows), rows) && Buffered(list, m, Seen(rows))
    requires |m.out| < |list| ==> list[|m.out|] !in Seen(rows)
    ensures var m' := Accept(m, KeySet(list), row);
            var seen := Seen(rows + [row]);
            && InOrder(list, m', seen, rows + [row]) && Buffered(list, m', seen)
            && (|m'.out| < |list| ==> list[|m'.out|] !in seen)
  {
    SeenSnoc(rows, row);
    var seen := Seen(rows + [row]);
    hide Seen;
    hide Drain;
    if row.key.Some? && row.key.value in KeySet(list) && m.list != [] {
      hide InOrder;
      hide Buffered;
      var key := row.key.value;
      if key != m.list[0] {
        WaitKeeps(list, m, Seen(rows), rows, row);
        DrainKeeps(list, m.(waiting := m.waiting[key := row]), seen, rows + [row]);
      } else {
        WriteKeeps(list, m, Seen(rows), rows, row);
        DrainKeeps(list, Merge(m.list[1..], m.waiting, m.out + [row]), seen, rows + [row]);
      }
    } else {
      assert InOrder(list, m, seen, rows + [row]);
    }
  }

  /** After any number of rows the merge has written exactly the longest prefix of the intersection
      list whose keys have all been seen, in list order, each with a row of the data. */
  lemma {:induction false} WritesSeenPrefix(list: seq<string>, rows: seq<Row>)
    requires Distinct(list)
    ensures var m := AcceptAll(Merge(list, map[], []), KeySet(list), rows);
            && InOrder(list, m, Seen(rows), rows) && Buffered(list, m, Seen(rows))
            && |m.out| == SeenPrefix(list, Seen(rows))
  {
    var m := AcceptAll(Merge(list, map[], []), KeySet(list), rows);
    if rows == [] {
      assert list[0..] == list && Seen(rows) == {};
    } else {
      var init, last := rows[..|rows| - 1], rows[|rows| - 1];
      assert rows == init + [last];
      WritesSeenPrefix(list, init);
      AcceptKeeps(list, AcceptAll(Merge(list, map[], []), KeySet(list), init), init, last);
    }
    SeenPrefixUnique(list, Seen(rows), |m.out|);
  }

  /** The whole list is written exactly when every key occurs in the data, whatever the row order. */
  lemma CompleteIffAllSeen(list: seq<string>, rows: seq<Row>)
    requires Distinct(list)
    ensures |AcceptAll(Merge(list, map[], []), KeySet(list), rows).out| == |list|
       <==> forall k | 0 <= k < |list| :: list[k] in Seen(rows)
  {
    WritesSeenPrefix(list, rows);
    if forall k | 0 <= k < |list| :: list[k] in Seen(rows) {
      SeenPrefixUnique(list, Seen(rows), |list|);
    }
  }

  // ----- which rows are written

  /** The last of the rows with a key. */
  function LastWith(key: string, rows: seq<Row>): Row
    requires key in Seen(rows)
  {
    var n := |rows| - 1;
    SeenLast(rows);
    if rows[n].key == Some(key) then rows[n] else LastWith(key, rows[..n])
  }

  lemma SeenLast(rows: seq<Row>)
    ensures rows == [] ==> Seen(rows) == {}
    ensures rows != [] ==>
              var n := |rows| - 1;
              Seen(rows) == Seen(rows[..n]) + if rows[n].key.Some? then {rows[n].key.value} else {}
  {
    if rows != [] {
      var n := |rows| - 1;
      assert rows == rows[..n] + [rows[n]];
      SeenSnoc(rows[..n], rows[n]);
    }
  }

  /** The rows for the keys of a list that have all been seen. */
  function LastRows(keys: seq<string>, rows: seq<Row>): (r: seq<Row>)
    requires forall k | 0 <= k < |keys| :: keys[k] in Seen(rows)
    ensures |r| == |keys| && forall k | 0 <= k < |keys| :: r[k] == LastWith(keys[k], rows)
  {
    seq(|keys|, k requires 0 <= k < |keys| => LastWith(keys[k], rows))
  }

  /** What is written while the rows are read: after each row, for every key that completes the seen
      prefix of the list, the latest row with that key. */
  function Written(list: seq<string>, rows: seq<Row>): (r: seq<Row>)
    ensures |r| == SeenPrefix(list, Seen(rows))
  {
    if rows == [] then
      NothingSeen(list);
      []
    else
      var init := rows[..|rows| - 1];
      var a, b := SeenPrefix(list, Seen(init)), SeenPrefix(list, Seen(rows));
      SeenLast(rows);
      PrefixGrows(list, Seen(init), Seen(rows));
      Written(list, init) + LastRows(list[a..b], rows)
  }

  lemma NothingSeen(list: seq<string>)
    ensures SeenPrefix(list, Seen([])) == 0
  {
  }

  lemma PrefixGrows(list: seq<string>, seen: set<string>, seen': set<string>)
    requires seen <= seen'
    ensures SeenPrefix(list, seen) <= SeenPrefix(list, seen')
  {
    var n := SeenPrefix(list, seen');
    assert n < |list| ==> list[n] !in seen;
  }

  /** Every key still to come that waits, waits with its latest row. */
  ghost predicate Latest(list: seq<string>, m: Merge, rows: seq<Row>)
    requires |m.out| <= |list|
  {
    forall k | |m.out| <= k < |list| && list[k] in m.waiting ::
      list[k] in Seen(rows) && m.waiting[list[k]] == LastWith(list[k], rows)
  }

  lemma LastRowsCons(list: seq<string>, w: nat, n: nat, rows: seq<Row>)
    requires w < n <= |list| && forall k | w <= k < n :: list[k] in Seen(rows)
    ensures LastRows(list[w..n], rows) == [LastWith(list[w], rows)] + LastRows(list[w + 1..n], rows)
  {
    hide LastWith;
    hide Seen;
    assert list[w..n] == [list[w]] + list[w + 1..n];
  }

  /** m' has gone on from m through places of the list, with the latest rows of their keys. */
  ghost predicate WroteOn(list: seq<string>, m: Merge, m': Merge, rows: seq<Row>) {
    && |m.out| <= |m'.out| <= |list| && m'.waiting == m.waiting
    && (forall k | |m.out| <= k < |m'.out| :: list[k] in Seen(rows))
    && m'.out == m.out + LastRows(list[|m.out|..|m'.out|], rows)
  }

  lemma WroteOneMore(list: seq<string>, m: Merge, m1: Merge, m2: Merge, rows: seq<Row>)
    requires |m.out| < |list| && list[|m.out|] in Seen(rows)
    requires m1.out == m.out + [LastWith(list[|m.out|], rows)] && m1.waiting == m.waiting
    requires WroteOn(list, m1, m2, rows)
    ensures WroteOn(list, m, m2, rows)
  {
    hide LastWith;
    hide Seen;
    var w, n := |m.out|, |m2.out|;
    assert |m1.out| == w + 1;
    assert forall k | w <= k < n :: list[k] in Seen(rows);
    LastRowsCons(list, w, n, rows);
    var first, rest := LastWith(list[w], rows), LastRows(list[w + 1..n], rows);
    assert m2.out == m1.out + rest;
    hide LastRows;
    Regroup(m.out, first, rest);
  }

  lemma Regroup<T>(a: seq<T>, x: T, b: seq<T>)
    ensures a + [x] + b == a + ([x] + b)
  {
  }

  /** Draining writes the latest rows of the keys it passes. */
  lemma {:induction false} DrainWrites(list: seq<string>, m: Merge, rows: seq<Row>)
    requires |m.out| <= |list| && m.list == list[|m.out|..] && Latest(list, m, rows)
    ensures WroteOn(list, m, Drain(m), rows)
    decreases |m.list|
  {
    hide LastWith;
    hide Seen;
    var w := |m.out|;
    if m.list != [] && m.list[0] in m.waiting {
      hide WroteOn;
      var m1 := Merge(m.list[1..], m.waiting, m.out + [m.waiting[m.list[0]]]);
      assert m.list[0] == list[w] && m1.list == list[w + 1..];
      DrainWrites(list, m1, rows);
      WroteOneMore(list, m, m1, Drain(m1), rows);
    } else {
      assert LastRows(list[w..w], rows) == [];
    }
  }

  /** One more row: what was the latest row of another key still is. */
  lemma LatestKept(list: seq<string>, m: Merge, rows: seq<Row>, row: Row)
    requires |m.out| <= |list| && Latest(list, m, rows)
    requires row.key.Some? ==> forall k | |m.out| <= k < |list| && list[k] in m.waiting :: list[k] != row.key.value
    ensures Latest(list, m, rows + [row])
  {
    SeenSnoc(rows, row);
    assert (rows + [row])[..|rows|] == rows;
  }

  /** The rows that are written, all of them, and which: a key that comes again while it waits is
      written with its latest row, one that comes again after it was written is not written again. */
  lemma {:induction false} WritesLatest(list: seq<string>, rows: seq<Row>)
    requires Distinct(list)
    ensures var m := AcceptAll(Merge(list, map[], []), KeySet(list), rows);
            |m.out| <= |list| && m.list == list[|m.out|..] && m.out == Written(list, rows) && Latest(list, m, rows)
  {
    var start := Merge(list, map[], []);
    if rows == [] {
      assert list[0..] == list;
      NothingSeen(list);
    } else {
      var init, row := rows[..|rows| - 1], rows[|rows| - 1];
      var m := AcceptAll(start, KeySet(list), init);
      assert rows == init + [row];
      WritesLatest(list, init);
      WritesSeenPrefix(list, init);
      WritesSeenPrefix(list, rows);
      hide AcceptAll;
      AcceptWrites(list, m, init, row);
    }
  }

  /** Whichever way a row goes, what is written on its arrival are the latest rows, its own included. */
  lemma AcceptWrites(list: seq<string>, m: Merge, rows: seq<Row>, row: Row)
    requires Distinct(list) && |m.out| <= |list| && m.list == list[|m.out|..] && Latest(list, m, rows)
    ensures var m' := Accept(m, KeySet(list), row);
            && |m.out| <= |m'.out| <= |list| && Latest(list, m', rows + [row])
            && (forall k | |m.out| <= k < |m'.out| :: list[k] in Seen(rows + [row]))
            && m'.out == m.out + LastRows(list[|m.out|..|m'.out|], rows + [row])
  {
    var all := rows + [row];
    var w := |m.out|;
    var m' := Accept(m, KeySet(list), row);
    if row.key.None? || row.key.value !in KeySet(list) || m.list == [] {
      LatestKept(list, m, rows, row);
      assert LastRows(list[w..w], all) == [];
    } else if row.key.value != m.list[0] {
      var m1 := m.(waiting := m.waiting[row.key.value := row]);
      LatestWaits(list, m, rows, row);
      hide Seen;
      hide LastWith;
      hide Drain;
      DrainWrites(list, m1, all);
    } else {
      var m1 := Merge(m.list[1..], m.waiting, m.out + [row]);
      assert m.list[0] == list[w] && m1.list == list[w + 1..];
      LatestAfterWrite(list, m, rows, row);
      hide Seen;
      hide LastWith;
      hide Drain;
      DrainWrites(list, m1, all);
      WroteOneMore(list, m, m1, m', all);
    }
  }

  lemma LatestWaits(list: seq<string>, m: Merge, rows: seq<Row>, row: Row)
    requires |m.out| <= |list| && Latest(list, m, rows) && row.key.Some?
    ensures Latest(list, m.(waiting := m.waiting[row.key.value := row]), rows + [row])
  {
    SeenSnoc(rows, row);
    assert (rows + [row])[..|rows|] == rows;
  }

  lemma LatestAfterWrite(list: seq<string>, m: Merge, rows: seq<Row>, row: Row)
    requires Distinct(list) && |m.out| < |list| && m.list != [] && Latest(list, m, rows)
    requires row.key == Some(list[|m.out|])
    ensures Latest(list, Merge(m.list[1..], m.waiting, m.out + [row]), rows + [row])
    ensures row.key.value in Seen(rows + [row]) && LastWith(row.key.value, rows + [row]) == row
  {
    SeenSnoc(rows, row);
    assert (rows + [row])[..|rows|] == rows;
  }

  // ----- lists with a repeated key

  ghost predicate WritesAllSeen(list: seq<string>) {
    forall rows: seq<Row> :: |AcceptAll(Merge(list, map[], []), KeySet(list), rows).out| == SeenPrefix(list, Seen(rows))
  }

  /** One row for each of the keys, in order. */
  function RowsOf(keys: seq<string>): (rows: seq<Row>)
    ensures |rows| == |keys| && forall k | 0 <= k < |keys| :: rows[k] == Row(Some(keys[k]), "")
  {
    seq(|keys|, k requires 0 <= k < |keys| => Row(Some(keys[k]), ""))
  }

  /** Data in list order is written at once: the buffer stays empty. */
  lemma {:induction false} InListOrder(list: seq<string>, j: nat)
    requires j <= |list|
    ensures AcceptAll(Merge(list, map[], []), KeySet(list), RowsOf(list[..j]))
         == Merge(list[j..], map[], RowsOf(list[..j]))
  {
    var rows := RowsOf(list[..j]);
    if j == 0 {
      assert list[0..] == list && rows == [];
    } else {
      InListOrder(list, j - 1);
      assert rows[..j - 1] == RowsOf(list[..j - 1]);
      assert list[j - 1] in list && list[j - 1..][1..] == list[j..];
      assert rows == RowsOf(list[..j - 1]) + [rows[j - 1]];
    }
  }

  /** Every list in which the key at j has come before has data on which the merge stalls: the rows of
      the first j keys in order fill the first j places, the key at j has been seen, and its place stays
      empty because its row never reached the buffer. */
  lemma RepeatedKeyStalls(list: seq<string>, j: nat)
    requires j < |list| && list[j] in list[..j]
    ensures var rows := RowsOf(list[..j]);
            && |AcceptAll(Merge(list, map[], []), KeySet(list), rows).out| == j
            && j < SeenPrefix(list, Seen(rows))
  {
    var rows := RowsOf(list[..j]);
    InListOrder(list, j);
    forall k | 0 <= k <= j ensures list[k] in Seen(rows) {
      var i :| 0 <= i < j && list[i] == list[k];
      assert rows[i].key == Some(list[i]);
    }
  }

  /** The merge writes what it has seen, on all data, exactly when no key of the list is repeated. */
  lemma WritesAllSeenIff(list: seq<string>)
    ensures WritesAllSeen(list) <==> Distinct(list)
  {
    if Distinct(list) {
      forall rows: seq<Row>
        ensures |AcceptAll(Merge(list, map[], []), KeySet(list), rows).out| == SeenPrefix(list, Seen(rows))
      {
        WritesSeenPrefix(list, rows);
      }
    } else {
      var i, j :| 0 <= i < j < |list| && list[i] == list[j];
      assert list[..j][i] == list[j];
      RepeatedKeyStalls(list, j);
    }
  }
}
