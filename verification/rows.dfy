/**
  Removing rows from the task table.

  `remove_selected_task` sorts the selected row numbers in descending
  order and pops every one that is in range; `remove_task_by_index` pops
  one row if it is in range. The intended result of removing a selection
  is the table without the selected rows, which `Without` describes
  independently of any popping order.
 */
module Rows {
  /** The rows of `t` (numbered from `base`) whose number is not in `drop`. */
  function Without<T>(t: seq<T>, drop: set<int>, base: int): (r: seq<T>)
    ensures |r| <= |t|
    decreases |t|
  {
    if t == [] then []
    else (if base in drop then [] else [t[0]]) + Without(t[1..], drop, base + 1)
  }

  /** The row numbers in a selection. */
  function Elems(s: seq<int>): set<int> {
    set x | x in s
  }

  /** `list.pop(row)`, ignored when the row is out of range. */
  function Pop<T>(t: seq<T>, row: int): (r: seq<T>)
    ensures 0 <= row < |t| ==> |r| == |t| - 1 && r[..row] == t[..row] && r[row..] == t[row + 1..]
    ensures !(0 <= row < |t|) ==> r == t
  {
    if 0 <= row < |t| then t[..row] + t[row + 1..] else t
  }

  /** Popping the rows in the order given. */
  function PopAll<T>(t: seq<T>, rows: seq<int>): (r: seq<T>)
    ensures |r| <= |t|
    decreases |rows|
  {
    if rows == [] then t else PopAll(Pop(t, rows[0]), rows[1..])
  }

  predicate Descending(s: seq<int>) {
    forall i, j | 0 <= i < j < |s| :: s[i] >= s[j]
  }

  predicate StrictlyDescending(s: seq<int>) {
    forall i, j | 0 <= i < j < |s| :: s[i] > s[j]
  }

  /** Insertion into a descending sequence. */
  function Insert(x: int, s: seq<int>): (r: seq<int>)
    requires Descending(s)
    ensures Descending(r) && multiset(r) == multiset(s) + multiset{x}
    ensures r != [] && (r[0] == x || (s != [] && r[0] == s[0]))
  {
    if s == [] then [x]
    else if x >= s[0] then [x] + s
    else
      var rest := Insert(x, s[1..]);
      assert s == [s[0]] + s[1..];
      [s[0]] + rest
  }

  /** `sorted(rows, reverse=True)`. */
  function SortDesc(s: seq<int>): (r: seq<int>)
    ensures Descending(r) && multiset(r) == multiset(s)
  {
    if s == [] then []
    else
      assert s == [s[0]] + s[1..];
      Insert(s[0], SortDesc(s[1..]))
  }

  /** A descending sequence with repeated row numbers dropped. */
  function Dedup(s: seq<int>): (r: seq<int>)
    requires Descending(s)
    ensures StrictlyDescending(r)
    ensures forall x :: x in r <==> x in s
    ensures r != [] ==> |s| > 0 && r[0] == s[0]
    decreases |s|
  {
    if |s| <= 1 then s
    else if s[0] == s[1] then
      assert forall x :: x in s <==> x == s[0] || x in s[1..];
      Dedup(s[1..])
    else
      var rest := Dedup(s[1..]);
      assert forall x :: x in s <==> x == s[0] || x in s[1..];
      assert forall x | x in rest :: x <= s[1];
      [s[0]] + rest
  }

  /** `remove_selected_task` as the program has it: every selected row
      number, repeats included, is popped in descending order. */
  function RemoveSelectedAsWritten<T>(t: seq<T>, rows: seq<int>): seq<T> {
    PopAll(t, SortDesc(rows))
  }

  /** Removing a selection with each row popped once. */
  function RemoveSelected<T>(t: seq<T>, rows: seq<int>): (r: seq<T>)
    ensures r == Without(t, Elems(rows), 0)
  {
    var ds := Dedup(SortDesc(rows));
    assert Elems(ds) == Elems(rows) by {
      assert forall x :: x in SortDesc(rows) <==> x in multiset(rows);
    }
    PopAllWithout(t, ds);
    PopAll(t, ds)
  }

  /** `remove_task_by_index`: exactly the row named, when it exists. */
  function RemoveAt<T>(t: seq<T>, index: int): (r: seq<T>)
    ensures r == Without(t, {index}, 0)
  {
    if 0 <= index < |t| then
      PopWithout(t, index, {});
      WithoutNone(Pop(t, index), {}, 0);
      assert {} + {index} == {index};
      Pop(t, index)
    else
      WithoutNone(t, {index}, 0);
      t
  }

  // ---------------------------------------------------------------------
  // Facts about `Without`

  lemma {:induction false} WithoutAppend<T>(a: seq<T>, b: seq<T>, drop: set<int>, base: int)
    ensures Without(a + b, drop, base) == Without(a, drop, base) + Without(b, drop, base + |a|)
    decreases |a|
  {
    if a != [] {
      assert (a + b)[1..] == a[1..] + b;
      WithoutAppend(a[1..], b, drop, base + 1);
    } else {
      assert a + b == b;
    }
  }

  /** Only the row numbers within range matter. */
  lemma {:induction false} WithoutSame<T>(t: seq<T>, d1: set<int>, d2: set<int>, base: int)
    requires forall j | base <= j < base + |t| :: j in d1 <==> j in d2
    ensures Without(t, d1, base) == Without(t, d2, base)
    decreases |t|
  {
    if t != [] {
      WithoutSame(t[1..], d1, d2, base + 1);
    }
  }

  /** Nothing within range dropped, nothing removed. */
  lemma {:induction false} WithoutNone<T>(t: seq<T>, drop: set<int>, base: int)
    requires forall j | base <= j < base + |t| :: j !in drop
    ensures Without(t, drop, base) == t
    decreases |t|
  {
    if t != [] {
      WithoutNone(t[1..], drop, base + 1);
      assert t == [t[0]] + t[1..];
    }
  }

  /** Popping a row above every row still to be dropped is dropping it. */
  lemma PopWithout<T>(t: seq<T>, row: int, drop: set<int>)
    requires 0 <= row < |t|
    requires forall d | d in drop :: d < row
    ensures Without(Pop(t, row), drop, 0) == Without(t, drop + {row}, 0)
  {
    var a, b := t[..row], t[row + 1..];
    assert Pop(t, row) == a + b;
    assert t == a + ([t[row]] + b);
    PopSplit(a, t[row], b, drop);
  }

  /** `PopWithout` with the row and the rows around it named. */
  lemma PopSplit<T>(a: seq<T>, x: T, b: seq<T>, drop: set<int>)
    requires forall d | d in drop :: d < |a|
    ensures Without(a + b, drop, 0) == Without(a + ([x] + b), drop + {|a|}, 0)
  {
    KeptAfter(a, b, drop);
    DroppedAt(a, x, b, drop);
  }

  /** Rows after every dropped one are kept. */
  lemma KeptAfter<T>(a: seq<T>, b: seq<T>, drop: set<int>)
    requires forall d | d in drop :: d < |a|
    ensures Without(a + b, drop, 0) == Without(a, drop, 0) + b
  {
    WithoutNone(b, drop, |a|);
    WithoutAppend(a, b, drop, 0);
  }

  /** Dropping row `|a|` as well removes `x` and keeps what follows it. */
  lemma DroppedAt<T>(a: seq<T>, x: T, b: seq<T>, drop: set<int>)
    requires forall d | d in drop :: d < |a|
    ensures Without(a + ([x] + b), drop + {|a|}, 0) == Without(a, drop, 0) + b
  {
    WithoutAppend(a, [x] + b, drop + {|a|}, 0);
    WithoutSame(a, drop + {|a|}, drop, 0);
    DroppedHead(x, b, drop + {|a|}, |a|);
  }

  /** The first row gone, the rest above every dropped number kept. */
  lemma DroppedHead<T>(x: T, b: seq<T>, drop: set<int>, row: int)
    requires row in drop
    requires forall j | row < j <= row + |b| :: j !in drop
    ensures Without([x] + b, drop, row) == b
  {
    assert ([x] + b)[1..] == b;
    WithoutNone(b, drop, row + 1);
  }

  /** Popping strictly descending row numbers removes exactly those rows. */
  lemma {:induction false} PopAllWithout<T>(t: seq<T>, ds: seq<int>)
    requires StrictlyDescending(ds)
    ensures PopAll(t, ds) == Without(t, Elems(ds), 0)
    decreases |ds|
  {
    if ds == [] {
      assert Elems(ds) == {};
      WithoutNone(t, {}, 0);
    } else {
      var d, rest := ds[0], ds[1..];
      assert Elems(ds) == Elems(rest) + {d} by {
        assert forall x :: x in ds <==> x == d || x in rest;
      }
      PopAllWithout(Pop(t, d), rest);
      if 0 <= d < |t| {
        assert forall x | x in Elems(rest) :: x < d;
        PopWithout(t, d, Elems(rest));
      } else {
        WithoutSame(t, Elems(rest), Elems(ds), 0);
      }
    }
  }

  /** Selecting a row twice, as a selection of two cells of one row does,
      makes the program pop the row below it too: with four rows and row 1
      selected twice, rows 1 and 2 go, where only row 1 should. */
  lemma RepeatedRowRemovesTwo<T>(t: seq<T>)
    requires |t| == 4
    ensures RemoveSelectedAsWritten(t, [1, 1]) == [t[0], t[3]]
    ensures RemoveSelected(t, [1, 1]) == [t[0], t[2], t[3]]
  {
    assert SortDesc([1, 1]) == [1, 1] by {
      assert SortDesc([1]) == [1];
    }
    assert Pop(t, 1) == [t[0], t[2], t[3]];
    assert Pop([t[0], t[2], t[3]], 1) == [t[0], t[3]];
    assert Elems([1, 1]) == {1};
    PopWithout(t, 1, {});
    WithoutNone(Pop(t, 1), {}, 0);
  }

  predicate NoRepeats(s: seq<int>) {
    forall i, j | 0 <= i < j < |s| :: s[i] != s[j]
  }

  /** Without repeated row numbers, the program removes exactly the
      selected rows. */
  lemma AsWrittenAgreesWithoutRepeats<T>(t: seq<T>, rows: seq<int>)
    requires NoRepeats(rows)
    ensures RemoveSelectedAsWritten(t, rows) == RemoveSelected(t, rows)
  {
    var sorted := SortDesc(rows);
    forall i, j | 0 <= i < j < |sorted|
      ensures sorted[i] > sorted[j]
    {
      if sorted[i] == sorted[j] {
        RepeatCounted(sorted, i, j);
        AtMostOnce(rows, sorted[i]);
        assert false;
      }
    }
    assert Elems(sorted) == Elems(rows) by {
      assert forall x :: x in sorted <==> x in multiset(rows);
    }
    PopAllWithout(t, sorted);
  }

  lemma RepeatCounted(s: seq<int>, i: nat, j: nat)
    requires i < j < |s| && s[i] == s[j]
    ensures multiset(s)[s[i]] >= 2
  {
    assert s == s[..j] + s[j..];
    assert s[..j][i] == s[i];
    assert s[j..][0] == s[j];
  }

  lemma {:induction false} AtMostOnce(s: seq<int>, x: int)
    requires NoRepeats(s)
    ensures multiset(s)[x] <= 1
  {
    if s != [] {
      assert s == [s[0]] + s[1..];
      AtMostOnce(s[1..], x);
      if x == s[0] {
        assert x !in s[1..];
      }
    }
  }
}
