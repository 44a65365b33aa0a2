/**
 * The list handling the three admin screens share: rows carrying an order
 * number (`EmployeeWithOrder`, `ClientWithOrder`), the numbering loop that
 * fills them, the filter-and-renumber loop behind `UpdateFilteredEmployees`
 * and `UpdateFilteredClients`, and the `OrderBy` the database query applies.
 */
module Listing {
  import opened Wrappers
  import Text

  /** A row of a grid: the record and the number shown in its first column. */
  datatype Numbered<T> = Numbered(item: T, orderNumber: int)

  function Items<T>(rows: seq<Numbered<T>>): (xs: seq<T>)
    ensures |xs| == |rows|
    ensures forall i :: 0 <= i < |rows| ==> xs[i] == rows[i].item
  {
    if rows == [] then [] else [rows[0].item] + Items(rows[1..])
  }

  /** `Where(accept)`: the accepted elements, in their original order. */
  function Select<T>(xs: seq<T>, accept: T -> bool): (r: seq<T>)
    ensures |r| <= |xs|
    ensures forall i :: 0 <= i < |r| ==> accept(r[i])
    ensures forall i :: 0 <= i < |r| ==> r[i] in xs
  {
    if xs == [] then []
    else (if accept(xs[0]) then [xs[0]] else []) + Select(xs[1..], accept)
  }

  /** Selection distributes over concatenation: it keeps the relative order. */
  lemma {:induction false} SelectAppend<T>(xs: seq<T>, ys: seq<T>, accept: T -> bool)
    ensures Select(xs + ys, accept) == Select(xs, accept) + Select(ys, accept)
  {
    if xs == [] {
      assert xs + ys == ys;
    } else {
      assert (xs + ys)[0] == xs[0];
      assert (xs + ys)[1..] == xs[1..] + ys;
      SelectAppend(xs[1..], ys, accept);
    }
  }

  /** No accepted element is dropped. */
  lemma {:induction false} SelectKeepsAccepted<T>(xs: seq<T>, accept: T -> bool, x: T)
    requires x in xs && accept(x)
    ensures x in Select(xs, accept)
  {
    if xs[0] != x {
      SelectKeepsAccepted(xs[1..], accept, x);
    }
  }

  /** A filter that accepts everything keeps the list as it is. */
  lemma {:induction false} SelectAll<T>(xs: seq<T>, accept: T -> bool)
    requires forall i :: 0 <= i < |xs| ==> accept(xs[i])
    ensures Select(xs, accept) == xs
  {
    if xs != [] {
      SelectAll(xs[1..], accept);
    }
  }

  /** The rows numbered consecutively from `first`. */
  function NumberFrom<T>(xs: seq<T>, first: int): (rows: seq<Numbered<T>>)
    ensures |rows| == |xs|
    ensures forall k :: 0 <= k < |xs| ==> rows[k].item == xs[k] && rows[k].orderNumber == first + k
  {
    if xs == [] then [] else [Numbered(xs[0], first)] + NumberFrom(xs[1..], first + 1)
  }

  /** Numbering forgets nothing: the items come back out in order. */
  lemma ItemsOfNumberFrom<T>(xs: seq<T>, first: int)
    ensures Items(NumberFrom(xs, first)) == xs
  {
  }

  /** The numbering loop of `ExecuteLoadEmployees` and `ExecuteLoadClients`. */
  method NumberRows<T>(xs: seq<T>) returns (rows: seq<Numbered<T>>)
    ensures rows == NumberFrom(xs, 1)
  {
    rows := [];
    var orderNumber := 1;
    var i := 0;
    while i < |xs|
      invariant 0 <= i <= |xs| && orderNumber == i + 1
      invariant rows == NumberFrom(xs[..i], 1)
    {
      rows := rows + [Numbered(xs[i], orderNumber)];
      orderNumber := orderNumber + 1;
      i := i + 1;
    }
    assert xs[..i] == xs;
  }

  /**
   * The row at position `i` after renumbering: an accepted row gets its rank
   * among the accepted rows, the others keep their number.
   */
  function Renumbered<T>(rows: seq<Numbered<T>>, accept: T -> bool, i: int): Numbered<T>
    requires 0 <= i < |rows|
  {
    if accept(rows[i].item) then Numbered(rows[i].item, |Select(Items(rows)[..i], accept)| + 1)
    else rows[i]
  }

  /** The whole list after renumbering. */
  function RenumberAll<T>(rows: seq<Numbered<T>>, accept: T -> bool): (r: seq<Numbered<T>>)
    ensures |r| == |rows|
  {
    seq(|rows|, i requires 0 <= i < |rows| => Renumbered(rows, accept, i))
  }

  /**
   * Renumbering keeps every row's item and every rejected row's number, and
   * gives an accepted row its rank among the accepted rows before it, plus one.
   */
  lemma RenumberKeepsItems<T>(rows: seq<Numbered<T>>, accept: T -> bool)
    ensures Items(RenumberAll(rows, accept)) == Items(rows)
    ensures forall i :: 0 <= i < |rows| && !accept(rows[i].item) ==> RenumberAll(rows, accept)[i] == rows[i]
    ensures forall i :: 0 <= i < |rows| && accept(rows[i].item) ==>
              RenumberAll(rows, accept)[i].orderNumber == |Select(Items(rows)[..i], accept)| + 1
  {
    var r := RenumberAll(rows, accept);
    forall i | 0 <= i < |rows|
      ensures r[i] == Renumbered(rows, accept, i)
    {
    }
  }

  /** The filtered list the loop has built after visiting the first `n` rows. */
  function FilteredPrefix<T>(rows: seq<Numbered<T>>, accept: T -> bool, n: int): seq<Numbered<T>>
    requires 0 <= n <= |rows|
  {
    if n == 0 then []
    else if accept(rows[n - 1].item) then
      FilteredPrefix(rows, accept, n - 1) + [Numbered(rows[n - 1].item, |FilteredPrefix(rows, accept, n - 1)| + 1)]
    else FilteredPrefix(rows, accept, n - 1)
  }

  /** The full list the loop has built after visiting the first `n` rows. */
  function RenumberPrefix<T>(rows: seq<Numbered<T>>, accept: T -> bool, n: int): seq<Numbered<T>>
    requires 0 <= n <= |rows|
  {
    if n == 0 then []
    else if accept(rows[n - 1].item) then
      RenumberPrefix(rows, accept, n - 1) + [Numbered(rows[n - 1].item, |FilteredPrefix(rows, accept, n - 1)| + 1)]
    else RenumberPrefix(rows, accept, n - 1) + [rows[n - 1]]
  }

  /** The filtered list built so far is the accepted items so far, numbered from 1. */
  lemma {:induction false} FilteredPrefixIsSelect<T>(rows: seq<Numbered<T>>, accept: T -> bool, n: int)
    requires 0 <= n <= |rows|
    ensures FilteredPrefix(rows, accept, n) == NumberFrom(Select(Items(rows)[..n], accept), 1)
  {
    if n == 0 {
      assert Items(rows)[..0] == [];
    } else {
      FilteredPrefixIsSelect(rows, accept, n - 1);
      FilteredStep(rows, accept, n - 1, FilteredPrefix(rows, accept, n - 1));
    }
  }

  /** The full list built so far is the renumbered list's prefix. */
  lemma {:induction false} RenumberPrefixIsAll<T>(rows: seq<Numbered<T>>, accept: T -> bool, n: int)
    requires 0 <= n <= |rows|
    ensures RenumberPrefix(rows, accept, n) == RenumberAll(rows, accept)[..n]
  {
    if n > 0 {
      RenumberPrefixIsAll(rows, accept, n - 1);
      RenumberPrefixStep(rows, accept, n);
      RenumberAllStep(rows, accept, n - 1);
    }
  }

  /** The loop's full list one row further on: the row as `Renumbered` gives it. */
  lemma RenumberPrefixStep<T>(rows: seq<Numbered<T>>, accept: T -> bool, n: int)
    requires 0 < n <= |rows|
    ensures RenumberPrefix(rows, accept, n) == RenumberPrefix(rows, accept, n - 1) + [Renumbered(rows, accept, n - 1)]
  {
    FilteredPrefixIsSelect(rows, accept, n - 1);
    assert |FilteredPrefix(rows, accept, n - 1)| == |Select(Items(rows)[..n - 1], accept)|;
  }

  /** The renumbered list one row further on. */
  lemma RenumberAllStep<T>(rows: seq<Numbered<T>>, accept: T -> bool, i: int)
    requires 0 <= i < |rows|
    ensures RenumberAll(rows, accept)[..i + 1] == RenumberAll(rows, accept)[..i] + [Renumbered(rows, accept, i)]
  {
    var r := RenumberAll(rows, accept);
    assert r[i] == Renumbered(rows, accept, i);
    assert r[..i + 1] == r[..i] + [r[i]];
  }

  /**
   * `UpdateFilteredEmployees` / `UpdateFilteredClients`: the accepted rows are
   * copied into the filtered list numbered 1..n, and because both lists hold
   * the same row objects, the accepted rows of the full list are renumbered too.
   */
  method FilterAndRenumber<T>(rows: seq<Numbered<T>>, accept: T -> bool)
    returns (updated: seq<Numbered<T>>, filtered: seq<Numbered<T>>)
    ensures filtered == NumberFrom(Select(Items(rows), accept), 1)
    ensures updated == RenumberAll(rows, accept)
  {
    updated := [];
    filtered := [];
    var orderNumber := 1;
    var i := 0;
    while i < |rows|
      invariant 0 <= i <= |rows|
      invariant filtered == FilteredPrefix(rows, accept, i)
      invariant orderNumber == |filtered| + 1
      invariant updated == RenumberPrefix(rows, accept, i)
    {
      var row := rows[i];
      if accept(rows[i].item) {
        row := Numbered(rows[i].item, orderNumber);
        filtered := filtered + [row];
        orderNumber := orderNumber + 1;
      }
      updated := updated + [row];
      i := i + 1;
    }
    FilteredPrefixFull(rows, accept);
    RenumberPrefixFull(rows, accept);
  }

  /**
   * The load commands' tail: the numbering loop over the ordered records,
   * then the filter-and-renumber loop.
   */
  method NumberAndFilter<T>(xs: seq<T>, accept: T -> bool)
    returns (updated: seq<Numbered<T>>, filtered: seq<Numbered<T>>)
    ensures updated == RenumberAll(NumberFrom(xs, 1), accept)
    ensures filtered == NumberFrom(Select(xs, accept), 1)
  {
    var rows := NumberRows(xs);
    ItemsOfNumberFrom(xs, 1);
    updated, filtered := FilterAndRenumber(rows, accept);
  }

  /** One step of the loop on the filtered list. */
  lemma FilteredStep<T>(rows: seq<Numbered<T>>, accept: T -> bool, i: int, filtered: seq<Numbered<T>>)
    requires 0 <= i < |rows|
    requires filtered == NumberFrom(Select(Items(rows)[..i], accept), 1)
    ensures accept(rows[i].item) ==>
      NumberFrom(Select(Items(rows)[..i + 1], accept), 1) == filtered + [Numbered(rows[i].item, |filtered| + 1)]
    ensures !accept(rows[i].item) ==>
      NumberFrom(Select(Items(rows)[..i + 1], accept), 1) == filtered
  {
    var items := Items(rows);
    SelectStep(items, accept, i);
    var before := Select(items[..i], accept);
    assert items[i] == rows[i].item;
    if accept(rows[i].item) {
      NumberFromAppend(before, rows[i].item, 1);
    } else {
      assert before + [] == before;
    }
  }

  /** Once every row is visited, the filtered list holds all accepted items. */
  lemma FilteredPrefixFull<T>(rows: seq<Numbered<T>>, accept: T -> bool)
    ensures FilteredPrefix(rows, accept, |rows|) == NumberFrom(Select(Items(rows), accept), 1)
  {
    FilteredPrefixIsSelect(rows, accept, |rows|);
    SelectWhole(Items(rows), accept);
  }

  /** Once every row is visited, the full list is the renumbered list. */
  lemma RenumberPrefixFull<T>(rows: seq<Numbered<T>>, accept: T -> bool)
    ensures RenumberPrefix(rows, accept, |rows|) == RenumberAll(rows, accept)
  {
    RenumberPrefixIsAll(rows, accept, |rows|);
    var r := RenumberAll(rows, accept);
    assert r[..|rows|] == r;
  }

  /** Selecting from the whole of a list as a prefix. */
  lemma SelectWhole<T>(xs: seq<T>, accept: T -> bool)
    ensures Select(xs[..|xs|], accept) == Select(xs, accept)
  {
    assert xs[..|xs|] == xs;
  }

  /** Selecting one more element of a prefix. */
  lemma SelectStep<T>(xs: seq<T>, accept: T -> bool, i: int)
    requires 0 <= i < |xs|
    ensures Select(xs[..i + 1], accept)
            == Select(xs[..i], accept) + (if accept(xs[i]) then [xs[i]] else [])
  {
    assert xs[..i + 1] == xs[..i] + [xs[i]];
    SelectAppend(xs[..i], [xs[i]], accept);
  }

  /** Numbering one more element. */
  lemma NumberFromAppend<T>(xs: seq<T>, x: T, first: int)
    ensures NumberFrom(xs + [x], first) == NumberFrom(xs, first) + [Numbered(x, first + |xs|)]
  {
    var l := NumberFrom(xs + [x], first);
    var r := NumberFrom(xs, first) + [Numbered(x, first + |xs|)];
    assert |l| == |r|;
    forall k | 0 <= k < |l|
      ensures l[k] == r[k]
    {
      if k < |xs| {
        assert (xs + [x])[k] == xs[k];
      }
    }
  }

  /** The filtered list is numbered 1, 2, … n and holds exactly the accepted items in order. */
  lemma FilteredNumbering<T>(rows: seq<Numbered<T>>, accept: T -> bool)
    ensures Items(NumberFrom(Select(Items(rows), accept), 1)) == Select(Items(rows), accept)
    ensures forall k :: 0 <= k < |Select(Items(rows), accept)| ==>
              NumberFrom(Select(Items(rows), accept), 1)[k].orderNumber == k + 1
  {
    ItemsOfNumberFrom(Select(Items(rows), accept), 1);
  }

  // ---------------------------------------------------------------------------
  // Lookup by key: `Find(id)`, `FirstOrDefault(e => e.Id == id)`, `Remove`
  // ---------------------------------------------------------------------------

  /** The position of the first element with the key, or the length when there is none. */
  function IndexOfKey<T>(xs: seq<T>, key: T -> int, id: int): (k: nat)
    ensures k <= |xs|
    ensures forall j :: 0 <= j < k ==> key(xs[j]) != id
    ensures k < |xs| ==> key(xs[k]) == id
  {
    if xs == [] then 0 else if key(xs[0]) == id then 0 else IndexOfKey(xs[1..], key, id) + 1
  }

  /** The first element with the key, if any. */
  function FindByKey<T>(xs: seq<T>, key: T -> int, id: int): (r: Option<T>)
    ensures r.Some? <==> exists k :: 0 <= k < |xs| && key(xs[k]) == id
    ensures r.Some? ==> r.value in xs && key(r.value) == id
  {
    var k := IndexOfKey(xs, key, id);
    if k < |xs| then Some(xs[k]) else None
  }

  /** The first element with the key removed; the list unchanged when there is none. */
  function RemoveByKey<T>(xs: seq<T>, key: T -> int, id: int): (r: seq<T>)
    ensures IndexOfKey(xs, key, id) < |xs| ==> |r| == |xs| - 1
    ensures IndexOfKey(xs, key, id) == |xs| ==> r == xs
  {
    var k := IndexOfKey(xs, key, id);
    if k < |xs| then xs[..k] + xs[k + 1..] else xs
  }

  /** Every element with the key replaced by `f` of itself, the others untouched. */
  function UpdateByKey<T>(xs: seq<T>, key: T -> int, id: int, f: T -> T): (r: seq<T>)
    ensures |r| == |xs|
    ensures forall k :: 0 <= k < |xs| ==> r[k] == if key(xs[k]) == id then f(xs[k]) else xs[k]
  {
    seq(|xs|, k requires 0 <= k < |xs| => if key(xs[k]) == id then f(xs[k]) else xs[k])
  }

  /**
   * An update that keeps the key and gives the same result when repeated:
   * updating by key again finds the element again and changes nothing.
   */
  lemma UpdateByKeyTwice<T>(xs: seq<T>, key: T -> int, id: int, f: T -> T)
    requires forall x :: key(f(x)) == key(x) && f(f(x)) == f(x)
    ensures FindByKey(UpdateByKey(xs, key, id, f), key, id).Some? <==> FindByKey(xs, key, id).Some?
    ensures UpdateByKey(UpdateByKey(xs, key, id, f), key, id, f) == UpdateByKey(xs, key, id, f)
  {
    var once := UpdateByKey(xs, key, id, f);
    forall k | 0 <= k < |xs|
      ensures key(once[k]) == key(xs[k])
    {
    }
    var twice := UpdateByKey(once, key, id, f);
    assert forall k :: 0 <= k < |xs| ==> twice[k] == once[k];
  }

  /** No two elements share a key. */
  predicate UniqueKeys<T>(xs: seq<T>, key: T -> int)
  {
    forall i, j :: 0 <= i < j < |xs| ==> key(xs[i]) != key(xs[j])
  }

  /** With unique keys, removing by key drops exactly the element with that key. */
  lemma RemoveByKeyExact<T>(xs: seq<T>, key: T -> int, id: int)
    requires UniqueKeys(xs, key)
    ensures forall x :: x in RemoveByKey(xs, key, id) <==> x in xs && key(x) != id
  {
    var k := IndexOfKey(xs, key, id);
    if k < |xs| {
      var r := RemoveByKey(xs, key, id);
      forall x | x in xs && key(x) != id
        ensures x in r
      {
        var j :| 0 <= j < |xs| && xs[j] == x;
        if j < k {
          assert r[j] == x;
        } else {
          assert r[j - 1] == x;
        }
      }
      forall x | x in r
        ensures x in xs && key(x) != id
      {
        var j :| 0 <= j < |r| && r[j] == x;
        if j < k {
          assert xs[j] == x;
        } else {
          assert xs[j + 1] == x;
        }
      }
    }
  }

  // ---------------------------------------------------------------------------
  // Ordering
  // ---------------------------------------------------------------------------

  /** Every pair of elements is comparable one way or the other. */
  ghost predicate Total<T(!new)>(le: (T, T) -> bool)
  {
    forall a, b :: le(a, b) || le(b, a)
  }

  /** Each element is `le` its successor. */
  predicate SortedBy<T>(xs: seq<T>, le: (T, T) -> bool)
  {
    forall i :: 0 < i < |xs| ==> le(xs[i - 1], xs[i])
  }

  /** Puts `x` before the first element it is `le`, so earlier elements stay ahead of equal later ones. */
  function Insert<T(!new)>(x: T, xs: seq<T>, le: (T, T) -> bool): (r: seq<T>)
    requires Total(le) && SortedBy(xs, le)
    ensures SortedBy(r, le)
    ensures multiset(r) == multiset(xs) + multiset{x}
    ensures |r| == |xs| + 1 && (r[0] == x || (xs != [] && r[0] == xs[0]))
  {
    if xs == [] then [x]
    else if le(x, xs[0]) then [x] + xs
    else
      assert xs == [xs[0]] + xs[1..];
      [xs[0]] + Insert(x, xs[1..], le)
  }

  /** `OrderBy`: a stable sort by `le`, yielding a sorted permutation. */
  function SortBy<T(!new)>(xs: seq<T>, le: (T, T) -> bool): (r: seq<T>)
    requires Total(le)
    ensures SortedBy(r, le)
    ensures multiset(r) == multiset(xs)
  {
    if xs == [] then []
    else
      assert xs == [xs[0]] + xs[1..];
      Insert(xs[0], SortBy(xs[1..], le), le)
  }

  /** An order that chains: `le(a, b)` and `le(b, c)` give `le(a, c)`. */
  ghost predicate Transitive<T(!new)>(le: (T, T) -> bool)
  {
    forall a, b, c :: le(a, b) && le(b, c) ==> le(a, c)
  }

  /** In a list sorted by a transitive order the head comes before every later element. */
  lemma {:induction false} SortedHeadFirst<T(!new)>(xs: seq<T>, le: (T, T) -> bool, j: int)
    requires SortedBy(xs, le) && Transitive(le)
    requires 0 < j < |xs|
    ensures le(xs[0], xs[j])
  {
    if j > 1 {
      SortedHeadFirst(xs, le, j - 1);
    }
  }

  /** `Where` after `OrderBy` keeps the order: a selection from a sorted list is sorted. */
  lemma {:induction false} SelectKeepsSorted<T(!new)>(xs: seq<T>, accept: T -> bool, le: (T, T) -> bool)
    requires SortedBy(xs, le) && Transitive(le)
    ensures SortedBy(Select(xs, accept), le)
  {
    if xs != [] {
      var tail := xs[1..];
      assert SortedBy(tail, le) by {
        forall i | 0 < i < |tail|
          ensures le(tail[i - 1], tail[i])
        {
          assert tail[i - 1] == xs[i] && tail[i] == xs[i + 1];
        }
      }
      SelectKeepsSorted(tail, accept, le);
      var rest := Select(tail, accept);
      if accept(xs[0]) && rest != [] {
        assert rest[0] in tail;
        var j :| 0 <= j < |tail| && tail[j] == rest[0];
        SortedHeadFirst(xs, le, j + 1);
      }
    }
  }

  /** Ordinal, lexicographic order on text. */
  predicate StringLe(a: string, b: string)
  {
    a == [] || (b != [] && (a[0] < b[0] || (a[0] == b[0] && StringLe(a[1..], b[1..]))))
  }

  /** Any two texts are comparable. */
  lemma {:induction false} StringLeTotal(a: string, b: string)
    ensures StringLe(a, b) || StringLe(b, a)
  {
    if a != [] && b != [] && a[0] == b[0] {
      StringLeTotal(a[1..], b[1..]);
    }
  }

  /**
   * The status line a load leaves: "Загружено", the row count as
   * `int.ToString()` writes it, and the screen's noun.
   */
  function LoadedMessage(count: nat, noun: string): string
  {
    "Загружено " + Text.Decimal(count) + " " + noun
  }
}
