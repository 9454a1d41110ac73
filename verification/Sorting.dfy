/** The stable sort that the placeholders are put in text order with. */
module Sorting {
  import opened Results

  function Front<T>(xs: seq<T>): seq<T>
    requires xs != []
  {
    xs[..|xs| - 1]
  }

  function Last<T>(xs: seq<T>): T
    requires xs != []
  {
    xs[|xs| - 1]
  }

  function Inserted<T>(xs: seq<T>, x: T, key: T -> nat): seq<T> {
    if xs == [] || key(Last(xs)) <= key(x) then xs + [x]
    else Inserted(Front(xs), x, key) + [Last(xs)]
  }

  /** The stable `sort_by_key`. */
  function SortBy<T>(xs: seq<T>, key: T -> nat): seq<T> {
    if xs == [] then [] else Inserted(SortBy(Front(xs), key), Last(xs), key)
  }

  predicate UpTo<T>(xs: seq<T>, key: T -> nat, n: nat) {
    forall i :: 0 <= i < |xs| ==> key(xs[i]) <= n
  }

  predicate Sorted<T>(xs: seq<T>, key: T -> nat) {
    xs == [] || (Sorted(Front(xs), key) && UpTo(xs, key, key(Last(xs))))
  }

  lemma {:induction false} InsertedHas<T>(xs: seq<T>, x: T, key: T -> nat, i: nat)
    requires i < |Inserted(xs, x, key)|
    ensures Inserted(xs, x, key)[i] == x || Inserted(xs, x, key)[i] in xs
  {
    if xs != [] && key(Last(xs)) > key(x) && i < |Inserted(xs, x, key)| - 1 {
      InsertedHas(Front(xs), x, key, i);
    }
  }

  lemma {:induction false} InsertedSorted<T>(xs: seq<T>, x: T, key: T -> nat)
    requires Sorted(xs, key)
    ensures Sorted(Inserted(xs, x, key), key)
  {
    var r := Inserted(xs, x, key);
    if xs == [] || key(Last(xs)) <= key(x) {
      assert Front(r) == xs && Last(r) == x;
    } else {
      InsertedSorted(Front(xs), x, key);
      assert Front(r) == Inserted(Front(xs), x, key);
      forall i | 0 <= i < |r| ensures key(r[i]) <= key(Last(r)) {
        if i < |r| - 1 {
          InsertedHas(Front(xs), x, key, i);
        }
      }
    }
  }

  lemma {:induction false} SortBySorted<T>(xs: seq<T>, key: T -> nat)
    ensures Sorted(SortBy(xs, key), key)
  {
    if xs != [] {
      SortBySorted(Front(xs), key);
      InsertedSorted(SortBy(Front(xs), key), Last(xs), key);
    }
  }

  lemma {:induction false} SortedStays<T>(xs: seq<T>, key: T -> nat)
    requires Sorted(xs, key)
    ensures SortBy(xs, key) == xs
  {
    if xs != [] {
      hide Sorted;
      SortedFront(xs, key);
      SortedStays(Front(xs), key);
      assert Front(xs) + [Last(xs)] == xs;
    }
  }

  lemma {:induction false} SortedFront<T>(xs: seq<T>, key: T -> nat)
    requires Sorted(xs, key) && xs != []
    ensures Sorted(Front(xs), key)
    ensures |xs| > 1 ==> key(Last(Front(xs))) <= key(Last(xs))
  {
    if |xs| > 1 {
      assert Last(Front(xs)) == xs[|xs| - 2];
    }
  }

  function Chosen<A, B>(xs: seq<A>, f: A -> Option<B>): seq<B> {
    if xs == [] then [] else Chosen(Front(xs), f) + if f(Last(xs)).Some? then [f(Last(xs)).value] else []
  }

  ghost predicate KeepsKey<A(!new), B>(f: A -> Option<B>, from: A -> nat, to: B -> nat) {
    forall x :: f(x).Some? ==> to(f(x).value) == from(x)
  }

  lemma {:induction false} ChosenSorted<A(!new), B>(xs: seq<A>, f: A -> Option<B>, from: A -> nat, to: B -> nat)
    requires Sorted(xs, from) && KeepsKey(f, from, to)
    ensures Sorted(Chosen(xs, f), to)
    ensures if xs == [] then Chosen(xs, f) == [] else UpTo(Chosen(xs, f), to, from(Last(xs)))
  {
    if xs != [] {
      hide UpTo;
      SortedFront(xs, from);
      var front := Chosen(Front(xs), f);
      ChosenSorted(Front(xs), f, from, to);
      UpToMore(front, to, if |xs| > 1 then from(Last(Front(xs))) else 0, from(Last(xs)), f(Last(xs)));
      if f(Last(xs)).Some? {
        assert Front(Chosen(xs, f)) == front;
      } else {
        assert Chosen(xs, f) == front;
      }
    }
  }

  lemma {:induction false} UpToMore<B>(ys: seq<B>, key: B -> nat, n: nat, m: nat, y: Option<B>)
    requires (ys == [] || UpTo(ys, key, n)) && (ys == [] || n <= m) && (y.Some? ==> key(y.value) == m)
    ensures UpTo(ys + if y.Some? then [y.value] else [], key, m)
  {
  }

  lemma {:induction false} ChosenInserted<A(!new), B>(xs: seq<A>, x: A, f: A -> Option<B>, from: A -> nat, to: B -> nat)
    requires Sorted(xs, from) && KeepsKey(f, from, to)
    ensures Chosen(Inserted(xs, x, from), f)
            == if f(x).Some? then Inserted(Chosen(xs, f), f(x).value, to) else Chosen(xs, f)
  {
    ChosenSorted(xs, f, from, to);
    if xs == [] || from(Last(xs)) <= from(x) {
      assert Front(xs + [x]) == xs;
    } else {
      ChosenInserted(Front(xs), x, f, from, to);
      assert Front(Inserted(xs, x, from)) == Inserted(Front(xs), x, from);
      if f(Last(xs)).Some? {
        assert Front(Chosen(xs, f)) == Chosen(Front(xs), f) && Last(Chosen(xs, f)) == f(Last(xs)).value;
      } else {
        assert Chosen(xs, f) == Chosen(Front(xs), f);
      }
    }
  }

  /** Choosing and sorting commute. */
  lemma {:induction false} SortChosen<A(!new), B>(xs: seq<A>, f: A -> Option<B>, from: A -> nat, to: B -> nat)
    requires KeepsKey(f, from, to)
    ensures SortBy(Chosen(xs, f), to) == Chosen(SortBy(xs, from), f)
  {
    if xs != [] {
      SortChosen(Front(xs), f, from, to);
      SortBySorted(Front(xs), from);
      ChosenInserted(SortBy(Front(xs), from), Last(xs), f, from, to);
      if f(Last(xs)).Some? {
        assert Front(Chosen(xs, f)) == Chosen(Front(xs), f);
      } else {
        assert Chosen(xs, f) == Chosen(Front(xs), f);
      }
    }
  }
}
