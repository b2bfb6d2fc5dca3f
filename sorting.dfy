/**
 * Sorting of folder-name lists. Kotlin's `sorted()` on strings uses
 * `String.compareTo` (character by character, a proper prefix first); the
 * panel's `sortedWith` comparator puts "values" before everything and falls
 * back to `compareTo`. Both are total orders on strings, so every correct
 * sort gives the same list; an insertion sort stands for the library's.
 */
module Sorting {

  /** `a.compareTo(b) <= 0` for Kotlin strings. */
  predicate LexLe(a: string, b: string)
    decreases |a|
  {
    |a| == 0 || (|b| > 0 && (a[0] < b[0] || (a[0] == b[0] && LexLe(a[1..], b[1..]))))
  }

  datatype Order =
    | Natural      // `sorted()`
    | ValuesFirst  // the comparator of the folder list in the tool window

  predicate Le(o: Order, a: string, b: string) {
    match o
    case Natural => LexLe(a, b)
    case ValuesFirst => a == "values" || (b != "values" && LexLe(a, b))
  }

  lemma {:induction false} LexLeTotal(a: string, b: string)
    ensures LexLe(a, b) || LexLe(b, a)
    decreases |a|
  {
    if |a| > 0 && |b| > 0 && a[0] == b[0] {
      LexLeTotal(a[1..], b[1..]);
    }
  }

  lemma {:induction false} LexLeTrans(a: string, b: string, c: string)
    requires LexLe(a, b) && LexLe(b, c)
    ensures LexLe(a, c)
    decreases |a|
  {
    if |a| > 0 && |b| > 0 && |c| > 0 && a[0] == b[0] && b[0] == c[0] {
      LexLeTrans(a[1..], b[1..], c[1..]);
    }
  }

  lemma LeTotal(o: Order, a: string, b: string)
    ensures Le(o, a, b) || Le(o, b, a)
  {
    LexLeTotal(a, b);
  }

  lemma LeTrans(o: Order, a: string, b: string, c: string)
    requires Le(o, a, b) && Le(o, b, c)
    ensures Le(o, a, c)
  {
    if o.Natural? || (a != "values" && b != "values") {
      LexLeTrans(a, b, c);
    }
  }

  predicate Sorted(o: Order, s: seq<string>) {
    forall i, j :: 0 <= i < j < |s| ==> Le(o, s[i], s[j])
  }

  /** Inserts `x` in front of the first element it must not follow. */
  function Insert(o: Order, x: string, s: seq<string>): (r: seq<string>)
    requires Sorted(o, s)
    ensures multiset(r) == multiset(s) + multiset{x}
    ensures Sorted(o, r)
    decreases |s|
  {
    if |s| == 0 then [x]
    else if Le(o, x, s[0]) then
      assert forall j :: 0 <= j < |s| ==> Le(o, x, s[j]) by {
        forall j | 0 <= j < |s| ensures Le(o, x, s[j]) {
          if j > 0 { LeTrans(o, x, s[0], s[j]); }
        }
      }
      [x] + s
    else
      var t := Insert(o, x, s[1..]);
      LeTotal(o, x, s[0]);
      assert multiset(t) == multiset(s[1..]) + multiset{x};
      assert s == [s[0]] + s[1..];
      assert forall k :: 0 <= k < |t| ==> Le(o, s[0], t[k]) by {
        forall k | 0 <= k < |t| ensures Le(o, s[0], t[k]) {
          assert t[k] in multiset(t);
          if t[k] != x {
            assert t[k] in multiset(s[1..]);
            var j :| 1 <= j < |s| && s[j] == t[k];
          }
        }
      }
      [s[0]] + t
  }

  /** The sorted permutation of `s`. */
  function Sort(o: Order, s: seq<string>): (r: seq<string>)
    ensures multiset(r) == multiset(s)
    ensures Sorted(o, r)
    decreases |s|
  {
    if |s| == 0 then []
    else
      assert s == [s[0]] + s[1..];
      Insert(o, s[0], Sort(o, s[1..]))
  }

  /** In a list sorted with the folder-list comparator, "values" comes first when present. */
  lemma ValuesComesFirst(r: seq<string>)
    requires Sorted(ValuesFirst, r) && "values" in r
    ensures r[0] == "values"
  {
    var k :| 0 <= k < |r| && r[k] == "values";
    if k > 0 {
      assert Le(ValuesFirst, r[0], r[k]);
    }
  }

  /** Apart from "values", that list is in `compareTo` order. */
  lemma OthersInNaturalOrder(r: seq<string>, i: nat, j: nat)
    requires Sorted(ValuesFirst, r) && i < j < |r|
    requires r[i] != "values" && r[j] != "values"
    ensures LexLe(r[i], r[j])
  {
  }
}
