/** First occurrences by key: what the program's "seen" maps keep of a list. */
module Dedup {

  /** Where the key first occurs; the length of the list when it does not. */
  function Position<T>(key: T -> string, xs: seq<T>, k: string): (i: nat)
    ensures i <= |xs|
    ensures i < |xs| ==> key(xs[i]) == k
    ensures forall j :: 0 <= j < i ==> key(xs[j]) != k
  {
    if xs == [] || key(xs[0]) == k then 0 else 1 + Position(key, xs[1..], k)
  }

  predicate Has<T>(key: T -> string, xs: seq<T>, k: string) {
    Position(key, xs, k) < |xs|
  }

  /** The elements that no earlier element shares its key with. */
  function Firsts<T>(key: T -> string, xs: seq<T>): seq<T> {
    if xs == [] then []
    else
      var (init, last) := (xs[..|xs| - 1], xs[|xs| - 1]);
      if Has(key, init, key(last)) then Firsts(key, init) else Firsts(key, init) + [last]
  }

  ghost predicate Distinct<T>(key: T -> string, xs: seq<T>) {
    forall i, j :: 0 <= i < j < |xs| ==> key(xs[i]) != key(xs[j])
  }

  lemma HasAppended<T>(key: T -> string, xs: seq<T>, ys: seq<T>, k: string)
    ensures Has(key, xs + ys, k) <==> Has(key, xs, k) || Has(key, ys, k)
  {
    var p := Position(key, xs + ys, k);
    if p < |xs| {
      assert key(xs[p]) == k;
    } else if p < |xs + ys| {
      assert key(ys[p - |xs|]) == k;
    }
    if Has(key, xs, k) {
      assert key((xs + ys)[Position(key, xs, k)]) == k;
    }
    if Has(key, ys, k) {
      assert key((xs + ys)[|xs| + Position(key, ys, k)]) == k;
    }
  }

  /** The first occurrences have the same keys, each once. */
  lemma {:induction false} FirstsKeepKeys<T>(key: T -> string, xs: seq<T>)
    ensures forall k :: Has(key, Firsts(key, xs), k) <==> Has(key, xs, k)
    ensures Distinct(key, Firsts(key, xs))
  {
    if xs != [] {
      var init, last := xs[..|xs| - 1], xs[|xs| - 1];
      FirstsKeepKeys(key, init);
      assert xs == init + [last];
      forall k
        ensures Has(key, Firsts(key, xs), k) <==> Has(key, xs, k)
      {
        HasAppended(key, init, [last], k);
        HasAppended(key, Firsts(key, init), [last], k);
        assert Has(key, Firsts(key, init), k) <==> Has(key, init, k);
      }
      var f := Firsts(key, init);
      if !Has(key, init, key(last)) {
        assert !Has(key, f, key(last));
      }
    }
  }

  /** What one more element adds, seen from the result alone. */
  lemma FirstsOfAppended<T>(key: T -> string, xs: seq<T>, y: T)
    ensures Firsts(key, xs + [y])
         == if Has(key, Firsts(key, xs), key(y)) then Firsts(key, xs) else Firsts(key, xs) + [y]
  {
    assert (xs + [y])[..|xs|] == xs;
    FirstsKeepKeys(key, xs);
  }

  /** Nothing is invented, and each kept element is the earliest with its key. */
  lemma {:induction false} FirstsAreEarliest<T>(key: T -> string, xs: seq<T>, x: T)
    ensures x in Firsts(key, xs) <==> Has(key, xs, key(x)) && xs[Position(key, xs, key(x))] == x
  {
    if xs != [] {
      var init, last := xs[..|xs| - 1], xs[|xs| - 1];
      FirstsAreEarliest(key, init, x);
      assert xs == init + [last];
      HasAppended(key, init, [last], key(x));
      if Has(key, init, key(x)) {
        assert Position(key, init, key(x)) == Position(key, xs, key(x)) by {
          assert xs[Position(key, init, key(x))] == init[Position(key, init, key(x))];
        }
      } else if Has(key, xs, key(x)) {
        assert Position(key, xs, key(x)) == |init| by {
          assert forall j :: 0 <= j < |init| ==> init[j] == xs[j];
        }
      }
    }
  }
}
