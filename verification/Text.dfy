/** Decimal rendering, trimming, byte order and stable sorting, as the standard library of the
    program provides them (strconv.Itoa, strings.TrimSpace, string comparison, slices.Sort and
    sort.SliceStable). */
module Text {

  // ---- Decimal numbers ------------------------------------------------------------------

  const DIGITS: string := "0123456789"

  predicate IsDigit(c: char) { '0' <= c <= '9' }

  function Decimal(n: nat): string {
    if n < 10 then [DIGITS[n]] else Decimal(n / 10) + [DIGITS[n % 10]]
  }

  lemma {:induction false} DecimalIsDigits(n: nat)
    ensures Decimal(n) != [] && forall c :: c in Decimal(n) ==> IsDigit(c)
  {
    if n >= 10 {
      DecimalIsDigits(n / 10);
    }
  }

  /** The number a text of digits stands for. */
  function ValueOf(s: string): int {
    if s == "" then 0 else 10 * ValueOf(s[..|s| - 1]) + (s[|s| - 1] as int - '0' as int)
  }

  /** The rendering is that of the number, with no leading zero. */
  lemma {:induction false} DecimalMeans(n: nat)
    ensures ValueOf(Decimal(n)) == n && Decimal(n) != "" && (n > 0 ==> Decimal(n)[0] != '0')
  {
    DecimalEnds(n);
    if n >= 10 {
      DecimalMeans(n / 10);
    }
  }

  lemma DigitIsInjective(i: nat, j: nat)
    requires i < 10 && j < 10 && DIGITS[i] == DIGITS[j]
    ensures i == j
  {
  }

  /** The last digit, and the text before it. */
  lemma DecimalEnds(n: nat)
    ensures var s := Decimal(n);
      s != [] && s[|s| - 1] == DIGITS[n % 10] && s[..|s| - 1] == if n < 10 then [] else Decimal(n / 10)
  {
  }

  lemma {:induction false} DecimalIsInjective(m: nat, n: nat)
    requires Decimal(m) == Decimal(n)
    ensures m == n
  {
    DecimalEnds(m);
    DecimalEnds(n);
    DecimalEnds(m / 10);
    DecimalEnds(n / 10);
    DigitIsInjective(m % 10, n % 10);
    if m >= 10 && n >= 10 {
      DecimalIsInjective(m / 10, n / 10);
    }
  }

  // ---- White space --------------------------------------------------------------------

  predicate IsSpace(c: char) {
    var n := c as int;
    (9 <= n <= 13) || n == 0x20 || n == 0x85 || n == 0xA0 || n == 0x1680 || (0x2000 <= n <= 0x200a)
    || n == 0x2028 || n == 0x2029 || n == 0x202f || n == 0x205f || n == 0x3000
  }

  function Trim(s: string): (t: string)
    ensures t != "" ==> !IsSpace(t[0]) && !IsSpace(t[|t| - 1])
  {
    if s == "" then ""
    else if IsSpace(s[0]) then Trim(s[1..])
    else if IsSpace(s[|s| - 1]) then Trim(s[..|s| - 1])
    else s
  }

  ghost predicate AllSpace(s: string) {
    forall c :: c in s ==> IsSpace(c)
  }

  /** Only white space goes, and only from the two ends. */
  lemma {:induction false} TrimMeans(s: string) returns (left: string, right: string)
    ensures s == left + Trim(s) + right && AllSpace(left) && AllSpace(right)
    decreases |s|
  {
    if s == "" {
      left, right := "", "";
    } else if IsSpace(s[0]) {
      left, right := TrimMeans(s[1..]);
      assert s == [s[0]] + s[1..] == ([s[0]] + left) + Trim(s) + right;
      left := [s[0]] + left;
    } else if IsSpace(s[|s| - 1]) {
      var n := |s| - 1;
      left, right := TrimMeans(s[..n]);
      assert s == s[..n] + [s[n]] == left + Trim(s) + (right + [s[n]]);
      right := right + [s[n]];
    } else {
      left, right := "", "";
      assert s == "" + s + "";
    }
  }

  // ---- Byte order -------------------------------------------------------------------------

  predicate Less(a: string, b: string) {
    if b == "" then false
    else if a == "" then true
    else a[0] < b[0] || (a[0] == b[0] && Less(a[1..], b[1..]))
  }

  /** The first difference decides, and a proper prefix comes first. */
  lemma {:induction false} LessMeans(p: string, a: string, b: string)
    ensures Less(p, p + b) <==> b != ""
    ensures !Less(p + a, p)
    ensures a != "" && b != "" && a[0] != b[0] ==> (Less(p + a, p + b) <==> a[0] < b[0])
  {
    if p == "" {
      assert p + a == a && p + b == b;
    } else {
      assert (p + a)[1..] == p[1..] + a && (p + b)[1..] == p[1..] + b;
      LessMeans(p[1..], a, b);
    }
  }

  lemma {:induction false} LessIsTotal(a: string, b: string)
    ensures Less(a, b) || Less(b, a) || a == b
    ensures !(Less(a, b) && Less(b, a)) && !Less(a, a)
  {
    if a != "" && b != "" {
      LessIsTotal(a[1..], b[1..]);
      LessIsTotal(a[1..], a[1..]);
      assert a == [a[0]] + a[1..] && b == [b[0]] + b[1..];
    } else if a != "" {
      LessIsTotal(a[1..], a[1..]);
    }
  }

  lemma {:induction false} LessIsTransitive(a: string, b: string, c: string)
    requires !Less(b, a) && !Less(c, b)
    ensures !Less(c, a)
  {
    if a != "" && b != "" && c != "" {
      if a[0] == b[0] && b[0] == c[0] {
        LessIsTransitive(a[1..], b[1..], c[1..]);
      }
    }
  }

  // ---- Stable sorting ----------------------------------------------------------------------

  function Insert<T>(less: (T, T) -> bool, x: T, sorted: seq<T>): seq<T> {
    if sorted == [] || !less(sorted[0], x) then [x] + sorted else [sorted[0]] + Insert(less, x, sorted[1..])
  }

  /** The stable sort: an element goes before the equal ones that came after it. */
  function Sort<T>(less: (T, T) -> bool, xs: seq<T>): seq<T> {
    if xs == [] then [] else Insert(less, xs[0], Sort(less, xs[1..]))
  }

  ghost predicate Ordered<T>(less: (T, T) -> bool, xs: seq<T>) {
    forall i, j :: 0 <= i < j < |xs| ==> !less(xs[j], xs[i])
  }

  /** A strict weak order: what the sorts ask of a comparison. */
  ghost predicate WeakOrder<T(!new)>(less: (T, T) -> bool) {
    && (forall a, b :: !(less(a, b) && less(b, a)))
    && (forall a, b, c :: !less(b, a) && !less(c, b) ==> !less(c, a))
  }

  lemma {:induction false} InsertKeepsAll<T>(less: (T, T) -> bool, x: T, sorted: seq<T>)
    ensures multiset(Insert(less, x, sorted)) == multiset{x} + multiset(sorted)
  {
    if sorted != [] && less(sorted[0], x) {
      InsertKeepsAll(less, x, sorted[1..]);
      assert sorted == [sorted[0]] + sorted[1..];
    }
  }

  lemma {:induction false} InsertKeepsOrder<T(!new)>(less: (T, T) -> bool, x: T, sorted: seq<T>)
    requires WeakOrder(less) && Ordered(less, sorted)
    ensures Ordered(less, Insert(less, x, sorted))
  {
    if sorted != [] && less(sorted[0], x) {
      var rest := Insert(less, x, sorted[1..]);
      InsertKeepsOrder(less, x, sorted[1..]);
      InsertKeepsAll(less, x, sorted[1..]);
      forall j | 0 <= j < |rest|
        ensures !less(rest[j], sorted[0])
      {
        assert rest[j] in multiset(rest);
        if rest[j] != x {
          assert rest[j] in sorted[1..];
        }
      }
    } else if sorted != [] {
      assert forall j :: 0 <= j < |sorted| ==> !less(sorted[j], sorted[0]) || j == 0;
    }
  }

  /** The elements that neither come before e nor after it. */
  ghost function Like<T(!new)>(less: (T, T) -> bool, e: T, xs: seq<T>): seq<T> {
    if xs == [] then []
    else (if less(xs[0], e) || less(e, xs[0]) then [] else [xs[0]]) + Like(less, e, xs[1..])
  }

  lemma LikeSplits<T(!new)>(less: (T, T) -> bool, e: T, x: T, rest: seq<T>)
    ensures Like(less, e, [x] + rest) == Like(less, e, [x]) + Like(less, e, rest)
  {
    assert ([x] + rest)[1..] == rest && [x][1..] == [];
  }

  lemma SwapLike<T(!new)>(less: (T, T) -> bool, e: T, x: T, y: T)
    requires WeakOrder(less) && less(y, x)
    ensures Like(less, e, [x]) == [] || Like(less, e, [y]) == []
  {
    assert [x][1..] == [] && [y][1..] == [];
  }

  lemma {:induction false} InsertKeepsLike<T(!new)>(less: (T, T) -> bool, e: T, x: T, sorted: seq<T>)
    requires WeakOrder(less)
    ensures Like(less, e, Insert(less, x, sorted)) == Like(less, e, [x]) + Like(less, e, sorted)
  {
    if sorted == [] || !less(sorted[0], x) {
      LikeSplits(less, e, x, sorted);
    } else {
      var y, rest := sorted[0], sorted[1..];
      InsertKeepsLike(less, e, x, rest);
      LikeSplits(less, e, y, Insert(less, x, rest));
      LikeSplits(less, e, y, rest);
      assert [y] + rest == sorted;
      SwapLike(less, e, x, y);
    }
  }

  /** The sort is stable: equivalent elements stay in their order. */
  lemma {:induction false} SortIsStable<T(!new)>(less: (T, T) -> bool, e: T, xs: seq<T>)
    requires WeakOrder(less)
    ensures Like(less, e, Sort(less, xs)) == Like(less, e, xs)
  {
    if xs != [] {
      SortIsStable(less, e, xs[1..]);
      InsertKeepsLike(less, e, xs[0], Sort(less, xs[1..]));
      LikeSplits(less, e, xs[0], xs[1..]);
      assert [xs[0]] + xs[1..] == xs;
    }
  }

  lemma {:induction false} SortSorts<T(!new)>(less: (T, T) -> bool, xs: seq<T>)
    requires WeakOrder(less)
    ensures Ordered(less, Sort(less, xs)) && multiset(Sort(less, xs)) == multiset(xs)
  {
    if xs != [] {
      SortSorts(less, xs[1..]);
      InsertKeepsOrder(less, xs[0], Sort(less, xs[1..]));
      InsertKeepsAll(less, xs[0], Sort(less, xs[1..]));
      assert xs == [xs[0]] + xs[1..];
    }
  }

  lemma SameLeast<T(!new)>(less: (T, T) -> bool, a: seq<T>, b: seq<T>)
    requires forall x, y :: less(x, y) || less(y, x) || x == y
    requires Ordered(less, a) && Ordered(less, b) && multiset(a) == multiset(b) && a != [] && b != []
    ensures a[0] == b[0]
  {
    assert a[0] in multiset(b) && b[0] in multiset(a);
    var i :| 0 <= i < |b| && b[i] == a[0];
    var j :| 0 <= j < |a| && a[j] == b[0];
    assert i > 0 ==> !less(b[i], b[0]);
    assert j > 0 ==> !less(a[j], a[0]);
  }

  lemma TailCounts<T>(a: seq<T>)
    requires a != []
    ensures multiset(a[1..]) == multiset(a) - multiset{a[0]}
  {
    assert a == [a[0]] + a[1..];
  }

  /** Under a total order there is one sorted form of a multiset, so any correct sort finds it. */
  lemma {:induction false} SortedFormIsUnique<T(!new)>(less: (T, T) -> bool, a: seq<T>, b: seq<T>)
    requires forall x, y :: less(x, y) || less(y, x) || x == y
    requires Ordered(less, a) && Ordered(less, b) && multiset(a) == multiset(b)
    ensures a == b
  {
    assert |multiset(a)| == |a| && |multiset(b)| == |b|;
    if a != [] {
      SameLeast(less, a, b);
      TailCounts(a);
      TailCounts(b);
      SortedFormIsUnique(less, a[1..], b[1..]);
      assert a == [a[0]] + a[1..] && b == [b[0]] + b[1..];
    }
  }
}
