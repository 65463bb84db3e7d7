/** The canonical fingerprint of a multipart send (internal/httpapi/idempotency.go,
    multipartParts and partsFingerprint), up to the bytes that are fed to the hash. */
module Fingerprint {
  import opened Text
  import opened Wrappers

  const NUL: char := '\0'

  /** A parsed part; the digest of a file stands for its content. */
  datatype Part =
    | Field(name: string, value: string)
    | File(name: string, filename: string, contentType: string, digest: string)

  function Joined(fields: seq<string>): string {
    if |fields| == 0 then ""
    else if |fields| == 1 then fields[0]
    else fields[0] + [NUL] + Joined(fields[1..])
  }

  function Fields(part: Part): seq<string> {
    match part
    case Field(name, value) => ["field", name, value]
    case File(name, filename, contentType, digest) => ["file", name, filename, contentType, digest]
  }

  function Canonical(part: Part): string {
    Joined(Fields(part))
  }

  function CanonicalAll(parts: seq<Part>): seq<string> {
    seq(|parts|, i requires 0 <= i < |parts| => Canonical(parts[i]))
  }

  function Framed(parts: seq<string>): string {
    if parts == [] then "" else Decimal(|parts[0]|) + [':'] + (parts[0] + ['\n'] + Framed(parts[1..]))
  }

  /** The input of the hash: the method and the route, then every canonical part in order. */
  function HashInput(httpMethod: string, route: string, body: seq<Part>): string {
    httpMethod + "\n" + route + "\n" + Framed(Sort(Less, CanonicalAll(body)))
  }

  /** A part as the multipart reader gives it; reading its content can fail. */
  datatype RawPart = RawPart(formName: string, fileName: string, contentType: string, content: string, readable: bool)

  /** A part with a file name is a file, whatever its other headers say. */
  function PartOf(raw: RawPart, digest: string -> string): Part {
    if raw.fileName != "" then File(raw.formName, raw.fileName, raw.contentType, digest(raw.content))
    else Field(raw.formName, raw.content)
  }

  function PartsOf(body: seq<RawPart>, digest: string -> string): seq<Part> {
    seq(|body|, i requires 0 <= i < |body| => PartOf(body[i], digest))
  }

  /** The parts up to the end of the body; `whole` tells whether the reader got there without an
      error of its own. */
  method MultipartParts(body: seq<RawPart>, whole: bool, digest: string -> string) returns (parts: Option<seq<string>>)
    ensures parts == if whole && forall i :: 0 <= i < |body| ==> body[i].readable
                     then Some(Sort(Less, CanonicalAll(PartsOf(body, digest)))) else None
  {
    var read := [];
    for i := 0 to |body|
      invariant read == CanonicalAll(PartsOf(body[..i], digest))
      invariant forall k :: 0 <= k < i ==> body[k].readable
    {
      var part := body[i];
      if !part.readable {
        return None;
      }
      assert PartsOf(body[..i + 1], digest) == PartsOf(body[..i], digest) + [PartOf(part, digest)];
      if part.fileName != "" {
        read := read + [Joined(["file", part.formName, part.fileName, part.contentType, digest(part.content)])];
      } else {
        read := read + [Joined(["field", part.formName, part.content])];
      }
    }
    assert body[..|body|] == body;
    if !whole {
      return None;
    }
    parts := Some(Sort(Less, read));
  }

  method PartsFingerprint(httpMethod: string, route: string, parts: seq<string>) returns (input: string)
    ensures input == httpMethod + "\n" + route + "\n" + Framed(parts)
  {
    input := httpMethod + "\n" + route + "\n";
    ghost var start := input;
    for i := 0 to |parts|
      invariant start + Framed(parts) == input + Framed(parts[i..])
    {
      ghost var before := input;
      input := input + (Decimal(|parts[i]|) + [':']);
      input := input + parts[i];
      input := input + ['\n'];
      AppendFrame(before, parts[i..]);
      assert parts[i..][1..] == parts[i + 1..];
    }
    assert input + Framed(parts[|parts|..]) == input;
  }

  lemma AppendFrame(before: string, parts: seq<string>)
    requires parts != []
    ensures before + Framed(parts)
         == before + (Decimal(|parts[0]|) + [':']) + parts[0] + ['\n'] + Framed(parts[1..])
  {
    var (b, p, n, f) := (Decimal(|parts[0]|) + [':'], parts[0], ['\n'], Framed(parts[1..]));
    Regroup(b, p + n, f);
    Regroup(b, p, n);
    Regroup(before, b + p + n, f);
    Regroup(before, b + p, n);
    Regroup(before, b, p);
  }

  // ---- The framing is injective -----------------------------------------------------------

  lemma {:induction false} CutIsUnique(a: string, b: string, c: char, r: string, s: string)
    requires c !in a && c !in b && a + [c] + r == b + [c] + s
    ensures a == b && r == s
  {
    var x, y := a + [c] + r, b + [c] + s;
    assert x[0] == (if a == "" then c else a[0]) && y[0] == (if b == "" then c else b[0]);
    assert x[1..] == (if a == "" then r else a[1..] + [c] + r);
    assert y[1..] == (if b == "" then s else b[1..] + [c] + s);
    if a != "" {
      CutIsUnique(a[1..], b[1..], c, r, s);
    }
  }

  lemma FrameIsUnique(p: string, q: string, r: string, s: string)
    requires Decimal(|p|) + [':'] + (p + ['\n'] + r) == Decimal(|q|) + [':'] + (q + ['\n'] + s)
    ensures p == q && r == s
  {
    var tail, tail' := p + ['\n'] + r, q + ['\n'] + s;
    DecimalIsDigits(|p|);
    DecimalIsDigits(|q|);
    CutIsUnique(Decimal(|p|), Decimal(|q|), ':', tail, tail');
    DecimalIsInjective(|p|, |q|);
    assert p == tail[..|p|] && q == tail'[..|q|];
    assert r == tail[|p| + 1..] && s == tail'[|q| + 1..];
  }

  lemma OnlyNothingFramesEmpty(p: seq<string>)
    ensures Framed(p) == "" <==> p == []
  {
  }

  /** No value, however it is chosen, can move the boundary of a part. */
  lemma {:induction false} FramingIsInjective(p: seq<string>, q: seq<string>)
    requires Framed(p) == Framed(q)
    ensures p == q
  {
    OnlyNothingFramesEmpty(p);
    OnlyNothingFramesEmpty(q);
    if p != [] {
      FrameIsUnique(p[0], q[0], Framed(p[1..]), Framed(q[1..]));
      FramingIsInjective(p[1..], q[1..]);
      assert p == [p[0]] + p[1..] && q == [q[0]] + q[1..];
    }
  }

  lemma LessOrders()
    ensures WeakOrder(Less) && forall x, y :: Less(x, y) || Less(y, x) || x == y
  {
    forall x, y
      ensures (Less(x, y) || Less(y, x) || x == y) && !(Less(x, y) && Less(y, x))
    {
      LessIsTotal(x, y);
    }
    forall x, y, z | !Less(y, x) && !Less(z, y)
      ensures !Less(z, x)
    {
      LessIsTransitive(x, y, z);
    }
  }

  /** Two bodies feed the same bytes to the hash of a route exactly when they have the same
      canonical parts, counted, in whatever order they came. */
  lemma FingerprintMeansSameParts(httpMethod: string, route: string, a: seq<Part>, b: seq<Part>)
    ensures HashInput(httpMethod, route, a) == HashInput(httpMethod, route, b)
       <==> multiset(CanonicalAll(a)) == multiset(CanonicalAll(b))
  {
    LessOrders();
    SortSorts(Less, CanonicalAll(a));
    SortSorts(Less, CanonicalAll(b));
    var head := httpMethod + "\n" + route + "\n";
    var p, q := Sort(Less, CanonicalAll(a)), Sort(Less, CanonicalAll(b));
    if HashInput(httpMethod, route, a) == HashInput(httpMethod, route, b) {
      assert (head + Framed(p))[|head|..] == Framed(p) && (head + Framed(q))[|head|..] == Framed(q);
      FramingIsInjective(p, q);
    } else if multiset(CanonicalAll(a)) == multiset(CanonicalAll(b)) {
      SortedFormIsUnique(Less, p, q);
    }
  }

  // ---- From canonical strings back to parts -------------------------------------------------

  /** The separator does not occur in the fields that come before the last. The digest is a hex
      string, and the value of a text field is last, so both may be anything. */
  predicate Separable(part: Part) {
    && NUL !in part.name
    && (part.File? ==> NUL !in part.filename && NUL !in part.contentType)
  }

  ghost predicate CleanButLast(fields: seq<string>) {
    forall i :: 0 <= i < |fields| - 1 ==> NUL !in fields[i]
  }

  lemma {:induction false} JoinIsInjective(a: seq<string>, b: seq<string>)
    requires |a| > 1 && |b| > 1 && CleanButLast(a) && CleanButLast(b) && Joined(a) == Joined(b)
    ensures a[0] == b[0] && (|a| == |b| ==> a == b)
  {
    CutIsUnique(a[0], b[0], NUL, Joined(a[1..]), Joined(b[1..]));
    assert a == [a[0]] + a[1..] && b == [b[0]] + b[1..];
    if |a| == |b| {
      if |a| == 2 {
        assert a[1..] == [a[1]] && b[1..] == [b[1]];
      } else {
        assert CleanButLast(a[1..]) && CleanButLast(b[1..]);
        JoinIsInjective(a[1..], b[1..]);
      }
    }
  }

  lemma CanonicalIsInjective(p: Part, q: Part)
    requires Separable(p) && Separable(q) && Canonical(p) == Canonical(q)
    ensures p == q
  {
    assert "field" != "file" && NUL !in "field" && NUL !in "file";
    JoinIsInjective(Fields(p), Fields(q));
    assert Fields(p)[0] == Fields(q)[0];
    assert p.Field? <==> q.Field?;
    if p.Field? {
      assert Fields(p)[1] == Fields(q)[1] && Fields(p)[2] == Fields(q)[2];
    } else {
      assert forall i :: 0 <= i < 5 ==> Fields(p)[i] == Fields(q)[i];
      assert Fields(p)[1] == p.name && Fields(p)[2] == p.filename && Fields(p)[3] == p.contentType && Fields(p)[4] == p.digest;
    }
  }

  lemma CountWithout<T>(s: seq<T>, i: nat)
    requires i < |s|
    ensures multiset(s[..i] + s[i + 1..]) == multiset(s) - multiset{s[i]}
  {
    assert s == s[..i] + [s[i]] + s[i + 1..];
  }

  lemma CanonicalAllCount(parts: seq<Part>, i: nat)
    requires i < |parts|
    ensures multiset(parts[..i] + parts[i + 1..]) == multiset(parts) - multiset{parts[i]}
    ensures multiset(CanonicalAll(parts[..i] + parts[i + 1..])) == multiset(CanonicalAll(parts)) - multiset{Canonical(parts[i])}
  {
    var all := CanonicalAll(parts);
    CountWithout(parts, i);
    CountWithout(all, i);
    assert CanonicalAll(parts[..i] + parts[i + 1..]) == all[..i] + all[i + 1..];
  }

  lemma RemovalChangesNothing(a: seq<Part>, i: nat, b: seq<Part>, j: nat)
    requires i < |a| && j < |b| && a[i] == b[j]
    ensures var (a', b') := (a[..i] + a[i + 1..], b[..j] + b[j + 1..]);
      && (multiset(a') == multiset(b') <==> multiset(a) == multiset(b))
      && (multiset(CanonicalAll(a')) == multiset(CanonicalAll(b')) <==> multiset(CanonicalAll(a)) == multiset(CanonicalAll(b)))
  {
    CanonicalAllCount(a, i);
    CanonicalAllCount(b, j);
    assert CanonicalAll(a)[i] == Canonical(a[i]) == CanonicalAll(b)[j];
    RemovalsAgree(multiset(a), multiset(b), a[i]);
    RemovalsAgree(multiset(CanonicalAll(a)), multiset(CanonicalAll(b)), Canonical(a[i]));
  }

  /** Among these parts the canonical form tells one from another. */
  ghost predicate Told(a: seq<Part>, b: seq<Part>) {
    forall p, q :: (p in a || p in b) && (q in a || q in b) && Canonical(p) == Canonical(q) ==> p == q
  }

  lemma FewerAreTold(a: seq<Part>, b: seq<Part>, c: seq<Part>, d: seq<Part>)
    requires Told(a, b) && (forall p :: p in c ==> p in a) && (forall p :: p in d ==> p in b)
    ensures Told(c, d)
  {
  }

  lemma {:induction false} SamePartsIffSameCanonical(a: seq<Part>, b: seq<Part>)
    requires Told(a, b)
    ensures multiset(CanonicalAll(a)) == multiset(CanonicalAll(b)) <==> multiset(a) == multiset(b)
    decreases |a|
  {
    assert |multiset(a)| == |a| && |multiset(b)| == |b|;
    assert |multiset(CanonicalAll(a))| == |a| && |multiset(CanonicalAll(b))| == |b|;
    if a != [] && |a| == |b| && (multiset(CanonicalAll(a)) == multiset(CanonicalAll(b)) || multiset(a) == multiset(b)) {
      assert CanonicalAll(a)[0] == Canonical(a[0]) && CanonicalAll(a)[0] in multiset(CanonicalAll(a)) && a[0] in multiset(a);
      var j := Occurrence(a[0], b);
      RemovalChangesNothing(a, 0, b, j);
      FewerAreTold(a, b, a[..0] + a[1..], b[..j] + b[j + 1..]);
      SamePartsIffSameCanonical(a[..0] + a[1..], b[..j] + b[j + 1..]);
    }
  }

  lemma Occurrence(p: Part, b: seq<Part>) returns (j: nat)
    requires Canonical(p) in multiset(CanonicalAll(b)) || p in multiset(b)
    requires forall q :: q in b && Canonical(p) == Canonical(q) ==> p == q
    ensures j < |b| && b[j] == p
  {
    assert Canonical(p) in CanonicalAll(b) by {
      if k :| 0 <= k < |b| && b[k] == p {
        assert CanonicalAll(b)[k] == Canonical(p);
      }
    }
    j :| 0 <= j < |b| && CanonicalAll(b)[j] == Canonical(p);
    assert b[j] in b;
  }

  lemma RemovalsAgree<T>(m: multiset<T>, n: multiset<T>, x: T)
    requires x in m && x in n
    ensures m - multiset{x} == n - multiset{x} <==> m == n
  {
    if m - multiset{x} == n - multiset{x} {
      assert m == (m - multiset{x}) + multiset{x} && n == (n - multiset{x}) + multiset{x};
    }
  }

  /** With NUL-free names the fingerprint is exact: same bytes, same parts. */
  lemma FingerprintIsExact(httpMethod: string, route: string, a: seq<Part>, b: seq<Part>)
    requires forall p :: p in a || p in b ==> Separable(p)
    ensures HashInput(httpMethod, route, a) == HashInput(httpMethod, route, b) <==> multiset(a) == multiset(b)
  {
    forall p, q | (p in a || p in b) && (q in a || q in b) && Canonical(p) == Canonical(q)
      ensures p == q
    {
      CanonicalIsInjective(p, q);
    }
    FingerprintMeansSameParts(httpMethod, route, a, b);
    SamePartsIffSameCanonical(a, b);
  }

  lemma JoinedThree(a: string, b: string, c: string)
    ensures Joined([a, b, c]) == a + [NUL] + (b + [NUL] + c)
  {
    assert [a, b, c][1..] == [b, c] && [b, c][1..] == [c];
    assert Joined([c]) == c;
    assert Joined([b, c]) == b + [NUL] + c;
  }

  /** A NUL in a name is enough to make two different sends look like a retry. */
  lemma NulInNameCollides(httpMethod: string, route: string, name: string, x: string, y: string)
    ensures var (p, q) := (Field(name, x + [NUL] + y), Field(name + [NUL] + x, y));
      p != q && HashInput(httpMethod, route, [p]) == HashInput(httpMethod, route, [q])
  {
    var p, q := Field(name, x + [NUL] + y), Field(name + [NUL] + x, y);
    JoinedThree("field", name, x + [NUL] + y);
    JoinedThree("field", name + [NUL] + x, y);
    assert name + [NUL] + (x + [NUL] + y) == (name + [NUL] + x) + [NUL] + y;
    assert CanonicalAll([p]) == [Canonical(p)] && CanonicalAll([q]) == [Canonical(q)];
    assert |p.name| != |q.name|;
  }

  lemma JoinedFive(a: string, b: string, c: string, d: string, e: string)
    ensures Joined([a, b, c, d, e]) == a + [NUL] + (b + [NUL] + (c + [NUL] + (d + [NUL] + e)))
  {
    JoinedThree(c, d, e);
    assert [a, b, c, d, e][1..] == [b, c, d, e] && [b, c, d, e][1..] == [c, d, e];
    assert Joined([b, c, d, e]) == b + [NUL] + Joined([c, d, e]);
  }

  /** So is one in the name of a file field, and one in the file name itself. */
  lemma NulInFileCollides(httpMethod: string, route: string, name: string, x: string, y: string, z: string, digest: string)
    ensures var (p, q) := (File(name + [NUL] + x, y, z, digest), File(name, x + [NUL] + y, z, digest));
      p != q && HashInput(httpMethod, route, [p]) == HashInput(httpMethod, route, [q])
    ensures var (p, q) := (File(name, x + [NUL] + y, z, digest), File(name, x, y + [NUL] + z, digest));
      p != q && HashInput(httpMethod, route, [p]) == HashInput(httpMethod, route, [q])
  {
    var p, q, r := File(name + [NUL] + x, y, z, digest), File(name, x + [NUL] + y, z, digest), File(name, x, y + [NUL] + z, digest);
    JoinedFive("file", name + [NUL] + x, y, z, digest);
    JoinedFive("file", name, x + [NUL] + y, z, digest);
    JoinedFive("file", name, x, y + [NUL] + z, digest);
    var tail := z + [NUL] + digest;
    assert name + [NUL] + x + [NUL] + (y + [NUL] + tail) == name + [NUL] + (x + [NUL] + y + [NUL] + tail);
    assert x + [NUL] + y + [NUL] + tail == x + [NUL] + (y + [NUL] + z + [NUL] + digest);
    assert CanonicalAll([p]) == [Canonical(p)] && CanonicalAll([q]) == [Canonical(q)] && CanonicalAll([r]) == [Canonical(r)];
    assert |p.name| != |q.name| && |q.filename| != |r.filename|;
  }

  // ---- From the parts as read, and with their route ------------------------------------------

  /** Two parts as the reader gives them count as the same exactly when they have one name and one
      file name and, as files, one content type and digest, and as fields, one text. */
  lemma PartsDifferExactly(p: RawPart, q: RawPart, digest: string -> string)
    ensures PartOf(p, digest) == PartOf(q, digest) <==>
              && p.formName == q.formName && p.fileName == q.fileName
              && if p.fileName == "" then p.content == q.content
                 else p.contentType == q.contentType && digest(p.content) == digest(q.content)
  {
  }

  /** The same parts sent by another method or to another route are another request. */
  lemma RouteIsHashed(m: string, r: string, a: seq<Part>, n: string, s: string, b: seq<Part>)
    requires '\n' !in m && '\n' !in r && '\n' !in n && '\n' !in s
    requires HashInput(m, r, a) == HashInput(n, s, b)
    ensures m == n && r == s
  {
    var (x, y) := (Framed(Sort(Less, CanonicalAll(a))), Framed(Sort(Less, CanonicalAll(b))));
    Regroup(m + ['\n'], r + ['\n'], x);
    Regroup(n + ['\n'], s + ['\n'], y);
    Regroup(m + ['\n'], r, ['\n']);
    Regroup(n + ['\n'], s, ['\n']);
    CutIsUnique(m, n, '\n', r + ['\n'] + x, s + ['\n'] + y);
    CutIsUnique(r, s, '\n', x, y);
  }
}
