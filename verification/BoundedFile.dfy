/** The capacity-bounded in-memory file of the media download (internal/session/whatsmeow/media.go),
    against a plain file whose gaps read as zeros. Offsets are unbounded here. */
module BoundedFile {
  type Byte = b: int | 0 <= b < 256

  datatype Error = NegativeOffset | NegativePosition | NegativeSize | InvalidWhence | TooLarge

  datatype Op =
    | Read(count: nat)
    | Write(bytes: seq<Byte>)
    | ReadAt(count: nat, at: int)
    | WriteAt(bytes: seq<Byte>, at: int)
    | Seek(offset: int, whence: int)
    | Truncate(size: int)

  datatype Out = Bytes(bytes: seq<Byte>, eof: bool) | Wrote(n: nat) | At(position: nat) | Done | Failed(error: Error)

  function Min(a: int, b: int): int { if a < b then a else b }

  function Max(a: int, b: int): int { if a < b then b else a }

  /** The bytes are at their place, and what was there before and they do not cover still is. */
  ghost predicate Holds(before: seq<Byte>, after: seq<Byte>, at: int, bytes: seq<Byte>) {
    && 0 <= at && at + |bytes| <= |after| && |before| <= |after|
    && (forall i :: 0 <= i < |bytes| ==> after[at + i] == bytes[i])
    && (forall i :: 0 <= i < |before| && !(at <= i < at + |bytes|) ==> after[i] == before[i])
  }

  function Zeros(n: nat): seq<Byte> {
    seq(n, _ => 0)
  }

  // ---- The plain file -----------------------------------------------------------------------

  datatype Plain = Plain(content: seq<Byte>, off: nat)

  function Padded(content: seq<Byte>, size: nat): seq<Byte> {
    if size <= |content| then content else content + Zeros(size - |content|)
  }

  function Overwritten(content: seq<Byte>, at: nat, bytes: seq<Byte>): seq<Byte>
    requires at + |bytes| <= |content|
  {
    content[..at] + bytes + content[at + |bytes|..]
  }

  function Resized(content: seq<Byte>, size: nat): seq<Byte> {
    if size <= |content| then content[..size] else Padded(content, size)
  }

  /** What a read of up to `count` bytes gives, at most to the end. */
  function Slice(content: seq<Byte>, at: nat, count: nat): seq<Byte> {
    if at >= |content| then [] else content[at..Min(at + count, |content|)]
  }

  function Sought(off: nat, size: nat, offset: int, whence: int): int {
    if whence == 0 then offset else if whence == 1 then off + offset else size + offset
  }

  /** One operation of an ordinary file with a size limit. */
  function PlainStep(limit: int, f: Plain, op: Op): (Plain, Out) {
    match op
    case Read(count) =>
      var bytes := Slice(f.content, f.off, count);
      (f.(off := f.off + |bytes|), Bytes(bytes, f.off >= |f.content|))
    case Write(bytes) =>
      var end := f.off + |bytes|;
      if end > limit then (f, Failed(TooLarge))
      else (Plain(Overwritten(Padded(f.content, end), f.off, bytes), end), Wrote(|bytes|))
    case ReadAt(count, at) =>
      if at < 0 then (f, Failed(NegativeOffset))
      else
        var bytes := Slice(f.content, at, count); (f, Bytes(bytes, at >= |f.content| || |bytes| < count))
    case WriteAt(bytes, at) =>
      if at < 0 then (f, Failed(NegativeOffset))
      else if at + |bytes| > limit then (f, Failed(TooLarge))
      else (f.(content := Overwritten(Padded(f.content, at + |bytes|), at, bytes)), Wrote(|bytes|))
    case Seek(offset, whence) =>
      var position := Sought(f.off, |f.content|, offset, whence);
      if !(0 <= whence <= 2) then (f, Failed(InvalidWhence))
      else if position < 0 then (f, Failed(NegativePosition))
      else (f.(off := position), At(position))
    case Truncate(size) =>
      if size < 0 then (f, Failed(NegativeSize))
      else if size > limit then (f, Failed(TooLarge))
      else (Plain(Resized(f.content, size), Min(f.off, size)), Done)
  }

  // ---- The buffer ---------------------------------------------------------------------------

  /** The backing array, how much of it is content, and the position. */
  datatype Buffer = Buffer(cells: seq<Byte>, len: nat, off: nat)

  ghost predicate Fits(limit: int, f: Buffer) {
    f.len <= |f.cells| && (f.cells != [] ==> |f.cells| <= limit)
  }

  function Content(f: Buffer): seq<Byte>
    requires f.len <= |f.cells|
  {
    f.cells[..f.len]
  }

  function Capacity(limit: int, cap: nat, size: nat): int {
    Min(limit, if cap * 2 < size then size else cap * 2)
  }

  /** Within the capacity the content is only re-sliced, so what the array holds there shows. */
  function Grown(limit: int, f: Buffer, size: nat): Buffer
    requires f.len <= |f.cells| && (size > |f.cells| ==> size <= limit)
  {
    if f.len >= size then f
    else if |f.cells| >= size then f.(len := size)
    else f.(cells := f.cells[..f.len] + Zeros(Capacity(limit, |f.cells|, size) - f.len), len := size)
  }

  function Put(limit: int, f: Buffer, at: nat, bytes: seq<Byte>): Buffer
    requires Fits(limit, f) && at + |bytes| <= limit
  {
    var g := Grown(limit, f, at + |bytes|);
    g.(cells := Overwritten(g.cells, at, bytes))
  }

  lemma PutHolds(limit: int, f: Buffer, at: nat, bytes: seq<Byte>)
    requires Fits(limit, f) && at + |bytes| <= limit
    ensures var g := Put(limit, f, at, bytes);
      g.len == Max(f.len, at + |bytes|) && g.len <= |g.cells| && Holds(Content(f), Content(g), at, bytes)
  {
    var grown := Grown(limit, f, at + |bytes|);
    assert forall i :: 0 <= i < f.len ==> grown.cells[i] == f.cells[i];
  }

  function BufferStep(limit: int, f: Buffer, op: Op): (Buffer, Out)
    requires Fits(limit, f)
  {
    match op
    case Read(count) =>
      var bytes := Slice(Content(f), f.off, count);
      (f.(off := f.off + |bytes|), Bytes(bytes, f.off >= f.len))
    case Write(bytes) =>
      var end := f.off + |bytes|;
      if end > limit then (f, Failed(TooLarge)) else (Put(limit, f, f.off, bytes).(off := end), Wrote(|bytes|))
    case ReadAt(count, at) =>
      if at < 0 then (f, Failed(NegativeOffset))
      else
        var bytes := Slice(Content(f), at, count); (f, Bytes(bytes, at >= f.len || |bytes| < count))
    case WriteAt(bytes, at) =>
      if at < 0 then (f, Failed(NegativeOffset))
      else if at + |bytes| > limit then (f, Failed(TooLarge))
      else (Put(limit, f, at, bytes), Wrote(|bytes|))
    case Seek(offset, whence) =>
      var position := Sought(f.off, f.len, offset, whence);
      if !(0 <= whence <= 2) then (f, Failed(InvalidWhence))
      else if position < 0 then (f, Failed(NegativePosition))
      else (f.(off := position), At(position))
    case Truncate(size) =>
      if size < 0 then (f, Failed(NegativeSize))
      else if size > limit then (f, Failed(TooLarge))
      else
        var g := if size > f.len then Grown(limit, f, size) else f.(len := size);
        (g.(off := Min(g.off, size)), Done)
  }

  /** The bytes a step copies into a new array. */
  function CopiedBy(limit: int, f: Buffer, op: Op): nat
    requires Fits(limit, f)
  {
    if |BufferStep(limit, f, op).0.cells| > |f.cells| then f.len else 0
  }

  class BoundedFile {
    const limit: int
    var data: array<Byte>
    var len: nat
    var off: nat
    ghost var copied: nat

    function View(): Buffer
      reads this, data
    {
      Buffer(data[..], len, off)
    }

    ghost predicate Valid()
      reads this, data
    {
      Fits(limit, View())
    }

    constructor (limit: int)
      ensures Valid() && this.limit == limit && View() == Buffer([], 0, 0) && copied == 0 && fresh(data)
    {
      this.limit := limit;
      data := new Byte[0];
      len, off, copied := 0, 0, 0;
    }

    /** The content is copied only when the array is replaced. */
    method Grow(size: nat)
      requires Valid() && (size > data.Length ==> size <= limit)
      modifies this`data, this`len, this`copied
      ensures View() == Grown(limit, old(View()), size)
      ensures if size <= old(data.Length) then data == old(data) else fresh(data)
      ensures copied == old(copied) + if size <= old(data.Length) then 0 else old(len)
    {
      if len >= size {
        return;
      }
      if data.Length >= size {
        len := size;
        return;
      }
      var capacity := data.Length * 2;
      if capacity < size {
        capacity := size;
      }
      if capacity > limit {
        capacity := limit;
      }
      var grown := new Byte[capacity](_ => 0);
      forall i | 0 <= i < len {
        grown[i] := data[i];
      }
      copied := copied + len;
      assert grown[..] == data[..len] + Zeros(capacity - len);
      data, len := grown, size;
    }

    method PutAt(at: nat, bytes: seq<Byte>)
      requires Valid() && at + |bytes| <= limit
      modifies this`data, this`len, this`copied, data
      ensures Valid() && View() == Put(limit, old(View()), at, bytes) && (data == old(data) || fresh(data))
      ensures copied == old(copied) + if |View().cells| > |old(View()).cells| then old(len) else 0
    {
      Grow(at + |bytes|);
      ghost var cells := data[..];
      forall i | 0 <= i < |bytes| {
        data[at + i] := bytes[i];
      }
      assert data[..] == Overwritten(cells, at, bytes);
    }

    method Read(count: nat) returns (out: Out)
      requires Valid()
      modifies this`off
      ensures (View(), out) == BufferStep(limit, old(View()), Op.Read(count))
      ensures out.Bytes? && |out.bytes| == (if old(off) >= len then 0 else Min(count, len - old(off)))
      ensures (out.eof <==> old(off) >= len) && off == old(off) + |out.bytes|
      ensures forall i :: 0 <= i < |out.bytes| ==> out.bytes[i] == data[old(off) + i]
    {
      var content := data[..len];
      assert content == Content(View());
      if off >= len {
        return Bytes([], true);
      }
      var n := Min(count, len - off);
      out := Bytes(content[off..off + n], false);
      off := off + n;
    }

    method Write(bytes: seq<Byte>) returns (out: Out)
      requires Valid()
      modifies this, data
      ensures Valid() && (View(), out) == BufferStep(limit, old(View()), Op.Write(bytes)) && (data == old(data) || fresh(data))
      ensures copied == old(copied) + CopiedBy(limit, old(View()), Op.Write(bytes))
      ensures out == if old(off) + |bytes| > limit then Failed(TooLarge) else Wrote(|bytes|)
      ensures out.Wrote? ==> off == old(off) + |bytes| && len == Max(old(len), off)
      ensures out.Wrote? ==> Holds(old(data[..len]), data[..len], old(off), bytes)
      ensures !out.Wrote? ==> View() == old(View())
    {
      var end := off + |bytes|;
      if end > limit {
        return Failed(TooLarge);
      }
      ghost var before := View();
      PutHolds(limit, before, off, bytes);
      PutAt(off, bytes);
      ghost var put := View();
      off := end;
      out := Wrote(|bytes|);
      assert View() == put.(off := end);
      assert BufferStep(limit, before, Op.Write(bytes)) == (put.(off := end), Wrote(|bytes|));
    }

    method ReadAt(count: nat, at: int) returns (out: Out)
      requires Valid()
      ensures (View(), out) == BufferStep(limit, View(), Op.ReadAt(count, at))
      ensures at < 0 ==> out == Failed(NegativeOffset)
      ensures at >= 0 ==>
                && out.Bytes? && |out.bytes| == (if at >= len then 0 else Min(count, len - at))
                && (out.eof <==> at >= len || |out.bytes| < count)
                && forall i :: 0 <= i < |out.bytes| ==> out.bytes[i] == data[at + i]
    {
      var content := data[..len];
      assert content == Content(View());
      if at < 0 {
        return Failed(NegativeOffset);
      }
      if at >= len {
        return Bytes([], true);
      }
      var n := Min(count, len - at);
      out := Bytes(content[at..at + n], n < count);
    }

    method WriteAt(bytes: seq<Byte>, at: int) returns (out: Out)
      requires Valid()
      modifies this, data
      ensures Valid() && (View(), out) == BufferStep(limit, old(View()), Op.WriteAt(bytes, at)) && (data == old(data) || fresh(data))
      ensures copied == old(copied) + CopiedBy(limit, old(View()), Op.WriteAt(bytes, at))
      ensures out == if at < 0 then Failed(NegativeOffset) else if at + |bytes| > limit then Failed(TooLarge) else Wrote(|bytes|)
      ensures out.Wrote? ==> off == old(off) && len == Max(old(len), at + |bytes|)
      ensures out.Wrote? ==> Holds(old(data[..len]), data[..len], at, bytes)
      ensures !out.Wrote? ==> View() == old(View())
    {
      if at < 0 {
        return Failed(NegativeOffset);
      }
      if at + |bytes| > limit {
        return Failed(TooLarge);
      }
      PutHolds(limit, View(), at, bytes);
      PutAt(at, bytes);
      out := Wrote(|bytes|);
    }

    method Seek(offset: int, whence: int) returns (out: Out)
      requires Valid()
      modifies this`off
      ensures (View(), out) == BufferStep(limit, old(View()), Op.Seek(offset, whence))
      ensures out == Failed(InvalidWhence) <==> whence !in {0, 1, 2}
      ensures out.At? ==>
                && off == out.position
                && (whence == 0 ==> off == offset) && (whence == 1 ==> off == old(off) + offset) && (whence == 2 ==> off == len + offset)
      ensures !out.At? ==> off == old(off)
      ensures out == Failed(NegativePosition) <==>
                (whence == 0 && offset < 0) || (whence == 1 && old(off) + offset < 0) || (whence == 2 && len + offset < 0)
    {
      var position := 0;
      if whence == 0 {
        position := offset;
      } else if whence == 1 {
        position := off + offset;
      } else if whence == 2 {
        position := len + offset;
      } else {
        return Failed(InvalidWhence);
      }
      if position < 0 {
        return Failed(NegativePosition);
      }
      off := position;
      out := At(position);
    }

    method Truncate(size: int) returns (out: Out)
      requires Valid()
      modifies this
      ensures Valid() && (View(), out) == BufferStep(limit, old(View()), Op.Truncate(size)) && (data == old(data) || fresh(data))
      ensures copied == old(copied) + CopiedBy(limit, old(View()), Op.Truncate(size))
      ensures out == if size < 0 then Failed(NegativeSize) else if size > limit then Failed(TooLarge) else Done
      ensures out.Done? ==> len == size && off == Min(old(off), size)
      ensures out.Done? ==> forall i :: 0 <= i < size && i < old(len) ==> data[i] == old(data[i])
      ensures !out.Done? ==> View() == old(View())
    {
      if size < 0 {
        return Failed(NegativeSize);
      }
      if size > limit {
        return Failed(TooLarge);
      }
      if size > len {
        Grow(size);
      } else {
        len := size;
      }
      if off > size {
        off := size;
      }
      out := Done;
    }
  }

  // ---- Memory -------------------------------------------------------------------------------

  function BufferAfter(limit: int, f: Buffer, ops: seq<Op>): (g: Buffer)
    requires Fits(limit, f)
    ensures Fits(limit, g)
    decreases |ops|
  {
    if ops == [] then f
    else
      StepFits(limit, f, ops[0]);
      BufferAfter(limit, BufferStep(limit, f, ops[0]).0, ops[1..])
  }

  /** Growing keeps the bounds; a new array is the largest one or twice the last one. */
  predicate GrewWell(limit: int, f: Buffer, g: Buffer) {
    && g.len <= |g.cells| && |f.cells| <= |g.cells|
    && (|g.cells| > |f.cells| ==> |g.cells| <= limit && (|g.cells| == limit || |g.cells| >= 2 * |f.cells|))
  }

  lemma GrownGrewWell(limit: int, f: Buffer, size: nat)
    requires Fits(limit, f) && (size > |f.cells| ==> size <= limit)
    ensures GrewWell(limit, f, Grown(limit, f, size))
  {
  }

  lemma PutGrewWell(limit: int, f: Buffer, at: nat, bytes: seq<Byte>)
    requires Fits(limit, f) && at + |bytes| <= limit
    ensures GrewWell(limit, f, Put(limit, f, at, bytes))
  {
  }

  lemma StepGrewWell(limit: int, f: Buffer, op: Op)
    requires Fits(limit, f)
    ensures GrewWell(limit, f, BufferStep(limit, f, op).0)
  {
    if op.Write? && f.off + |op.bytes| <= limit {
      PutGrewWell(limit, f, f.off, op.bytes);
    } else if op.WriteAt? && 0 <= op.at && op.at + |op.bytes| <= limit {
      PutGrewWell(limit, f, op.at, op.bytes);
    } else if op.Truncate? && 0 <= op.size <= limit {
      GrownGrewWell(limit, f, op.size);
    } else {
      assert BufferStep(limit, f, op).0.cells == f.cells && BufferStep(limit, f, op).0.len == f.len;
    }
  }

  lemma StepFits(limit: int, f: Buffer, op: Op)
    requires Fits(limit, f)
    ensures Fits(limit, BufferStep(limit, f, op).0)
  {
    StepGrewWell(limit, f, op);
  }

  function CopiedIn(limit: int, f: Buffer, ops: seq<Op>): nat
    requires Fits(limit, f)
    decreases |ops|
  {
    if ops == [] then 0
    else
      StepFits(limit, f, ops[0]);
      CopiedBy(limit, f, ops[0]) + CopiedIn(limit, BufferStep(limit, f, ops[0]).0, ops[1..])
  }

  /** Every new array at least doubles the last one or is the last one ever. */
  predicate Paid(limit: int, f: Buffer, copied: nat) {
    copied <= |f.cells| || (|f.cells| == limit && copied < 2 * limit)
  }

  lemma StepStaysPaid(limit: int, f: Buffer, op: Op, copied: nat)
    requires Fits(limit, f) && Paid(limit, f, copied)
    ensures Paid(limit, BufferStep(limit, f, op).0, copied + CopiedBy(limit, f, op))
  {
    StepGrewWell(limit, f, op);
  }

  lemma {:induction false} RunStaysPaid(limit: int, f: Buffer, ops: seq<Op>, copied: nat)
    requires Fits(limit, f) && Paid(limit, f, copied)
    ensures Paid(limit, BufferAfter(limit, f, ops), copied + CopiedIn(limit, f, ops))
    decreases |ops|
  {
    if ops != [] {
      StepFits(limit, f, ops[0]);
      StepStaysPaid(limit, f, ops[0], copied);
      RunStaysPaid(limit, BufferStep(limit, f, ops[0]).0, ops[1..], copied + CopiedBy(limit, f, ops[0]));
    }
  }

  const NEW_FILE: Buffer := Buffer([], 0, 0)

  /** Whatever is done to a file, it holds at most `limit` bytes of memory for its content, and all
      its regrowing together copies less than twice that. */
  lemma MemoryIsBounded(limit: int, ops: seq<Op>)
    ensures var f := BufferAfter(limit, NEW_FILE, ops);
      f.len <= |f.cells| && (limit >= 0 ==> |f.cells| <= limit)
    ensures limit > 0 ==> CopiedIn(limit, NEW_FILE, ops) < 2 * limit
    ensures limit <= 0 ==> CopiedIn(limit, NEW_FILE, ops) == 0
  {
    RunStaysPaid(limit, NEW_FILE, ops, 0);
  }

  // ---- Agreement with the plain file ------------------------------------------------------------

  ghost predicate Agrees(f: Buffer, p: Plain)
    requires f.len <= |f.cells|
  {
    Content(f) == p.content && f.off == p.off
  }

  /** Up to where an operation takes cells beyond the content into it without writing them. */
  function ExposedEnd(limit: int, f: Buffer, op: Op): int {
    var cap := |f.cells|;
    match op
    case Write(bytes) => if f.off + |bytes| <= Min(limit, cap) then f.off else 0
    case WriteAt(bytes, at) => if at + |bytes| <= Min(limit, cap) then at else 0
    case Truncate(size) => if size <= Min(limit, cap) then size else 0
    case _ => 0
  }

  /** All it exposes is zero. */
  ghost predicate Harmless(limit: int, f: Buffer, op: Op) {
    forall i :: f.len <= i < ExposedEnd(limit, f, op) && i < |f.cells| ==> f.cells[i] == 0
  }

  ghost predicate ZeroBetween(cells: seq<Byte>, from: nat, to: int) {
    forall i :: from <= i < to && i < |cells| ==> cells[i] == 0
  }

  lemma GrownAgrees(limit: int, f: Buffer, size: nat)
    requires Fits(limit, f) && f.len < size <= limit
    ensures var g := Grown(limit, f, size);
      && g.len == size && Content(g)[..f.len] == Content(f)
      && (forall i :: f.len <= i < size ==> Content(g)[i] == if size <= |f.cells| then f.cells[i] else 0)
  {
  }

  lemma OverwrittenPrefix(cells: seq<Byte>, n: nat, at: nat, bytes: seq<Byte>)
    requires at + |bytes| <= n <= |cells|
    ensures Overwritten(cells, at, bytes)[..n] == Overwritten(cells[..n], at, bytes)
  {
  }

  lemma OverwrittenSame(a: seq<Byte>, b: seq<Byte>, at: nat, bytes: seq<Byte>)
    requires |a| == |b| && at + |bytes| <= |a| && a[at + |bytes|..] == b[at + |bytes|..]
    ensures Overwritten(a, at, bytes) == Overwritten(b, at, bytes) <==> a[..at] == b[..at]
  {
    assert Overwritten(a, at, bytes)[..at] == a[..at] && Overwritten(b, at, bytes)[..at] == b[..at];
  }

  /** What growing exposes before the write comes. */
  lemma GrownIsPadded(limit: int, f: Buffer, at: nat, size: nat)
    requires Fits(limit, f) && at <= size <= limit
    ensures var (grown, padded) := (Content(Grown(limit, f, size)), Padded(Content(f), size));
      && |grown| == |padded| && size <= |grown| && grown[size..] == padded[size..]
      && (grown[..at] == padded[..at] <==> size > |f.cells| || ZeroBetween(f.cells, f.len, at))
  {
    var grown, padded := Content(Grown(limit, f, size)), Padded(Content(f), size);
    if size > f.len {
      GrownAgrees(limit, f, size);
      assert forall i :: 0 <= i < f.len ==> grown[i] == Content(f)[i] == padded[i];
      SameUnless(grown[..at], padded[..at], f.cells, f.len, at, size > |f.cells|);
    }
  }

  lemma SameUnless(a: seq<Byte>, b: seq<Byte>, cells: seq<Byte>, from: nat, to: nat, padded: bool)
    requires |a| == |b| == to && (!padded ==> to <= |cells|)
    requires forall i :: 0 <= i < to && i < from ==> a[i] == b[i]
    requires forall i :: from <= i < to ==> b[i] == 0 && a[i] == if padded then 0 else cells[i]
    ensures a == b <==> padded || ZeroBetween(cells, from, to)
  {
    if !padded && a == b {
      forall i | from <= i < to
        ensures cells[i] == 0
      {
        assert a[i] == b[i];
      }
    }
  }

  lemma PutAgrees(limit: int, f: Buffer, at: nat, bytes: seq<Byte>)
    requires Fits(limit, f) && at + |bytes| <= limit
    ensures var (g, end) := (Put(limit, f, at, bytes), at + |bytes|);
      var plain := Overwritten(Padded(Content(f), end), at, bytes);
      && g.len <= |g.cells| && |Content(g)| == |plain|
      && (Content(g) == plain <==> end > |f.cells| || ZeroBetween(f.cells, f.len, at))
  {
    var grown, end := Grown(limit, f, at + |bytes|), at + |bytes|;
    GrownGrewWell(limit, f, end);
    GrownIsPadded(limit, f, at, end);
    OverwrittenPrefix(grown.cells, grown.len, at, bytes);
    OverwrittenSame(Content(grown), Padded(Content(f), end), at, bytes);
  }

  ghost predicate StepAgrees(limit: int, f: Buffer, p: Plain, op: Op)
    requires Fits(limit, f)
  {
    var ((g, out), (q, answer)) := (BufferStep(limit, f, op), PlainStep(limit, p, op));
    && Fits(limit, g) && out == answer && g.off == q.off && g.len == |q.content|
    && (Agrees(g, q) <==> Harmless(limit, f, op))
  }

  lemma HarmlessPut(limit: int, f: Buffer, op: Op, at: nat, bytes: seq<Byte>)
    requires Fits(limit, f) && at + |bytes| <= limit
    requires op == WriteAt(bytes, at) || (op == Write(bytes) && at == f.off)
    ensures Harmless(limit, f, op) <==> at + |bytes| > |f.cells| || ZeroBetween(f.cells, f.len, at)
  {
    assert at + |bytes| <= |f.cells| ==> ExposedEnd(limit, f, op) == at;
  }

  lemma WriteAgrees(limit: int, f: Buffer, p: Plain, bytes: seq<Byte>)
    requires Fits(limit, f) && Agrees(f, p)
    ensures StepAgrees(limit, f, p, Write(bytes))
  {
    if f.off + |bytes| <= limit {
      HarmlessPut(limit, f, Write(bytes), f.off, bytes);
      PutAgrees(limit, f, f.off, bytes);
      PutGrewWell(limit, f, f.off, bytes);
    }
  }

  lemma WriteAtAgrees(limit: int, f: Buffer, p: Plain, bytes: seq<Byte>, at: int)
    requires Fits(limit, f) && Agrees(f, p)
    ensures StepAgrees(limit, f, p, WriteAt(bytes, at))
  {
    if 0 <= at && at + |bytes| <= limit {
      HarmlessPut(limit, f, WriteAt(bytes, at), at, bytes);
      PutAgrees(limit, f, at, bytes);
      PutGrewWell(limit, f, at, bytes);
    }
  }

  lemma TruncateAgrees(limit: int, f: Buffer, p: Plain, size: int)
    requires Fits(limit, f) && Agrees(f, p)
    ensures StepAgrees(limit, f, p, Truncate(size))
  {
  }

  lemma OthersAgree(limit: int, f: Buffer, p: Plain, op: Op)
    requires Fits(limit, f) && Agrees(f, p) && (op.Read? || op.ReadAt? || op.Seek?)
    ensures StepAgrees(limit, f, p, op)
  {
  }

  /** From the same content and position, every operation answers as on the plain file, and leaves
      the same content if and only if what it exposes is zero. */
  lemma StepAgreesExactly(limit: int, f: Buffer, p: Plain, op: Op)
    requires Fits(limit, f) && Agrees(f, p)
    ensures StepAgrees(limit, f, p, op)
  {
    match op
    case Write(bytes) => WriteAgrees(limit, f, p, bytes);
    case WriteAt(bytes, at) => WriteAtAgrees(limit, f, p, bytes, at);
    case Truncate(size) => TruncateAgrees(limit, f, p, size);
    case Read(_) => OthersAgree(limit, f, p, op);
    case ReadAt(_, _) => OthersAgree(limit, f, p, op);
    case Seek(_, _) => OthersAgree(limit, f, p, op);
  }

  /** Every answer and every content along the run is that of the plain file. */
  ghost predicate AgreesThroughout(limit: int, f: Buffer, p: Plain, ops: seq<Op>)
    requires Fits(limit, f)
    decreases |ops|
  {
    Agrees(f, p) &&
    (ops != [] ==>
      var ((g, out), (q, answer)) := (BufferStep(limit, f, ops[0]), PlainStep(limit, p, ops[0]));
      out == answer && Fits(limit, g) && AgreesThroughout(limit, g, q, ops[1..]))
  }

  ghost predicate HarmlessThroughout(limit: int, f: Buffer, ops: seq<Op>)
    requires Fits(limit, f)
    decreases |ops|
  {
    ops != [] ==>
      var g := BufferStep(limit, f, ops[0]).0;
      Harmless(limit, f, ops[0]) && Fits(limit, g) && HarmlessThroughout(limit, g, ops[1..])
  }

  lemma {:induction false} RunAgreesExactly(limit: int, f: Buffer, p: Plain, ops: seq<Op>)
    requires Fits(limit, f) && Agrees(f, p)
    ensures AgreesThroughout(limit, f, p, ops) <==> HarmlessThroughout(limit, f, ops)
    decreases |ops|
  {
    if ops != [] {
      StepAgreesExactly(limit, f, p, ops[0]);
      if Harmless(limit, f, ops[0]) {
        RunAgreesExactly(limit, BufferStep(limit, f, ops[0]).0, PlainStep(limit, p, ops[0]).0, ops[1..]);
      }
    }
  }

  // ---- Runs that never look at stale bytes --------------------------------------------------------

  predicate Shrinks(p: Plain, op: Op) {
    op.Truncate? && 0 <= op.size < |p.content|
  }

  /** The operation leaves a gap for the file to fill. */
  predicate Gaps(limit: int, p: Plain, op: Op) {
    match op
    case Write(bytes) => p.off > |p.content| && p.off + |bytes| <= limit
    case WriteAt(bytes, at) => at > |p.content| && at + |bytes| <= limit
    case Truncate(size) => |p.content| < size <= limit
    case _ => false
  }

  /** Seen on the plain file alone: no gap comes after a shrinking truncate. */
  predicate NoGapAfterShrink(limit: int, p: Plain, ops: seq<Op>, shrunk: bool)
    decreases |ops|
  {
    ops != [] ==>
      && !(shrunk && Gaps(limit, p, ops[0]))
      && NoGapAfterShrink(limit, PlainStep(limit, p, ops[0]).0, ops[1..], shrunk || Shrinks(p, ops[0]))
  }

  lemma PutKeepsTail(limit: int, f: Buffer, at: nat, bytes: seq<Byte>)
    requires Fits(limit, f) && at + |bytes| <= limit && ZeroBetween(f.cells, f.len, |f.cells|)
    ensures var g := Put(limit, f, at, bytes);
      ZeroBetween(g.cells, g.len, |g.cells|)
  {
  }

  lemma StepKeepsTail(limit: int, f: Buffer, p: Plain, op: Op)
    requires Fits(limit, f) && Agrees(f, p) && ZeroBetween(f.cells, f.len, |f.cells|) && !Shrinks(p, op)
    ensures var g := BufferStep(limit, f, op).0;
      ZeroBetween(g.cells, g.len, |g.cells|)
  {
    if op.Write? && f.off + |op.bytes| <= limit {
      PutKeepsTail(limit, f, f.off, op.bytes);
    } else if op.WriteAt? && 0 <= op.at && op.at + |op.bytes| <= limit {
      PutKeepsTail(limit, f, op.at, op.bytes);
    } else if op.Truncate? && 0 <= op.size <= limit {
      GrownGrewWell(limit, f, op.size);
    }
  }

  lemma {:induction false} CleanRunIsHarmless(limit: int, f: Buffer, p: Plain, ops: seq<Op>, shrunk: bool)
    requires Fits(limit, f) && Agrees(f, p) && (shrunk || ZeroBetween(f.cells, f.len, |f.cells|))
    requires NoGapAfterShrink(limit, p, ops, shrunk)
    ensures HarmlessThroughout(limit, f, ops)
    decreases |ops|
  {
    if ops != [] {
      StepAgreesExactly(limit, f, p, ops[0]);
      assert Harmless(limit, f, ops[0]);
      if !shrunk && !Shrinks(p, ops[0]) {
        StepKeepsTail(limit, f, p, ops[0]);
      }
      CleanRunIsHarmless(limit, BufferStep(limit, f, ops[0]).0, PlainStep(limit, p, ops[0]).0, ops[1..],
                         shrunk || Shrinks(p, ops[0]));
    }
  }

  /** A run with no gap after a shrinking truncate cannot be told from one on the plain file. */
  lemma CleanRunAgrees(limit: int, ops: seq<Op>)
    requires NoGapAfterShrink(limit, Plain([], 0), ops, false)
    ensures AgreesThroughout(limit, NEW_FILE, Plain([], 0), ops)
  {
    CleanRunIsHarmless(limit, NEW_FILE, Plain([], 0), ops, false);
    RunAgreesExactly(limit, NEW_FILE, Plain([], 0), ops);
  }

  /** A shrink and a growth bring an overwritten byte back. */
  lemma StaleByteComesBack(b: Byte)
    requires b != 0
    ensures !AgreesThroughout(10, NEW_FILE, Plain([], 0), [Write([b]), Truncate(0), Truncate(1)])
  {
    var ops := [Write([b]), Truncate(0), Truncate(1)];
    var f := BufferStep(10, NEW_FILE, ops[0]).0;
    assert f.cells == [b] && f.len == 1;
    assert ops[1..] == [Truncate(0), Truncate(1)] && ops[1..][1..] == [Truncate(1)];
    var g := BufferStep(10, f, Truncate(0)).0;
    assert g.cells == [b] && g.len == 0;
    assert ExposedEnd(10, g, Truncate(1)) == 1;
    assert g.cells[0] != 0;
    assert !Harmless(10, g, Truncate(1));
    assert !HarmlessThroughout(10, g, [Truncate(1)]);
    assert !HarmlessThroughout(10, f, [Truncate(0), Truncate(1)]);
    RunAgreesExactly(10, NEW_FILE, Plain([], 0), ops);
  }
}
