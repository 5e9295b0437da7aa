/**
 The byte ring of src/ringbuffer.c as a value: the memory block and the two heads,
 given as offsets from its start, and the number of bytes in use.
 */
module Rings {
  import opened Common

  newtype byte = x: int | 0 <= x < 256

  datatype Ring = Ring(root: seq<byte>, rh: nat, wh: nat, nbytes: nat) {
    const size: nat := |root|
  }

  function Min(a: nat, b: nat): nat {
    if a < b then a else b
  }

  /** `s` with `x` copied over it at offset `at`. */
  function Patch(s: seq<byte>, at: nat, x: seq<byte>): (r: seq<byte>)
    requires at + |x| <= |s|
    ensures |r| == |s|
  {
    s[..at] + x + s[at + |x|..]
  }

  lemma PatchAt(s: seq<byte>, at: nat, x: seq<byte>)
    requires at + |x| <= |s|
    ensures forall i :: 0 <= i < |s| ==> Patch(s, at, x)[i] == if at <= i < at + |x| then x[i - at] else s[i]
  {
  }

  // ---------------------------------------------------------------- meaning

  /** Both heads are inside the block and `nbytes` apart, going round.  Empty and full rings have equal heads. */
  ghost predicate Valid(b: Ring) {
    if b.size == 0 then b.rh == 0 && b.wh == 0 && b.nbytes == 0
    else
      && b.rh < b.size && b.nbytes <= b.size
      && b.wh == if b.rh + b.nbytes < b.size then b.rh + b.nbytes else b.rh + b.nbytes - b.size
  }

  /** The whole block, read once around from the read head. */
  ghost function Tape(b: Ring): (t: seq<byte>)
    requires Valid(b)
    ensures |t| == b.size
  {
    b.root[b.rh..] + b.root[..b.rh]
  }

  /** The byte queue a ring stands for. */
  ghost function Contents(b: Ring): (c: seq<byte>)
    requires Valid(b)
    ensures |c| == b.nbytes
  {
    Tape(b)[..b.nbytes]
  }

  /** The unused bytes, in the order in which they will be written. */
  ghost function Free(b: Ring): (f: seq<byte>)
    requires Valid(b)
    ensures |f| == b.size - b.nbytes
  {
    Tape(b)[b.nbytes..]
  }

  predicate Full(b: Ring) {
    b.nbytes == b.size
  }

  // ---------------------------------------------------------------- write

  /** Store `x` (or, for None, nothing) at the write head and advance it by `n`. */
  function Put(b: Ring, x: Option<seq<byte>>, n: nat): (r: Ring)
    requires b.wh + n <= b.size && (x.Some? ==> |x.value| == n)
    ensures r.size == b.size
  {
    var wh := b.wh + n;
    Ring(if x.Some? then Patch(b.root, b.wh, x.value) else b.root, b.rh, if wh == b.size then 0 else wh, b.nbytes + n)
  }

  function Part(src: Option<seq<byte>>, from: nat, to: nat): (r: Option<seq<byte>>)
    requires from <= to && (src.Some? ==> to <= |src.value|)
    ensures r.Some? ==> |r.value| == to - from
  {
    if src.Some? then Some(src.value[from..to]) else None
  }

  /** ringbuffer_write: up to the end of the block, then up to the read head. */
  function Write(b: Ring, src: Option<seq<byte>>, nb: nat): (r: (Ring, nat))
    requires b.rh <= b.size && b.wh <= b.size && (src.Some? ==> nb <= |src.value|)
  {
    if b.wh >= b.rh then
      var n := Min(b.size - b.wh, nb);
      var b1 := Put(b, Part(src, 0, n), n);
      if n == nb then (b1, n)
      else
        var m := Min(b1.rh - b1.wh, nb - n);
        (Put(b1, Part(src, n, n + m), m), n + m)
    else
      var n := Min(b.rh - b.wh, nb);
      (Put(b, Part(src, 0, n), n), n)
  }

  /** One contiguous store changes the tape at the end of the contents and nowhere else. */
  lemma PutOnTape(b: Ring, x: Option<seq<byte>>, n: nat)
    requires Valid(b) && b.nbytes + n <= b.size && b.wh + n <= b.size && (b.wh < b.rh ==> b.wh + n <= b.rh)
    requires x.Some? ==> |x.value| == n
    ensures Valid(Put(b, x, n))
    ensures Tape(Put(b, x, n)) == if x.Some? then Patch(Tape(b), b.nbytes, x.value) else Tape(b)
  {
    hide Patch;
    if x.Some? {
      Around(b.root, b.rh, b.wh, x.value);
      PatchNone(Tape(b), 0, b.nbytes, x.value);
    }
  }

  /** A copy that does not cross a cut commutes with turning a block around at the cut. */
  lemma Around(root: seq<byte>, cut: nat, at: nat, x: seq<byte>)
    requires cut <= |root| && at + |x| <= |root| && (at < cut ==> at + |x| <= cut)
    ensures var k := if at < cut then at + |root| - cut else at - cut;
            Patch(root, at, x)[cut..] + Patch(root, at, x)[..cut] == Patch(root[cut..] + root[..cut], k, x)
  {
    hide Patch;
    var k := if at < cut then at + |root| - cut else at - cut;
    var p, t := Patch(root, at, x), root[cut..] + root[..cut];
    var u, q := p[cut..] + p[..cut], Patch(t, k, x);
    PatchAt(root, at, x);
    PatchAt(t, k, x);
    forall i | 0 <= i < |t| ensures u[i] == q[i] {
      var j := if i < |root| - cut then cut + i else i - (|root| - cut);
      assert u[i] == p[j] && t[i] == root[j];
    }
  }

  /** Copying nothing is the same everywhere. */
  lemma PatchNone(t: seq<byte>, i: nat, j: nat, x: seq<byte>)
    requires i <= |t| && j <= |t|
    ensures x == [] ==> Patch(t, i, x) == Patch(t, j, x)
  {
  }

  lemma PatchGrows(t: seq<byte>, k: nat, x: seq<byte>)
    requires k + |x| <= |t|
    ensures Patch(t, k, x)[..k + |x|] == t[..k] + x && Patch(t, k, x)[k + |x|..] == t[k + |x|..]
  {
  }

  /** What a write adds to the contents: the bytes of `src`, or what the free space already held. */
  ghost function Added(b: Ring, src: Option<seq<byte>>, n: nat): (r: seq<byte>)
    requires Valid(b) && n <= b.size - b.nbytes && (src.Some? ==> n <= |src.value|)
    ensures |r| == n
  {
    if src.Some? then src.value[..n] else Free(b)[..n]
  }

  /** One contiguous store appends to the contents and shortens the free space. */
  lemma PutAppends(b: Ring, x: Option<seq<byte>>, n: nat)
    requires Valid(b) && b.nbytes + n <= b.size && b.wh + n <= b.size && (b.wh < b.rh ==> b.wh + n <= b.rh)
    requires x.Some? ==> |x.value| == n
    ensures var r := Put(b, x, n);
            && Valid(r) && r.rh == b.rh && r.size == b.size && r.nbytes == b.nbytes + n
            && r.wh == (if b.wh + n == b.size then 0 else b.wh + n) && (x.None? ==> r.root == b.root)
            && Contents(r) == Contents(b) + Added(b, x, n) && Free(r) == Free(b)[n..]
  {
    hide Patch, Tape;
    PutOnTape(b, x, n);
    var t, k := Tape(b), b.nbytes;
    if x.Some? {
      PatchGrows(t, k, x.value);
      assert x.value[..n] == x.value;
    } else {
      assert t[..k + n] == t[..k] + t[k..][..n];
    }
    assert t[k + n..] == t[k..][n..];
  }

  /** Two stores in a row add up. */
  lemma AddedTwice(b: Ring, b1: Ring, src: Option<seq<byte>>, n: nat, m: nat)
    requires Valid(b) && Valid(b1) && n + m <= b.size - b.nbytes && (src.Some? ==> n + m <= |src.value|)
    requires b1.size == b.size && b1.nbytes == b.nbytes + n && Free(b1) == Free(b)[n..]
    ensures Added(b, Part(src, 0, n), n) + Added(b1, Part(src, n, n + m), m) == Added(b, src, n + m)
    ensures Free(b1)[m..] == Free(b)[n + m..]
  {
    hide Free;
  }

  lemma AddedOnce(b: Ring, src: Option<seq<byte>>, n: nat)
    requires Valid(b) && n <= b.size - b.nbytes && (src.Some? ==> n <= |src.value|)
    ensures Added(b, Part(src, 0, n), n) == Added(b, src, n)
  {
  }

  /** The two stores of a write that wraps. */
  function PutTwice(b: Ring, src: Option<seq<byte>>, n: nat, m: nat): Ring
    requires b.wh + n == b.size && m <= b.size && (src.Some? ==> n + m <= |src.value|)
  {
    Put(Put(b, Part(src, 0, n), n), Part(src, n, n + m), m)
  }

  /** The second store, behind a first one that has reached the end of the block. */
  lemma PutAgain(b: Ring, b1: Ring, src: Option<seq<byte>>, n: nat, m: nat)
    requires Valid(b) && Valid(b1) && b1.size == b.size && b1.nbytes == b.nbytes + n && b1.wh + m <= b1.size
    requires n + m <= b.size - b.nbytes && (b1.wh < b1.rh ==> b1.wh + m <= b1.rh)
    requires src.Some? ==> n + m <= |src.value|
    requires Contents(b1) == Contents(b) + Added(b, Part(src, 0, n), n) && Free(b1) == Free(b)[n..]
    ensures var r := Put(b1, Part(src, n, n + m), m);
            && Valid(r) && r.rh == b1.rh && r.size == b.size && (src.None? ==> r.root == b1.root)
            && Contents(r) == Contents(b) + Added(b, src, n + m) && Free(r) == Free(b)[n + m..]
  {
    hide Put, Contents, Free, Added, Valid;
    PutAppends(b1, Part(src, n, n + m), m);
    AddedTwice(b, b1, src, n, m);
    assert Contents(b) + Added(b, Part(src, 0, n), n) + Added(b1, Part(src, n, n + m), m) ==
           Contents(b) + (Added(b, Part(src, 0, n), n) + Added(b1, Part(src, n, n + m), m));
  }

  lemma PutTwiceAppends(b: Ring, src: Option<seq<byte>>, n: nat, m: nat)
    requires Valid(b) && b.rh <= b.wh && (!Full(b) || b.size == 0) && b.wh + n == b.size && m <= b.rh
      && (src.Some? ==> n + m <= |src.value|)
    ensures var r := PutTwice(b, src, n, m);
            && n + m <= b.size - b.nbytes && Valid(r) && r.rh == b.rh && r.size == b.size
            && Contents(r) == Contents(b) + Added(b, src, n + m) && Free(r) == Free(b)[n + m..]
            && (src.None? ==> r.root == b.root)
  {
    hide Put, Contents, Free, Added, Valid;
    ValidHeads(b);
    PutAppends(b, Part(src, 0, n), n);
    PutAgain(b, Put(b, Part(src, 0, n), n), src, n, m);
  }

  /** On a ring that is not full, write appends exactly the first min(nb, free) bytes. */
  lemma {:induction false} WriteAppends(b: Ring, src: Option<seq<byte>>, nb: nat)
    requires Valid(b) && (src.Some? ==> nb <= |src.value|)
    requires !Full(b) || nb == 0 || b.size == 0
    ensures var (r, n) := Write(b, src, nb);
            && n == Min(nb, b.size - b.nbytes) && Valid(r) && r.rh == b.rh && r.size == b.size
            && Contents(r) == Contents(b) + Added(b, src, n) && Free(r) == Free(b)[n..]
            && (src.None? ==> r.root == b.root)
  {
    hide Put, Patch, Contents, Free, Added, Valid, Write, PutTwice;
    ValidHeads(b);
    WriteIs(b, src, nb);
    var n := Min(if b.wh >= b.rh then b.size - b.wh else b.rh - b.wh, nb);
    if b.wh >= b.rh && n != nb {
      PutTwiceAppends(b, src, n, Min(b.rh, nb - n));
    } else {
      PutAppends(b, Part(src, 0, n), n);
      AddedOnce(b, src, n);
    }
  }

  /** Write as one store or two. */
  lemma WriteIs(b: Ring, src: Option<seq<byte>>, nb: nat)
    requires b.rh <= b.size && b.wh <= b.size && (src.Some? ==> nb <= |src.value|)
    ensures var n := Min(if b.wh >= b.rh then b.size - b.wh else b.rh - b.wh, nb);
            Write(b, src, nb) == if b.wh >= b.rh && n != nb
              then (PutTwice(b, src, n, Min(b.rh, nb - n)), n + Min(b.rh, nb - n))
                                 else (Put(b, Part(src, 0, n), n), n)
  {
    hide Patch, Part;
  }

  lemma ValidHeads(b: Ring)
    requires Valid(b)
    ensures b.rh <= b.size && b.wh <= b.size && b.nbytes <= b.size
    ensures b.wh < b.rh ==> b.rh - b.wh == b.size - b.nbytes
    ensures b.wh >= b.rh && !Full(b) ==> b.size - b.wh + b.rh == b.size - b.nbytes
    ensures b.wh >= b.rh && b.nbytes > 0 && Full(b) ==> b.wh == b.rh
    ensures 0 < b.size ==> b.rh < b.size && b.wh < b.size
  {
  }

  lemma PutHeads(b: Ring, x: Option<seq<byte>>, n: nat)
    requires b.wh + n <= b.size && (x.Some? ==> |x.value| == n)
    ensures var r := Put(b, x, n); r.rh == b.rh && r.wh == (if b.wh + n == b.size then 0 else b.wh + n)
  {
  }

  /** The heads of a full ring are equal, as in an empty one: write takes it for empty, and runs over the contents. */
  lemma WriteMeetsIff(b: Ring, src: Option<seq<byte>>, nb: nat)
    requires Valid(b) && (src.Some? ==> nb <= |src.value|)
    ensures (var (r, n) := Write(b, src, nb); n == Min(nb, b.size - b.nbytes) && Valid(r)) <==>
            !Full(b) || nb == 0 || b.size == 0
  {
    if !Full(b) || nb == 0 || b.size == 0 {
      WriteAppends(b, src, nb);
    }
  }

  // ---------------------------------------------------------------- read, peek, peek_at

  /** Take `n` bytes at the read head and advance it. */
  function Get(b: Ring, n: nat): (r: (Ring, seq<byte>))
    requires b.rh + n <= b.size && n <= b.nbytes
    ensures |r.1| == n && r.0.size == b.size
  {
    var rh := b.rh + n;
    (Ring(b.root, if rh == b.size then 0 else rh, b.wh, b.nbytes - n), b.root[b.rh..b.rh + n])
  }

  function MaybeReset(b: Ring): Ring {
    if b.nbytes == 0 then Ring(b.root, 0, 0, 0) else b
  }

  /** ringbuffer_read */
  function Read(b: Ring, nb: nat): (r: (Ring, seq<byte>))
    requires Valid(b)
  {
    if b.nbytes == 0 then (b, [])
    else if b.rh >= b.wh then
      var n := Min(b.size - b.rh, nb);
      var (b1, x) := Get(b, n);
      if n == nb then (MaybeReset(b1), x)
      else
        var m := Min(b1.wh - b1.rh, nb - n);
        var (b2, y) := Get(b1, m);
        (MaybeReset(b2), x + y)
    else
      var n := Min(b.wh - b.rh, nb);
      var (b1, x) := Get(b, n);
      (MaybeReset(b1), x)
  }

  /** Where a read leaves the heads: one that takes everything starts over, with the whole block in one piece. */
  lemma ReadHeads(b: Ring, nb: nat)
    requires Valid(b) && b.nbytes > 0
    ensures var r := Read(b, nb).0;
            if nb >= b.nbytes then r.rh == 0 && r.wh == 0 && GetIov(r, WRITE) == (Iov(0, b.size), Iov(0, 0))
            else r.wh == b.wh && r.rh == if b.rh + nb < b.size then b.rh + nb else b.rh + nb - b.size
  {
  }

  /** One contiguous fetch takes a prefix off the contents. */
  lemma GetTakes(b: Ring, n: nat)
    requires Valid(b) && b.rh + n <= b.size && n <= b.nbytes && 0 < b.size
    ensures var (r, x) := Get(b, n);
            && Valid(r) && r.root == b.root && r.wh == b.wh && r.nbytes == b.nbytes - n
            && r.rh == (if b.rh + n == b.size then 0 else b.rh + n)
            && x == Contents(b)[..n] && Contents(r) == Contents(b)[n..]
  {
    var (r, x) := Get(b, n);
    assert forall i :: 0 <= i < n ==> x[i] == Tape(b)[i];
    assert forall i :: 0 <= i < r.nbytes ==> Tape(r)[i] == Tape(b)[n + i];
  }

  lemma ResetKeeps(b: Ring)
    requires Valid(b)
    ensures Valid(MaybeReset(b)) && MaybeReset(b).root == b.root && Contents(MaybeReset(b)) == Contents(b)
  {
  }

  /** read removes and returns exactly the first min(nb, nbytes) bytes, and changes no byte of the block. */
  lemma {:induction false} ReadTakes(b: Ring, nb: nat)
    requires Valid(b)
    ensures var (r, x) := Read(b, nb);
            && Valid(r) && r.root == b.root && x == Contents(b)[..Min(nb, b.nbytes)]
              && Contents(r) == Contents(b)[Min(nb, b.nbytes)..]
  {
    hide Get, MaybeReset, Contents;
    if b.nbytes > 0 {
      var n := Min(if b.rh >= b.wh then b.size - b.rh else b.wh - b.rh, nb);
      GetTakes(b, n);
      var b1 := Get(b, n).0;
      ResetKeeps(b1);
      if b.rh >= b.wh && n != nb {
        var m := Min(b1.wh - b1.rh, nb - n);
        GetTakes(b1, m);
        ResetKeeps(Get(b1, m).0);
      }
    }
  }

  /** ringbuffer_peek: a read of a copy. */
  function Peek(b: Ring, nb: nat): seq<byte>
    requires Valid(b)
  {
    Read(b, nb).1
  }

  /** ringbuffer_peek_at: None stands for the error result. */
  function PeekAt(b: Ring, offset: nat, nb: nat): Option<seq<byte>>
    requires Valid(b)
  {
    ReadTakes(b, offset);
    var (copy, skipped) := Read(b, offset);
    if |skipped| != offset then None else Some(Read(copy, nb).1)
  }

  /** Peeking sees the same bytes a read would return, at any offset inside the contents. */
  lemma {:induction false} PeekSees(b: Ring, offset: nat, nb: nat)
    requires Valid(b)
    ensures Peek(b, nb) == Contents(b)[..Min(nb, b.nbytes)]
    ensures PeekAt(b, offset, nb) ==
            if offset <= b.nbytes then Some(Contents(b)[offset..offset + Min(nb, b.nbytes - offset)]) else None
  {
    hide Read, Contents;
    ReadTakes(b, nb);
    ReadTakes(b, offset);
    ReadTakes(Read(b, offset).0, nb);
    var c := Contents(b);
    if offset <= b.nbytes {
      var k := Min(nb, b.nbytes - offset);
      assert c[offset..][..k] == c[offset..offset + k];
    }
  }

  // ---------------------------------------------------------------- update

  datatype Direction = READ | WRITE

  /** memcpy into the block; None if it would run outside. */
  function Poke(root: seq<byte>, at: int, x: seq<byte>): (r: Option<seq<byte>>) {
    if 0 <= at && at + |x| <= |root| then Some(Patch(root, at, x)) else None
  }

  /** ringbuffer_update: the new block and the number of bytes replaced; None if a copy would run outside the block. */
  function Update(b: Ring, dir: Direction, src: seq<byte>): (r: Option<(Ring, nat)>)
    requires Valid(b)
  {
    var nb := |src|;
    if dir == READ then
      if b.rh <= b.wh then
        var nw := Min(nb, b.nbytes);
        var p := Poke(b.root, b.rh, src[..nw]);
        if p.None? then None else Some((b.(root := p.value), nw))
      else
        var nw := Min(nb, b.size - b.rh);
        var root := Patch(b.root, b.rh, src[..nw]);
        var nw' := Min(nb - nw, b.wh);
        Some((b.(root := if nb - nw != 0 then Patch(root, 0, src[nw..nw + nw']) else root), nw + nw'))
    else
      if b.wh >= b.rh then
        var nw := Min(nb, b.nbytes);
        var p := Poke(b.root, b.wh - nw, src[..nw]);
        if p.None? then None else Some((b.(root := p.value), nw))
      else
        var n := Min(nb, b.nbytes);
        var nw := Min(n, b.wh);
        var root := Patch(b.root, b.wh - nw, src[n - nw..n]);
        var nw' := Min(n - nw, b.size - b.rh);
        Some((b.(root := if n - nw != 0 then Patch(root, b.size - nw', src[..nw']) else root), nw + nw'))
  }

  /** Whether the single copy of an unwrapped update stays inside the block. */
  predicate UpdateFits(b: Ring, dir: Direction, nb: nat) {
    !Full(b) || (if dir == READ then b.rh + Min(nb, b.nbytes) <= b.size else Min(nb, b.nbytes) <= b.wh)
  }

  /** The contents with the first or the last bytes replaced. */
  ghost function Replaced(c: seq<byte>, dir: Direction, src: seq<byte>): (r: seq<byte>)
    ensures |r| == |c|
  {
    var n := Min(|src|, |c|);
    if dir == READ then src[..n] + c[n..] else c[..|c| - n] + src[..n]
  }

  /** A copy inside the block that does not cross the read head is a copy inside the tape. */
  lemma PatchOnTape(b: Ring, at: nat, x: seq<byte>)
    requires Valid(b) && at + |x| <= b.size && (at < b.rh ==> at + |x| <= b.rh)
    ensures var k := if at < b.rh then at + b.size - b.rh else at - b.rh;
            && k + |x| <= b.size && Valid(b.(root := Patch(b.root, at, x)))
            && Tape(b.(root := Patch(b.root, at, x))) == Patch(Tape(b), k, x)
  {
    hide Patch;
    Around(b.root, b.rh, at, x);
  }

  /** Two adjacent copies are one. */
  lemma PatchTwice(t: seq<byte>, k: nat, x: seq<byte>, y: seq<byte>)
    requires k + |x| + |y| <= |t|
    ensures Patch(Patch(t, k, x), k + |x|, y) == Patch(t, k, x + y)
    ensures Patch(Patch(t, k + |x|, y), k, x) == Patch(t, k, x + y)
  {
  }

  /** Replacing tape bytes at either end of the contents. */
  lemma PatchReplaces(b: Ring, r: Ring, dir: Direction, src: seq<byte>)
    requires Valid(b) && Valid(r) && r.size == b.size && r.nbytes == b.nbytes
    requires var n := Min(|src|, b.nbytes);
             Tape(r) == Patch(Tape(b), if dir == READ then 0 else b.nbytes - n, src[..n])
    ensures Contents(r) == Replaced(Contents(b), dir, src) && Free(r) == Free(b)
  {
    hide Patch, Tape;
    var t, n := Tape(b), Min(|src|, b.nbytes);
    var k := if dir == READ then 0 else b.nbytes - n;
    PatchKeeps(t, k, src[..n], b.nbytes);
    assert src[..n][..n] == src[..n];
  }

  lemma PatchKeeps(t: seq<byte>, k: nat, x: seq<byte>, m: nat)
    requires k + |x| <= m <= |t|
    ensures Patch(t, k, x)[..m] == t[..m][..k] + x + t[..m][k + |x|..] && Patch(t, k, x)[m..] == t[m..]
  {
  }

  lemma {:induction false} UpdateUnwrapped(b: Ring, dir: Direction, src: seq<byte>)
    requires Valid(b) && b.rh <= b.wh
    ensures Update(b, dir, src).Some? <==> UpdateFits(b, dir, |src|)
    ensures Update(b, dir, src).Some? ==>
              var (r, n) := Update(b, dir, src).value;
              && n == Min(|src|, b.nbytes) && Valid(r) && r == b.(root := r.root) && r.size == b.size
              && Contents(r) == Replaced(Contents(b), dir, src) && Free(r) == Free(b)
  {
    hide Tape, Contents, Free, Replaced, Patch;
    var n := Min(|src|, b.nbytes);
    if UpdateFits(b, dir, |src|) {
      var at := if dir == READ then b.rh else b.wh - n;
      PatchOnTape(b, at, src[..n]);
      PatchNone(Tape(b), 0, b.nbytes, src[..n]);
      PatchReplaces(b, b.(root := Patch(b.root, at, src[..n])), dir, src);
    }
  }

  /** A wrapped update through the read head: first the end of the block, then its start. */
  lemma {:induction false} UpdateWrappedRead(b: Ring, src: seq<byte>)
    requires Valid(b) && b.rh > b.wh
    ensures Update(b, READ, src).Some?
    ensures var (r, n) := Update(b, READ, src).value;
            && n == Min(|src|, b.nbytes) && Valid(r) && r == b.(root := r.root) && r.size == b.size
            && Contents(r) == Replaced(Contents(b), READ, src) && Free(r) == Free(b)
  {
    hide Tape, Contents, Free, Replaced, Patch, Update;
    UpdateReadIs(b, src);
    var n, nw := Min(|src|, b.nbytes), Min(|src|, b.size - b.rh);
    var x := src[..nw];
    PatchOnTape(b, b.rh, x);
    var b1 := b.(root := Patch(b.root, b.rh, x));
    if |src| != nw {
      var y := src[nw..n];
      PatchOnTape(b1, 0, y);
      PatchTwice(Tape(b), 0, x, y);
      assert x + y == src[..n];
      PatchReplaces(b, b1.(root := Patch(b1.root, 0, y)), READ, src);
    } else {
      PatchReplaces(b, b1, READ, src);
    }
  }

  lemma UpdateReadIs(b: Ring, src: seq<byte>)
    requires Valid(b) && b.rh > b.wh
    ensures var n, nw := Min(|src|, b.nbytes), Min(|src|, b.size - b.rh);
            && nw <= n
            && Update(b, READ, src) ==
               Some((b.(root := if |src| != nw then Patch(Patch(b.root, b.rh, src[..nw]), 0, src[nw..n])
                                else Patch(b.root, b.rh, src[..nw])), n))
  {
    hide Patch;
  }

  lemma UpdateWriteIs(b: Ring, src: seq<byte>)
    requires Valid(b) && b.rh > b.wh
    ensures var n := Min(|src|, b.nbytes); var nw := Min(n, b.wh);
            && n - nw <= b.size - b.rh
            && Update(b, WRITE, src) ==
               Some((b.(root := if n != nw
                                then Patch(Patch(b.root, b.wh - nw, src[n - nw..n]), b.size - (n - nw), src[..n - nw])
                                else Patch(b.root, b.wh - nw, src[n - nw..n])), n))
  {
    hide Patch;
  }

  /** A wrapped update through the write head: first the start of the block, then its end. */
  lemma {:induction false} UpdateWrappedWrite(b: Ring, src: seq<byte>)
    requires Valid(b) && b.rh > b.wh
    ensures Update(b, WRITE, src).Some?
    ensures var (r, n) := Update(b, WRITE, src).value;
            && n == Min(|src|, b.nbytes) && Valid(r) && r == b.(root := r.root) && r.size == b.size
            && Contents(r) == Replaced(Contents(b), WRITE, src) && Free(r) == Free(b)
  {
    hide Tape, Contents, Free, Replaced, Patch, Update;
    UpdateWriteIs(b, src);
    var n := Min(|src|, b.nbytes);
    var nw := Min(n, b.wh);
    var y := src[n - nw..n];
    PatchOnTape(b, b.wh - nw, y);
    var b1 := b.(root := Patch(b.root, b.wh - nw, y));
    if n != nw {
      UpdateTail(b, b1, src, n);
    } else {
      assert y == src[..n];
      PatchReplaces(b, b1, WRITE, src);
    }
  }

  /** The second copy of a wrapped update through the write head. */
  lemma UpdateTail(b: Ring, b1: Ring, src: seq<byte>, n: nat)
    requires Valid(b) && b.rh > b.wh && n == Min(|src|, b.nbytes) && b.wh < n
    requires b1 == b.(root := Patch(b.root, 0, src[n - b.wh..n]))
    ensures var r := b1.(root := Patch(b1.root, b.size - (n - b.wh), src[..n - b.wh]));
            && Valid(r) && r.size == b.size
            && Contents(r) == Replaced(Contents(b), WRITE, src) && Free(r) == Free(b)
  {
    hide Tape, Contents, Free, Replaced, Patch;
    var x, y := src[..n - b.wh], src[n - b.wh..n];
    PatchOnTape(b, 0, y);
    PatchOnTape(b1, b.size - |x|, x);
    PatchTwice(Tape(b), b.nbytes - n, x, y);
    assert x + y == src[..n];
    PatchReplaces(b, b1.(root := Patch(b1.root, b.size - |x|, x)), WRITE, src);
  }

  /**
   update replaces exactly the first (READ) or last (WRITE) min(nb, nbytes) bytes of the
   contents, and it stays inside the block exactly when the ring is not full or the
   bytes happen to lie on one side of the heads.
   */
  lemma UpdateReplaces(b: Ring, dir: Direction, src: seq<byte>)
    requires Valid(b)
    ensures Update(b, dir, src).Some? <==> UpdateFits(b, dir, |src|)
    ensures Update(b, dir, src).Some? ==>
              var (r, n) := Update(b, dir, src).value;
              && n == Min(|src|, b.nbytes) && Valid(r) && r == b.(root := r.root) && r.size == b.size
              && Contents(r) == Replaced(Contents(b), dir, src) && Free(r) == Free(b)
  {
    hide Update, Contents, Free, Replaced;
    if b.rh <= b.wh {
      UpdateUnwrapped(b, dir, src);
    } else if dir == READ {
      UpdateWrappedRead(b, src);
    } else {
      UpdateWrappedWrite(b, src);
    }
  }

  // ---------------------------------------------------------------- scatter views

  /** One iovec: an offset into the block and a length. */
  datatype Iov = Iov(base: nat, len: int)

  /** ringbuffer_get_iov */
  function GetIov(b: Ring, dir: Direction): (r: (Iov, Iov)) {
    if dir == READ then
      var chunk := b.size - b.rh;
      if b.rh >= b.wh && b.nbytes > chunk then (Iov(b.rh, chunk), Iov(0, b.nbytes - chunk))
      else (Iov(b.rh, b.nbytes), Iov(0, 0))
    else if b.wh >= b.rh then (Iov(b.wh, b.size - b.wh), Iov(0, b.rh))
    else (Iov(b.wh, b.size - b.nbytes), Iov(0, 0))
  }

  ghost predicate IovInside(b: Ring, v: Iov) {
    0 <= v.len && v.base + v.len <= b.size
  }

  /** The bytes an iovec shows. */
  ghost function View(b: Ring, v: Iov): seq<byte>
    requires IovInside(b, v)
  {
    b.root[v.base..v.base + v.len]
  }

  /** The two segments of the read view are the whole contents. */
  lemma ReadIovShowsAll(b: Ring)
    requires Valid(b)
    ensures var (v, w) := GetIov(b, READ);
            IovInside(b, v) && IovInside(b, w) && View(b, v) + View(b, w) == Contents(b)
  {
    var t, chunk := Tape(b), b.size - b.rh;
    if b.nbytes <= chunk {
      assert t[..b.nbytes] == b.root[b.rh..b.rh + b.nbytes];
    } else {
      assert t[..b.nbytes] == b.root[b.rh..] + b.root[..b.nbytes - chunk];
    }
  }

  /** The two segments of the write view are the whole free space, exactly when the ring is not full. */
  lemma WriteIovShowsAllIff(b: Ring)
    requires Valid(b)
    ensures var (v, w) := GetIov(b, WRITE);
            IovInside(b, v) && IovInside(b, w) && (View(b, v) + View(b, w) == Free(b) <==> !Full(b) || b.size == 0)
  {
    var t := Tape(b);
    if b.wh < b.rh {
      assert t[b.nbytes..] == b.root[b.wh..b.rh];
    } else if !Full(b) {
      assert t[b.nbytes..] == b.root[b.wh..] + b.root[..b.rh];
    }
  }

  /** ringbuffer_is_continous */
  predicate IsContinuous(b: Ring, dir: Direction, nb: nat) {
    if dir == READ then nb <= b.nbytes && !(b.rh >= b.wh && nb > b.size - b.rh)
    else nb <= b.size - b.nbytes && !(b.wh >= b.rh && nb > b.size - b.wh)
  }

  /**
   is_continous says whether nb bytes fit in the first segment; for a full ring it says that nothing can be written.
   */
  lemma ContinuousIsFirstSegment(b: Ring, dir: Direction, nb: nat)
    requires Valid(b)
    ensures dir == READ || !Full(b) ==> (IsContinuous(b, dir, nb) <==> nb <= GetIov(b, dir).0.len)
    ensures dir == WRITE && Full(b) ==> (IsContinuous(b, dir, nb) <==> nb == 0)
  {
  }

  /**
   A new ring of two bytes, filled by one write. One more write overwrites the contents, an
   update at the write end would start in front of the block, and the write view shows the
   contents as free.
   */
  lemma FullRing()
    ensures var r := Write(Ring([0, 0], 0, 0, 0), Some([1, 2]), 2).0;
            && r == Ring([1, 2], 0, 0, 2) && Valid(r) && Full(r)
            && Write(r, Some([3]), 1) == (Ring([3, 2], 0, 1, 3), 1)
            && Update(r, WRITE, [3]) == None
            && GetIov(r, WRITE) == (Iov(0, 2), Iov(0, 0))
  {
    assert [1, 2][0..2] == [1, 2] && [3][0..1] == [3];
    assert Patch([0, 0], 0, [1, 2]) == [1, 2] && Patch([1, 2], 0, [3]) == [3, 2];
  }

  // ---------------------------------------------------------------- growing, and storing through the write view

  /** The size ringbuffer_ensure_capacity allocates: doubled until the wanted bytes fit. */
  function Doubled(newSize: nat, nbytes: nat, want: nat): (r: nat)
    requires newSize > nbytes
    ensures r - nbytes >= want && r >= newSize
    decreases want - (newSize - nbytes)
  {
    if newSize - nbytes >= want then newSize else Doubled(2 * newSize, nbytes, want)
  }

  function GrownSize(size: nat, nbytes: nat, want: nat): (r: nat)
    requires nbytes <= size
    ensures r - nbytes >= want && r > nbytes
  {
    Doubled(if size == 0 then 128 else 2 * size, nbytes, want)
  }

  /** Doubled k times. */
  function Twice(n: nat, k: nat): nat {
    if k == 0 then n else 2 * Twice(n, k - 1)
  }

  lemma {:induction false} TwiceMore(n: nat, k: nat)
    ensures Twice(2 * n, k) == Twice(n, k + 1)
  {
    if k > 0 {
      TwiceMore(n, k - 1);
    }
  }

  lemma {:induction false} DoubledIsLeast(newSize: nat, nbytes: nat, want: nat) returns (k: nat)
    requires newSize > nbytes
    ensures Doubled(newSize, nbytes, want) == Twice(newSize, k)
    ensures forall j :: 0 <= j < k ==> Twice(newSize, j) - nbytes < want
    decreases want - (newSize - nbytes)
  {
    k := 0;
    if newSize - nbytes < want {
      var m := DoubledIsLeast(2 * newSize, nbytes, want);
      k := m + 1;
      TwiceMore(newSize, m);
      forall j | 0 < j < k ensures Twice(newSize, j) - nbytes < want {
        TwiceMore(newSize, j - 1);
      }
    }
  }

  /** The new size is the least with room among those got by doubling the old one, or 64 for a ring without a block. */
  lemma GrownIsLeast(size: nat, nbytes: nat, want: nat) returns (k: nat)
    requires nbytes <= size
    ensures var base := if size == 0 then 64 else size;
            && k >= 1 && GrownSize(size, nbytes, want) == Twice(base, k) && Twice(base, k) - nbytes >= want
            && forall j :: 1 <= j < k ==> Twice(base, j) - nbytes < want
  {
    var base := if size == 0 then 64 else size;
    var m := DoubledIsLeast(2 * base, nbytes, want);
    k := m + 1;
    TwiceMore(base, m);
    forall j | 1 <= j < k ensures Twice(base, j) - nbytes < want {
      TwiceMore(base, j - 1);
    }
  }

  /** ringbuffer_ensure_capacity; `junk` is what the new block holds. */
  function Ensure(b: Ring, want: nat, malloc: bool, junk: nat -> byte): (r: (Ring, bool))
    requires Valid(b)
  {
    if want < b.size - b.nbytes then (b, true)
    else if !malloc then (b, false)
    else
      var n := GrownSize(b.size, b.nbytes, want);
      ReadTakes(b, b.nbytes);
      (Ring(Read(b, b.nbytes).1 + seq(n - b.nbytes, i requires 0 <= i => junk(i)), 0, b.nbytes, b.nbytes), true)
  }

  /** Growing keeps the contents and leaves a ring that is not full, with room for the wanted bytes. */
  lemma EnsureKeeps(b: Ring, want: nat, malloc: bool, junk: nat -> byte)
    requires Valid(b)
    ensures var (r, ok) := Ensure(b, want, malloc, junk);
            && Valid(r) && Contents(r) == Contents(b) && (ok ==> want <= r.size - r.nbytes && !Full(r))
              && (!ok ==> r == b)
            && (ok <==> malloc || want < b.size - b.nbytes)
            && r.size == if ok && want >= b.size - b.nbytes then GrownSize(b.size, b.nbytes, want) else b.size
  {
    hide Read, GrownSize;
    ReadTakes(b, b.nbytes);
  }

  /** The bytes of the caller stored in the two segments of the write view. */
  function Stored(b: Ring, data: seq<byte>): (r: Ring)
    requires Valid(b) && !Full(b) && |data| <= b.size - b.nbytes
  {
    ValidHeads(b);
    var first := if b.wh >= b.rh then b.size - b.wh else b.rh - b.wh;
    var n := Min(first, |data|);
    b.(root := Patch(Patch(b.root, b.wh, data[..n]), 0, data[n..]))
  }

  /** They become the free bytes that are used next, and the contents do not change. */
  lemma StoredAhead(b: Ring, data: seq<byte>)
    requires Valid(b) && !Full(b) && |data| <= b.size - b.nbytes
    ensures var r := Stored(b, data);
            Valid(r) && r == b.(root := r.root) && r.size == b.size && Contents(r) == Contents(b)
              && Free(r)[..|data|] == data
  {
    hide Patch, Tape;
    ValidHeads(b);
    var first := if b.wh >= b.rh then b.size - b.wh else b.rh - b.wh;
    var n := Min(first, |data|);
    var x, y, t := data[..n], data[n..], Tape(b);
    var b1 := b.(root := Patch(b.root, b.wh, x));
    PatchOnTape(b, b.wh, x);
    assert x + y == data;
    if n < |data| {
      PatchOnTape(b1, 0, y);
      PatchTwice(t, b.nbytes, x, y);
    } else {
      assert y == [] && x == data;
      PatchEmpty(b1.root, 0);
    }
    PatchShows(t, b.nbytes, data);
  }

  lemma PatchShows(t: seq<byte>, k: nat, x: seq<byte>)
    requires k + |x| <= |t|
    ensures Patch(t, k, x)[..k] == t[..k] && Patch(t, k, x)[k..][..|x|] == x
  {
  }

  lemma PatchEmpty(t: seq<byte>, k: nat)
    requires k <= |t|
    ensures Patch(t, k, []) == t
  {
  }

  // ---------------------------------------------------------------- runs

  datatype Command =
    | DoWrite(data: seq<byte>)
    | DoRead(nb: nat)
    | DoPeek(offset: nat, nb: nat)
    | DoUpdate(dir: Direction, data: seq<byte>)
    | DoEnsure(want: nat, malloc: bool, junk: nat -> byte)
    | DoProduce(data: seq<byte>)                // the caller fills the write view and calls ringbuffer_produced
    | DoConsume(nb: nat)
    | DoReset

  /** What a command returns: bytes seen, a number of bytes stored, the error result, success or nothing. */
  datatype Output = Bytes(data: seq<byte>) | Count(n: nat) | Error | Done

  /**
   The callers' side: no write, update or production on a full ring, and no more bytes produced or consumed than there
   are.
   */
  predicate Allowed(b: Ring, cmd: Command) {
    match cmd
    case DoWrite(_) => !Full(b)
    case DoUpdate(_, _) => !Full(b)
    case DoProduce(data) => !Full(b) && |data| <= b.size - b.nbytes
    case DoConsume(nb) => nb <= b.nbytes
    case _ => true
  }

  function RingStep(b: Ring, cmd: Command): (r: (Ring, Output))
    requires Valid(b) && Allowed(b, cmd)
  {
    match cmd
    case DoWrite(data) => ValidHeads(b); var (r, n) := Write(b, Some(data), |data|); (r, Count(n))
    case DoRead(nb) => var (r, x) := Read(b, nb); (r, Bytes(x))
    case DoPeek(offset, nb) => (b, match PeekAt(b, offset, nb) case None => Error case Some(x) => Bytes(x))
    case DoUpdate(dir, data) =>
      match Update(b, dir, data) {
        case None => (b, Error)
        case Some((r, n)) => (r, Count(n))
      }
    case DoEnsure(want, malloc, junk) => var (r, ok) := Ensure(b, want, malloc, junk); (r, if ok then Done else Error)
    case DoProduce(data) =>
      StoredAhead(b, data); ValidHeads(Stored(b, data));
      (Write(Stored(b, data), None, |data|).0, Done)
    case DoConsume(nb) => (Read(b, nb).0, Done)
    case DoReset => (Read(b, b.nbytes).0, Done)
  }

  /** A byte queue with a capacity that growing changes. */
  datatype ByteQueue = ByteQueue(bytes: seq<byte>, cap: nat)

  /** The same commands on a plain queue. */
  ghost function QueueStep(q: ByteQueue, cmd: Command): (r: (ByteQueue, Output))
    requires |q.bytes| <= q.cap
  {
    var c := q.bytes;
    match cmd
    case DoWrite(data) => var n := Min(|data|, q.cap - |c|); (q.(bytes := c + data[..n]), Count(n))
    case DoRead(nb) => var n := Min(nb, |c|); (q.(bytes := c[n..]), Bytes(c[..n]))
    case DoPeek(offset, nb) =>
      if offset > |c| then (q, Error)
      else var n := Min(nb, |c| - offset); (q, Bytes(c[offset..offset + n]))
    case DoUpdate(dir, data) => (q.(bytes := Replaced(c, dir, data)), Count(Min(|data|, |c|)))
    case DoEnsure(want, malloc, _) =>
      if want < q.cap - |c| then (q, Done)
      else if !malloc then (q, Error)
      else (q.(cap := GrownSize(q.cap, |c|, want)), Done)
    case DoProduce(data) => (q.(bytes := c + data), Done)
    case DoConsume(nb) => (q.(bytes := c[Min(nb, |c|)..]), Done)
    case DoReset => (q.(bytes := []), Done)
  }

  /** The queue a ring stands for. */
  ghost function Meaning(b: Ring): (q: ByteQueue)
    requires Valid(b)
    ensures |q.bytes| <= q.cap
  {
    ByteQueue(Contents(b), b.size)
  }

  /** The outputs of a run on the ring, as long as the callers keep to their side. */
  ghost predicate RingRuns(b: Ring, cmds: seq<Command>, outs: seq<Output>, last: Ring)
    requires Valid(b)
    decreases |cmds|
  {
    if cmds == [] then outs == [] && last == b
    else
      && Allowed(b, cmds[0]) && outs != []
      && var (r, out) := RingStep(b, cmds[0]); outs[0] == out && Valid(r) && RingRuns(r, cmds[1..], outs[1..], last)
  }

  ghost predicate QueueRuns(q: ByteQueue, cmds: seq<Command>, outs: seq<Output>, last: ByteQueue)
    decreases |cmds|
  {
    if cmds == [] then outs == [] && last == q
    else
      && |q.bytes| <= q.cap && outs != []
      && var (r, out) := QueueStep(q, cmds[0]); outs[0] == out && QueueRuns(r, cmds[1..], outs[1..], last)
  }

  lemma {:induction false} StepRefines(b: Ring, cmd: Command)
    requires Valid(b) && Allowed(b, cmd)
    ensures var (r, out) := RingStep(b, cmd); Valid(r) && (Meaning(r), out) == QueueStep(Meaning(b), cmd)
  {
    hide Write, Read, Update, PeekAt, Contents, Replaced, Ensure, GrownSize, Free, Stored;
    match cmd {
      case DoWrite(data) =>
        WriteAppends(b, Some(data), |data|);
      case DoRead(nb) =>
        ReadTakes(b, nb);
      case DoPeek(offset, nb) =>
        PeekSees(b, offset, nb);
      case DoUpdate(dir, data) =>
        UpdateReplaces(b, dir, data);
      case DoEnsure(want, malloc, junk) =>
        EnsureKeeps(b, want, malloc, junk);
      case DoProduce(data) =>
        StoredAhead(b, data);
        WriteAppends(Stored(b, data), None, |data|);
      case DoConsume(nb) =>
        ReadTakes(b, nb);
      case DoReset =>
        ReadTakes(b, b.nbytes);
        assert Contents(b)[b.nbytes..] == [];
    }
  }

  /** Over every run, growth included, the ring cannot be told from a byte queue of its capacity. */
  lemma {:induction false} RunRefines(b: Ring, cmds: seq<Command>, outs: seq<Output>, last: Ring)
    requires Valid(b) && RingRuns(b, cmds, outs, last)
    ensures Valid(last) && QueueRuns(Meaning(b), cmds, outs, Meaning(last))
    decreases |cmds|
  {
    hide RingStep, QueueStep, Meaning;
    if cmds != [] {
      StepRefines(b, cmds[0]);
      RunRefines(RingStep(b, cmds[0]).0, cmds[1..], outs[1..], last);
    }
  }
}
