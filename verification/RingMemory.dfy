/**
 ringbuffer_t of src/ringbuffer.c: the operations that update the heads and the
 memory block in place, proved against the functions and lemmas of module Rings.
 */
module RingMemory {
  import opened Common
  import opened Rings

  datatype CopyResult = Copied | Refused | Aborted

  class RingBuffer {
    var root: array<byte>
    var readHead: nat
    var writeHead: nat
    var nbytes: nat

    ghost function State(): (b: Ring)
      reads this, root
    {
      Ring(root[..], readHead, writeHead, nbytes)
    }

    /** ringbuffer_initialize; the block is whatever malloc returned. */
    constructor (size: nat)
      ensures fresh(root) && root.Length == size && readHead == writeHead == nbytes == 0
      ensures Valid(State()) && Contents(State()) == []
    {
      root := new byte[size];
      readHead, writeHead, nbytes := 0, 0, 0;
    }

    /** A copy of the structure, sharing the block. */
    constructor Copy(of: RingBuffer)
      ensures root == of.root && readHead == of.readHead && writeHead == of.writeHead && nbytes == of.nbytes
    {
      root, readHead, writeHead, nbytes := of.root, of.readHead, of.writeHead, of.nbytes;
    }

    /** memcpy into the block */
    method CopyIn(at: nat, x: seq<byte>)
      requires at + |x| <= root.Length
      modifies root
      ensures root[..] == Patch(old(root[..]), at, x)
    {
      forall i | at <= i < at + |x| {
        root[i] := x[i - at];
      }
    }

    /** One of the two stores of ringbuffer_write. */
    method PutBytes(x: Option<seq<byte>>, n: nat)
      requires writeHead + n <= root.Length && (x.Some? ==> |x.value| == n)
      modifies this`writeHead, this`nbytes, root
      ensures State() == Put(old(State()), x, n)
    {
      if x.Some? {
        CopyIn(writeHead, x.value);
      }
      nbytes := nbytes + n;
      writeHead := writeHead + n;
      if writeHead == root.Length {
        writeHead := 0;
      }
    }

    /** ringbuffer_write; `src` None stands for a null pointer. */
    method WriteBytes(src: Option<seq<byte>>, nb: nat) returns (nw: nat)
      requires Valid(State()) && (src.Some? ==> nb <= |src.value|)
      modifies this`writeHead, this`nbytes, root
      ensures (State(), nw) == Write(old(State()), src, nb)
    {
      hide Put, Patch, Valid;
      ghost var b := State();
      ValidHeads(b);
      nw := 0;
      if writeHead >= readHead {
        nw := Min(root.Length - writeHead, nb);
        PutBytes(Part(src, 0, nw), nw);
        PutHeads(b, Part(src, 0, nw), nw);
        if nw == nb {
          return;
        }
      }
      var more := Min(readHead - writeHead, nb - nw);
      PutBytes(Part(src, nw, nw + more), more);
      nw := nw + more;
    }

    /** One of the two fetches of ringbuffer_read. */
    method GetBytes(n: nat) returns (x: seq<byte>)
      requires readHead + n <= root.Length && n <= nbytes
      modifies this`readHead, this`nbytes
      ensures (State(), x) == Get(old(State()), n)
    {
      x := root[readHead..readHead + n];
      nbytes := nbytes - n;
      readHead := readHead + n;
      if readHead == root.Length {
        readHead := 0;
      }
    }

    /** maybe_reset */
    method Rewind()
      modifies this`readHead, this`writeHead
      ensures State() == MaybeReset(old(State()))
    {
      if nbytes == 0 {
        writeHead, readHead := 0, 0;
      }
    }

    /** ringbuffer_read; the bytes copied to the destination are returned. */
    method ReadBytes(nb: nat) returns (x: seq<byte>)
      requires Valid(State())
      modifies this`readHead, this`writeHead, this`nbytes
      ensures (State(), x) == Read(old(State()), nb)
      ensures Valid(State()) && |x| == Min(nb, old(nbytes))
      ensures x == old(Contents(State()))[..|x|] && Contents(State()) == old(Contents(State()))[|x|..]
    {
      hide Get, MaybeReset, Contents;
      ReadTakes(State(), nb);
      x := [];
      if nbytes == 0 {
        return;
      }
      if readHead >= writeHead {
        var n := Min(root.Length - readHead, nb);
        GetTakes(State(), n);
        x := GetBytes(n);
        if n == nb {
          Rewind();
          return;
        }
      }
      var more := Min(writeHead - readHead, nb - |x|);
      var y := GetBytes(more);
      assert [] + y == y;
      x := x + y;
      Rewind();
    }

    /** ringbuffer_peek */
    method PeekBytes(nb: nat) returns (x: seq<byte>)
      requires Valid(State())
      ensures x == Contents(State())[..Min(nb, nbytes)]
    {
      var copy := new RingBuffer.Copy(this);
      x := copy.ReadBytes(nb);
    }

    /** ringbuffer_peek_at; None stands for the error result. */
    method PeekBytesAt(offset: nat, nb: nat) returns (x: Option<seq<byte>>)
      requires Valid(State())
      ensures x == if offset <= nbytes then Some(Contents(State())[offset..offset + Min(nb, nbytes - offset)]) else None
    {
      hide Read, Contents;
      PeekSees(State(), offset, nb);
      var copy := new RingBuffer.Copy(this);
      var skipped := copy.ReadBytes(offset);
      if |skipped| != offset {
        return None;
      }
      var y := copy.ReadBytes(nb);
      x := Some(y);
    }

    /**
     ringbuffer_ensure_capacity: keep the contents and leave room for more than nothing and
     at least `want` bytes.  `malloc` says whether the allocation succeeds.
     */
    method EnsureCapacity(want: nat, malloc: bool) returns (ok: bool)
      requires Valid(State())
      modifies this
      ensures ok <==> malloc || want < old(root.Length - nbytes)
      ensures !ok || want < old(root.Length - nbytes) ==>
                root == old(root) && root[..] == old(root[..]) && readHead == old(readHead)
                  && writeHead == old(writeHead) && nbytes == old(nbytes)
      ensures Valid(State()) && Contents(State()) == old(Contents(State()))
      ensures ok ==> want <= root.Length - nbytes && !Full(State())
      ensures ok && want >= old(root.Length - nbytes) ==>
                fresh(root) && root.Length == old(GrownSize(root.Length, nbytes, want)) && readHead == 0
                  && writeHead == nbytes
    {
      hide Read, Contents;
      var newSize := root.Length * 2;
      if newSize == 0 {
        newSize := 128;
      }
      if want < root.Length - nbytes {
        return true;
      }
      while newSize - nbytes < want
        invariant newSize > nbytes && newSize > 0 && Doubled(newSize, nbytes, want)
          == GrownSize(root.Length, nbytes, want)
        decreases want - (newSize - nbytes)
      {
        newSize := newSize * 2;
      }
      if !malloc {
        return false;
      }
      var fresh' := new byte[newSize];
      var n := nbytes;
      ghost var c := Contents(State());
      var x := ReadBytes(n);
      root, nbytes, readHead, writeHead := fresh', n, 0, n;
      CopyIn(0, x);
      StartsWith(State(), x);
      assert c[..n] == c;
      return true;
    }

    /**
     ringbuffer_update; `inside` is false where a copy would run outside the block, and then nothing is copied here.
     */
    method UpdateBytes(dir: Direction, src: seq<byte>) returns (n: nat, inside: bool)
      requires Valid(State())
      modifies root
      ensures inside <==> UpdateFits(State(), dir, |src|)
      ensures n == Min(|src|, nbytes) && Valid(State())
      ensures inside ==>
        Contents(State()) == Replaced(old(Contents(State())), dir, src) && Free(State()) == old(Free(State()))
      ensures !inside ==> root[..] == old(root[..])
    {
      hide Contents, Free, Replaced, Patch;
      UpdateReplaces(State(), dir, src);
      ghost var b := State();
      if dir == READ {
        if readHead <= writeHead {
          n := Min(|src|, nbytes);
          if readHead + n > root.Length {
            return n, false;
          }
          CopyIn(readHead, src[..n]);
        } else {
          var nw := Min(|src|, root.Length - readHead);
          CopyIn(readHead, src[..nw]);
          n := nw;
          if |src| - nw != 0 {
            var nw' := Min(|src| - nw, writeHead);
            CopyIn(0, src[nw..nw + nw']);
            n := n + nw';
          }
        }
      } else {
        if writeHead >= readHead {
          n := Min(|src|, nbytes);
          if n > writeHead {
            return n, false;
          }
          CopyIn(writeHead - n, src[..n]);
        } else {
          var nb := Min(|src|, nbytes);
          var nw := Min(nb, writeHead);
          CopyIn(writeHead - nw, src[nb - nw..nb]);
          n := nw;
          if nb - nw != 0 {
            var nw' := Min(nb - nw, root.Length - readHead);
            CopyIn(root.Length - nw', src[..nw']);
            n := n + nw';
          }
        }
      }
      inside := true;
      assert Update(b, dir, src) == Some((State(), n));
    }

    /** ringbuffer_ensure_capacity and then ringbuffer_write of all the bytes. */
    method Extend(x: seq<byte>, malloc: bool) returns (ok: bool)
      requires Valid(State())
      modifies this, root
      ensures Valid(State()) && (root == old(root) || fresh(root))
      ensures ok <==> malloc || |x| < old(root.Length - nbytes)
      ensures Contents(State()) == if ok then old(Contents(State())) + x else old(Contents(State()))
    {
      hide Write, Contents, Valid;
      ok := EnsureCapacity(|x|, malloc);
      if ok {
        WriteAppends(State(), Some(x), |x|);
        AddedAll(State(), x);
        var nw := WriteBytes(Some(x), |x|);
      }
    }

    /** One round of ringbuffer_append. */
    method MovePiece(dest: RingBuffer) returns (n: nat)
      requires this != dest && root != dest.root && Valid(State()) && Valid(dest.State())
      modifies this, dest, dest.root
      ensures n == Min(1024, |old(Contents(State()))|) && root == old(root) && root != dest.root
      ensures dest.root == old(dest.root) || fresh(dest.root)
      ensures Valid(State()) && Contents(State()) == old(Contents(State()))[n..]
      ensures Valid(dest.State()) && Contents(dest.State()) == old(Contents(dest.State())) + old(Contents(State()))[..n]
    {
      hide Read, Contents, Valid;
      var piece := ReadBytes(1024);
      n := |piece|;
      if n != 0 {
        var ok := dest.Extend(piece, true);
      }
    }

    /** ringbuffer_append: move everything into `dest`, in pieces of 1024 bytes. */
    method AppendTo(dest: RingBuffer)
      requires this != dest && root != dest.root && Valid(State()) && Valid(dest.State())
      modifies this, dest, dest.root
      ensures Valid(State()) && Contents(State()) == [] && root == old(root)
      ensures Valid(dest.State()) && Contents(dest.State()) == old(Contents(dest.State())) + old(Contents(State()))
    {
      hide Contents, Valid;
      ghost var src, dst, moved := Contents(State()), Contents(dest.State()), 0;
      assert src[0..] == src && dst + src[..0] == dst;
      var n := MovePiece(dest);
      moved := n;
      while n != 0
        invariant Valid(State()) && Valid(dest.State()) && root == old(root) && root != dest.root
        invariant dest.root == old(dest.root) || fresh(dest.root)
        invariant moved <= |src| && Contents(State()) == src[moved..] && Contents(dest.State()) == dst + src[..moved]
        invariant n == 0 ==> moved == |src|
        decreases |src| - moved, n
      {
        n := MovePiece(dest);
        Shifted(src, dst, moved, n);
        moved := moved + n;
      }
      assert src[..moved] == src;
    }

    /** ringbuffer_produced: account for bytes stored through the write view. */
    method Produced(nb: nat)
      requires Valid(State()) && (!Full(State()) || nb == 0) && nb <= root.Length - nbytes
      modifies this`writeHead, this`nbytes, root
      ensures Valid(State()) && Contents(State()) == old(Contents(State())) + old(Free(State()))[..nb]
    {
      hide Write, Contents, Free, Valid;
      WriteAppends(State(), None, nb);
      var n := WriteBytes(None, nb);
    }

    /** ringbuffer_consumed */
    method Consumed(nb: nat)
      requires Valid(State()) && nb <= nbytes
      modifies this`readHead, this`writeHead, this`nbytes
      ensures Valid(State()) && Contents(State()) == old(Contents(State()))[nb..]
    {
      var x := ReadBytes(nb);
    }

    /** ringbuffer_reset */
    method Reset()
      requires Valid(State())
      modifies this`readHead, this`writeHead, this`nbytes
      ensures Valid(State()) && Contents(State()) == []
    {
      Consumed(nbytes);
    }

    /** ringbuffer_strcat: the number of bytes appended, or 0 when there is no memory. */
    method Strcat(str: seq<byte>, malloc: bool) returns (n: nat)
      requires Valid(State())
      modifies this, root
      ensures Valid(State())
      ensures var fits := malloc || |str| < old(root.Length - nbytes);
              && n == (if fits then |str| else 0)
              && Contents(State()) == if fits then old(Contents(State())) + str else old(Contents(State()))
    {
      hide Contents, Valid;
      var ok := Extend(str, malloc);
      n := if ok then |str| else 0;
    }

    /** ringbuffer_get_iov */
    method GetIovs(dir: Direction) returns (v: Iov, w: Iov)
      ensures (v, w) == GetIov(State(), dir)
    {
      w := Iov(0, 0);
      if dir == READ {
        v := Iov(readHead, nbytes);
        if readHead >= writeHead {
          var chunk := root.Length - readHead;
          if nbytes > chunk {
            v, w := Iov(readHead, chunk), Iov(0, nbytes - chunk);
          }
        }
      } else {
        v := Iov(writeHead, root.Length - nbytes);
        if writeHead >= readHead {
          v, w := Iov(writeHead, root.Length - writeHead), Iov(0, readHead);
        }
      }
    }

    /** The loop of ringbuffer_memcpy: after the first segment it asks for no more bytes. */
    method Transfer(copy: RingBuffer, nb: nat) returns (complete: bool)
      requires this != copy && root != copy.root && Valid(State()) && !Full(State()) && Valid(copy.State())
        && nb <= copy.nbytes
      modifies root, copy`readHead, copy`writeHead, copy`nbytes
      ensures complete <==> nb <= old(GetIov(State(), WRITE)).0.len
      ensures complete ==> Valid(State()) && Contents(State()) == old(Contents(State()))
      ensures complete ==> nb <= root.Length - nbytes && Free(State())[..nb] == old(Contents(copy.State()))[..nb]
    {
      hide Contents, Free, Read, Patch;
      ghost var b := State();
      var v, w := GetIovs(WRITE);
      WriteIovShowsAllIff(b);
      var toread, towrite := Min(v.len, nb), nb;
      ghost var y := old(Contents(copy.State()))[..toread];
      StoreAhead(b, y);
      var ii := 0;
      while ii == 0 || towrite > 0
        invariant 0 <= ii <= 2 && Valid(copy.State())
        invariant ii == 0 ==>
          State() == b && toread == Min(v.len, nb) && towrite == nb && copy.State() == old(copy.State())
        invariant ii > 0 ==> State() == b.(root := Patch(b.root, b.wh, y)) && toread == 0 && towrite == nb - |y|
        decreases 2 - ii
      {
        if ii == 2 {
          return false;
        }
        var base := if ii == 0 then v.base else w.base;
        var x := copy.ReadBytes(toread);
        CopyIn(base, x);
        PatchNothing(b.(root := Patch(b.root, b.wh, y)).root, base);
        toread, towrite, ii := toread - |x|, towrite - |x|, ii + 1;
      }
      complete := true;
    }

    /**
     ringbuffer_memcpy: append the first `nb` bytes of `src` without consuming them.  It
     aborts exactly when the free space does not grow and its first segment is too short.
     */
    method CopyFrom(src: RingBuffer, nb: nat, malloc: bool) returns (r: CopyResult)
      requires this != src && root != src.root && Valid(State()) && Valid(src.State())
      modifies this, root
      ensures src.State() == old(src.State())
      ensures r == Refused <==> nb > src.nbytes || (!malloc && nb >= old(root.Length - nbytes))
      ensures r == Aborted <==>
        nb <= src.nbytes && nb < old(root.Length - nbytes) && !old(IsContinuous(State(), WRITE, nb))
      ensures r == Copied ==>
        Valid(State()) && Contents(State()) == old(Contents(State())) + Contents(src.State())[..nb]
    {
      hide Contents, Free;
      var copy := new RingBuffer.Copy(src);
      if nb > src.nbytes {
        return Refused;
      }
      var ok := EnsureCapacity(nb, malloc);
      if !ok {
        return Refused;
      }
      ContinuousIsFirstSegment(State(), WRITE, nb);
      var complete := Transfer(copy, nb);
      if !complete {
        return Aborted;
      }
      Produced(nb);
      r := Copied;
    }
  }

  /** Pieces taken off the front of one text and added to another one. */
  lemma Shifted(src: seq<byte>, dst: seq<byte>, k: nat, n: nat)
    requires k + n <= |src|
    ensures src[k..][n..] == src[k + n..] && dst + src[..k] + src[k..][..n] == dst + src[..k + n]
  {
    assert src[..k] + src[k..][..n] == src[..k + n];
  }

  lemma PatchNothing(root: seq<byte>, at: nat)
    requires at <= |root|
    ensures Patch(root, at, []) == root
  {
  }

  /** Bytes stored through the first segment of the write view are the ones that become contents next. */
  lemma StoreAhead(b: Ring, y: seq<byte>)
    requires Valid(b) && !Full(b) && |y| <= GetIov(b, WRITE).0.len
    ensures b.wh + |y| <= b.size
    ensures var r := b.(root := Patch(b.root, b.wh, y));
            Valid(r) && Contents(r) == Contents(b) && Free(r)[..|y|] == y
  {
    PatchOnTape(b, b.wh, y);
  }

  lemma AddedAll(b: Ring, x: seq<byte>)
    requires Valid(b) && |x| <= b.size - b.nbytes
    ensures Added(b, Some(x), |x|) == x
  {
  }

  /** A block that starts with its contents. */
  lemma StartsWith(b: Ring, x: seq<byte>)
    requires b.rh == 0 && b.wh == b.nbytes == |x| && |x| < b.size && b.root[..|x|] == x
    ensures Valid(b) && Contents(b) == x
  {
  }

  lemma Wrapped(b: Ring)
    requires b.size == 4 && b.rh == b.wh == b.nbytes == 0
    ensures Valid(b)
    ensures var w := Write(b, Some([1, 2, 3]), 3).0;
            && Valid(w) && w.nbytes == 3
            && var r := Read(w, 2).0; Valid(r) && r.nbytes == 1 && r.size == 4 && !IsContinuous(r, WRITE, 2)
  {
    hide Patch;
  }

  /**
   Three bytes written to a new ring of four and two read: two bytes then fit, but not in one segment, and the copy
   aborts.
   */
  method CopyThatAborts() returns (r: CopyResult)
    ensures r == Aborted
  {
    hide Contents, Free, Write, Read, Valid, IsContinuous;
    var dst := new RingBuffer(4);
    Wrapped(dst.State());
    var n := dst.WriteBytes(Some([1, 2, 3]), 3);
    var x := dst.ReadBytes(2);
    var src := new RingBuffer(4);
    Wrapped(src.State());
    n := src.WriteBytes(Some([1, 2, 3]), 3);
    r := dst.CopyFrom(src, 2, true);
  }
}
