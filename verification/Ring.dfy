/** The ring buffer of citcaudio: a fixed byte array with a read position, a write position and a count. */
module Ring {
  import opened Mixer

  const RING_SIZE: nat := 44100 * 4 * 2

  /** A position that may have run past the end once. */
  function Wrap(i: nat): nat
    requires i < 2 * RING_SIZE
  {
    if i < RING_SIZE then i else i - RING_SIZE
  }

  lemma WrapIsRemainder(i: nat)
    requires i < 2 * RING_SIZE
    ensures i % RING_SIZE == Wrap(i)
  {
  }

  /** `contents` stand in `data` from `readPos` on, round the end. */
  ghost predicate Holds(data: seq<Byte>, readPos: nat, contents: seq<Byte>)
  {
    && |data| == RING_SIZE && readPos < RING_SIZE && |contents| <= RING_SIZE
    && forall k: nat | k < |contents| :: contents[k] == data[Wrap(readPos + k)]
  }

  lemma HoldsLength(data: seq<Byte>, readPos: nat, contents: seq<Byte>)
    requires Holds(data, readPos, contents)
    ensures |data| == RING_SIZE && readPos < RING_SIZE && |contents| <= RING_SIZE
  {
  }

  /** Bytes written behind the contents become the end of the contents. */
  lemma HoldsAppended(before: seq<Byte>, after: seq<Byte>, readPos: nat, contents: seq<Byte>, src: seq<Byte>)
    requires Holds(before, readPos, contents) && |after| == RING_SIZE && |contents| + |src| <= RING_SIZE
    requires
      var writePos := Wrap(readPos + |contents|);
      forall i: nat | i < RING_SIZE ::
        after[i] ==
        if writePos <= i < writePos + |src| then src[i - writePos]
        else if i + RING_SIZE < writePos + |src| then src[i + RING_SIZE - writePos]
        else before[i]
    ensures Holds(after, readPos, contents + src)
  {
    var all := contents + src;
    forall k: nat | k < |all|
      ensures all[k] == after[Wrap(readPos + k)]
    {
      var i := Wrap(readPos + k);
      if k < |contents| {
        assert after[i] == before[i];
      } else {
        assert after[i] == src[k - |contents|];
      }
    }
  }

  lemma HoldsDropped(data: seq<Byte>, readPos: nat, contents: seq<Byte>, size: nat)
    requires Holds(data, readPos, contents) && size <= |contents|
    ensures Holds(data, Wrap(readPos + size), contents[size..])
  {
    var rest := contents[size..];
    forall k: nat | k < |rest|
      ensures rest[k] == data[Wrap(Wrap(readPos + size) + k)]
    {
      assert rest[k] == contents[size + k];
      assert Wrap(Wrap(readPos + size) + k) == Wrap(readPos + (size + k));
    }
  }

  class RingBuffer {
    const data: array<Byte>
    var readPos: nat
    var writePos: nat
    var count: nat
    /** What a reader will get, oldest byte first. */
    ghost var contents: seq<Byte>

    ghost predicate Valid()
      reads this, data
    {
      && Holds(data[..], readPos, contents)
      && count == |contents|
      && writePos == Wrap(readPos + count)
    }

    constructor ()
      ensures Valid() && contents == [] && fresh(data)
    {
      data := new Byte[RING_SIZE](_ => 0);
      readPos, writePos, count := 0, 0, 0;
      contents := [];
    }

    method Available() returns (n: nat)
      requires Valid()
      ensures n == |contents|
    {
      n := count;
    }

    method Free() returns (n: nat)
      requires Valid()
      ensures n == RING_SIZE - |contents|
    {
      n := RING_SIZE - count;
    }

    /** ring_init on a used ring. */
    method Reset()
      requires Valid()
      modifies this, data
      ensures Valid() && contents == []
    {
      forall k | 0 <= k < data.Length {
        data[k] := 0;
      }
      readPos, writePos, count := 0, 0, 0;
      contents := [];
    }

    /** memcpy into the ring. */
    method CopyIn(at: nat, src: seq<Byte>)
      requires at + |src| <= data.Length
      modifies data
      ensures forall k | 0 <= k < data.Length :: data[k] == if at <= k < at + |src| then src[k - at] else old(data[k])
    {
      forall k | 0 <= k < |src| {
        data[at + k] := src[k];
      }
    }

    method Write(src: seq<Byte>) returns (ok: bool)
      requires Valid()
      modifies this, data
      ensures Valid()
      ensures ok == (|src| <= RING_SIZE - |old(contents)|)
      ensures contents == if ok then old(contents) + src else old(contents)
    {
      hide Holds;
      HoldsLength(data[..], readPos, contents);
      if |src| > RING_SIZE - count {
        return false;
      }
      var first := RING_SIZE - writePos;
      if first >= |src| {
        CopyIn(writePos, src);
      } else {
        CopyIn(writePos, src[..first]);
        CopyIn(0, src[first..]);
      }
      HoldsAppended(old(data[..]), data[..], readPos, contents, src);
      WrapIsRemainder(writePos + |src|);
      writePos := (writePos + |src|) % RING_SIZE;
      count := count + |src|;
      contents := contents + src;
      return true;
    }

    method Read(size: nat) returns (ok: bool, out: seq<Byte>)
      requires Valid()
      modifies this
      ensures Valid()
      ensures ok == (size <= |old(contents)|)
      ensures ok ==> out == old(contents)[..size] && contents == old(contents)[size..]
      ensures !ok ==> contents == old(contents)
    {
      if size > count {
        return false, [];
      }
      var first := RING_SIZE - readPos;
      if first >= size {
        out := data[readPos..readPos + size];
      } else {
        out := data[readPos..] + data[..size - first];
      }
      forall k | 0 <= k < size
        ensures out[k] == contents[k]
      {
        assert contents[k] == data[..][Wrap(readPos + k)];
      }
      assert out == contents[..size];
      HoldsDropped(data[..], readPos, contents, size);
      WrapIsRemainder(readPos + size);
      readPos := (readPos + size) % RING_SIZE;
      count := count - size;
      contents := contents[size..];
      return true, out;
    }
  }
}
