/** Reads of any length and alignment from anything made of fixed-size blocks. */
module BlockIo {
  import opened Common
  import opened Division

  type Byte = x: int | 0 <= x < 256

  /** What BlockIO's subclasses provide.  A block read that panics is None. */
  datatype Source = Source(blockSize: nat, size: nat, block: nat -> Option<seq<Byte>>)

  ghost predicate SourceOk(s: Source)
  {
    && 0 < s.blockSize < WORD && s.size < WORD
    && forall i: nat {:trigger s.block(i)} :: s.block(i).Some? ==> |s.block(i).value| == s.blockSize
  }

  predicate HasByte(s: Source, i: nat)
    requires s.blockSize > 0
  {
    s.block(i / s.blockSize).Some?
  }

  function ByteAt(s: Source, i: nat): Byte
    requires SourceOk(s) && HasByte(s, i)
  {
    s.block(i / s.blockSize).value[i % s.blockSize]
  }

  function Min(a: int, b: int): int { if a <= b then a else b }

  ghost predicate Agrees(s: Source, offset: nat, bytes: seq<Byte>, i: nat)
    requires SourceOk(s) && offset <= i < offset + |bytes|
  {
    HasByte(s, i) && bytes[i - offset] == ByteAt(s, i)
  }

  /** The bytes from `offset` on can be read, and are `bytes`. */
  ghost predicate Holds(s: Source, offset: nat, bytes: seq<Byte>)
    requires SourceOk(s)
  {
    forall i: nat {:trigger Agrees(s, offset, bytes, i)} | offset <= i < offset + |bytes| :: Agrees(s, offset, bytes, i)
  }

  /** Some byte of the n from `offset` on lies in a block whose read panics. */
  ghost predicate Unreadable(s: Source, offset: nat, n: nat)
    requires s.blockSize > 0
  {
    exists k: nat {:trigger HasByte(s, k)} :: offset <= k < offset + n && !HasByte(s, k)
  }

  /** The buffer was overwritten with `bytes` from `at` on and is otherwise as before. */
  predicate Wrote(before: seq<Byte>, after: seq<Byte>, at: nat, n: nat)
  {
    && |after| == |before| && at + n <= |after|
    && after[..at] == before[..at] && after[at + n..] == before[at + n..]
  }

  lemma BlockByte(s: Source, q: nat, d: nat)
    requires SourceOk(s) && s.block(q).Some? && d < s.blockSize
    ensures HasByte(s, s.blockSize * q + d) && ByteAt(s, s.blockSize * q + d) == s.block(q).value[d]
  {
    Quotient(s.blockSize, q, d);
  }

  lemma OneBlock(s: Source, offset: nat, q: nat, d: nat, n: nat)
    requires SourceOk(s) && offset == s.blockSize * q + d && d + n <= s.blockSize && s.block(q).Some?
    ensures Holds(s, offset, s.block(q).value[d..d + n])
  {
    var bytes := s.block(q).value[d..d + n];
    forall i: nat | offset <= i < offset + n ensures Agrees(s, offset, bytes, i) {
      BlockByte(s, q, d + (i - offset));
    }
  }

  /** One read: at most up to the end of a block. */
  method Read(s: Source, offset: nat, want: nat, buffer: array<Byte>, at: nat) returns (r: Option<int>)
    requires SourceOk(s) && offset < WORD && want < WORD && at + want <= buffer.Length
    modifies buffer
    ensures r.None? <==> offset < s.size && !HasByte(s, offset)
    ensures offset > s.size ==> r == Some(-1) && buffer[..] == old(buffer[..])
    ensures offset == s.size ==> r == Some(0) && buffer[..] == old(buffer[..])
    ensures r.Some? && offset < s.size ==>
              && r.value == Min(Min(want, s.size - offset), s.blockSize - offset % s.blockSize)
              && Wrote(old(buffer[..]), buffer[..], at, r.value)
              && Holds(s, offset, buffer[at..at + r.value])
  {
    if offset > s.size { return Some(-1); }
    if offset == s.size { return Some(0); }
    var n := Min(want, s.size - offset);
    var blockNumber, offsetInBlock := offset / s.blockSize, offset % s.blockSize;
    var actual := Min(s.blockSize - offsetInBlock, n);
    var block := s.block(blockNumber);
    if block.None? { return None; }
    OneBlock(s, offset, blockNumber, offsetInBlock, actual);
    ghost var bytes := block.value[offsetInBlock..offsetInBlock + actual];
    if actual == s.blockSize {
      Fill(buffer, at, block.value);
      assert bytes == block.value;
    } else {
      Fill(buffer, at, block.value[offsetInBlock..offsetInBlock + actual]);
    }
    assert buffer[at..at + actual] == bytes;
    r := Some(actual);
  }

  /** memcpy, and the transfer of a whole block. */
  method Fill(buffer: array<Byte>, at: nat, bytes: seq<Byte>)
    requires at + |bytes| <= buffer.Length
    modifies buffer
    ensures Wrote(old(buffer[..]), buffer[..], at, |bytes|) && buffer[at..at + |bytes|] == bytes
  {
    var i := 0;
    while i < |bytes|
      invariant i <= |bytes|
      invariant Wrote(old(buffer[..]), buffer[..], at, i) && buffer[at..at + i] == bytes[..i]
    {
      buffer[at + i] := bytes[i];
      i := i + 1;
    }
  }

  lemma HoldsThen(s: Source, offset: nat, a: seq<Byte>, b: seq<Byte>)
    requires SourceOk(s) && Holds(s, offset, a) && Holds(s, offset + |a|, b)
    ensures Holds(s, offset, a + b)
  {
    forall i: nat | offset <= i < offset + |a + b| ensures Agrees(s, offset, a + b, i) {
      if i < offset + |a| { assert Agrees(s, offset, a, i); }
      else { assert Agrees(s, offset + |a|, b, i); }
    }
  }

  /** How many bytes read_all delivers. */
  function Total(s: Source, offset: nat, n: nat): int
  {
    if n == 0 then 0 else if offset > s.size then -1 else Min(n, s.size - offset)
  }

  /** The whole read: exactly the bytes from `offset` up to n or the end, or -1 past the end;
      None exactly if one of them cannot be read. */
  method ReadAll(s: Source, offset0: nat, n0: nat, buffer: array<Byte>, at0: nat) returns (r: Option<int>)
    requires SourceOk(s) && offset0 < WORD && n0 < WORD && at0 + n0 <= buffer.Length
    modifies buffer
    ensures r.None? <==> Total(s, offset0, n0) > 0 && Unreadable(s, offset0, Total(s, offset0, n0))
    ensures r.Some? ==> r.value == Total(s, offset0, n0)
    ensures r.Some? && r.value <= 0 ==> buffer[..] == old(buffer[..])
    ensures r.Some? && r.value > 0 ==>
              Wrote(old(buffer[..]), buffer[..], at0, r.value) && Holds(s, offset0, buffer[at0..at0 + r.value])
  {
    var total, offset, n, at := 0, offset0, n0, at0;
    while n > 0
      invariant offset == offset0 + total && n == n0 - total && at == at0 + total && 0 <= total <= n0
      invariant total > 0 ==> offset <= s.size
      invariant total == 0 ==> buffer[..] == old(buffer[..])
      invariant Wrote(old(buffer[..]), buffer[..], at0, total)
      invariant Holds(s, offset0, buffer[at0..at])
      decreases n
    {
      ghost var before := buffer[at0..at];
      var cnt := Read(s, offset, n, buffer, at);
      if cnt.None? { assert !HasByte(s, offset); return None; }
      if cnt.value < 0 { return cnt; }
      if cnt.value == 0 { AllReadable(s, offset0, buffer[at0..at]); return Some(total); }
      assert buffer[at0..at] == before;
      HoldsThen(s, offset0, before, buffer[at..at + cnt.value]);
      assert buffer[at0..at + cnt.value] == before + buffer[at..at + cnt.value];
      total := total + cnt.value;
      offset := offset + cnt.value;
      n := n - cnt.value;
      at := at + cnt.value;
    }
    AllReadable(s, offset0, buffer[at0..at]);
    r := Some(total);
  }

  lemma AllReadable(s: Source, offset: nat, bytes: seq<Byte>)
    requires SourceOk(s) && Holds(s, offset, bytes)
    ensures !Unreadable(s, offset, |bytes|)
  {
    forall k: nat | offset <= k < offset + |bytes| ensures HasByte(s, k) {
      assert Agrees(s, offset, bytes, k);
    }
  }

  // ----- the same thing said of the blocks laid end to end -----

  /** The first k blocks, one after the other. */
  function Blocks(s: Source, k: nat): seq<Byte>
    requires SourceOk(s) && forall i: nat | i < k :: s.block(i).Some?
  {
    if k == 0 then [] else Blocks(s, k - 1) + s.block(k - 1).value
  }

  lemma {:induction false} BlocksAt(s: Source, k: nat, i: nat)
    requires SourceOk(s) && (forall j: nat | j < k :: s.block(j).Some?) && i < k * s.blockSize
    ensures |Blocks(s, k)| == k * s.blockSize
    ensures HasByte(s, i) && Blocks(s, k)[i] == ByteAt(s, i)
  {
    BlocksLength(s, k);
    BlocksLength(s, k - 1);
    if i < (k - 1) * s.blockSize {
      BlocksAt(s, k - 1, i);
    } else {
      var d := i - (k - 1) * s.blockSize;
      assert i == s.blockSize * (k - 1) + d && d < s.blockSize by { assert k * s.blockSize == (k - 1) * s.blockSize + s.blockSize; }
      Quotient(s.blockSize, k - 1, d);
    }
  }

  lemma {:induction false} BlocksLength(s: Source, k: nat)
    requires SourceOk(s) && forall j: nat | j < k :: s.block(j).Some?
    ensures |Blocks(s, k)| == k * s.blockSize
  {
    if k > 0 { BlocksLength(s, k - 1); }
  }

  /** What read_all delivers is a slice of the blocks laid end to end. */
  lemma ReadIsSlice(s: Source, k: nat, offset: nat, bytes: seq<Byte>)
    requires SourceOk(s) && (forall j: nat | j < k :: s.block(j).Some?)
    requires Holds(s, offset, bytes) && offset + |bytes| <= k * s.blockSize
    ensures |Blocks(s, k)| == k * s.blockSize && bytes == Blocks(s, k)[offset..offset + |bytes|]
  {
    BlocksLength(s, k);
    forall i: nat | i < |bytes| ensures bytes[i] == Blocks(s, k)[offset + i] {
      assert Agrees(s, offset, bytes, offset + i);
      BlocksAt(s, k, offset + i);
    }
  }
}
