/**
 * A first-in first-out buffer of bytes, kept as a list of slices.
 */
module ByteArrayBuffers {
  import opened Basics

  type byte = x: int | 0 <= x < 256
  const TWO_32: int := 0x1_0000_0000

  // Sizes and offsets are unsigned 32-bit numbers.
  function U32(x: int): nat { x % TWO_32 }

  // ---------- the flat sequence ----------

  function Flat(slices: seq<seq<byte>>): seq<byte> {
    if slices == [] then [] else slices[0] + Flat(slices[1..])
  }

  lemma {:induction false} FlatConcat(a: seq<seq<byte>>, b: seq<seq<byte>>)
    ensures Flat(a + b) == Flat(a) + Flat(b)
  {
    if a == [] {
      assert a + b == b;
    } else {
      assert (a + b)[0] == a[0] && (a + b)[1..] == a[1..] + b;
      FlatConcat(a[1..], b);
      Associative(a[0], Flat(a[1..]), Flat(b));
    }
  }

  lemma FlatOne(s: seq<byte>)
    ensures Flat([s]) == s
  {
    assert [s][1..] == [];
  }

  // What reading len bytes from off on should give.
  function Window(s: seq<byte>, len: nat, off: nat): (r: seq<byte>)
    ensures |r| <= len
  {
    if off >= |s| then [] else if off + len > |s| then s[off..] else s[off..off + len]
  }

  // Reading goes on in the next slice.
  lemma WindowConcat(a: seq<byte>, b: seq<byte>, len: nat, off: nat)
    ensures Window(a + b, len, off)
         == Window(a, len, off) + Window(b, len - |Window(a, len, off)|, if off >= |a| then off - |a| else 0)
  {
  }

  lemma WindowEmpty(s: seq<byte>, len: nat, off: nat)
    ensures Window(s, len, off) == [] <==> off >= |s| || len == 0
    ensures Window([], len, off) == []
  {
  }

  // ---------- one slice ----------

  method Memcpy(buffer: array<byte>, at: nat, data: seq<byte>)
    requires at + |data| <= buffer.Length
    modifies buffer
    ensures buffer[..] == old(buffer[..at]) + data + old(buffer[at + |data|..])
  {
    ghost var before := buffer[..];
    for i := 0 to |data|
      invariant forall k :: 0 <= k < buffer.Length ==> buffer[k] == if at <= k < at + i then data[k - at] else before[k]
    {
      buffer[at + i] := data[i];
    }
    assert buffer[..] == before[..at] + data + before[at + |data|..];
  }

  // Copies to the buffer from place `at` on, as far as the slice reaches.
  method CopyDataToBuffer(data: seq<byte>, buffer: array<byte>, at: nat, length: nat, srcOffs: nat) returns (n: nat)
    requires srcOffs + length < TWO_32 && at + length <= buffer.Length
    modifies buffer
    ensures n == |Window(data, length, srcOffs)|
    ensures buffer[..] == old(buffer[..at]) + Window(data, length, srcOffs) + old(buffer[at + n..])
  {
    if srcOffs >= |data| {
      assert buffer[..] == buffer[..at] + [] + buffer[at..];
      return 0;
    }
    n := length;
    if U32(srcOffs + length) > |data| {
      n := |data| - srcOffs;
    }
    assert Window(data, length, srcOffs) == data[srcOffs..srcOffs + n];
    Memcpy(buffer, at, data[srcOffs..srcOffs + n]);
  }

  // The first and last bytes are cut off.
  function TruncateData(data: seq<byte>, truncLeft: nat, truncRight: nat): (r: seq<byte>)
    requires truncLeft + truncRight <= |data|
    ensures data == data[..truncLeft] + r + data[|data| - truncRight..]
  {
    data[truncLeft..|data| - truncRight]
  }

  // ---------- the buffer ----------

  class ByteArrayBuffer {
    var dataListM: seq<seq<byte>>
    var dataLengthM: nat

    // All bytes ever pushed, and those taken out again.
    ghost var pushed: seq<byte>
    ghost var taken: seq<byte>

    constructor ()
      ensures Valid() && Contents() == [] && pushed == taken == []
    {
      dataListM, dataLengthM, pushed, taken := [], 0, [], [];
    }

    ghost function Contents(): seq<byte>
      reads this`dataListM
    {
      Flat(dataListM)
    }

    // Bytes leave in the order they came, none lost and none repeated.
    ghost predicate Valid()
      reads this
    {
      dataLengthM == |Contents()| && pushed == taken + Contents()
    }

    method Push(data: seq<byte>)
      requires Valid()
      modifies this
      ensures Valid() && Contents() == old(Contents()) + data && pushed == old(pushed) + data && taken == old(taken)
    {
      FlatConcat(dataListM, [data]);
      FlatOne(data);
      Associative(taken, Contents(), data);
      dataListM := dataListM + [data];
      dataLengthM := dataLengthM + |data|;
      pushed := pushed + data;
    }

    method Clear()
      requires Valid()
      modifies this
      ensures Valid() && Contents() == [] && pushed == old(pushed) && taken == pushed
    {
      taken := taken + Contents();
      dataLengthM := 0;
      while dataListM != []
        invariant dataLengthM == 0 && pushed == old(pushed) && taken == old(taken) + old(Contents())
        decreases |dataListM|
      {
        dataListM := dataListM[1..];
      }
    }

    // Copies bytes from srcOffs on to the buffer; nothing is taken out.
    method GetBytesToBuffer(buffer: array<byte>, bufferLength: nat, srcOffs: nat) returns (copiedBytes: nat)
      requires Valid() && bufferLength <= buffer.Length && srcOffs + bufferLength < TWO_32
      modifies buffer
      ensures Valid() && copiedBytes == |Window(Contents(), bufferLength, srcOffs)|
      ensures buffer[..] == Window(Contents(), bufferLength, srcOffs) + old(buffer[copiedBytes..])
    {
      hide Window, Flat;
      copiedBytes := 0;
      var i: nat, offs: nat := 0, srcOffs;
      ghost var done: seq<byte> := [];
      ghost var all := Window(Contents(), bufferLength, srcOffs);
      assert dataListM[0..] == dataListM && done + all == all;
      while copiedBytes < bufferLength && i < |dataListM|
        invariant 0 <= i <= |dataListM| && copiedBytes == |done| <= bufferLength && offs + bufferLength < TWO_32
        invariant all == done + Window(Flat(dataListM[i..]), bufferLength - copiedBytes, offs)
        invariant buffer[..] == done + old(buffer[copiedBytes..])
        decreases |dataListM| - i
      {
        FlatStep(dataListM, i);
        var cbytes;
        cbytes, done := CopySlice(dataListM[i], buffer, copiedBytes, bufferLength, offs, done, dataListM[i + 1..],
            old(buffer[..]), all);
        if cbytes != 0 {
          copiedBytes := copiedBytes + cbytes;
          offs := 0;
        } else {
          offs := offs - |dataListM[i]|;
        }
        i := i + 1;
      }
      WindowDone(dataListM, i, bufferLength - copiedBytes, offs);
      assert done + [] == done;
    }

    // Reads bytes and takes them out.
    method PopBytesToBuffer(buffer: array<byte>, bufferLength: nat) returns (n: nat)
      requires Valid() && bufferLength <= buffer.Length && bufferLength < TWO_32
      modifies this, buffer
      ensures Valid() && n == if |old(Contents())| < bufferLength then |old(Contents())| else bufferLength
      ensures buffer[..] == old(Contents())[..n] + old(buffer[n..])
      ensures Contents() == old(Contents())[n..] && pushed == old(pushed) && taken == old(taken) + old(Contents())[..n]
    {
      var copied := GetBytesToBuffer(buffer, bufferLength, 0);
      n := Drop(copied);
    }

    // Takes bytes out, slice by slice, the last one in part.
    method Drop(lengthP: nat) returns (n: nat)
      requires Valid() && lengthP <= dataLengthM
      modifies this
      ensures Valid() && n == lengthP && Contents() == old(Contents())[n..]
      ensures pushed == old(pushed) && taken == old(taken) + old(Contents())[..n]
    {
      ghost var was := Contents();
      var length := lengthP;
      while length > 0
        invariant pushed == old(pushed) && taken == old(taken)
        invariant 0 <= length <= lengthP && length <= |Contents()| == dataLengthM
        invariant Contents() == was[lengthP - length..]
        decreases length, |dataListM|
      {
        var slice := dataListM[0];
        DropStep(was, lengthP - length, slice, dataListM[1..]);
        if |slice| <= length {
          dataListM := dataListM[1..];
          dataLengthM := dataLengthM - |slice|;
          length := length - |slice|;
        } else {
          ghost var rest := dataListM[1..];
          dataListM := [TruncateData(slice, length, 0)] + dataListM[1..];
          assert dataListM[1..] == rest;
          dataLengthM := dataLengthM - length;
          length := 0;
        }
      }
      taken := taken + was[..lengthP];
      TakenOver(old(taken), was, lengthP);
      n := lengthP;
    }
  }

  // One slice's share of a copy.
  method CopySlice(slice: seq<byte>, buffer: array<byte>, at: nat, bufferLength: nat, offs: nat, ghost done: seq<byte>,
    ghost rest: seq<seq<byte>>, ghost before: seq<byte>, ghost all: seq<byte>)
        returns (cbytes: nat, ghost done': seq<byte>)
    requires at == |done| < bufferLength <= buffer.Length == |before| && offs + bufferLength < TWO_32
    requires buffer[..] == done + before[|done|..]
    requires all == done + Window(slice + Flat(rest), bufferLength - |done|, offs)
    modifies buffer
    ensures cbytes == |done'| - |done| && |done'| <= bufferLength && buffer[..] == done' + before[|done'|..]
    ensures cbytes == 0 <==> offs >= |slice|
    ensures all == done' + Window(Flat(rest), bufferLength - |done'|, if offs >= |slice| then offs - |slice| else 0)
  {
    hide Window, Flat;
    WindowConcat(slice, Flat(rest), bufferLength - at, offs);
    WindowEmpty(slice, bufferLength - at, offs);
    ghost var w := Window(slice, bufferLength - at, offs);
    Associative(done, w, Window(Flat(rest), bufferLength - at - |w|, if offs >= |slice| then offs - |slice| else 0));
    assert buffer[..at] == done && buffer[at + |w|..] == before[at + |w|..];
    cbytes := CopyDataToBuffer(slice, buffer, at, bufferLength - at, offs);
    done' := done + w;
  }

  lemma FlatStep(slices: seq<seq<byte>>, i: nat)
    requires i < |slices|
    ensures Flat(slices[i..]) == slices[i] + Flat(slices[i + 1..])
  {
    assert slices[i..][0] == slices[i] && slices[i..][1..] == slices[i + 1..];
  }

  lemma WindowDone(slices: seq<seq<byte>>, i: nat, len: nat, off: nat)
    requires i <= |slices| && (len == 0 || i == |slices|)
    ensures Window(Flat(slices[i..]), len, off) == []
  {
    WindowEmpty(Flat(slices[i..]), len, off);
  }

  lemma TakenOver(taken: seq<byte>, all: seq<byte>, n: nat)
    requires n <= |all|
    ensures taken + all == (taken + all[..n]) + all[n..]
  {
  }

  lemma DropStep(was: seq<byte>, n: nat, slice: seq<byte>, rest: seq<seq<byte>>)
    requires n <= |was| && was[n..] == slice + Flat(rest)
    ensures n + |slice| <= |was| && was[n + |slice|..] == Flat(rest)
    ensures forall k :: 0 <= k <= |slice| ==> was[n + k..] == slice[k..] + Flat(rest)
  {
    forall k | 0 <= k <= |slice|
      ensures was[n + k..] == slice[k..] + Flat(rest)
    {
      assert was[n + k..] == was[n..][k..];
    }
  }
}
