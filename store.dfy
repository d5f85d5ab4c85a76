/** The byte store the log persists to: the AbstractStore contract and its RAMStore
    implementation, a buffer of bytes updated in place. */
module Store {
  import opened Basics

  /** `s` with `bytes` written over it from index `idx` on. */
  function Splice(s: seq<u8>, idx: nat, bytes: seq<u8>): (r: seq<u8>)
    requires idx + |bytes| <= |s|
    ensures |r| == |s|
    ensures r[idx..idx + |bytes|] == bytes
    ensures forall i | 0 <= i < |s| && !(idx <= i < idx + |bytes|) :: r[i] == s[i]
  {
    s[..idx] + bytes + s[idx + |bytes|..]
  }

  /** Writing the next byte of `bytes` extends the spliced prefix by one. */
  lemma SpliceStep(s: seq<u8>, idx: nat, bytes: seq<u8>, i: nat)
    requires idx + |bytes| <= |s| && i < |bytes|
    ensures Splice(s, idx, bytes[..i])[idx + i := bytes[i]] == Splice(s, idx, bytes[..i + 1])
  {
    var a, b := Splice(s, idx, bytes[..i])[idx + i := bytes[i]], Splice(s, idx, bytes[..i + 1]);
    forall j | 0 <= j < |s| ensures a[j] == b[j] {
      if idx <= j < idx + i + 1 {
        assert b[j] == b[idx..idx + i + 1][j - idx];
        if j < idx + i {
          assert a[j] == Splice(s, idx, bytes[..i])[idx..idx + i][j - idx];
        }
      }
    }
  }

  /** Two prefixes differ one byte later exactly when they differed already or
      differ in that byte. */
  lemma PrefixDiffers(a: seq<u8>, b: seq<u8>, i: nat)
    requires i < |a| && i < |b|
    ensures (a[..i + 1] != b[..i + 1]) <==> (a[..i] != b[..i] || a[i] != b[i])
  {
    assert a[..i + 1] == a[..i] + [a[i]];
    assert b[..i + 1] == b[..i] + [b[i]];
    if a[..i] != b[..i] {
      assert a[..i + 1][..i] == a[..i] && b[..i + 1][..i] == b[..i];
    }
  }

  /** Writing what is already there leaves the bytes as they are, so a repeated
      update finds nothing to change. */
  lemma {:induction false} SpliceSame(s: seq<u8>, idx: nat, len: nat)
    requires idx + len <= |s|
    ensures Splice(s, idx, s[idx..idx + len]) == s
  {
    var r := Splice(s, idx, s[idx..idx + len]);
    forall i | 0 <= i < |s| ensures r[i] == s[i] {
      if idx <= i < idx + len {
        assert r[i] == r[idx..idx + len][i - idx];
      }
    }
  }

  /** A write followed by a second write of the same bytes equals the first write,
      and the second finds every byte already in place. */
  lemma {:induction false} SpliceIdempotent(s: seq<u8>, idx: nat, bytes: seq<u8>)
    requires idx + |bytes| <= |s|
    ensures Splice(Splice(s, idx, bytes), idx, bytes) == Splice(s, idx, bytes)
  {
    SpliceSame(Splice(s, idx, bytes), idx, |bytes|);
  }

  class RamStore {
    /** Byte offset of the store on the underlying medium (always 0 for a RAM store). */
    const offsetBytes: nat
    /** Number of bytes allocated to the store. */
    const sizeBytes: nat
    /** The malloc'ed buffer. */
    const memory: array<u8>

    ghost predicate Valid()
      reads this
    {
      memory.Length == offsetBytes + sizeBytes
    }

    /** The buffer starts out with whatever malloc returned. */
    constructor (size: nat)
      ensures Valid() && fresh(memory)
      ensures offsetBytes == 0 && sizeBytes == size
      ensures Offset() == 0 && Size() == size && memory.Length == size
    {
      offsetBytes := 0;
      sizeBytes := size;
      memory := new u8[size];
    }

    function Offset(): (o: nat)
      reads this
      ensures o == offsetBytes
    {
      offsetBytes
    }

    function Size(): (n: nat)
      reads this
      ensures n == sizeBytes
    {
      sizeBytes
    }

    /** Zero-fills the bytes [offsetBytes, offsetBytes + sizeBytes). */
    method Clear()
      requires Valid()
      modifies memory
      ensures forall i | 0 <= i < memory.Length ::
        memory[i] == if offsetBytes <= i then 0 else old(memory[i])
    {
      var i := offsetBytes;
      while i < offsetBytes + sizeBytes
        invariant offsetBytes <= i <= offsetBytes + sizeBytes
        invariant forall k | 0 <= k < memory.Length ::
          memory[k] == if offsetBytes <= k < i then 0 else old(memory[k])
      {
        memory[i] := 0;
        i := i + 1;
      }
    }

    method Read8(idx: nat) returns (v: u8)
      requires Valid() && idx < memory.Length
      ensures v == memory[idx]
    {
      v := memory[idx];
    }

    /** Unconditional write of one byte. */
    method Write8(idx: nat, v: u8)
      requires Valid() && idx < memory.Length
      modifies memory
      ensures memory[..] == old(memory[..])[idx := v]
    {
      memory[idx] := v;
    }

    /** Writes one byte if and only if the stored byte differs; reports whether it did. */
    method Update8(idx: nat, v: u8) returns (changed: bool)
      requires Valid() && idx < memory.Length
      modifies memory
      ensures changed <==> old(memory[idx]) != v
      ensures memory[..] == old(memory[..])[idx := v]
      ensures !changed ==> memory[..] == old(memory[..])
    {
      if memory[idx] == v {
        return false;
      }
      memory[idx] := v;
      changed := true;
    }

    /** read<T>: the |len| bytes from idx on, in order. */
    method Read(idx: nat, len: nat) returns (bytes: seq<u8>)
      requires Valid() && idx + len <= memory.Length
      ensures bytes == memory[idx..idx + len]
    {
      bytes := [];
      var i := 0;
      while i < len
        invariant 0 <= i <= len
        invariant bytes == memory[idx..idx + i]
      {
        var b := Read8(idx + i);
        bytes := bytes + [b];
        i := i + 1;
      }
    }

    /** write<T>: every byte written unconditionally, in order. */
    method Write(idx: nat, bytes: seq<u8>)
      requires Valid() && idx + |bytes| <= memory.Length
      modifies memory
      ensures memory[..] == Splice(old(memory[..]), idx, bytes)
    {
      var i := 0;
      while i < |bytes|
        invariant 0 <= i <= |bytes|
        invariant memory[..] == Splice(old(memory[..]), idx, bytes[..i])
      {
        Write8(idx + i, bytes[i]);
        assert bytes[..i + 1] == bytes[..i] + [bytes[i]];
        i := i + 1;
      }
      assert bytes[..i] == bytes;
    }

    /** update<T>: only differing bytes are written; the result says whether any was. */
    method Update(idx: nat, bytes: seq<u8>) returns (updated: bool)
      requires Valid() && idx + |bytes| <= memory.Length
      modifies memory
      ensures memory[..] == Splice(old(memory[..]), idx, bytes)
      ensures updated <==> old(memory[idx..idx + |bytes|]) != bytes
    {
      ghost var before := memory[..];
      ghost var window := before[idx..idx + |bytes|];
      updated := false;
      var i := 0;
      while i < |bytes|
        invariant 0 <= i <= |bytes|
        invariant memory[..] == Splice(before, idx, bytes[..i])
        invariant updated <==> window[..i] != bytes[..i]
      {
        SpliceStep(before, idx, bytes, i);
        PrefixDiffers(window, bytes, i);
        assert memory[idx + i] == window[i];
        var changed := Update8(idx + i, bytes[i]);
        updated := updated || changed;
        i := i + 1;
      }
      assert bytes[..i] == bytes && window[..i] == window;
    }
  }

  /** A write followed by a read of the same range gives back what was written. */
  method WriteThenRead(st: RamStore, idx: nat, bytes: seq<u8>) returns (back: seq<u8>)
    requires st.Valid() && idx + |bytes| <= st.memory.Length
    modifies st.memory
    ensures back == bytes
  {
    st.Write(idx, bytes);
    back := st.Read(idx, |bytes|);
  }

  /** A second update8 with the same arguments changes nothing and reports so. */
  method Update8Twice(st: RamStore, idx: nat, v: u8) returns (first: bool, second: bool)
    requires st.Valid() && idx < st.memory.Length
    modifies st.memory
    ensures first <==> old(st.memory[idx]) != v
    ensures !second
  {
    first := st.Update8(idx, v);
    second := st.Update8(idx, v);
  }
}
