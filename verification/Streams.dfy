/** Byte streams as the canonicalizing readers see them. */
module Streams {
  import opened Numbers

  type Byte = bv8

  datatype ReadError = NoError | EndOfFile | BlockTruncated | DeviceError

  /** How many of some reads have a non-empty buffer, and so make progress. */
  function PositiveCount(lengths: seq<nat>): nat {
    if lengths == [] then 0
    else PositiveCount(lengths[..|lengths| - 1]) + if lengths[|lengths| - 1] > 0 then 1 else 0
  }

  lemma SliceOn(s: seq<Byte>, k: nat, n: nat)
    requires k + n <= |s|
    ensures s[..k] + s[k..][..n] == s[..k + n] && s[k..][n..] == s[k + n..]
  {
  }

  /**
   A reader over fixed content that may return less than it was asked for: a read of at least one byte
   yields at least one while any is left, at most what `sizes` says next. It ends with end-of-file, or with a
   device error when `broken`.
   */
  class Source {
    const content: seq<Byte>
    const broken: bool
    var pos: nat
    var sizes: seq<nat>

    constructor (content: seq<Byte>, broken: bool, sizes: seq<nat>)
      ensures this.content == content && this.broken == broken && this.sizes == sizes
      ensures Valid() && Rest() == content
    {
      this.content, this.broken, this.sizes := content, broken, sizes;
      pos := 0;
    }

    ghost predicate Valid()
      reads this
    {
      pos <= |content|
    }

    ghost function Rest(): seq<Byte>
      reads this
      requires Valid()
    {
      content[pos..]
    }

    function EndError(): ReadError { if broken then DeviceError else EndOfFile }

    method Read(want: nat) returns (data: seq<Byte>, err: ReadError)
      requires Valid()
      modifies this
      ensures Valid()
      ensures old(Rest()) == data + Rest()
      ensures |data| <= want
      ensures err == if old(Rest()) == [] then EndError() else NoError
      ensures old(Rest()) != [] && want > 0 ==> |data| > 0
    {
      if pos == |content| {
        return [], EndError();
      }
      var n := Min(want, |content| - pos);
      if sizes != [] {
        n := Min(n, if sizes[0] == 0 then 1 else sizes[0]);
        sizes := sizes[1..];
      }
      data, err := content[pos..pos + n], NoError;
      pos := pos + n;
    }

    /** io.ReadFull: read until the buffer is full or the source ends. */
    method ReadFull(buffer: array<Byte>) returns (n: nat, err: ReadError)
      requires Valid() && buffer.Length > 0
      modifies this, buffer
      ensures Valid() && n <= buffer.Length
      ensures n == Min(buffer.Length, |old(Rest())|)
      ensures Rest() == old(Rest())[n..] && buffer[..n] == old(Rest())[..n]
      ensures err == if n == buffer.Length then NoError
                     else if broken then DeviceError
                     else if n == 0 then EndOfFile else BlockTruncated
    {
      ghost var all := Rest();
      n := 0;
      while n < buffer.Length
        invariant Valid() && n <= buffer.Length
        invariant n <= |all| && Rest() == all[n..] && buffer[..n] == all[..n]
      {
        var data, e := Read(buffer.Length - n);
        if e != NoError {
          err := if broken then DeviceError else if n == 0 then EndOfFile else BlockTruncated;
          return;
        }
        OneReadOn(all, n, data, Rest());
        Put(buffer, n, data);
        n := n + |data|;
      }
      err := NoError;
    }
  }

  lemma OneReadOn(all: seq<Byte>, n: nat, data: seq<Byte>, rest: seq<Byte>)
    requires n <= |all| && all[n..] == data + rest
    ensures n + |data| <= |all| && all[..n] + data == all[..n + |data|] && rest == all[n + |data|..]
  {
    assert all[n..][..|data|] == data && all[n..][|data|..] == rest;
    SliceOn(all, n, |data|);
  }

  /** Put some bytes behind what the buffer already holds. */
  method Put(buffer: array<Byte>, at: nat, data: seq<Byte>)
    requires at + |data| <= buffer.Length
    modifies buffer
    ensures buffer[..at + |data|] == old(buffer[..at]) + data
  {
    forall i | 0 <= i < |data| {
      buffer[at + i] := data[i];
    }
    assert buffer[..at + |data|] == buffer[..at] + buffer[at..at + |data|];
  }
}
