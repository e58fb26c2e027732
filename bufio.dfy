/** A buffered reader over a connection, as far as peeking is concerned. Its
    unread data is what sits in the buffer followed by what the connection will
    still deliver; peeking may move bytes from the connection into the buffer but
    never consumes any. */
module Bufio {
  import opened Base

  newtype byte = x: int | 0 <= x < 0x100

  class Reader {
    /** Bytes read from the connection and not yet consumed. */
    var buf: seq<byte>
    /** Bytes the connection will still deliver before it ends. */
    var pending: seq<byte>
    /** How many bytes one read from the connection delivers at most. */
    const chunk: nat

    ghost predicate Valid()
      reads this
    {
      chunk >= 1
    }

    /** Everything a reader of the stream would still get, in order. */
    ghost function Unread(): seq<byte>
      reads this
    {
      buf + pending
    }

    constructor (buffered: seq<byte>, rest: seq<byte>, readSize: nat)
      requires readSize >= 1
      ensures Valid() && buf == buffered && pending == rest && chunk == readSize
    {
      buf, pending, chunk := buffered, rest, readSize;
    }

    /** Buffered(): how many bytes can be peeked without reading the connection;
        they are the next that many unread bytes. */
    function Buffered(): (n: nat)
      reads this
      ensures n <= |Unread()| && Unread()[..n] == buf
    {
      |buf|
    }

    /** Peek(n): the next n unread bytes, reading the connection until that many
        are buffered or it ends; an error (end of stream) when fewer than n exist.
        The unread data is the same afterwards. */
    method Peek(n: nat) returns (b: seq<byte>, err: bool)
      requires Valid()
      modifies this
      ensures Valid() && Unread() == old(Unread())
      ensures old(buf) <= buf
      ensures n <= |old(buf)| || old(pending) == [] ==> buf == old(buf)
      ensures |buf| >= n || pending == []
      ensures |buf| <= Max(|old(buf)|, n - 1 + chunk)
      ensures b == Unread()[..Min(n, |Unread()|)]
      ensures err <==> n > |Unread()|
    {
      while |buf| < n && pending != []
        invariant Valid() && Unread() == old(Unread())
        invariant old(buf) <= buf
        invariant n <= |old(buf)| || old(pending) == [] ==> buf == old(buf)
        invariant |buf| <= Max(|old(buf)|, n - 1 + chunk)
        decreases |pending|
      {
        var k := Min(chunk, |pending|);
        assert pending == pending[..k] + pending[k..];
        buf, pending := buf + pending[..k], pending[k..];
      }
      if |buf| < n {
        b, err := buf, true;
      } else {
        b, err := buf[..n], false;
      }
    }
  }
}
