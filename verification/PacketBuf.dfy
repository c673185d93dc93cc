/** One packet in its fixed 2304-byte buffer: headers and tails are added by moving the range. */
module PacketBuf {
  import opened Common

  const PACKET_HEADROOM: nat := 64
  const PACKET_CAPACITY: nat := 2304

  /** `s` with `part` written over it at `at`. */
  function Splice(s: seq<byte>, at: nat, part: seq<byte>): seq<byte>
    requires at + |part| <= |s|
  {
    s[..at] + part + s[at + |part|..]
  }

  /** Two writes next to each other are one write. */
  lemma AdjacentWrites(s: seq<byte>, at: nat, first: seq<byte>, second: seq<byte>)
    requires at + |first| + |second| <= |s|
    ensures Splice(Splice(s, at, first), at + |first|, second) == Splice(s, at, first + second)
  {
  }

  method CopyInto(storage: array<byte>, at: nat, part: seq<byte>)
    requires at + |part| <= storage.Length
    modifies storage
    ensures storage[..] == Splice(old(storage[..]), at, part)
  {
    for i := 0 to |part|
      invariant storage[..] == Splice(old(storage[..]), at, part[..i])
    {
      storage[at + i] := part[i];
      AdjacentWrites(old(storage[..]), at, part[..i], [part[i]]);
      assert part[..i] + [part[i]] == part[..i + 1];
    }
    assert part[..|part|] == part;
  }

  class Packet {
    const storage: array<byte>
    var start: nat
    var end: nat

    ghost predicate Valid()
      reads this
    {
      storage.Length == PACKET_CAPACITY && start <= end <= PACKET_CAPACITY
    }

    function Contents(): seq<byte>
      requires Valid()
      reads this, storage
    {
      storage[start..end]
    }

    constructor (storage: array<byte>)
      requires storage.Length == PACKET_CAPACITY
      ensures Valid() && this.storage == storage && start == end == PACKET_HEADROOM
    {
      this.storage := storage;
      start, end := PACKET_HEADROOM, PACKET_HEADROOM;
    }

    method SetReadLen(len: nat) returns (ok: bool)
      requires Valid()
      modifies this
      ensures Valid()
      ensures ok == (len <= PACKET_CAPACITY - PACKET_HEADROOM)
      ensures if ok then start == PACKET_HEADROOM && end == start + len else start == old(start) && end == old(end)
    {
      if len > PACKET_CAPACITY - PACKET_HEADROOM {
        return false;
      }
      start, end := PACKET_HEADROOM, PACKET_HEADROOM + len;
      return true;
    }

    method Prepend(len: nat) returns (ok: bool)
      requires Valid()
      modifies this`start
      ensures Valid()
      ensures ok == (len <= old(start)) && start == if ok then old(start) - len else old(start)
      ensures ok ==> Contents()[len..] == old(Contents())
    {
      if len > start {
        return false;
      }
      start := start - len;
      return true;
    }

    method ExtendTail(len: nat) returns (ok: bool)
      requires Valid()
      modifies this`end
      ensures Valid()
      ensures ok == (old(end) + len <= PACKET_CAPACITY) && end == if ok then old(end) + len else old(end)
      ensures ok ==> Contents()[..|old(Contents())|] == old(Contents())
    {
      if end + len > PACKET_CAPACITY {
        return false;
      }
      end := end + len;
      return true;
    }

    method TrimFront(len: nat) returns (ok: bool)
      requires Valid()
      modifies this`start
      ensures Valid()
      ensures ok == (len <= |old(Contents())|)
      ensures Contents() == if ok then old(Contents())[len..] else old(Contents())
    {
      if len > end - start {
        return false;
      }
      start := start + len;
      return true;
    }

    method Truncate(len: nat) returns (ok: bool)
      requires Valid()
      modifies this`end
      ensures Valid()
      ensures ok == (len <= |old(Contents())|)
      ensures Contents() == if ok then old(Contents())[..len] else old(Contents())
    {
      if len > end - start {
        return false;
      }
      end := start + len;
      return true;
    }

    method SetRange(start: nat, end: nat) returns (ok: bool)
      requires Valid()
      modifies this
      ensures Valid()
      ensures ok == (start <= end <= PACKET_CAPACITY)
      ensures if ok then this.start == start && this.end == end
              else this.start == old(this.start) && this.end == old(this.end)
    {
      if start > end || end > PACKET_CAPACITY {
        return false;
      }
      this.start, this.end := start, end;
      return true;
    }
  }
}
