/** Full transfers over descriptors that move part of the data, or none, on every call. */
module AtomicIo {
  import opened Bits

  const MAX_IO_BUFSIZ: nat := 8 * 1024 * 1024

  datatype Errno = None | EINTR | EAGAIN | EPIPE | ENOSPC | Fatal

  predicate Recoverable(e: Errno) {
    e.EINTR? || e.EAGAIN?
  }

  /** What a transfer is asked to move, once its length is clamped. */
  function Clamped(len: nat): nat {
    if len > MAX_IO_BUFSIZ then MAX_IO_BUFSIZ else len
  }

  /**
   * A stream and the kernel behind it. Each call may move any part of what it is asked to, fail, or ask to
   * be tried again; `patience` is how many more times it answers without moving anything, whatever the
   * number. While one side is at work the other may be, too: a read can find more data sent.
   */
  class Channel {
    var sent: seq<byte>
    var received: nat
    var patience: nat
    var errno: Errno

    ghost predicate Valid()
      reads this
    {
      received <= |sent|
    }

    constructor (patience: nat)
      ensures Valid() && sent == [] && received == 0
    {
      sent, received, errno := [], 0, None;
      this.patience := patience;
    }

    /** send or write */
    method Send(buf: array<byte>, from: nat, len: nat) returns (nw: int)
      requires Valid() && from + len <= buf.Length
      modifies this
      ensures Valid() && received == old(received)
      ensures -1 <= nw <= len && patience <= old(patience)
      ensures sent == old(sent) + if nw > 0 then buf[from..from + nw] else []
      ensures nw == 0 || (nw == -1 && Recoverable(errno)) ==> patience < old(patience)
    {
      nw :| -1 <= nw <= len;
      var reason: Errno := *;
      if nw <= 0 && patience == 0 {
        nw, errno := -1, Fatal;
      } else if nw <= 0 {
        errno, patience := reason, patience - 1;
      } else {
        sent := sent + buf[from..from + nw];
      }
    }

    /** read: 0 when the other side is done and everything it sent was read */
    method Read(buf: array<byte>, at: nat, len: nat) returns (nr: int)
      requires Valid() && at + len <= buf.Length
      modifies this, buf
      ensures Valid() && old(sent) <= sent
      ensures -1 <= nr <= len && patience <= old(patience)
      ensures received == old(received) + if nr > 0 then nr else 0
      ensures forall k :: at <= k < at + nr ==> buf[k] == sent[old(received) + k - at]
      ensures forall i :: 0 <= i < buf.Length && !(at <= i < at + nr) ==> buf[i] == old(buf[i])
      ensures nr == 0 && len > 0 ==> received == |sent|
      ensures nr == -1 && Recoverable(errno) ==> patience < old(patience)
    {
      var more: seq<byte> := *;
      sent := sent + more;
      nr :| -1 <= nr <= len;
      var reason: Errno := *;
      if nr > 0 && received + nr <= |sent| {
        ghost var start := received;
        for i := at to at + nr
          invariant received == start && sent == old(sent) + more && patience == old(patience)
          invariant forall k :: at <= k < i ==> buf[k] == sent[start + k - at]
          invariant forall k :: 0 <= k < buf.Length && !(at <= k < i) ==> buf[k] == old(buf[k])
        {
          buf[i] := sent[received + i - at];
        }
        received := received + nr;
      } else if nr == 0 && (len == 0 || received == |sent|) {
        errno := reason;
      } else if patience == 0 {
        nr, errno := -1, Fatal;
      } else {
        nr, errno, patience := -1, reason, patience - 1;
      }
    }
  }

  /** send_in_full: on success all of the clamped length was sent, in order, with no gap and no repeat. */
  method SendInFull(ch: Channel, buf: array<byte>, len: nat) returns (r: int)
    requires ch.Valid() && len <= buf.Length
    modifies ch
    ensures ch.Valid() && ch.received == old(ch.received)
    ensures r == -1 || r == if len <= 8_388_608 then len else 8_388_608
    ensures r >= 0 ==> ch.sent == old(ch.sent) + buf[..r]
    ensures r == -1 ==> !Recoverable(ch.errno)
    ensures r == -1 ==> old(ch.sent) <= ch.sent < old(ch.sent) + buf[..if len <= 8_388_608 then len else 8_388_608]
  {
    var count := Clamped(len);
    var pos := 0;
    while count > pos
      invariant 0 <= pos <= count && ch.Valid() && ch.received == old(ch.received)
      invariant ch.sent == old(ch.sent) + buf[..pos]
      decreases count - pos, ch.patience
    {
      var nw := ch.Send(buf, pos, count - pos);
      if nw == -1 {
        if Recoverable(ch.errno) {
          continue;
        }
        return -1;
      }
      assert buf[..pos] + (if nw > 0 then buf[pos..pos + nw] else []) == buf[..pos + nw];
      pos := pos + nw;
    }
    return pos;
  }

  /** write_in_full: the same, except that a write of nothing at all means the device is full. */
  method WriteInFull(ch: Channel, buf: array<byte>, len: nat) returns (r: int)
    requires ch.Valid() && len <= buf.Length
    modifies ch
    ensures ch.Valid() && ch.received == old(ch.received)
    ensures r == -1 || r == if len <= 8_388_608 then len else 8_388_608
    ensures r >= 0 ==> ch.sent == old(ch.sent) + buf[..r]
    ensures r == -1 ==> !Recoverable(ch.errno)
    ensures r == -1 ==> old(ch.sent) <= ch.sent < old(ch.sent) + buf[..if len <= 8_388_608 then len else 8_388_608]
  {
    var count := Clamped(len);
    var pos := 0;
    while count > pos
      invariant 0 <= pos <= count && ch.Valid() && ch.received == old(ch.received)
      invariant ch.sent == old(ch.sent) + buf[..pos]
      decreases count - pos, ch.patience
    {
      var nw := ch.Send(buf, pos, count - pos);
      if nw == -1 {
        if Recoverable(ch.errno) {
          continue;
        }
        return -1;
      } else if nw == 0 {
        ch.errno := ENOSPC;
        return -1;
      }
      assert buf[..pos] + buf[pos..pos + nw] == buf[..pos + nw];
      pos := pos + nw;
    }
    return pos;
  }

  /** read_in_full: what was read is what comes next in the stream, and less than asked only at its end. */
  method ReadInFull(ch: Channel, buf: array<byte>, len: nat) returns (r: int)
    requires ch.Valid() && len <= buf.Length
    modifies ch, buf
    ensures ch.Valid() && old(ch.sent) <= ch.sent
    ensures -1 <= r <= len && r <= 8_388_608
    ensures var got := ch.received - old(ch.received);
            && 0 <= got <= len && got <= 8_388_608 && buf[..got] == ch.sent[old(ch.received)..ch.received]
            && (if r >= 0 then got == r else got < len && got < 8_388_608)
    ensures 0 <= r < len && r < 8_388_608 ==> ch.received == |ch.sent| && ch.errno == EPIPE
    ensures r == -1 ==> !Recoverable(ch.errno)
    ensures forall i :: len <= i < buf.Length ==> buf[i] == old(buf[i])
  {
    var count := Clamped(len);
    var pos := 0;
    while count > pos
      invariant 0 <= pos <= count && ch.Valid() && old(ch.sent) <= ch.sent
      invariant ch.received == old(ch.received) + pos
      invariant forall k :: 0 <= k < pos ==> buf[k] == ch.sent[old(ch.received) + k]
      invariant forall i :: count <= i < buf.Length ==> buf[i] == old(buf[i])
      decreases count - pos, ch.patience
    {
      var nr := ch.Read(buf, pos, count - pos);
      if nr == -1 {
        if Recoverable(ch.errno) {
          continue;
        }
        return -1;
      } else if nr == 0 {
        ch.errno := EPIPE;
        return pos;
      }
      pos := pos + nr;
    }
    return pos;
  }

  /** xread: one read that moves something, meets the end, or really fails. */
  method XRead(ch: Channel, buf: array<byte>, len: nat) returns (r: int)
    requires ch.Valid() && len <= buf.Length
    modifies ch, buf
    ensures ch.Valid() && old(ch.sent) <= ch.sent
    ensures -1 <= r <= len && r <= 8_388_608 && (r == -1 ==> !Recoverable(ch.errno))
    ensures ch.received == old(ch.received) + if r > 0 then r else 0
    ensures r >= 0 ==> buf[..r] == ch.sent[old(ch.received)..ch.received]
    ensures r == 0 && len > 0 ==> ch.received == |ch.sent|
    ensures forall i :: 0 <= i < buf.Length && !(0 <= i < r) ==> buf[i] == old(buf[i])
  {
    var count := Clamped(len);
    while true
      invariant ch.Valid() && old(ch.sent) <= ch.sent && ch.received == old(ch.received)
      invariant buf[..] == old(buf[..])
      decreases ch.patience
    {
      var nr := ch.Read(buf, 0, count);
      if nr < 0 && Recoverable(ch.errno) {
        continue;
      }
      return nr;
    }
  }

  /** xwrite: one write that moves a prefix of the buffer, or really fails. */
  method XWrite(ch: Channel, buf: array<byte>, len: nat) returns (r: int)
    requires ch.Valid() && len <= buf.Length
    modifies ch
    ensures ch.Valid() && ch.received == old(ch.received)
    ensures -1 <= r <= len && r <= 8_388_608 && (r == -1 ==> !Recoverable(ch.errno))
    ensures ch.sent == old(ch.sent) + if r > 0 then buf[..r] else []
  {
    var count := Clamped(len);
    while true
      invariant ch.Valid() && ch.received == old(ch.received) && ch.sent == old(ch.sent)
      decreases ch.patience
    {
      var nw := ch.Send(buf, 0, count);
      if nw < 0 && Recoverable(ch.errno) {
        continue;
      }
      assert nw > 0 ==> buf[0..nw] == buf[..nw];
      return nw;
    }
  }

  /** A full send read in full at the other end of a fresh channel arrives unchanged, as far as it is read. */
  method SendThenRead(patience: nat, src: array<byte>, dst: array<byte>, len: nat) returns (s: int, r: int)
    requires src != dst && len <= src.Length && len <= dst.Length
    modifies dst
    ensures s >= 0 && r >= 0 ==> s == r == (if len <= 8_388_608 then len else 8_388_608) && dst[..r] == src[..r]
  {
    var ch := new Channel(patience);
    s := SendInFull(ch, src, len);
    r := -1;
    if s >= 0 {
      r := ReadInFull(ch, dst, len);
    }
  }
}
