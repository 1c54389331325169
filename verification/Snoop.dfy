/** A ring of bytes (utils/ringbuffer.cc): a fixed array whose contents wrap around. */
module Ring {
  type Byte = x: int | 0 <= x < 256

  function Min(a: nat, b: nat): nat {
    if a < b then a else b
  }

  class RingBuffer {
    const base: array<Byte>
    var head: nat
    var tail: nat
    var available: nat

    ghost predicate Valid()
      reads this
    {
      && 0 < base.Length && head < base.Length && tail < base.Length && available <= base.Length
      && tail == Wrap(head + (base.Length - available))
    }

    function Wrap(x: nat): nat
      requires x < 2 * base.Length
    {
      if x >= base.Length then x - base.Length else x
    }

    /** The bytes in the ring, oldest first. */
    ghost function Contents(): (s: seq<Byte>)
      requires Valid()
      reads this, base
      ensures |s| == base.Length - available
    {
      if head + (base.Length - available) <= base.Length then base[head..head + (base.Length - available)]
      else base[head..] + base[..head + (base.Length - available) - base.Length]
    }

    lemma ByteAt(i: nat)
      requires Valid() && i < base.Length - available
      ensures Contents()[i] == base[Wrap(head + i)]
    {
    }

    constructor (size: nat)
      requires 0 < size
      ensures Valid() && fresh(base) && base.Length == size && Contents() == []
    {
      base := new Byte[size](_ => 0);
      head, tail, available := 0, 0, size;
    }

    /** Takes as many bytes as there is room for. */
    method Insert(p: seq<Byte>) returns (n: nat)
      requires Valid()
      modifies this`tail, this`available, base
      ensures Valid() && n == Min(|p|, old(available)) && available == old(available) - n
      ensures Contents() == old(Contents()) + p[..n]
    {
      n := |p|;
      if n > available {
        n := available;
      }
      hide Contents, Wrap;
      ghost var before := Contents();
      assert before + p[..0] == before;
      var i := 0;
      while i != n
        invariant i <= n && Valid() && available == old(available) - i
        invariant Contents() == before + p[..i]
        decreases n - i
      {
        InsertOne(p[i]);
        SliceNext(p, 0, i);
        assert before + p[..i] + [p[i]] == before + p[..i + 1];
        i := i + 1;
      }
    }

    method InsertOne(b: Byte)
      requires Valid() && 0 < available
      modifies this`tail, this`available, base
      ensures Valid() && available == old(available) - 1 && Contents() == old(Contents()) + [b]
    {
      base[tail] := b;
      tail := tail + 1;
      if tail >= base.Length {
        tail := 0;
      }
      available := available - 1;
    }

    /** Drops bytes from the front. */
    method Delete(length: nat) returns (n: nat)
      requires Valid()
      modifies this`head, this`available
      ensures Valid() && n == Min(length, |old(Contents())|) && available == old(available) + n
      ensures Contents() == old(Contents())[n..]
    {
      n := length;
      if n > base.Length - available {
        n := base.Length - available;
      }
      head := head + n;
      if head >= base.Length {
        head := head - base.Length;
      }
      available := available + n;
    }

    /** Copies bytes from an offset on. */
    method Peek(offset: nat, length: nat) returns (p: seq<Byte>)
      requires Valid() && offset <= base.Length - available
      ensures |p| == Min(length, |Contents()| - offset) && p == Contents()[offset..offset + |p|]
    {
      var size := base.Length - available;
      var b := Locate(offset);
      p := Copy(b, offset, if offset + length > size then size - offset else length);
    }

    method Copy(from: nat, offset: nat, n: nat) returns (p: seq<Byte>)
      requires Valid() && offset + n <= base.Length - available && from == Wrap(head + offset)
      ensures p == Contents()[offset..offset + n]
    {
      ghost var c := Contents();
      hide Contents, Wrap;
      var b := from;
      p := [];
      while |p| < n
        invariant |p| <= n && b == Wrap(head + offset + |p|) && p == c[offset..offset + |p|]
      {
        ByteAt(offset + |p|);
        WrapNext(head + offset + |p|);
        SliceNext(c, offset, |p|);
        p := p + [base[b]];
        b := b + 1;
        if b >= base.Length {
          b := 0;
        }
      }
    }

    lemma WrapNext(x: nat)
      requires x + 1 < 2 * base.Length
      ensures Wrap(x) < base.Length && Wrap(x + 1) == if Wrap(x) + 1 >= base.Length then 0 else Wrap(x) + 1
    {
    }

    static lemma SliceNext(c: seq<Byte>, from: nat, k: nat)
      requires from + k < |c|
      ensures c[from..from + k + 1] == c[from..from + k] + [c[from + k]]
    {
    }

    method Locate(offset: nat) returns (b: nat)
      requires Valid() && offset <= base.Length - available
      ensures b == Wrap(head + offset)
    {
      b := (head + offset) % base.Length;
    }

    /** Copies bytes from the front and drops them. */
    method Pop(length: nat) returns (p: seq<Byte>)
      requires Valid()
      modifies this`head, this`available
      ensures Valid() && available == old(available) + |p|
      ensures |p| == Min(length, |old(Contents())|)
      ensures p == old(Contents())[..|p|] && Contents() == old(Contents())[|p|..]
    {
      p := Peek(0, length);
      var _ := Delete(|p|);
    }
  }
}

/** The log of packets exchanged with the controller (src/adaptation/debug_nfcsnoop.cc): records of a header
    and data in a ring, the oldest of which make room for the newest. */
module Snoop {
  import opened Ring

  const HEADER_SIZE := 7

  /** The header as it lies in memory: length, time since the record before, direction. */
  function Header(length: nat, delta: nat, received: bool): (h: seq<Byte>)
    ensures |h| == HEADER_SIZE
  {
    [length % 0x100, length / 0x100 % 0x100]
    + [delta % 0x100, delta / 0x100 % 0x100, delta / 0x1_0000 % 0x100, delta / 0x100_0000 % 0x100]
    + [if received then 1 else 0]
  }

  function LengthOf(h: seq<Byte>): nat
    requires |h| == HEADER_SIZE
  {
    h[0] as int + 0x100 * (h[1] as int)
  }

  lemma LengthOfHeader(length: nat, delta: nat, received: bool)
    requires length <= 0xffff
    ensures LengthOf(Header(length, delta, received)) == length
  {
  }

  /** The time in a header, and whether the packet was received. */
  function DeltaOf(h: seq<Byte>): nat
    requires |h| == HEADER_SIZE
  {
    h[2] as int + 0x100 * (h[3] as int) + 0x1_0000 * (h[4] as int) + 0x100_0000 * (h[5] as int)
  }

  function IsReceived(h: seq<Byte>): bool
    requires |h| == HEADER_SIZE
  {
    h[6] == 1
  }

  /** Length, time and direction can be read back from a header, the two numbers in 16 and 32 bits; the direction is
      1 or 0. */
  lemma HeaderReadsBack(length: nat, delta: nat, received: bool)
    ensures var h := Header(length, delta, received);
            && LengthOf(h) == length % 0x1_0000 && DeltaOf(h) == delta % 0x1_0000_0000
            && IsReceived(h) == received && h[6] <= 1
  {
    var h := Header(length, delta, received);
    assert h[2] == delta % 0x100 && h[3] == delta / 0x100 % 0x100;
    assert h[4] == delta / 0x1_0000 % 0x100 && h[5] == delta / 0x100_0000 % 0x100;
    assert h[6] == if received then 1 else 0;
    FourBytes(delta);
  }

  lemma FourBytes(x: nat)
    ensures x % 0x100 + 0x100 * (x / 0x100 % 0x100) + 0x1_0000 * (x / 0x1_0000 % 0x100)
            + 0x100_0000 * (x / 0x100_0000 % 0x100) == x % 0x1_0000_0000
  {
    var q1 := x / 0x100;
    var q2 := q1 / 0x100;
    var q3 := q2 / 0x100;
    var q4 := q3 / 0x100;
    assert q2 == x / 0x1_0000 && q3 == x / 0x100_0000 && q4 == x / 0x1_0000_0000 by { Quotients(x); }
    assert x == 0x100 * q1 + x % 0x100 && q1 == 0x100 * q2 + q1 % 0x100;
    assert q2 == 0x100 * q3 + q2 % 0x100 && q3 == 0x100 * q4 + q3 % 0x100;
    assert x == 0x1_0000_0000 * q4 + x % 0x1_0000_0000;
  }

  lemma Quotients(x: nat)
    ensures x / 0x100 / 0x100 == x / 0x1_0000
    ensures x / 0x1_0000 / 0x100 == x / 0x100_0000
    ensures x / 0x100_0000 / 0x100 == x / 0x1_0000_0000
  {
  }

  /** How many bytes are dropped after a header: one less than the record has, or everything if it has none;
      the whole record if `full`. */
  function Dropped(length: nat, full: bool, size: nat): (n: nat)
    ensures n <= size
  {
    if full then Min(length, size) else if length == 0 then size else Min(length - 1, size)
  }

  /** What is read over a header: a ring that is nearly empty leaves the rest of it as it was. */
  function Reread(c: seq<Byte>, h: seq<Byte>): (h': seq<Byte>)
    requires |h| == HEADER_SIZE
    ensures |h'| == HEADER_SIZE
  {
    var n := Min(HEADER_SIZE, |c|);
    c[..n] + h[n..]
  }

  /** The contents without their first record. */
  function Evict(c: seq<Byte>, h: seq<Byte>, full: bool): (c': seq<Byte>)
    requires |h| == HEADER_SIZE
    ensures |c'| <= |c| - Min(HEADER_SIZE, |c|)
  {
    var rest := c[Min(HEADER_SIZE, |c|)..];
    rest[Dropped(LengthOf(Reread(c, h)), full, |rest|)..]
  }

  /** The contents once there is room for `need` more bytes. */
  function MakeRoom(c: seq<Byte>, h: seq<Byte>, full: bool, total: nat, need: nat): (c': seq<Byte>)
    requires |h| == HEADER_SIZE && need <= total && |c| <= total
    ensures need <= total - |c'| && |c'| <= |c|
    decreases |c|
  {
    if total - |c| >= need then c else MakeRoom(Evict(c, h, full), Reread(c, h), full, total, need)
  }

  predicate Suffix(s: seq<Byte>, c: seq<Byte>) {
    |s| <= |c| && s == c[|c| - |s|..]
  }

  /** Whatever the bytes in the ring, only its oldest ones are dropped. */
  lemma {:induction false} MakeRoomDropsOldest(c: seq<Byte>, h: seq<Byte>, full: bool, total: nat, need: nat)
    requires |h| == HEADER_SIZE && need <= total && |c| <= total
    ensures Suffix(MakeRoom(c, h, full, total, need), c)
    decreases |c|
  {
    if total - |c| < need {
      var c' := Evict(c, h, full);
      assert Suffix(c', c);
      MakeRoomDropsOldest(c', Reread(c, h), full, total, need);
    }
  }

  // ---- records -------------------------------------------------------------------------------------

  datatype Record = Record(data: seq<Byte>, delta: nat, received: bool)

  function Frame(r: Record): (f: seq<Byte>)
    ensures |f| == HEADER_SIZE + |r.data|
  {
    Header(|r.data|, r.delta, r.received) + r.data
  }

  function Frames(s: seq<Record>): seq<Byte> {
    if s == [] then [] else Frame(s[0]) + Frames(s[1..])
  }

  ghost predicate Framable(s: seq<Record>) {
    forall i :: 0 <= i < |s| ==> |s[i].data| <= 0xffff
  }

  /** What evicting the first of some records leaves. */
  lemma EvictFrame(s: seq<Record>, h: seq<Byte>, full: bool)
    requires s != [] && Framable(s) && |h| == HEADER_SIZE
    ensures var rest := s[0].data + Frames(s[1..]);
            Evict(Frames(s), h, full) == rest[Dropped(|s[0].data|, full, |rest|)..]
  {
    var header := Header(|s[0].data|, s[0].delta, s[0].received);
    LengthOfHeader(|s[0].data|, s[0].delta, s[0].received);
    var c, rest := Frames(s), s[0].data + Frames(s[1..]);
    hide Header, Frames, LengthOf;
    assert c == header + rest by { FramesUnfold(s); }
    assert c[..HEADER_SIZE] == header && c[HEADER_SIZE..] == rest;
    assert Reread(c, h) == header;
  }

  lemma FramesUnfold(s: seq<Record>)
    requires s != []
    ensures Frames(s) == Header(|s[0].data|, s[0].delta, s[0].received) + (s[0].data + Frames(s[1..]))
  {
    hide Header;
  }

  lemma FramesSize(s: seq<Record>)
    ensures Frames(s) == [] <==> s == []
  {
    hide Frame;
  }

  /** A record with data leaves its last byte behind, in front of the next header: the records are only kept
      whole when an empty record was the only one. */
  lemma EvictKeepsRecordsExactly(s: seq<Record>, h: seq<Byte>)
    requires s != [] && Framable(s) && |h| == HEADER_SIZE
    ensures s[0].data != [] ==> Evict(Frames(s), h, false) == [s[0].data[|s[0].data| - 1]] + Frames(s[1..])
    ensures Evict(Frames(s), h, false) == Frames(s[1..]) <==> s[0].data == [] && |s| == 1
  {
    EvictFrame(s, h, false);
    FramesSize(s[1..]);
    if s[0].data != [] {
      LastByteStays(s[0].data, Frames(s[1..]));
    }
    hide Evict, Frames, Frame;
  }

  lemma LastByteStays(data: seq<Byte>, after: seq<Byte>)
    requires data != []
    ensures var rest := data + after;
            rest[Dropped(|data|, false, |rest|)..] == [data[|data| - 1]] + after != after
  {
  }

  /** With the whole length dropped the log would always hold whole records, the newest ones, and as many as fit. */
  lemma {:induction false} FullLengthKeepsRecords(s: seq<Record>, h: seq<Byte>, total: nat, need: nat) returns (k: nat)
    requires Framable(s) && |h| == HEADER_SIZE && need <= total && |Frames(s)| <= total
    ensures k <= |s| && MakeRoom(Frames(s), h, true, total, need) == Frames(s[k..])
    ensures k > 0 ==> total - |Frames(s[k - 1..])| < need
    decreases |s|
  {
    k := 0;
    if total - |Frames(s)| < need {
      EvictFrame(s, h, true);
      var c := Frames(s);
      var rest := s[0].data + Frames(s[1..]);
      assert rest[|s[0].data|..] == Frames(s[1..]);
      assert Evict(c, h, true) == Frames(s[1..]);
      k := FullLengthKeepsRecords(s[1..], Reread(c, h), total, need);
      Tails(s, k);
      k := k + 1;
      hide *;
    } else {
      assert s[0..] == s;
    }
  }

  lemma Tails(s: seq<Record>, k: nat)
    requires k < |s|
    ensures s[1..][k..] == s[k + 1..] && (k > 0 ==> s[1..][k - 1..] == s[k..]) && s[0..] == s
  {
  }

  // ---- the log -------------------------------------------------------------------------------------

  /** Milliseconds by name, microseconds by value, in 32 bits; 0 for the first record. */
  function Delta(timestamp: nat, last: nat): nat {
    if last == 0 then 0 else (timestamp - last) % 0x1_0000_0000
  }

  /** The times in the headers of successive records add up to the time of the last, in 32 bits, from that of the
      first, whose own is 0. */
  lemma {:induction false} TimesAddUp(times: seq<nat>, n: nat)
    requires n < |times| && forall i :: 0 <= i < |times| ==> times[i] != 0
    ensures DeltaAt(times, 0) == 0
    ensures (times[0] + DeltaSum(times, n)) % 0x1_0000_0000 == times[n] % 0x1_0000_0000
  {
    if n > 0 {
      TimesAddUp(times, n - 1);
      var a := times[0] + DeltaSum(times, n - 1);
      var d: int := (times[n] as int) - (times[n - 1] as int);
      assert times[0] + DeltaSum(times, n) == a + d % 0x1_0000_0000;
      SumModulo(a, times[n - 1], d);
    }
  }

  lemma SumModulo(a: nat, b: nat, d: int)
    requires a % 0x1_0000_0000 == b % 0x1_0000_0000 && 0 <= b + d
    ensures (a + d % 0x1_0000_0000) % 0x1_0000_0000 == (b + d) % 0x1_0000_0000
  {
  }

  function DeltaAt(times: seq<nat>, i: nat): nat
    requires i < |times|
  {
    Delta(times[i], if i == 0 then 0 else times[i - 1])
  }

  /** The times in the headers of the records up to `n`, after the first. */
  function DeltaSum(times: seq<nat>, n: nat): nat
    requires n < |times|
  {
    if n == 0 then 0 else DeltaSum(times, n - 1) + DeltaAt(times, n)
  }

  class Log {
    const ring: RingBuffer
    var last: nat

    constructor (size: nat)
      requires 0 < size
      ensures fresh(ring) && fresh(ring.base) && ring.Valid() && ring.base.Length == size && ring.Contents() == []
      ensures last == 0
    {
      ring := new RingBuffer(size);
      last := 0;
    }

    /** Logs a packet that fits: evicts from the front until there is room, then appends header and data. `h` is
        what the memory of the header holds before. */
    method Capture(data: seq<Byte>, received: bool, timestamp: nat, h: seq<Byte>)
      requires ring.Valid() && |h| == HEADER_SIZE && HEADER_SIZE + |data| <= ring.base.Length
      modifies this`last, ring, ring.base
      ensures ring.Valid() && last == timestamp
      ensures ring.Contents() ==
                MakeRoom(old(ring.Contents()), h, false, ring.base.Length, HEADER_SIZE + |data|)
                + Header(|data|, Delta(timestamp, old(last)), received) + data
    {
      ghost var c := ring.Contents();
      EvictOld(HEADER_SIZE + |data|, h);
      var header := Header(|data|, Delta(timestamp, last), received);
      last := timestamp;
      Append(header, data);
    }

    method Append(header: seq<Byte>, data: seq<Byte>)
      requires ring.Valid() && |header| + |data| <= ring.available
      modifies ring, ring.base
      ensures ring.Valid() && ring.Contents() == old(ring.Contents()) + header + data
    {
      var n := ring.Insert(header);
      assert header[..n] == header;
      n := ring.Insert(data);
      assert data[..n] == data;
    }

    method EvictOld(need: nat, h: seq<Byte>)
      requires ring.Valid() && |h| == HEADER_SIZE && need <= ring.base.Length
      modifies ring
      ensures ring.Valid() && need <= ring.available
      ensures ring.Contents() == MakeRoom(old(ring.Contents()), h, false, ring.base.Length, need)
    {
      var header := h;
      ghost var c := ring.Contents();
      while ring.available < need
        invariant ring.Valid() && |header| == HEADER_SIZE
        invariant MakeRoom(ring.Contents(), header, false, ring.base.Length, need)
                  == MakeRoom(c, h, false, ring.base.Length, need)
        decreases |ring.Contents()|
      {
        header := EvictOne(header);
      }
    }

    method EvictOne(h: seq<Byte>) returns (header: seq<Byte>)
      requires ring.Valid() && |h| == HEADER_SIZE
      modifies ring
      ensures ring.Valid() && header == Reread(old(ring.Contents()), h)
      ensures ring.Contents() == Evict(old(ring.Contents()), h, false)
    {
      var p := ring.Pop(HEADER_SIZE);
      header := p + h[|p|..];
      var n := LengthOf(header);
      var _ := ring.Delete(if n == 0 then ring.base.Length else n - 1);
    }
  }
}
