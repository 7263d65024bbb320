// SSLBuffer: a byte queue whose offset, size and capacity are 16-bit fields.
module TlsBuffer {
  import opened Bits

  const U16: nat := 0x1_0000
  const ALIGN: nat := 8

  class SSLBuffer {
    var buf: array?<byte>
    var offset: nat
    var size: nat
    var cap: nat

    ghost predicate Valid()
      reads this
    {
      && offset < U16 && cap < U16 && size <= cap
      && (buf == null ==> offset == size == cap == 0)
      && (buf != null ==> offset + cap <= buf.Length)
    }

    // The contents: what data() and size() denote.
    ghost function Data(): (d: seq<byte>)
      requires Valid()
      reads this, buf
      ensures |d| == size
    {
      if buf == null then [] else buf[offset..offset + size]
    }

    // Offset plus capacity is at most 65536, so that the offset wraps only when nothing is left.
    ghost predicate Fits()
      reads this
    {
      offset + cap <= U16
    }

    constructor ()
      ensures Valid() && Fits() && buf == null
    {
      buf, offset, size, cap := null, 0, 0, 0;
    }

    method Clear()
      modifies this
      ensures Valid() && Fits() && buf == null && Data() == []
    {
      buf, offset, size, cap := null, 0, 0, 0;
    }

    // addr is the address that malloc returns, which decides the alignment slack.
    method EnsureCap(headerLen: nat, newCap: nat, addr: nat) returns (ok: bool)
      requires Valid()
      modifies this
      ensures Valid() && Data() == old(Data())
      ensures ok <==> newCap < U16
      ensures ok ==> cap >= newCap
      ensures !ok || old(cap) >= newCap ==> buf == old(buf) && offset == old(offset) && cap == old(cap) && size == old(size)
      ensures ok && old(cap) < newCap ==> fresh(buf) && cap == newCap && offset == Slack(headerLen + addr)
      ensures ok && old(cap) < newCap ==> (offset + headerLen + addr) % ALIGN == 0
      ensures ok && old(cap) < newCap ==> forall i | 0 <= i < offset :: buf[i] == 0
    {
      if newCap > 0xffff {
        return false;
      }
      if cap >= newCap {
        return true;
      }
      var newBuf := new byte[newCap + ALIGN - 1](i => 0);
      var newOffset := Slack(headerLen + addr);
      SlackAligns(headerLen + addr);
      CopyTo(newBuf, newOffset);
      buf, offset, cap := newBuf, newOffset, newCap;
      return true;
    }

    // The contents at the given offset of new memory.
    method CopyTo(newBuf: array<byte>, newOffset: nat)
      requires Valid() && newBuf != buf && newOffset + size <= newBuf.Length
      modifies newBuf
      ensures newBuf[newOffset..newOffset + size] == Data()
      ensures forall i | 0 <= i < newOffset :: newBuf[i] == old(newBuf[i])
    {
      if buf != null {
        forall i | 0 <= i < size {
          newBuf[newOffset + i] := buf[offset + i];
        }
      }
    }

    // The caller's write to remaining(), followed by DidWrite.
    method Write(data: seq<byte>)
      requires Valid() && buf != null && |data| <= cap - size
      modifies this`size, buf
      ensures Valid() && Data() == old(Data()) + data
      ensures forall i | 0 <= i < offset :: buf[i] == old(buf[i])
    {
      var start := offset + size;
      forall i | 0 <= i < |data| {
        buf[start + i] := data[i];
      }
      assert buf[offset..start] == old(buf[offset..start]);
      assert buf[start..start + |data|] == data;
      size := size + |data|;
      assert buf[offset..offset + size] == buf[offset..start] + buf[start..start + |data|];
    }

    // The additions and subtractions are those of uint16_t.
    method Consume(len: nat)
      requires Valid() && len <= size
      modifies this
      ensures Valid() && buf == old(buf) && size == old(size) - len && cap == old(cap) - len
      ensures offset == Wrapped(old(offset) + len)
      ensures old(offset) + len < U16 || len == old(size) ==> Data() == old(Data())[len..]
      ensures old(Fits()) ==> Fits()
    {
      ghost var d := Data();
      offset := Wrapped(offset + len);
      size := size - len;
      cap := cap - len;
      if buf != null && old(offset) + len < U16 {
        assert buf[offset..offset + size] == d[len..];
      }
    }
  }

  // A sum as a uint16_t.
  function Wrapped(n: nat): (r: nat)
    ensures r < U16 && r <= n && (n < U16 ==> r == n)
  {
    n % U16
  }

  // The bytes to leave free before a header of n bytes, address included, to align what follows.
  function Slack(n: nat): (k: nat)
    ensures k < ALIGN
  {
    (ALIGN - n % ALIGN) % ALIGN
  }

  lemma SlackAligns(n: nat)
    ensures (Slack(n) + n) % ALIGN == 0
  {
    if n % ALIGN != 0 {
      assert Slack(n) + n == ALIGN * (n / ALIGN + 1);
    }
  }

  // The contents after a Consume of len bytes, by offsets alone.
  function Window(mem: seq<byte>, offset: nat, size: nat): seq<byte>
    requires offset + size <= |mem|
  {
    mem[offset..offset + size]
  }

  function Consumed(mem: seq<byte>, offset: nat, size: nat, len: nat): seq<byte>
    requires offset < U16 && len <= size && offset + size <= |mem|
  {
    Window(mem, Wrapped(offset + len), size - len)
  }

  // Memory in which every byte differs from those at a distance of 65536.
  function Striped(n: nat): (mem: seq<byte>)
    ensures |mem| == n
  {
    seq(n, i => if 0 <= i < U16 then 0 else 1)
  }

  // Consuming keeps the rest of the contents, whatever they are, if and only if the offset does
  // not wrap or nothing is left.
  lemma ConsumeExact(offset: nat, size: nat, len: nat)
    requires offset < U16 && size < U16 && len <= size
    ensures (forall mem: seq<byte> | offset + size <= |mem| ::
              Consumed(mem, offset, size, len) == Window(mem, offset, size)[len..])
       <==> offset + len < U16 || len == size
  {
    if offset + len >= U16 && len < size {
      var mem := Striped(offset + size);
      assert Wrapped(offset + len) == offset + len - U16;
      assert Consumed(mem, offset, size, len)[0] == mem[offset + len - U16] == 0;
      assert Window(mem, offset, size)[len..][0] == mem[offset + len] == 1;
    }
  }

  // A buffer of some capacity keeps every contents, wherever the alignment puts it and however much
  // is consumed, if and only if the capacity is none of the last six below 65536.
  lemma CapacityExact(cap: nat)
    requires cap < U16
    ensures (forall mem: seq<byte>, offset: nat, size: nat, len: nat |
               offset < ALIGN && len <= size <= cap && offset + size <= |mem| ::
               Consumed(mem, offset, size, len) == Window(mem, offset, size)[len..])
       <==> cap + ALIGN - 1 <= U16
  {
    if cap + ALIGN - 1 <= U16 {
      forall mem: seq<byte>, offset: nat, size: nat, len: nat | offset < ALIGN && len <= size <= cap && offset + size <= |mem|
        ensures Consumed(mem, offset, size, len) == Window(mem, offset, size)[len..]
      {
        ConsumeExact(offset, size, len);
      }
    } else {
      ConsumeExact(ALIGN - 1, cap, U16 - ALIGN + 1);
    }
  }
}
