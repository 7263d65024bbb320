// pb_istream_t and the decoder loops of pb_decode.c.
module PbInput {
  import opened Bits
  import opened Results
  import opened PbWire
  import opened PbDescriptor
  import opened PbEncodeSpec
  import opened PbDecodeSpec
  import opened PbIterator

  // ---------- what a decoder does to its stream ----------

  // A window of left bytes at offset state of the memory.
  datatype In = In(mem: seq<byte>, state: nat, left: nat, err: Option<Error>)

  predicate InOk(s: In) {
    s.state + s.left <= |s.mem|
  }

  function Left(s: In): (r: seq<byte>)
    requires InOk(s)
    ensures |r| == s.left
  {
    s.mem[s.state..s.state + s.left]
  }

  // The decoder with the outcome r took the stream from s to t, and returned ok and the value v.
  predicate Reads<T(==)>(s: In, r: Result<(T, seq<byte>)>, ok: bool, v: T, t: In)
    requires InOk(s)
  {
    && InOk(t) && t.mem == s.mem && t.state + t.left <= s.state + s.left && (ok <==> r.Ok?)
    && (ok ==> r.value == (v, Left(t)) && t.state + t.left == s.state + s.left && t.err == s.err)
    && (!ok && s.err == None ==> t.err == Some(r.error))
  }

  // The first n bytes of the window were consumed.
  function Advance(s: In, n: nat): (t: In)
    requires InOk(s) && n <= s.left
    ensures InOk(t) && Left(t) == Left(s)[n..]
  {
    s.(state := s.state + n, left := s.left - n)
  }

  function Take(s: seq<byte>, n: nat): Result<(seq<byte>, seq<byte>)> {
    if |s| < n then Err(EndOfStream) else Ok((s[..n], s[n..]))
  }

  lemma LeftFront(s: In, n: nat)
    requires InOk(s) && n <= s.left
    ensures Left(s)[..n] == s.mem[s.state..s.state + n]
  {
  }

  lemma AdvanceTo(s: In, t: In)
    requires InOk(s) && InOk(t) && t.mem == s.mem && t.state + t.left == s.state + s.left && t.left <= s.left
    ensures Left(t) == Left(s)[s.left - t.left..]
  {
  }

  // Part of the window of s was consumed without an error.
  predicate Within(s: In, t: In)
    requires InOk(s)
  {
    InOk(t) && t.mem == s.mem && t.state + t.left == s.state + s.left && t.left <= s.left && t.err == s.err
  }

  function Reported(t: In, e: Error): In {
    t.(err := if t.err.Some? then t.err else Some(e))
  }

  lemma OneByte(s: In, t: In)
    requires InOk(s) && Within(s, t) && t.left > 0
    ensures Within(s, Advance(t, 1)) && Left(t) != [] && Left(Advance(t, 1)) == Left(t)[1..]
    ensures Advance(t, 1).left == t.left - 1
  {
  }

  lemma NoBytes(t: In)
    requires InOk(t)
    ensures t.left == 0 <==> Left(t) == []
    ensures |Left(t)| == t.left
  {
  }

  lemma Fails<T>(s: In, t: In, e: Error, v: T, r: Result<(T, seq<byte>)>)
    requires InOk(s) && Within(s, t) && r == Err(e)
    ensures Reads(s, r, false, v, Reported(t, e)) && InOk(Reported(t, e)) && Left(Reported(t, e)) == Left(t)
  {
  }

  class IStream {
    const mem: seq<byte>
    var state: nat
    var bytesLeft: nat
    var errmsg: Option<Error>

    ghost function Snap(): In
      reads this
    {
      In(mem, state, bytesLeft, errmsg)
    }

    ghost predicate Valid()
      reads this
    {
      InOk(Snap())
    }

    // pb_istream_from_buffer, and the copy of a stream cut to size bytes.
    constructor (memory: seq<byte>, at: nat, size: nat, err: Option<Error>)
      requires at + size <= |memory|
      ensures Valid() && Snap() == In(memory, at, size, err)
    {
      mem, state, bytesLeft, errmsg := memory, at, size, err;
    }

    method SetError(e: Error)
      modifies this`errmsg
      ensures Snap() == Reported(old(Snap()), e) && (old(Valid()) ==> Valid())
    {
      if errmsg.None? {
        errmsg := Some(e);
      }
    }

    // buf_read.
    method BufRead(buf: array<byte>, count: nat)
      requires state + count <= |mem| && buf.Length == count
      modifies this`state, buf
      ensures state == old(state) + count && buf[..] == mem[old(state)..state]
    {
      var source := state;
      state := source + count;
      var i := 0;
      while i < count
        invariant 0 <= i <= count && state == source + count
        invariant buf[..i] == mem[source..source + i]
      {
        buf[i] := mem[source + i];
        i := i + 1;
      }
    }

    // pb_read.
    method Read(count: nat) returns (ok: bool, data: seq<byte>)
      requires Valid()
      modifies this
      ensures Valid() && Reads(old(Snap()), Take(Left(old(Snap())), count), ok, data, Snap())
      ensures !ok ==> bytesLeft == old(bytesLeft) && state == old(state)
    {
      if bytesLeft < count {
        SetError(EndOfStream);
        return false, [];
      }
      var buf := new byte[count];
      BufRead(buf, count);
      bytesLeft := bytesLeft - count;
      data := buf[..];
      LeftFront(old(Snap()), count);
      AdvanceTo(old(Snap()), Snap());
      return true, data;
    }

    // pb_read without a buffer.
    method Discard(count: nat) returns (ok: bool)
      requires Valid()
      modifies this
      ensures Valid() && Reads(old(Snap()), Unit(Drop(Left(old(Snap())), count)), ok, (), Snap())
    {
      if bytesLeft < count {
        SetError(EndOfStream);
        return false;
      }
      state := state + count;
      bytesLeft := bytesLeft - count;
      AdvanceTo(old(Snap()), Snap());
      return true;
    }

    // pb_readbyte.
    method ReadByte() returns (ok: bool, b: byte)
      requires Valid()
      modifies this
      ensures Valid()
      ensures ok <==> old(bytesLeft) > 0
      ensures ok ==> Snap() == Advance(old(Snap()), 1) && b == Left(old(Snap()))[0]
      ensures !ok ==> bytesLeft == 0 && Snap() == Reported(old(Snap()), EndOfStream)
    {
      if bytesLeft == 0 {
        SetError(EndOfStream);
        return false, 0;
      }
      b := mem[state];
      state := state + 1;
      bytesLeft := bytesLeft - 1;
      return true, b;
    }

    // pb_decode_varint32_eof.
    method DecodeVarint32Eof() returns (ok: bool, value: nat, eof: bool)
      requires Valid()
      modifies this
      ensures Valid() && Reads(old(Snap()), DecVarint32(Left(old(Snap()))), ok, value, Snap())
      ensures eof <==> old(bytesLeft) == 0
    {
      ghost var s := Snap();
      var b: byte;
      value, eof := 0, false;
      ok, b := ReadByte();
      if !ok {
        return false, 0, true;
      }
      if b < 128 {
        return true, b, false;
      }
      ok, value := MoreGroups32(b % 128);
    }

    // The multibyte case. The body of the do-while loop runs at least once.
    method MoreGroups32(first: nat) returns (ok: bool, result: nat)
      requires Valid()
      modifies this
      ensures Valid() && Reads(old(Snap()), ReadVarint32(Left(old(Snap())), 7, first), ok, result, Snap())
    {
      ghost var s := Snap();
      ghost var r := ReadVarint32(Left(s), 7, first);
      var bitpos: nat := 7;
      result := first;
      var b: byte := 0x80;
      while b >= 128
        invariant Valid() && Within(s, Snap())
        invariant b >= 128 ==> ReadVarint32(Left(Snap()), bitpos, result) == r
        invariant b < 128 ==>
                    r == if bitpos == 35 && (b / 16) % 8 != 0 then Err(VarintOverflow) else Ok((result, Left(Snap())))
        decreases b >= 128, bytesLeft
      {
        hide ReadVarint32, Step32, Left, Within, Advance, InOk, Reads;
        ghost var t := Snap();
        Group32(Left(t), bitpos, result);
        NoBytes(t);
        ok, b := ReadByte();
        if !ok {
          Fails(s, t, EndOfStream, 0, r);
          return false, 0;
        }
        OneByte(s, t);
        t := Snap();
        if bitpos >= 32 {
          var signExtension := if bitpos < 63 then 0xFF else 0x01;
          if b % 128 != 0 && (result / 0x8000_0000 == 0 || b != signExtension) {
            SetError(VarintOverflow);
            Fails(s, t, VarintOverflow, 0, r);
            return false, 0;
          }
        }
        result := Step32(bitpos, result, b);
        bitpos := (bitpos + 7) % 256;
      }
      if bitpos == 35 && (b / 16) % 8 != 0 {
        Fails(s, Snap(), VarintOverflow, 0, r);
        SetError(VarintOverflow);
        return false, 0;
      }
      return true, result;
    }

    // pb_decode_varint.
    method DecodeVarint() returns (ok: bool, result: nat)
      requires Valid()
      modifies this
      ensures Valid() && Reads(old(Snap()), DecVarint64(Left(old(Snap()))), ok, result, Snap())
      ensures !ok ==> Left(Snap()) == VarintRest(Left(old(Snap())), 0)
    {
      ghost var s := Snap();
      ghost var r := DecVarint64(Left(s));
      var bitpos: nat := 0;
      result := 0;
      var b: byte := 0x80;
      while b >= 128
        invariant Valid() && Within(s, Snap())
        invariant b >= 128 ==> ReadVarint64(Left(Snap()), bitpos, result) == r
        invariant b >= 128 ==> VarintRest(Left(Snap()), bitpos) == VarintRest(Left(s), 0)
        invariant b < 128 ==> r == Ok((result, Left(Snap())))
        decreases b >= 128, bytesLeft
      {
        hide ReadVarint64, Or, Shl, Left, VarintRest, Within, Advance, InOk, Reads;
        ghost var t := Snap();
        Group64(Left(t), bitpos, result);
        NoBytes(t);
        if bitpos >= 64 {
          SetError(VarintOverflow);
          Fails(s, t, VarintOverflow, 0, r);
          return false, 0;
        }
        ok, b := ReadByte();
        if !ok {
          Fails(s, t, EndOfStream, 0, r);
          return false, 0;
        }
        OneByte(s, t);
        result := Or(result, Shl(b % 128, bitpos) % U64);
        bitpos := bitpos + 7;
      }
      return true, result;
    }

    // pb_skip_varint.
    method SkipVarintBytes() returns (ok: bool)
      requires Valid()
      modifies this
      ensures Valid() && Reads(old(Snap()), Unit(SkipVarint(Left(old(Snap())))), ok, (), Snap())
    {
      ghost var s := Snap();
      var b: byte := 0x80;
      while b >= 128
        invariant Valid() && mem == s.mem && state + bytesLeft == s.state + s.left && bytesLeft <= s.left && errmsg == s.err
        invariant b >= 128 ==> SkipVarint(Left(Snap())) == SkipVarint(Left(s))
        invariant b < 128 ==> SkipVarint(Left(s)) == Ok(Left(Snap()))
        decreases b >= 128, bytesLeft
      {
        ok, b := ReadByte();
        if !ok {
          return false;
        }
      }
      return true;
    }

    // pb_skip_string.
    method SkipString() returns (ok: bool)
      requires Valid()
      modifies this
      ensures Valid() && Reads(old(Snap()), Unit(Skip(WT_STRING, Left(old(Snap())))), ok, (), Snap())
    {
      hide DecVarint32, Left;
      var length, eof;
      ok, length, eof := DecodeVarint32Eof();
      if !ok {
        return false;
      }
      ok := Discard(length);
    }

    // pb_skip_field.
    method SkipField(wt: nat) returns (ok: bool)
      requires Valid()
      modifies this
      ensures Valid() && Reads(old(Snap()), Unit(Skip(wt, Left(old(Snap())))), ok, (), Snap())
    {
      hide DecVarint32, SkipVarint, Left;
      if wt == WT_VARINT {
        ok := SkipVarintBytes();
      } else if wt == WT_64BIT {
        ok := Discard(8);
      } else if wt == WT_STRING {
        ok := SkipString();
      } else if wt == WT_32BIT {
        ok := Discard(4);
      } else {
        SetError(InvalidWireType);
        ok := false;
      }
    }

    // pb_decode_tag.
    method DecodeTag() returns (ok: bool, wt: nat, tag: nat, eof: bool)
      requires Valid() && bytesLeft > 0
      modifies this
      ensures Valid() && state + bytesLeft <= old(state + bytesLeft)
      ensures var t := DecTag(Left(old(Snap())));
              && (ok <==> t.TagOk?) && (eof <==> t.TagEof?)
              && (ok ==> wt == t.wt && tag == t.tag && Left(Snap()) == t.rest)
              && (eof ==> Left(Snap()) == t.rest)
              && (ok || eof ==> state + bytesLeft == old(state + bytesLeft) && errmsg == old(errmsg))
              && (t.TagErr? && old(errmsg).None? ==> errmsg == Some(t.error))
    {
      hide DecVarint32, Left;
      var temp;
      wt, tag := 0, 0;
      ok, temp, eof := DecodeVarint32Eof();
      if !ok {
        return;
      }
      if temp == 0 {
        return false, 0, 0, true;
      }
      return true, temp % 8, temp / 8, false;
    }

    // pb_make_string_substream. The stream stays at the start of the window, less its length.
    method MakeSubstream() returns (ok: bool, substream: IStream)
      requires Valid()
      modifies this
      ensures Valid() && substream.Valid() && substream.mem == mem && fresh(substream)
      ensures state + bytesLeft <= old(state + bytesLeft)
      ensures var w := Window(Left(old(Snap())));
              && (ok <==> w.Ok?)
              && (ok ==>
                    && Left(substream.Snap()) == w.value.0
                    && substream.state == state && substream.errmsg == errmsg == old(errmsg)
                    && state + substream.bytesLeft + bytesLeft == old(state + bytesLeft)
                    && mem[state + substream.bytesLeft..state + substream.bytesLeft + bytesLeft] == w.value.1)
              && (!ok && old(errmsg).None? ==> errmsg == Some(w.error))
    {
      hide DecVarint32;
      var size, eof;
      ok, size, eof := DecodeVarint32Eof();
      substream := new IStream(mem, state, bytesLeft, errmsg);
      if !ok {
        return;
      }
      if substream.bytesLeft < size {
        SetError(ParentTooShort);
        return false, substream;
      }
      ghost var t := Snap();
      substream.bytesLeft := size;
      bytesLeft := bytesLeft - size;
      CutWindow(t, size);
      return true, substream;
    }

    // pb_close_string_substream. Skipping what is left of a window in memory cannot fail.
    method CloseSubstream(substream: IStream)
      requires substream.Valid() && substream.mem == mem && substream != this
      requires substream.state + substream.bytesLeft + bytesLeft <= |mem|
      modifies this`state, this`errmsg, substream
      ensures Valid() && state == old(substream.state + substream.bytesLeft)
      ensures errmsg == old(substream.errmsg)
    {
      if substream.bytesLeft > 0 {
        var ok := substream.Discard(substream.bytesLeft);
        assert ok;
      }
      state := substream.state;
      errmsg := substream.errmsg;
    }

    // The integer decoders: pb_dec_varint, pb_dec_uvarint and pb_dec_svarint.
    method DecodeInteger(f: Field, ghost cur: Value) returns (ok: bool, v: Value)
      requires Valid() && (f.ltype.Varint? || f.ltype.Uvarint? || f.ltype.Svarint?)
      modifies this
      ensures Valid() && Reads(old(Snap()), DecValue(f, Left(old(Snap())), cur), ok, v, Snap())
      ensures !ok ==> Left(Snap()) == RestOnFailure(f, Left(old(Snap())))
    {
      hide DecVarint64, Left, VarintRest, ToS64, ToS32, UnZigZag, CastSigned, InSigned, InUnsigned;
      ghost var s := Left(Snap());
      VarintRestOf(f, s);
      var value;
      v := IntV(0);
      ok, value := DecodeVarint();
      if !ok {
        return;
      }
      ghost var t := Snap();
      if !IntSize(f.dataSize) {
        SetError(InvalidDataSize);
        SameWindow(t, Snap());
        return false, v;
      }
      if f.ltype.Uvarint? {
        var clamped := value % Pow2(8 * f.dataSize);
        CastUnsignedExact(f.dataSize, value);
        if clamped != value {
          SetError(IntegerTooLarge);
          SameWindow(t, Snap());
          return false, v;
        }
        return true, IntV(clamped);
      }
      var svalue :=
        if f.ltype.Svarint? then UnZigZag(value)
        else if f.dataSize == 8 then ToS64(value) else ToS32(value);
      SignedRange(value);
      var clamped := CastSigned(f.dataSize, svalue);
      CastSignedExact(f.dataSize, svalue);
      if clamped != svalue {
        SetError(IntegerTooLarge);
        SameWindow(t, Snap());
        return false, v;
      }
      return true, IntV(clamped);
    }

    // pb_dec_fixed32 and pb_dec_fixed64.
    method DecodeFixed(f: Field, ghost cur: Value) returns (ok: bool, v: Value)
      requires Valid() && (f.ltype.Fixed32? || f.ltype.Fixed64?)
      modifies this
      ensures Valid() && Reads(old(Snap()), DecValue(f, Left(old(Snap())), cur), ok, v, Snap())
      ensures !ok ==> Left(Snap()) == RestOnFailure(f, Left(old(Snap())))
    {
      hide FromLittleEndian, Left;
      ghost var s := Snap();
      var bytes;
      v := IntV(0);
      if f.ltype.Fixed32? {
        ok, bytes := Read(4);
        if ok {
          Or32Bits(bytes);
          v := IntV(Or32(bytes));
        }
      } else {
        ok, bytes := Read(8);
        if ok {
          Or64Bits(bytes);
          v := IntV(Or64(bytes));
        }
      }
      if !ok {
        SameWindow(s, Snap());
      }
    }

    // pb_dec_bytes, pb_dec_string and pb_dec_fixed_length_bytes.
    method DecodeString(f: Field, ghost cur: Value) returns (ok: bool, v: Value)
      requires Valid() && (f.ltype.Bytes? || f.ltype.Str? || f.ltype.FixedLengthBytes?)
      modifies this
      ensures Valid() && Reads(old(Snap()), DecValue(f, Left(old(Snap())), cur), ok, v, Snap())
    {
      hide DecVarint32, CString, Left;
      var size, eof;
      var data: seq<byte>;
      v := IntV(0);
      ok, size, eof := DecodeVarint32Eof();
      if !ok {
        return;
      }
      if f.ltype.Bytes? {
        if size + BYTES_HEADER > f.dataSize {
          SetError(BytesOverflow);
          return false, v;
        }
        ok, data := Read(size);
        v := BytesV(data);
      } else if f.ltype.Str? {
        var allocSize := (size + 1) % U32;
        if allocSize < size {
          SetError(SizeTooLarge);
          return false, v;
        }
        if allocSize > f.dataSize {
          SetError(StringOverflow);
          return false, v;
        }
        ok, data := Read(size);
        v := BytesV(CString(data));
      } else {
        if size == 0 {
          return true, BytesV(Zeros(f.dataSize));
        }
        if size != f.dataSize {
          SetError(IncorrectFixedLength);
          return false, v;
        }
        ok, data := Read(size);
        v := BytesV(data);
      }
    }

    method DecodeScalar(f: Field, ghost cur: Value) returns (ok: bool, v: Value)
      requires Valid() && !f.ltype.Submessage?
      modifies this
      ensures Valid() && Reads(old(Snap()), DecValue(f, Left(old(Snap())), cur), ok, v, Snap())
      ensures !ok && Packable(f.ltype) ==> Left(Snap()) == RestOnFailure(f, Left(old(Snap())))
    {
      hide DecValue, RestOnFailure, Left;
      if f.ltype.Fixed32? || f.ltype.Fixed64? {
        ok, v := DecodeFixed(f, cur);
      } else if f.ltype.Bytes? || f.ltype.Str? || f.ltype.FixedLengthBytes? {
        ok, v := DecodeString(f, cur);
      } else {
        ok, v := DecodeInteger(f, cur);
      }
    }
  }

  lemma CutWindow(t: In, size: nat)
    requires InOk(t) && size <= t.left
    ensures Left(t.(left := size)) == Left(t)[..size]
    ensures t.mem[t.state + size..t.state + t.left] == Left(t)[size..]
  {
  }

  // The conversion to a signed type of n bytes.
  function CastSigned(n: nat, i: int): int
    requires IntSize(n)
  {
    var w := i % Pow2(8 * n);
    if w < Pow2(8 * n - 1) then w else w - Pow2(8 * n)
  }

  lemma CastSignedExact(n: nat, i: int)
    requires IntSize(n) && -0x8000_0000_0000_0000 <= i < 0x8000_0000_0000_0000
    ensures CastSigned(n, i) == i <==> InSigned(n, i)
  {
    WordSizes();
    TwosComplement(i, Pow2(8 * n - 1));
  }

  // A number is its own two's complement in a word of range 2h exactly when it is in the range.
  lemma TwosComplement(i: int, h: int)
    requires h > 0
    ensures var w: int := i % (2 * h); (if w < h then w else w - 2 * h) == i <==> -h <= i < h
  {
    var m: int, q: int, r: int := 2 * h, i / (2 * h), i % (2 * h);
    assert i == m * q + r;
    if -h <= i < h {
      if q > 0 {
        MultipleGap(m, q, 0);
      } else if q < -1 {
        MultipleGap(m, -1, q);
      }
      assert m * 0 == 0 && m * -1 == -m;
      assert q == if i >= 0 then 0 else -1;
    }
  }

  lemma Reduced(i: nat, m: nat)
    requires m > 0
    ensures i % m == i <==> i < m
  {
    if i < m {
      ModUnique(i, m, 0, i);
    }
  }

  lemma CastUnsignedExact(n: nat, i: nat)
    requires IntSize(n) && i < U64
    ensures i % Pow2(8 * n) == i <==> InUnsigned(n, i)
  {
    WordSizes();
    Reduced(i, Pow2(8 * n));
  }

  lemma WordSizes()
    ensures Pow2(7) == 0x80 && Pow2(8) == 0x100 && Pow2(15) == 0x8000 && Pow2(16) == 0x1_0000
    ensures Pow2(31) == 0x8000_0000 && Pow2(32) == U32 && Pow2(63) == 0x8000_0000_0000_0000 && Pow2(64) == U64
  {
    Pow2Values();
    Pow2Add(7, 8);
    Pow2Add(8, 8);
    Pow2Add(28, 3);
  }

  lemma SignedRange(v: nat)
    requires v < U64
    ensures -0x8000_0000_0000_0000 <= UnZigZag(v) < 0x8000_0000_0000_0000
    ensures -0x8000_0000_0000_0000 <= ToS64(v) < 0x8000_0000_0000_0000
    ensures -0x8000_0000_0000_0000 <= ToS32(v) < 0x8000_0000_0000_0000
  {
  }

  lemma VarintRestOf(f: Field, s: seq<byte>)
    requires f.ltype.Varint? || f.ltype.Uvarint? || f.ltype.Svarint?
    ensures DecVarint64(s).Err? ==> VarintRest(s, 0) == RestOnFailure(f, s)
  {
    if DecVarint64(s).Err? {
      VarintRestValue(s, 0, 0);
    }
  }

  lemma SameWindow(s: In, t: In)
    requires InOk(s) && InOk(t) && s.mem == t.mem && s.state == t.state && s.left == t.left
    ensures Left(s) == Left(t)
  {
  }

  // pb_decode_fixed32: the bytes shifted into place and ORed together.
  function Or32(b: seq<byte>): nat
    requires |b| == 4
  {
    Or(Or(Or(Shl(b[0], 0), Shl(b[1], 8)), Shl(b[2], 16)), Shl(b[3], 24))
  }

  function Or64(b: seq<byte>): nat
    requires |b| == 8
  {
    Or(Or(Or(Or(Or32(b[..4]), Shl(b[4], 32)), Shl(b[5], 40)), Shl(b[6], 48)), Shl(b[7], 56))
  }

  lemma {:induction false} LowBytes(b: seq<byte>, k: nat)
    requires k < |b|
    ensures FromLittleEndian(b[..k]) < Pow2(8 * k)
    ensures FromLittleEndian(b[..k + 1]) == FromLittleEndian(b[..k]) + Shl(b[k], 8 * k)
    decreases k
  {
    hide Shl, Pow2;
    assert b[..k + 1][0] == b[0];
    if k == 0 {
      assert b[..1][1..] == [];
      ShlZero(b[0]);
    } else {
      LowBytes(b[1..], k - 1);
      assert b[..k + 1][1..] == b[1..][..k];
      assert b[..k][1..] == b[1..][..k - 1];
      Shl8(b[k], 8 * (k - 1));
    }
  }

  lemma ShlZero(w: nat)
    ensures Shl(w, 0) == w && Pow2(0) == 1
  {
  }

  lemma Shl8(w: nat, k: nat)
    ensures Shl(w, k + 8) == 256 * Shl(w, k) && Pow2(k + 8) == 256 * Pow2(k)
  {
    Shl7(w, k);
  }

  lemma NextByte(b: seq<byte>, k: nat)
    requires k < |b|
    ensures Or(FromLittleEndian(b[..k]), Shl(b[k], 8 * k)) == FromLittleEndian(b[..k + 1])
  {
    LowBytes(b, k);
    OrDisjoint(FromLittleEndian(b[..k]), b[k], 8 * k);
  }

  lemma Or32Bits(b: seq<byte>)
    requires |b| == 4
    ensures Or32(b) == FromLittleEndian(b)
  {
    hide Or, Shl, FromLittleEndian;
    NextByte(b, 1);
    NextByte(b, 2);
    NextByte(b, 3);
    FirstByte(b);
    assert b[..4] == b;
  }

  lemma FirstByte(b: seq<byte>)
    requires |b| >= 1
    ensures FromLittleEndian(b[..1]) == Shl(b[0], 0)
  {
    assert b[..1][1..] == [];
  }

  lemma Or64Bits(b: seq<byte>)
    requires |b| == 8
    ensures Or64(b) == FromLittleEndian(b)
  {
    hide Or, Shl, FromLittleEndian, Or32;
    Or32Bits(b[..4]);
    NextByte(b, 4);
    NextByte(b, 5);
    NextByte(b, 6);
    NextByte(b, 7);
    assert b[..8] == b;
  }

  lemma Group32(s: seq<byte>, bitpos: nat, acc: nat)
    ensures ReadVarint32(s, bitpos, acc)
         == if s == [] then Err(EndOfStream)
            else
              var b := s[0];
              if bitpos >= 32 && b % 128 != 0 && (acc / 0x8000_0000 == 0 || b != if bitpos < 63 then 0xFF else 0x01)
              then Err(VarintOverflow)
              else if b >= 128 then ReadVarint32(s[1..], (bitpos + 7) % 256, Step32(bitpos, acc, b))
              else if (bitpos + 7) % 256 == 35 && (b / 16) % 8 != 0 then Err(VarintOverflow)
              else Ok((Step32(bitpos, acc, b), s[1..]))
  {
  }

  lemma Group64(s: seq<byte>, bitpos: nat, acc: nat)
    ensures ReadVarint64(s, bitpos, acc)
         == if bitpos >= 64 then Err(VarintOverflow)
            else if s == [] then Err(EndOfStream)
            else
              var acc' := Or(acc, (Shl(s[0] % 128, bitpos)) % U64);
              if s[0] >= 128 then ReadVarint64(s[1..], bitpos + 7, acc') else Ok((acc', s[1..]))
    ensures VarintRest(s, bitpos)
         == if bitpos >= 64 || s == [] || s[0] < 128 then s else VarintRest(s[1..], bitpos + 7)
  {
  }

  function Unit(r: Result<seq<byte>>): Result<((), seq<byte>)> {
    var rest :- r;
    Ok(((), rest))
  }

  // The bytes that pb_decode_varint leaves when it fails at bit position bitpos or later.
  function VarintRest(s: seq<byte>, bitpos: nat): seq<byte> {
    if bitpos >= 64 || s == [] || s[0] < 128 then s else VarintRest(s[1..], bitpos + 7)
  }

  lemma {:induction false} VarintRestValue(s: seq<byte>, bitpos: nat, acc: nat)
    requires ReadVarint64(s, bitpos, acc).Err? && bitpos % 7 == 0 && bitpos <= 70
    ensures VarintRest(s, bitpos)
         == if ReadVarint64(s, bitpos, acc).error == EndOfStream || |s| < 10 - bitpos / 7 then [] else s[10 - bitpos / 7..]
    decreases |s|
  {
    hide Or, Shl;
    if bitpos < 64 && s != [] {
      VarintRestValue(s[1..], bitpos + 7, Or(acc, Shl(s[0] % 128, bitpos) % U64));
    }
  }
}
