/** Message packets: a 14-byte header in a growing buffer. */
module Packet {
  import opened Bytes

  const PACKET_VERSION: Int32 := 1
  const PACKET_HEAD_LEN: int := 14
  const OFFSET_MESSLEN: int := 0
  const OFFSET_VERSION: int := 4
  const OFFSET_OPERCODE: int := 6
  const OFFSET_ERRCODE: int := 10
  const PACKET_MIN_SIZE: int := 256

  /** Lengths up to here keep the doubling of the capacity within 32 bits. */
  const MAX_LEN: int := 0x4000_0000

  // ---------- Header ----------

  /** The header fields are written in this order, each over what the one before it
      left: the upper half of the operate code covers the lower half of the version. */
  function Header(messageLen: Int32, version: Int32, operateCode: Int32, errorCode: Int32): (h: seq<Byte>)
    ensures |h| == PACKET_HEAD_LEN
  {
    Encode(messageLen) + Encode(version)[..2] + Encode(operateCode) + Encode(errorCode)
  }

  /** `Packet::Read` of a 32-bit field: 0 unless all four bytes are in use. */
  function ReadInt(bytes: seq<Byte>, pos: nat): Int32 {
    if pos + 4 > |bytes| then 0 else Decode(bytes[pos..])
  }

  /** The header round trip: whatever follows it, a header gives back the length, the
      operate code and the error code, for all 32-bit values. */
  lemma HeaderRoundTrip(messageLen: Int32, version: Int32, operateCode: Int32, errorCode: Int32, body: seq<Byte>)
    ensures var bytes := Header(messageLen, version, operateCode, errorCode) + body;
      && ReadInt(bytes, OFFSET_MESSLEN) == messageLen
      && ReadInt(bytes, OFFSET_OPERCODE) == operateCode
      && ReadInt(bytes, OFFSET_ERRCODE) == errorCode
  {
    hide Encode, Decode;
    var h := Header(messageLen, version, operateCode, errorCode);
    var bytes := h + body;
    var v := Encode(version)[..2];
    FieldAt(bytes, 0, messageLen, v + Encode(operateCode) + Encode(errorCode) + body);
    FieldAt(bytes, 6, operateCode, Encode(errorCode) + body);
    FieldAt(bytes, 10, errorCode, body);
  }

  lemma FieldsRead(bytes: seq<Byte>)
    requires |bytes| >= 14
    ensures ReadInt(bytes, OFFSET_MESSLEN) == Decode(bytes) && ReadInt(bytes, OFFSET_VERSION) == Decode(bytes[4..])
    ensures ReadInt(bytes, OFFSET_OPERCODE) == Decode(bytes[6..])
    ensures ReadInt(bytes, OFFSET_ERRCODE) == Decode(bytes[10..])
  {
    hide Decode;
    assert bytes[0..] == bytes;
  }

  lemma FieldAt(bytes: seq<Byte>, pos: nat, value: Int32, rest: seq<Byte>)
    requires pos <= |bytes| && bytes[pos..] == Encode(value) + rest
    ensures ReadInt(bytes, pos) == value
  {
    hide Encode, Decode;
    DecodePrefix(Encode(value), rest);
    DecodeEncode(value);
  }

  /** The version field does not survive in general: it comes back if and only if its
      lower two bytes equal the upper two bytes of the operate code that cover them. */
  lemma VersionSurvivesIff(messageLen: Int32, version: Int32, operateCode: Int32, errorCode: Int32, body: seq<Byte>)
    ensures var bytes := Header(messageLen, version, operateCode, errorCode) + body;
      ReadInt(bytes, OFFSET_VERSION) == version
      <==> version % 0x1_0000 == (operateCode / 0x1_0000) % 0x1_0000
  {
    var bytes := Header(messageLen, version, operateCode, errorCode) + body;
    var seen := Encode(version)[..2] + Encode(operateCode)[..2];
    assert bytes[4..8] == seen;
    assert bytes[4..] == bytes[4..8] + bytes[8..];
    DecodePrefix(seen, bytes[8..]);
    Halves(version);
    Halves(operateCode);
    assert Decode(seen) == Signed((Unsigned(version) / 0x1_0000) * 0x1_0000 + Unsigned(operateCode) / 0x1_0000);
    HalfOf(version);
    HalfOf(operateCode);
  }

  lemma Halves(v: Int32)
    ensures var u := Unsigned(v);
      var e := Encode(v);
      u / 0x1_0000 == e[0] as int * 0x100 + e[1] as int && u % 0x1_0000 == e[2] as int * 0x100 + e[3] as int
  {}

  /** The halves of the bit pattern are those of the number itself. */
  lemma HalfOf(v: Int32)
    ensures Unsigned(v) % 0x1_0000 == v % 0x1_0000
    ensures Unsigned(v) / 0x1_0000 == (v / 0x1_0000) % 0x1_0000
  {
    if v < 0 {
      assert Unsigned(v) / 0x1_0000 == v / 0x1_0000 + 0x1_0000;
    }
  }

  /** With the version the code writes, operate codes below 65536 lose it. */
  lemma VersionLost()
    ensures ReadInt(Header(PACKET_HEAD_LEN, PACKET_VERSION, 7, 0), OFFSET_VERSION) != PACKET_VERSION
  {
    VersionSurvivesIff(PACKET_HEAD_LEN, PACKET_VERSION, 7, 0, []);
    var h := Header(PACKET_HEAD_LEN, PACKET_VERSION, 7, 0);
    assert h + [] == h;
  }

  // ---------- Capacity ----------

  /** 256 times a power of two. */
  predicate IsCapacity(c: int) {
    c == PACKET_MIN_SIZE || (c > PACKET_MIN_SIZE && c % 2 == 0 && IsCapacity(c / 2))
  }

  function PowerOfTwo(k: nat): int {
    if k == 0 then 1 else 2 * PowerOfTwo(k - 1)
  }

  lemma CapacityIff(c: int)
    ensures IsCapacity(c) <==> exists k: nat :: c == 256 * PowerOfTwo(k)
  {
    if IsCapacity(c) {
      var k := CapacityPower(c);
    } else if exists k: nat :: c == 256 * PowerOfTwo(k) {
      var k: nat :| c == 256 * PowerOfTwo(k);
      PowerCapacity(k);
    }
  }

  lemma {:induction false} CapacityPower(c: int) returns (k: nat)
    requires IsCapacity(c)
    ensures c == 256 * PowerOfTwo(k)
    decreases c
  {
    if c == 256 {
      k := 0;
    } else {
      k := CapacityPower(c / 2);
      k := k + 1;
    }
  }

  lemma {:induction false} PowerCapacity(k: nat)
    ensures IsCapacity(256 * PowerOfTwo(k))
  {
    if k > 0 {
      PowerCapacity(k - 1);
      DoubledCapacity(256 * PowerOfTwo(k - 1));
    }
  }

  lemma DoubledCapacity(c: int)
    requires IsCapacity(c)
    ensures IsCapacity(2 * c)
  {}

  lemma SixteenfoldCapacity(c: int)
    requires IsCapacity(c)
    ensures IsCapacity(16 * c)
  {
    DoubledCapacity(c);
    DoubledCapacity(2 * c);
    DoubledCapacity(4 * c);
    DoubledCapacity(8 * c);
  }

  lemma LimitIsCapacity()
    ensures IsCapacity(MAX_LEN)
  {
    SixteenfoldCapacity(0x100);
    SixteenfoldCapacity(0x1000);
    SixteenfoldCapacity(0x1_0000);
    SixteenfoldCapacity(0x10_0000);
    SixteenfoldCapacity(0x100_0000);
    DoubledCapacity(0x1000_0000);
    DoubledCapacity(0x2000_0000);
  }

  /** Below the limit there is always room to double. */
  lemma CapacityBelowLimit(c: int)
    requires IsCapacity(c) && c < MAX_LEN
    ensures 2 * c <= MAX_LEN
  {
    LimitIsCapacity();
    CapacitiesNested(c, MAX_LEN);
  }

  /** Of two capacities the smaller divides into the larger by doubling. */
  lemma {:induction false} CapacitiesNested(c: int, d: int)
    requires IsCapacity(c) && IsCapacity(d) && c < d
    ensures 2 * c <= d
    decreases c
  {
    if c > PACKET_MIN_SIZE {
      CapacitiesNested(c / 2, d / 2);
    }
  }

  // ---------- Packets ----------

  /** Doubling a positive number in 32 bits, with wrap-around. */
  function Doubled(c: Int32): int
    requires c > 0
  {
    if 2 * c < 0x8000_0000 then 2 * c else 2 * c - 0x1_0000_0000
  }

  lemma DoubledWraps(c: Int32)
    requires c > 0
    ensures (Doubled(c) - 2 * c) % 0x1_0000_0000 == 0 && -0x8000_0000 <= Doubled(c) < 0x8000_0000
  {}

  /** The capacity after `n` rounds of the growing loop. */
  function Grown(c: Int32, n: nat): int
    decreases n
  {
    if n == 0 then c else Grown(if c < PACKET_MIN_SIZE then PACKET_MIN_SIZE else Doubled(c), n - 1)
  }

  /** The growing loop reaches a length if and only if it is at most 2^30. For a greater
      one the doubled capacity wraps below 0, and the loop starts over without end. */
  lemma GrowthEndsIff(c: Int32, wanted: int)
    requires c == 0 || (IsCapacity(c) && c <= MAX_LEN)
    ensures (exists n: nat :: Grown(c, n) >= wanted) <==> wanted <= 0x4000_0000
  {
    if wanted <= MAX_LEN {
      var n := GrowthReaches(c);
      assert Grown(c, n) >= wanted;
    } else {
      forall n: nat ensures Grown(c, n) <= MAX_LEN {
        GrowthBounded(c, n);
      }
    }
  }

  lemma {:induction false} GrowthReaches(c: Int32) returns (n: nat)
    requires c == 0 || (IsCapacity(c) && c <= MAX_LEN)
    ensures Grown(c, n) == MAX_LEN
    decreases MAX_LEN - c
  {
    if c == MAX_LEN {
      n := 0;
    } else if c == 0 {
      n := GrowthReaches(PACKET_MIN_SIZE);
      n := n + 1;
    } else {
      CapacityBelowLimit(c);
      DoubledCapacity(c);
      n := GrowthReaches(2 * c);
      n := n + 1;
    }
  }

  lemma {:induction false} GrowthBounded(c: Int32, n: nat)
    requires c <= 0 || (IsCapacity(c) && c <= MAX_LEN)
    ensures Grown(c, n) <= MAX_LEN
    decreases n
  {
    if n > 0 {
      if c < PACKET_MIN_SIZE {
        GrowthBounded(PACKET_MIN_SIZE, n - 1);
      } else if c < MAX_LEN {
        CapacityBelowLimit(c);
        DoubledCapacity(c);
        GrowthBounded(2 * c, n - 1);
      } else {
        GrowthBounded(-0x8000_0000, n - 1);
      }
    }
  }

  class Packet {
    var messageLen: Int32
    var version: Int32
    var operateCode: Int32
    var errorCode: Int32
    var data: array?<Byte>
    var dataMaxLen: int
    var dataNowLen: int
    /** Everything appended so far. */
    ghost var appended: seq<Byte>

    ghost predicate Sized()
      reads this
    {
      && 0 <= dataNowLen <= dataMaxLen <= MAX_LEN
      && (data == null <==> dataMaxLen == 0)
      && (data != null ==> data.Length == dataMaxLen && IsCapacity(dataMaxLen))
    }

    /** The bytes in use. */
    ghost function Used(): seq<Byte>
      requires Sized()
      reads this, data
    {
      if data == null then [] else data[..dataNowLen]
    }

    /** The front of the buffer is the header of the current fields. */
    ghost predicate Headed()
      reads this, data
    {
      && Sized() && data != null && messageLen <= dataMaxLen
      && data[..PACKET_HEAD_LEN] == Header(messageLen, version, operateCode, errorCode)
    }

    /** A packet whose length covers at least its header. */
    ghost predicate Valid()
      reads this, data
    {
      Headed() && PACKET_HEAD_LEN <= messageLen
    }

    /** A packet that was made by `New` and then only appended to. */
    ghost predicate Built()
      reads this, data
    {
      && Valid()
      && messageLen == PACKET_HEAD_LEN + |appended| && dataNowLen == |appended|
      && forall i | PACKET_HEAD_LEN <= i < |appended| :: data[i] == appended[i]
    }

    /** Grows the buffer by doubling; only the bytes in use are kept. */
    method CheckLen(wanted: int)
      requires Sized() && wanted <= MAX_LEN
      modifies this`data, this`dataMaxLen
      ensures Sized() && data != null && dataMaxLen >= wanted && dataMaxLen >= PACKET_HEAD_LEN
      ensures Used() == old(Used())
      ensures data == old(data) || fresh(data)
      ensures old(dataMaxLen) >= wanted && old(dataMaxLen) >= PACKET_HEAD_LEN ==>
        data == old(data) && dataMaxLen == old(dataMaxLen)
      ensures dataMaxLen != old(dataMaxLen) ==>
        dataMaxLen == 256 || dataMaxLen < 2 * wanted
    {
      var len := wanted;
      if len < PACKET_HEAD_LEN {
        len := PACKET_HEAD_LEN;
      }
      if dataMaxLen >= len {
        return;
      }
      ghost var before := dataMaxLen;
      while dataMaxLen < len
        invariant data == old(data) && before <= dataMaxLen <= MAX_LEN
        invariant dataMaxLen == 0 || IsCapacity(dataMaxLen)
        invariant dataMaxLen > before ==> dataMaxLen == PACKET_MIN_SIZE || dataMaxLen < 2 * len
        decreases len - dataMaxLen
      {
        if dataMaxLen < PACKET_MIN_SIZE {
          dataMaxLen := PACKET_MIN_SIZE;
        } else {
          CapacityBelowLimit(dataMaxLen);
          DoubledCapacity(dataMaxLen);
          dataMaxLen := dataMaxLen * 2;
        }
      }
      ghost var used := if data == null then [] else data[..dataNowLen];
      var buff := new Byte[dataMaxLen];
      if dataNowLen > 0 {
        CopyBytes(buff, 0, data[..dataNowLen]);
      }
      data := buff;
      assert Used() == used;
    }

    /** Copies `bytes` to `pos`, growing the buffer if needed. */
    method WriteData(bytes: seq<Byte>, pos: nat)
      requires Sized() && pos + |bytes| <= MAX_LEN
      modifies this`data, this`dataMaxLen, data
      ensures Sized() && (bytes != [] ==> data != null && pos + |bytes| <= dataMaxLen)
      ensures bytes != [] ==> data[pos..pos + |bytes|] == bytes
      ensures bytes != [] ==>
        forall i | 0 <= i < old(dataNowLen) && !(pos <= i < pos + |bytes|) :: data[i] == old(Used())[i]
      ensures bytes == [] ==> data == old(data) && dataMaxLen == old(dataMaxLen) && Used() == old(Used())
      ensures data == old(data) || fresh(data)
      ensures old(dataMaxLen) <= dataMaxLen
      ensures old(data) != null && pos + |bytes| <= old(dataMaxLen) ==>
        data == old(data) && forall i | 0 <= i < data.Length && !(pos <= i < pos + |bytes|) :: data[i] == old(data[i])
    {
      if |bytes| <= 0 {
        return;
      }
      CheckLen(|bytes| + pos);
      ghost var used := Used();
      CopyBytes(data, pos, bytes);
      assert forall i | 0 <= i < dataNowLen && !(pos <= i < pos + |bytes|) :: data[i] == used[i];
    }

    /** Writes the four header fields. */
    method WriteHead()
      requires Sized() && messageLen <= MAX_LEN
      modifies this`data, this`dataMaxLen, data
      ensures Headed() && data.Length >= 256
      ensures dataMaxLen != old(dataMaxLen) ==> dataMaxLen == 256 || dataMaxLen < 2 * messageLen
      ensures data[0..4] == Encode(messageLen) && data[4..6] == Encode(version)[..2]
      ensures data[6..10] == Encode(operateCode) && data[10..14] == Encode(errorCode)
      ensures data == old(data) || fresh(data)
      ensures |Used()| == |old(Used())|
      ensures forall i | PACKET_HEAD_LEN <= i < dataNowLen :: data[i] == old(Used())[i]
    {
      hide Encode;
      CheckLen(messageLen);
      Write(messageLen, OFFSET_MESSLEN);
      Write(version, OFFSET_VERSION);
      assert data[0..4] == Encode(messageLen);
      ghost var field := data[4..8];
      Write(operateCode, OFFSET_OPERCODE);
      assert data[4] == field[0] && data[5] == field[1];
      assert data[0..4] == Encode(messageLen) && data[4..6] == Encode(version)[..2];
      Write(errorCode, OFFSET_ERRCODE);
      assert data[0..4] == Encode(messageLen) && data[4..6] == Encode(version)[..2]
        && data[6..10] == Encode(operateCode);
      assert data[..14] == data[0..4] + data[4..6] + data[6..10] + data[10..14];
    }

    /** A 32-bit field in network order. */
    method Write(value: Int32, pos: nat)
      requires Sized() && pos + 4 <= MAX_LEN
      modifies this`data, this`dataMaxLen, data
      ensures Sized() && data != null && pos + 4 <= dataMaxLen && (data == old(data) || fresh(data))
      ensures data[pos..pos + 4] == Encode(value)
      ensures forall i | 0 <= i < old(dataNowLen) && !(pos <= i < pos + 4) :: data[i] == old(Used())[i]
      ensures old(data) != null && pos + 4 <= old(dataMaxLen) ==>
        && data == old(data) && dataMaxLen == old(dataMaxLen)
        && forall i | 0 <= i < data.Length && !(pos <= i < pos + 4) :: data[i] == old(data[i])
    {
      hide IsCapacity;
      WriteData(Encode(value), pos);
    }

    /** `Packet(opercode, errcode)`: a packet without payload. */
    constructor New(operateCode: Int32, errorCode: Int32)
      ensures Built() && appended == [] && fresh(data)
      ensures messageLen == 14 && version == 1 && dataMaxLen == 256 && dataNowLen == 0 && Used() == []
      ensures this.operateCode == operateCode && this.errorCode == errorCode
      ensures data[0..4] == [0, 0, 0, 14] && data[4..6] == [0, 0]
      ensures data[6..10] == Encode(operateCode) && data[10..14] == Encode(errorCode)
    {
      messageLen, version := PACKET_HEAD_LEN, PACKET_VERSION;
      this.operateCode, this.errorCode := 0, 0;
      dataMaxLen, dataNowLen, data, appended := 0, 0, null, [];
      new;
      WriteHead();
      this.operateCode, this.errorCode := operateCode, errorCode;
      WriteHead();
    }

    /** `Packet(data, len)`: the fields are read back from received bytes. */
    constructor FromBytes(bytes: seq<Byte>)
      requires |bytes| <= MAX_LEN
      ensures Sized()
      ensures |bytes| >= PACKET_HEAD_LEN ==>
        && Used() == bytes
        && messageLen == ReadInt(bytes, OFFSET_MESSLEN)
        && version == ReadInt(bytes, OFFSET_VERSION)
        && operateCode == ReadInt(bytes, OFFSET_OPERCODE)
        && errorCode == ReadInt(bytes, OFFSET_ERRCODE)
      ensures |bytes| >= 14 ==>
        && Used() == bytes && messageLen == Decode(bytes) && version == Decode(bytes[4..])
        && operateCode == Decode(bytes[6..]) && errorCode == Decode(bytes[10..])
      ensures |bytes| < 14 ==> Used() == [] && messageLen == 14 && version == 1 && operateCode == errorCode == 0
    {
      messageLen, version := PACKET_HEAD_LEN, PACKET_VERSION;
      operateCode, errorCode := 0, 0;
      dataMaxLen, dataNowLen, data, appended := 0, 0, null, [];
      new;
      WriteHead();
      if |bytes| >= PACKET_HEAD_LEN {
        hide Header, ReadInt, IsCapacity;
        CheckLen(|bytes|);
        CopyBytes(data, 0, bytes);
        dataNowLen := |bytes|;
        assert Used() == bytes;
        ReadHead();
        FieldsRead(bytes);
      }
    }

    method ReadHead()
      requires Sized()
      modifies this`messageLen, this`version, this`operateCode, this`errorCode
      ensures Sized() && Used() == old(Used())
      ensures messageLen == ReadInt(Used(), OFFSET_MESSLEN) && version == ReadInt(Used(), OFFSET_VERSION)
      ensures operateCode == ReadInt(Used(), OFFSET_OPERCODE) && errorCode == ReadInt(Used(), OFFSET_ERRCODE)
    {
      hide ReadInt, IsCapacity;
      messageLen := Read(OFFSET_MESSLEN);
      version := Read(OFFSET_VERSION);
      operateCode := Read(OFFSET_OPERCODE);
      errorCode := Read(OFFSET_ERRCODE);
    }

    method Read(pos: nat) returns (value: Int32)
      requires Sized()
      ensures value == ReadInt(Used(), pos)
      ensures value == if pos + 4 <= |Used()| then Decode(Used()[pos..]) else 0
    {
      if pos + 4 > dataNowLen {
        return 0;
      }
      assert data[pos..dataNowLen] == Used()[pos..];
      value := Decode(data[pos..dataNowLen]);
    }

    /** Appends behind the bytes in use, which do not include the header of a packet
        made by `New`: then the first 14 bytes appended are lost under it. What is in
        use from the 15th byte on is kept in any case. */
    method Append(bytes: seq<Byte>)
      requires Sized() && messageLen + |bytes| <= MAX_LEN && dataNowLen + |bytes| <= MAX_LEN
      modifies this`data, this`dataMaxLen, this`dataNowLen, this`messageLen, this`appended, data
      ensures Sized() && (bytes != [] ==> Headed())
      ensures messageLen == old(messageLen) + |bytes| && |Used()| == |old(Used()) + bytes|
      ensures forall i | PACKET_HEAD_LEN <= i < dataNowLen && bytes != [] :: data[i] == (old(Used()) + bytes)[i]
      ensures bytes == [] ==> Used() == old(Used())
      ensures appended == old(appended) + bytes && (old(Built()) ==> Built())
      ensures data == old(data) || fresh(data)
      ensures version == old(version) && operateCode == old(operateCode) && errorCode == old(errorCode)
    {
      if |bytes| > 0 {
        hide Header, IsCapacity, Encode, Decode;
        ghost var used := Used();
        AppendBytes(bytes);
        assert Used() == used + bytes;
        WriteHead();
        assert forall i | PACKET_HEAD_LEN <= i < dataNowLen :: data[i] == (used + bytes)[i];
      }
    }

    /** The copy of `Append`, before the header is written again. */
    method AppendBytes(bytes: seq<Byte>)
      requires Sized() && bytes != [] && messageLen + |bytes| <= MAX_LEN && dataNowLen + |bytes| <= MAX_LEN
      modifies this`data, this`dataMaxLen, this`dataNowLen, this`messageLen, this`appended, data
      ensures Sized() && data != null && Used() == old(Used()) + bytes
      ensures messageLen == old(messageLen) + |bytes| && appended == old(appended) + bytes
      ensures data == old(data) || fresh(data)
    {
      hide Header, IsCapacity;
      ghost var used := Used();
      WriteData(bytes, dataNowLen);
      assert data[..dataNowLen + |bytes|] == used + bytes;
      dataNowLen := dataNowLen + |bytes|;
      messageLen := messageLen + |bytes|;
      appended := appended + bytes;
    }

    /** What the packet says its payload is: what is in use behind the header's length.
        Of a packet made from received bytes that is their body. Of one that was built
        the first 14 bytes appended are missing: what was appended comes back exactly if
        nothing was. */
    method GetRealData() returns (payload: seq<Byte>)
      requires Sized()
      ensures payload == if |Used()| > 14 then Used()[14..] else []
      ensures Built() ==> payload == if |appended| > 14 then appended[14..] else []
      ensures Built() ==> (payload == appended <==> appended == [])
    {
      if dataNowLen - PACKET_HEAD_LEN > 0 {
        payload := data[PACKET_HEAD_LEN..dataNowLen];
      } else {
        payload := [];
      }
    }
  }

  /** Any sequence of appends: the length is that of the header and everything
      appended, the capacity is 256 times a power of two and covers it, and the header
      in the buffer is the current one. */
  method BuildPacket(operateCode: Int32, errorCode: Int32, parts: seq<seq<Byte>>) returns (p: Packet)
    requires PACKET_HEAD_LEN + |Flatten(parts)| <= MAX_LEN
    ensures p.Built() && p.appended == Flatten(parts)
    ensures p.messageLen == PACKET_HEAD_LEN + |Flatten(parts)| <= p.dataMaxLen && IsCapacity(p.dataMaxLen)
    ensures p.operateCode == operateCode && p.errorCode == errorCode
  {
    p := new Packet.New(operateCode, errorCode);
    for i := 0 to |parts|
      invariant fresh(p) && fresh(p.data) && p.Built() && p.appended == Flatten(parts[..i])
      invariant p.operateCode == operateCode && p.errorCode == errorCode
    {
      FlattenPrefix(parts, i);
      p.Append(parts[i]);
    }
    assert parts[..|parts|] == parts;
  }

  lemma FlattenPrefix<T>(parts: seq<seq<T>>, i: nat)
    requires i < |parts|
    ensures Flatten(parts[..i + 1]) == Flatten(parts[..i]) + parts[i]
    ensures |Flatten(parts[..i + 1])| <= |Flatten(parts)|
  {
    assert parts[..i + 1] == parts[..i] + [parts[i]];
    FlattenAppend(parts[..i], [parts[i]]);
    assert Flatten([parts[i]]) == parts[i] + Flatten<T>([]);
    assert parts == parts[..i + 1] + parts[i + 1..];
    FlattenAppend(parts[..i + 1], parts[i + 1..]);
  }

  /** A packet without payload, sent and received: the receiver reads the same length,
      operate code and error code, for all 32-bit codes. */
  method SendAndReceive(operateCode: Int32, errorCode: Int32) returns (received: Packet)
    ensures received.messageLen == PACKET_HEAD_LEN
    ensures received.operateCode == operateCode && received.errorCode == errorCode
  {
    hide Header, ReadInt;
    var p := new Packet.New(operateCode, errorCode);
    var wire := p.data[..p.messageLen];
    HeaderRoundTrip(p.messageLen, p.version, operateCode, errorCode, []);
    assert wire == Header(p.messageLen, p.version, operateCode, errorCode) + [];
    received := new Packet.FromBytes(wire);
  }
}
