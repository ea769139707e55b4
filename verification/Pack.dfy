/** Numbers as bytes, one to five of them, as packed gadgets hold them: writing, reading back and the announced size. */
module Pack {
  // Fixed widths, least significant byte first, and variable widths favouring small numbers.

  import opened SeqFacts
  import opened EdgeCoder

  type Byte = x: nat | x < 256

  const One: nat := 244
  const Two: nat := 252
  const Three: nat := 253
  const Four: nat := 254
  const Five: nat := 255

  function Pow256(n: nat): nat {
    if n == 0 then 1 else 256 * Pow256(n - 1)
  }

  function LittleEndian(v: nat, n: nat): (r: seq<Byte>)
    ensures |r| == n
  {
    if n == 0 then [] else [v % 256] + LittleEndian(v / 256, n - 1)
  }

  function FromLittleEndian(bytes: seq<Byte>): nat {
    if bytes == [] then 0 else bytes[0] + 256 * FromLittleEndian(bytes[1..])
  }

  lemma {:induction false} LittleEndianRoundTrip(v: nat, n: nat)
    requires v < Pow256(n)
    ensures FromLittleEndian(LittleEndian(v, n)) == v
  {
    if n > 0 {
      LittleEndianRoundTrip(v / 256, n - 1);
      assert LittleEndian(v, n)[1..] == LittleEndian(v / 256, n - 1);
    }
  }

  function VarintBytes(v: nat): (r: seq<Byte>)
    requires v < Two32
  {
    if v <= One then [v]
    else if v <= (Two - One) * 256 + One - 1 then [(v - One) / 256 + One + 1, (v - One) % 256]
    else if v <= (Two - One) * 256 + One - 1 + 65536 then
      var w := v - ((Two - One) * 256 + One);
      [Three, w / 256, w % 256]
    else if v <= 16777215 then [Four] + LittleEndian(v, 3)
    else [Five] + LittleEndian(v, 4)
  }

  function VarintSize(v: nat): nat {
    if v <= One then 1
    else if v <= (Two - One) * 256 + One - 1 then 2
    else if v <= (Two - One) * 256 + One - 1 + 65536 then 3
    else if v <= 16777215 then 4
    else 5
  }

  /** The size computed beforehand is the number of bytes written. */
  lemma VarintSizeIsExact(v: nat)
    requires v < Two32
    ensures |VarintBytes(v)| == VarintSize(v)
  {
  }

  // ---- Reading.

  /** A value, the position after it, and whether the data ended too early. */
  datatype Read = Read(value: nat, pos: nat, overflow: bool)

  /** `n` bytes from `pos` on; nothing moves if they are not all there. */
  function ReadBytes(data: seq<Byte>, pos: nat, n: nat): (r: Read)
    requires pos <= |data|
    ensures pos <= r.pos <= |data|
  {
    if pos + n > |data| then Read(0, pos, true) else Read(FromLittleEndian(data[pos..pos + n]), pos + n, false)
  }

  function ReadVarint(data: seq<Byte>, pos: nat): (r: Read)
    requires pos <= |data|
    ensures pos <= r.pos <= |data|
  {
    var first := ReadBytes(data, pos, 1);
    if first.value <= One then first
    else if first.value <= Two then
      var second := ReadBytes(data, first.pos, 1);
      Read(One + 256 * (first.value - One - 1) + second.value, second.pos, first.overflow || second.overflow)
    else if first.value == Three then
      var second := ReadBytes(data, first.pos, 1);
      var third := ReadBytes(data, second.pos, 1);
      Read((Two - One) * 256 + One + 256 * second.value + third.value, third.pos, second.overflow || third.overflow)
    else if first.value == Four then ReadBytes(data, first.pos, 3)
    else ReadBytes(data, first.pos, 4)
  }

  lemma ReadOne(data: seq<Byte>, pos: nat)
    requires pos < |data|
    ensures ReadBytes(data, pos, 1) == Read(data[pos], pos + 1, false)
  {
    var one := data[pos..pos + 1];
    assert one == [data[pos]] && one[1..] == [];
    assert FromLittleEndian(one) == one[0] + 256 * FromLittleEndian(one[1..]);
  }

  /** Bytes `from` to `to` of what was written at `pos`. */
  lemma Written(data: seq<Byte>, pos: nat, bytes: seq<Byte>, from: nat, to: nat)
    requires pos + |bytes| <= |data| && data[pos..pos + |bytes|] == bytes && from <= to <= |bytes|
    ensures data[pos + from..pos + to] == bytes[from..to]
  {
    forall i | from <= i < to ensures data[pos + i] == bytes[i] {
      assert data[pos..pos + |bytes|][i] == data[pos + i];
    }
  }

  /** The bytes after the first of a long number. */
  lemma WrittenTail(data: seq<Byte>, pos: nat, first: Byte, rest: seq<Byte>)
    requires pos + 1 + |rest| <= |data| && data[pos..pos + 1 + |rest|] == [first] + rest
    ensures data[pos + 1..pos + 1 + |rest|] == rest
  {
    Written(data, pos, [first] + rest, 1, 1 + |rest|);
  }

  /** What was written at `pos` is read back, and the reader stands right behind it. */
  lemma VarintRoundTrip(data: seq<Byte>, pos: nat, v: nat)
    requires v < Two32 && pos + |VarintBytes(v)| <= |data| && data[pos..pos + |VarintBytes(v)|] == VarintBytes(v)
    ensures ReadVarint(data, pos) == Read(v, pos + |VarintBytes(v)|, false)
  {
    var bytes := VarintBytes(v);
    assert forall i :: 0 <= i < |bytes| ==> data[pos + i] == bytes[i];
    assert data[pos + 0] == bytes[0];
    ReadOne(data, pos);
    if v <= One {
    } else if v <= (Two - One) * 256 + One - 1 {
      assert data[pos + 1] == bytes[1];
      ReadOne(data, pos + 1);
    } else if v <= (Two - One) * 256 + One - 1 + 65536 {
      assert data[pos + 1] == bytes[1] && data[pos + 2] == bytes[2];
      ReadOne(data, pos + 1);
      ReadOne(data, pos + 2);
    } else if v <= 16777215 {
      WrittenTail(data, pos, bytes[0], LittleEndian(v, 3));
      assert Pow256(3) == 16777216 by {
        assert Pow256(0) == 1 && Pow256(1) == 256 && Pow256(2) == 65536;
      }
      LittleEndianRoundTrip(v, 3);
    } else {
      WrittenTail(data, pos, bytes[0], LittleEndian(v, 4));
      assert Pow256(4) == Two32 by {
        assert Pow256(0) == 1 && Pow256(1) == 256 && Pow256(2) == 65536 && Pow256(3) == 16777216;
      }
      LittleEndianRoundTrip(v, 4);
    }
  }

  class PackReader {
    const data: seq<Byte>
    var cur: nat
    var overflow: bool

    constructor (bytes: seq<Byte>, pos: nat)
      requires pos <= |bytes|
      ensures Valid() && data == bytes && cur == pos && !overflow
    {
      data, cur, overflow := bytes, pos, false;
    }

    ghost predicate Valid()
      reads this
    {
      cur <= |data|
    }

    method ReadFixed(n: nat) returns (value: nat)
      requires Valid()
      modifies this
      ensures Valid() && var r := ReadBytes(data, old(cur), n); value == r.value && cur == r.pos && overflow == (old(overflow) || r.overflow)
    {
      if cur + n > |data| {
        overflow := true;
        return 0;
      }
      value := FromLittleEndian(data[cur..cur + n]);
      cur := cur + n;
    }

    method ReadVar() returns (value: nat)
      requires Valid()
      modifies this
      ensures Valid() && var r := ReadVarint(data, old(cur)); value == r.value && cur == r.pos && overflow == (old(overflow) || r.overflow)
    {
      var first := ReadFixed(1);
      if first <= One {
        return first;
      }
      if first <= Two {
        var second := ReadFixed(1);
        return One + 256 * (first - One - 1) + second;
      }
      if first == Three {
        var second := ReadFixed(1);
        var third := ReadFixed(1);
        return (Two - One) * 256 + One + 256 * second + third;
      }
      if first == Four {
        value := ReadFixed(3);
      } else {
        value := ReadFixed(4);
      }
    }
  }

  // ---- Writing.

  /** As many of the bytes as there is room for. */
  ghost function Fitting(bytes: seq<Byte>, room: nat): seq<Byte> {
    if |bytes| <= room then bytes else bytes[..room]
  }

  lemma FittingTwice(a: seq<Byte>, b: seq<Byte>, room: nat)
    ensures Fitting(a, room) + Fitting(b, room - |Fitting(a, room)|) == Fitting(a + b, room)
  {
  }

  /** `data` with `bytes` written over it from `pos` on. */
  ghost function Spliced(data: seq<Byte>, pos: nat, bytes: seq<Byte>): (r: seq<Byte>)
    requires pos + |bytes| <= |data|
    ensures |r| == |data|
  {
    data[..pos] + bytes + data[pos + |bytes|..]
  }

  lemma SplicedTwice(data: seq<Byte>, pos: nat, a: seq<Byte>, b: seq<Byte>)
    requires pos + |a| + |b| <= |data|
    ensures Spliced(Spliced(data, pos, a), pos + |a|, b) == Spliced(data, pos, a + b)
  {
  }

  class PackWriter {
    const data: array<Byte>
    var cur: nat
    var overflow: bool

    constructor (buffer: array<Byte>, pos: nat)
      requires pos <= buffer.Length
      ensures Valid() && data == buffer && cur == pos && !overflow
    {
      data, cur, overflow := buffer, pos, false;
    }

    ghost predicate Valid()
      reads this
    {
      cur <= data.Length
    }

    /** The bytes are behind what was written before, cut off where the buffer ends. */
    twostate predicate Wrote(bytes: seq<Byte>)
      requires old(cur) <= data.Length
      reads this, data
    {
      var fitting := Fitting(bytes, data.Length - old(cur));
      && cur == old(cur) + |fitting| && data[..] == Spliced(old(data[..]), old(cur), fitting)
      && overflow == (old(overflow) || |bytes| > data.Length - old(cur))
    }

    method Write(bytes: seq<Byte>)
      requires Valid()
      modifies this, data
      ensures Valid() && Wrote(bytes)
    {
      var count := |bytes|;
      if count > data.Length - cur {
        count := data.Length - cur;
        overflow := true;
      }
      var i := 0;
      while i < count
        invariant i <= count && cur == old(cur) && overflow == (old(overflow) || |bytes| > data.Length - cur)
        invariant forall j :: 0 <= j < i ==> data[cur + j] == bytes[j]
        invariant forall j :: 0 <= j < data.Length && !(cur <= j < cur + i) ==> data[j] == old(data[j])
      {
        data[cur + i] := bytes[i];
        i := i + 1;
      }
      ghost var fitting := Fitting(bytes, data.Length - cur);
      assert fitting == bytes[..count];
      ghost var spliced := Spliced(old(data[..]), cur, fitting);
      assert forall j :: 0 <= j < data.Length ==> data[j] == spliced[j];
      assert data[..] == spliced;
      cur := cur + count;
    }

    method WriteVarint(v: nat)
      requires Valid() && v < Two32
      modifies this, data
      ensures Valid() && Wrote(VarintBytes(v))
    {
      if v <= One {
        Write([v]);
      } else if v <= (Two - One) * 256 + One - 1 {
        WriteThenWrite([(v - One) / 256 + One + 1], [(v - One) % 256]);
      } else if v <= (Two - One) * 256 + One - 1 + 65536 {
        var w := v - ((Two - One) * 256 + One);
        WriteThenWrite([Three], [w / 256, w % 256]);
      } else if v <= 16777215 {
        WriteThenWrite([Four], LittleEndian(v, 3));
      } else {
        WriteThenWrite([Five], LittleEndian(v, 4));
      }
    }

    /** Two writes in a row. */
    method WriteThenWrite(a: seq<Byte>, b: seq<Byte>)
      requires Valid()
      modifies this, data
      ensures Valid() && Wrote(a + b)
    {
      ghost var before: seq<Byte>, pos := data[..], cur;
      ghost var first, second := Fitting(a, data.Length - pos), Fitting(b, data.Length - pos - |Fitting(a, data.Length - pos)|);
      Write(a);
      assert data[..] == Spliced(before, pos, first) && cur == pos + |first|;
      Write(b);
      assert data[..] == Spliced(Spliced(before, pos, first), pos + |first|, second);
      FittingTwice(a, b, data.Length - pos);
      SplicedTwice(before, pos, first, second);
    }
  }
}
