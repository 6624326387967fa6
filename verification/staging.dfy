/**
 The transmit staging buffer: the five write overloads. Each multi-byte
 overload is a chain of single-byte writes that stops at the first overflow
 and keeps what was already staged.
 */
module Staging {
  import opened TwiTypes

  /** Cells still free in the buffer. */
  function Room(d: Driver): nat {
    if d.bytesToProcess < BufferSize then BufferSize - d.bytesToProcess else 0
  }

  /** The state differs from d at most in the buffer and the write cursor. */
  predicate SameOutsideStaging(d: Driver, e: Driver) {
    e == d.(buffer := e.buffer, bytesToProcess := e.bytesToProcess)
  }

  /** Reference meaning of staging a byte sequence: as many leading bytes as
      fit are appended after the staged ones, the cells after them keep their
      contents, and the call reports Ok exactly when every byte fit. */
  function StageAll(d: Driver, bytes: seq<byte>): (r: Reply)
    ensures r.code == Ok <==> |bytes| <= Room(d)
    ensures r.code == Ok || r.code == BufferOverflow
    ensures SameOutsideStaging(d, r.next)
    ensures d.bytesToProcess <= BufferSize ==>
              && r.next.bytesToProcess <= BufferSize
              && Staged(r.next) == Staged(d) + bytes[..Min(|bytes|, Room(d))]
              && r.next.buffer[r.next.bytesToProcess..] == d.buffer[r.next.bytesToProcess..]
    ensures d.bytesToProcess > BufferSize ==> r.next == d
  {
    var k := Min(|bytes|, Room(d));
    var next :=
      if k == 0 then d
      else d.(buffer := d.buffer[..d.bytesToProcess] + bytes[..k] + d.buffer[d.bytesToProcess + k..],
              bytesToProcess := d.bytesToProcess + k);
    Reply(next, if k == |bytes| then Ok else BufferOverflow)
  }

  /** write(uint8_t): refuses with BufferOverflow and no change when the
      buffer is full; otherwise appends the byte. */
  function WriteByte(d: Driver, b: byte): (r: Reply)
    ensures r == StageAll(d, [b])
    ensures d.bytesToProcess >= BufferSize ==> r == Reply(d, BufferOverflow)
  {
    if d.bytesToProcess >= BufferSize then Reply(d, BufferOverflow)
    else
      var i := d.bytesToProcess;
      assert d.buffer[i := b] == d.buffer[..i] + [b] + d.buffer[i + 1..];
      Reply(d.(buffer := d.buffer[i := b], bytesToProcess := i + 1), Ok)
  }

  /** One link of an overload's chain: an earlier overflow is returned as
      is, otherwise the next byte is written. */
  function AndThen(r: Reply, b: byte): Reply {
    if r.code == BufferOverflow then r else WriteByte(r.next, b)
  }

  /** write(uint16_t): low byte, then high byte. */
  function WriteWord(d: Driver, w: uint16): Reply {
    AndThen(WriteByte(d, w % 0x100), w / 0x100)
  }

  /** write(uint32_t): bytes 0, 1, 2, 3, least significant first; each
      shift is truncated to eight bits by the cast. */
  function WriteDword(d: Driver, w: uint32): Reply {
    var r0 := WriteByte(d, w % 0x100);
    var r1 := AndThen(r0, (w / 0x100) % 0x100);
    var r2 := AndThen(r1, (w / 0x1_0000) % 0x100);
    AndThen(r2, (w / 0x100_0000) % 0x100)
  }

  /** Staging one more byte after a sequence is one more link of the chain. */
  lemma {:induction false} StageSnoc(d: Driver, bytes: seq<byte>, b: byte)
    ensures StageAll(d, bytes + [b]) == AndThen(StageAll(d, bytes), b)
  {
    var r := StageAll(d, bytes);
    var n := |bytes|;
    if n + 1 <= Room(d) {
      var i := d.bytesToProcess;
      var e := r.next;
      assert e.bytesToProcess == i + n;
      var lhs := StageAll(d, bytes + [b]).next.buffer;
      var rhs := e.buffer[i + n := b];
      assert (bytes + [b])[..n + 1] == bytes + [b];
      assert bytes[..n] == bytes;
      assert lhs == d.buffer[..i] + bytes + [b] + d.buffer[i + n + 1..];
      if n == 0 {
        assert e == d;
      } else {
        assert e.buffer == d.buffer[..i] + bytes + d.buffer[i + n..];
      }
      assert lhs == rhs;
    } else if n <= Room(d) {
      assert n == Room(d);
      assert (bytes + [b])[..n] == bytes;
      assert bytes[..n] == bytes;
    } else {
      var k := Room(d);
      assert (bytes + [b])[..k] == bytes[..k];
    }
  }

  /** Once a sequence overflows, appending more bytes changes nothing. */
  lemma StageOverflowSticks(d: Driver, bytes: seq<byte>, more: seq<byte>)
    requires StageAll(d, bytes).code == BufferOverflow
    ensures StageAll(d, bytes + more) == StageAll(d, bytes)
  {
    var k := Room(d);
    assert (bytes + more)[..k] == bytes[..k];
  }

  /** The least-significant-first byte sequence of a value, n bytes long. */
  function LittleEndian(v: nat, n: nat): (bytes: seq<byte>)
    ensures |bytes| == n
  {
    if n == 0 then [] else [v % 0x100] + LittleEndian(v / 0x100, n - 1)
  }

  /** The value a least-significant-first byte sequence denotes. */
  function ValueOf(bytes: seq<byte>): nat {
    if |bytes| == 0 then 0 else bytes[0] + 0x100 * ValueOf(bytes[1..])
  }

  function Pow256(n: nat): nat {
    if n == 0 then 1 else 0x100 * Pow256(n - 1)
  }

  /** Decoding the little-endian bytes of a value that fits gives it back. */
  lemma {:induction false} LittleEndianRoundTrip(v: nat, n: nat)
    requires v < Pow256(n)
    ensures ValueOf(LittleEndian(v, n)) == v
  {
    if n > 0 {
      var q := v / 0x100;
      assert q < Pow256(n - 1) by {
        assert 0x100 * q <= v;
      }
      LittleEndianRoundTrip(q, n - 1);
      assert LittleEndian(v, n)[1..] == LittleEndian(q, n - 1);
    }
  }

  /** write(uint16_t) stages the two little-endian bytes of the word, with
      the single-byte overflow rule; the staged bytes decode to the word. */
  lemma WriteWordStagesLittleEndian(d: Driver, w: uint16)
    ensures WriteWord(d, w) == StageAll(d, LittleEndian(w, 2))
    ensures ValueOf(LittleEndian(w, 2)) == w
  {
    var bytes := LittleEndian(w, 2);
    assert LittleEndian(w / 0x100, 1) == [(w / 0x100) % 0x100] + LittleEndian(w / 0x100 / 0x100, 0);
    assert bytes == [w % 0x100] + [w / 0x100];
    StageSnoc(d, [w % 0x100], w / 0x100);
    LittleEndianRoundTrip(w, 2);
  }

  /** write(uint32_t) stages the four little-endian bytes of the word, with
      the single-byte overflow rule; the staged bytes decode to the word. */
  lemma WriteDwordStagesLittleEndian(d: Driver, w: uint32)
    ensures WriteDword(d, w) == StageAll(d, LittleEndian(w, 4))
    ensures ValueOf(LittleEndian(w, 4)) == w
  {
    assert w / 0x100 / 0x100 == w / 0x1_0000;
    assert w / 0x1_0000 / 0x100 == w / 0x100_0000;
    var b0 := w % 0x100;
    var b1 := (w / 0x100) % 0x100;
    var b2 := (w / 0x1_0000) % 0x100;
    var b3 := (w / 0x100_0000) % 0x100;
    assert LittleEndian(w / 0x100_0000, 1) == [b3];
    assert LittleEndian(w / 0x1_0000, 2) == [b2, b3];
    assert LittleEndian(w / 0x100, 3) == [b1, b2, b3];
    assert LittleEndian(w, 4) == [b0, b1, b2, b3];
    StageSnoc(d, [b0], b1);
    assert [b0] + [b1] == [b0, b1];
    StageSnoc(d, [b0, b1], b2);
    assert [b0, b1] + [b2] == [b0, b1, b2];
    StageSnoc(d, [b0, b1, b2], b3);
    assert [b0, b1, b2] + [b3] == [b0, b1, b2, b3];
    LittleEndianRoundTrip(w, 4);
  }

  /** write(const uint8_t*, uint8_t): the bytes in array order, stopping at
      the first overflow. */
  method WriteArray(d: Driver, data: seq<byte>) returns (r: Reply)
    requires |data| < 0x100
    ensures r == StageAll(d, data)
  {
    r := Reply(d, Ok);
    var i := 0;
    assert data[..0] == [];
    while i < |data|
      invariant 0 <= i <= |data|
      invariant r == StageAll(d, data[..i])
      invariant r.code == Ok
    {
      StageSnoc(d, data[..i], data[i]);
      assert data[..i] + [data[i]] == data[..i + 1];
      var w := WriteByte(r.next, data[i]);
      if w.code == BufferOverflow {
        StageOverflowSticks(d, data[..i + 1], data[i + 1..]);
        assert data[..i + 1] + data[i + 1..] == data;
        return w;
      }
      r := w;
      i := i + 1;
    }
    assert data[..i] == data;
  }

  /** write(const void*, uint8_t): the memory block as an array of bytes. */
  method WriteBlock(d: Driver, block: seq<byte>) returns (r: Reply)
    requires |block| < 0x100
    ensures r == StageAll(d, block)
  {
    r := WriteArray(d, block);
  }
}
