// wal/record.go: the framing of one log record.
module Record {
  import opened Bytes
  import Crc32c
  import opened Castagnoli

  const HEADER_SIZE := 13
  const MAX_RECORD_SIZE := 0x400_0000 // 64 << 20

  const TYPE_META: byte := 1
  const TYPE_ENQUEUE: byte := 2
  const TYPE_ACK: byte := 3
  const TYPE_NACK: byte := 4
  const TYPE_LEASE_EXPIRE: byte := 5
  const TYPE_DEDUP: byte := 6

  predicate ValidType(t: byte) {
    TYPE_META <= t <= TYPE_DEDUP
  }

  datatype Frame = Frame(typ: byte, payload: bytes)

  // length(4) and type(1): the part of the header both checksums start from.
  function Framing(t: byte, payload: bytes): (b: bytes)
    ensures |b| == 5
  {
    LE(|payload|, 4) + [t]
  }

  function HeaderChecksum(hdr: bytes): (n: nat)
    requires |hdr| >= 5
    ensures n < TWO_32
  {
    Crc32c.Word(Crc32c.Checksum(hdr[0..5]))
  }

  function RecordChecksum(hdr: bytes, payload: bytes): (n: nat)
    requires |hdr| >= 5
    ensures n < TWO_32
  {
    Crc32c.Word(Crc32c.Update(Crc32c.Update(0, hdr[0..5]), payload))
  }

  // The bytes of one record on disk.
  function Encoded(f: Frame): (b: bytes)
    ensures |b| == HEADER_SIZE + |f.payload|
  {
    var framing := Framing(f.typ, f.payload);
    framing + LE(HeaderChecksum(framing), 4) + LE(RecordChecksum(framing, f.payload), 4) + f.payload
  }

  function EncodedAll(fs: seq<Frame>): bytes {
    if fs == [] then [] else Encoded(fs[0]) + EncodedAll(fs[1..])
  }

  lemma {:induction false} EncodedAllAppend(a: seq<Frame>, b: seq<Frame>)
    ensures EncodedAll(a + b) == EncodedAll(a) + EncodedAll(b)
    decreases |a|
  {
    if a == [] {
      assert a + b == b;
    } else {
      assert (a + b)[1..] == a[1..] + b;
      EncodedAllAppend(a[1..], b);
    }
  }

  lemma EncodedOne(f: Frame)
    ensures EncodedAll([f]) == Encoded(f)
  {
    assert [f][1..] == [];
    assert Encoded(f) + [] == Encoded(f);
  }

  // A record byte by byte: length, type, the CRC-32C of those five bytes, that of the five bytes and the payload, and
  // the payload. Numbers have their least significant byte first.
  predicate LaidOut(b: bytes, t: byte, payload: bytes) {
    && |b| == 13 + |payload|
    && Four(b[0..4]) == |payload| % 0x1_0000_0000
    && b[4] == t
    && AllBits(b[5..9]) == Crc(b[..5]) && AllBits(b[9..13]) == Crc(b[..5] + payload)
    && b[13..] == payload
  }

  lemma EncodedLaidOut(f: Frame)
    ensures LaidOut(Encoded(f), f.typ, f.payload)
  {
    hide LE, Four, AllBits, Crc, Crc32c.Checksum, Crc32c.Update, Crc32c.Word;
    var b, framing := Encoded(f), Framing(f.typ, f.payload);
    var h, r := Crc32c.Checksum(framing), Crc32c.Update(Crc32c.Checksum(framing), f.payload);
    RecordChecksumOf(framing, f.payload);
    assert framing[0..5] == framing;
    assert b[..5] == framing && b[5..9] == LE(Crc32c.Word(h), 4) && b[9..13] == LE(Crc32c.Word(r), 4);
    assert b[13..] == f.payload;
    Crc32c.UpdateAppend(framing, f.payload);
    StoredCrc(framing);
    StoredCrc(framing + f.payload);
    assert b[0..4] == LE(|f.payload|, 4);
    Numbers(|f.payload|);
  }

  lemma RecordChecksumOf(framing: bytes, payload: bytes)
    requires |framing| == 5
    ensures HeaderChecksum(framing) == Crc32c.Word(Crc32c.Checksum(framing))
    ensures RecordChecksum(framing, payload) == Crc32c.Word(Crc32c.Update(Crc32c.Checksum(framing), payload))
  {
    hide Crc32c.Word, Crc32c.Update;
    assert framing[0..5] == framing;
  }

  // Encode fills a fixed header buffer in place and appends it, then the payload, to dst.
  method Encode(dst: bytes, t: byte, payload: bytes) returns (r: bytes)
    ensures r == dst + Encoded(Frame(t, payload))
    ensures |r| >= |dst| && r[..|dst|] == dst && LaidOut(r[|dst|..], t, payload)
  {
    hide LE, HeaderChecksum, RecordChecksum, LaidOut;
    EncodedLaidOut(Frame(t, payload));
    ghost var framing := Framing(t, payload);
    var hdr := new byte[HEADER_SIZE](_ => 0);
    PutUint32(hdr, 0, |payload|);
    hdr[4] := t;
    assert hdr[..][0..5] == framing[0..5];
    FirstFive(framing, hdr[..], payload);
    PutUint32(hdr, 5, HeaderChecksum(hdr[..]));
    ghost var second := hdr[5..9];
    assert hdr[..][0..5] == framing[0..5];
    FirstFive(framing, hdr[..], payload);
    PutUint32(hdr, 9, RecordChecksum(hdr[..], payload));
    FirstFive(framing, hdr[..], payload);
    r := dst + hdr[..];
    r := r + payload;
    assert hdr[..][5..9] == second;
    assert hdr[..][9..13] == hdr[9..13] == LE(RecordChecksum(framing, payload), 4);
    ThreeParts(hdr[..]);
    assert hdr[..] == framing + LE(HeaderChecksum(framing), 4) + LE(RecordChecksum(framing, payload), 4);
  }

  lemma ThreeParts(b: bytes)
    requires |b| == HEADER_SIZE
    ensures b == b[0..5] + b[5..9] + b[9..13]
  {
  }

  // Both checksums look only at the first five header bytes.
  lemma FirstFive(a: bytes, b: bytes, payload: bytes)
    requires |a| >= 5 && |b| >= 5 && a[0..5] == b[0..5]
    ensures HeaderChecksum(a) == HeaderChecksum(b) && RecordChecksum(a, payload) == RecordChecksum(b, payload)
  {
  }

  // binary.LittleEndian.PutUint32(b[at:at+4], uint32(n))
  method PutUint32(b: array<byte>, at: nat, n: nat)
    requires at + 4 <= b.Length
    modifies b
    ensures forall i :: 0 <= i < b.Length && !(at <= i < at + 4) ==> b[i] == old(b[i])
    ensures b[at..at + 4] == LE(n, 4)
  {
    b[at] := n % 256;
    b[at + 1] := n / 256 % 256;
    b[at + 2] := n / 256 / 256 % 256;
    b[at + 3] := n / 256 / 256 / 256 % 256;
    FourBytes(n);
  }

  lemma FourBytes(n: nat)
    ensures LE(n, 4) == [n % 256, n / 256 % 256, n / 256 / 256 % 256, n / 256 / 256 / 256 % 256]
  {
    assert LE(n / 256 / 256 / 256, 1) == [n / 256 / 256 / 256 % 256];
    assert LE(n / 256 / 256, 2) == [n / 256 / 256 % 256] + LE(n / 256 / 256 / 256, 1);
    assert LE(n / 256, 3) == [n / 256 % 256] + LE(n / 256 / 256, 2);
  }
}
