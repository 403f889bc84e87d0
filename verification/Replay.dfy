// wal/replay.go: reading a log back, and the torn-versus-corrupt decision.
module Replay {
  import opened Bytes
  import opened Record
  import opened Seqs

  datatype Reason = BadHeader | TooLong | BadRecord | BadType

  // What the bytes from one record boundary onwards start with.
  datatype Item = AtEnd | TornRecord | BadItem(reason: Reason) | Whole(frame: Frame, size: nat)

  datatype Ending = Clean | Torn(bytes: nat) | Corrupt(reason: Reason)

  // frames are the records handed to the callback; they occupy the first `valid` bytes.
  datatype Scan = Scan(frames: seq<Frame>, valid: nat, ending: Ending)

  function ParseOne(b: bytes): (i: Item)
    ensures i.Whole? ==> HEADER_SIZE <= i.size <= |b|
  {
    if |b| == 0 then AtEnd
    else if |b| < HEADER_SIZE then TornRecord
    else
      var hdr := b[..HEADER_SIZE];
      var length := UnLE(hdr[0..4]);
      if HeaderChecksum(hdr) != UnLE(hdr[5..9]) then BadItem(BadHeader)
      else if length > MAX_RECORD_SIZE then BadItem(TooLong)
      else if length > |b| - HEADER_SIZE then TornRecord
      else
        var payload := b[HEADER_SIZE..HEADER_SIZE + length];
        if RecordChecksum(hdr, payload) != UnLE(hdr[9..13]) then BadItem(BadRecord)
        else if !ValidType(hdr[4]) then BadItem(BadType)
        else Whole(Frame(hdr[4], payload), HEADER_SIZE + length)
  }

  function ScanAll(b: bytes): (s: Scan)
    ensures s.valid <= |b|
    decreases |b|
  {
    match ParseOne(b)
    case AtEnd => Scan([], 0, Clean)
    case TornRecord => Scan([], 0, Torn(|b|))
    case BadItem(reason) => Scan([], 0, Corrupt(reason))
    case Whole(f, n) =>
      var s := ScanAll(b[n..]);
      Scan([f] + s.frames, n + s.valid, s.ending)
  }

  // The checks of one turn of the loop: framing first, then the length, then the whole record.
  method ReadOne(file: bytes, off: nat) returns (item: Item)
    requires off <= |file|
    ensures item == ParseOne(file[off..])
  {
    hide HeaderChecksum, RecordChecksum, UnLE;
    var remaining := |file| - off;
    if remaining == 0 {
      return AtEnd;
    }
    if remaining < HEADER_SIZE {
      return TornRecord;
    }
    var hdr := file[off..off + HEADER_SIZE];
    assert hdr == file[off..][..HEADER_SIZE];
    var length := UnLE(hdr[0..4]);
    if HeaderChecksum(hdr) != UnLE(hdr[5..9]) {
      return BadItem(BadHeader);
    }
    if length > MAX_RECORD_SIZE {
      return BadItem(TooLong);
    }
    if length > remaining - HEADER_SIZE {
      return TornRecord;
    }
    var payload := file[off + HEADER_SIZE..off + HEADER_SIZE + length];
    assert payload == file[off..][HEADER_SIZE..HEADER_SIZE + length];
    if RecordChecksum(hdr, payload) != UnLE(hdr[9..13]) {
      return BadItem(BadRecord);
    }
    if !ValidType(hdr[4]) {
      return BadItem(BadType);
    }
    return Whole(Frame(hdr[4], payload), HEADER_SIZE + length);
  }

  // Replay delivers every record with the offset it was read from, in order, until the file ends or a
  // record cannot be trusted. Torn and corrupt endings are reported at `off`.
  method Replay(file: bytes) returns (frames: seq<Frame>, offsets: seq<nat>, off: nat, ending: Ending)
    ensures Scan(frames, off, ending) == ScanAll(file)
    ensures off <= |file| && file[..off] == EncodedAll(frames)
    ensures |offsets| == |frames| && forall i :: 0 <= i < |frames| ==> offsets[i] == |EncodedAll(frames[..i])|
  {
    hide ParseOne, ScanAll, EncodedAll;
    off, frames, offsets := 0, [], [];
    ScanStart(file);
    while true
      invariant off <= |file|
      invariant ScanAll(file) == Prepend(frames, off, ScanAll(file[off..]))
      invariant file[..off] == EncodedAll(frames)
      invariant |offsets| == |frames| && forall i :: 0 <= i < |frames| ==> offsets[i] == |EncodedAll(frames[..i])|
      decreases |file| - off
    {
      var item := ReadOne(file, off);
      ScanEnds(file[off..]);
      match item
      case AtEnd =>
        return frames, offsets, off, Clean;
      case TornRecord =>
        return frames, offsets, off, Torn(|file| - off);
      case BadItem(reason) =>
        return frames, offsets, off, Corrupt(reason);
      case Whole(f, n) =>
        Advance(file, frames, off, f, n);
        ghost var was := frames;
        frames, offsets, off := frames + [f], offsets + [off], off + n;
        assert forall i :: 0 <= i < |was| ==> frames[..i] == was[..i];
        assert frames[..|was|] == was;
    }
  }

  ghost function Prepend(fs: seq<Frame>, n: nat, s: Scan): Scan {
    Scan(fs + s.frames, n + s.valid, s.ending)
  }

  lemma ScanStart(file: bytes)
    ensures ScanAll(file) == Prepend([], 0, ScanAll(file[0..]))
    ensures EncodedAll([]) == [] == file[..0]
  {
    assert file[0..] == file;
  }

  lemma ScanEnds(b: bytes)
    ensures ParseOne(b) == AtEnd ==> ScanAll(b) == Scan([], 0, Clean)
    ensures ParseOne(b) == TornRecord ==> ScanAll(b) == Scan([], 0, Torn(|b|))
    ensures forall r :: ParseOne(b) == BadItem(r) ==> ScanAll(b) == Scan([], 0, Corrupt(r))
  {
    hide ParseOne;
  }

  lemma ScanWhole(b: bytes, f: Frame, n: nat)
    requires ParseOne(b) == Whole(f, n)
    ensures ScanAll(b) == Prepend([f], n, ScanAll(b[n..]))
  {
    hide ParseOne;
  }

  // One turn of the loop of Replay over a whole record.
  lemma Advance(file: bytes, was: seq<Frame>, start: nat, f: Frame, n: nat)
    requires start <= |file|
    requires ParseOne(file[start..]) == Whole(f, n)
    requires ScanAll(file) == Prepend(was, start, ScanAll(file[start..]))
    requires file[..start] == EncodedAll(was)
    ensures HEADER_SIZE <= n && start + n <= |file|
    ensures ScanAll(file) == Prepend(was + [f], start + n, ScanAll(file[start + n..]))
    ensures file[..start + n] == EncodedAll(was + [f])
  {
    ParseOneSound(file[start..]);
    hide ParseOne, EncodedAll, Encoded, ScanAll;
    ScanWhole(file[start..], f, n);
    Cut(file, start, n);
    Associative(was, [f], ScanAll(file[start + n..]).frames);
    EncodedAllAppend(was, [f]);
    EncodedOne(f);
  }

  // A record is only ever accepted on exactly the bytes Encode writes for it.
  lemma ParseOneSound(b: bytes)
    requires ParseOne(b).Whole?
    ensures var Whole(f, n) := ParseOne(b);
            b[..n] == Encoded(f) && n == HEADER_SIZE + |f.payload| && ValidType(f.typ) && |f.payload| <= MAX_RECORD_SIZE
  {
    hide LE, UnLE, HeaderChecksum, RecordChecksum;
    var hdr := b[..HEADER_SIZE];
    var Whole(f, n) := ParseOne(b);
    var framing := Framing(f.typ, f.payload);
    LEUnLE(hdr[0..4]);
    LEUnLE(hdr[5..9]);
    LEUnLE(hdr[9..13]);
    assert framing[0..5] == framing == hdr[0..5];
    FirstFive(framing, hdr, f.payload);
    Split(b, n);
  }

  lemma Split(b: bytes, n: nat)
    requires HEADER_SIZE <= n <= |b|
    ensures var hdr := b[..HEADER_SIZE]; b[..n] == hdr[0..5] + hdr[5..9] + hdr[9..13] + b[HEADER_SIZE..n]
  {
  }

  // Whatever was encoded, parsing gives it back exactly when its type is known and it is no longer than the reader's
  // limit. A record that is too long for that limit, or of an unknown type, is called corrupt, never torn.
  lemma ParseEncoded(f: Frame, rest: bytes)
    ensures ParseOne(Encoded(f) + rest) == Whole(f, |Encoded(f)|)
            <==> |f.payload| <= 64 * 1024 * 1024 && 1 <= f.typ <= 6
    ensures 64 * 1024 * 1024 < |f.payload| < TWO_32 ==> ParseOne(Encoded(f) + rest) == BadItem(TooLong)
    ensures |f.payload| <= 64 * 1024 * 1024 && !(1 <= f.typ <= 6) ==> ParseOne(Encoded(f) + rest) == BadItem(BadType)
  {
    hide ParseOne, Encoded;
    if ParseOne(Encoded(f) + rest).Whole? { ParseOneSound(Encoded(f) + rest); }
    if |f.payload| < TWO_32 { ParseFramed(f, rest); }
  }

  lemma ParseFramed(f: Frame, rest: bytes)
    requires |f.payload| < TWO_32
    ensures ParseOne(Encoded(f) + rest) ==
            if |f.payload| > MAX_RECORD_SIZE then BadItem(TooLong)
            else if !ValidType(f.typ) then BadItem(BadType)
            else Whole(f, |Encoded(f)|)
  {
    hide LE, UnLE, HeaderChecksum, RecordChecksum;
    var b := Encoded(f) + rest;
    HeaderOf(f, rest);
    assert b[HEADER_SIZE..HEADER_SIZE + |f.payload|] == f.payload;
    hide Encoded;
  }

  lemma Fields(a: bytes, b: bytes, c: bytes, rest: bytes)
    requires |a| == 5 && |b| == 4 && |c| == 4
    ensures var hdr := (a + b + c + rest)[..HEADER_SIZE];
            hdr[0..5] == a && hdr[5..9] == b && hdr[9..13] == c && hdr[0..4] == a[..4] && hdr[4] == a[4]
  {
  }

  // The header fields of an encoded record read back.
  lemma HeaderOf(f: Frame, rest: bytes)
    requires |f.payload| < TWO_32
    ensures var hdr := (Encoded(f) + rest)[..HEADER_SIZE];
            && hdr[0..5] == Framing(f.typ, f.payload) && hdr[4] == f.typ
            && UnLE(hdr[0..4]) == |f.payload|
            && UnLE(hdr[5..9]) == HeaderChecksum(hdr)
            && UnLE(hdr[9..13]) == RecordChecksum(hdr, f.payload)
  {
    hide LE, UnLE, Pow256, HeaderChecksum, RecordChecksum;
    var framing := Framing(f.typ, f.payload);
    var h, r := HeaderChecksum(framing), RecordChecksum(framing, f.payload);
    var hdr := (Encoded(f) + rest)[..HEADER_SIZE];
    assert Encoded(f) + rest == framing + LE(h, 4) + LE(r, 4) + (f.payload + rest);
    Fields(framing, LE(h, 4), LE(r, 4), f.payload + rest);
    FirstFive(framing, hdr, f.payload);
    assert framing[..4] == LE(|f.payload|, 4);
    Widths();
    UnLELE(|f.payload|, 4);
    UnLELE(h, 4);
    UnLELE(r, 4);
  }
}
