// What Replay makes of a log that was cut short, extended, or damaged.
module Recovery {
  import opened Bytes
  import opened Seqs
  import opened Record
  import opened Replay
  import Crc32c

  predicate Writable(f: Frame) {
    ValidType(f.typ) && |f.payload| <= MAX_RECORD_SIZE
  }

  predicate AllWritable(fs: seq<Frame>) {
    forall i :: 0 <= i < |fs| ==> Writable(fs[i])
  }

  lemma ParseWritable(f: Frame, rest: bytes)
    requires Writable(f)
    ensures ParseOne(Encoded(f) + rest) == Whole(f, |Encoded(f)|)
  {
    hide ParseOne, Encoded;
    ParseEncoded(f, rest);
  }

  // Whatever follows a run of whole records is read as if it stood alone.
  lemma {:induction false} ScanEncodedThen(fs: seq<Frame>, tail: bytes)
    requires AllWritable(fs)
    ensures ScanAll(EncodedAll(fs) + tail) == Prepend(fs, |EncodedAll(fs)|, ScanAll(tail))
    decreases |fs|
  {
    hide ParseOne, Encoded, ScanAll;
    if fs == [] {
      assert [] + tail == tail;
      assert [] + ScanAll(tail).frames == ScanAll(tail).frames;
    } else {
      var rest := EncodedAll(fs[1..]) + tail;
      Associative(Encoded(fs[0]), EncodedAll(fs[1..]), tail);
      ParseWritable(fs[0], rest);
      ScanWhole(Encoded(fs[0]) + rest, fs[0], |Encoded(fs[0])|);
      DropPrefix(Encoded(fs[0]), rest);
      ScanEncodedThen(fs[1..], tail);
      Associative([fs[0]], fs[1..], ScanAll(tail).frames);
      assert fs == [fs[0]] + fs[1..];
    }
  }

  // Encoding then replaying is the identity.
  lemma ScanEncoded(fs: seq<Frame>)
    requires AllWritable(fs)
    ensures ScanAll(EncodedAll(fs)) == Scan(fs, |EncodedAll(fs)|, Clean)
  {
    hide ParseOne, Encoded, EncodedAll;
    ScanEncodedThen(fs, []);
    assert EncodedAll(fs) + [] == EncodedAll(fs);
    assert ScanAll([]) == Scan([], 0, Clean) by { ScanEnds([]); ParseNothing(); }
    assert fs + [] == fs;
  }

  lemma ParseNothing()
    ensures ParseOne([]) == AtEnd
  {
  }

  // On arbitrary bytes: every record delivered is one the writer could have written, on exactly its own bytes;
  // the verified prefix and the torn bytes make up the file; and the verified prefix replays to the same
  // records with nothing torn.
  lemma {:induction false} ReplaySoundOnAnyBytes(b: bytes)
    ensures var s := ScanAll(b);
            && s.valid <= |b|
            && AllWritable(s.frames)
            && b[..s.valid] == EncodedAll(s.frames)
            && (s.ending == Clean <==> s.valid == |b|)
            && (s.ending.Torn? ==> s.ending.bytes == |b| - s.valid > 0)
            && ScanAll(b[..s.valid]) == Scan(s.frames, s.valid, Clean)
  {
    ScanPrefixEncoded(b);
    ScanEncoded(ScanAll(b).frames);
  }

  lemma {:induction false} ScanPrefixEncoded(b: bytes)
    ensures var s := ScanAll(b);
            && AllWritable(s.frames)
            && b[..s.valid] == EncodedAll(s.frames)
            && (s.ending == Clean <==> s.valid == |b|)
            && (s.ending.Torn? ==> s.ending.bytes == |b| - s.valid > 0)
    decreases |b|
  {
    hide ParseOne, ScanAll, Encoded;
    var item := ParseOne(b);
    ParseOneAtEnd(b);
    if item.Whole? {
      ParseOneSound(b);
      ScanWhole(b, item.frame, item.size);
      var rest := b[item.size..];
      var s := ScanAll(rest);
      ScanPrefixEncoded(rest);
      Cut(b, item.size, s.valid);
      var fs := [item.frame] + s.frames;
      assert fs[1..] == s.frames;
    } else {
      ScanEnds(b);
    }
  }

  lemma ParseOneAtEnd(b: bytes)
    ensures ParseOne(b) == AtEnd <==> b == []
  {
    hide UnLE, HeaderChecksum, RecordChecksum;
  }

  // How many of the records lie wholly within the first `cut` bytes.
  function WholeBefore(fs: seq<Frame>, cut: nat): (k: nat)
    ensures k <= |fs|
  {
    if fs == [] || cut < |Encoded(fs[0])| then 0 else 1 + WholeBefore(fs[1..], cut - |Encoded(fs[0])|)
  }

  // WholeBefore is what it says: the records up to k end by the cut, and one more would not.
  lemma {:induction false} WholeBeforeIsMaximal(fs: seq<Frame>, cut: nat)
    ensures var k := WholeBefore(fs, cut);
            && |EncodedAll(fs[..k])| <= cut
            && (k < |fs| ==> cut < |EncodedAll(fs[..k + 1])|)
    decreases |fs|
  {
    hide Encoded;
    var k := WholeBefore(fs, cut);
    if fs == [] {
    } else if k == 0 {
      assert fs[..1] == [fs[0]];
      EncodedOne(fs[0]);
    } else {
      WholeBeforeIsMaximal(fs[1..], cut - |Encoded(fs[0])|);
      EncodedTake(fs, k);
      if k < |fs| { EncodedTake(fs, k + 1); }
    }
  }

  lemma EncodedTake(fs: seq<Frame>, k: nat)
    requires 1 <= k <= |fs|
    ensures EncodedAll(fs[..k]) == Encoded(fs[0]) + EncodedAll(fs[1..][..k - 1])
  {
    hide Encoded;
    assert fs[..k][1..] == fs[1..][..k - 1];
  }

  // A proper prefix of one record is torn: the header, if complete, is intact, and its length runs past the end.
  lemma CutRecordIsTorn(f: Frame, cut: nat)
    requires Writable(f) && 0 < cut < |Encoded(f)|
    ensures ParseOne(Encoded(f)[..cut]) == TornRecord
  {
    hide Encoded, UnLE, HeaderChecksum, RecordChecksum;
    if cut >= HEADER_SIZE {
      HeaderOf(f, []);
      assert Encoded(f) + [] == Encoded(f);
      assert Encoded(f)[..cut][..HEADER_SIZE] == Encoded(f)[..HEADER_SIZE];
    }
  }

  // Prefix recovery: however a log is cut, Replay delivers exactly the records wholly before the cut, and calls
  // the rest torn exactly when the cut is off a record boundary.
  lemma {:induction false} PrefixRecovery(fs: seq<Frame>, cut: nat)
    requires AllWritable(fs) && cut <= |EncodedAll(fs)|
    ensures var k := WholeBefore(fs, cut);
            var valid := |EncodedAll(fs[..k])|;
            && valid <= cut
            && ScanAll(EncodedAll(fs)[..cut]) == Scan(fs[..k], valid, if cut == valid then Clean else Torn(cut - valid))
    decreases |fs|
  {
    hide ParseOne, Encoded, ScanAll;
    if fs == [] || cut == 0 {
      assert EncodedAll(fs)[..cut] == [];
      assert fs[..0] == [];
      ScanEncoded([]);
    } else {
      var first := Encoded(fs[0]);
      if cut < |first| {
        TakeInFirst(first, EncodedAll(fs[1..]), cut);
        CutRecordIsTorn(fs[0], cut);
        ScanEnds(first[..cut]);
        assert fs[..0] == [];
      } else {
        var rest := EncodedAll(fs[1..]);
        var k := WholeBefore(fs, cut);
        TakeIntoSecond(first, rest, cut - |first|);
        PrefixRecovery(fs[1..], cut - |first|);
        ParseWritable(fs[0], rest[..cut - |first|]);
        ScanWhole(first + rest[..cut - |first|], fs[0], |first|);
        DropPrefix(first, rest[..cut - |first|]);
        EncodedTake(fs, k);
        assert fs[..k] == [fs[0]] + fs[1..][..k - 1];
      }
    }
  }

  // Open truncates to the verified prefix; appending then replays to the recovered records and the new ones.
  lemma TruncateThenAppend(fs: seq<Frame>, cut: nat, more: seq<Frame>)
    requires AllWritable(fs) && AllWritable(more) && cut <= |EncodedAll(fs)|
    ensures var s := ScanAll(EncodedAll(fs)[..cut]);
            var kept := fs[..WholeBefore(fs, cut)];
            && s.valid <= cut
            && EncodedAll(fs)[..cut][..s.valid] == EncodedAll(kept)
            && ScanAll(EncodedAll(fs)[..cut][..s.valid] + EncodedAll(more))
               == Scan(kept + more, s.valid + |EncodedAll(more)|, Clean)
  {
    hide ParseOne, Encoded, ScanAll, EncodedAll, WholeBefore;
    PrefixRecovery(fs, cut);
    ReplaySoundOnAnyBytes(EncodedAll(fs)[..cut]);
    var kept := fs[..WholeBefore(fs, cut)];
    EncodedAllAppend(kept, more);
    ScanEncoded(kept + more);
  }

  lemma UnLEDiffers(a: bytes, i: nat, x: byte)
    requires i < |a| && a[i] != x
    ensures UnLE(a) != UnLE(a[i := x])
  {
    LEUnLE(a);
    LEUnLE(a[i := x]);
    assert a[i := x][i] == x;
  }

  lemma WordsDiffer(a: bytes, i: nat, x: byte)
    requires i < |a| && a[i] != x
    ensures Crc32c.Word(Crc32c.Checksum(a)) != Crc32c.Word(Crc32c.Checksum(a[i := x]))
  {
    hide Crc32c.Word, Crc32c.Checksum;
    Crc32c.OneByteChangesChecksum(a, i, x);
    if Crc32c.Word(Crc32c.Checksum(a)) == Crc32c.Word(Crc32c.Checksum(a[i := x])) {
      Crc32c.WordInjective(Crc32c.Checksum(a), Crc32c.Checksum(a[i := x]));
    }
  }

  lemma RecordChecksumIs(hdr: bytes, payload: bytes)
    requires |hdr| >= 5
    ensures RecordChecksum(hdr, payload) == Crc32c.Word(Crc32c.Checksum(hdr[0..5] + payload))
  {
    hide Crc32c.Word;
    Crc32c.UpdateAppend(hdr[0..5], payload);
    hide Crc32c.Update;
  }

  lemma HeaderChecksumIs(hdr: bytes)
    requires |hdr| >= 5
    ensures HeaderChecksum(hdr) == Crc32c.Word(Crc32c.Checksum(hdr[0..5]))
  {
    hide Crc32c.Word, Crc32c.Checksum;
  }

  lemma ParseBadHeader(b: bytes, hdr: bytes)
    requires |b| >= HEADER_SIZE && hdr == b[..HEADER_SIZE] && HeaderChecksum(hdr) != UnLE(hdr[5..9])
    ensures ParseOne(b) == BadItem(BadHeader)
  {
    hide UnLE, HeaderChecksum, RecordChecksum;
  }

  lemma ParseBadRecord(b: bytes, hdr: bytes, payload: bytes)
    requires HEADER_SIZE + |payload| <= |b| && |payload| <= MAX_RECORD_SIZE
    requires hdr == b[..HEADER_SIZE] && payload == b[HEADER_SIZE..HEADER_SIZE + |payload|]
    requires HeaderChecksum(hdr) == UnLE(hdr[5..9]) && UnLE(hdr[0..4]) == |payload|
    requires RecordChecksum(hdr, payload) != UnLE(hdr[9..13])
    ensures ParseOne(b) == BadItem(BadRecord)
  {
    hide UnLE, HeaderChecksum, RecordChecksum;
  }

  // Damage in the framing or in the header checksum: the header check fails.
  lemma DamagedHeader(hdr: bytes, q: nat, x: byte)
    requires |hdr| == HEADER_SIZE && HeaderChecksum(hdr) == UnLE(hdr[5..9])
    requires q < 9 && hdr[q] != x
    ensures var dam := hdr[q := x]; HeaderChecksum(dam) != UnLE(dam[5..9])
  {
    hide UnLE, HeaderChecksum, Crc32c.Word, Crc32c.Checksum;
    var dam := hdr[q := x];
    SliceOfUpdate(hdr, 0, 5, q, x);
    SliceOfUpdate(hdr, 5, 9, q, x);
    HeaderChecksumIs(hdr);
    HeaderChecksumIs(dam);
    if q < 5 {
      WordsDiffer(hdr[0..5], q, x);
    } else {
      UnLEDiffers(hdr[5..9], q - 5, x);
    }
  }

  // Damage in the record checksum: the header passes, the record check fails.
  lemma DamagedRecordChecksum(hdr: bytes, payload: bytes, q: nat, x: byte)
    requires |hdr| == HEADER_SIZE && HeaderChecksum(hdr) == UnLE(hdr[5..9])
    requires RecordChecksum(hdr, payload) == UnLE(hdr[9..13])
    requires 9 <= q < HEADER_SIZE && hdr[q] != x
    ensures var dam := hdr[q := x];
            && HeaderChecksum(dam) == UnLE(dam[5..9]) && dam[0..4] == hdr[0..4]
            && RecordChecksum(dam, payload) != UnLE(dam[9..13])
  {
    hide UnLE, HeaderChecksum, RecordChecksum;
    var dam := hdr[q := x];
    SliceOfUpdate(hdr, 0, 4, q, x);
    SliceOfUpdate(hdr, 0, 5, q, x);
    SliceOfUpdate(hdr, 5, 9, q, x);
    SliceOfUpdate(hdr, 9, 13, q, x);
    FirstFive(hdr, dam, payload);
    UnLEDiffers(hdr[9..13], q - 9, x);
  }

  // Damage in the payload: the record check fails.
  lemma DamagedPayload(hdr: bytes, payload: bytes, q: nat, x: byte)
    requires |hdr| == HEADER_SIZE && q < |payload| && payload[q] != x
    ensures RecordChecksum(hdr, payload[q := x]) != RecordChecksum(hdr, payload)
  {
    hide Crc32c.Word, RecordChecksum;
    RecordChecksumIs(hdr, payload);
    RecordChecksumIs(hdr, payload[q := x]);
    UpdateInSecond(hdr[0..5], payload, q, x);
    WordsDiffer(hdr[0..5] + payload, 5 + q, x);
  }

  lemma HeaderAndPayload(f: Frame, rest: bytes)
    ensures var b := Encoded(f) + rest;
            b == b[..HEADER_SIZE] + (f.payload + rest) && b[..HEADER_SIZE] == Encoded(f)[..HEADER_SIZE]
            && Encoded(f) == b[..HEADER_SIZE] + f.payload
  {
    hide HeaderChecksum, RecordChecksum;
  }

  // Any one damaged byte of a record, whatever follows it.
  lemma DamagedRecord(f: Frame, q: nat, x: byte, rest: bytes)
    requires Writable(f) && q < |Encoded(f)| && Encoded(f)[q] != x
    ensures ParseOne(Encoded(f)[q := x] + rest) == BadItem(if q < 9 then BadHeader else BadRecord)
  {
    hide UnLE, HeaderChecksum, RecordChecksum, Encoded, ParseOne;
    HeaderOf(f, rest);
    HeaderAndPayload(f, rest);
    var hdr := (Encoded(f) + rest)[..HEADER_SIZE];
    if q < HEADER_SIZE {
      UpdateInFirst(hdr, f.payload, q, x);
      Associative(hdr[q := x], f.payload, rest);
      Layout(hdr[q := x], f.payload, rest);
      if q < 9 {
        DamagedHeader(hdr, q, x);
        ParseBadHeader(hdr[q := x] + f.payload + rest, hdr[q := x]);
      } else {
        DamagedRecordChecksum(hdr, f.payload, q, x);
        ParseBadRecord(hdr[q := x] + f.payload + rest, hdr[q := x], f.payload);
      }
    } else {
      var payload := f.payload[q - HEADER_SIZE := x];
      UpdateInSecond(hdr, f.payload, q - HEADER_SIZE, x);
      Layout(hdr, payload, rest);
      DamagedPayload(hdr, f.payload, q - HEADER_SIZE, x);
      ParseBadRecord(hdr + payload + rest, hdr, payload);
    }
  }

  lemma Layout(hdr: bytes, payload: bytes, rest: bytes)
    requires |hdr| == HEADER_SIZE
    ensures var b := hdr + payload + rest;
            b[..HEADER_SIZE] == hdr && b[HEADER_SIZE..HEADER_SIZE + |payload|] == payload
  {
  }

  // One damaged byte, in a log with any tail: Replay reports corruption at the start of the record that holds it,
  // after delivering exactly the records before it. It is never taken for a torn tail and never accepted.
  lemma {:induction false} OneDamagedByteIsDetected(fs: seq<Frame>, p: nat, x: byte, tail: bytes)
    requires AllWritable(fs) && p < |EncodedAll(fs)| && EncodedAll(fs)[p] != x
    ensures var i := WholeBefore(fs, p);
            var s := ScanAll(EncodedAll(fs)[p := x] + tail);
            && i < |fs|
            && |EncodedAll(fs[..i])| <= p < |EncodedAll(fs[..i + 1])|
            && s.frames == fs[..i]
            && s.valid == |EncodedAll(fs[..i])|
            && s.ending == Corrupt(if p - s.valid < 9 then BadHeader else BadRecord)
    decreases |fs|
  {
    hide ParseOne, Encoded, ScanAll;
    var first, rest := Encoded(fs[0]), EncodedAll(fs[1..]);
    WholeBeforeIsMaximal(fs, p);
    var i := WholeBefore(fs, p);
    if p < |first| {
      UpdateInFirst(first, rest, p, x);
      Associative(first[p := x], rest, tail);
      DamagedRecord(fs[0], p, x, rest + tail);
      ScanEnds(first[p := x] + (rest + tail));
      assert fs[..0] == [];
    } else {
      var q := p - |first|;
      UpdateInSecond(first, rest, q, x);
      Associative(first, rest[q := x], tail);
      OneDamagedByteIsDetected(fs[1..], q, x, tail);
      ParseWritable(fs[0], rest[q := x] + tail);
      ScanWhole(first + (rest[q := x] + tail), fs[0], |first|);
      DropPrefix(first, rest[q := x] + tail);
      if i < |fs| { assert fs[..i] == [fs[0]] + fs[1..][..i - 1]; }
      EncodedTake(fs, i);
    }
  }
}
