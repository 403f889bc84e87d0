// wal/replay.go's Writer: a fresh log file written in one pass and installed over another.
module Writers {
  import opened Bytes
  import opened Seqs
  import opened Messages
  import opened Record
  import opened QueueState
  import opened Wire

  // The file at the log's path, and the one a crash may still bring back until the directory is fsynced.
  datatype Files = Files(log: bytes, replaced: Option<bytes>)

  // Which of Install's system calls fail.
  datatype Faults = Faults(flush: bool, sync: bool, close: bool, rename: bool, syncDir: bool)

  class Writer {
    var content: bytes // everything passed to the buffered writer
    var size: nat
    var synced: bool   // content is durable under the temporary name

    constructor ()
      ensures content == [] && size == 0 && !synced
    {
      content, size, synced := [], 0, false;
    }

    method Append(t: byte, payload: bytes, fault: bool) returns (ok: bool)
      requires size == |content|
      modifies this
      ensures ok <==> !fault
      ensures ok ==> content == old(content) + Encoded(Frame(t, payload)) && size == |content| && !synced
      ensures !ok ==> content == old(content) && size == old(size)
    {
      hide Encoded;
      if fault {
        return false;
      }
      Joined(Encoded(Frame(t, payload)));
      var rec := Encode([], t, payload);
      content := content + rec;
      size := size + |rec|;
      synced := false;
      return true;
    }

    // Only a complete and durable file is ever renamed into place, and `installed` says whether it was: an error
    // with installed false has changed nothing, one with installed true leaves either file to be found.
    method Install(d: Files, faults: Faults) returns (installed: bool, ok: bool, d': Files)
      modifies this
      ensures content == old(content) && size == old(size)
      ensures installed <==> !faults.flush && !faults.sync && !faults.close && !faults.rename
      ensures ok <==> installed && !faults.syncDir
      ensures !installed ==> d' == d
      ensures installed ==> synced && d'.log == content
      ensures installed && !ok ==> d'.replaced == Some(d.log)
      ensures ok ==> d'.replaced == None
    {
      if faults.flush || faults.sync {
        return false, false, d;
      }
      synced := true;
      if faults.close || faults.rename {
        return false, false, d;
      }
      d' := Files(content, Some(d.log));
      if faults.syncDir {
        return true, false, d';
      }
      d' := d'.(replaced := None);
      return true, true, d';
    }

    // The records of a snapshot, one after the other; the first error stops.
    method AppendAll(j: ConfigCodec, recs: seq<LogRec>, faultAt: nat) returns (ok: bool)
      requires size == |content|
      modifies this
      ensures ok <==> faultAt >= |recs|
      ensures size == |content|
      ensures ok ==> content == old(content) + EncodedAll(FramesOf(j, recs))
    {
      hide EncodedAll, Encoded, FrameOf;
      NothingWritten(content);
      for i := 0 to |recs|
        invariant size == |content| && i <= faultAt
        invariant content == old(content) + EncodedAll(FramesOf(j, recs[..i]))
      {
        var f := FrameOf(j, recs[i]);
        OneMoreWritten(j, recs, i, old(content));
        var done := Append(f.typ, f.payload, i == faultAt);
        if !done {
          return false;
        }
      }
      assert recs[..|recs|] == recs;
      return true;
    }
  }

  // A snapshot written and installed: NewWriter, the Append of every record, and Install.
  method Install(j: ConfigCodec, recs: seq<LogRec>, d: Files, faultAt: nat, faults: Faults)
    returns (installed: bool, ok: bool, size: nat, d': Files)
    ensures ok ==> installed
    ensures !installed ==> d' == d
    ensures installed ==> d'.log == EncodedAll(FramesOf(j, recs)) && size == |d'.log|
    ensures installed ==> d'.replaced == if ok then None else Some(d.log)
    ensures installed <==> faultAt >= |recs| && !faults.flush && !faults.sync && !faults.close && !faults.rename
    ensures ok <==> installed && !faults.syncDir
  {
    hide EncodedAll, FramesOf;
    var w := new Writer();
    Joined(EncodedAll(FramesOf(j, recs)));
    var written := w.AppendAll(j, recs, faultAt);
    if !written {
      return false, false, 0, d;
    }
    size := w.size;
    installed, ok, d' := w.Install(d, faults);
  }

  lemma Joined(b: bytes)
    ensures [] + b == b
  {
  }

  lemma NothingWritten(b: bytes)
    ensures b == b + EncodedAll([])
  {
  }

  lemma OneMoreWritten(j: ConfigCodec, recs: seq<LogRec>, i: nat, b: bytes)
    requires i < |recs|
    ensures b + EncodedAll(FramesOf(j, recs[..i + 1]))
            == b + EncodedAll(FramesOf(j, recs[..i])) + Encoded(FrameOf(j, recs[i]))
  {
    hide EncodedAll, Encoded, FrameOf;
    assert FramesOf(j, recs[..i + 1]) == FramesOf(j, recs[..i]) + [FrameOf(j, recs[i])];
    EncodedAllAppend(FramesOf(j, recs[..i]), [FrameOf(j, recs[i])]);
    EncodedOne(FrameOf(j, recs[i]));
    Associative(b, EncodedAll(FramesOf(j, recs[..i])), Encoded(FrameOf(j, recs[i])));
  }
}
