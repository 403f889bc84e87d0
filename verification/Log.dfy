// wal/log.go as an object: one method for each stretch of code that runs under the log's mutex.
module Log {
  import opened Bytes
  import opened Seqs
  import opened Record
  import GroupCommit

  class Log {
    var buf: bytes     // encodes the protocol's buffer
    var pending: nat   // and counts its records
    var nextSeq: nat   // one more than the batches taken so far
    var flushed: nat   // batches whose write is over, well or badly
    var fatal: bool
    var fatalSeq: nat  // once fatal: from which batch on waits fail, 0 for all
    var closed: bool
    var size: nat      // length of the encoding of what the protocol has written
    var signal: bool   // whether the flusher's wake-up is waiting in its slot

    // The protocol state these fields implement.
    ghost var protocol: GroupCommit.LogState<Frame>

    ghost predicate Valid()
      reads this
    {
      && GroupCommit.Inv(protocol)
      && buf == EncodedAll(protocol.buf) && pending == |protocol.buf|
      && nextSeq == protocol.NextSeq() && flushed == protocol.flushed
      && fatal == protocol.fatal && (fatal ==> fatalSeq == protocol.fatalSeq)
      && closed == protocol.closed && signal == protocol.token
      && size == |EncodedAll(GroupCommit.Written(protocol))|
    }

    lemma SizeIsWritten()
      requires Valid()
      ensures GroupCommit.Inv(protocol) && protocol.from <= protocol.synced <= |protocol.batches|
      ensures size == |EncodedAll(GroupCommit.Written(protocol))|
    {
    }

    // Open, on a file of which Replay has verified a part. Anything more is cut off, and the file synced; a file that
    // needs no cutting is not synced, and may be no safer than it was: `sure` records of it.
    constructor (ghost recovered: seq<Frame>, ghost sure: nat, verified: nat, fileSize: nat)
      requires verified == |EncodedAll(recovered)| && sure <= |recovered|
      ensures Valid()
      ensures protocol == GroupCommit.Opened(recovered, if fileSize != verified then |recovered| else sure)
    {
      ghost var synced := sure;
      if fileSize != verified {
        synced := |recovered|;
      }
      buf, pending, nextSeq, flushed := [], 0, 1, 0;
      fatal, fatalSeq, closed, signal, size := false, 0, false, false, verified;
      protocol := GroupCommit.Opened(recovered, synced);
      new;
      OpenedIsValid(recovered, synced);
    }

    method Append(t: byte, payload: bytes) returns (ok: bool, batch: nat)
      requires Valid()
      modifies this
      ensures Valid()
      ensures ok <==> GroupCommit.Enabled(old(protocol), GroupCommit.Append(Frame(t, payload)))
      ensures ok ==> protocol == GroupCommit.Do(old(protocol), GroupCommit.Append(Frame(t, payload)))
      ensures ok ==> batch == protocol.NextSeq()
      ensures !ok ==> protocol == old(protocol)
    {
      hide EncodedAll, Encoded;
      if fatal || closed {
        return false, 0;
      }
      ghost var f := Frame(t, payload);
      EncodedAllAppend(protocol.buf, [f]);
      EncodedOne(f);
      WrittenKept(protocol, GroupCommit.Append(f));
      buf := Encode(buf, t, payload);
      pending := pending + 1;
      batch := nextSeq;
      Kick();
      ok := true;
      protocol := GroupCommit.Do(protocol, GroupCommit.Append(f));
    }

    // A send that never blocks: a full slot already holds the wakeup.
    method Kick()
      modifies this`signal
      ensures signal
    {
      if !signal {
        signal := true;
      }
    }

    // The test of Wait's loop and what it returns when it leaves it.
    method Wait(batch: nat) returns (v: GroupCommit.Verdict)
      requires Valid()
      ensures v == GroupCommit.Wait(protocol, batch)
    {
      if flushed < batch && !fatal {
        return GroupCommit.Blocked;
      }
      if fatal && fatalSeq <= batch {
        return GroupCommit.Failed;
      }
      return GroupCommit.Nil;
    }

    // One turn of Sync's loop.
    method Sync() returns (v: GroupCommit.Verdict)
      requires Valid()
      modifies this
      ensures Valid()
      ensures v == GroupCommit.Sync(old(protocol))
      ensures protocol == if v == GroupCommit.Blocked && |old(protocol).buf| > 0
                          then GroupCommit.Do(old(protocol), GroupCommit.Kick) else old(protocol)
    {
      hide EncodedAll, Encoded, GroupCommit.Inv, GroupCommit.Written;
      if fatal {
        return GroupCommit.Failed;
      }
      BufferEmpty(protocol.buf);
      if |buf| == 0 && flushed + 1 == nextSeq {
        return GroupCommit.Nil;
      }
      if |buf| > 0 {
        WrittenKept(protocol, GroupCommit.Kick);
        Kick();
        protocol := GroupCommit.Do(protocol, GroupCommit.Kick);
      }
      return GroupCommit.Blocked;
    }

    // The flusher's select: it receives the token, or sees that done is closed.
    method ReceiveSignal()
      requires Valid() && protocol.flusher.Idle? && signal
      modifies this
      ensures Valid() && protocol == GroupCommit.Do(old(protocol), GroupCommit.Wake)
    {
      hide EncodedAll, Encoded;
      WrittenKept(protocol, GroupCommit.Wake);
      hide GroupCommit.Inv, GroupCommit.Written;
      signal := false;
      protocol := GroupCommit.Do(protocol, GroupCommit.Wake);
    }

    ghost method ReceiveDone()
      requires Valid() && protocol.flusher.Idle? && protocol.done
      modifies this`protocol
      ensures Valid() && protocol == GroupCommit.Do(old(protocol), GroupCommit.WakeDone)
    {
      hide EncodedAll, Encoded;
      WrittenKept(protocol, GroupCommit.WakeDone);
      hide GroupCommit.Inv, GroupCommit.Written;
      protocol := GroupCommit.Do(protocol, GroupCommit.WakeDone);
    }

    // flushOnce up to the write. The flusher has been woken; data is what it now writes.
    method FlushBegin() returns (work: bool, data: bytes, ghost records: seq<Frame>)
      requires Valid() && protocol.flusher.Woken?
      modifies this
      ensures Valid()
      ensures protocol == GroupCommit.Do(old(protocol), GroupCommit.Take)
      ensures work <==> protocol.flusher.Writing?
      ensures work ==> records == protocol.batches[|protocol.batches| - 1] && data == EncodedAll(records)
    {
      hide EncodedAll, Encoded, GroupCommit.Inv, GroupCommit.Written;
      BufferEmpty(protocol.buf);
      BufferEmpty([]);
      WrittenKept(protocol, GroupCommit.Take);
      WokenIsNotWriting(protocol);
      records := protocol.buf;
      protocol := GroupCommit.Do(protocol, GroupCommit.Take);
      if |buf| == 0 || fatal {
        return false, [], records;
      }
      data := buf;
      buf := [];
      pending := 0;
      nextSeq := nextSeq + 1;
      work := true;
    }

    // flushOnce after the write: written says whether write and fsync both succeeded.
    method FlushEnd(batch: nat, data: bytes, written: bool)
      requires Valid() && protocol.flusher.Writing?
      requires batch == |protocol.batches| && data == EncodedAll(protocol.batches[batch - 1])
      modifies this
      ensures Valid()
      ensures protocol == GroupCommit.Do(old(protocol), GroupCommit.Finish(written))
      ensures size == old(size) + if written then |data| else 0
    {
      hide EncodedAll, Encoded, GroupCommit.Inv, GroupCommit.Written;
      BatchFinished(protocol, written);
      if !written {
        fatal := true;
        fatalSeq := batch;
      } else {
        size := size + |data|;
      }
      flushed := batch;
      protocol := GroupCommit.Do(protocol, GroupCommit.Finish(written));
    }

    // Reopen, Sync having returned nil. The old descriptor is closed and the path opened again; a failure of the
    // first is returned without marking the log, a failure of the second is fatal.
    method Reopen(ghost recs: seq<Frame>, newSize: nat, closes: bool, opens: bool) returns (ok: bool)
      requires Valid() && !fatal && GroupCommit.Quiet(protocol)
      requires newSize == |EncodedAll(recs)|
      modifies this
      ensures Valid()
      ensures ok <==> !old(closed) && closes && opens
      ensures protocol == if old(closed) || !closes then old(protocol)
                          else GroupCommit.Do(old(protocol),
                                              if opens then GroupCommit.Reopened(recs) else GroupCommit.ReopenFailed)
      ensures size == if ok then newSize else old(size)
    {
      hide EncodedAll, Encoded;
      if closed || !closes {
        return false;
      }
      if !opens {
        GroupCommit.StepKeepsInv(protocol, GroupCommit.ReopenFailed);
        protocol := GroupCommit.Do(protocol, GroupCommit.ReopenFailed);
        fatal := true;
        fatalSeq := 0;
        return false;
      }
      GroupCommit.StepKeepsInv(protocol, GroupCommit.Reopened(recs));
      protocol := GroupCommit.Do(protocol, GroupCommit.Reopened(recs));
      assert protocol.batches[protocol.from..protocol.synced] == [];
      assert GroupCommit.Written(protocol) == recs + [] == recs;
      size := newSize;
      return true;
    }

    // The first part of Close.
    method BeginClose() returns (first: bool)
      requires Valid()
      modifies this
      ensures Valid()
      ensures first <==> !old(closed)
      ensures protocol == if first then GroupCommit.Do(old(protocol), GroupCommit.CloseBegins) else old(protocol)
    {
      hide EncodedAll, Encoded;
      if closed {
        return false;
      }
      WrittenKept(protocol, GroupCommit.CloseBegins);
      hide GroupCommit.Inv, GroupCommit.Written;
      closed := true;
      protocol := GroupCommit.Do(protocol, GroupCommit.CloseBegins);
      return true;
    }

    // And its second: done is closed, for the flusher to see.
    ghost method CloseDone()
      requires Valid() && closed && !protocol.done
      modifies this`protocol
      ensures Valid() && protocol == GroupCommit.Do(old(protocol), GroupCommit.DoneCloses)
    {
      hide EncodedAll, Encoded;
      WrittenKept(protocol, GroupCommit.DoneCloses);
      hide GroupCommit.Inv, GroupCommit.Written;
      protocol := GroupCommit.Do(protocol, GroupCommit.DoneCloses);
    }
  }

  lemma OpenedIsValid(recovered: seq<Frame>, sure: nat)
    requires sure <= |recovered|
    ensures var l := GroupCommit.Opened(recovered, sure);
            GroupCommit.Inv(l) && EncodedAll(l.buf) == [] && GroupCommit.Written(l) == recovered
  {
    hide Encoded;
    assert recovered + [] == recovered;
  }

  lemma BufferEmpty(fs: seq<Frame>)
    ensures EncodedAll(fs) == [] <==> fs == []
  {
  }

  lemma WokenIsNotWriting(l: GroupCommit.LogState<Frame>)
    requires GroupCommit.Inv(l) && l.flusher.Woken?
    ensures !l.flusher.Writing?
  {
  }

  // Only a finished write, or another file, changes what is written.
  lemma WrittenKept(l: GroupCommit.LogState<Frame>, s: GroupCommit.Step<Frame>)
    requires GroupCommit.Inv(l) && GroupCommit.Enabled(l, s) && !s.Finish? && !s.Reopened?
    ensures var l' := GroupCommit.Do(l, s);
            GroupCommit.Inv(l') && l.from <= l.synced <= |l.batches| && l'.from <= l'.synced <= |l'.batches| &&
            GroupCommit.Written(l') == GroupCommit.Written(l)
  {
    GroupCommit.StepKeepsInv(l, s);
    assert GroupCommit.Do(l, s).batches[l.from..l.synced] == l.batches[l.from..l.synced];
  }

  // The file grows by the batch, if it was written.
  lemma BatchFinished(l: GroupCommit.LogState<Frame>, written: bool)
    requires GroupCommit.Inv(l) && l.flusher.Writing?
    ensures |l.batches| > 0
    ensures var l' := GroupCommit.Do(l, GroupCommit.Finish(written));
            && GroupCommit.Inv(l')
            && l.from <= l.synced <= |l.batches| && l'.from <= l'.synced <= |l'.batches|
            && |EncodedAll(GroupCommit.Written(l'))| == |EncodedAll(GroupCommit.Written(l))|
               + if written then |EncodedAll(l.batches[|l.batches| - 1])| else 0
  {
    hide EncodedAll;
    GroupCommit.StepKeepsInv(l, GroupCommit.Finish(written));
    if written {
      var n := |l.batches| - 1;
      assert l.synced == n;
      SliceSnoc(l.batches, l.from, n);
      GroupCommit.FlattenSnoc(l.batches[l.from..n], l.batches[n]);
      Associative(l.base, GroupCommit.Flatten(l.batches[l.from..n]), l.batches[n]);
      EncodedAllAppend(GroupCommit.Written(l), l.batches[n]);
    }
  }
}
