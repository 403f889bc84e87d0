// What is assumed of the configuration's encoding can be met: a codec of fixed-width fields that meets it.
module ConfigCodecs {
  import opened Bytes
  import opened Messages
  import opened Record
  import opened Wire

  const WIDTH := 48 // six numbers of eight bytes

  function Numbers(c: Config): (b: bytes)
    ensures |b| == WIDTH
  {
    LE(Wrap64(c.maxAttempts), 8) + LE(Wrap64(c.visibilityMS), 8) + LE(Wrap64(c.agingIntervalMS), 8)
    + LE(Wrap64(c.agingMaxBoost), 8) + LE(Wrap64(c.dedupWindowMS), 8) + LE(c.nextSeq, 8)
  }

  function Flags(c: Config): byte {
    (if c.ordering == LIFO then 1 else 0) + (if c.priorityEnabled then 2 else 0)
  }

  function NameBytes(name: string): (b: bytes)
    ensures |b| == |name|
  {
    seq(|name|, i requires 0 <= i < |name| => name[i] as int % 256)
  }

  function NameOf(b: bytes): (name: string)
    ensures |name| == |b|
  {
    seq(|b|, i requires 0 <= i < |b| => b[i] as char)
  }

  function Encode(c: Config): bytes {
    Numbers(c) + [Flags(c)] + NameBytes(c.name)
  }

  function NumberAt(b: bytes, at: nat): nat
    requires at + 8 <= |b|
  {
    UnLE(b[at..at + 8])
  }

  function Decode(b: bytes): Option<Config> {
    if |b| < WIDTH + 1 || b[WIDTH] > 3 then None
    else
      Some(Config(
        NameOf(b[WIDTH + 1..]),
        if b[WIDTH] % 2 == 1 then LIFO else FIFO,
        b[WIDTH] >= 2,
        Signed64(NumberAt(b, 0)), Signed64(NumberAt(b, 8)), Signed64(NumberAt(b, 16)),
        Signed64(NumberAt(b, 24)), Signed64(NumberAt(b, 32)), NumberAt(b, 40)))
  }

  lemma NameReturns(name: string)
    requires ValidName(name)
    ensures NameOf(NameBytes(name)) == name
  {
    forall i | 0 <= i < |name| ensures NameOf(NameBytes(name))[i] == name[i] {
      assert NameChar(name[i], i == 0);
    }
  }

  lemma NumberReturns(n: nat)
    requires n < TWO_64
    ensures UnLE(LE(n, 8)) == n
  {
    Widths();
    UnLELE(n, 8);
    hide LE, UnLE, Pow256;
    assert n % TWO_64 == n;
  }

  lemma Fields(a0: bytes, a1: bytes, a2: bytes, a3: bytes, a4: bytes, a5: bytes, f: byte, name: bytes)
    requires |a0| == |a1| == |a2| == |a3| == |a4| == |a5| == 8
    ensures var b := a0 + a1 + a2 + a3 + a4 + a5 + [f] + name;
            && |b| == 49 + |name| && b[48] == f && b[49..] == name
            && b[0..8] == a0 && b[8..16] == a1 && b[16..24] == a2 && b[24..32] == a3
            && b[32..40] == a4 && b[40..48] == a5
  {
  }

  lemma ConfigReturns(c: Config)
    requires Validated(c) && WithinWidths(c)
    ensures Decode(Encode(c)) == Some(c) && |Encode(c)| <= MAX_RECORD_SIZE
  {
    hide LE, UnLE, NameOf, NameBytes;
    NameReturns(c.name);
    Signed64Wrap64(c.maxAttempts);
    Signed64Wrap64(c.visibilityMS);
    Signed64Wrap64(c.agingIntervalMS);
    Signed64Wrap64(c.agingMaxBoost);
    Signed64Wrap64(c.dedupWindowMS);
    NumberReturns(Wrap64(c.maxAttempts));
    NumberReturns(Wrap64(c.visibilityMS));
    NumberReturns(Wrap64(c.agingIntervalMS));
    NumberReturns(Wrap64(c.agingMaxBoost));
    NumberReturns(Wrap64(c.dedupWindowMS));
    NumberReturns(c.nextSeq);
    hide Wrap64, Signed64;
    Fields(LE(Wrap64(c.maxAttempts), 8), LE(Wrap64(c.visibilityMS), 8), LE(Wrap64(c.agingIntervalMS), 8),
           LE(Wrap64(c.agingMaxBoost), 8), LE(Wrap64(c.dedupWindowMS), 8), LE(c.nextSeq, 8), Flags(c),
           NameBytes(c.name));
  }

  lemma FaithfulCodecsExist()
    ensures Faithful(ConfigCodec(Encode, Decode))
  {
    hide Encode, Decode, Validated, WithinWidths;
    forall c | Validated(c) && WithinWidths(c) ensures Decode(Encode(c)) == Some(c) && |Encode(c)| <= MAX_RECORD_SIZE {
      ConfigReturns(c);
    }
  }
}
