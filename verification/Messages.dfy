// queue/message.go: configurations, messages, and the one comparator.
module Messages {
  import opened Bytes

  datatype Option<T> = None | Some(value: T) {
    function GetOr(default: T): T {
      if None? then default else value
    }
  }

  const MILLISECOND: int := 1_000_000 // times are integer nanoseconds

  const DEFAULT_MAX_ATTEMPTS := 5
  const DEFAULT_VISIBILITY_MS := 30_000
  const DEFAULT_DEDUP_WINDOW_MS := 300_000

  datatype Ordering = Unset | FIFO | LIFO | OtherOrdering(text: string)

  datatype Config = Config(
    name: string,
    ordering: Ordering,
    priorityEnabled: bool,
    maxAttempts: int,
    visibilityMS: int,
    agingIntervalMS: int,
    agingMaxBoost: int,
    dedupWindowMS: int,
    nextSeq: nat)
  {
    function VisibilityTimeout(): int { visibilityMS * MILLISECOND }

    function DedupWindow(): int { dedupWindowMS * MILLISECOND }

    function AgingInterval(): int { agingIntervalMS * MILLISECOND }
  }

  predicate NameChar(c: char, first: bool) {
    'a' <= c <= 'z' || 'A' <= c <= 'Z' || '0' <= c <= '9' || (!first && c in "_.-")
  }

  predicate ValidName(name: string) {
    1 <= |name| <= 64 && forall i :: 0 <= i < |name| ==> NameChar(name[i], i == 0)
  }

  // Validate fills in defaults, or rejects. None is the error return.
  function Validate(c: Config): Option<Config> {
    if !ValidName(c.name) then None
    else if c.ordering.OtherOrdering? then None
    else
      var c := if c.ordering.Unset? then c.(ordering := FIFO) else c;
      var c := if c.maxAttempts == 0 then c.(maxAttempts := DEFAULT_MAX_ATTEMPTS) else c;
      if c.maxAttempts < 1 then None
      else
        var c := if c.visibilityMS == 0 then c.(visibilityMS := DEFAULT_VISIBILITY_MS) else c;
        if c.visibilityMS < 0 then None
        else
          var c := if c.dedupWindowMS == 0 then c.(dedupWindowMS := DEFAULT_DEDUP_WINDOW_MS) else c;
          if c.dedupWindowMS < 0 then None
          else if c.agingIntervalMS < 0 then None
          else
            var c := if c.agingIntervalMS > 0 && c.agingMaxBoost <= 0 then c.(agingMaxBoost := 10) else c;
            if !c.priorityEnabled && c.agingIntervalMS > 0 then None else Some(c)
  }

  // What the rest of the queue relies on in a validated configuration.
  predicate Validated(c: Config) {
    && ValidName(c.name)
    && (c.ordering == FIFO || c.ordering == LIFO)
    && c.maxAttempts >= 1
    && c.visibilityMS > 0
    && c.dedupWindowMS > 0
    && c.agingIntervalMS >= 0
    && (c.agingIntervalMS > 0 ==> c.priorityEnabled && c.agingMaxBoost > 0)
  }

  // The widths of the program's integers and of the attempt count on the wire. The three settings in milliseconds have
  // to fit as nanoseconds, or the program's durations would wrap around.
  predicate WithinWidths(c: Config) {
    && c.maxAttempts < TWO_32
    && FitsInt64(c.VisibilityTimeout()) && FitsInt64(c.AgingInterval()) && FitsInt64(c.DedupWindow())
    && FitsInt64(c.agingMaxBoost)
    && c.nextSeq < TWO_64
  }

  predicate Alphanumeric(c: char) {
    'A' <= c <= 'Z' || 'a' <= c <= 'z' || '0' <= c <= '9'
  }

  // A letter or digit, and up to 63 more of them or of '_', '.' and '-'.
  predicate NamePattern(name: string) {
    && 1 <= |name| <= 64 && Alphanumeric(name[0])
    && forall i :: 0 < i < |name| ==> Alphanumeric(name[i]) || name[i] == '_' || name[i] == '.' || name[i] == '-'
  }

  // The settings a caller may ask for: a proper name, an ordering that is known or left open, nothing negative, and
  // aging only where there are priorities.
  predicate Permissible(c: Config) {
    && NamePattern(c.name) && !c.ordering.OtherOrdering?
    && c.maxAttempts >= 0 && c.visibilityMS >= 0 && c.dedupWindowMS >= 0 && c.agingIntervalMS >= 0
    && (c.agingIntervalMS > 0 ==> c.priorityEnabled)
  }

  // v has what c sets, and the documented defaults for what c leaves open.
  predicate FilledIn(c: Config, v: Config) {
    && v.name == c.name && v.priorityEnabled == c.priorityEnabled
    && v.agingIntervalMS == c.agingIntervalMS && v.nextSeq == c.nextSeq
    && v.ordering == (if c.ordering == Unset then FIFO else c.ordering)
    && v.maxAttempts == (if c.maxAttempts == 0 then 5 else c.maxAttempts)
    && v.visibilityMS == (if c.visibilityMS == 0 then 30_000 else c.visibilityMS)
    && v.dedupWindowMS == (if c.dedupWindowMS == 0 then 300_000 else c.dedupWindowMS)
    && v.agingMaxBoost == (if c.agingIntervalMS > 0 && c.agingMaxBoost <= 0 then 10 else c.agingMaxBoost)
  }

  // Validation accepts the settings a caller may ask for and no others, and fills in what they leave open. It leaves
  // alone exactly the settings it makes, after which replaying the stored META record changes nothing.
  lemma ValidateNormalises(c: Config)
    ensures Validate(c).Some? <==> Permissible(c)
    ensures Validate(c).Some? ==> FilledIn(c, Validate(c).value) && Validated(Validate(c).value)
    ensures Validated(c) <==> Validate(c) == Some(c)
  {
    hide ValidName, NamePattern;
    NamesAgree(c.name);
  }

  lemma NamesAgree(name: string)
    ensures ValidName(name) <==> NamePattern(name)
  {
    if ValidName(name) { assert NameChar(name[0], true); }
  }

  datatype Msg = Msg(
    id: bytes,
    dedupID: bytes,
    seqNo: nat,
    priority: int,
    visibleAt: int,
    payload: bytes,
    attempts: nat,
    createdAt: int)

  datatype DedupEntry = DedupEntry(dedupID: bytes, messageID: bytes, expiresAt: int)

  // int division in Go truncates toward zero.
  function TruncDiv(a: int, b: int): int
    requires b > 0
  {
    if a >= 0 then a / b else -(-a / b)
  }

  function EffectivePriority(cfg: Config, priority: int, createdAt: int, now: int): int {
    var iv := cfg.AgingInterval();
    if iv <= 0 || !cfg.priorityEnabled then priority
    else
      var boost := TruncDiv(now - createdAt, iv);
      var boost := if boost > cfg.agingMaxBoost then cfg.agingMaxBoost else boost;
      var boost := if boost < 0 then 0 else boost;
      priority + boost
  }

  // k whole intervals have passed since createdAt.
  predicate Waited(createdAt: int, now: int, iv: int, k: nat) {
    createdAt + k * iv <= now < createdAt + (k + 1) * iv
  }

  function Capped(k: nat, cap: int): int {
    if k <= cap then k else if cap > 0 then cap else 0
  }

  // eff is the priority raised by one for each whole interval waited, up to the cap; and the priority itself without
  // aging, or for a message from the future.
  ghost predicate Boosts(cfg: Config, priority: int, createdAt: int, now: int, eff: int) {
    var iv := cfg.agingIntervalMS * 1_000_000;
    if cfg.priorityEnabled && iv > 0 && createdAt <= now then
      exists k: nat :: Waited(createdAt, now, iv, k)
        && eff == priority + Capped(k, cfg.agingMaxBoost)
    else eff == priority
  }

  // There is one such k.
  lemma WaitedOnce(createdAt: int, now: int, iv: int, j: nat, k: nat)
    requires iv > 0 && Waited(createdAt, now, iv, j) && Waited(createdAt, now, iv, k)
    ensures j == k
  {
    if j < k { Whole(iv, j + 1, k); }
    if k < j { Whole(iv, k + 1, j); }
  }

  lemma Whole(iv: int, a: nat, b: nat)
    requires iv > 0 && a <= b
    ensures a * iv <= b * iv
  {
  }

  lemma Quotient(d: nat, iv: nat)
    requires iv > 0
    ensures (d / iv) * iv <= d < (d / iv + 1) * iv
  {
  }

  lemma WaitedQuotient(createdAt: int, now: int, iv: int)
    requires iv > 0 && createdAt <= now
    ensures TruncDiv(now - createdAt, iv) >= 0 && Waited(createdAt, now, iv, TruncDiv(now - createdAt, iv))
  {
    Quotient(now - createdAt, iv);
    NotPositive((now - createdAt) / iv + 1, iv);
  }

  lemma EffectiveBoosts(cfg: Config, priority: int, createdAt: int, now: int)
    ensures Boosts(cfg, priority, createdAt, now, EffectivePriority(cfg, priority, createdAt, now))
  {
    hide Waited, TruncDiv;
    var iv := cfg.agingIntervalMS * 1_000_000;
    if cfg.priorityEnabled && iv > 0 && createdAt <= now {
      WaitedQuotient(createdAt, now, iv);
    } else if iv > 0 {
      TruncatesUp(createdAt - now, iv);
    }
  }

  lemma TruncatesUp(d: int, iv: int)
    requires iv > 0
    ensures d > 0 ==> TruncDiv(-d, iv) <= 0
  {
    if d > 0 {
      Quotient(d, iv);
      NotPositive(d / iv + 1, iv);
    }
  }

  lemma NotPositive(a: int, iv: int)
    requires iv > 0
    ensures a <= 0 ==> a * iv <= 0
  {
  }

  // Aging never lowers a priority, never takes back a boost as time passes, and never raises by more than the cap.
  lemma BoostsGrow(cfg: Config, priority: int, createdAt: int, now: int, eff: int, later: int, eff': int)
    requires Boosts(cfg, priority, createdAt, now, eff) && Boosts(cfg, priority, createdAt, later, eff') && now <= later
    ensures priority <= eff <= eff' <= priority + if cfg.agingMaxBoost > 0 then cfg.agingMaxBoost else 0
  {
    var iv := cfg.agingIntervalMS * 1_000_000;
    if cfg.priorityEnabled && iv > 0 && createdAt <= now {
      var j: nat :| Waited(createdAt, now, iv, j) && eff == priority + Capped(j, cfg.agingMaxBoost);
      var k: nat :| Waited(createdAt, later, iv, k) && eff' == priority + Capped(k, cfg.agingMaxBoost);
      if k < j { Whole(iv, k + 1, j); }
    }
  }

  // The boost in so many words: after k whole intervals, and of no other number of them.
  lemma BoostAfter(cfg: Config, priority: int, createdAt: int, now: int, eff: int, k: nat)
    requires Boosts(cfg, priority, createdAt, now, eff) && cfg.priorityEnabled && cfg.agingIntervalMS > 0
    requires Waited(createdAt, now, cfg.agingIntervalMS * 1_000_000, k)
    ensures eff == priority + Capped(k, cfg.agingMaxBoost)
  {
    var iv := cfg.agingIntervalMS * 1_000_000;
    assert 0 <= k * iv by { Whole(iv, 0, k); }
    var j: nat :| Waited(createdAt, now, iv, j) && eff == priority + Capped(j, cfg.agingMaxBoost);
    WaitedOnce(createdAt, now, iv, j, k);
  }

  // What the comparator looks at.
  datatype Rank = Rank(eff: int, seqNo: nat)

  predicate Less(cfg: Config, a: Rank, b: Rank) {
    if cfg.priorityEnabled && a.eff != b.eff then a.eff > b.eff
    else if cfg.ordering == LIFO then a.seqNo > b.seqNo
    else a.seqNo < b.seqNo
  }

  // The comparator is a strict total order on messages with distinct sequence numbers, in every ordering mode: the
  // higher priority first where priorities are on, and otherwise, or at equal priority, the older message first, or the
  // newer one where the ordering is LIFO.
  lemma LessIsStrictTotal(cfg: Config, a: Rank, b: Rank, c: Rank)
    ensures !cfg.priorityEnabled && cfg.ordering != LIFO ==> (Less(cfg, a, b) <==> a.seqNo < b.seqNo)
    ensures !cfg.priorityEnabled && cfg.ordering == LIFO ==> (Less(cfg, a, b) <==> a.seqNo > b.seqNo)
    ensures cfg.priorityEnabled && a.eff > b.eff ==> Less(cfg, a, b) && !Less(cfg, b, a)
    ensures cfg.priorityEnabled && a.eff == b.eff && cfg.ordering != LIFO ==> (Less(cfg, a, b) <==> a.seqNo < b.seqNo)
    ensures cfg.priorityEnabled && a.eff == b.eff && cfg.ordering == LIFO ==> (Less(cfg, a, b) <==> a.seqNo > b.seqNo)
    ensures !Less(cfg, a, a)
    ensures Less(cfg, a, b) ==> !Less(cfg, b, a)
    ensures Less(cfg, a, b) && Less(cfg, b, c) ==> Less(cfg, a, c)
    ensures a.seqNo != b.seqNo ==> Less(cfg, a, b) || Less(cfg, b, a)
  {
  }
}
