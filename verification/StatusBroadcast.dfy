/**
 Sending a status to a large audience: batches, retries with tripling waits, and best-effort
 accounting. What each send answers, and where the context is cancelled, is given by functions
 of the batch number (from 1) and the attempt (from 0).
 */
module StatusBroadcast {
  import opened Types

  datatype Answer = Delivered | Transient(code: int) | Permanent(code: int)

  datatype BatchResult = Ok | Err(code: int) | Cancelled

  // ---------------------------------------------------------------- waits in 64-bit nanoseconds

  const TWO_TO_THE_63 := 0x8000_0000_0000_0000
  const MAX_INT64 := TWO_TO_THE_63 - 1
  const FIVE_SECONDS := 5_000_000_000

  /** The int64 value of a mathematical integer. */
  function Wrap64(x: int): (r: int)
    ensures -TWO_TO_THE_63 <= r <= MAX_INT64
    ensures -TWO_TO_THE_63 <= x <= MAX_INT64 ==> r == x
  {
    (x + TWO_TO_THE_63) % (2 * TWO_TO_THE_63) - TWO_TO_THE_63
  }

  lemma WrapShift(x: int, k: int)
    ensures Wrap64(x + k * (2 * TWO_TO_THE_63)) == Wrap64(x)
  {
    var y := x + TWO_TO_THE_63;
    assert y + k * (2 * TWO_TO_THE_63) == (y / (2 * TWO_TO_THE_63) + k) * (2 * TWO_TO_THE_63) + y % (2 * TWO_TO_THE_63);
  }

  lemma WrapTimes(x: int, k: int)
    ensures Wrap64(Wrap64(x) * k) == Wrap64(x * k)
  {
    var m := 2 * TWO_TO_THE_63;
    var q := (x + TWO_TO_THE_63) / m;
    assert Wrap64(x) == x - q * m;
    assert Wrap64(x) * k == x * k + (-q * k) * m;
    WrapShift(x * k, -q * k);
  }

  function Power3(n: nat): (p: int)
    ensures p >= 1
  {
    if n == 0 then 1 else 3 * Power3(n - 1)
  }

  /** The wait before attempt `i + 1`, as 64-bit arithmetic gives it. */
  function Backoff(base: int, i: nat): int {
    Wrap64(base * Wrap64(Power3(i)))
  }

  lemma {:induction false} PowerMonotone(i: nat, j: nat)
    requires i <= j
    ensures Power3(i) <= Power3(j)
    decreases j
  {
    if i < j {
      PowerMonotone(i, j - 1);
    }
  }

  /** No wait of a batch overflows exactly when the last one does not. */
  lemma NoWaitOverflowsIff(base: nat, maxRetries: nat)
    requires maxRetries > 0
    ensures (forall i: nat | i < maxRetries :: Backoff(base, i) == base * Power3(i))
            <==> base * Power3(maxRetries - 1) <= MAX_INT64
  {
    if base * Power3(maxRetries - 1) <= MAX_INT64 {
      forall i: nat | i < maxRetries ensures Backoff(base, i) == base * Power3(i) {
        PowerMonotone(i, maxRetries - 1);
        TimesMonotone(base, Power3(i), Power3(maxRetries - 1));
        SmallProductDoesNotWrap(base, Power3(i));
      }
    } else {
      assert Backoff(base, maxRetries - 1) <= MAX_INT64;
    }
  }

  lemma SmallProductDoesNotWrap(base: nat, p: nat)
    requires p >= 1 && base * p <= MAX_INT64
    ensures Wrap64(base * Wrap64(p)) == base * p
  {
    if base == 0 {
      assert base * Wrap64(p) == 0;
    } else {
      assert p <= base * p;
    }
  }

  lemma PowersOfThree()
    ensures Power3(5) == 243
    ensures Power3(10) == 59_049
    ensures Power3(15) == 14_348_907
    ensures Power3(19) == 1_162_261_467
    ensures Power3(20) == 3_486_784_401
  {
    assert Power3(2) == 9 && Power3(4) == 81;
    assert Power3(7) == 2187 && Power3(9) == 19_683;
    assert Power3(12) == 531_441 && Power3(14) == 4_782_969;
    assert Power3(17) == 129_140_163;
  }

  /** A base of at most five seconds is safe up to 20 retries; five seconds is not at 21. */
  lemma DefaultWaitsDoNotOverflow(base: nat, maxRetries: nat)
    requires base <= FIVE_SECONDS && maxRetries <= 20
    ensures forall i: nat | i < maxRetries :: Backoff(base, i) == base * Power3(i)
    ensures Backoff(FIVE_SECONDS, 20) != FIVE_SECONDS * Power3(20)
  {
    PowersOfThree();
    if maxRetries > 0 {
      PowerMonotone(maxRetries - 1, 19);
      assert base * Power3(maxRetries - 1) <= base * Power3(19) <= FIVE_SECONDS * Power3(19);
      NoWaitOverflowsIff(base, maxRetries);
    }
  }

  function Sum(waits: seq<int>): int {
    if waits == [] then 0 else Sum(waits[..|waits| - 1]) + waits[|waits| - 1]
  }

  /** Without overflow, the waits before attempt k add up to base * (3^k - 1) / 2. */
  lemma {:induction false} WaitsAddUp(base: nat, waits: seq<int>)
    requires forall i | 0 <= i < |waits| :: waits[i] == base * Power3(i)
    ensures 2 * Sum(waits) == base * (Power3(|waits|) - 1)
  {
    if waits != [] {
      var k := |waits| - 1;
      WaitsAddUp(base, waits[..k]);
      assert base * (Power3(k + 1) - 1) == base * (Power3(k) - 1) + 2 * (base * Power3(k));
    }
  }

  method Pow3(n: int) returns (r: int)
    ensures r == Wrap64(Power3(if n < 0 then 0 else n))
  {
    r := 1;
    var i := 0;
    while i < n
      invariant 0 <= i && (n >= 0 ==> i <= n) && (n < 0 ==> i == 0)
      invariant r == Wrap64(Power3(i))
    {
      WrapTimes(Power3(i), 3);
      r := Wrap64(r * 3);
      i := i + 1;
    }
  }

  // ---------------------------------------------------------------- one batch

  /** All attempts before `k` were answered with a transient error and none of the waits was cancelled. */
  ghost predicate Reaches(send: (nat, nat) -> Answer, cancelled: (nat, nat) -> bool, b: nat, k: nat) {
    forall j: nat | j < k :: send(b, j).Transient? && !cancelled(b, j + 1)
  }

  /** Some attempt within the retries is reached and delivers. */
  ghost predicate Delivers(send: (nat, nat) -> Answer, cancelled: (nat, nat) -> bool, b: nat, maxRetries: nat) {
    exists k: nat :: k <= maxRetries && Reaches(send, cancelled, b, k) && send(b, k).Delivered?
  }

  method SendStatusBatchWithRetry(send: (nat, nat) -> Answer, cancelled: (nat, nat) -> bool, b: nat,
                                  maxRetries: nat, base: nat)
    returns (result: BatchResult, sends: nat, waits: seq<int>)
    ensures 1 <= sends <= maxRetries + 1
    ensures result.Ok? <==> Delivers(send, cancelled, b, maxRetries)
    ensures result.Ok? <==> send(b, sends - 1).Delivered?
    ensures Reaches(send, cancelled, b, sends - 1)
    ensures result.Err? ==> send(b, sends - 1) in {Transient(result.code), Permanent(result.code)}
    ensures result.Err? && send(b, sends - 1).Transient? ==> sends == maxRetries + 1
    ensures result.Cancelled? <==> sends <= maxRetries && send(b, sends - 1).Transient? && cancelled(b, sends)
    ensures |waits| == if result.Cancelled? then sends else sends - 1
    ensures forall i | 0 <= i < |waits| :: waits[i] == Backoff(base, i)
    ensures maxRetries > 0 && base * Power3(maxRetries - 1) <= MAX_INT64 ==>
              2 * Sum(waits) == base * (Power3(|waits|) - 1)
  {
    hide Reaches, Delivers, Wrap64, Power3, Sum;
    sends, waits := 0, [];
    var last := 0;
    ReachesFirst(send, cancelled, b);
    for attempt := 0 to maxRetries + 1
      invariant sends == attempt && |waits| == (if attempt == 0 then 0 else attempt - 1)
      invariant Reaches(send, cancelled, b, if attempt == 0 then 0 else attempt - 1)
      invariant attempt > 0 ==> send(b, attempt - 1) == Transient(last)
      invariant forall i | 0 <= i < |waits| :: waits[i] == Backoff(base, i)
    {
      if attempt > 0 {
        var power := Pow3(attempt - 1);
        waits := waits + [Wrap64(base * power)];
        if cancelled(b, attempt) {
          StopsAt(send, cancelled, b, maxRetries, attempt - 1);
          ExactWaits(base, maxRetries, waits);
          return Cancelled, sends, waits;
        }
        ReachesNext(send, cancelled, b, attempt - 1);
      }
      sends := sends + 1;
      match send(b, attempt) {
        case Delivered =>
          DeliversAt(send, cancelled, b, maxRetries, attempt);
          ExactWaits(base, maxRetries, waits);
          return Ok, sends, waits;
        case Permanent(code) =>
          StopsAt(send, cancelled, b, maxRetries, attempt);
          ExactWaits(base, maxRetries, waits);
          return Err(code), sends, waits;
        case Transient(code) =>
          last := code;
      }
    }
    StopsAt(send, cancelled, b, maxRetries, maxRetries);
    ExactWaits(base, maxRetries, waits);
    return Err(last), sends, waits;
  }

  /** An attempt is reached when the ones before were answered with transient errors and its waits passed. */
  lemma ReachesMeaning(send: (nat, nat) -> Answer, cancelled: (nat, nat) -> bool, b: nat, k: nat)
    ensures Reaches(send, cancelled, b, k)
            <==> (forall j: nat | j < k :: send(b, j).Transient?) && (forall j: nat | 1 <= j <= k :: !cancelled(b, j))
  {
    if Reaches(send, cancelled, b, k) {
      forall j: nat | 1 <= j <= k ensures !cancelled(b, j) {
        assert send(b, j - 1).Transient? && !cancelled(b, j - 1 + 1);
      }
    }
  }

  lemma ReachesFirst(send: (nat, nat) -> Answer, cancelled: (nat, nat) -> bool, b: nat)
    ensures Reaches(send, cancelled, b, 0)
  {
  }

  lemma ReachesNext(send: (nat, nat) -> Answer, cancelled: (nat, nat) -> bool, b: nat, k: nat)
    requires Reaches(send, cancelled, b, k) && send(b, k).Transient? && !cancelled(b, k + 1)
    ensures Reaches(send, cancelled, b, k + 1)
  {
  }

  lemma DeliversAt(send: (nat, nat) -> Answer, cancelled: (nat, nat) -> bool, b: nat, maxRetries: nat, k: nat)
    requires k <= maxRetries && Reaches(send, cancelled, b, k) && send(b, k).Delivered?
    ensures Delivers(send, cancelled, b, maxRetries)
  {
  }

  /** An attempt that fails for good, is cancelled after, or was the last one ends the batch undelivered. */
  lemma StopsAt(send: (nat, nat) -> Answer, cancelled: (nat, nat) -> bool, b: nat, maxRetries: nat, k: nat)
    requires k <= maxRetries && Reaches(send, cancelled, b, k)
    requires send(b, k).Permanent? || (send(b, k).Transient? && (cancelled(b, k + 1) || k == maxRetries))
    ensures !Delivers(send, cancelled, b, maxRetries)
  {
    forall n: nat | n <= maxRetries && Reaches(send, cancelled, b, n) ensures !send(b, n).Delivered? {
    }
  }

  lemma ExactWaits(base: nat, maxRetries: nat, waits: seq<int>)
    requires |waits| <= maxRetries && forall i | 0 <= i < |waits| :: waits[i] == Backoff(base, i)
    ensures maxRetries > 0 && base * Power3(maxRetries - 1) <= MAX_INT64 ==>
              2 * Sum(waits) == base * (Power3(|waits|) - 1)
  {
    hide Backoff, Power3, Sum;
    if maxRetries > 0 && base * Power3(maxRetries - 1) <= MAX_INT64 {
      NoWaitOverflowsIff(base, maxRetries);
      WaitsAddUp(base, waits);
    }
  }

  lemma TimesMonotone(base: nat, a: int, b: int)
    requires a <= b
    ensures base * a <= base * b
  {
  }

  // ---------------------------------------------------------------- all batches

  const DEFAULT_BATCH_SIZE := 5_000

  function PhoneOnly(jids: seq<Jid>): seq<Jid> {
    if jids == [] then []
    else
      var rest, last := PhoneOnly(jids[..|jids| - 1]), jids[|jids| - 1];
      if last.server.Phone? then rest + [last] else rest
  }

  function Reversed(jids: seq<Jid>): seq<Jid> {
    if jids == [] then [] else [jids[|jids| - 1]] + Reversed(jids[..|jids| - 1])
  }

  lemma {:induction false} ReversedAt(jids: seq<Jid>, i: nat)
    requires i < |jids|
    ensures |Reversed(jids)| == |jids| && Reversed(jids)[i] == jids[|jids| - 1 - i]
  {
    if i > 0 {
      ReversedAt(jids[..|jids| - 1], i - 1);
    } else if |jids| > 1 {
      ReversedAt(jids[..|jids| - 1], 0);
    }
  }

  /** The filter keeps phone-server addresses, repeated ones included, and drops the rest, wherever the list is cut. */
  lemma {:induction false} PhoneOnlyMeaning(a: seq<Jid>, j: Jid, b: seq<Jid>)
    ensures PhoneOnly(a + [j] + b) == PhoneOnly(a) + (if j.server == Phone then [j] else []) + PhoneOnly(b)
  {
    if b == [] {
      assert a + [j] + b == a + [j] && (a + [j])[..|a|] == a;
    } else {
      PhoneOnlyMeaning(a, j, b[..|b| - 1]);
      var all := a + [j] + b;
      assert all[..|all| - 1] == a + [j] + b[..|b| - 1] && all[|all| - 1] == b[|b| - 1];
    }
  }

  /** The batches cut a list into consecutive pieces, all full but possibly the last, none empty. */
  ghost predicate Cuts(batches: seq<seq<Jid>>, jids: seq<Jid>, size: nat) {
    && Flatten(batches) == jids
    && forall i | 0 <= i < |batches| :: 0 < |batches[i]| <= size && (i < |batches| - 1 ==> |batches[i]| == size)
  }

  method Chunk(jids: seq<Jid>, size: nat) returns (batches: seq<seq<Jid>>)
    requires size > 0
    ensures Cuts(batches, jids, size)
  {
    batches := [];
    var start := 0;
    while start < |jids|
      invariant start <= |jids|
      invariant Cuts(batches, jids[..start], size)
      invariant start < |jids| ==> forall i | 0 <= i < |batches| :: |batches[i]| == size
    {
      var end := if start + size < |jids| then start + size else |jids|;
      FlattenSnoc(batches, jids[start..end]);
      assert jids[..start] + jids[start..end] == jids[..end];
      batches := batches + [jids[start..end]];
      start := end;
    }
    assert jids[..start] == jids;
  }

  datatype Report = Report(delivered: seq<nat>, failed: seq<nat>, failedParticipants: seq<Jid>, ignored: nat)

  datatype Result = Sent(report: Report) | AllFailed(failure: Report) | Interrupted(before: nat) | NoAudience

  ghost predicate Increasing(s: seq<nat>) {
    forall i, j | 0 <= i < j < |s| :: s[i] < s[j]
  }

  /** The participants of the listed batches (numbered from 1), in order. */
  function ParticipantsOf(batches: seq<seq<Jid>>, numbers: seq<nat>): seq<Jid> {
    if numbers == [] then []
    else
      var last := numbers[|numbers| - 1];
      ParticipantsOf(batches, numbers[..|numbers| - 1]) + if 1 <= last <= |batches| then batches[last - 1] else []
  }

  /** The report accounts for the first `n` batches: each is delivered or failed, as its sends went. */
  ghost predicate Accounts(r: Report, batches: seq<seq<Jid>>, n: nat, send: (nat, nat) -> Answer,
                           cancelled: (nat, nat) -> bool, maxRetries: nat)
    requires n <= |batches|
  {
    && Increasing(r.delivered) && Increasing(r.failed)
    && (forall b: nat :: b in r.delivered <==> 1 <= b <= n && Delivers(send, cancelled, b, maxRetries))
    && (forall b: nat :: b in r.failed <==> 1 <= b <= n && !Delivers(send, cancelled, b, maxRetries))
    && r.failedParticipants == ParticipantsOf(batches, r.failed)
  }

  /** No participant of the first `n` batches is lost or counted twice. */
  ghost predicate Complete(r: Report, batches: seq<seq<Jid>>, n: nat)
    requires n <= |batches|
  {
    multiset(Flatten(batches[..n]))
    == multiset(ParticipantsOf(batches, r.delivered)) + multiset(ParticipantsOf(batches, r.failed))
  }

  lemma OneMoreBatch(batches: seq<seq<Jid>>, numbers: seq<nat>, n: nat)
    requires n < |batches|
    ensures ParticipantsOf(batches, numbers + [n + 1]) == ParticipantsOf(batches, numbers) + batches[n]
    ensures Flatten(batches[..n + 1]) == Flatten(batches[..n]) + batches[n]
  {
    assert (numbers + [n + 1])[..|numbers|] == numbers;
    assert batches[..n + 1][..n] == batches[..n];
  }

  lemma CompleteDelivered(r: Report, batches: seq<seq<Jid>>, n: nat)
    requires n < |batches| && Complete(r, batches, n)
    ensures Complete(r.(delivered := r.delivered + [n + 1]), batches, n + 1)
  {
    hide ParticipantsOf, Flatten;
    OneMoreBatch(batches, r.delivered, n);
  }

  lemma CompleteFailed(r: Report, batches: seq<seq<Jid>>, n: nat, lost: seq<Jid>)
    requires n < |batches| && Complete(r, batches, n)
    ensures Complete(r.(failed := r.failed + [n + 1], failedParticipants := lost), batches, n + 1)
  {
    hide ParticipantsOf, Flatten;
    OneMoreBatch(batches, r.failed, n);
  }

  lemma IncreasingSnoc(numbers: seq<nat>, n: nat)
    requires Increasing(numbers) && forall b | b in numbers :: b <= n
    ensures Increasing(numbers + [n + 1])
  {
    assert forall i | 0 <= i < |numbers| :: numbers[i] in numbers;
  }

  lemma AccountDelivered(r: Report, batches: seq<seq<Jid>>, n: nat, send: (nat, nat) -> Answer,
                         cancelled: (nat, nat) -> bool, maxRetries: nat)
    requires n < |batches| && Accounts(r, batches, n, send, cancelled, maxRetries)
    requires Delivers(send, cancelled, n + 1, maxRetries)
    ensures Accounts(r.(delivered := r.delivered + [n + 1]), batches, n + 1, send, cancelled, maxRetries)
  {
    hide Delivers, ParticipantsOf, Increasing;
    IncreasingSnoc(r.delivered, n);
  }

  lemma AccountFailed(r: Report, batches: seq<seq<Jid>>, n: nat, send: (nat, nat) -> Answer,
                      cancelled: (nat, nat) -> bool, maxRetries: nat)
    requires n < |batches| && Accounts(r, batches, n, send, cancelled, maxRetries)
    requires !Delivers(send, cancelled, n + 1, maxRetries)
    ensures Accounts(r.(failed := r.failed + [n + 1], failedParticipants := r.failedParticipants + batches[n]),
                     batches, n + 1, send, cancelled, maxRetries)
  {
    hide Delivers, ParticipantsOf, Increasing;
    IncreasingSnoc(r.failed, n);
    OneMoreBatch(batches, r.failed, n);
  }

  lemma Verdict(r: Report, batches: seq<seq<Jid>>, send: (nat, nat) -> Answer, cancelled: (nat, nat) -> bool,
                maxRetries: nat)
    requires Accounts(r, batches, |batches|, send, cancelled, maxRetries)
    ensures r.delivered != [] ==> exists b: nat :: 1 <= b <= |batches| && Delivers(send, cancelled, b, maxRetries)
    ensures r.delivered == [] ==> forall b: nat | 1 <= b <= |batches| :: !Delivers(send, cancelled, b, maxRetries)
  {
    hide Delivers, ParticipantsOf, Increasing;
    if r.delivered != [] {
      assert r.delivered[0] in r.delivered;
    }
  }

  lemma NothingAccounted(r: Report, batches: seq<seq<Jid>>, send: (nat, nat) -> Answer, cancelled: (nat, nat) -> bool,
                         maxRetries: nat)
    requires r.delivered == r.failed == [] && r.failedParticipants == []
    ensures Accounts(r, batches, 0, send, cancelled, maxRetries) && Complete(r, batches, 0)
  {
  }

  /** Whom the status is for: the given list, or the fetched one with the account itself first. */
  function Audience(given: seq<Jid>, fetched: Option<seq<Jid>>): seq<Jid>
    requires given == [] ==> fetched.Some?
  {
    if given == [] then Reversed(fetched.value) else given
  }

  /**
   SendStatusMessage. `fetched` is the broadcast list, asked for only when no participants are
   given; None is an error. A cancellation before attempt 0 of a later batch interrupts the call.
   */
  method SendStatusMessage(given: seq<Jid>, fetched: Option<seq<Jid>>, batchSize: int, delay: nat, maxRetries: nat,
                           base: nat, send: (nat, nat) -> Answer, cancelled: (nat, nat) -> bool)
    returns (result: Result, batches: seq<seq<Jid>>)
    ensures result.NoAudience? <==> given == [] && fetched.None?
    ensures !result.NoAudience? ==>
              Cuts(batches, PhoneOnly(Audience(given, fetched)),
                   if batchSize <= 0 then 5_000 else batchSize)
    ensures result.Interrupted? <==>
              !result.NoAudience? && delay > 0 && exists b: nat :: 1 < b <= |batches| && cancelled(b, 0)
    ensures result.Interrupted? ==>
              && 1 < result.before <= |batches| && cancelled(result.before, 0)
              && forall b: nat | 1 < b < result.before :: !cancelled(b, 0)
    ensures result.Sent? ==>
              && Accounts(result.report, batches, |batches|, send, cancelled, maxRetries)
              && Complete(result.report, batches, |batches|)
              && result.report.ignored == |Audience(given, fetched)| - |PhoneOnly(Audience(given, fetched))|
              && (batches == [] || exists b: nat :: 1 <= b <= |batches| && Delivers(send, cancelled, b, maxRetries))
    ensures result.AllFailed? ==>
              && Accounts(result.failure, batches, |batches|, send, cancelled, maxRetries)
              && Complete(result.failure, batches, |batches|)
              && result.failure.ignored == |Audience(given, fetched)| - |PhoneOnly(Audience(given, fetched))|
              && batches != [] && forall b: nat | 1 <= b <= |batches| :: !Delivers(send, cancelled, b, maxRetries)
  {
    hide Accounts, Complete, Delivers, Cuts;
    var all := given;
    if given == [] {
      if fetched.None? {
        return NoAudience, [];
      }
      all := Reversed(fetched.value);
    }
    var valid := PhoneOnly(all);
    PhoneOnlyShrinks(all);
    var size := if batchSize <= 0 then DEFAULT_BATCH_SIZE else batchSize;
    batches := Chunk(valid, size);
    var succeeded := 0;
    var r := Report([], [], [], |all| - |valid|);
    NothingAccounted(r, batches, send, cancelled, maxRetries);
    for index := 0 to |batches|
      invariant Accounts(r, batches, index, send, cancelled, maxRetries) && Complete(r, batches, index)
      invariant succeeded == |r.delivered|
      invariant |r.delivered| + |r.failed| == index && r.ignored == |all| - |valid|
      invariant delay > 0 ==> forall b: nat | 1 < b <= index :: !cancelled(b, 0)
    {
      if index > 0 && delay > 0 && cancelled(index + 1, 0) {
        return Interrupted(index + 1), batches;
      }
      var batchResult, _, _ := SendStatusBatchWithRetry(send, cancelled, index + 1, maxRetries, base);
      if batchResult.Ok? {
        AccountDelivered(r, batches, index, send, cancelled, maxRetries);
        CompleteDelivered(r, batches, index);
        succeeded := succeeded + 1;
        r := r.(delivered := r.delivered + [index + 1]);
      } else {
        AccountFailed(r, batches, index, send, cancelled, maxRetries);
        CompleteFailed(r, batches, index, r.failedParticipants + batches[index]);
        r := r.(failed := r.failed + [index + 1], failedParticipants := r.failedParticipants + batches[index]);
      }
    }
    Verdict(r, batches, send, cancelled, maxRetries);
    if succeeded == 0 && |r.failed| > 0 {
      return AllFailed(r), batches;
    }
    return Sent(r), batches;
  }

  lemma {:induction false} PhoneOnlyShrinks(jids: seq<Jid>)
    ensures |PhoneOnly(jids)| <= |jids|
    ensures forall j :: j in PhoneOnly(jids) <==> j in jids && j.server.Phone?
  {
    if jids != [] {
      assert jids == jids[..|jids| - 1] + [jids[|jids| - 1]];
      PhoneOnlyShrinks(jids[..|jids| - 1]);
    }
  }
}
