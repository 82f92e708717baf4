/** The transport that waits out GitHub rate limits and retries once. Times are in nanoseconds. */
module RateLimit {
  import opened Text
  import opened Wrappers

  /** A response as it arrives; an absent header is "". `saysRateLimit` is the verdict on the body:
      a JSON object whose message mentions a rate limit. */
  datatype Message = Message(status: int, retryAfter: string, rateLimitReset: string, body: string, saysRateLimit: bool)
  {
    predicate RateLimited() {
      status == 403 && saysRateLimit
    }
  }

  /** `Reply` with intact == false is a response whose body cannot be read to its end. */
  datatype Outcome = Reply(msg: Message, intact: bool) | Error(reason: Reason)

  datatype Reason = Network | UnreadableBody | NoWaitGiven | WaitTooLong(wait: int)

  const SECOND: int := 1_000_000_000
  const MIN64: int := -0x8000_0000_0000_0000
  const MAX64: int := 0x7FFF_FFFF_FFFF_FFFF
  const DEFAULT_MAX_WAIT: int := 300 * SECOND

  /** The wrapped transport: call number n on it, if it asks for url, gives answers(url, n). */
  class Wire {
    const answers: (string, nat) -> Outcome
    /** The URLs asked for so far, one per call. */
    var asked: seq<string>

    constructor (answers: (string, nat) -> Outcome)
      ensures this.answers == answers && asked == []
    {
      this.answers, asked := answers, [];
    }

    method RoundTrip(url: string) returns (out: Outcome)
      modifies this
      ensures asked == old(asked) + [url] && out == answers(url, |old(asked)|)
    {
      out := answers(url, |asked|);
      asked := asked + [url];
    }
  }

  /** The `made` calls from number n on are on record, and all of them ask for url. */
  predicate AskedFrom(asked: seq<string>, url: string, n: nat, made: nat) {
    n + made <= |asked| && forall i :: n <= i < n + made ==> asked[i] == url
  }

  // ---- Parsing the headers ----

  function Digits(s: string): Option<nat> {
    if s == "" || !('0' <= s[|s| - 1] <= '9') then None
    else
      var d: nat := s[|s| - 1] as int - '0' as int;
      if |s| == 1 then Some(d)
      else
        match Digits(s[..|s| - 1])
        case None => None
        case Some(n) => Some(10 * n + d)
  }

  /** A decimal integer with an optional sign that fits 64 bits. */
  function ParseInt64(s: string): Option<int> {
    var negative := s != "" && s[0] == '-';
    var signed := s != "" && (s[0] == '-' || s[0] == '+');
    match Digits(if signed then s[1..] else s)
    case None => None
    case Some(n) =>
      var magnitude: int := n;
      var v := if negative then -magnitude else magnitude;
      if MIN64 <= v <= MAX64 then Some(v) else None
  }

  /** 64-bit wrap-around. */
  function Wrap64(x: int): (w: int)
    ensures MIN64 <= w <= MAX64
    ensures w == x <==> MIN64 <= x <= MAX64
  {
    (x - MIN64) % 0x1_0000_0000_0000_0000 + MIN64
  }

  /** Subtraction of times saturates. */
  function Clamp64(x: int): int {
    if x < MIN64 then MIN64 else if x > MAX64 then MAX64 else x
  }

  function ParseReset(msg: Message): int {
    if ParseInt64(msg.rateLimitReset).Some? then ParseInt64(msg.rateLimitReset).value else 0
  }

  /** How long to wait before retrying; now counts from the Unix epoch. */
  function ParseRetryWait(msg: Message, now: int): Option<int> {
    var secs := ParseInt64(msg.retryAfter);
    if secs.Some? && secs.value >= 0 then Some(Wrap64(secs.value * SECOND))
    else if ParseReset(msg) <= 0 then None
    else Some(Clamp64(ParseReset(msg) * SECOND - now))
  }

  // ---- The transport ----

  function EffectiveMaxWait(maxWait: int): int {
    if maxWait <= 0 then DEFAULT_MAX_WAIT else maxWait
  }

  datatype Verdict = Give(out: Outcome) | Retry(sleep: nat)

  /** What to do with the first answer. */
  function Judge(maxWait: int, now: int, first: Outcome): Verdict {
    if first.Error? || first.msg.status != 403 then Give(first)
    else if !first.intact then Give(Error(UnreadableBody))
    else if !first.msg.saysRateLimit then Give(first)
    else match ParseRetryWait(first.msg, now)
      case None => Give(Error(NoWaitGiven))
      case Some(wait) =>
        if wait > EffectiveMaxWait(maxWait) then Give(Error(WaitTooLong(wait)))
        else Retry(if wait > 0 then wait else 0)
  }

  /** One round trip as a function of the two answers it may see: what it returns, the number of calls
      it makes, and how long it sleeps. */
  function RoundTripOf(maxWait: int, now: int, first: Outcome, second: Outcome): (Outcome, nat, nat) {
    match Judge(maxWait, now, first)
    case Give(out) => (out, 1, 0)
    case Retry(sleep) => (second, 2, sleep)
  }

  class RateLimitTransport {
    const wrapped: Wire
    const maxWait: int
    /** Total time slept so far. */
    ghost var slept: nat

    constructor (wrapped: Wire, maxWait: int)
      ensures this.wrapped == wrapped && this.maxWait == maxWait && slept == 0
    {
      this.wrapped, this.maxWait, slept := wrapped, maxWait, 0;
    }

    /** The round trip that asks for url and whose first call has number n. */
    ghost function Trip(url: string, now: int, n: nat): (Outcome, nat, nat) {
      RoundTripOf(maxWait, now, wrapped.answers(url, n), wrapped.answers(url, n + 1))
    }

    /** Since the calls `before`, exactly the calls and the sleep of one round trip for url. */
    ghost predicate Ran(before: seq<string>, sleptBefore: nat, url: string, now: int)
      reads this, wrapped
    {
      var (_, made, sleep) := Trip(url, now, |before|);
      && slept == sleptBefore + sleep
      && before <= wrapped.asked && |wrapped.asked| == |before| + made && AskedFrom(wrapped.asked, url, |before|, made)
    }

    method RoundTrip(url: string, now: int) returns (out: Outcome)
      modifies this, wrapped
      ensures out == Trip(url, now, |old(wrapped.asked)|).0
      ensures Ran(old(wrapped.asked), old(slept), url, now)
    {
      out := wrapped.RoundTrip(url);
      if out.Error? { return; }
      if out.msg.status != 403 { return; }
      if !out.intact { return Error(UnreadableBody); }
      if !out.msg.saysRateLimit { return; }
      var parsed := ParseRetryWait(out.msg, now);
      if parsed.None? { return Error(NoWaitGiven); }
      var wait := parsed.value;
      var limit := maxWait;
      if limit <= 0 {
        limit := DEFAULT_MAX_WAIT;
      }
      if wait > limit { return Error(WaitTooLong(wait)); }
      if wait > 0 {
        slept := slept + wait;
      }
      out := wrapped.RoundTrip(url);
    }
  }

  // ---- Results ----

  /** An answer that reports a rate limit and arrives whole. */
  predicate Limited(out: Outcome) {
    out.Reply? && out.intact && out.msg.RateLimited()
  }

  /** The wait that a rate-limited answer asks for is known and not above the maximum. */
  predicate WaitAccepted(maxWait: int, now: int, m: Message) {
    var wait := ParseRetryWait(m, now);
    wait.Some? && wait.value <= EffectiveMaxWait(maxWait)
  }

  /** One round trip makes one call or two and sleeps at most the effective maximum. It makes a second
      call exactly when the first answer is a rate limit with an acceptable wait; it returns a
      rate-limit 403 exactly when, besides, the second answer is one; a first rate-limit answer is
      never handed on. */
  lemma RoundTripIsBounded(maxWait: int, now: int, first: Outcome, second: Outcome)
    ensures var (out, calls, slept) := RoundTripOf(maxWait, now, first, second);
            && 1 <= calls <= 2
            && slept <= EffectiveMaxWait(maxWait)
            && (calls == 2 <==> Limited(first) && WaitAccepted(maxWait, now, first.msg))
            && (Limited(out) <==> Limited(first) && WaitAccepted(maxWait, now, first.msg) && Limited(second))
            && (Limited(out) ==> out == second)
  {
  }

  // ---- Decimal printing, the inverse of the parser ----

  /** Every number of seconds that fits 64 bits is read back from its decimal form. */
  lemma ParsesDecimal(n: nat)
    requires n <= MAX64
    ensures ParseInt64(Decimal(n)) == Some(n)
  {
    DigitsOfDecimal(n);
  }

  lemma {:induction false} DigitsOfDecimal(n: nat)
    ensures Digits(Decimal(n)) == Some(n)
    ensures Decimal(n) != "" && '0' <= Decimal(n)[0] <= '9'
  {
    if n >= 10 {
      DigitsOfDecimal(n / 10);
      var front := Decimal(n / 10);
      assert Decimal(n)[..|front|] == front;
      assert |Decimal(n)| - 1 == |front|;
    }
  }

  function Zeros(k: nat): string {
    seq(k, _ => '0')
  }

  /** Digits reads exactly the decimal forms, with any number of leading zeros. */
  lemma {:induction false} DigitsExactly(s: string, n: nat)
    ensures Digits(s) == Some(n) <==> exists k :: s == Zeros(k) + Decimal(n)
  {
    if Digits(s) == Some(n) {
      var k := ZerosBefore(s, n);
    }
    if k :| s == Zeros(k) + Decimal(n) {
      ZerosReadOver(k, n);
    }
  }

  lemma {:induction false} ZerosBefore(s: string, n: nat) returns (k: nat)
    requires Digits(s) == Some(n)
    ensures s == Zeros(k) + Decimal(n)
  {
    var front, last := s[..|s| - 1], s[|s| - 1];
    assert s == front + [last];
    k := 0;
    if |s| > 1 {
      k := ZerosBefore(front, n / 10);
      if n < 10 {
        assert front == Zeros(k) + "0" == Zeros(k + 1);
        k := k + 1;
      }
    }
  }

  lemma {:induction false} ZerosReadOver(k: nat, n: nat)
    ensures Digits(Zeros(k) + Decimal(n)) == Some(n)
    decreases k + n
  {
    var s := Zeros(k) + Decimal(n);
    if n >= 10 {
      ZerosReadOver(k, n / 10);
      assert s[..|s| - 1] == Zeros(k) + Decimal(n / 10);
    } else if k > 0 {
      ZerosReadOver(k - 1, 0);
      assert s[..|s| - 1] == Zeros(k) == Zeros(k - 1) + Decimal(0);
    }
  }

  /** A sign, if any, then k zeros and the decimal form of n. */
  predicate Numeral(s: string, sign: string, k: nat, n: nat) {
    (sign == "" || sign == "+" || sign == "-") && s == sign + (Zeros(k) + Decimal(n))
  }

  function Signed(sign: string, n: nat): int {
    if sign == "-" then 0 - n else n
  }

  /** The parser reads exactly an optional sign, any zeros and a decimal form, of a value that fits 64 bits. */
  lemma ParsesExactly(s: string, v: int)
    ensures ParseInt64(s) == Some(v) <==>
      && -0x8000_0000_0000_0000 <= v < 0x8000_0000_0000_0000
      && exists sign: string, k: nat, n: nat :: Numeral(s, sign, k, n) && v == Signed(sign, n)
  {
    hide Decimal, Digits, Zeros, ParseInt64, Numeral;
    if ParseInt64(s) == Some(v) {
      var sign, k, n := ParsedNumeral(s, v);
    }
    if exists sign: string, k: nat, n: nat :: Numeral(s, sign, k, n) && v == Signed(sign, n) {
      var sign: string, k: nat, n: nat :| Numeral(s, sign, k, n) && v == Signed(sign, n);
      NumeralParses(s, sign, k, n);
    }
  }

  lemma ParsedNumeral(s: string, v: int) returns (sign: string, k: nat, n: nat)
    requires ParseInt64(s) == Some(v)
    ensures Numeral(s, sign, k, n) && v == Signed(sign, n) && MIN64 <= v <= MAX64
  {
    hide Decimal, Digits, Zeros;
    var signed := s != "" && (s[0] == '-' || s[0] == '+');
    var body := if signed then s[1..] else s;
    sign := if signed then [s[0]] else "";
    assert s == sign + body;
    n := Digits(body).value;
    DigitsExactly(body, n);
    k :| body == Zeros(k) + Decimal(n);
  }

  lemma NumeralParses(s: string, sign: string, k: nat, n: nat)
    requires Numeral(s, sign, k, n)
    ensures ParseInt64(s) == if MIN64 <= Signed(sign, n) <= MAX64 then Some(Signed(sign, n)) else None
  {
    hide Decimal, Digits, Zeros;
    var body := Zeros(k) + Decimal(n);
    DigitsExactly(body, n);
    StartsWithDigit(k, n);
    assert sign != "" ==> s[1..] == body && s[0] == sign[0];
    assert sign == "" ==> s == body;
  }

  lemma StartsWithDigit(k: nat, n: nat)
    ensures var body := Zeros(k) + Decimal(n); body != "" && '0' <= body[0] <= '9'
  {
    DigitsOfDecimal(n);
  }

  /** The most significant digit comes first. */
  lemma DecimalOf120()
    ensures Decimal(120) == "120"
  {
    assert Decimal(12) == "12";
  }

  // ---- How long a rate limit makes the transport sleep ----

  /** What comes of a first rate-limit answer that asks for this wait. */
  ghost predicate WaitsFor(maxWait: int, now: int, msg: Message, second: Outcome, wait: int) {
    var limit := if maxWait > 0 then maxWait else 300_000_000_000;
    RoundTripOf(maxWait, now, Reply(msg, true), second) ==
      if wait > limit then (Error(WaitTooLong(wait)), 1, 0)
      else (second, 2, if wait > 0 then wait else 0)
  }

  /** A Retry-After of n seconds is slept in full if it is within the maximum, and given up on if not. */
  lemma DelayIsSlept(maxWait: int, now: int, msg: Message, n: nat, second: Outcome)
    requires msg.RateLimited() && ParseInt64(msg.retryAfter) == Some(n) && n <= 9_223_372_036
    ensures WaitsFor(maxWait, now, msg, second, n * 1_000_000_000)
  {
    hide ParseInt64;
  }

  predicate NoDelay(msg: Message) {
    ParseInt64(msg.retryAfter).Some? ==> ParseInt64(msg.retryAfter).value < 0
  }

  /** Without a usable Retry-After the reset stamp is slept up to: the whole time from now on, nothing if it
      is past, and given up on if it is too far ahead. A difference that does not fit 64 bits is the
      largest or smallest that does. */
  lemma ResetIsAwaited(maxWait: int, now: int, msg: Message, n: nat, second: Outcome)
    requires msg.RateLimited() && NoDelay(msg) && ParseInt64(msg.rateLimitReset) == Some(n) && n > 0
    ensures var ahead := n * 1_000_000_000 - now;
      var most, least := 0x7FFF_FFFF_FFFF_FFFF, -0x8000_0000_0000_0000;
      WaitsFor(maxWait, now, msg, second, if ahead > most then most else if ahead < least then least else ahead)
  {
    hide ParseInt64;
  }

  /** With neither header usable there is one call and an error. */
  lemma NoHeaderGivesUp(maxWait: int, now: int, msg: Message, second: Outcome)
    requires msg.RateLimited() && NoDelay(msg)
    requires ParseInt64(msg.rateLimitReset).Some? ==> ParseInt64(msg.rateLimitReset).value <= 0
    ensures RoundTripOf(maxWait, now, Reply(msg, true), second) == (Error(NoWaitGiven), 1, 0)
  {
    hide ParseInt64;
  }

  /** Every other answer is handed on as it came, at once; of a 403 the body must be readable. */
  lemma OthersPassThrough(maxWait: int, now: int, first: Outcome, second: Outcome)
    requires first.Error? || first.msg.status != 403 || !first.intact || !first.msg.saysRateLimit
    ensures RoundTripOf(maxWait, now, first, second) ==
      (if first.Reply? && first.msg.status == 403 && !first.intact then Error(UnreadableBody) else first, 1, 0)
  {
  }

  /** A Retry-After of n seconds decides the wait whatever the reset header says, and the wait is
      n seconds exactly while that many nanoseconds fit 64 bits. */
  lemma RetryAfterOverrides(msg: Message, now: int, n: nat, reset: string, now': int)
    requires msg.retryAfter == Decimal(n) && n <= MAX64
    ensures ParseRetryWait(msg, now) == ParseRetryWait(msg.(rateLimitReset := reset), now')
    ensures ParseRetryWait(msg, now) == Some(n * SECOND) <==> n <= 9_223_372_036
  {
    ParsesDecimal(n);
  }

  /** From one second more on, up to twice as many, the wait wraps to a negative one: the transport
      retries at once. */
  lemma HugeRetryAfterRetriesAtOnce(maxWait: int, now: int, msg: Message, n: nat)
    requires 9_223_372_036 < n <= 18_446_744_073
    requires msg.RateLimited() && msg.retryAfter == Decimal(n)
    ensures Judge(maxWait, now, Reply(msg, true)) == Retry(0)
  {
    hide Decimal, ParseInt64;
    ParsesDecimal(n);
    assert Wrap64(n * SECOND) == n * SECOND - 0x1_0000_0000_0000_0000;
  }
}
