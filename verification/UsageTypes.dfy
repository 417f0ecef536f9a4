/** Usage limits and counters, and the pure accounting over them. */
module UsageTypes {

  const MAX_TIMESTAMP: int := 4102444800
  const MAX_COUNTER: int := 1_000_000_000_000_000
  const STATE_VERSION: int := 1

  datatype UsagePolicy = UsagePolicy(sessionLimit: int, messageLimit: int, tokenLimit: int, resetPeriod: int)

  datatype UsageState =
    UsageState(version: int, periodStart: int, messages: int, tokens: int, sessionStart: int)

  const FRESH := UsageState(STATE_VERSION, 0, 0, 0, 0)

  /** The states the store persists and accepts back. */
  predicate ValidState(s: UsageState) {
    && s.version == STATE_VERSION
    && 0 <= s.periodStart <= MAX_TIMESTAMP
    && 0 <= s.sessionStart <= MAX_TIMESTAMP
    && 0 <= s.messages <= MAX_COUNTER
    && 0 <= s.tokens <= MAX_COUNTER
  }

  predicate RolledOver(p: UsagePolicy, s: UsageState, now: int) {
    s.periodStart <= 0 || now < s.periodStart || now - s.periodStart >= p.resetPeriod
  }

  function RollOver(s: UsageState, now: int): UsageState {
    s.(periodStart := now, messages := 0, tokens := 0)
  }

  /** The state after the lazy rollover every entry point performs first. */
  function Current(p: UsagePolicy, s: UsageState, now: int): UsageState {
    if RolledOver(p, s, now) then RollOver(s, now) else s
  }

  datatype Outcome = Allowed | ExhaustedTime | ExhaustedMessages | ExhaustedTokens | StateCorrupted

  datatype Decision = Decision(outcome: Outcome, secondsRemaining: int, messagesRemaining: int,
                               tokensRemaining: int, periodReset: int)

  function Max(a: int, b: int): int { if a < b then b else a }

  function Min(a: int, b: int): int { if a < b then a else b }

  predicate TimeExhausted(p: UsagePolicy, s: UsageState, now: int) {
    p.sessionLimit > 0 && s.sessionStart > 0 && now >= s.sessionStart && now - s.sessionStart >= p.sessionLimit
  }

  predicate MessagesExhausted(p: UsagePolicy, s: UsageState) { p.messageLimit > 0 && s.messages >= p.messageLimit }

  predicate TokensExhausted(p: UsagePolicy, s: UsageState) { p.tokenLimit > 0 && s.tokens >= p.tokenLimit }

  /** The admission decision: time, then messages, then tokens; the first exhausted limit names the outcome. */
  function Evaluate(p: UsagePolicy, s: UsageState, now: int): (d: Decision)
    ensures d.outcome == Allowed <==>
              !TimeExhausted(p, s, now) && !MessagesExhausted(p, s) && !TokensExhausted(p, s)
    ensures d.outcome == ExhaustedTime <==> TimeExhausted(p, s, now)
    ensures d.outcome == ExhaustedMessages <==> MessagesExhausted(p, s) && !TimeExhausted(p, s, now)
    ensures d.outcome == ExhaustedTokens <==>
              TokensExhausted(p, s) && !MessagesExhausted(p, s) && !TimeExhausted(p, s, now)
  {
    var started := p.sessionLimit > 0 && s.sessionStart > 0 && now >= s.sessionStart;
    var seconds :=
      if started then Max(0, p.sessionLimit - (now - s.sessionStart))
      else if p.sessionLimit > 0 then p.sessionLimit
      else 0;
    var outcome :=
      if started && now - s.sessionStart >= p.sessionLimit then ExhaustedTime
      else if p.messageLimit > 0 && s.messages >= p.messageLimit then ExhaustedMessages
      else if p.tokenLimit > 0 && s.tokens >= p.tokenLimit then ExhaustedTokens
      else Allowed;
    Decision(outcome, seconds,
             if p.messageLimit > 0 then Max(0, p.messageLimit - s.messages) else 0,
             if p.tokenLimit > 0 then Max(0, p.tokenLimit - s.tokens) else 0,
             if s.periodStart > 0 then s.periodStart + p.resetPeriod else now + p.resetPeriod)
  }

  /** What the amounts in a decision mean: a started session runs out exactly that many seconds from now, the
      counters reach their limits exactly that many messages and tokens from here, and the period rolls over at the
      reset time but not before. */
  lemma RemainingAmountsAreExact(p: UsagePolicy, s: UsageState, now: int, later: int, n: nat)
    requires now <= later
    ensures var d := Evaluate(p, s, now);
            && (p.sessionLimit > 0 && 0 < s.sessionStart <= now ==>
                  (TimeExhausted(p, s, later) <==> later >= now + d.secondsRemaining))
            && (p.messageLimit > 0 ==>
                  (MessagesExhausted(p, s.(messages := s.messages + n)) <==> n >= d.messagesRemaining))
            && (p.tokenLimit > 0 ==>
                  (TokensExhausted(p, s.(tokens := s.tokens + n)) <==> n >= d.tokensRemaining))
            && (0 < s.periodStart <= now ==> (RolledOver(p, s, later) <==> later >= d.periodReset))
  {
  }

  /** One more message of n tokens, saturating instead of wrapping. */
  function Record(s: UsageState, n: int): UsageState {
    var messages := if s.messages < MAX_COUNTER then s.messages + 1 else s.messages;
    var headroom := MAX_COUNTER - s.tokens;
    var tokens := if headroom > 0 then s.tokens + Min(n, headroom) else s.tokens;
    s.(messages := messages, tokens := tokens)
  }
}
