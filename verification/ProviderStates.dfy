/** The durable heartbeat row of a market provider. */
module ProviderStates {
  import opened Common
  import opened MarketContracts

  datatype ProviderStatus = HEALTHY | DEGRADED | UNAVAILABLE

  datatype ProviderState = ProviderState(
    heartbeatAt: Time,
    lastMessageReceivedAt: Option<Time>,
    lastSuccessAt: Option<Time>,
    lastFailureAt: Option<Time>,
    consecutiveFailures: nat,
    reconnectCount: nat,
    status: ProviderStatus,
    detail: Option<string>)

  /** The later of two optional times. */
  function Later(a: Option<Time>, b: Option<Time>): Option<Time> {
    if a.None? then b else if b.None? then a else Some(Max(a.value, b.value))
  }

  /** `record_success` on the provider's row, or on no row. */
  function RecordSuccess(state: Option<ProviderState>, at: Time, lastMessage: Option<Time>, reconnected: bool): ProviderState {
    match state
    case None =>
      ProviderState(at, lastMessage, Some(at), None, 0, if reconnected then 1 else 0, HEALTHY, None)
    case Some(s) =>
      var newer := lastMessage.Some?
                   && (s.lastMessageReceivedAt.None? || lastMessage.value > s.lastMessageReceivedAt.value);
      s.(heartbeatAt := at,
         lastMessageReceivedAt := if newer then lastMessage else s.lastMessageReceivedAt,
         lastSuccessAt := Some(at),
         consecutiveFailures := 0,
         reconnectCount := s.reconnectCount + if reconnected then 1 else 0,
         status := HEALTHY,
         detail := None)
  }

  /** `record_failure` on the provider's row, or on no row. */
  function RecordFailure(
      state: Option<ProviderState>, at: Time, detail: string, exhausted: bool, lastMessage: Option<Time>): ProviderState
  {
    var status := if exhausted then UNAVAILABLE else DEGRADED;
    match state
    case None =>
      ProviderState(at, lastMessage, None, Some(at), 1, 0, status, Some(detail))
    case Some(s) =>
      var newer := lastMessage.Some?
                   && (s.lastMessageReceivedAt.None? || lastMessage.value > s.lastMessageReceivedAt.value);
      s.(heartbeatAt := at,
         lastMessageReceivedAt := if newer then lastMessage else s.lastMessageReceivedAt,
         lastFailureAt := Some(at),
         consecutiveFailures := s.consecutiveFailures + 1,
         status := status,
         detail := Some(detail))
  }

  function LastMessage(state: Option<ProviderState>): Option<Time> {
    if state.Some? then state.value.lastMessageReceivedAt else None
  }

  function Failures(state: Option<ProviderState>): nat {
    if state.Some? then state.value.consecutiveFailures else 0
  }

  function Reconnects(state: Option<ProviderState>): nat {
    if state.Some? then state.value.reconnectCount else 0
  }
}
