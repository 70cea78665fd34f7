/**
 * Housekeeping and websocket client tracking of the web servers module:
 * `serversLoop`, with its own 1000 ms deadline for `cleanupClients`, and
 * `websocketEventHandler`, which keeps the global `int lastClient` (-1 for
 * none) and classifies each received data frame.
 */
module Servers {
  import opened Millis

  const CLEANUP_PERIOD_MS: U32 := 1000
  /** The value of `lastClient` when no client is remembered. */
  const NO_CLIENT: I32 := -1
  /** Opcode of a websocket text frame. */
  const WS_TEXT: nat := 1

  /**
   * The housekeeping trigger: it fires exactly when the deadline is strictly
   * past, and then moves it on by exactly 1000 ms (modulo 2^32), once per call
   * however far behind it is.
   */
  function Housekeeping(nowMs: U32, nextCleanupMs: U32): (r: Fire)
    ensures r.fired <==> IsPast(nowMs, nextCleanupMs)
    ensures Sub(r.next, nextCleanupMs) == if r.fired then CLEANUP_PERIOD_MS else 0
  {
    if IsPast(nowMs, nextCleanupMs) then Fire(true, Add(nextCleanupMs, CLEANUP_PERIOD_MS))
    else Fire(false, nextCleanupMs)
  }

  /**
   * There is no catch-up: a call that finds the deadline more than one period
   * behind cleans up once and leaves the deadline still in the past.
   */
  lemma HousekeepingLagsBehind(nowMs: U32, nextCleanupMs: U32)
    requires IsPast(nowMs, nextCleanupMs)
    requires Sub(nowMs, nextCleanupMs) > CLEANUP_PERIOD_MS
    ensures Housekeeping(nowMs, nextCleanupMs).fired
    ensures IsPast(nowMs, Housekeeping(nowMs, nextCleanupMs).next)
  {
    AdvancePastDeadline(nowMs, nextCleanupMs, CLEANUP_PERIOD_MS);
  }

  /** The fields of `AwsFrameInfo` that the handler reads. */
  datatype FrameInfo = FrameInfo(final: bool, index: nat, len: nat, opcode: nat)

  datatype FrameKind = Fragmented | Binary | Text

  /** A data event carrying one whole, unfragmented websocket message. */
  predicate IsWholeMessage(info: FrameInfo, len: nat)
  {
    info.final && info.index == 0 && info.len == len
  }

  /** How `websocketEventHandler` reports a received frame. */
  function Classify(info: FrameInfo, len: nat): (k: FrameKind)
    ensures k == Fragmented <==> !IsWholeMessage(info, len)
    ensures k == Binary <==> IsWholeMessage(info, len) && info.opcode != WS_TEXT
    ensures k == Text <==> IsWholeMessage(info, len) && info.opcode == WS_TEXT
  {
    if !info.final || info.index != 0 || info.len != len then Fragmented
    else if info.opcode != WS_TEXT then Binary
    else Text
  }

  /** What the handler logs about an event's payload. */
  datatype Reported = NotData | Received(kind: FrameKind)

  /** A websocket event, with the id of the client it concerns. */
  datatype WsEvent =
    | Connect(clientId: U32)
    | Disconnect(clientId: U32)
    | Pong(clientId: U32)
    | Data(clientId: U32, info: FrameInfo, len: nat)
    | Error(clientId: U32)
    | Unsupported(clientId: U32)

  /**
   * The new `lastClient`. Client ids are `uint32_t`: storing one converts it
   * to `int`, and comparing with one converts `lastClient` back to unsigned.
   */
  function NextLastClient(lastClient: I32, ev: WsEvent): (r: I32)
    ensures (ev.Connect? || ev.Data?) ==> FromInt32(r) == ev.clientId
    ensures ev.Disconnect? ==> (r == NO_CLIENT <==> lastClient == NO_CLIENT || FromInt32(lastClient) == ev.clientId)
    ensures ev.Disconnect? && r != NO_CLIENT ==> r == lastClient
    ensures (ev.Pong? || ev.Error? || ev.Unsupported?) ==> r == lastClient
  {
    match ev
    case Connect(id) => ToInt32(id)
    case Disconnect(id) => if FromInt32(lastClient) == id then NO_CLIENT else lastClient
    case Data(id, _, _) => ToInt32(id)
    case _ => lastClient
  }

  /** The set of connected clients as the transport maintains it. */
  function NextConnected(connected: set<U32>, ev: WsEvent): set<U32>
  {
    match ev
    case Connect(id) => connected + {id}
    case Disconnect(id) => connected - {id}
    case _ => connected
  }

  /** `lastClient` is none or names a connected client. */
  predicate Remembered(lastClient: I32, connected: set<U32>)
  {
    lastClient == NO_CLIENT || FromInt32(lastClient) in connected
  }

  /** Data can only arrive from a connected client. */
  predicate FromConnected(connected: set<U32>, ev: WsEvent)
  {
    ev.Data? ==> ev.clientId in connected
  }

  datatype Registry = Registry(lastClient: I32, connected: set<U32>)

  function Replay(reg: Registry, events: seq<WsEvent>): Registry
    decreases |events|
  {
    if events == [] then reg
    else Replay(Registry(NextLastClient(reg.lastClient, events[0]), NextConnected(reg.connected, events[0])), events[1..])
  }

  predicate WellFormed(connected: set<U32>, events: seq<WsEvent>)
    decreases |events|
  {
    events == [] || (FromConnected(connected, events[0]) && WellFormed(NextConnected(connected, events[0]), events[1..]))
  }

  /**
   * Over any event stream in which data comes only from connected clients,
   * `lastClient` is always either -1 or the id of a connected client: it is
   * cleared when exactly that client disconnects.
   */
  lemma {:induction false} ReplayKeepsRemembered(reg: Registry, events: seq<WsEvent>)
    requires Remembered(reg.lastClient, reg.connected)
    requires WellFormed(reg.connected, events)
    ensures Remembered(Replay(reg, events).lastClient, Replay(reg, events).connected)
    decreases |events|
  {
    if events != [] {
      var ev := events[0];
      var next := Registry(NextLastClient(reg.lastClient, ev), NextConnected(reg.connected, ev));
      assert Remembered(next.lastClient, next.connected);
      ReplayKeepsRemembered(next, events[1..]);
    }
  }

  /** The static and global state of the web servers module. */
  class Servers {
    var nextCleanupMs: U32
    var lastClient: I32

    constructor ()
      ensures nextCleanupMs == 0 && lastClient == NO_CLIENT
    {
      nextCleanupMs := 0;
      lastClient := NO_CLIENT;
    }

    /** `serversLoop()` with `millis()` reading `nowMs`; returns whether `cleanupClients` was called. */
    method ServersLoop(nowMs: U32) returns (cleanedUp: bool)
      modifies this`nextCleanupMs
      ensures cleanedUp == Housekeeping(nowMs, old(nextCleanupMs)).fired
      ensures nextCleanupMs == Housekeeping(nowMs, old(nextCleanupMs)).next
    {
      cleanedUp := false;
      if ToInt32(Sub(nowMs, nextCleanupMs)) > 0 {
        cleanedUp := true;
        nextCleanupMs := Add(nextCleanupMs, CLEANUP_PERIOD_MS);
      }
    }

    /** `websocketEventHandler`; returns how a data frame was reported. */
    method WebsocketEventHandler(ev: WsEvent) returns (reported: Reported)
      modifies this`lastClient
      ensures lastClient == NextLastClient(old(lastClient), ev)
      ensures reported == if ev.Data? then Received(Classify(ev.info, ev.len)) else NotData
    {
      reported := NotData;
      match ev {
        case Connect(id) =>
          lastClient := ToInt32(id);
        case Disconnect(id) =>
          if FromInt32(lastClient) == id {
            lastClient := NO_CLIENT;
          }
        case Pong(_) =>
        case Data(id, info, len) =>
          lastClient := ToInt32(id);
          if !info.final || info.index != 0 || info.len != len {
            reported := Received(Fragmented);
          } else if info.opcode != WS_TEXT {
            reported := Received(Binary);
          } else {
            reported := Received(Text);
          }
        case Error(_) =>
        case Unsupported(_) =>
      }
    }
  }
}
