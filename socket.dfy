// The connection manager of the game socket: reconnection after abnormal
// closes, the timeout and heartbeat bookkeeping, the send queue, and the
// cache of message objects that received frames are routed to.
module Socket {
  import opened Common
  import SM = SocketMessage

  /** A close code: a number the client reports, or one of the codes the
      manager itself uses for a poor network, no network and a timeout,
      which no reported number equals. */
  datatype Code = Wire(n: int) | PoorNetwork | NotNetwork | ConnectionTimeout

  /** The normal-closure code of section 7.4.1 of RFC 6455; a close with it
      is deliberate and is not retried. */
  const NormalClosure: Code := Wire(1000)

  /** What the manager signals to its listeners. */
  datatype Signal =
    | Connected
    | ConnectionException
    | ConnectionRestore
    | Disconnected
    | NotConnected(code: Code, reason: string)
    | NetworkDelay

  /** What the manager asks of the client. */
  datatype Call = Reconnect | Close(code: Code, reason: string)

  /** The text the message table gives a code, or "" when it has none. */
  function Reason(errMsg: map<Code, string>, code: Code): string {
    if code in errMsg then errMsg[code] else ""
  }

  // ---- The reconnection counter ----

  /** The reconnection state: the retry counter and what has been signalled
      and asked so far. */
  datatype Link = Link(count: nat, signals: seq<Signal>, calls: seq<Call>)

  /** A disconnection: a poor or missing network resets the counter and
      reports that no connection is possible; any other code retries, and
      the first retry of a run reports the disconnection. */
  function Disconnect(l: Link, code: Code, reason: string): Link {
    if code == PoorNetwork || code == NotNetwork then
      Link(0, l.signals + [NotConnected(code, reason)], l.calls)
    else
      Link(l.count + 1, l.signals + (if l.count == 0 then [Disconnected] else []), l.calls + [Reconnect])
  }

  /** A close: a normal closure does nothing; otherwise, once `max` retries
      have been spent the network is reported poor, else the code is handled
      as a disconnection. */
  function HandleClose(l: Link, max: nat, errMsg: map<Code, string>, code: Code): Link {
    if code == NormalClosure then l
    else if l.count == max then Disconnect(l, PoorNetwork, Reason(errMsg, PoorNetwork))
    else Disconnect(l, code, Reason(errMsg, code))
  }

  /** A run of closes, one after another. */
  function Closes(l: Link, max: nat, errMsg: map<Code, string>, codes: seq<Code>): Link
    decreases |codes|
  {
    if codes == [] then l else Closes(HandleClose(l, max, errMsg, codes[0]), max, errMsg, codes[1..])
  }

  /** A code the manager retries on. */
  predicate Retried(code: Code) {
    code != NormalClosure && code != PoorNetwork && code != NotNetwork
  }

  function Reconnects(n: nat): (r: seq<Call>)
    ensures |r| == n && forall k :: 0 <= k < n ==> r[k] == Reconnect
  {
    if n == 0 then [] else Reconnects(n - 1) + [Reconnect]
  }

  /** A close never takes the counter past `max`, and a normal closure
      changes nothing. */
  lemma HandleCloseBounded(l: Link, max: nat, errMsg: map<Code, string>, code: Code)
    requires l.count <= max
    ensures HandleClose(l, max, errMsg, code).count <= max
    ensures code == NormalClosure ==> HandleClose(l, max, errMsg, code) == l
  {
  }

  /** From a retry counter at `k`, closes with retried codes reconnect until
      `max` retries are spent, and the next one gives up: no further
      reconnect, the counter back at 0 and the network reported poor. */
  lemma {:induction false} RetriesThenGiveUp(l: Link, max: nat, errMsg: map<Code, string>, codes: seq<Code>)
    requires l.count <= max && |codes| == max - l.count + 1
    requires forall k :: 0 <= k < |codes| ==> Retried(codes[k])
    ensures Closes(l, max, errMsg, codes).count == 0
    ensures Closes(l, max, errMsg, codes).calls == l.calls + Reconnects(max - l.count)
    ensures Closes(l, max, errMsg, codes).signals
      == l.signals + (if l.count == 0 && max > 0 then [Disconnected] else [])
         + [NotConnected(PoorNetwork, Reason(errMsg, PoorNetwork))]
    decreases max - l.count
  {
    var l' := HandleClose(l, max, errMsg, codes[0]);
    if l.count == max {
      assert codes[1..] == [];
    } else {
      assert Retried(codes[0]);
      RetriesThenGiveUp(l', max, errMsg, codes[1..]);
      assert forall k :: 0 <= k < |codes[1..]| ==> codes[1..][k] == codes[k + 1];
      var n := max - l.count;
      assert Reconnects(n) == [Reconnect] + Reconnects(n - 1) by {
        ReconnectsCons(n);
      }
    }
  }

  lemma ReconnectsCons(n: nat)
    requires n > 0
    ensures Reconnects(n) == [Reconnect] + Reconnects(n - 1)
  {
  }

  /** The parameter the heartbeat is sent with: the number 0. */
  const Zero: SM.Param := SM.Param(false, "0", "0")

  /** A message object: a name, the data type of its payload, and the
      payload and callbacks it has received. */
  class CCSocketMessage {
    const name: string
    const dataType: SM.DataType
    const socket: Socket
    /** The stored payload; `None` before any has been stored. */
    var data: Option<SM.Body>
    /** The payloads passed to the message callback, in order. */
    var received: seq<SM.Body>
    /** The codes passed to the error callback, in order. */
    var errors: seq<Option<int>>

    /** Creating a message whose class declares no data type fails; the
        factory below models that failure. */
    constructor (name: string, dataType: SM.DataType, socket: Socket)
      requires dataType != SM.Null
      ensures this.name == name && this.dataType == dataType && this.socket == socket
      ensures data == None && received == [] && errors == []
    {
      this.name := name;
      this.dataType := dataType;
      this.socket := socket;
      data := None;
      received := [];
      errors := [];
    }

    /** Sends `p`: its frame goes to the socket's send path. */
    method Send(p: SM.Param, open: bool)
      modifies socket`queue, socket`sent, socket`timeoutArmed
      ensures socket.timeoutArmed
      ensures open ==> socket.sent == old(socket.sent) + old(socket.queue) + [SM.Frame(name, dataType, p)] && socket.queue == []
      ensures !open ==> socket.sent == old(socket.sent) && socket.queue == old(socket.queue) + [SM.Frame(name, dataType, p)]
    {
      socket.EncodingData(SM.Frame(name, dataType, p), open);
    }

    /** Handles a received frame: code 0 stores the payload and passes it to
        the message callback; any other code goes to the error callback and
        leaves the stored payload as it was. */
    method Dispatch(frame: string)
      modifies this`data, this`received, this`errors
      ensures match SM.Parse(dataType, frame)
        case Data(b) => data == Some(b) && received == old(received) + [b] && errors == old(errors)
        case Error(c) => data == old(data) && received == old(received) && errors == old(errors) + [c]
    {
      var parts := SM.Split(frame);
      var code := SM.ParseInt(SM.TextOf(SM.Field(parts, 1)));
      if code == Some(0) {
        var body := SM.BodyOf(dataType, SM.Field(parts, 2));
        data := Some(body);
        received := received + [body];
      } else {
        errors := errors + [code];
      }
    }
  }

  /** Creates a message object, failing when its class declares no data
      type. */
  method NewMessage(name: string, dataType: SM.DataType, socket: Socket) returns (m: Option<CCSocketMessage>)
    ensures m.None? <==> dataType == SM.Null
    ensures m.Some? ==>
      && fresh(m.value) && m.value.name == name && m.value.dataType == dataType
      && m.value.socket == socket && m.value.data == None && m.value.received == [] && m.value.errors == []
  {
    if dataType == SM.Null {
      m := None;
    } else {
      var msg := new CCSocketMessage(name, dataType, socket);
      m := Some(msg);
    }
  }

  class Socket {
    /** How many reconnections are tried before the network is reported
        poor. */
    const linkCountMax: nat
    /** The timeout count at which the connection is closed. */
    const timeoutCountMax: nat
    /** The message text of each code. */
    const errMsg: map<Code, string>
    /** The message classes that can be created, by name, with the data type
        each declares. */
    const classes: map<string, SM.DataType>

    var exceptionCount: nat
    var linkCount: nat
    var timeoutInterval: real
    var heartbeatInterval: real
    /** Frames waiting for the connection to open. */
    var queue: seq<string>
    /** Frames handed to the protocol for sending, in order. */
    var sent: seq<string>
    /** The message objects created so far, by name. */
    var msgMap: map<string, CCSocketMessage>
    var heartbeat: Option<CCSocketMessage>
    var signals: seq<Signal>
    var calls: seq<Call>
    /** Whether the timeout timer is pending. */
    var timeoutArmed: bool
    /** Whether the heartbeat timer is pending. */
    var heartbeatArmed: bool
    /** How often the timeout timer has fired; it is never reset. */
    var timeoutFired: nat

    ghost predicate Valid()
      reads this
    {
      && linkCountMax == 3 && timeoutCountMax == 2
      && linkCount <= linkCountMax
      && (forall n | n in msgMap ::
            msgMap[n].name == n && msgMap[n].socket == this
            && n in classes && msgMap[n].dataType == classes[n])
      && (heartbeat.Some? ==> heartbeat.value.socket == this)
    }

    function LinkState(): Link
      reads this
    {
      Link(linkCount, signals, calls)
    }

    constructor (classes: map<string, SM.DataType>, errMsg: map<Code, string>)
      ensures Valid()
      ensures this.classes == classes && this.errMsg == errMsg
      ensures exceptionCount == 0 && linkCount == 0
      ensures timeoutInterval == 5.0 && heartbeatInterval == 10.0
      ensures queue == [] && sent == [] && msgMap == map[] && heartbeat == None
      ensures signals == [] && calls == []
      ensures !timeoutArmed && !heartbeatArmed && timeoutFired == 0
    {
      linkCountMax := 3;
      timeoutCountMax := 2;
      this.errMsg := errMsg;
      this.classes := classes;
      exceptionCount := 0;
      linkCount := 0;
      timeoutInterval := 5.0;
      heartbeatInterval := 10.0;
      queue := [];
      sent := [];
      msgMap := map[];
      heartbeat := None;
      signals := [];
      calls := [];
      timeoutArmed := false;
      heartbeatArmed := false;
      timeoutFired := 0;
    }

    /** The heartbeat interval is always twice the timeout interval. */
    method SetTimeoutInterval(interval: real)
      modifies this`timeoutInterval, this`heartbeatInterval
      ensures timeoutInterval == interval && heartbeatInterval == 2.0 * interval
    {
      timeoutInterval := interval;
      heartbeatInterval := 2.0 * interval;
    }

    /** Queues a frame; when the connection is open, the whole queue is
        handed to the protocol oldest first. The timeout timer is started
        either way. */
    method EncodingData(sockData: string, open: bool)
      modifies this`queue, this`sent, this`timeoutArmed
      ensures timeoutArmed
      ensures open ==> sent == old(sent) + old(queue) + [sockData] && queue == []
      ensures !open ==> sent == old(sent) && queue == old(queue) + [sockData]
    {
      queue := queue + [sockData];
      if open {
        while queue != []
          invariant sent + queue == old(sent) + old(queue) + [sockData]
          decreases |queue|
        {
          var data := queue[0];
          assert queue == [data] + queue[1..];
          queue := queue[1..];
          sent := sent + [data];
        }
      }
      timeoutArmed := true;
    }

    /** The message object of `name`: the one created before, else a new
        one of the registered class, kept for later; `None` when no class of
        that name exists or it declares no data type. */
    method RetrieveMsg(name: string) returns (m: Option<CCSocketMessage>)
      requires Valid()
      modifies this`msgMap
      ensures Valid()
      ensures m.Some? <==> name in old(msgMap) || (name in classes && classes[name] != SM.Null)
      ensures name in old(msgMap) ==> m == Some(old(msgMap)[name]) && msgMap == old(msgMap)
      ensures name !in old(msgMap) && m.Some? ==>
        fresh(m.value) && m.value.data == None && m.value.received == [] && m.value.errors == []
        && msgMap == old(msgMap)[name := m.value]
      ensures m.None? ==> msgMap == old(msgMap)
      ensures m.Some? ==> name in msgMap && msgMap[name] == m.value
    {
      if name in msgMap {
        return Some(msgMap[name]);
      }
      if name in classes {
        m := NewMessage(name, classes[name], this);
        if m.Some? {
          msgMap := msgMap[name := m.value];
        }
      } else {
        m := None;
      }
    }

    /** Whether a frame can be routed: a message object or class exists for
        the name before its first '|'. */
    predicate Routable(data: string)
      reads this
    {
      var name := SM.Split(data)[0];
      name in msgMap || (name in classes && classes[name] != SM.Null)
    }

    /** Routes a received frame to the message object named by its first
        field, which handles it as `Dispatch` says; a message object created
        for it starts with nothing stored. */
    method DispatchData(data: string)
      requires Valid() && Routable(data)
      modifies this`msgMap, msgMap.Values
      ensures Valid()
      ensures var name := SM.Split(data)[0];
        && name in msgMap
        && (name in old(msgMap) ==> msgMap == old(msgMap))
        && var m := msgMap[name];
        && var data0 := if name in old(msgMap) then old(msgMap[name].data) else None;
        && var received0 := if name in old(msgMap) then old(msgMap[name].received) else [];
        && var errors0 := if name in old(msgMap) then old(msgMap[name].errors) else [];
        match SM.Parse(m.dataType, data)
        case Data(b) => m.data == Some(b) && m.received == received0 + [b] && m.errors == errors0
        case Error(c) => m.data == data0 && m.received == received0 && m.errors == errors0 + [c]
      ensures forall n | n in old(msgMap) && n != SM.Split(data)[0] :: unchanged(old(msgMap)[n])
    {
      var name := SM.Split(data)[0];
      var proxy := RetrieveMsg(name);
      proxy.value.Dispatch(data);
    }

    /** A disconnection, as `Disconnect` describes it. */
    method HandleDisconnect(code: Code, reason: string)
      requires Valid() && (code == PoorNetwork || code == NotNetwork || linkCount < linkCountMax)
      modifies this`linkCount, this`signals, this`calls
      ensures Valid()
      ensures LinkState() == Disconnect(old(LinkState()), code, reason)
    {
      if code == PoorNetwork || code == NotNetwork {
        linkCount := 0;
        signals := signals + [NotConnected(code, reason)];
      } else {
        if linkCount == 0 {
          signals := signals + [Disconnected];
        }
        linkCount := linkCount + 1;
        calls := calls + [Reconnect];
      }
    }

    /** A close, as `HandleClose` describes it. */
    method HandleCloseCode(code: Code, reason: string)
      requires Valid() && reason == Reason(errMsg, code)
      modifies this`linkCount, this`signals, this`calls
      ensures Valid()
      ensures LinkState() == HandleClose(old(LinkState()), linkCountMax, errMsg, code)
    {
      if code != NormalClosure {
        if linkCount == linkCountMax {
          HandleDisconnect(PoorNetwork, Reason(errMsg, PoorNetwork));
        } else {
          HandleDisconnect(code, reason);
        }
      }
    }

    /** The client reports a close: the heartbeat timer stops and the close
        is handled with the code's message text. */
    method OnClose(code: Code)
      requires Valid()
      modifies this`heartbeatArmed, this`linkCount, this`signals, this`calls
      ensures Valid() && !heartbeatArmed
      ensures LinkState() == HandleClose(old(LinkState()), linkCountMax, errMsg, code)
    {
      heartbeatArmed := false;
      var msg := "";
      if code in errMsg {
        msg := errMsg[code];
      }
      HandleCloseCode(code, msg);
    }

    /** The client reports an error: the heartbeat timer stops, the counter
        is reset and no connection is reported. */
    method OnError()
      requires Valid()
      modifies this`heartbeatArmed, this`linkCount, this`signals, this`calls
      ensures Valid() && !heartbeatArmed
      ensures linkCount == 0 && calls == old(calls)
      ensures signals == old(signals) + [NotConnected(NotNetwork, Reason(errMsg, NotNetwork))]
    {
      heartbeatArmed := false;
      HandleDisconnect(NotNetwork, Reason(errMsg, NotNetwork));
    }

    /** Traffic from the server: the timeout timer stops, the delay is
        reported, and an exception in progress is over. */
    method ResetTimeoutStatus()
      modifies this`timeoutArmed, this`signals, this`exceptionCount
      ensures !timeoutArmed && exceptionCount == 0
      ensures signals == old(signals) + [NetworkDelay]
        + (if old(exceptionCount) > 0 then [ConnectionRestore] else [])
    {
      timeoutArmed := false;
      signals := signals + [NetworkDelay];
      if exceptionCount > 0 {
        exceptionCount := 0;
        signals := signals + [ConnectionRestore];
      }
    }

    /** Sends the heartbeat message with the number 0. */
    method SendHeartbeat(open: bool)
      requires heartbeat.Some? && heartbeat.value.socket == this
      modifies this`queue, this`sent, this`timeoutArmed
      ensures timeoutArmed
      ensures var f := SM.Frame(heartbeat.value.name, heartbeat.value.dataType, Zero);
        && (open ==> sent == old(sent) + old(queue) + [f] && queue == [])
        && (!open ==> sent == old(sent) && queue == old(queue) + [f])
    {
      heartbeat.value.Send(Zero, open);
    }

    /** The heartbeat message is the message object of `name`, or nothing
        when no class has that name. A class that declares no data type
        makes the message constructor throw before the assignment, so the
        heartbeat and the message table keep their old values. */
    method InitHeartbeat(name: string)
      requires Valid()
      modifies this`msgMap, this`heartbeat
      ensures Valid()
      ensures name !in old(msgMap) && name in classes && classes[name] == SM.Null ==>
        heartbeat == old(heartbeat) && msgMap == old(msgMap)
      ensures name in old(msgMap) ==> heartbeat == Some(old(msgMap)[name]) && msgMap == old(msgMap)
      ensures name !in old(msgMap) && name !in classes ==> heartbeat.None? && msgMap == old(msgMap)
      ensures name !in old(msgMap) && name in classes && classes[name] != SM.Null ==>
        heartbeat.Some? && fresh(heartbeat.value) && msgMap == old(msgMap)[name := heartbeat.value]
    {
      if name !in msgMap && name in classes && classes[name] == SM.Null {
        return;
      }
      heartbeat := RetrieveMsg(name);
    }

    /** The connection opened: the counter is reset, the connection is
        reported, a first heartbeat is sent and the heartbeat timer started,
        and the timeout state is reset. */
    method OnOpen(open: bool)
      requires Valid() && heartbeat.Some?
      modifies this`linkCount, this`signals, this`timeoutArmed, this`queue, this`sent,
        this`heartbeatArmed, this`exceptionCount
      ensures Valid()
      ensures linkCount == 0 && exceptionCount == 0 && heartbeatArmed && !timeoutArmed
      ensures signals == old(signals) + [Connected, NetworkDelay]
        + (if old(exceptionCount) > 0 then [ConnectionRestore] else [])
      ensures var f := SM.Frame(heartbeat.value.name, heartbeat.value.dataType, Zero);
        && (open ==> sent == old(sent) + old(queue) + [f] && queue == [])
        && (!open ==> sent == old(sent) && queue == old(queue) + [f])
    {
      linkCount := 0;
      signals := signals + [Connected];
      timeoutArmed := false;
      SendHeartbeat(open);
      heartbeatArmed := true;
      ResetTimeoutStatus();
    }

    /** A frame from the server is routed, then the timeout state is
        reset. */
    method OnMessage(data: string)
      requires Valid() && Routable(data)
      modifies this`msgMap, msgMap.Values, this`timeoutArmed, this`signals, this`exceptionCount
      ensures Valid()
      ensures SM.Split(data)[0] in msgMap
      ensures !timeoutArmed && exceptionCount == 0
      ensures signals == old(signals) + [NetworkDelay]
        + (if old(exceptionCount) > 0 then [ConnectionRestore] else [])
    {
      DispatchData(data);
      ResetTimeoutStatus();
    }

    /** The `count`-th expiry of the timeout timer: the first sends a
        heartbeat and reports a connection exception; the one at the maximum
        closes the connection as timed out. */
    method OnTimeoutCheck(count: nat, open: bool)
      requires Valid() && (count == 1 ==> heartbeat.Some?)
      modifies this`exceptionCount, this`queue, this`sent, this`timeoutArmed, this`signals, this`calls
      ensures Valid()
      ensures exceptionCount == count
      ensures count == 1 ==>
        && signals == old(signals) + [ConnectionException] && calls == old(calls) && timeoutArmed
        && var f := SM.Frame(heartbeat.value.name, heartbeat.value.dataType, Zero);
        && (open ==> sent == old(sent) + old(queue) + [f] && queue == [])
        && (!open ==> sent == old(sent) && queue == old(queue) + [f])
      ensures count != 1 ==>
        && signals == old(signals) && sent == old(sent) && queue == old(queue)
        && timeoutArmed == old(timeoutArmed)
        && calls == old(calls) + (if count == timeoutCountMax
                                  then [Close(ConnectionTimeout, Reason(errMsg, ConnectionTimeout))] else [])
    {
      exceptionCount := count;
      if count == 1 {
        SendHeartbeat(open);
        signals := signals + [ConnectionException];
      } else if count == timeoutCountMax {
        calls := calls + [Close(ConnectionTimeout, Reason(errMsg, ConnectionTimeout))];
      }
    }

    /** The pending timeout timer fires, with its running count. */
    method TimeoutElapsed(open: bool)
      requires Valid() && timeoutArmed && (timeoutFired == 0 ==> heartbeat.Some?)
      modifies this`timeoutFired, this`exceptionCount, this`queue, this`sent, this`timeoutArmed,
        this`signals, this`calls
      ensures Valid()
      ensures timeoutFired == old(timeoutFired) + 1 && exceptionCount == timeoutFired
      ensures timeoutFired == 1 <==> signals == old(signals) + [ConnectionException]
      ensures timeoutFired == 2 <==> calls == old(calls) + [Close(ConnectionTimeout, Reason(errMsg, ConnectionTimeout))]
    {
      timeoutArmed := false;
      timeoutFired := timeoutFired + 1;
      OnTimeoutCheck(timeoutFired, open);
    }

    /** The pending heartbeat timer fires: one more heartbeat, and the timer
        is not started again. */
    method HeartbeatElapsed(open: bool)
      requires Valid() && heartbeatArmed && heartbeat.Some?
      modifies this`heartbeatArmed, this`queue, this`sent, this`timeoutArmed
      ensures !heartbeatArmed && timeoutArmed
      ensures var f := SM.Frame(heartbeat.value.name, heartbeat.value.dataType, Zero);
        && (open ==> sent == old(sent) + old(queue) + [f] && queue == [])
        && (!open ==> sent == old(sent) && queue == old(queue) + [f])
    {
      heartbeatArmed := false;
      SendHeartbeat(open);
    }
  }
}
