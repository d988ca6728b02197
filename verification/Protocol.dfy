/** ProtocolConnection: frames cut out of a byte stream, and the handshake state machine they drive.
    What a connection does is independent of how the stream was split into pieces. */
module Protocol {
  import opened Bytes
  import opened MiniNumbers
  import BigInts

  // ---- frames --------------------------------------------------------------------------

  const GREETING: Byte := 0
  const IBD: Byte := 1
  const TXPOWID: Byte := 2
  const TXPOW: Byte := 4
  const PULSE: Byte := 6
  const SINGLE_PING: Byte := 11
  const SINGLE_PONG: Byte := 12
  const IBD_REQ: Byte := 13
  const IBD_RESP: Byte := 14

  datatype Msg = Msg(kind: Byte, payload: seq<Byte>)

  function Encode(m: Msg): (b: seq<Byte>)
    ensures |b| == 5 + |m.payload|
  {
    WordBytes((1 + |m.payload|) % WORD) + [m.kind] + m.payload
  }

  // 4 + len, in 32 bits.
  function FrameSize(buf: seq<Byte>): nat
    requires |buf| >= 4
  {
    (4 + ReadWord(buf)) % WORD
  }

  function Decode(data: seq<Byte>): Result<Msg> {
    if |data| < 5 then Err("too short")
    else if |data| < FrameSize(data) then Err("incomplete")
    else if 4 + ReadWord(data) > |data| || ReadWord(data) < 1 then Err("outside the buffer")
    else Ok(Msg(data[4], data[5..4 + ReadWord(data)]))
  }

  // A message is read back from its frame, whatever bytes follow the frame.
  lemma DecodeEncode(m: Msg, rest: seq<Byte>)
    requires 5 + |m.payload| < WORD
    ensures var buf := Encode(m) + rest;
            FrameSize(buf) == |Encode(m)| && Decode(buf[..FrameSize(buf)]) == Ok(m)
  {
    var n, body := 1 + |m.payload|, [m.kind] + m.payload;
    SmallMod(n);
    SmallMod(4 + n);
    assert Encode(m) == WordBytes(n) + body;
    assert Encode(m) + rest == WordBytes(n) + (body + rest);
    ReadHeader(n, body + rest);
    ReadHeader(n, body);
    assert (Encode(m) + rest)[..4 + n] == Encode(m);
    DecodeFrame(Encode(m), n);
    assert Encode(m)[5..] == m.payload;
  }

  lemma SmallMod(n: nat)
    requires n < WORD
    ensures n % WORD == n
  {
  }

  lemma DecodeFrame(frame: seq<Byte>, n: nat)
    requires |frame| == 4 + n && 1 <= n && 4 + n < WORD && ReadWord(frame) == n
    ensures Decode(frame) == Ok(Msg(frame[4], frame[5..]))
  {
    SmallMod(4 + n);
    assert frame[5..4 + n] == frame[5..];
  }

  // ---- the state machine ---------------------------------------------------------------

  datatype Greeting = Greeting(topBlock: MiniNumber, body: seq<Byte>)

  // Payload codecs and the local tip, as the connection sees them; None is an exception.
  datatype Env = Env(
    greetingFrame: seq<Byte>,
    ibdRequest: Option<seq<Byte>>,
    localHeight: int,
    height: MiniNumber -> int,
    parseGreeting: seq<Byte> -> Option<Greeting>,
    parseIbd: seq<Byte> -> Option<nat>,
    parsePulse: seq<Byte> -> Option<MiniNumber>,
    parseTxPow: seq<Byte> -> bool)

  datatype State = WaitGreeting | WaitIbd | Ready | Closed

  datatype Event =
    | Connected(afterIbd: bool)
    | GreetingRecv(greeting: Greeting)
    | IbdRecv(blocks: nat)
    | TxPowRecv
    | TxPowIdRecv(id: seq<Byte>)
    | PulseRecv(height: MiniNumber)
    | PingRecv
    | MsgUnknown(kind: Byte)
    | ErrorEvent(detail: string)

  // Everything observable about a connection.
  datatype Conn = Conn(state: State, peerTip: MiniNumber, out: seq<Byte>, events: seq<Event>) {
    function Emit(e: Event): Conn {
      this.(events := events + [e])
    }

    function Send(m: Msg): Conn {
      this.(out := out + Encode(m))
    }
  }

  function HandleGreeting(env: Env, c: Conn, m: Msg): Conn {
    if m.kind != GREETING then c.Emit(ErrorEvent("expected GREETING")).(state := Closed)
    else
      match env.parseGreeting(m.payload)
      case None => c.Emit(ErrorEvent("greeting parse error")).(state := Closed)
      case Some(g) =>
        var c' := c.(peerTip := g.topBlock).Emit(GreetingRecv(g));
        if env.height(g.topBlock) > env.localHeight then
          match env.ibdRequest
          case None => c'.Emit(ErrorEvent("greeting parse error")).(state := Closed)
          case Some(req) => c'.Send(Msg(IBD_REQ, req)).(state := WaitIbd)
        else c'.(state := Ready).Emit(Connected(false))
  }

  function HandleReady(env: Env, c: Conn, m: Msg): Conn {
    if m.kind == SINGLE_PING then c.Send(Msg(SINGLE_PONG, [])).Emit(PingRecv)
    else if m.kind == SINGLE_PONG then c
    else if m.kind == PULSE then
      match env.parsePulse(m.payload)
      case None => c
      case Some(bn) => c.(peerTip := bn).Emit(PulseRecv(bn))
    else if m.kind == TXPOWID then c.Emit(TxPowIdRecv(m.payload))
    else if m.kind == TXPOW then
      c.Emit(if env.parseTxPow(m.payload) then TxPowRecv else ErrorEvent("txpow parse"))
    else c.Emit(MsgUnknown(m.kind))
  }

  function HandleIbd(env: Env, c: Conn, m: Msg): Conn {
    if m.kind == IBD || m.kind == IBD_RESP then
      var c' := match env.parseIbd(m.payload)
        case None => c.Emit(ErrorEvent("ibd parse error"))
        case Some(n) => c.Emit(IbdRecv(n));
      c'.(state := Ready).Emit(Connected(true))
    else HandleReady(env, c, m)
  }

  function Handle(env: Env, c: Conn, m: Msg): Conn {
    match c.state
    case WaitGreeting => HandleGreeting(env, c, m)
    case WaitIbd => HandleIbd(env, c, m)
    case Ready => HandleReady(env, c, m)
    case Closed => c
  }

  // ---- the stream ----------------------------------------------------------------------

  datatype Outcome = More | Stopped | Thrown

  datatype Run = Run(conn: Conn, buf: seq<Byte>, outcome: Outcome)

  // Cut frames off the buffer until one is incomplete, unreadable, or closes the connection.
  function Process(env: Env, c: Conn, buf: seq<Byte>): Run
    decreases |buf|
  {
    if |buf| < 5 || |buf| < FrameSize(buf) then Run(c, buf, More)
    else
      match Decode(buf[..FrameSize(buf)])
      case Err(_) => Run(c, buf, Thrown)
      case Ok(m) =>
        var c', rest := Handle(env, c, m), buf[FrameSize(buf)..];
        if c'.state == Closed then Run(c', rest, Stopped) else Process(env, c', rest)
  }

  function Feed(env: Env, c: Conn, buf: seq<Byte>, pieces: seq<seq<Byte>>): Run
    decreases |pieces|
  {
    if pieces == [] then Run(c, buf, More)
    else if |pieces| == 1 then Process(env, c, buf + pieces[0])
    else
      var r := Process(env, c, buf + pieces[0]);
      Feed(env, r.conn, r.buf, pieces[1..])
  }

  function Joined(pieces: seq<seq<Byte>>): seq<Byte> {
    if pieces == [] then [] else pieces[0] + Joined(pieces[1..])
  }

  lemma ClosedStaysClosed(env: Env, c: Conn, buf: seq<Byte>)
    requires c.state == Closed
    ensures Process(env, c, buf).conn == c
  {
  }

  // Bytes that arrive later change neither the frames already cut nor what they did.
  lemma {:induction false} ProcessExtends(env: Env, c: Conn, x: seq<Byte>, y: seq<Byte>)
    ensures var r := Process(env, c, x);
            && (c.state != Closed ==> (r.outcome == Stopped <==> r.conn.state == Closed))
            && (r.outcome == More ==> Process(env, c, x + y) == Process(env, r.conn, r.buf + y))
            && (r.outcome == Stopped ==> r.conn.state == Closed && Process(env, c, x + y) == r.(buf := r.buf + y))
            && (r.outcome == Thrown ==> Process(env, c, x + y) == Process(env, r.conn, r.buf + y) == r.(buf := r.buf + y))
    decreases |x|
  {
    if |x| >= 5 && |x| >= FrameSize(x) {
      var n := FrameSize(x);
      assert (x + y)[..4] == x[..4] && FrameSize(x + y) == n;
      assert (x + y)[..n] == x[..n];
      if Decode(x[..n]).Ok? {
        var c' := Handle(env, c, Decode(x[..n]).value);
        assert (x + y)[n..] == x[n..] + y;
        if c'.state != Closed {
          ProcessExtends(env, c', x[n..], y);
        }
      }
    }
  }

  // Main result: for any split of any stream, even one that closes the connection or makes the decoder
  // throw part way, feeding the pieces leaves the same events, output, state and peer tip as feeding
  // the whole; and the same buffer, ready for the same next frame, unless the connection closed.
  lemma {:induction false} SplitIndependent(env: Env, c: Conn, buf: seq<Byte>, pieces: seq<seq<Byte>>)
    requires pieces != []
    ensures var (whole, split) := (Process(env, c, buf + Joined(pieces)), Feed(env, c, buf, pieces));
            && split.conn == whole.conn
            && (whole.outcome != Stopped && c.state != Closed ==> split == whole)
    decreases |pieces|
  {
    var x, tail := buf + pieces[0], pieces[1..];
    var y := Joined(tail);
    assert buf + Joined(pieces) == x + y;
    if |pieces| == 1 {
      assert tail == [] && x + y == x;
    } else {
      var r := Process(env, c, x);
      assert Feed(env, c, buf, pieces) == Feed(env, r.conn, r.buf, tail);
      ProcessExtends(env, c, x, y);
      SplitIndependent(env, r.conn, r.buf, tail);
      SplitStep(env, c, x, y, Feed(env, r.conn, r.buf, tail));
    }
  }

  lemma SplitStep(env: Env, c: Conn, x: seq<Byte>, y: seq<Byte>, split: Run)
    requires var r := Process(env, c, x);
             var later := Process(env, r.conn, r.buf + y);
             && split.conn == later.conn
             && (later.outcome != Stopped && r.conn.state != Closed ==> split == later)
    ensures var whole := Process(env, c, x + y);
            && split.conn == whole.conn
            && (whole.outcome != Stopped && c.state != Closed ==> split == whole)
  {
    ProcessExtends(env, c, x, y);
    var r := Process(env, c, x);
    match r.outcome
    case More =>
      if c.state == Closed {
        ClosedStaysClosed(env, c, x);
      }
    case Stopped =>
      ClosedStaysClosed(env, r.conn, r.buf + y);
    case Thrown =>
      if c.state == Closed {
        ClosedStaysClosed(env, c, x);
      }
  }

  function Deliver(env: Env, c: Conn, ms: seq<Msg>): Conn
    decreases |ms|
  {
    if ms == [] || c.state == Closed then c else Deliver(env, Handle(env, c, ms[0]), ms[1..])
  }

  function Frames(ms: seq<Msg>): seq<Byte> {
    if ms == [] then [] else Encode(ms[0]) + Frames(ms[1..])
  }

  // A stream of encoded messages is handled as exactly those messages in order.
  lemma {:induction false} FramesAreDelivered(env: Env, c: Conn, ms: seq<Msg>)
    requires forall i :: 0 <= i < |ms| ==> 5 + |ms[i].payload| < WORD
    ensures Process(env, c, Frames(ms)).conn == Deliver(env, c, ms)
    decreases |ms|
  {
    if c.state == Closed {
      ClosedStaysClosed(env, c, Frames(ms));
    } else if ms != [] {
      var rest := Frames(ms[1..]);
      DecodeEncode(ms[0], rest);
      assert (Encode(ms[0]) + rest)[|Encode(ms[0])|..] == rest;
      var c' := Handle(env, c, ms[0]);
      if c'.state != Closed {
        FramesAreDelivered(env, c', ms[1..]);
      }
    }
  }

  // ... however the network splits that stream.
  lemma SplitFramesAreDelivered(env: Env, c: Conn, ms: seq<Msg>, pieces: seq<seq<Byte>>)
    requires forall i :: 0 <= i < |ms| ==> 5 + |ms[i].payload| < WORD
    requires pieces != [] && Joined(pieces) == Frames(ms)
    ensures Feed(env, c, [], pieces).conn == Deliver(env, c, ms)
  {
    SplitIndependent(env, c, [], pieces);
    assert [] + Joined(pieces) == Joined(pieces);
    FramesAreDelivered(env, c, ms);
  }

  // ---- what every run of the handshake keeps -------------------------------------------

  function CountConnected(es: seq<Event>): nat {
    if es == [] then 0 else CountConnected(es[..|es| - 1]) + if es[|es| - 1].Connected? then 1 else 0
  }

  function CountPings(es: seq<Event>): nat {
    if es == [] then 0 else CountPings(es[..|es| - 1]) + if es[|es| - 1].PingRecv? then 1 else 0
  }

  function Pongs(n: nat): seq<Byte> {
    if n == 0 then [] else Pongs(n - 1) + Encode(Msg(SINGLE_PONG, []))
  }

  function Fresh(env: Env): Conn {
    Conn(WaitGreeting, MiniNumber(BigInts.BigInt([255]), 0), env.greetingFrame, [])
  }

  // Whether this run asked for the initial blocks: the greeting showed a higher tip.
  predicate Asked(env: Env, es: seq<Event>) {
    && |es| > 0 && es[0].GreetingRecv? && env.ibdRequest.Some?
    && env.height(es[0].greeting.topBlock) > env.localHeight
  }

  // The bytes sent are our greeting, then one request if the peer was ahead, then one pong per ping;
  // the handshake completes once, and only a connection still waiting for a greeting can close.
  ghost predicate HandshakeInvariant(env: Env, c: Conn) {
    && (c.state == WaitGreeting ==> c.events == [])
    && (c.state == WaitIbd || c.state == Ready ==> |c.events| > 0 && c.events[0].GreetingRecv?)
    && (c.state == WaitIbd ==> Asked(env, c.events))
    && CountConnected(c.events) == (if c.state == Ready then 1 else 0)
    && c.out == env.greetingFrame
              + (if Asked(env, c.events) then Encode(Msg(IBD_REQ, env.ibdRequest.value)) else [])
              + Pongs(CountPings(c.events))
    && (c.state == Closed ==> CountPings(c.events) == 0 && !Asked(env, c.events))
  }

  lemma EmitCounts(c: Conn, e: Event)
    ensures CountConnected(c.Emit(e).events) == CountConnected(c.events) + if e.Connected? then 1 else 0
    ensures CountPings(c.Emit(e).events) == CountPings(c.events) + if e.PingRecv? then 1 else 0
    ensures c.events != [] ==> c.Emit(e).events[0] == c.events[0]
  {
    assert (c.events + [e])[..|c.events|] == c.events;
  }

  lemma NotedKeepsInvariant(env: Env, c: Conn, tip: MiniNumber, e: Event)
    requires HandshakeInvariant(env, c) && (c.state == WaitIbd || c.state == Ready)
    requires !e.Connected? && !e.PingRecv?
    ensures HandshakeInvariant(env, c.(peerTip := tip).Emit(e))
  {
    EmitCounts(c.(peerTip := tip), e);
  }

  lemma PingKeepsInvariant(env: Env, c: Conn)
    requires HandshakeInvariant(env, c) && (c.state == WaitIbd || c.state == Ready)
    ensures HandshakeInvariant(env, c.Send(Msg(SINGLE_PONG, [])).Emit(PingRecv))
  {
    EmitCounts(c.Send(Msg(SINGLE_PONG, [])), PingRecv);
    var n := CountPings(c.events);
    assert Pongs(n + 1) == Pongs(n) + Encode(Msg(SINGLE_PONG, []));
  }

  lemma ReadyKeepsInvariant(env: Env, c: Conn, m: Msg)
    requires HandshakeInvariant(env, c) && (c.state == WaitIbd || c.state == Ready)
    ensures HandshakeInvariant(env, HandleReady(env, c, m)) && HandleReady(env, c, m).state == c.state
  {
    if m.kind == SINGLE_PING {
      PingKeepsInvariant(env, c);
    } else if m.kind == PULSE {
      if env.parsePulse(m.payload).Some? {
        var bn := env.parsePulse(m.payload).value;
        NotedKeepsInvariant(env, c, bn, PulseRecv(bn));
      }
    } else if m.kind == TXPOWID {
      NotedKeepsInvariant(env, c, c.peerTip, TxPowIdRecv(m.payload));
    } else if m.kind == TXPOW {
      NotedKeepsInvariant(env, c, c.peerTip, TxPowRecv);
      NotedKeepsInvariant(env, c, c.peerTip, ErrorEvent("txpow parse"));
    } else if m.kind != SINGLE_PONG {
      NotedKeepsInvariant(env, c, c.peerTip, MsgUnknown(m.kind));
    }
  }

  lemma HandleKeepsInvariant(env: Env, c: Conn, m: Msg)
    requires HandshakeInvariant(env, c)
    ensures HandshakeInvariant(env, Handle(env, c, m))
    ensures Handle(env, c, m).state == Closed ==> c.state == Closed || c.state == WaitGreeting
  {
    match c.state
    case Closed =>
    case Ready =>
      ReadyKeepsInvariant(env, c, m);
    case WaitIbd =>
      if m.kind == IBD || m.kind == IBD_RESP {
        var e := match env.parseIbd(m.payload)
          case None => ErrorEvent("ibd parse error")
          case Some(n) => IbdRecv(n);
        EmitCounts(c, e);
        EmitCounts(c.Emit(e).(state := Ready), Connected(true));
      } else {
        ReadyKeepsInvariant(env, c, m);
      }
    case WaitGreeting =>
      GreetingKeepsInvariant(env, c, m);
  }

  lemma GreetingKeepsInvariant(env: Env, c: Conn, m: Msg)
    requires HandshakeInvariant(env, c) && c.state == WaitGreeting
    ensures HandshakeInvariant(env, HandleGreeting(env, c, m))
  {
    assert c.events == [] && c.out == env.greetingFrame by {
      assert c.out == env.greetingFrame + [] + Pongs(0);
    }
    CountSingle(ErrorEvent("expected GREETING"));
    CountSingle(ErrorEvent("greeting parse error"));
    if m.kind == GREETING && env.parseGreeting(m.payload).Some? {
      GreetingAccepted(env, c, env.parseGreeting(m.payload).value, m);
    } else {
      assert HandleGreeting(env, c, m).out == env.greetingFrame + [] + Pongs(0);
    }
  }

  lemma CountSingle(e: Event)
    ensures CountConnected([e]) == (if e.Connected? then 1 else 0)
    ensures CountPings([e]) == (if e.PingRecv? then 1 else 0)
  {
    assert [e][..0] == [];
  }

  lemma CountPair(e: Event, f: Event)
    requires !e.Connected? && !e.PingRecv? && !f.PingRecv?
    ensures CountConnected([e, f]) == (if f.Connected? then 1 else 0) && CountPings([e, f]) == 0
  {
    CountSingle(e);
    assert [e, f][..1] == [e];
  }

  lemma GreetingAccepted(env: Env, c: Conn, g: Greeting, m: Msg)
    requires c.state == WaitGreeting && c.events == [] && c.out == env.greetingFrame
    requires m.kind == GREETING && env.parseGreeting(m.payload) == Some(g)
    ensures HandshakeInvariant(env, HandleGreeting(env, c, m))
  {
    var c' := HandleGreeting(env, c, m);
    if env.height(g.topBlock) <= env.localHeight {
      GreetingLeads(env, c', g, [Connected(false)]);
    } else if env.ibdRequest.None? {
      GreetingLeads(env, c', g, [ErrorEvent("greeting parse error")]);
    } else {
      GreetingLeads(env, c', g, []);
    }
  }

  // The three ways on from a greeting: ready, closed, or waiting with the request sent.
  lemma GreetingLeads(env: Env, c: Conn, g: Greeting, next: seq<Event>)
    requires c.events == [GreetingRecv(g)] + next
    requires next == [] || (|next| == 1 && !next[0].GreetingRecv? && !next[0].PingRecv?)
    requires c.state == if next == [] then WaitIbd else if next[0].Connected? then Ready else Closed
    requires Asked(env, c.events) <==> next == []
    requires c.out == env.greetingFrame + if next == [] then Encode(Msg(IBD_REQ, env.ibdRequest.value)) else []
    ensures HandshakeInvariant(env, c)
  {
    CountSingle(GreetingRecv(g));
    if next == [] {
      assert c.events == [GreetingRecv(g)];
    } else {
      assert c.events == [GreetingRecv(g), next[0]];
      CountPair(GreetingRecv(g), next[0]);
    }
    assert Pongs(0) == [];
    assert c.out + [] == c.out;
  }

  // Over every run from a fresh connection, whatever bytes arrive.
  lemma {:induction false} ProcessKeepsInvariant(env: Env, c: Conn, buf: seq<Byte>)
    requires HandshakeInvariant(env, c)
    ensures HandshakeInvariant(env, Process(env, c, buf).conn)
    decreases |buf|
  {
    if |buf| >= 5 && |buf| >= FrameSize(buf) && Decode(buf[..FrameSize(buf)]).Ok? {
      var m := Decode(buf[..FrameSize(buf)]).value;
      HandleKeepsInvariant(env, c, m);
      ProcessKeepsInvariant(env, Handle(env, c, m), buf[FrameSize(buf)..]);
    }
  }

  lemma EveryRunShakesHands(env: Env, pieces: seq<seq<Byte>>)
    requires pieces != []
    ensures HandshakeInvariant(env, Feed(env, Fresh(env), [], pieces).conn)
  {
    SplitIndependent(env, Fresh(env), [], pieces);
    ProcessKeepsInvariant(env, Fresh(env), [] + Joined(pieces));
  }

  // ---- the class -----------------------------------------------------------------------

  class ProtocolConnection {
    const env: Env
    var state: State
    var peerTip: MiniNumber
    var outBuffer: seq<Byte>
    var events: seq<Event>  // what the callback has been given
    var recvBuf: seq<Byte>

    ghost function Observed(): Conn
      reads this
    {
      Conn(state, peerTip, outBuffer, events)
    }

    constructor (env: Env)
      ensures this.env == env && Observed() == Fresh(env) && recvBuf == []
    {
      this.env := env;
      state := WaitGreeting;
      peerTip := MiniNumber(BigInts.BigInt([255]), 0);
      outBuffer := env.greetingFrame;
      events, recvBuf := [], [];
    }

    method Emit(e: Event)
      modifies this`events
      ensures events == old(events) + [e]
    {
      events := events + [e];
    }

    method Enqueue(m: Msg)
      modifies this`outBuffer
      ensures outBuffer == old(outBuffer) + Encode(m)
    {
      outBuffer := outBuffer + Encode(m);
    }

    method Receive(bytes: seq<Byte>) returns (outcome: Outcome)
      modifies this
      ensures Run(Observed(), recvBuf, outcome) == Process(env, old(Observed()), old(recvBuf) + bytes)
    {
      recvBuf := recvBuf + bytes;
      outcome := ProcessRecvBuf();
    }

    method ProcessRecvBuf() returns (outcome: Outcome)
      modifies this
      ensures Run(Observed(), recvBuf, outcome) == Process(env, old(Observed()), old(recvBuf))
    {
      while |recvBuf| >= 5
        invariant Process(env, Observed(), recvBuf) == Process(env, old(Observed()), old(recvBuf))
        decreases |recvBuf|
      {
        var size := FrameSize(recvBuf);
        if |recvBuf| < size {
          break;
        }
        var msg := Decode(recvBuf[..size]);
        if msg.Err? {
          return Thrown;
        }
        recvBuf := recvBuf[size..];
        var open := Dispatch(msg.value);
        if !open {
          return Stopped;
        }
      }
      outcome := More;
    }

    method Dispatch(m: Msg) returns (open: bool)
      modifies this`state, this`peerTip, this`outBuffer, this`events
      ensures Observed() == Handle(env, old(Observed()), m)
      ensures open <==> state != Closed
    {
      match state
      case WaitGreeting =>
        open := HandleHandshakeGreeting(m);
      case WaitIbd =>
        HandleHandshakeIbd(m);
        open := true;
      case Ready =>
        HandleWhenReady(m);
        open := true;
      case Closed =>
        open := false;
    }

    method HandleHandshakeGreeting(m: Msg) returns (open: bool)
      requires state == WaitGreeting
      modifies this`state, this`peerTip, this`outBuffer, this`events
      ensures Observed() == HandleGreeting(env, old(Observed()), m)
      ensures open <==> state != Closed
    {
      if m.kind != GREETING {
        Emit(ErrorEvent("expected GREETING"));
        state := Closed;
        return false;
      }
      var g := env.parseGreeting(m.payload);
      if g.None? {
        Emit(ErrorEvent("greeting parse error"));
        state := Closed;
        return false;
      }
      peerTip := g.value.topBlock;
      Emit(GreetingRecv(g.value));
      if env.height(peerTip) > env.localHeight {
        if env.ibdRequest.None? {
          Emit(ErrorEvent("greeting parse error"));
          state := Closed;
          return false;
        }
        Enqueue(Msg(IBD_REQ, env.ibdRequest.value));
        state := WaitIbd;
      } else {
        state := Ready;
        Emit(Connected(false));
      }
      open := true;
    }

    method HandleHandshakeIbd(m: Msg)
      requires state == WaitIbd
      modifies this`state, this`peerTip, this`outBuffer, this`events
      ensures Observed() == HandleIbd(env, old(Observed()), m)
      ensures state != Closed
    {
      if m.kind == IBD || m.kind == IBD_RESP {
        var ibd := env.parseIbd(m.payload);
        if ibd.Some? {
          Emit(IbdRecv(ibd.value));
        } else {
          Emit(ErrorEvent("ibd parse error"));
        }
        state := Ready;
        Emit(Connected(true));
      } else {
        HandleWhenReady(m);
      }
    }

    method HandleWhenReady(m: Msg)
      modifies this`peerTip, this`outBuffer, this`events
      ensures Observed() == HandleReady(env, old(Observed()), m)
    {
      if m.kind == SINGLE_PING {
        Enqueue(Msg(SINGLE_PONG, []));
        Emit(PingRecv);
      } else if m.kind == SINGLE_PONG {
      } else if m.kind == PULSE {
        var bn := env.parsePulse(m.payload);
        if bn.Some? {
          peerTip := bn.value;
          Emit(PulseRecv(bn.value));
        }
      } else if m.kind == TXPOWID {
        Emit(TxPowIdRecv(m.payload));
      } else if m.kind == TXPOW {
        if env.parseTxPow(m.payload) {
          Emit(TxPowRecv);
        } else {
          Emit(ErrorEvent("txpow parse"));
        }
      } else {
        Emit(MsgUnknown(m.kind));
      }
    }
  }
}
