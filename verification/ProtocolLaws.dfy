/** What a connection tells its owner and its peer, over whole sequences of messages and by the numbers on the
    wire. */
module ProtocolLaws {
  import opened Bytes
  import opened Magnitudes
  import opened MiniNumbers
  import opened Protocol

  // A frame: four bytes that count what follows them, most significant first, the message's number, its payload.
  lemma FrameLayout(m: Msg)
    requires 1 + |m.payload| < WORD
    ensures Val(Encode(m)[..4]) == 1 + |m.payload| && Encode(m)[4] == m.kind && Encode(m)[5..] == m.payload
  {
    var n := 1 + |m.payload|;
    SmallMod(n);
    WordIsBigEndian(n);
    Headed(WordBytes(n), m.kind, m.payload);
  }

  lemma Headed(head: seq<Byte>, kind: Byte, payload: seq<Byte>)
    requires |head| == 4
    ensures var b := head + [kind] + payload; b[..4] == head && b[4] == kind && b[5..] == payload
  {
  }

  function Pongs(n: nat): seq<Byte> {
    if n == 0 then [] else Pongs(n - 1) + [0, 0, 0, 1, 12]
  }

  // What the owner hears of one message to a connection that has shaken hands.
  function Heard(env: Env, m: Msg): seq<Event> {
    match m.kind
    case 2 => [TxPowIdRecv(m.payload)]
    case 4 => [if env.parseTxPow(m.payload) then TxPowRecv else ErrorEvent("txpow parse")]
    case 6 => if env.parsePulse(m.payload).Some? then [PulseRecv(env.parsePulse(m.payload).value)] else []
    case 11 => [PingRecv]
    case 12 => []
    case _ => [MsgUnknown(m.kind)]
  }

  function AllHeard(env: Env, ms: seq<Msg>): seq<Event> {
    if ms == [] then [] else AllHeard(env, ms[..|ms| - 1]) + Heard(env, ms[|ms| - 1])
  }

  function Pings(ms: seq<Msg>): nat {
    if ms == [] then 0 else Pings(ms[..|ms| - 1]) + if ms[|ms| - 1].kind == 11 then 1 else 0
  }

  // The height of the last readable pulse.
  function LastPulse(env: Env, tip: MiniNumber, ms: seq<Msg>): MiniNumber {
    if ms == [] then tip
    else
      var last := ms[|ms| - 1];
      if last.kind == 6 && env.parsePulse(last.payload).Some? then env.parsePulse(last.payload).value
      else LastPulse(env, tip, ms[..|ms| - 1])
  }

  // After these messages: everything heard in order, one pong per ping, the peer's tip that of the last pulse.
  ghost predicate Chatted(env: Env, before: Conn, after: Conn, ms: seq<Msg>) {
    && after.state == before.state && after.events == before.events + AllHeard(env, ms)
    && after.out == before.out + Pongs(Pings(ms)) && after.peerTip == LastPulse(env, before.peerTip, ms)
  }

  lemma PongFrame()
    ensures Encode(Msg(12, [])) == [0, 0, 0, 1, 12]
  {
    assert WordBytes(1) == [0, 0, 0, 1];
  }

  lemma {:induction false} DeliverSnoc(env: Env, c: Conn, ms: seq<Msg>, m: Msg)
    ensures var d := Deliver(env, c, ms); Deliver(env, c, ms + [m]) == if d.state == Closed then d else Handle(env, d, m)
    decreases |ms|
  {
    if ms == [] {
      assert ms + [m] == [m] && [m][1..] == [];
    } else if c.state != Closed {
      assert (ms + [m])[0] == ms[0] && (ms + [m])[1..] == ms[1..] + [m];
      DeliverSnoc(env, Handle(env, c, ms[0]), ms[1..], m);
    }
  }

  // A connection that is ready chats for as long as it lasts; one that waits for chain data, until that comes.
  lemma {:induction false} ReadyChats(env: Env, c: Conn, ms: seq<Msg>)
    requires c.state == Ready || (c.state == WaitIbd && forall m | m in ms :: m.kind != 1 && m.kind != 14)
    ensures Chatted(env, c, Deliver(env, c, ms), ms)
  {
    if ms != [] {
      var init, last := ms[..|ms| - 1], ms[|ms| - 1];
      assert ms == init + [last];
      ReadyChats(env, c, init);
      DeliverSnoc(env, c, init, last);
      OneChat(env, c, Deliver(env, c, init), ms);
    }
  }

  lemma OneChat(env: Env, c: Conn, d: Conn, ms: seq<Msg>)
    requires ms != [] && Chatted(env, c, d, ms[..|ms| - 1])
    requires c.state == Ready || (c.state == WaitIbd && ms[|ms| - 1].kind != 1 && ms[|ms| - 1].kind != 14)
    ensures Chatted(env, c, Handle(env, d, ms[|ms| - 1]), ms)
  {
    var last := ms[|ms| - 1];
    PongFrame();
    assert Handle(env, d, last) == HandleReady(env, d, last);
    if last.kind == 11 {
      var n := Pings(ms[..|ms| - 1]);
      assert c.out + Pongs(n) + [0, 0, 0, 1, 12] == c.out + Pongs(n + 1);
    }
  }

  // Chain data, by either of its numbers and readable or not, completes the handshake.
  lemma ChainDataCompletes(env: Env, c: Conn, ms: seq<Msg>, m: Msg)
    requires c.state == WaitIbd && (m.kind == 1 || m.kind == 14) && forall x | x in ms :: x.kind != 1 && x.kind != 14
    ensures var (d, e) := (Deliver(env, c, ms), Deliver(env, c, ms + [m]));
            && Chatted(env, c, d, ms) && e.state == Ready && e.out == d.out && e.peerTip == d.peerTip
            && e.events == d.events + [if env.parseIbd(m.payload).Some? then IbdRecv(env.parseIbd(m.payload).value)
                                       else ErrorEvent("ibd parse error"), Connected(true)]
  {
    ReadyChats(env, c, ms);
    DeliverSnoc(env, c, ms, m);
  }

  // A fresh connection closes on anything but a readable greeting, asks a peer that is ahead for its chain with
  // message 13, and is ready at once with any other.
  lemma GreetingDecides(env: Env, c: Conn, m: Msg)
    requires c.state == WaitGreeting
    ensures var (d, g) := (Handle(env, c, m), env.parseGreeting(m.payload));
            if m.kind != 0 || g.None? then d.state == Closed && |d.events| == |c.events| + 1 && d.out == c.out
            else
              && d.peerTip == g.value.topBlock && |d.events| > |c.events| && d.events[|c.events|] == GreetingRecv(g.value)
              && (env.height(g.value.topBlock) <= env.localHeight ==>
                    d.state == Ready && d.events == c.events + [GreetingRecv(g.value), Connected(false)] && d.out == c.out)
              && (env.height(g.value.topBlock) > env.localHeight && env.ibdRequest.Some? ==>
                    d.state == WaitIbd && d.events == c.events + [GreetingRecv(g.value)]
                    && d.out == c.out + Encode(Msg(13, env.ibdRequest.value)))
              && (env.height(g.value.topBlock) > env.localHeight && env.ibdRequest.None? ==> d.state == Closed && d.out == c.out)
  {
  }
}
