// The Commander state machine as functions on a record of its state: one
// function per operation of Commander.cpp, each giving the state after the
// call (and the boolean the call returns). The radio, random() and millis()
// enter as an Env of value streams, read through counters in the record.

module Machine {
  import opened CString
  import opened Types
  import opened Frames

  /** What recv() delivers: a string with a terminator within BUFFER_SIZE + 1
      characters, so strcpy into _buffer stays inside it. */
  type Payload = s: seq<char> | NUL in s && CStrLen(s) <= BufferSize witness [NUL]

  /** What one query of the radio yields: nothing within the wait (or no packet
      available right now), a packet that recv() failed to fetch, or the bytes
      recv() delivered. */
  datatype Event = Silence | RecvFailed | Packet(bytes: Payload)

  /** What the radio, random(0, 62) and millis() return, the k-th call
      giving the k-th value. */
  datatype Env = Env(radio: nat -> Event, random: nat -> Index62, millis: nat -> uint32)

  /** The three character buffers of a Commander object. */
  datatype Mem = Mem(
    buffer: seq<char>,        // _buffer
    msg: seq<char>,           // msg
    msgRand: seq<char>)       // msg_rand

  /** What the object exchanges with its surroundings. */
  datatype Io = Io(
    sent: seq<seq<char>>,     // frames transmitted, in order
    trace: seq<Status>)       // statuses passed to the callback, in order

  /** The state of one Commander object together with the part of its
      surroundings that it observes or affects. */
  datatype St = St(
    net: seq<char>,           // _network_id
    board: char,              // _board_id[0]
    callback: bool,           // _status_callback != NULL
    mem: Mem,                 // _buffer, msg and msg_rand
    msgLength: uint8,         // msg_length
    lastSend: uint32,         // _last_send
    io: Io,                   // transmitted frames and callback trace
    heard: nat,               // queries of the radio so far
    draws: nat,               // calls of random() so far
    ticks: nat)               // calls of millis() so far

  /** The invariant of the state: buffer capacities and a terminated _buffer. */
  predicate Good(st: St)
  {
    NetworkId(st.net) &&
    |st.mem.buffer| == BufferSize + 1 && st.mem.buffer[BufferSize] == NUL &&
    st.msgLength <= BufferSize &&
    |st.mem.msg| == BufferSize + 1 && |st.mem.msgRand| == RandSize
  }

  /** Identity and callback registration, which no protocol operation changes. */
  predicate SameConfig(a: St, b: St)
  {
    a.net == b.net && a.board == b.board && a.callback == b.callback
  }

  /** b is a later state than a in which nothing was transmitted and msg,
      _last_send, random() and millis() were not touched: what an ack check
      and the radio queries of an ack wait leave alone. */
  predicate Unsent(a: St, b: St)
  {
    b.io.sent == a.io.sent && b.mem.msg == a.mem.msg &&
    b.lastSend == a.lastSend && b.draws == a.draws && b.ticks == a.ticks
  }

  /** _status_change: the callback sees s only when one is registered. */
  function StatusChange(st: St, s: Status): (r: St)
    ensures r.io.trace == if st.callback then st.io.trace + [s] else st.io.trace
    ensures r == st.(io := st.io.(trace := r.io.trace))
  {
    if st.callback then st.(io := st.io.(trace := st.io.trace + [s])) else st
  }

  /** _cleanup: memset of _buffer. */
  function Cleanup(st: St): (r: St)
    requires Good(st)
    ensures Good(r) && r == st.(mem := r.mem)
    ensures r.mem == st.mem.(buffer := Zeros(BufferSize + 1))
  {
    st.(mem := st.mem.(buffer := Zeros(BufferSize + 1)))
  }

  /** rf95.send + waitPacketSent: the frame goes on the air. */
  function Transmit(st: St, frame: seq<char>): (r: St)
    ensures r.io.sent == st.io.sent + [frame]
    ensures r == st.(io := st.io.(sent := r.io.sent))
  {
    st.(io := st.io.(sent := st.io.sent + [frame]))
  }

  /** One query of the radio: the next event of the radio stream. A radio that
      stays quiet is a stream that is Silence from some index on. */
  function Listen(env: Env, st: St): (r: (Event, St))
    requires Good(st)
    ensures Good(r.1) && r.1 == st.(heard := st.heard + 1)
    ensures r.0 == env.radio(st.heard)
  {
    (env.radio(st.heard), st.(heard := st.heard + 1))
  }

  /** strcpy of a received packet into _buffer (Commander.cpp lines 169 and 207). */
  function CopyIn(st: St, p: Payload): (r: St)
    requires Good(st)
    ensures Good(r)
  {
    var r := st.(mem := st.mem.(buffer := StrCpy(st.mem.buffer, p)));
    assert r.mem.buffer[BufferSize] == NUL by {
      if CStrLen(p) < BufferSize {
        assert r.mem.buffer[CStrLen(p) + 1..][BufferSize - CStrLen(p) - 1] == st.mem.buffer[BufferSize];
      }
    }
    r
  }

  /** The three nonce characters alphanumeric[random(0, 62)] drawn from the k-th call on. */
  function NonceAt(env: Env, k: nat): (nonce: seq<char>)
    ensures |nonce| == 3
  {
    [Alpha(env.random(k)), Alpha(env.random(k + 1)), Alpha(env.random(k + 2))]
  }

  /** _process_input(true): the filter in ack-check mode; on acceptance the
      three characters before the terminator become msg_rand. */
  function AckCheck(st: St): (res: (St, bool))
    requires Good(st)
    ensures Good(res.0) && SameConfig(st, res.0) && Unsent(st, res.0) && res.0.heard == st.heard
    ensures res.1 == (Filter(st.mem.buffer, st.net, st.board, true) == Accepted)
    ensures res.0.msgLength == CStrLen(st.mem.buffer) && res.0.mem.buffer == Zeros(BufferSize + 1)
    ensures res.0.io.trace == st.io.trace + (if res.1 && st.callback then [Ok] else [])
    ensures res.1 ==> var n := CStrLen(st.mem.buffer); res.0.mem.msgRand == st.mem.buffer[n - 3..n] + [NUL]
    ensures !res.1 ==> res.0.mem.msgRand == st.mem.msgRand
  {
    var n := CStrLen(st.mem.buffer);
    var s1 := st.(msgLength := n);
    if Filter(st.mem.buffer, st.net, st.board, true) != Accepted then (Cleanup(s1), false)
    else
      var tail := st.mem.buffer[n - 3..];
      StrNCopyPlain(tail, 3);
      var s2 := s1.(mem := s1.mem.(msgRand := StrNCopy(tail, 3) + [NUL]));
      (Cleanup(StatusChange(s2, Ok)), true)
  }

  /** The three comparisons of msg_rand with the nonce in the retry loop of _send. */
  predicate NonceMatches(rand: seq<char>, nonce: seq<char>)
    requires |rand| >= 3 && |nonce| == 3
    ensures NonceMatches(rand, nonce) <==> rand[..3] == nonce
  {
    rand[0] == nonce[0] && rand[1] == nonce[1] && rand[2] == nonce[2]
  }

  /** One pass of the retry loop of _send: AWAITING_RESPONSE before the second
      wait, one query of the radio, and for a packet the ack check; true when
      the ack is accepted and msg_rand equals the nonce. */
  function AckAttempt(env: Env, st: St, nonce: seq<char>, retries: nat): (res: (St, bool))
    requires Good(st) && |nonce| == 3
    ensures Good(res.0) && SameConfig(st, res.0) && Unsent(st, res.0)
    ensures res.0.heard == st.heard + 1
    ensures res.1 ==> NonceMatches(res.0.mem.msgRand, nonce)
  {
    var s1 := if retries == 1 then StatusChange(st, AwaitingResponse) else st;
    var heard := Listen(env, s1);
    if heard.0.Packet? then
      var check := AckCheck(CopyIn(heard.1, heard.0.bytes));
      (check.0, check.1 && NonceMatches(check.0.mem.msgRand, nonce))
    else (heard.1, false)
  }

  /** The retry loop of _send: passes from the retries-th on until one
      matches or _max_retries have been made; returns the state and had_reply. */
  function AckWait(env: Env, st: St, nonce: seq<char>, retries: nat): (res: (St, bool))
    requires Good(st) && |nonce| == 3 && retries <= MaxRetries
    ensures Good(res.0) && SameConfig(st, res.0) && Unsent(st, res.0)
    ensures res.1 ==> NonceMatches(res.0.mem.msgRand, nonce) && st.heard < res.0.heard <= st.heard + (MaxRetries - retries)
    ensures !res.1 ==> res.0.heard == st.heard + (MaxRetries - retries)
    decreases MaxRetries - retries, st.heard
  {
    if retries == MaxRetries then (st, false)
    else
      var (s1, matched) := AckAttempt(env, st, nonce, retries);
      if matched then (s1, true) else AckWait(env, s1, nonce, retries + 1)
  }

  /** The ack branch of _send: the ack frame is transmitted and OK reported;
      _last_send is left alone. */
  function SendAck(st: St, m: seq<char>, target: char, len: uint8): (r: St)
    requires Good(st) && Readable(m, len) && len <= 125
    ensures Good(r) && r == st.(io := r.io)
    ensures r.io.sent == st.io.sent + [AckFrame(st.net, target, m, len)]
    ensures r.io.trace == st.io.trace + (if st.callback then [Ok] else [])
  {
    StatusChange(Transmit(st, AckFrame(st.net, target, m, len)), Ok)
  }

  /** Lines 132-145 of _send: a data frame with a nonce of three fresh draws
      of random() goes on the air. */
  function EmitData(env: Env, st: St, m: seq<char>, target: char, len: uint8): (r: St)
    requires Good(st) && Readable(m, len) && len <= 121
    ensures Good(r) && SameConfig(st, r)
  {
    Transmit(st, DataFrame(st.net, target, m, len, NonceAt(env, st.draws))).(draws := st.draws + 3)
  }

  /** Lines 189-199 of _send: NO_RESPONSE when a reply was asked for and none
      came, OK otherwise; then _last_send takes a reading of millis(). */
  function SettleData(env: Env, wait: (St, bool), doRetry: bool): (r: St)
    requires Good(wait.0)
    ensures Good(r) && SameConfig(wait.0, r)
  {
    var s := StatusChange(wait.0, if doRetry && !wait.1 then NoResponse else Ok);
    s.(lastSend := env.millis(s.ticks), ticks := s.ticks + 1)
  }

  /** The data branch of _send: the data frame, followed, when do_retry, by
      the ack wait for its nonce; then the final status and the keep-alive timer. */
  function SendData(env: Env, st: St, m: seq<char>, target: char, len: uint8, doRetry: bool): (r: St)
    requires Good(st) && Readable(m, len) && len <= 121
    ensures Good(r) && SameConfig(st, r)
  {
    var s1 := EmitData(env, st, m, target, len);
    SettleData(env, if doRetry then AckWait(env, s1, NonceAt(env, st.draws), 0) else (s1, false), doRetry)
  }

  /** _send with five arguments. */
  function Send(env: Env, st: St, m: seq<char>, target: char, len: uint8, doRetry: bool, isAck: bool): (r: St)
    requires Good(st) && Readable(m, len) && (if isAck then len <= 125 else len <= 121)
    ensures Good(r) && SameConfig(st, r)
  {
    if isAck then SendAck(st, m, target, len) else SendData(env, st, m, target, len, doRetry)
  }

  /** _send with four arguments: to this board, with do_retry and is_ack
      passed on in each other's places. */
  function SendOwn(env: Env, st: St, m: seq<char>, len: uint8, doRetry: bool, isAck: bool): (r: St)
    requires Good(st) && Readable(m, len) && (if doRetry then len <= 125 else len <= 121)
    ensures Good(r) && SameConfig(st, r)
  {
    Send(env, st, m, st.board, len, isAck, doRetry)
  }

  /** Lines 259-262 of _process_input: RECEIVING, then the acknowledgement of
      the last three characters of the frame. */
  function AutoAck(env: Env, st: St): (r: St)
    requires Good(st) && 5 <= st.msgLength
    ensures Good(r) && SameConfig(st, r)
  {
    SendOwn(env, StatusChange(st, Receiving), st.mem.buffer[st.msgLength - 3..], 4, false, true)
  }

  /** The strncpy at line 268 has a count of msg_length - 8, so it is defined
      only if msg_length is at least 8 once the acknowledgement has been sent. */
  predicate ReceiveDefined(env: Env, st: St)
    requires Good(st)
  {
    Filter(st.mem.buffer, st.net, st.board, false) == Accepted ==>
      AutoAck(env, st.(msgLength := CStrLen(st.mem.buffer))).msgLength >= 8
  }

  /** Lines 265-268: msg is cleared, then receives msg_length - 8 characters
      by strncpy from index 4 of _buffer. */
  function StoreMessage(st: St): (r: St)
    requires Good(st) && 8 <= st.msgLength
    ensures Good(r) && r == st.(mem := st.mem.(msg := r.mem.msg))
  {
    var k := st.msgLength - 8;
    st.(mem := st.mem.(msg := StrNCopy(st.mem.buffer[4..], k) + Zeros(BufferSize + 1 - k)))
  }

  /** _process_input(false): the filter of a normal receive; on acceptance the
      acknowledgement, then msg from index 4 of whatever _buffer holds by then. */
  function ReceiveData(env: Env, st: St): (res: (St, bool))
    requires Good(st) && ReceiveDefined(env, st)
    ensures Good(res.0) && SameConfig(st, res.0)
  {
    var n := CStrLen(st.mem.buffer);
    var s1 := st.(msgLength := n);
    if Filter(st.mem.buffer, st.net, st.board, false) != Accepted then (Cleanup(s1), false)
    else
      var s2 := AutoAck(env, s1);
      (Cleanup(StatusChange(StoreMessage(s2), Ok)), true)
  }

  /** _process_input with its mode flag. */
  function ProcessInput(env: Env, st: St, isAckCheck: bool): (res: (St, bool))
    requires Good(st) && (isAckCheck || ReceiveDefined(env, st))
    ensures Good(res.0) && SameConfig(st, res.0)
  {
    if isAckCheck then AckCheck(st) else ReceiveData(env, st)
  }

  /** A frame the filter drops leaves only msg_length set and _buffer zeroed,
      and reports false, in either mode. */
  lemma {:induction false} ProcessInputRejects(env: Env, st: St, isAckCheck: bool)
    requires Good(st) && (isAckCheck || ReceiveDefined(env, st))
    requires Filter(st.mem.buffer, st.net, st.board, isAckCheck) != Accepted
    ensures isAckCheck ==> AckCheck(st) == (Cleanup(st.(msgLength := CStrLen(st.mem.buffer))), false)
    ensures !isAckCheck ==> ReceiveData(env, st) == (Cleanup(st.(msgLength := CStrLen(st.mem.buffer))), false)
  {
  }

  /** An accepted ack sets msg_length and msg_rand, reports OK, zeroes _buffer
      and returns true; msg and everything else are untouched. */
  lemma {:induction false} AckCheckAccepts(st: St)
    requires Good(st) && Filter(st.mem.buffer, st.net, st.board, true) == Accepted
    ensures var n := CStrLen(st.mem.buffer);
      AckCheck(st) == (Cleanup(StatusChange(st.(msgLength := n, mem := st.mem.(msgRand := StrNCopy(st.mem.buffer[n - 3..], 3) + [NUL])), Ok)), true)
  {
  }

  /** An accepted data frame is acknowledged, then stored in msg. */
  lemma {:induction false} ReceiveDataAccepts(env: Env, st: St)
    requires Good(st) && ReceiveDefined(env, st) && Filter(st.mem.buffer, st.net, st.board, false) == Accepted
    ensures AutoAck(env, st.(msgLength := CStrLen(st.mem.buffer))).msgLength >= 8
    ensures ReceiveData(env, st) == (Cleanup(StatusChange(StoreMessage(AutoAck(env, st.(msgLength := CStrLen(st.mem.buffer)))), Ok)), true)
  {
  }

  /** _read: strcpy of the packet into _buffer, then a normal receive. */
  function Read(env: Env, st: St, p: Payload): (res: (St, bool))
    requires Good(st)
    requires ReceiveDefined(env, CopyIn(st, p))
    ensures Good(res.0) && SameConfig(st, res.0)
  {
    ProcessInput(env, CopyIn(st, p), false)
  }

  /** available() is defined unless the packet it fetches runs into the
      undefined strncpy of line 268. */
  predicate AvailableDefined(env: Env, st: St)
    requires Good(st)
  {
    var heard := Listen(env, st);
    heard.0.Packet? ==> ReceiveDefined(env, CopyIn(StatusChange(heard.1, Reading), heard.0.bytes))
  }

  /** available(): one query of the radio; a fetched packet is reported as
      READING and read in. */
  function Available(env: Env, st: St): (res: (St, bool))
    requires Good(st) && AvailableDefined(env, st)
    ensures Good(res.0) && SameConfig(st, res.0)
  {
    var heard := Listen(env, st);
    if heard.0.Packet? then Read(env, StatusChange(heard.1, Reading), heard.0.bytes) else (heard.1, false)
  }

  /** Both overloads of send(): SENDING, then a data frame to target. */
  function SendMessage(env: Env, st: St, m: seq<char>, target: char, len: uint8, requestReply: bool): (r: St)
    requires Good(st) && Readable(m, len) && len <= 121
    ensures Good(r) && SameConfig(st, r)
  {
    Send(env, StatusChange(st, Sending), m, target, len, requestReply, false)
  }

  /** The keep-alive payload of ping() and the boot message: one digit and its terminator. */
  const PingMessage: seq<char> := "9\0"
  const BootMessage: seq<char> := "1\0"

  /** The uint32 sum _last_send + _ping_interval, which wraps modulo 2^32. */
  function PingDue(lastSend: uint32): (due: uint32)
    ensures due == (lastSend + PingInterval) % 0x1_0000_0000
  {
    var sum := lastSend + PingInterval;
    if sum < 0x1_0000_0000 then sum else sum - 0x1_0000_0000
  }

  /** The keep-alive of ping(): PING_START and a send of "9" to this board. */
  function KeepAlive(env: Env, st: St): (r: St)
    requires Good(st)
    ensures Good(r) && SameConfig(st, r)
  {
    SendOwn(env, StatusChange(st, PingStart), PingMessage, 2, false, false)
  }

  /** ping(): one millis() reading; when it has reached the due time, the
      keep-alive. */
  function Ping(env: Env, st: St): (r: St)
    requires Good(st)
    ensures Good(r) && SameConfig(st, r)
  {
    var now := env.millis(st.ticks);
    var s1 := st.(ticks := st.ticks + 1);
    if now >= PingDue(st.lastSend) then KeepAlive(env, s1) else s1
  }

  /** Until millis() reaches the due time, ping() only reads the clock. */
  lemma {:induction false} PingIdle(env: Env, st: St)
    requires Good(st) && env.millis(st.ticks) < PingDue(st.lastSend)
    ensures Ping(env, st) == st.(ticks := st.ticks + 1)
  {
  }

  /** Once millis() has reached the due time, ping() is the keep-alive. */
  lemma {:induction false} PingFires(env: Env, st: St)
    requires Good(st) && env.millis(st.ticks) >= PingDue(st.lastSend)
    ensures Ping(env, st) == KeepAlive(env, st.(ticks := st.ticks + 1))
  {
  }

  /** _send_boot_msg(): a send of "1" to this board. */
  function SendBootMsg(env: Env, st: St): (r: St)
    requires Good(st)
    ensures Good(r) && SameConfig(st, r)
  {
    SendOwn(env, st, BootMessage, 2, false, false)
  }
}
