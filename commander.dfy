// The Commander class: the object the sketch owns, with the character
// buffers, the counters and the keep-alive timer that its methods update in
// place. Each method is proved to leave the object in the state the
// corresponding function of module Machine describes.

module Device {
  import opened CString
  import opened Types
  import opened Frames
  import Machine

  class Commander {
    // Identity, set by the constructor only.
    const networkId: seq<char>          // _network_id
    const boardId: char                 // _board_id
    // The radio, random() and millis(), given as the streams of values they return.
    const env: Machine.Env

    const buffer: array<char>           // _buffer, BUFFER_SIZE + 1 characters
    const msg: array<char>              // msg, BUFFER_SIZE + 1 characters
    var msgLength: uint8                // msg_length
    const msgRand: array<char>          // msg_rand, 4 characters
    var lastSend: uint32                // _last_send
    var hasCallback: bool               // _status_callback != NULL
    ghost var trace: seq<Status>        // what the callback has been called with

    // What has been transmitted.
    var sent: seq<seq<char>>
    // Queries of the radio, calls of random() and of millis() so far.
    var heard: nat
    var draws: nat
    var ticks: nat

    /** The state as a value of the specification. */
    ghost function Abs(): Machine.St
      reads this, buffer, msg, msgRand
    {
      Machine.St(networkId, boardId, hasCallback, Machine.Mem(buffer[..], msg[..], msgRand[..]),
                 msgLength, lastSend, Machine.Io(sent, trace), heard, draws, ticks)
    }

    ghost predicate Valid()
      reads this, buffer, msg, msgRand
    {
      buffer != msg && buffer != msgRand && msg != msgRand && Machine.Good(Abs())
    }

    /** Commander(network_id, board_id), for an object with static storage:
        every buffer starts zeroed, _last_send at 0 and no callback registered. */
    constructor (networkId: seq<char>, boardId: char, env: Machine.Env)
      requires NetworkId(networkId)
      ensures Valid() && fresh(buffer) && fresh(msg) && fresh(msgRand)
      ensures Abs() == Machine.St(networkId, boardId, false,
                                  Machine.Mem(Zeros(BufferSize + 1), Zeros(BufferSize + 1), Zeros(RandSize)),
                                  0, 0, Machine.Io([], []), 0, 0, 0)
    {
      this.networkId := networkId;
      this.boardId := boardId;
      this.env := env;
      buffer := new char[BufferSize + 1](_ => NUL);
      msg := new char[BufferSize + 1](_ => NUL);
      msgRand := new char[RandSize](_ => NUL);
      msgLength := 0;
      lastSend := 0;
      hasCallback := false;
      trace := [];
      sent := [];
      heard := 0;
      draws := 0;
      ticks := 0;
    }

    /** setStatusCallback: registers (or, with a null pointer, removes) the callback. */
    method SetStatusCallback(registered: bool)
      requires Valid()
      modifies this`hasCallback
      ensures Valid() && Abs() == old(Abs()).(callback := registered)
    {
      hasCallback := registered;
    }

    /** _status_change */
    method StatusChange(s: Status)
      requires Valid()
      modifies this`trace
      ensures Valid() && Abs() == Machine.StatusChange(old(Abs()), s)
    {
      if hasCallback {
        trace := trace + [s];
      }
    }

    /** _cleanup */
    method Cleanup()
      requires Valid()
      modifies buffer
      ensures Valid() && Abs() == Machine.Cleanup(old(Abs()))
    {
      MemSet(buffer);
    }

    /** One query of the radio: rf95.available() or waitAvailableTimeout(),
        followed by rf95.recv(). */
    method Listen() returns (e: Machine.Event)
      requires Valid()
      modifies this`heard
      ensures Valid() && (e, Abs()) == Machine.Listen(env, old(Abs()))
    {
      e := env.radio(heard);
      heard := heard + 1;
    }

    /** _process_input */
    method ProcessInput(isAckCheck: bool) returns (accepted: bool)
      requires Valid() && (isAckCheck || Machine.ReceiveDefined(env, Abs()))
      modifies this, buffer, msg, msgRand
      ensures Valid()
      ensures isAckCheck ==> (Abs(), accepted) == Machine.AckCheck(old(Abs()))
      ensures !isAckCheck ==> (Abs(), accepted) == Machine.ReceiveData(env, old(Abs()))
      decreases if isAckCheck then 0 else 3, 1
    {
      ghost var s0 := Abs();
      var n := StrLen(buffer);
      msgLength := n;
      if msgLength < 5 {
        Reject(s0, isAckCheck);
        return false;
      }
      if buffer[0] != networkId[0] || buffer[1] != networkId[1] {
        Reject(s0, isAckCheck);
        return false;
      }
      if isAckCheck {
        if buffer[3] != '>' {
          Reject(s0, isAckCheck);
          return false;
        }
        AcceptAck(s0);
      } else {
        if buffer[2] != boardId {
          Reject(s0, isAckCheck);
          return false;
        }
        if buffer[3] != '.' {
          Reject(s0, isAckCheck);
          return false;
        }
        AcceptData(s0);
      }
      return true;
    }

    /** The end of _process_input for a frame the filter drops: _cleanup. */
    method Reject(ghost s0: Machine.St, isAckCheck: bool)
      requires Valid() && Machine.Good(s0) && (isAckCheck || Machine.ReceiveDefined(env, s0))
      requires Abs() == s0.(msgLength := CStrLen(s0.mem.buffer))
      requires Filter(s0.mem.buffer, s0.net, s0.board, isAckCheck) != Accepted
      modifies buffer
      ensures Valid()
      ensures isAckCheck ==> (Abs(), false) == Machine.AckCheck(s0)
      ensures !isAckCheck ==> (Abs(), false) == Machine.ReceiveData(env, s0)
    {
      Machine.ProcessInputRejects(env, s0, isAckCheck);
      Cleanup();
    }

    /** Lines 240-244 and 272-275 of _process_input for an accepted ack. */
    method AcceptAck(ghost s0: Machine.St)
      requires Valid() && Machine.Good(s0)
      requires Abs() == s0.(msgLength := CStrLen(s0.mem.buffer))
      requires Filter(s0.mem.buffer, s0.net, s0.board, true) == Accepted
      modifies this`trace, buffer, msgRand
      ensures Valid() && (Abs(), true) == Machine.AckCheck(s0)
    {
      Machine.AckCheckAccepts(s0);
      TakeNonce();
      StatusChange(Ok);
      Cleanup();
    }

    /** Lines 259-275 of _process_input for an accepted data frame: the
        acknowledgement, the copy into msg, OK and _cleanup. */
    method AcceptData(ghost s0: Machine.St)
      requires Valid() && Machine.Good(s0) && Machine.ReceiveDefined(env, s0)
      requires Abs() == s0.(msgLength := CStrLen(s0.mem.buffer))
      requires Filter(s0.mem.buffer, s0.net, s0.board, false) == Accepted
      modifies this, buffer, msg, msgRand
      ensures Valid() && (Abs(), true) == Machine.ReceiveData(env, s0)
      decreases 3, 0
    {
      ghost var s1 := Abs();
      Machine.ReceiveDataAccepts(env, s0);
      StatusChange(Receiving);
      SendOwn(buffer[msgLength - 3..], 4, false, true);
      assert Abs() == Machine.AutoAck(env, s1);
      StoreMessage();
      StatusChange(Ok);
      Cleanup();
    }

    /** Lines 240-244 of _process_input: msg_rand is cleared and takes the
        three characters before the terminator of _buffer. */
    method TakeNonce()
      requires Valid() && 3 <= msgLength
      modifies msgRand
      ensures Valid()
      ensures Abs() == old(Abs()).(mem := old(Abs()).mem.(msgRand := StrNCopy(buffer[..][msgLength - 3..], 3) + [NUL]))
    {
      MemSet(msgRand);
      StrNCpyTo(msgRand, 0, buffer[msgLength - 3..], 3);
      ZerosSlice(RandSize, 3, RandSize);
    }

    /** Lines 265-268 of _process_input: msg is cleared and takes
        msg_length - 8 characters from index 4 of _buffer. */
    method StoreMessage()
      requires Valid() && 8 <= msgLength
      modifies msg
      ensures Valid() && Abs() == Machine.StoreMessage(old(Abs()))
    {
      MemSet(msg);
      StrNCpyTo(msg, 0, buffer[4..], msgLength - 8);
      ZerosSlice(BufferSize + 1, msgLength - 8, BufferSize + 1);
    }

    /** _send with four arguments. */
    method SendOwn(m: seq<char>, len: uint8, doRetry: bool, isAck: bool)
      requires Valid() && Readable(m, len) && (if doRetry then len <= 125 else len <= 121)
      modifies this, buffer, msg, msgRand
      ensures Valid()
      ensures doRetry ==> Abs() == Machine.SendAck(old(Abs()), m, boardId, len)
      ensures !doRetry ==> Abs() == Machine.SendData(env, old(Abs()), m, boardId, len, isAck)
      decreases 2, 3
    {
      SendFrame(m, boardId, len, isAck, doRetry);
    }

    /** Lines 107-115 of _send: send_buffer zeroed, then the network id and
        the target board copied in by strncpy. */
    static method Address(sendBuffer: array<char>, net: seq<char>, target: char)
      requires sendBuffer.Length == BufferSize + 1 && NetworkId(net)
      modifies sendBuffer
      ensures sendBuffer[..] == net + [target] + Zeros(BufferSize - 2)
    {
      MemSet(sendBuffer);
      StrNCpyTo(sendBuffer, 0, net, 2);
      StrNCpyTo(sendBuffer, 2, [target], 1);
      StrNCopyPlain(net, 2);
      assert StrNCopy([target], 1) == [target];
      ZerosSlice(BufferSize + 1, 2, BufferSize + 1);
      ZerosSlice(BufferSize + 1, 3, BufferSize + 1);
    }

    /** Lines 119-120 of _send: the '>' separator and the ack payload. */
    static method PutAck(sendBuffer: array<char>, net: seq<char>, target: char, m: seq<char>, len: uint8)
      requires sendBuffer.Length == BufferSize + 1 && NetworkId(net) && Readable(m, len) && len <= 125
      requires sendBuffer[..] == net + [target] + Zeros(BufferSize - 2)
      modifies sendBuffer
      ensures sendBuffer[..4 + len] == AckFrame(net, target, m, len)
    {
      sendBuffer[3] := '>';
      StrNCpyTo(sendBuffer, 4, m, len);
      assert sendBuffer[..4] == net + [target, '>'];
    }

    /** Lines 132-136 of _send: the '.' separator, the payload, and '.' over
        its last character. */
    static method PutData(sendBuffer: array<char>, net: seq<char>, target: char, m: seq<char>, len: uint8)
      requires sendBuffer.Length == BufferSize + 1 && NetworkId(net) && Readable(m, len) && len <= 121
      requires sendBuffer[..] == net + [target] + Zeros(BufferSize - 2)
      modifies sendBuffer
      ensures sendBuffer[..] == DataHead(net, target, m, len) + Zeros(BufferSize - 3 - len)
    {
      sendBuffer[3] := '.';
      StrNCpyTo(sendBuffer, 4, m, len);
      sendBuffer[4 + (len - 1)] := '.';
      ghost var head := DataHead(net, target, m, len);
      assert forall j :: 0 <= j < 4 + len ==> sendBuffer[j] == head[j];
      assert sendBuffer[..4 + len] == head;
      assert sendBuffer[4 + len..] == Zeros(BufferSize - 3 - len);
      assert sendBuffer[..] == sendBuffer[..4 + len] + sendBuffer[4 + len..];
    }

    /** Lines 139-141 of _send: three characters alphanumeric[random(0, 62)]
        after the first 4 + len. */
    static method AppendNonce(sendBuffer: array<char>, len: uint8, ghost head: seq<char>, env: Machine.Env, first: nat)
      requires sendBuffer.Length == BufferSize + 1 && len <= 121
      requires |head| == 4 + len && sendBuffer[..] == head + Zeros(BufferSize - 3 - len)
      modifies sendBuffer
      ensures sendBuffer[..len + 8] == head + Machine.NonceAt(env, first) + [NUL]
      ensures HoldsNonce(sendBuffer, 4 + len, Machine.NonceAt(env, first))
    {
      ghost var nonce := Machine.NonceAt(env, first);
      for i := 0 to 3
        invariant forall j :: 0 <= j < 4 + len ==> sendBuffer[j] == head[j]
        invariant forall j :: 4 + len <= j < 4 + len + i ==> sendBuffer[j] == nonce[j - 4 - len]
        invariant forall j :: 4 + len + i <= j < sendBuffer.Length ==> sendBuffer[j] == NUL
      {
        sendBuffer[4 + len + i] := Alpha(env.random(first + i));
      }
      assert sendBuffer[..len + 8] == head + nonce + [NUL];
    }

    /** The three nonce characters sit at sendBuffer[at..at + 3]. */
    static ghost predicate HoldsNonce(sendBuffer: array<char>, at: nat, nonce: seq<char>)
      requires at + 3 <= sendBuffer.Length && |nonce| == 3
      reads sendBuffer
    {
      sendBuffer[at] == nonce[0] && sendBuffer[at + 1] == nonce[1] && sendBuffer[at + 2] == nonce[2]
    }

    /** Lines 169-172 of _send: the received packet is copied into _buffer
        and checked as an ack. */
    method ReadAck(p: Machine.Payload) returns (ok: bool)
      requires Valid()
      modifies this, buffer, msg, msgRand
      ensures Valid() && (Abs(), ok) == Machine.AckCheck(Machine.CopyIn(old(Abs()), p))
      decreases 0, 2
    {
      StrCpyTo(buffer, p);
      ok := ProcessInput(true);
    }

    /** One pass of the retry loop of _send (lines 161-184). */
    method AckAttempt(sendBuffer: array<char>, len: uint8, retries: nat, ghost nonce: seq<char>) returns (matched: bool)
      requires Valid() && sendBuffer.Length == BufferSize + 1 && len <= 121
      requires sendBuffer != buffer && sendBuffer != msg && sendBuffer != msgRand
      requires |nonce| == 3 && HoldsNonce(sendBuffer, 4 + len, nonce)
      modifies this, buffer, msg, msgRand
      ensures Valid() && (Abs(), matched) == Machine.AckAttempt(env, old(Abs()), nonce, retries)
      decreases 1, 0
    {
      if retries == 1 {
        StatusChange(AwaitingResponse);
      }
      var e := Listen();
      matched := false;
      if e.Packet? {
        var ok := ReadAck(e.bytes);
        if ok {
          matched := NonceEchoed(sendBuffer, len, nonce);
        }
      }
    }

    /** Lines 173-177 of _send: the nonce in send_buffer against msg_rand. */
    method NonceEchoed(sendBuffer: array<char>, len: uint8, ghost nonce: seq<char>) returns (echoed: bool)
      requires Valid() && sendBuffer.Length == BufferSize + 1 && len <= 121
      requires |nonce| == 3 && HoldsNonce(sendBuffer, 4 + len, nonce)
      ensures echoed == Machine.NonceMatches(msgRand[..], nonce)
    {
      echoed := sendBuffer[4 + len] == msgRand[0] &&
                sendBuffer[4 + len + 1] == msgRand[1] &&
                sendBuffer[4 + len + 2] == msgRand[2];
    }

    /** Lines 150-186 of _send: up to _max_retries passes; true once an
        accepted ack carries the nonce at send_buffer[4 + len..]. */
    method AwaitAck(sendBuffer: array<char>, len: uint8, ghost nonce: seq<char>) returns (hadReply: bool)
      requires Valid() && sendBuffer.Length == BufferSize + 1 && len <= 121
      requires sendBuffer != buffer && sendBuffer != msg && sendBuffer != msgRand
      requires |nonce| == 3 && HoldsNonce(sendBuffer, 4 + len, nonce)
      modifies this, buffer, msg, msgRand
      ensures Valid() && (Abs(), hadReply) == Machine.AckWait(env, old(Abs()), nonce, 0)
      decreases 1, 1
    {
      hadReply := false;
      var retries := 0;
      while retries < MaxRetries
        invariant Valid()
        invariant 0 <= retries <= MaxRetries
        invariant HoldsNonce(sendBuffer, 4 + len, nonce)
        invariant Machine.AckWait(env, Abs(), nonce, retries) == Machine.AckWait(env, old(Abs()), nonce, 0)
        invariant !hadReply
        decreases MaxRetries - retries
      {
        var matched := AckAttempt(sendBuffer, len, retries, nonce);
        if matched {
          hadReply := true;
          break;
        }
        retries := retries + 1;
      }
    }

    /** _send with five arguments. */
    method SendFrame(m: seq<char>, target: char, len: uint8, doRetry: bool, isAck: bool)
      requires Valid() && Readable(m, len) && (if isAck then len <= 125 else len <= 121)
      modifies this, buffer, msg, msgRand
      ensures Valid()
      ensures isAck ==> Abs() == Machine.SendAck(old(Abs()), m, target, len)
      ensures !isAck ==> Abs() == Machine.SendData(env, old(Abs()), m, target, len, doRetry)
      decreases 2, 2
    {
      var sendBuffer := new char[BufferSize + 1];
      Address(sendBuffer, networkId, target);
      if isAck {
        PutAck(sendBuffer, networkId, target, m, len);
        sent := sent + [sendBuffer[..4 + len]];
        StatusChange(Ok);
      } else {
        SendDataFrame(sendBuffer, m, target, len, doRetry);
      }
    }

    /** Lines 132-145 of _send: the data frame is completed in sendBuffer and
        handed to the radio. */
    method EmitData(sendBuffer: array<char>, m: seq<char>, target: char, len: uint8)
      requires Valid() && Readable(m, len) && len <= 121
      requires sendBuffer != buffer && sendBuffer != msg && sendBuffer != msgRand
      requires sendBuffer.Length == BufferSize + 1
      requires sendBuffer[..] == networkId + [target] + Zeros(BufferSize - 2)
      modifies this`sent, this`draws, sendBuffer
      ensures Valid() && HoldsNonce(sendBuffer, 4 + len, Machine.NonceAt(env, old(draws)))
      ensures Abs() == Machine.EmitData(env, old(Abs()), m, target, len)
    {
      PutData(sendBuffer, networkId, target, m, len);
      AppendNonce(sendBuffer, len, DataHead(networkId, target, m, len), env, draws);
      draws := draws + 3;
      sent := sent + [sendBuffer[..4 + len + 4]];
    }

    /** Lines 189-199 of _send: the final status and the update of _last_send. */
    method FinishData(hadReply: bool, doRetry: bool)
      requires Valid()
      modifies this`trace, this`lastSend, this`ticks
      ensures Valid() && Abs() == Machine.SettleData(env, (old(Abs()), hadReply), doRetry)
    {
      if doRetry && !hadReply {
        StatusChange(NoResponse);
      } else {
        StatusChange(Ok);
      }
      lastSend := env.millis(ticks);
      ticks := ticks + 1;
    }

    /** The data branch of _send, from the strncpy of the message on, including
        the update of _last_send that follows it. */
    method SendDataFrame(sendBuffer: array<char>, m: seq<char>, target: char, len: uint8, doRetry: bool)
      requires Valid() && Readable(m, len) && len <= 121
      requires sendBuffer != buffer && sendBuffer != msg && sendBuffer != msgRand
      requires sendBuffer.Length == BufferSize + 1
      requires sendBuffer[..] == networkId + [target] + Zeros(BufferSize - 2)
      modifies this, buffer, msg, msgRand, sendBuffer
      ensures Valid()
      ensures Abs() == Machine.SendData(env, old(Abs()), m, target, len, doRetry)
      decreases 2, 1
    {
      ghost var nonce := Machine.NonceAt(env, draws);
      EmitData(sendBuffer, m, target, len);
      ghost var s1 := Abs();
      var hadReply := false;
      if doRetry {
        hadReply := AwaitAck(sendBuffer, len, nonce);
      }
      ghost var wait := (Abs(), hadReply);
      assert wait == if doRetry then Machine.AckWait(env, s1, nonce, 0) else (s1, false);
      FinishData(hadReply, doRetry);
    }

    /** _read */
    method Read(p: Machine.Payload) returns (accepted: bool)
      requires Valid()
      requires Machine.ReceiveDefined(env, Machine.CopyIn(Abs(), p))
      modifies this, buffer, msg, msgRand
      ensures Valid() && (Abs(), accepted) == Machine.Read(env, old(Abs()), p)
    {
      StrCpyTo(buffer, p);
      accepted := ProcessInput(false);
    }

    /** available(): true when a new message is in msg. */
    method Available() returns (ready: bool)
      requires Valid() && Machine.AvailableDefined(env, Abs())
      modifies this, buffer, msg, msgRand
      ensures Valid() && (Abs(), ready) == Machine.Available(env, old(Abs()))
    {
      var e := Listen();
      if e.Packet? {
        StatusChange(Reading);
        ready := Read(e.bytes);
      } else {
        ready := false;
      }
    }

    /** send(msg, len, request_reply = true): to this board's own id. */
    method Send(m: seq<char>, len: uint8, requestReply: bool := true)
      requires Valid() && Readable(m, len) && len <= 121
      modifies this, buffer, msg, msgRand
      ensures Valid() && Abs() == Machine.SendMessage(env, old(Abs()), m, boardId, len, requestReply)
    {
      StatusChange(Sending);
      SendFrame(m, boardId, len, requestReply, false);
    }

    /** send(msg, board_id, len, request_reply = true) */
    method SendTo(m: seq<char>, target: char, len: uint8, requestReply: bool := true)
      requires Valid() && Readable(m, len) && len <= 121
      modifies this, buffer, msg, msgRand
      ensures Valid() && Abs() == Machine.SendMessage(env, old(Abs()), m, target, len, requestReply)
    {
      StatusChange(Sending);
      SendFrame(m, target, len, requestReply, false);
    }

    /** ping() */
    method Ping()
      requires Valid()
      modifies this, buffer, msg, msgRand
      ensures Valid() && Abs() == Machine.Ping(env, old(Abs()))
    {
      ghost var s0 := Abs();
      var now := env.millis(ticks);
      ticks := ticks + 1;
      assert Abs() == s0.(ticks := s0.ticks + 1);
      if now >= Machine.PingDue(lastSend) {
        Machine.PingFires(env, s0);
        KeepAlive();
      } else {
        Machine.PingIdle(env, s0);
      }
    }

    /** The body of the if in ping(): PING_START and a send of "9". */
    method KeepAlive()
      requires Valid()
      modifies this, buffer, msg, msgRand
      ensures Valid() && Abs() == Machine.KeepAlive(env, old(Abs()))
    {
      var packetMsg := Machine.PingMessage;
      StatusChange(PingStart);
      SendOwn(packetMsg, 2, false, false);
    }

    /** _send_boot_msg() */
    method SendBootMsg()
      requires Valid()
      modifies this, buffer, msg, msgRand
      ensures Valid() && Abs() == Machine.SendBootMsg(env, old(Abs()))
    {
      var packetMsg := Machine.BootMessage;
      SendOwn(packetMsg, 2, false, false);
    }
  }
}
