// Properties of the protocol that relate several operations of module
// Machine: what the ack wait touches and reports, what a send leaves
// behind, what a received data frame turns into, and when ping() fires.

module Properties {
  import opened CString
  import opened Types
  import opened Frames
  import opened Machine

  /** One pass of the retry loop reports AWAITING_RESPONSE first when it is
      the second pass, and otherwise at most the OK of an accepted ack. */
  lemma {:induction false} AckAttemptReports(env: Env, st: St, nonce: seq<char>, retries: nat)
    requires Good(st) && |nonce| == 3
    ensures var r := AckAttempt(env, st, nonce, retries).0;
      st.io.trace <= r.io.trace &&
      (forall i :: |st.io.trace| <= i < |r.io.trace| ==>
         r.io.trace[i] == Ok || (r.io.trace[i] == AwaitingResponse && retries == 1 && i == |st.io.trace|)) &&
      (retries == 1 && st.callback ==> |st.io.trace| < |r.io.trace| && r.io.trace[|st.io.trace|] == AwaitingResponse) &&
      (!st.callback ==> r.io.trace == st.io.trace)
  {
    var s1 := if retries == 1 then StatusChange(st, AwaitingResponse) else st;
    var heard := Listen(env, s1);
    if heard.0.Packet? {
      var check := AckCheck(CopyIn(heard.1, heard.0.bytes));
      assert AckAttempt(env, st, nonce, retries).0 == check.0;
    }
  }

  /** The retry loop appends to the trace and reports nothing but OK and,
      from the second pass on, AWAITING_RESPONSE. */
  lemma {:induction false} AckWaitReports(env: Env, st: St, nonce: seq<char>, retries: nat)
    requires Good(st) && |nonce| == 3 && retries <= MaxRetries
    ensures var r := AckWait(env, st, nonce, retries).0;
      st.io.trace <= r.io.trace &&
      (forall i :: |st.io.trace| <= i < |r.io.trace| ==>
         r.io.trace[i] == Ok || (r.io.trace[i] == AwaitingResponse && retries <= 1)) &&
      (retries == 1 ==> forall i :: |st.io.trace| < i < |r.io.trace| ==> r.io.trace[i] != AwaitingResponse) &&
      (retries == 0 ==> forall i :: |st.io.trace| <= i < |r.io.trace| && r.io.trace[i] == AwaitingResponse ==>
         i == |AckAttempt(env, st, nonce, 0).0.io.trace|) &&
      (!st.callback ==> r.io.trace == st.io.trace)
    decreases MaxRetries - retries
  {
    if retries < MaxRetries {
      var a := AckAttempt(env, st, nonce, retries);
      AckAttemptReports(env, st, nonce, retries);
      if !a.1 {
        var r := AckWait(env, st, nonce, retries).0;
        assert r == AckWait(env, a.0, nonce, retries + 1).0;
        AckWaitReports(env, a.0, nonce, retries + 1);
        forall i | |st.io.trace| <= i < |r.io.trace|
          ensures r.io.trace[i] == Ok || (r.io.trace[i] == AwaitingResponse && retries <= 1)
          ensures retries == 1 && i > |st.io.trace| ==> r.io.trace[i] != AwaitingResponse
          ensures retries == 0 && r.io.trace[i] == AwaitingResponse ==> i == |a.0.io.trace|
        {
          if i < |a.0.io.trace| {
            assert r.io.trace[i] == a.0.io.trace[i];
          }
        }
      }
    }
  }

  /** With a callback registered, _send reports AWAITING_RESPONSE during its ack
      wait exactly when the first pass did not bring the matching ack. */
  lemma {:induction false} AwaitingResponseIffFirstPassMissed(env: Env, st: St, nonce: seq<char>)
    requires Good(st) && |nonce| == 3 && st.callback
    ensures var r := AckWait(env, st, nonce, 0).0;
      st.io.trace <= r.io.trace &&
      (AwaitingResponse in r.io.trace[|st.io.trace|..] <==> !AckAttempt(env, st, nonce, 0).1)
  {
    var a := AckAttempt(env, st, nonce, 0);
    var r := AckWait(env, st, nonce, 0).0;
    AckWaitReports(env, st, nonce, 0);
    AckAttemptReports(env, st, nonce, 0);
    if a.1 {
      assert r == a.0;
      forall i | 0 <= i < |r.io.trace[|st.io.trace|..]|
        ensures r.io.trace[|st.io.trace|..][i] != AwaitingResponse
      {
        assert r.io.trace[|st.io.trace|..][i] == r.io.trace[|st.io.trace| + i];
      }
    } else {
      assert r == AckWait(env, a.0, nonce, 1).0;
      AckAttemptReports(env, a.0, nonce, 1);
      AckWaitReports(env, a.0, nonce, 1);
      var b := AckAttempt(env, a.0, nonce, 1).0;
      var k := |a.0.io.trace|;
      assert b.io.trace <= r.io.trace by {
        if !AckAttempt(env, a.0, nonce, 1).1 {
          AckWaitReports(env, b, nonce, 2);
        }
      }
      assert r.io.trace[k] == AwaitingResponse;
      assert r.io.trace[|st.io.trace|..][k - |st.io.trace|] == AwaitingResponse;
    }
  }

  /** One pass of the retry loop returns true exactly when it hears a packet
      that the ack check accepts and whose last three characters before the
      terminator are the nonce. */
  lemma {:induction false} AckAttemptMatches(env: Env, st: St, nonce: seq<char>, retries: nat)
    requires Good(st) && |nonce| == 3
    ensures AckAttempt(env, st, nonce, retries).1 <==>
      env.radio(st.heard).Packet? &&
      var b := StrCpy(st.mem.buffer, env.radio(st.heard).bytes);
      Filter(b, st.net, st.board, true) == Accepted && b[CStrLen(b) - 3..CStrLen(b)] == nonce
  {
    var s1 := if retries == 1 then StatusChange(st, AwaitingResponse) else st;
    var heard := Listen(env, s1);
    if heard.0.Packet? {
      var c := CopyIn(heard.1, heard.0.bytes);
      assert c.mem.buffer == StrCpy(st.mem.buffer, env.radio(st.heard).bytes);
      var check := AckCheck(c);
      assert AckAttempt(env, st, nonce, retries) == (check.0, check.1 && NonceMatches(check.0.mem.msgRand, nonce));
      if check.1 {
        var n := CStrLen(c.mem.buffer);
        assert check.0.mem.msgRand[..3] == c.mem.buffer[n - 3..n];
      }
    }
  }

  /** The ack an answering board would send for this nonce (to any board id)
      passes the ack check and leaves the nonce as the three characters before
      its terminator. */
  lemma {:induction false} AckFrameMatches(buf: seq<char>, net: seq<char>, board: char, target: char, nonce: seq<char>)
    requires NetworkId(net) && |nonce| == 3 && NUL !in nonce && target != NUL && |buf| == BufferSize + 1
    ensures var f := AckFrame(net, target, nonce + [NUL], 4);
      NUL in f && CStrLen(f) == 7 &&
      var b := StrCpy(buf, f);
      Filter(b, net, board, true) == Accepted && b[CStrLen(b) - 3..CStrLen(b)] == nonce
  {
    var m := nonce + [NUL];
    forall i | 0 <= i < 3 ensures m[i] != NUL {
      assert m[i] == nonce[i] && nonce[i] in nonce;
    }
    AckFrameOnlyAcceptedAsAck(buf, net, target, m, 4);
    var f := AckFrame(net, target, m, 4);
    StrNCopyPlain(m, 3);
    assert StrNLen(m, 4) == 3;
    assert f[4..7] == nonce;
    var b := StrCpy(buf, f);
    assert b[4..7] == f[4..7];
  }

  /** A pass of the retry loop that hears the ack frame carrying the nonce returns true. */
  lemma {:induction false} AckFramePass(env: Env, st: St, nonce: seq<char>, retries: nat, target: char)
    requires Good(st) && |nonce| == 3 && NUL !in nonce && target != NUL
    requires env.radio(st.heard).Packet?
    requires env.radio(st.heard).bytes == AckFrame(st.net, target, nonce + [NUL], 4)
    ensures AckAttempt(env, st, nonce, retries).1
  {
    AckAttemptMatches(env, st, nonce, retries);
    AckFrameMatches(st.mem.buffer, st.net, st.board, target, nonce);
  }

  /** An ack wait whose first pass hears the ack frame carrying the nonce
      stops there with had_reply true, after one query of the radio. */
  lemma {:induction false} AckFrameStopsWait(env: Env, st: St, nonce: seq<char>, retries: nat, target: char)
    requires Good(st) && |nonce| == 3 && NUL !in nonce && target != NUL && retries < MaxRetries
    requires env.radio(st.heard).Packet?
    requires env.radio(st.heard).bytes == AckFrame(st.net, target, nonce + [NUL], 4)
    ensures AckWait(env, st, nonce, retries).1 && AckWait(env, st, nonce, retries).0.heard == st.heard + 1
  {
    AckFramePass(env, st, nonce, retries, target);
    assert AckWait(env, st, nonce, retries) == AckAttempt(env, st, nonce, retries);
  }

  /** An ack wait that hears nothing in its first k passes and then the ack
      frame carrying the nonce stops there with had_reply true, after k + 1
      queries of the radio, with the nonce in msg_rand. */
  lemma {:induction false} AckFrameEndsWait(env: Env, st: St, nonce: seq<char>, retries: nat, k: nat, target: char)
    requires Good(st) && |nonce| == 3 && NUL !in nonce && target != NUL && retries + k < MaxRetries
    requires forall j :: st.heard <= j < st.heard + k ==> !env.radio(j).Packet?
    requires env.radio(st.heard + k).Packet?
    requires env.radio(st.heard + k).bytes == AckFrame(st.net, target, nonce + [NUL], 4)
    ensures var w := AckWait(env, st, nonce, retries);
      w.1 && w.0.heard == st.heard + k + 1
    decreases k
  {
    var a := AckAttempt(env, st, nonce, retries);
    if k == 0 {
      AckFrameStopsWait(env, st, nonce, retries, target);
    } else {
      AckAttemptMatches(env, st, nonce, retries);
      assert !a.1;
      assert AckWait(env, st, nonce, retries) == AckWait(env, a.0, nonce, retries + 1);
      AckFrameEndsWait(env, a.0, nonce, retries + 1, k - 1, target);
    }
  }

  /** A data send transmits exactly its data frame, draws three times from
      random(), reads millis() once into _last_send, never touches msg, queries
      the radio only when a reply was asked for (at most _max_retries times),
      and ends on NO_RESPONSE exactly when it asked for a reply and got none. */
  lemma {:induction false} SendDataEffects(env: Env, st: St, m: seq<char>, target: char, len: uint8, doRetry: bool)
    requires Good(st) && Readable(m, len) && len <= 121
    ensures var r := SendData(env, st, m, target, len, doRetry);
      var wait := AckWait(env, EmitData(env, st, m, target, len), NonceAt(env, st.draws), 0);
      r.io.sent == st.io.sent + [DataFrame(st.net, target, m, len, NonceAt(env, st.draws))] &&
      r.mem.msg == st.mem.msg && r.draws == st.draws + 3 &&
      r.ticks == st.ticks + 1 && r.lastSend == env.millis(st.ticks) &&
      (doRetry ==> st.heard < r.heard <= st.heard + MaxRetries) &&
      (!doRetry ==> r.heard == st.heard && r.mem == st.mem && r.msgLength == st.msgLength) &&
      st.io.trace <= r.io.trace && (!st.callback ==> r.io.trace == st.io.trace) &&
      (st.callback ==>
         |st.io.trace| < |r.io.trace| &&
         r.io.trace[|r.io.trace| - 1] == if doRetry && !wait.1 then NoResponse else Ok)
  {
    var s1 := EmitData(env, st, m, target, len);
    var wait := AckWait(env, s1, NonceAt(env, st.draws), 0);
    AckWaitReports(env, s1, NonceAt(env, st.draws), 0);
    var w := if doRetry then wait else (s1, false);
    assert SendData(env, st, m, target, len, doRetry) == SettleData(env, w, doRetry);
  }

  /** A retrying send whose wait hears nothing for k passes and then the ack
      frame echoing the nonce it sent ends on OK, not NO_RESPONSE, after
      k + 1 queries of the radio. */
  lemma {:induction false} AckedSendReportsOk(env: Env, st: St, m: seq<char>, target: char, len: uint8, k: nat, replier: char)
    requires Good(st) && Readable(m, len) && len <= 121 && st.callback
    requires k < MaxRetries && replier != NUL
    requires forall j :: st.heard <= j < st.heard + k ==> !env.radio(j).Packet?
    requires env.radio(st.heard + k).Packet?
    requires env.radio(st.heard + k).bytes == AckFrame(st.net, replier, NonceAt(env, st.draws) + [NUL], 4)
    ensures var r := SendData(env, st, m, target, len, true);
      r.io.trace[|r.io.trace| - 1] == Ok && r.heard == st.heard + k + 1
  {
    var nonce := NonceAt(env, st.draws);
    NonceAlphanumeric(env, st.draws);
    var s1 := EmitData(env, st, m, target, len);
    assert s1.heard == st.heard && s1.net == st.net;
    AckFrameEndsWait(env, s1, nonce, 0, k, replier);
    SendDataEffects(env, st, m, target, len, true);
  }

  /** Of the two branches of _send only the data branch restarts the
      keep-alive timer: an ack leaves _last_send and the clock alone. */
  lemma {:induction false} OnlyDataRestartsTimer(env: Env, st: St, m: seq<char>, target: char, len: uint8, doRetry: bool, isAck: bool)
    requires Good(st) && Readable(m, len) && (if isAck then len <= 125 else len <= 121)
    ensures var r := Send(env, st, m, target, len, doRetry, isAck);
      if isAck then r.lastSend == st.lastSend && r.ticks == st.ticks
      else r.lastSend == env.millis(st.ticks) && r.ticks == st.ticks + 1
  {
    if !isAck {
      SendDataEffects(env, st, m, target, len, doRetry);
    }
  }

  /** Because the four-argument _send passes its flags on swapped, the
      acknowledgement of a received data frame is itself a data frame that
      waits for an ack: it carries the last three characters of the frame as
      its payload and a nonce of its own. */
  lemma {:induction false} AutoAckIsRetryingDataFrame(env: Env, st: St)
    requires Good(st) && 5 <= st.msgLength
    ensures AutoAck(env, st) == SendData(env, StatusChange(st, Receiving), st.mem.buffer[st.msgLength - 3..], st.board, 4, true)
    ensures AutoAck(env, st).io.sent ==
      st.io.sent + [DataFrame(st.net, st.board, st.mem.buffer[st.msgLength - 3..], 4, NonceAt(env, st.draws))]
  {
    var payload := st.mem.buffer[st.msgLength - 3..];
    assert AutoAck(env, st) == SendData(env, StatusChange(st, Receiving), payload, st.board, 4, true);
    SendDataEffects(env, StatusChange(st, Receiving), payload, st.board, 4, true);
  }

  /** An accepted data frame is acknowledged and stored: _read returns true,
      the only frame sent is the auto-ack carrying the last three characters
      of the frame, _buffer ends zeroed, and a registered callback hears
      RECEIVING first and OK last. */
  lemma {:induction false} ReceiveDataEffects(env: Env, st: St)
    requires Good(st) && ReceiveDefined(env, st) && Filter(st.mem.buffer, st.net, st.board, false) == Accepted
    ensures ReceiveData(env, st).1 && ReceiveData(env, st).0.mem.buffer == Zeros(BufferSize + 1)
    ensures ReceiveData(env, st).0.io.sent == st.io.sent +
      [DataFrame(st.net, st.board, st.mem.buffer[CStrLen(st.mem.buffer) - 3..], 4, NonceAt(env, st.draws))]
    ensures st.callback ==>
      |st.io.trace| < |ReceiveData(env, st).0.io.trace| &&
      ReceiveData(env, st).0.io.trace[|st.io.trace|] == Receiving &&
      ReceiveData(env, st).0.io.trace[|ReceiveData(env, st).0.io.trace| - 1] == Ok
    ensures !st.callback ==> ReceiveData(env, st).0.io.trace == st.io.trace
  {
    ReceiveDataAccepts(env, st);
    var s1 := st.(msgLength := CStrLen(st.mem.buffer));
    AutoAckIsRetryingDataFrame(env, s1);
    SendDataEffects(env, StatusChange(s1, Receiving), s1.mem.buffer[s1.msgLength - 3..], st.board, 4, true);
  }

  /** The board that sent the data frame never accepts that acknowledgement:
      its ack check finds the '.' of a data frame where it expects '>'. */
  lemma {:induction false} AutoAckNeverAccepted(env: Env, st: St, buf: seq<char>, board: char)
    requires Good(st) && 5 <= st.msgLength && |buf| == BufferSize + 1
    ensures var frame := AutoAck(env, st).io.sent[|st.io.sent|];
      NUL in frame && Filter(StrCpy(buf, frame), st.net, board, true) != Accepted
  {
    AutoAckIsRetryingDataFrame(env, st);
    var payload := st.mem.buffer[st.msgLength - 3..];
    var frame := DataFrame(st.net, st.board, payload, 4, NonceAt(env, st.draws));
    assert frame[11] in frame;
    DataFrameIsNotAnAck(buf, st.net, st.board, board, payload, 4, NonceAt(env, st.draws));
  }

  /** An ack wait during which the radio delivers no packet makes all its
      passes and leaves _buffer, msg_rand and msg_length as they were. */
  lemma {:induction false} AckWaitSilent(env: Env, st: St, nonce: seq<char>, retries: nat)
    requires Good(st) && |nonce| == 3 && retries <= MaxRetries
    requires forall k :: st.heard <= k < st.heard + (MaxRetries - retries) ==> !env.radio(k).Packet?
    ensures var w := AckWait(env, st, nonce, retries);
      !w.1 && w.0.mem == st.mem && w.0.msgLength == st.msgLength
    decreases MaxRetries - retries
  {
    if retries < MaxRetries {
      var a := AckAttempt(env, st, nonce, retries);
      assert !env.radio(st.heard).Packet?;
      assert !a.1 && a.0.mem == st.mem && a.0.msgLength == st.msgLength;
      AckWaitSilent(env, a.0, nonce, retries + 1);
    }
  }

  /** An ack wait that starts with an empty _buffer ends with one: a pass
      either hears nothing or zeroes _buffer in its ack check. */
  lemma {:induction false} AckWaitKeepsEmpty(env: Env, st: St, nonce: seq<char>, retries: nat)
    requires Good(st) && |nonce| == 3 && retries <= MaxRetries
    requires st.mem.buffer == Zeros(BufferSize + 1)
    ensures AckWait(env, st, nonce, retries).0.mem.buffer == Zeros(BufferSize + 1)
    decreases MaxRetries - retries
  {
    if retries < MaxRetries {
      var a := AckAttempt(env, st, nonce, retries);
      assert a.0.mem.buffer == Zeros(BufferSize + 1);
      if !a.1 {
        AckWaitKeepsEmpty(env, a.0, nonce, retries + 1);
      }
    }
  }

  /** A packet heard in the first pass of an ack wait leaves _buffer empty at
      its end, whether the ack check accepts the packet or not. */
  lemma {:induction false} AckWaitClears(env: Env, st: St, nonce: seq<char>, retries: nat)
    requires Good(st) && |nonce| == 3 && retries < MaxRetries
    requires env.radio(st.heard).Packet?
    ensures AckWait(env, st, nonce, retries).0.mem.buffer == Zeros(BufferSize + 1)
  {
    var a := AckAttempt(env, st, nonce, retries);
    assert a.0.mem.buffer == Zeros(BufferSize + 1);
    if !a.1 {
      AckWaitKeepsEmpty(env, a.0, nonce, retries + 1);
    }
  }

  /** The same for a packet heard in any pass the wait reaches (the query at
      index h of the radio): _buffer ends zeroed whatever the passes before it
      heard. */
  lemma {:induction false} AckWaitClearsAnyPass(env: Env, st: St, nonce: seq<char>, retries: nat, h: nat)
    requires Good(st) && |nonce| == 3 && retries <= MaxRetries
    requires st.heard <= h < st.heard + (MaxRetries - retries)
    requires env.radio(h).Packet?
    ensures AckWait(env, st, nonce, retries).0.mem.buffer == Zeros(BufferSize + 1)
    decreases h - st.heard
  {
    if env.radio(st.heard).Packet? {
      AckWaitClears(env, st, nonce, retries);
    } else {
      assert h != st.heard;
      var a := AckAttempt(env, st, nonce, retries);
      assert !a.1;
      assert AckWait(env, st, nonce, retries) == AckWait(env, a.0, nonce, retries + 1);
      AckWaitClearsAnyPass(env, a.0, nonce, retries + 1, h);
    }
  }

  /** A retrying data send that hears no packet leaves _buffer, msg_rand and
      msg_length alone. */
  lemma {:induction false} SilentSendKeepsBuffers(env: Env, st: St, m: seq<char>, target: char, len: uint8)
    requires Good(st) && Readable(m, len) && len <= 121
    requires forall k :: st.heard <= k < st.heard + MaxRetries ==> !env.radio(k).Packet?
    ensures var r := SendData(env, st, m, target, len, true);
      r.mem == st.mem && r.msgLength == st.msgLength
  {
    var s1 := EmitData(env, st, m, target, len);
    var nonce := NonceAt(env, st.draws);
    assert SendData(env, st, m, target, len, true) == SettleData(env, AckWait(env, s1, nonce, 0), true);
    AckWaitSilent(env, s1, nonce, 0);
  }

  /** A retrying data send that hears a packet in its first wait ends with
      _buffer empty. */
  lemma {:induction false} AnsweredSendClearsBuffer(env: Env, st: St, m: seq<char>, target: char, len: uint8)
    requires Good(st) && Readable(m, len) && len <= 121
    requires env.radio(st.heard).Packet?
    ensures SendData(env, st, m, target, len, true).mem.buffer == Zeros(BufferSize + 1)
  {
    var s1 := EmitData(env, st, m, target, len);
    var nonce := NonceAt(env, st.draws);
    assert SendData(env, st, m, target, len, true) == SettleData(env, AckWait(env, s1, nonce, 0), true);
    AckWaitClears(env, s1, nonce, 0);
  }

  /** strncpy from an empty buffer writes only zeros. */
  lemma {:induction false} CopyFromEmpty(k: nat)
    requires k <= BufferSize - 4
    ensures StrNCopy(Zeros(BufferSize + 1)[4..], k) + Zeros(BufferSize + 1 - k) == Zeros(BufferSize + 1)
  {
    var z := Zeros(BufferSize + 1)[4..];
    if k > 0 {
      assert z[0] == NUL;
    }
    assert StrNLen(z, k) == 0;
    assert StrNCopy(z, k) == Zeros(k);
  }

  /** A data frame copied into _buffer by strcpy: its string is len + 7
      characters long, it passes the filter of the board it names, and the
      strncpy of line 268 takes the message back out of it. */
  lemma {:induction false} DataFrameCopiedIn(buf: seq<char>, net: seq<char>, board: char, m: seq<char>, len: uint8, nonce: seq<char>)
    requires |buf| == BufferSize + 1 && NetworkId(net) && board != NUL
    requires |nonce| == 3 && NUL !in nonce
    requires 1 <= len <= 121 && len <= |m| && forall i :: 0 <= i < len - 1 ==> m[i] != NUL
    ensures var f := DataFrame(net, board, m, len, nonce);
      NUL in f && CStrLen(f) == len + 7 &&
      var b := StrCpy(buf, f);
      CStrLen(b) == len + 7 && Filter(b, net, board, false) == Accepted &&
      StrNCopy(b[4..], len - 1) == m[..len - 1]
  {
    var f := DataFrame(net, board, m, len, nonce);
    DataFrameString(net, board, m, len, nonce);
    DataFrameAccepted(buf, net, board, m, len, nonce);
    var b := StrCpy(buf, f);
    var n := len + 7;
    forall i | 0 <= i < len - 1 ensures b[4..][i] == m[i] {
      assert b[4..][i] == b[..n][4 + i] == f[..n][4 + i];
      assert f[4..3 + len][i] == m[..len - 1][i];
    }
    StrNCopyPlain(b[4..], len - 1);
  }

  /** A frame that passes the filter of a normal receive and is at least 8
      characters long, with the radio silent during the ack wait of the
      acknowledgement, is reported as received with msg holding the
      characters from index 4 up to its last four, padded with NUL. */
  lemma {:induction false} QuietReceive(env: Env, st: St)
    requires Good(st) && Filter(st.mem.buffer, st.net, st.board, false) == Accepted
    requires CStrLen(st.mem.buffer) >= 8
    requires forall k :: st.heard <= k < st.heard + MaxRetries ==> !env.radio(k).Packet?
    ensures ReceiveDefined(env, st) && ReceiveData(env, st).1
    ensures var k := CStrLen(st.mem.buffer) - 8;
      ReceiveData(env, st).0.mem.msg == StrNCopy(st.mem.buffer[4..], k) + Zeros(BufferSize + 1 - k)
  {
    QuietAutoAck(env, st.(msgLength := CStrLen(st.mem.buffer)));
    ReceiveDataAccepts(env, st);
  }

  /** An auto-ack that hears no packet in any of its ack waits leaves
      _buffer, msg and msg_length as they were. */
  lemma {:induction false} QuietAutoAck(env: Env, st: St)
    requires Good(st) && 5 <= st.msgLength
    requires forall k :: st.heard <= k < st.heard + MaxRetries ==> !env.radio(k).Packet?
    ensures AutoAck(env, st).mem == st.mem && AutoAck(env, st).msgLength == st.msgLength
  {
    var s1 := StatusChange(st, Receiving);
    var payload := st.mem.buffer[st.msgLength - 3..];
    assert AutoAck(env, st) == SendData(env, s1, payload, st.board, 4, true);
    SilentSendKeepsBuffers(env, s1, payload, st.board, 4);
  }

  /** The round trip of a data frame: on the board it is addressed to, _read
      accepts it and, when the radio stays silent during the ack wait of the
      acknowledgement, leaves in msg the sent message without its terminator,
      padded with NUL. */
  lemma {:induction false} DataFrameDelivered(env: Env, st: St, m: seq<char>, len: uint8, nonce: seq<char>, f: seq<char>)
    requires Good(st) && st.board != NUL
    requires |nonce| == 3 && NUL !in nonce
    requires 1 <= len <= 121 && len <= |m| && forall i :: 0 <= i < len - 1 ==> m[i] != NUL
    requires forall k :: st.heard <= k < st.heard + MaxRetries ==> !env.radio(k).Packet?
    requires f == DataFrame(st.net, st.board, m, len, nonce)
    ensures NUL in f && CStrLen(f) <= BufferSize &&
      ReceiveDefined(env, CopyIn(st, f)) &&
      Read(env, st, f).1 && Read(env, st, f).0.mem.msg == m[..len - 1] + Zeros(BufferSize + 2 - len)
  {
    DataFrameCopiedIn(st.mem.buffer, st.net, st.board, m, len, nonce);
    QuietRead(env, st, f, len - 1, m[..len - 1], BufferSize + 2 - len);
  }

  /** _read of a packet that passes the filter, is k + 8 characters long and
      is followed by quiet air stores the k characters from index 4, then pad
      NULs up to the end of msg. */
  lemma {:induction false} QuietRead(env: Env, st: St, p: Payload, k: nat, expected: seq<char>, pad: nat)
    requires Good(st) && Filter(StrCpy(st.mem.buffer, p), st.net, st.board, false) == Accepted
    requires CStrLen(p) == k + 8 && k + pad == BufferSize + 1
    requires StrNCopy(StrCpy(st.mem.buffer, p)[4..], k) == expected
    requires forall j :: st.heard <= j < st.heard + MaxRetries ==> !env.radio(j).Packet?
    ensures ReceiveDefined(env, CopyIn(st, p)) && Read(env, st, p).1
    ensures Read(env, st, p).0.mem.msg == expected + Zeros(pad)
  {
    var c := CopyIn(st, p);
    assert c.mem.buffer == StrCpy(st.mem.buffer, p) && c.heard == st.heard;
    QuietReceive(env, c);
    assert Read(env, st, p) == ReceiveData(env, c);
  }

  /** Re-entry of _process_input: when the radio delivers any packet during the
      first wait of the acknowledgement, the nested ack check zeroes _buffer
      before msg is filled from it, so a frame reported as received (true)
      leaves msg empty. */
  lemma {:induction false} AckTrafficErasesMessage(env: Env, st: St)
    requires Good(st) && ReceiveDefined(env, st)
    requires Filter(st.mem.buffer, st.net, st.board, false) == Accepted
    requires env.radio(st.heard).Packet?
    ensures ReceiveData(env, st).1 && ReceiveData(env, st).0.mem.msg == Zeros(BufferSize + 1)
  {
    ReceiveDataAccepts(env, st);
    var s1 := st.(msgLength := CStrLen(st.mem.buffer));
    AutoAckIsRetryingDataFrame(env, s1);
    AnsweredSendClearsBuffer(env, StatusChange(s1, Receiving), s1.mem.buffer[s1.msgLength - 3..], st.board, 4);
    var a := AutoAck(env, s1);
    assert a.mem.buffer == Zeros(BufferSize + 1);
    CopyFromEmpty(a.msgLength - 8);
  }

  /** Each nonce character is alphanum[random(0, 62)], the k-th, (k+1)-th and
      (k+2)-th draws in turn; so all three are letters or digits and none is
      the terminator. */
  lemma {:induction false} NonceAlphanumeric(env: Env, k: nat)
    ensures |Alphanumeric| == 62
    ensures forall i :: 0 <= i < 3 ==> NonceAt(env, k)[i] == Alphanumeric[env.random(k + i)]
    ensures forall i :: 0 <= i < 3 ==> IsAlphanumeric(NonceAt(env, k)[i])
    ensures NUL !in NonceAt(env, k)
  {
    AlphaIsAlphabet();
    var nonce := NonceAt(env, k);
    assert forall i :: 0 <= i < 3 ==> nonce[i] == Alpha(env.random(k + i));
  }

  /** A data frame of a one-character message such as the keep-alive "9":
      network id, board, '.', the character, '.', nonce and terminator. */
  lemma {:induction false} OneCharFrame(net: seq<char>, board: char, c: char, nonce: seq<char>)
    requires NetworkId(net) && |nonce| == 3 && c != NUL
    ensures DataFrame(net, board, [c, NUL], 2, nonce) == [net[0], net[1], board, '.', c, '.'] + nonce + [NUL]
  {
    assert StrNLen([c, NUL], 2) == 1;
    assert StrNCopy([c, NUL], 2) == [c, NUL];
  }

  /** When ping() fires it reports PING_START, transmits exactly one
      keep-alive frame to this board's own id, waits for no ack, and restarts
      the timer from a second reading of millis(). */
  lemma {:induction false} PingFiresOnce(env: Env, st: St)
    requires Good(st) && env.millis(st.ticks) >= PingDue(st.lastSend)
    ensures var r := Ping(env, st);
      r.io.sent == st.io.sent + [[st.net[0], st.net[1], st.board, '.', '9', '.'] + NonceAt(env, st.draws) + [NUL]] &&
      r.heard == st.heard && r.mem == st.mem && r.msgLength == st.msgLength &&
      r.draws == st.draws + 3 && r.ticks == st.ticks + 2 && r.lastSend == env.millis(st.ticks + 1) &&
      r.io.trace == st.io.trace + (if st.callback then [PingStart, Ok] else [])
  {
    PingFires(env, st);
    var s1 := StatusChange(st.(ticks := st.ticks + 1), PingStart);
    SendDataEffects(env, s1, PingMessage, st.board, 2, false);
    OneCharFrame(st.net, st.board, '9', NonceAt(env, st.draws));
  }

  /** The keep-alive restarts the timer: away from the uint32 wrap, a ping()
      that fires is followed by one that only reads the clock, as long as
      fewer than _ping_interval milliseconds have passed since the frame. */
  lemma {:induction false} PingTwice(env: Env, st: St)
    requires Good(st) && env.millis(st.ticks) >= PingDue(st.lastSend)
    requires env.millis(st.ticks + 1) < 0x1_0000_0000 - PingInterval
    requires env.millis(st.ticks + 2) < env.millis(st.ticks + 1) + PingInterval
    ensures var r := Ping(env, st);
      |r.io.sent| == |st.io.sent| + 1 && Ping(env, r) == r.(ticks := r.ticks + 1)
  {
    PingFiresOnce(env, st);
    PingIdle(env, Ping(env, st));
  }

  /** _last_send + _ping_interval is a uint32 sum: within the last
      _ping_interval milliseconds before millis() wraps round it wraps first,
      and from a frame sent then on, every call of ping() fires however little
      time has passed. */
  lemma {:induction false} PingWrapFiresEarly(env: Env, st: St)
    requires Good(st) && 0x1_0000_0000 - PingInterval <= st.lastSend <= env.millis(st.ticks)
    ensures PingDue(st.lastSend) < st.lastSend
    ensures Ping(env, st) == KeepAlive(env, st.(ticks := st.ticks + 1))
  {
    PingFires(env, st);
  }

  /** _send_boot_msg() transmits one data frame "1" to this board's own id
      and waits for no ack. */
  lemma {:induction false} BootFrame(env: Env, st: St)
    requires Good(st)
    ensures var r := SendBootMsg(env, st);
      r.io.sent == st.io.sent + [[st.net[0], st.net[1], st.board, '.', '1', '.'] + NonceAt(env, st.draws) + [NUL]] &&
      r.heard == st.heard && r.mem == st.mem && r.lastSend == env.millis(st.ticks)
  {
    SendDataEffects(env, st, BootMessage, st.board, 2, false);
    OneCharFrame(st.net, st.board, '1', NonceAt(env, st.draws));
  }

  /** send() reports SENDING, then transmits exactly one data frame to the
      board it names. */
  lemma {:induction false} SendMessageEffects(env: Env, st: St, m: seq<char>, target: char, len: uint8, requestReply: bool)
    requires Good(st) && Readable(m, len) && len <= 121
    ensures var r := SendMessage(env, st, m, target, len, requestReply);
      r.io.sent == st.io.sent + [DataFrame(st.net, target, m, len, NonceAt(env, st.draws))] &&
      (st.callback ==> |st.io.trace| < |r.io.trace| && r.io.trace[|st.io.trace|] == Sending)
  {
    var s1 := StatusChange(st, Sending);
    SendDataEffects(env, s1, m, target, len, requestReply);
  }

  /** available() is true exactly when the radio delivers a packet that passes
      the filter of a normal receive; when it is false, msg is as it was and
      nothing was transmitted. */
  lemma {:induction false} AvailableIffAccepted(env: Env, st: St)
    requires Good(st) && AvailableDefined(env, st)
    ensures var e := env.radio(st.heard);
      var r := Available(env, st);
      (r.1 <==> e.Packet? && Filter(StrCpy(st.mem.buffer, e.bytes), st.net, st.board, false) == Accepted) &&
      (!r.1 ==> r.0.mem.msg == st.mem.msg && r.0.io.sent == st.io.sent)
  {
    var e := env.radio(st.heard);
    if e.Packet? {
      var s := CopyIn(StatusChange(st.(heard := st.heard + 1), Reading), e.bytes);
      assert Available(env, st) == ReceiveData(env, s);
      if Filter(s.mem.buffer, s.net, s.board, false) == Accepted {
        ReceiveDataAccepts(env, s);
      } else {
        ProcessInputRejects(env, s, false);
      }
    }
  }
}
