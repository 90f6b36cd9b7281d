# Commander: a verified model of a LoRa command protocol

Commander is an Arduino library. It sends and receives short text commands
over a LoRa radio. Each board has a two-character network id and a one-character board id.

- **Data frames.** A command goes out as a data frame:
  - the network id, the target board, then `.`;
  - the message, with its last character overwritten by `.`;
  - three random letters or digits (the nonce), then a terminator.
- **Acknowledgements.** After sending a data frame the sender may wait for an
  acknowledgement. It makes up to three passes of 300 ms. It accepts an
  acknowledgement frame (`>` in place of the `.`) whose last three characters
  equal its nonce.
- **Receiving.** The receiver checks each frame's network id, board id and
  separator. It acknowledges the frame and stores the message in `msg`.
- **Keep-alive.** `ping()` sends a frame "9" to the board's own id when 5000 ms
  have passed since the last data frame.
- **Status callback.** A callback, if one is registered, is told the protocol
  status at each step (OK, READING, RECEIVING, SENDING, AWAITING_RESPONSE,
  NO_RESPONSE, PING_START).

The model has two layers:

- **Specification.** Module `Machine` holds one function per operation of
  `Commander.cpp`. Each works on a record `St` of the object's state: the
  three buffers, `msg_length`, `_last_send` and the callback registration.
  The record also holds what the object exchanges with its surroundings:
  - the frames transmitted;
  - the statuses passed to the callback;
  - how many times the radio, `random(0, 62)` and `millis()` have been called.
- **Imperative layer.** Module `Device` has class `Commander`. Its fields and
  fixed-size arrays are those of the C++ object. Each method is proved to
  leave the object in the state the `Machine` function describes.

The radio, `random()` and `millis()` are not modelled as devices. They enter as
`Env`, a record of three value streams: the k-th call gets the k-th value.

The supporting modules:

- `CString`: `strlen`, `strcpy`, `strncpy` and `memset`, both as functions on
  sequences and as loops over arrays.
- `Types`: the header's constants, the alphabet and the status enum.
- `Frames`: the frame layouts and the address filter of `_process_input`.
- `Properties`: the lemmas that relate several operations: what a send
  transmits and reports, what a receive stores, when a ping fires.

Where the description of the protocol and the code disagree, the model
follows the code:

- **The automatic acknowledgement is a data frame.** The receiver
  acknowledges with the four-argument `_send` (Commander.cpp:101-103). That
  function passes `do_retry` and `is_ack` in each other's places. So the
  acknowledgement is not an ack frame echoing the nonce. It is a retrying data
  frame to the receiver's own board id, with a nonce of its own.
  - The ack branch of `_send` is never reached from the library's own calls.
  - A sender's ack check never accepts such a frame
    (`Properties.AutoAckNeverAccepted`).
- **The stored message loses its last character.** The stored message is
  `msg_length - 8` characters from index 4. A data frame whose message is `len`
  characters long therefore delivers only its first `len - 1` characters:
  the `.` that replaced the last one is not kept. "HELLO" sent with `len` 5
  arrives as "HELL", not "HELL." (`Properties.DataFrameDelivered`).
- **The terminator goes on the air.** A data frame is sent as `4 + len + 4`
  characters, which includes the terminator. An ack frame is sent as `4 + len`.
- **AWAITING_RESPONSE is reported once.** It comes only before the second pass
  of the acknowledgement wait (`retries == 1`), not before every later pass.
  It is reported exactly when the first pass found no matching acknowledgement
  (`Properties.AwaitingResponseIffFirstPassMissed`).
- **There is no "acknowledged" status.** A send that waited for no reply, or
  that got one, reports OK.
- **The keep-alive threshold wraps.** `_last_send + _ping_interval` is a `uint32`
  sum compared with `>=`. It wraps near 2^32, and `ping()` then fires at every
  call (`Properties.PingWrapFiresEarly`).
- **`send(msg, len)` goes to this board.** The three-argument `send` addresses
  `_board_id`, this board's own id.
- **A packet during the acknowledgement wait erases the message.** The
  acknowledgement wait shares `_buffer` and `msg_length` with the receive in
  progress. A packet heard in the first pass of that wait erases the received message, yet
  `available()` still returns true (`Properties.AckTrafficErasesMessage`).

## Model

| member | source | states |
|---|---|---|
| CString.CStrLen | Commander.cpp:217 | strlen: the result indexes a NUL and no character before it is a NUL |
| CString.CStrLenAt | Commander.cpp:217 | the first NUL is unique: any NUL with no NUL before it is at strlen |
| CString.StrCpy | Commander.cpp:207 | strcpy: same length as the destination; the source's string and its NUL are copied; the rest of the destination is unchanged; the result's strlen is the source's |
| CString.StrNLen | Commander.cpp:133 | at most n characters, none a NUL, stopping at a NUL when it stops before n |
| CString.StrNCopy | Commander.cpp:133 | strncpy writes exactly n characters |
| CString.StrNCopyPlain | Commander.cpp:268 | a source without NUL in its first n characters is copied unchanged |
| CString.MemSet | Commander.cpp:293 | the whole array becomes NUL |
| CString.StrLen | Commander.cpp:217 | the scanning loop returns the index of the first NUL |
| CString.StrCpyTo | Commander.cpp:207 | the array afterwards equals StrCpy of its old contents |
| CString.StrNCpyTo | Commander.cpp:114-115 | the n characters from the offset become StrNCopy of the source; everything else is untouched |
| Types.AlphabetIsAlphanumeric | Commander.h:23 | the alphabet has 62 characters, all letters or digits, every letter and digit among them, no two equal |
| Types.Alpha | Commander.cpp:140 | character i of the alphabet is a letter or a digit |
| Types.AlphaIsAlphabet | Commander.h:23 | Alpha(i) is the character at index i of the alphabet, for every i from 0 to 61 |
| Types.StatusCode | Commander.h:37-46 | every status has a value below 8 |
| Types.StatusCodesFollowDeclarationOrder | Commander.h:37-46 | the enum numbers its eight values 0 to 7 in declaration order, and the numbering is a bijection |
| Frames.DataHead | Commander.cpp:113-136 | len + 4 characters: network id, target, '.', the strncpy of the message with its last character replaced by '.' |
| Frames.DataFrame | Commander.cpp:107-144 | len + 8 characters: the head, then the three nonce characters, then the NUL left by memset |
| Frames.AckFrame | Commander.cpp:113-123 | 4 + len characters: network id, target, '>', then the strncpy of the payload |
| Frames.Filter | Commander.cpp:217-258 | accepted exactly when strlen >= 5, the network id matches, and (ack mode) character 3 is '>' or (normal mode) the board matches and character 3 is '.'; the verdicts it names are consistent with that order |
| Frames.FilterVerdicts | Commander.cpp:217-258 | each rejection verdict (too short, wrong network, not an ack, wrong board, not data) holds exactly when the checks before it pass and its own fails |
| Frames.DataFrameString | Commander.cpp:132-144 | a data frame with no NUL in its message is a C string of len + 7 characters carrying the first len - 1 message characters |
| Frames.DataFrameAccepted | Commander.cpp:246-257 | a data frame copied in on its own network and board passes the normal filter |
| Frames.ForeignNetworkRejected | Commander.cpp:225-229 | a frame from another network id is never accepted, in either mode |
| Frames.DataFrameIsNotAnAck | Commander.cpp:232-238 | a data frame is never accepted by the ack check |
| Frames.AckFrameOnlyAcceptedAsAck | Commander.cpp:232-257 | an ack frame is a C string of len + 3 characters; it passes the ack check and is rejected as not data by a normal receive |
| Machine.StatusChange | Commander.cpp:281-285 | the callback trace gains the status exactly when a callback is registered; nothing else changes |
| Machine.Cleanup | Commander.cpp:292-295 | _buffer becomes all NUL; nothing else changes |
| Machine.Transmit | Commander.cpp:123-124 | rf95.send and waitPacketSent: the frame is appended to the frames sent; nothing else changes |
| Machine.Listen | Commander.cpp:165-166 | one radio query: the next event of the radio stream, and the query counter advances by one |
| Machine.CopyIn | Commander.cpp:169 | strcpy of a packet into _buffer keeps the state invariant (_buffer stays terminated) |
| Machine.NonceAt | Commander.cpp:139-141 | three characters, one per draw (Properties.NonceAlphanumeric states which) |
| Machine.AckCheck | Commander.cpp:215-244 | returns true exactly when the ack filter accepts; msg_length becomes strlen; _buffer is zeroed; on acceptance msg_rand becomes the three characters before the terminator and a NUL, on rejection it is unchanged; OK is reported only on acceptance; nothing is sent and msg is untouched |
| Machine.NonceMatches | Commander.cpp:173-177 | the three character comparisons hold exactly when the first three characters of msg_rand are the nonce |
| Machine.AckAttempt | Commander.cpp:160-185 | one radio query, nothing sent; true only when msg_rand equals the nonce (Properties.AckAttemptMatches gives both directions) |
| Machine.AckWait | Commander.cpp:150-186 | nothing sent; true only with msg_rand equal to the nonce after 1 to 3 queries; false after exactly 3 queries (Properties.AckFrameEndsWait gives the early exit) |
| Machine.SendAck | Commander.cpp:117-128 | exactly the ack frame is transmitted and OK reported; _last_send and all else unchanged |
| Machine.EmitData | Commander.cpp:131-145 | keeps the invariant and the identity (its effect is stated by Properties.SendDataEffects) |
| Machine.SettleData | Commander.cpp:188-199 | keeps the invariant and the identity (its effect is stated by Properties.SendDataEffects) |
| Machine.SendData | Commander.cpp:129-199 | keeps the invariant and the identity (its effect is stated by Properties.SendDataEffects) |
| Machine.Send | Commander.cpp:105-200 | keeps the invariant and the identity; either branch of _send |
| Machine.SendOwn | Commander.cpp:101-103 | keeps the invariant and the identity; do_retry and is_ack are exchanged (Device.Commander.SendOwn states it) |
| Machine.AutoAck | Commander.cpp:259-262 | keeps the invariant and the identity (Properties.AutoAckIsRetryingDataFrame states what it sends) |
| Machine.StoreMessage | Commander.cpp:264-268 | only msg changes |
| Machine.ReceiveData | Commander.cpp:215-276 | keeps the invariant and the identity (ProcessInputRejects and ReceiveDataEffects state both outcomes) |
| Machine.ProcessInput | Commander.cpp:215-276 | keeps the invariant and the identity, in both modes |
| Machine.ProcessInputRejects | Commander.cpp:219-257 | a dropped frame returns false; only msg_length is set and _buffer zeroed |
| Machine.Read | Commander.cpp:205-209 | keeps the invariant and the identity |
| Machine.Available | Commander.cpp:59-77 | keeps the invariant and the identity (Properties.AvailableIffAccepted states its result) |
| Machine.SendMessage | Commander.cpp:79-87 | keeps the invariant and the identity (Properties.SendMessageEffects states its effect) |
| Machine.PingDue | Commander.cpp:90 | the uint32 sum _last_send + 5000 modulo 2^32 |
| Machine.KeepAlive | Commander.cpp:91-93 | keeps the invariant and the identity |
| Machine.Ping | Commander.cpp:89-95 | keeps the invariant and the identity (Properties.PingFiresOnce states its effect) |
| Machine.PingIdle | Commander.cpp:90 | before the due time ping() only reads millis() |
| Machine.SendBootMsg | Commander.cpp:287-290 | keeps the invariant and the identity (Properties.BootFrame states its effect) |
| Device.Commander.constructor | Commander.cpp:11-14 | the object holds the ids, zeroed buffers, _last_send 0, no callback, nothing sent |
| Device.Commander.SetStatusCallback | Commander.cpp:16-18 | only the callback registration changes |
| Device.Commander.StatusChange | Commander.cpp:281-285 | the object equals Machine.StatusChange of its old state |
| Device.Commander.Cleanup | Commander.cpp:292-295 | the object equals Machine.Cleanup of its old state |
| Device.Commander.Listen | Commander.cpp:165-166 | the event and the object are Machine.Listen of the old state |
| Device.Commander.ProcessInput | Commander.cpp:215-276 | result and object are Machine.AckCheck or Machine.ReceiveData of the old state |
| Device.Commander.Reject | Commander.cpp:219-257 | the cleanup of a dropped frame gives the rejecting outcome of _process_input |
| Device.Commander.AcceptAck | Commander.cpp:240-275 | the accepting outcome of the ack check |
| Device.Commander.AcceptData | Commander.cpp:259-275 | the accepting outcome of a normal receive |
| Device.Commander.TakeNonce | Commander.cpp:240-244 | msg_rand becomes the three characters before the terminator, then NUL |
| Device.Commander.StoreMessage | Commander.cpp:264-268 | the object equals Machine.StoreMessage of its old state |
| Device.Commander.SendOwn | Commander.cpp:101-103 | do_retry selects the ack branch and is_ack the retry flag, to this board |
| Device.Commander.Address | Commander.cpp:107-115 | send_buffer is the network id, the target, then NULs |
| Device.Commander.PutAck | Commander.cpp:119-120 | send_buffer starts with the ack frame |
| Device.Commander.PutData | Commander.cpp:132-136 | send_buffer is the data head followed by NULs |
| Device.Commander.AppendNonce | Commander.cpp:139-141 | the three nonce draws follow the head, then a NUL |
| Device.Commander.ReadAck | Commander.cpp:169-172 | the copy and the ack check are Machine.AckCheck of Machine.CopyIn |
| Device.Commander.AckAttempt | Commander.cpp:161-184 | one pass of the retry loop equals Machine.AckAttempt |
| Device.Commander.NonceEchoed | Commander.cpp:173-177 | true exactly when msg_rand holds the nonce |
| Device.Commander.AwaitAck | Commander.cpp:150-186 | the retry loop equals Machine.AckWait from pass 0 |
| Device.Commander.SendFrame | Commander.cpp:105-200 | the object equals Machine.SendAck or Machine.SendData of its old state |
| Device.Commander.EmitData | Commander.cpp:131-145 | the object equals Machine.EmitData; send_buffer holds the nonce |
| Device.Commander.FinishData | Commander.cpp:188-199 | the object equals Machine.SettleData |
| Device.Commander.SendDataFrame | Commander.cpp:129-199 | the object equals Machine.SendData of its old state |
| Device.Commander.Read | Commander.cpp:205-209 | result and object equal Machine.Read |
| Device.Commander.Available | Commander.cpp:59-77 | result and object equal Machine.Available |
| Device.Commander.Send | Commander.cpp:79-82 | the object equals Machine.SendMessage to this board |
| Device.Commander.SendTo | Commander.cpp:84-87 | the object equals Machine.SendMessage to the named board |
| Device.Commander.Ping | Commander.cpp:89-95 | the object equals Machine.Ping of its old state |
| Device.Commander.KeepAlive | Commander.cpp:91-93 | the object equals Machine.KeepAlive of its old state |
| Device.Commander.SendBootMsg | Commander.cpp:287-290 | the object equals Machine.SendBootMsg of its old state |
| Properties.AckAttemptReports | Commander.cpp:161-184 | one pass only appends to the trace: OK on an accepted ack, AWAITING_RESPONSE only on the second pass and first; nothing without a callback |
| Properties.AckWaitReports | Commander.cpp:150-186 | the whole wait only appends OK and AWAITING_RESPONSE; a wait from pass 0 reports AWAITING_RESPONSE at most once, at the index right after the first pass's reports; from pass 1 only as its first report, from pass 2 never; nothing without a callback |
| Properties.AwaitingResponseIffFirstPassMissed | Commander.cpp:160-164 | AWAITING_RESPONSE is reported exactly when the first pass found no matching ack |
| Properties.AckAttemptMatches | Commander.cpp:165-179 | a pass returns true exactly when it hears a packet that the ack check accepts and whose three characters before the terminator equal the nonce |
| Properties.AckFrameMatches | Commander.cpp:117-123 | the ack frame echoing a nonce, copied into _buffer, passes the ack check and holds the nonce just before its terminator |
| Properties.AckFramePass | Commander.cpp:165-179 | a pass hearing that ack frame returns true |
| Properties.AckFrameStopsWait | Commander.cpp:160-185 | a wait whose first pass hears the matching ack frame stops with had_reply true after one query |
| Properties.AckFrameEndsWait | Commander.cpp:160-185 | with silence for k passes and then the matching ack frame, the wait stops with had_reply true after k + 1 queries |
| Properties.SendDataEffects | Commander.cpp:129-199 | exactly one data frame with the next three draws as nonce; msg untouched; _last_send is the next millis(); 1 to 3 queries when retrying, none otherwise; the last report is NO_RESPONSE exactly when retrying without a match |
| Properties.AckedSendReportsOk | Commander.cpp:150-193 | a retrying send whose wait hears the ack echoing its nonce ends on OK, not NO_RESPONSE, after k + 1 queries |
| Properties.OnlyDataRestartsTimer | Commander.cpp:196-199 | an ack frame leaves _last_send and millis() alone; a data frame sets _last_send to the next millis() |
| Properties.AutoAckIsRetryingDataFrame | Commander.cpp:259-262 | the acknowledgement is a retrying data frame to this board carrying the last three characters and a fresh nonce |
| Properties.ReceiveDataEffects | Commander.cpp:215-276 | an accepted data frame makes _read return true, sends exactly one frame (the auto-ack to the own board carrying the frame's last three characters and a fresh nonce), leaves _buffer zeroed, and reports RECEIVING first and OK last to a callback (none without one) |
| Properties.AutoAckNeverAccepted | Commander.cpp:232-238 | that frame is never accepted by the sender's ack check |
| Properties.AckWaitSilent | Commander.cpp:160-185 | with no packet on the air the wait fails and leaves the buffers and msg_length alone |
| Properties.AckWaitKeepsEmpty | Commander.cpp:160-185 | an empty _buffer stays empty through the wait |
| Properties.AckWaitClears | Commander.cpp:166-172 | a packet heard in the first pass of the wait leaves _buffer zeroed |
| Properties.AckWaitClearsAnyPass | Commander.cpp:160-186 | a packet heard in any pass the wait can reach leaves _buffer zeroed, whatever the earlier passes heard |
| Properties.SilentSendKeepsBuffers | Commander.cpp:150-199 | a retrying send with no packet on the air leaves the buffers and msg_length alone |
| Properties.AnsweredSendClearsBuffer | Commander.cpp:150-199 | a retrying send that hears a packet first leaves _buffer zeroed |
| Properties.CopyFromEmpty | Commander.cpp:264-268 | storing from an empty _buffer yields an all-NUL msg |
| Properties.DataFrameCopiedIn | Commander.cpp:205-258 | a data frame copied into _buffer has strlen len + 7, passes the filter, and carries the first len - 1 message characters at index 4 |
| Properties.QuietReceive | Commander.cpp:246-275 | an accepted frame with quiet air is stored as strlen - 8 characters from index 4, padded with NUL, and true is returned |
| Properties.QuietAutoAck | Commander.cpp:259-262 | an auto-ack with quiet air leaves the buffers and msg_length alone |
| Properties.DataFrameDelivered | Commander.cpp:205-275 | a data frame of len characters read in with quiet air yields msg = its first len - 1 message characters, padded with NUL; the receive returns true |
| Properties.QuietRead | Commander.cpp:205-275 | _read of any packet that passes the filter and is k + 8 characters long, followed by quiet air, returns true with msg holding its k characters from index 4, padded with NUL |
| Properties.AckTrafficErasesMessage | Commander.cpp:259-275 | a packet heard in the first pass of the auto-ack wait leaves msg all NUL while the receive still returns true |
| Properties.NonceAlphanumeric | Commander.cpp:139-141 | each nonce character is alphanumeric[random(0, 62)] of the next draw, a letter or digit, never NUL |
| Properties.OneCharFrame | Commander.cpp:132-144 | a one-character message gives the frame net, board, '.', c, '.', nonce, NUL |
| Properties.PingFiresOnce | Commander.cpp:89-95 | a firing ping sends exactly one frame "9" to this board, reports PING_START then OK, reads millis() twice, sets _last_send to the second reading |
| Properties.PingTwice | Commander.cpp:89-95 | away from the uint32 wrap, a ping() that fires sends one frame and restarts the timer, so a ping() less than 5000 ms later only reads the clock |
| Properties.PingWrapFiresEarly | Commander.cpp:90 | within 5000 ms of the uint32 wrap the due time is below _last_send and ping() fires |
| Properties.BootFrame | Commander.cpp:287-290 | the boot message is one frame "1" to this board; _last_send is the next millis() |
| Properties.SendMessageEffects | Commander.cpp:79-87 | send() transmits exactly one data frame to the board it names and reports SENDING first |
| Properties.AvailableIffAccepted | Commander.cpp:59-77 | available() is true exactly when a packet arrives and passes the normal filter; otherwise msg and the sent frames are unchanged |

## Left out

- `init()`: pin resets, radio set-up, Serial output and the endless loops on
  failure are hardware bring-up, not protocol. `ERROR` is reported only there,
  so no modelled operation reports it.
- `RH_RF95` is not part of this model. Each query of the radio, whether
  `available()` or a `waitAvailableTimeout` followed by `recv`, is one value of
  the `Env.radio` stream:
  - silence or a timeout;
  - a failed `recv`;
  - a packet.
- The 300 ms `_resend_delay` is not timed. One pass of the retry loop is one
  radio query.
- `random()` and `millis()`: each call is the next value of its stream. No
  distribution is assumed for `random()` and no monotonicity for `millis()`.
- The callback's effects are not modelled. It is an opaque function pointer,
  modelled only as registered or not, plus the sequence of statuses it
  receives. A callback that calls back into the object is out of scope.
- The constructor's `strcpy` overflows: it writes terminators past
  `_network_id[2]` and `_board_id[1]`. The model stores the two id characters
  and the board character only.
- `_status_callback` is not initialised by the constructor. The model
  assumes static storage, where it is null.
- Packets without a terminator inside `BUFFER_SIZE` characters overflow
  `_buffer` in `strcpy`. The `Payload` type excludes them.
- The `len` received from `recv` is not used by `_read`, and the model drops it.
- `ack_len` (Commander.cpp:155) is the capacity passed to `recv` in the ack
  wait, and `recv` overwrites it with the length it delivered. So after a short
  packet, a longer packet later in the same wait is cut to that earlier length.
  The model does not track this cut: each `Packet` of the radio stream stands
  for the bytes `recv` delivered after it.
- Machine.Send: the length bound comes from a buffer overflow in the source.
  `len` must be at most 121 for a data frame and at most 125 for an ack
  (`send_buffer` holds 129). `Readable` requires the message to be
  terminated or at least `len` long for `strncpy`. Both are preconditions,
  since overflowing `send_buffer` is undefined behaviour in the source.
- Machine.ReceiveData: `strncpy` at Commander.cpp:268 with
  `msg_length - 8 < 0` is undefined behaviour.
  - This happens when an accepted frame has strlen 5 to 7.
  - It also happens when the auto-ack's wait leaves a short `msg_length`.
  - The precondition `ReceiveDefined` excludes both.
  - `Available` and `Read` inherit it as `AvailableDefined`.
- `_buffer_i` is written by `_cleanup` and never read, so it is not modelled.
- The pin and frequency `#define`s, `RF95_FREQ` and the command format
  described in the header's comment lie outside the protocol.
- The status callback's argument is modelled as the `Status` datatype.
  `StatusCodesFollowDeclarationOrder` relates it to the enum's integer values.
