// The wire layout of the two frame kinds that _send assembles, and the
// address filter that _process_input applies to a received frame.

module Frames {
  import opened CString
  import opened Types

  /** A network id as the constructor stores it: two characters, neither a NUL. */
  predicate NetworkId(net: seq<char>)
  {
    |net| == 2 && NUL !in net
  }

  /** The first len + 4 characters of a data frame: network id, target board,
      '.', and len characters copied by strncpy from m with the last of them
      overwritten by '.'. */
  function DataHead(net: seq<char>, target: char, m: seq<char>, len: nat): (h: seq<char>)
    requires NetworkId(net) && Readable(m, len)
    ensures |h| == len + 4
    ensures h[0] == net[0] && h[1] == net[1] && h[2] == target && h[3] == '.'
    ensures 1 <= len ==> h[4..3 + len] == StrNCopy(m, len)[..len - 1]
    ensures h[3 + len] == '.'
  {
    (net + [target, '.'] + StrNCopy(m, len))[3 + len := '.']
  }

  /** A data frame: network id, target board, '.', len characters copied by
      strncpy from m with the last of them overwritten by '.', the three nonce
      characters and the terminator left by memset; len + 8 characters in all. */
  function DataFrame(net: seq<char>, target: char, m: seq<char>, len: nat, nonce: seq<char>): (f: seq<char>)
    requires NetworkId(net) && |nonce| == 3 && Readable(m, len)
    ensures |f| == len + 8
    ensures f[0] == net[0] && f[1] == net[1] && f[2] == target && f[3] == '.'
    ensures 1 <= len ==> f[4..3 + len] == StrNCopy(m, len)[..len - 1]
    ensures f[3 + len] == '.'
    ensures f[4 + len..7 + len] == nonce && f[7 + len] == NUL
  {
    DataHead(net, target, m, len) + nonce + [NUL]
  }

  /** An ack frame: network id, target board, '>' and len characters copied
      by strncpy from m; 4 + len characters in all. */
  function AckFrame(net: seq<char>, target: char, m: seq<char>, len: nat): (f: seq<char>)
    requires NetworkId(net) && Readable(m, len)
    ensures |f| == 4 + len
    ensures f[0] == net[0] && f[1] == net[1] && f[2] == target && f[3] == '>'
    ensures f[4..] == StrNCopy(m, len)
  {
    net + [target, '>'] + StrNCopy(m, len)
  }

  /** Why a received frame was dropped, or that it was accepted. */
  datatype Verdict = TooShort | WrongNetwork | NotAnAck | WrongBoard | NotData | Accepted

  /** The checks of _process_input on the string in _buffer, in the order the
      code makes them; the first that fails decides the verdict. */
  function Filter(buf: seq<char>, net: seq<char>, board: char, ackCheck: bool): (v: Verdict)
    requires NUL in buf && NetworkId(net)
    ensures v == Accepted <==>
      CStrLen(buf) >= 5 && buf[..2] == net &&
      (if ackCheck then buf[3] == '>' else buf[2] == board && buf[3] == '.')
    ensures v != TooShort ==> CStrLen(buf) >= 5
    ensures v != TooShort && v != WrongNetwork ==> buf[..2] == net
    ensures v == NotAnAck ==> ackCheck
    ensures v == WrongBoard || v == NotData ==> !ackCheck
  {
    var n := CStrLen(buf);
    if n < 5 then TooShort
    else if buf[0] != net[0] || buf[1] != net[1] then WrongNetwork
    else if ackCheck then (if buf[3] != '>' then NotAnAck else Accepted)
    else if buf[2] != board then WrongBoard
    else if buf[3] != '.' then NotData
    else Accepted
  }

  /** Each rejection is reported by the first check that fails, in the order
      of _process_input: every verdict holds exactly when the checks before
      its own pass and its own fails. */
  lemma {:induction false} FilterVerdicts(buf: seq<char>, net: seq<char>, board: char, ackCheck: bool)
    requires NUL in buf && NetworkId(net)
    ensures var v := Filter(buf, net, board, ackCheck);
      (v == TooShort <==> CStrLen(buf) < 5) &&
      (v == WrongNetwork <==> CStrLen(buf) >= 5 && buf[..2] != net) &&
      (v == NotAnAck <==> CStrLen(buf) >= 5 && buf[..2] == net && ackCheck && buf[3] != '>') &&
      (v == WrongBoard <==> CStrLen(buf) >= 5 && buf[..2] == net && !ackCheck && buf[2] != board) &&
      (v == NotData <==> CStrLen(buf) >= 5 && buf[..2] == net && !ackCheck && buf[2] == board && buf[3] != '.')
  {
  }

  /** The C string a data frame carries when nothing before its terminator is a NUL:
      everything but the final terminator. */
  lemma {:induction false} DataFrameString(net: seq<char>, target: char, m: seq<char>, len: nat, nonce: seq<char>)
    requires NetworkId(net) && |nonce| == 3 && NUL !in nonce && target != NUL
    requires 1 <= len <= |m| && forall i :: 0 <= i < len - 1 ==> m[i] != NUL
    ensures NUL in DataFrame(net, target, m, len, nonce)
    ensures CStrLen(DataFrame(net, target, m, len, nonce)) == len + 7
    ensures DataFrame(net, target, m, len, nonce)[4..3 + len] == m[..len - 1]
  {
    var f := DataFrame(net, target, m, len, nonce);
    StrNCopyPlain(m, len - 1);
    assert StrNLen(m, len) >= len - 1;
    forall i | 0 <= i < len + 7 ensures f[i] != NUL {
      if i < 2 {
        assert f[i] == net[i];
        assert net[i] in net;
      } else if 4 + len <= i {
        assert f[i] == nonce[i - 4 - len];
        assert nonce[i - 4 - len] in nonce;
      }
    }
    CStrLenAt(f, len + 7);
  }

  /** A data frame that reaches the board it is addressed to, on its own network,
      passes the filter of a normal receive. */
  lemma {:induction false} DataFrameAccepted(buf: seq<char>, net: seq<char>, board: char, m: seq<char>, len: nat, nonce: seq<char>)
    requires NetworkId(net) && |nonce| == 3 && NUL !in nonce && board != NUL
    requires 1 <= len <= |m| && forall i :: 0 <= i < len - 1 ==> m[i] != NUL
    requires len + 7 < |buf|
    ensures Filter(StrCpy(buf, DataFrame(net, board, m, len, nonce)), net, board, false) == Accepted
  {
    DataFrameString(net, board, m, len, nonce);
  }

  /** Channel isolation: whatever the mode and the other fields, a frame whose
      first two characters are not this network id is never accepted. */
  lemma {:induction false} ForeignNetworkRejected(buf: seq<char>, net: seq<char>, board: char, ackCheck: bool)
    requires NUL in buf && NetworkId(net) && |buf| >= 2 && buf[..2] != net
    ensures Filter(buf, net, board, ackCheck) != Accepted
  {
  }

  /** A data frame is never taken for an ack: in ack-check mode its '.'
      separator rejects it if nothing earlier does. */
  lemma {:induction false} DataFrameIsNotAnAck(buf: seq<char>, net: seq<char>, target: char, board: char, m: seq<char>, len: nat, nonce: seq<char>)
    requires NetworkId(net) && |nonce| == 3 && Readable(m, len)
    requires NUL in DataFrame(net, target, m, len, nonce)
    requires CStrLen(DataFrame(net, target, m, len, nonce)) < |buf|
    ensures Filter(StrCpy(buf, DataFrame(net, target, m, len, nonce)), net, board, true) != Accepted
  {
    var f := DataFrame(net, target, m, len, nonce);
    var b := StrCpy(buf, f);
    if CStrLen(b) >= 5 {
      assert b[3] == f[3];
    }
  }

  /** An ack frame such as "AB1>xyz" (sent with its terminator, len 4) passes
      the filter in ack-check mode on its network, and is dropped as not a data
      frame by a normal receive on the board it names. */
  lemma {:induction false} AckFrameOnlyAcceptedAsAck(buf: seq<char>, net: seq<char>, board: char, m: seq<char>, len: nat)
    requires NetworkId(net) && board != NUL && 2 <= len <= |m|
    requires forall i :: 0 <= i < len - 1 ==> m[i] != NUL
    requires m[len - 1] == NUL && len + 3 < |buf|
    ensures NUL in AckFrame(net, board, m, len) && CStrLen(AckFrame(net, board, m, len)) == len + 3
    ensures Filter(StrCpy(buf, AckFrame(net, board, m, len)), net, board, true) == Accepted
    ensures Filter(StrCpy(buf, AckFrame(net, board, m, len)), net, board, false) == NotData
  {
    var f := AckFrame(net, board, m, len);
    StrNCopyPlain(m, len - 1);
    assert StrNLen(m, len) == len - 1;
    forall i | 0 <= i < len + 3 ensures f[i] != NUL {
      if i < 2 {
        assert net[i] in net;
      } else if i >= 4 {
        assert f[i] == m[i - 4];
      }
    }
    assert f[len + 3] == NUL;
    CStrLenAt(f, len + 3);
    var b := StrCpy(buf, f);
    assert b[..2] == net && b[2] == board && b[3] == '>';
  }
}
