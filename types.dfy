// The declarations of the Commander header: integer widths, the buffer
// capacity, the nonce alphabet, the status enum and the timing constants.

module Types {

  type uint8 = x: int | 0 <= x < 0x100
  type uint32 = x: int | 0 <= x < 0x1_0000_0000

  /** BUFFER_SIZE; _buffer and msg hold BUFFER_SIZE + 1 characters. */
  const BufferSize: nat := 128

  /** Size of msg_rand: three nonce characters and a terminator. */
  const RandSize: nat := 4

  /** What random(0, 62) returns: a number from 0 to 61, an index into the
      62 characters of Alphanumeric (AlphabetIsAlphanumeric counts them). */
  type Index62 = x: int | 0 <= x < 62

  predicate IsAlphanumeric(c: char)
  {
    'a' <= c <= 'z' || 'A' <= c <= 'Z' || '0' <= c <= '9'
  }

  /** The three runs of the alphabet. */
  const Lowercase: seq<char> := "abcdefghijklmnopqrstuvwxyz"
  const Uppercase: seq<char> := "ABCDEFGHIJKLMNOPQRSTUVWXYZ"
  const Digits: seq<char> := "0123456789"

  /** The alphabet nonce characters are drawn from: the lower-case letters,
      the upper-case letters and the digits, in that order, without the
      terminator of the C literal. */
  const Alphanumeric: seq<char> := Lowercase + Uppercase + Digits

  /** The character at position i of a run of consecutive code points from lo. */
  predicate RunFrom(s: seq<char>, lo: char)
  {
    forall i :: 0 <= i < |s| ==> s[i] as int == lo as int + i
  }

  lemma LowercaseRun()
    ensures |Lowercase| == 26 && RunFrom(Lowercase, 'a')
  {
  }

  lemma UppercaseRun()
    ensures |Uppercase| == 26 && RunFrom(Uppercase, 'A')
  {
  }

  lemma DigitsRun()
    ensures |Digits| == 10 && RunFrom(Digits, '0')
  {
  }

  /** A sequence made of the three runs a-z, A-Z, 0-9 holds each letter and digit exactly once. */
  lemma {:induction false} RunsAreAlphanumeric(s: seq<char>, lower: seq<char>, upper: seq<char>, digits: seq<char>)
    requires s == lower + upper + digits
    requires |lower| == 26 && RunFrom(lower, 'a')
    requires |upper| == 26 && RunFrom(upper, 'A')
    requires |digits| == 10 && RunFrom(digits, '0')
    ensures |s| == 62
    ensures forall i :: 0 <= i < |s| ==> IsAlphanumeric(s[i])
    ensures forall c :: IsAlphanumeric(c) ==> c in s
    ensures forall i, j :: 0 <= i < j < |s| ==> s[i] != s[j]
  {
    assert forall i :: 0 <= i < 26 ==> s[i] == lower[i];
    assert forall i :: 26 <= i < 52 ==> s[i] == upper[i - 26];
    assert forall i :: 52 <= i < 62 ==> s[i] == digits[i - 52];
    forall c | IsAlphanumeric(c) ensures c in s {
      if 'a' <= c <= 'z' {
        assert s[c as int - 'a' as int] == c;
      } else if 'A' <= c <= 'Z' {
        assert s[26 + c as int - 'A' as int] == c;
      } else {
        assert s[52 + c as int - '0' as int] == c;
      }
    }
  }

  /** The alphabet is exactly the 62 letters and digits, each once. */
  lemma AlphabetIsAlphanumeric()
    ensures |Alphanumeric| == 62
    ensures forall i :: 0 <= i < |Alphanumeric| ==> IsAlphanumeric(Alphanumeric[i])
    ensures forall c :: IsAlphanumeric(c) ==> c in Alphanumeric
    ensures forall i, j :: 0 <= i < j < |Alphanumeric| ==> Alphanumeric[i] != Alphanumeric[j]
  {
    LowercaseRun();
    UppercaseRun();
    DigitsRun();
    RunsAreAlphanumeric(Alphanumeric, Lowercase, Uppercase, Digits);
  }

  /** alphanum[i], computed from the position of i in the three runs
      (AlphaIsAlphabet shows it is the i-th character of Alphanumeric). */
  function Alpha(i: Index62): (c: char)
    ensures IsAlphanumeric(c)
  {
    if i < 26 then ('a' as int + i) as char
    else if i < 52 then ('A' as int + (i - 26)) as char
    else ('0' as int + (i - 52)) as char
  }

  /** Alpha looks a character up in the alphabet: every index in range gives
      the character Alphanumeric holds there. */
  lemma AlphaIsAlphabet()
    ensures |Alphanumeric| == 62
    ensures forall i: Index62 :: Alpha(i) == Alphanumeric[i]
  {
    LowercaseRun();
    UppercaseRun();
    DigitsRun();
    var s := Alphanumeric;
    assert forall i :: 0 <= i < 26 ==> s[i] == Lowercase[i];
    assert forall i :: 26 <= i < 52 ==> s[i] == Uppercase[i - 26];
    assert forall i :: 52 <= i < 62 ==> s[i] == Digits[i - 52];
  }

  /** The states reported to the status callback, in declaration order. */
  datatype Status = Ok | Error | Reading | Receiving | Sending | AwaitingResponse | NoResponse | PingStart

  /** The integer value the C++ enum gives each status. */
  function StatusCode(s: Status): (c: nat)
    ensures c < 8
  {
    match s
    case Ok => 0
    case Error => 1
    case Reading => 2
    case Receiving => 3
    case Sending => 4
    case AwaitingResponse => 5
    case NoResponse => 6
    case PingStart => 7
  }

  /** The statuses in the order the enum declares them. */
  const StatusOrder: seq<Status> :=
    [Ok, Error, Reading, Receiving, Sending, AwaitingResponse, NoResponse, PingStart]

  /** The enum has exactly eight values and numbers them 0..7 in declaration order. */
  lemma StatusCodesFollowDeclarationOrder()
    ensures |StatusOrder| == 8
    ensures forall i :: 0 <= i < 8 ==> StatusCode(StatusOrder[i]) == i
    ensures forall s :: StatusOrder[StatusCode(s)] == s
  {
  }

  /** _ping_interval: milliseconds of silence before a keep-alive ping. */
  const PingInterval: uint32 := 5000

  /** _resend_delay: milliseconds each ack wait lasts. */
  const ResendDelay: nat := 300

  /** _max_retries: the number of ack waits after a data frame. */
  const MaxRetries: nat := 3
}
