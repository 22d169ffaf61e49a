/**
 Length-prefixed messages over a byte stream.  `send` and `recv` do what a schedule says: move some
 of the bytes, be interrupted, or fail; when the schedule runs out they move all they can.
 */
module NisFraming {
  type Byte = x: int | 0 <= x < 256

  type Errno = e: int | e > 0 witness 1

  const EINVAL := 22
  const ETIMEDOUT := 110

  datatype SendStep = Sent(n: nat) | SendRetry | SendClosed | SendFailed(errno: Errno)

  datatype RecvStep =
    | SelectInterrupted | SelectTimedOut | SelectFailed(errno: Errno)
    | RecvInterrupted | RecvFailed(errno: Errno) | Received(n: nat)

  /** No failure: only short transfers and retried interruptions. */
  predicate SmoothSend(s: seq<SendStep>) {
    forall i :: 0 <= i < |s| ==> s[i].Sent? || s[i].SendRetry?
  }

  predicate SmoothRecv(s: seq<RecvStep>) {
    forall i :: 0 <= i < |s| ==> s[i].Received? || s[i].RecvInterrupted?
  }

  function Min(x: int, y: int): int { if x < y then x else y }

  function Max(x: int, y: int): int { if x > y then x else y }

  /** The 16-bit length, most significant byte first. */
  function Header(len: nat): (h: seq<Byte>)
    ensures |h| == 2
  {
    [len / 256 % 256, len % 256]
  }

  /** What the receiver makes of the first two bytes. */
  function Length(wire: seq<Byte>): nat
    requires |wire| >= 2
  {
    (wire[0] as int) * 256 + (wire[1] as int)
  }

  function Frame(m: seq<Byte>): seq<Byte> {
    Header(|m|) + m
  }

  function Stream(ms: seq<seq<Byte>>): seq<Byte> {
    if ms == [] then [] else Frame(ms[0]) + Stream(ms[1..])
  }

  // ----- what reading comes to, told by the schedule

  /** The answer of read_nbytes, what it has consumed, whether it used a stale count, and the schedule left. */
  datatype ReadResult = ReadResult(rc: int, taken: nat, stale: bool, rest: seq<RecvStep>)

  function StepOf(s: seq<RecvStep>): RecvStep {
    if s == [] then Received(0x7fff_ffff) else s[0]
  }

  function RestOf(s: seq<RecvStep>): seq<RecvStep> {
    if s == [] then [] else s[1..]
  }

  /** How much one recv delivers. */
  function Delivered(n: nat, left: int, avail: nat): (got: nat)
    requires left > 0 && avail > 0
    ensures 1 <= got <= left && got <= avail
  {
    Max(1, Min(n, Min(left, avail)))
  }

  /** What the inner loop leaves: nread, an error, whether nread is a stale count, and the schedule left. */
  datatype Round = Round(nread: int, failure: int, stale: bool, rest: seq<RecvStep>)

  /** The inner loop; nread holds -1 after an interrupted recv, otherwise the count of an earlier one (0 at first). */
  function OneRound(s: seq<RecvStep>, avail: nat, closed: bool, left: nat, nread: int): (r: Round)
    requires left > 0 && nread >= -1
    ensures |r.rest| <= |s| && (r.stale ==> |r.rest| < |s|) && r.failure <= 0 && (r.failure != 0 ==> !r.stale)
    ensures r.failure == 0 ==> r.nread >= 0 && (!r.stale && r.nread > 0 ==> r.nread <= left && r.nread <= avail)
  {
    match StepOf(s)
    case SelectInterrupted =>
      if nread == -1 then OneRound(RestOf(s), avail, closed, left, -1) else Round(nread, 0, true, RestOf(s))
    case SelectTimedOut => Round(nread, -ETIMEDOUT, false, RestOf(s))
    case SelectFailed(errno) => Round(nread, 0 - (errno as int), false, RestOf(s))
    case RecvInterrupted => OneRound(RestOf(s), avail, closed, left, -1)
    case RecvFailed(errno) => Round(nread, 0 - (errno as int), false, RestOf(s))
    case Received(n) =>
      if avail > 0 then Round(Delivered(n, left, avail), 0, false, RestOf(s))
      else if closed then Round(0, 0, false, RestOf(s))
      else Round(nread, -ETIMEDOUT, false, RestOf(s))
  }

  /** The answer from a round of read_nbytes on, with `left` bytes wanted and `taken` consumed. */
  function Reading(s: seq<RecvStep>, avail: nat, closed: bool, nbytes: nat, left: int, nread: int,
                   taken: nat, stale: bool): ReadResult
    requires left <= nbytes && nread >= 0
    decreases |s|, if left > 0 then left else 0
  {
    if left <= 0 then ReadResult(nbytes - left, taken, stale, s)
    else
      var r := OneRound(s, avail, closed, left, nread);
      if r.failure != 0 then ReadResult(r.failure, taken, stale, r.rest)
      else if r.nread == 0 then ReadResult(0, taken, stale || r.stale, r.rest)
      else if r.stale then Reading(r.rest, avail, closed, nbytes, left - r.nread, r.nread, taken, true)
      else Reading(r.rest, avail - r.nread, closed, nbytes, left - r.nread, r.nread, taken + r.nread, stale)
  }

  /** Before the reading is over select is interrupted other than right after an interrupted recv. */
  predicate GoesStale(s: seq<RecvStep>, avail: nat, left: int, retrying: bool)
    decreases |s|
  {
    && left > 0 && s != []
    && match s[0]
       case SelectInterrupted => !retrying || GoesStale(s[1..], avail, left, true)
       case RecvInterrupted => GoesStale(s[1..], avail, left, true)
       case Received(n) =>
         avail > 0 && var got := Delivered(n, left, avail); GoesStale(s[1..], avail - got, left - got, false)
       case _ => false
  }

  lemma {:induction false} RoundStale(s: seq<RecvStep>, avail: nat, closed: bool, left: nat, nread: int)
    requires left > 0 && nread >= -1
    ensures var r := OneRound(s, avail, closed, left, nread);
      GoesStale(s, avail, left, nread == -1)
      <==> r.stale || (r.failure == 0 && r.nread > 0 && GoesStale(r.rest, avail - r.nread, left - r.nread, false))
  {
    if s != [] && (s[0] == RecvInterrupted || (s[0] == SelectInterrupted && nread == -1)) {
      RoundStale(s[1..], avail, closed, left, -1);
    }
  }

  /** A stale count is used exactly when the schedule interrupts select at a wrong moment. */
  lemma {:induction false} StaleIff(s: seq<RecvStep>, avail: nat, closed: bool, nbytes: nat, left: int, nread: int,
                                    taken: nat, stale: bool)
    requires left <= nbytes && nread >= 0
    ensures Reading(s, avail, closed, nbytes, left, nread, taken, stale).stale
      <==> stale || GoesStale(s, avail, left, false)
    decreases |s|, if left > 0 then left else 0
  {
    hide OneRound, GoesStale;
    NothingWanted(s, avail, left);
    if left > 0 {
      var r := OneRound(s, avail, closed, left, nread);
      RoundStale(s, avail, closed, left, nread);
      if r.failure == 0 && r.nread > 0 {
        if r.stale {
          StaleIff(r.rest, avail, closed, nbytes, left - r.nread, r.nread, taken, true);
        } else {
          StaleIff(r.rest, avail - r.nread, closed, nbytes, left - r.nread, r.nread, taken + r.nread, stale);
        }
      }
    }
  }

  lemma NothingWanted(s: seq<RecvStep>, avail: nat, left: int)
    ensures left <= 0 ==> !GoesStale(s, avail, left, false)
  {
  }

  /** More is claimed than was read exactly when a stale count was used. */
  lemma {:induction false} ClaimIff(s: seq<RecvStep>, avail: nat, closed: bool, nbytes: nat, left: int, nread: int,
                                    taken: nat, stale: bool)
    requires left <= nbytes && nread >= 0
    requires if stale then taken < nbytes - left else left >= 0 && taken == nbytes - left
    ensures var r := Reading(s, avail, closed, nbytes, left, nread, taken, stale);
      && r.taken <= taken + avail
      && (r.rc > 0 ==> r.taken <= r.rc && (r.taken == r.rc <==> !r.stale) && (!r.stale ==> r.rc == nbytes))
    decreases |s|, if left > 0 then left else 0
  {
    hide OneRound;
    if left > 0 {
      var r := OneRound(s, avail, closed, left, nread);
      if r.failure == 0 && r.nread > 0 {
        if r.stale {
          ClaimIff(r.rest, avail, closed, nbytes, left - r.nread, r.nread, taken, true);
        } else {
          ClaimIff(r.rest, avail - r.nread, closed, nbytes, left - r.nread, r.nread, taken + r.nread, stale);
        }
      }
    }
  }

  /** On a smooth schedule all that is wanted is read, if it is there. */
  lemma {:induction false} SmoothRound(s: seq<RecvStep>, avail: nat, closed: bool, left: nat, nread: int)
    requires left > 0 && nread >= -1 && SmoothRecv(s)
    ensures var r := OneRound(s, avail, closed, left, nread);
      !r.stale && SmoothRecv(r.rest) && (avail > 0 ==> r.failure == 0 && r.nread > 0)
  {
    if s != [] && s[0] == RecvInterrupted {
      SmoothRound(s[1..], avail, closed, left, -1);
    }
  }

  lemma {:induction false} SmoothReading(s: seq<RecvStep>, avail: nat, closed: bool, nbytes: nat, left: int, nread: int,
                                         taken: nat)
    requires left <= nbytes && nread >= 0 && SmoothRecv(s)
    ensures var r := Reading(s, avail, closed, nbytes, left, nread, taken, false);
      !r.stale && SmoothRecv(r.rest) && (0 <= left <= avail ==> r.rc == nbytes && r.taken == taken + left)
    decreases |s|, if left > 0 then left else 0
  {
    hide OneRound, SmoothRecv;
    if left > 0 {
      var r := OneRound(s, avail, closed, left, nread);
      SmoothRound(s, avail, closed, left, nread);
      if r.failure == 0 && r.nread > 0 {
        SmoothReading(r.rest, avail - r.nread, closed, nbytes, left - r.nread, r.nread, taken + r.nread);
      }
    }
  }

  /** read_nbytes from its start. */
  function ReadAll(s: seq<RecvStep>, avail: nat, closed: bool, nbytes: nat): ReadResult {
    Reading(s, avail, closed, nbytes, nbytes, 0, 0, false)
  }

  /**
   A count is never less than was consumed, and it is what was consumed, all that was wanted, if and
   only if select is never interrupted other than right after an interrupted recv.
   */
  lemma ClaimRightIff(s: seq<RecvStep>, avail: nat, closed: bool, nbytes: nat)
    ensures var r := ReadAll(s, avail, closed, nbytes);
      && r.taken <= avail
      && (r.stale <==> GoesStale(s, avail, nbytes, false))
      && (r.rc > 0 ==> r.taken <= r.rc && (r.taken == r.rc <==> !r.stale) && (!r.stale ==> r.rc == nbytes))
  {
    hide *;
    StartOfReading(s, avail, closed, nbytes);
    ClaimIff(s, avail, closed, nbytes, nbytes, 0, 0, false);
    StaleIff(s, avail, closed, nbytes, nbytes, 0, 0, false);
  }

  /** The first select is interrupted.  Behind an interrupted recv nothing can go wrong until bytes arrive. */
  predicate StartsStale(s: seq<RecvStep>) {
    s != [] && s[0] == SelectInterrupted
  }

  /** A round that finds nothing has been interrupted so, or is at the end of the stream. */
  lemma {:induction false} RoundEnds(s: seq<RecvStep>, avail: nat, closed: bool, left: nat, nread: int)
    requires left > 0 && nread >= -1
    ensures var r := OneRound(s, avail, closed, left, nread);
      r.failure == 0 && r.nread == 0 ==>
        if nread == 0 && StartsStale(s) then r.stale else !r.stale && closed && avail == 0
    ensures nread <= 0 && !StartsStale(s) ==> !OneRound(s, avail, closed, left, nread).stale
    ensures nread == -1 ==> !OneRound(s, avail, closed, left, nread).stale
  {
    if s != [] && (s[0] == RecvInterrupted || (s[0] == SelectInterrupted && nread == -1)) {
      RoundEnds(s[1..], avail, closed, left, -1);
    }
  }

  /** From the second round on, an answer of 0 is given at the end of the stream only. */
  lemma {:induction false} LaterEnd(s: seq<RecvStep>, avail: nat, closed: bool, nbytes: nat, left: int, nread: int,
                                    taken: nat, stale: bool)
    requires left <= nbytes && nread > 0 && nbytes > 0
    ensures var r := Reading(s, avail, closed, nbytes, left, nread, taken, stale);
      r.rc == 0 ==> closed && r.taken == taken + avail
    decreases |s|, if left > 0 then left else 0
  {
    hide OneRound, StartsStale;
    if left > 0 {
      var r := OneRound(s, avail, closed, left, nread);
      RoundEnds(s, avail, closed, left, nread);
      if r.failure == 0 && r.nread > 0 {
        if r.stale {
          LaterEnd(r.rest, avail, closed, nbytes, left - r.nread, r.nread, taken, true);
        } else {
          LaterEnd(r.rest, avail - r.nread, closed, nbytes, left - r.nread, r.nread, taken + r.nread, stale);
        }
      }
    }
  }

  /** An answer of 0 is right when all there will ever be has been consumed, a count when so much was consumed. */
  predicate Truthful(r: ReadResult, avail: nat, closed: bool) {
    && (r.rc > 0 ==> r.taken == r.rc)
    && (r.rc == 0 ==> closed && r.taken == avail)
  }

  /**
   The answer of read_nbytes is right if and only if the first select is not interrupted (unless the
   stream was at its end anyway) and, when a count is answered, no later one at a wrong moment.
   */
  lemma TruthfulIff(s: seq<RecvStep>, avail: nat, closed: bool, nbytes: nat)
    requires nbytes > 0
    ensures var r := ReadAll(s, avail, closed, nbytes);
      && (StartsStale(s) ==> r.rc == 0 && r.taken == 0)
      && (Truthful(r, avail, closed)
          <==> if StartsStale(s) then closed && avail == 0 else r.rc <= 0 || !GoesStale(s, avail, nbytes, false))
  {
    hide OneRound, GoesStale;
    ClaimRightIff(s, avail, closed, nbytes);
    StartOfReading(s, avail, closed, nbytes);
    if StartsStale(s) {
      ReadingStarts(s, avail, closed, nbytes);
    } else {
      NextRound(s, avail, closed, nbytes, nbytes, 0, 0, false);
      RoundEnds(s, avail, closed, nbytes, 0);
      var r := OneRound(s, avail, closed, nbytes, 0);
      if r.failure == 0 && r.nread > 0 {
        LaterEnd(r.rest, avail - r.nread, closed, nbytes, nbytes - r.nread, r.nread, r.nread, false);
      }
    }
  }

  // ----- what net_recv comes to

  /** What net_recv answers and how much it has consumed. */
  datatype Message = Message(rc: int, taken: nat)

  /** Part of the length was claimed and not received: net_recv goes on with a byte that was never stored. */
  predicate LengthTorn(s: seq<RecvStep>, wire: seq<Byte>, closed: bool) {
    var r := ReadAll(s, |wire|, closed, 2);
    r.rc > 0 && r.stale
  }

  /** The reading of the message itself, which starts behind the length. */
  function ReadBody(s: seq<RecvStep>, wire: seq<Byte>, closed: bool): ReadResult
    requires |wire| >= 2
  {
    ReadAll(ReadAll(s, |wire|, closed, 2).rest, |wire| - 2, closed, Length(wire))
  }

  function Receiving(s: seq<RecvStep>, wire: seq<Byte>, closed: bool, maxlen: nat): Message
    requires !LengthTorn(s, wire, closed)
  {
    var r := ReadAll(s, |wire|, closed, 2);
    if r.rc <= 0 || |wire| < 2 then Message(r.rc, r.taken)
    else if Length(wire) > maxlen then Message(-EINVAL, 2)
    else if Length(wire) == 0 then Message(0, 2)
    else
      var body := ReadBody(s, wire, closed);
      Message(if body.rc <= 0 || body.rc == Length(wire) then body.rc else -EINVAL, 2 + body.taken)
  }

  /** A message is one whole frame; 0 is the empty frame that ends a reply, or the true end of the stream. */
  predicate RightMessage(m: Message, wire: seq<Byte>, closed: bool) {
    && (m.rc > 0 ==> |wire| >= 2 && m.rc == Length(wire) && m.taken == 2 + m.rc)
    && (m.rc == 0 ==> (closed && m.taken == |wire|) || (|wire| >= 2 && Length(wire) == 0 && m.taken == 2))
  }

  /** Select is interrupted neither before the length nor before or within the message. */
  predicate Undisturbed(s: seq<RecvStep>, wire: seq<Byte>, closed: bool, maxlen: nat) {
    var r := ReadAll(s, |wire|, closed, 2);
    if StartsStale(s) then closed && wire == []
    else r.rc > 0 && |wire| >= 2 && 0 < Length(wire) <= maxlen ==>
      if StartsStale(r.rest) then closed && |wire| == 2
      else ReadBody(s, wire, closed).rc == Length(wire) ==> !GoesStale(r.rest, |wire| - 2, Length(wire), false)
  }

  /**
   What net_recv answers is right if and only if select is undisturbed.  Otherwise it announces the end
   of a reply that goes on, or a message part of which was never received.
   */
  lemma RightMessageIff(s: seq<RecvStep>, wire: seq<Byte>, closed: bool, maxlen: nat)
    requires !LengthTorn(s, wire, closed)
    ensures RightMessage(Receiving(s, wire, closed, maxlen), wire, closed) <==> Undisturbed(s, wire, closed, maxlen)
  {
    hide ReadAll, GoesStale, StartsStale, Length;
    var r := ReadAll(s, |wire|, closed, 2);
    TruthfulIff(s, |wire|, closed, 2);
    ClaimRightIff(s, |wire|, closed, 2);
    if r.rc > 0 && |wire| >= 2 && 0 < Length(wire) {
      TruthfulIff(r.rest, |wire| - 2, closed, Length(wire));
      ClaimRightIff(r.rest, |wire| - 2, closed, Length(wire));
    }
  }

  /** The branches of net_recv behind the reading of the length. */
  lemma AfterLength(s: seq<RecvStep>, wire: seq<Byte>, closed: bool, maxlen: nat)
    ensures var r := ReadAll(s, |wire|, closed, 2);
      && (r.rc <= 0 ==> !LengthTorn(s, wire, closed) && Receiving(s, wire, closed, maxlen) == Message(r.rc, r.taken))
      && (r.rc > 0 && r.stale ==> LengthTorn(s, wire, closed))
      && (r.rc > 0 && !r.stale ==> !LengthTorn(s, wire, closed) && r.rc == 2 && r.taken == 2 <= |wire|)
  {
    hide ReadAll, GoesStale, Length;
    ClaimRightIff(s, |wire|, closed, 2);
  }

  lemma AfterBody(s: seq<RecvStep>, wire: seq<Byte>, closed: bool, maxlen: nat)
    requires |wire| >= 2 && !LengthTorn(s, wire, closed) && ReadAll(s, |wire|, closed, 2).rc > 0
    ensures var len, m := Length(wire), Receiving(s, wire, closed, maxlen);
      var body := ReadAll(ReadAll(s, |wire|, closed, 2).rest, |wire| - 2, closed, len);
      && (len > maxlen ==> m == Message(-EINVAL, 2) && m.rc < 0)
      && (len == 0 ==> m == Message(0, 2))
      && (0 < len <= maxlen && (body.rc <= 0 || body.rc == len) ==> m == Message(body.rc, 2 + body.taken))
      && (0 < len <= maxlen && body.rc > 0 && body.rc != len ==> m == Message(-EINVAL, 2 + body.taken))
      && (0 < len <= maxlen && m.rc > 0 ==> (RightMessage(m, wire, closed) <==> !body.stale))
  {
    hide ReadAll, GoesStale, Length;
    var rest := ReadAll(s, |wire|, closed, 2).rest;
    if Length(wire) > 0 {
      ClaimRightIff(rest, |wire| - 2, closed, Length(wire));
    }
  }

  lemma BehindLength(wire: seq<Byte>, s: seq<RecvStep>, avail: nat, closed: bool, nbytes: nat)
    requires |wire| == avail + 2
    ensures var r := ReadAll(s, avail, closed, nbytes);
      r.taken <= avail && wire[2..][r.taken..] == wire[2 + r.taken..]
    ensures nbytes <= avail ==> wire[2..][..nbytes] == wire[2..2 + nbytes] && wire[2..][nbytes..] == wire[2 + nbytes..]
  {
    hide ReadAll, GoesStale;
    ClaimRightIff(s, avail, closed, nbytes);
  }

  lemma SameLength(size: seq<Byte>, wire: seq<Byte>)
    requires |wire| >= 2 && size == wire[..2]
    ensures Length(size) == Length(wire)
  {
  }

  lemma RoundStep(s: seq<RecvStep>, avail: nat, closed: bool, left: nat, nread: int)
    requires left > 0 && nread >= -1
    ensures OneRound(s, avail, closed, left, nread)
      == match StepOf(s)
         case SelectInterrupted =>
           if nread == -1 then OneRound(RestOf(s), avail, closed, left, -1) else Round(nread, 0, true, RestOf(s))
         case SelectTimedOut => Round(nread, -ETIMEDOUT, false, RestOf(s))
         case SelectFailed(errno) => Round(nread, 0 - (errno as int), false, RestOf(s))
         case RecvInterrupted => OneRound(RestOf(s), avail, closed, left, -1)
         case RecvFailed(errno) => Round(nread, 0 - (errno as int), false, RestOf(s))
         case Received(n) =>
           if avail > 0 then Round(Delivered(n, left, avail), 0, false, RestOf(s))
           else if closed then Round(0, 0, false, RestOf(s))
           else Round(nread, -ETIMEDOUT, false, RestOf(s))
  {
    hide Delivered;
  }

  /** Nothing to read, and an interruption before anything was: announced as the end of the stream. */
  lemma ReadingStarts(s: seq<RecvStep>, avail: nat, closed: bool, nbytes: nat)
    ensures nbytes == 0 ==> ReadAll(s, avail, closed, nbytes) == ReadResult(0, 0, false, s)
    ensures nbytes > 0 && s != [] && s[0] == SelectInterrupted ==>
      ReadAll(s, avail, closed, nbytes) == ReadResult(0, 0, true, s[1..])
  {
  }

  lemma StartOfReading(s: seq<RecvStep>, avail: nat, closed: bool, nbytes: nat)
    ensures ReadAll(s, avail, closed, nbytes) == Reading(s, avail, closed, nbytes, nbytes, 0, 0, false)
  {
  }

  lemma NextRound(s: seq<RecvStep>, avail: nat, closed: bool, nbytes: nat, left: int, nread: int,
                  taken: nat, stale: bool)
    requires 0 < left <= nbytes && nread >= 0
    ensures var r := OneRound(s, avail, closed, left, nread);
      Reading(s, avail, closed, nbytes, left, nread, taken, stale)
      == if r.failure != 0 then ReadResult(r.failure, taken, stale, r.rest)
         else if r.nread == 0 then ReadResult(0, taken, stale || r.stale, r.rest)
         else if r.stale then Reading(r.rest, avail, closed, nbytes, left - r.nread, r.nread, taken, true)
         else Reading(r.rest, avail - r.nread, closed, nbytes, left - r.nread, r.nread, taken + r.nread, stale)
  {
    hide OneRound;
  }

  lemma ReadingOver(s: seq<RecvStep>, avail: nat, closed: bool, nbytes: nat, left: int, nread: int, taken: nat,
                    stale: bool)
    requires left <= nbytes && left <= 0 && nread >= 0
    ensures Reading(s, avail, closed, nbytes, left, nread, taken, stale)
      == ReadResult(nbytes - left, taken, stale, s)
  {
  }

  /** b is b0 with the first k bytes of w written from `start` on. */
  ghost predicate Written(b0: seq<Byte>, b: seq<Byte>, w: seq<Byte>, start: nat, k: nat) {
    start + k <= |b0| && k <= |w| && b == b0[..start] + w[..k] + b0[start + k..]
  }

  lemma NothingWritten(b: seq<Byte>, w: seq<Byte>, start: nat)
    requires start <= |b|
    ensures Written(b, b, w, start, 0)
  {
  }

  /** A further piece of w is put behind the first `taken` bytes of it. */
  lemma Continued(b0: seq<Byte>, b1: seq<Byte>, b2: seq<Byte>, w: seq<Byte>, start: nat, taken: nat, n: nat)
    requires Written(b0, b1, w, start, taken) && taken + n <= |w|
    requires Written(b1, b2, w[taken..], start + taken, n)
    ensures Written(b0, b2, w, start, taken + n)
  {
    assert w[..taken] + w[taken..][..n] == w[..taken + n];
    assert b1[start + taken + n..] == b0[start + taken + n..];
  }

  lemma DropDrop<T>(w: seq<T>, taken: nat, n: nat)
    requires taken + n <= |w|
    ensures w[taken..][n..] == w[taken + n..]
  {
  }

  /** What the rounds so far have done: as long as no stale count was used, all they claim is in place. */
  ghost predicate ReadSoFar(b0: seq<Byte>, b: seq<Byte>, w: seq<Byte>, wire: seq<Byte>, start: nat, nbytes: nat,
                            nleft: int, taken: nat, stale: bool) {
    && nleft <= nbytes && taken <= |w| && wire == w[taken..]
    && (!stale ==> nleft >= 0 && taken == nbytes - nleft && Written(b0, b, w, start, taken))
  }

  lemma StartReading(b: seq<Byte>, w: seq<Byte>, start: nat, nbytes: nat)
    requires start <= |b|
    ensures ReadSoFar(b, b, w, w, start, nbytes, nbytes, 0, false)
  {
    NothingWritten(b, w, start);
  }

  lemma ReadFurther(b0: seq<Byte>, b1: seq<Byte>, b2: seq<Byte>, w: seq<Byte>, wire: seq<Byte>, start: nat, nbytes: nat,
                    nleft: int, taken: nat, stale: bool, n: nat)
    requires ReadSoFar(b0, b1, w, wire, start, nbytes, nleft, taken, stale) && 0 < n <= nleft && n <= |wire|
    requires !stale ==> Written(b1, b2, wire, start + (nbytes - nleft), n)
    ensures ReadSoFar(b0, b2, w, wire[n..], start, nbytes, nleft - n, taken + n, stale)
  {
    hide Written;
    if !stale {
      Continued(b0, b1, b2, w, start, taken, n);
    }
    DropDrop(w, taken, n);
  }

  /** After a stale count nothing is known of the buffer. */
  lemma Uncounted(b0: seq<Byte>, b: seq<Byte>, w: seq<Byte>, wire: seq<Byte>, start: nat, nbytes: nat,
                  nleft: int, taken: nat)
    requires nleft <= nbytes && taken <= |w| && wire == w[taken..]
    ensures ReadSoFar(b0, b, w, wire, start, nbytes, nleft, taken, true)
  {
  }

  lemma ReadingDone(b0: seq<Byte>, b: seq<Byte>, w: seq<Byte>, wire: seq<Byte>, start: nat, nbytes: nat,
                    nleft: int, taken: nat, stale: bool)
    requires ReadSoFar(b0, b, w, wire, start, nbytes, nleft, taken, stale)
    ensures nleft <= nbytes && taken <= |w| && wire == w[taken..]
    ensures !stale ==> nleft >= 0 && taken == nbytes - nleft && Written(b0, b, w, start, taken)
  {
  }

  lemma AllWritten(b0: seq<Byte>, b: seq<Byte>, w: seq<Byte>, start: nat, k: nat)
    requires Written(b0, b, w, start, k)
    ensures start + k <= |b0| && k <= |w| && b == b0[..start] + w[..k] + b0[start + k..]
  {
  }

  /** Two bytes are claimed and one was read; interrupted right after a recv that was, all is well. */
  lemma ClaimsTooMuch(closed: bool)
    ensures ReadAll([Received(1), SelectInterrupted], 2, closed, 2) == ReadResult(2, 1, true, [])
    ensures ReadAll([RecvInterrupted, SelectInterrupted, Received(2)], 2, closed, 2)
      == ReadResult(2, 2, false, [])
  {
    assert [Received(1), SelectInterrupted][1..] == [SelectInterrupted];
    assert [RecvInterrupted, SelectInterrupted, Received(2)][1..] == [SelectInterrupted, Received(2)];
    assert [SelectInterrupted, Received(2)][1..] == [Received(2)];
  }

  class Sender {
    var wire: seq<Byte>           // everything handed to the transport
    var schedule: seq<SendStep>

    constructor (schedule: seq<SendStep>)
      ensures wire == [] && this.schedule == schedule
    {
      this.wire, this.schedule := [], schedule;
    }

    method Step() returns (s: SendStep)
      modifies `schedule
      ensures SmoothSend(old(schedule)) ==> SmoothSend(schedule) && (s.Sent? || s.SendRetry?)
      ensures old(schedule) == [] ==> schedule == [] && s == Sent(0x7fff_ffff)
      ensures old(schedule) != [] ==> schedule == old(schedule)[1..] && s == old(schedule)[0]
    {
      if schedule == [] {
        return Sent(0x7fff_ffff);
      }
      s := schedule[0];
      schedule := schedule[1..];
    }

    /** write_nbytes: -errno, or how much was sent. */
    method WriteBytes(data: seq<Byte>) returns (rc: int)
      requires |data| <= 0x7fff_ffff
      modifies this
      ensures SmoothSend(old(schedule)) ==> rc == |data| && SmoothSend(schedule)
      ensures rc <= |data|
      ensures exists k :: 0 <= k <= |data| && wire == old(wire) + data[..k] && (rc > 0 ==> rc == k)
      ensures rc == |data| && data != [] ==> wire == old(wire) + data
    {
      var nleft := |data|;
      while nleft > 0
        invariant 0 <= nleft <= |data|
        invariant wire == old(wire) + data[..|data| - nleft]
        invariant SmoothSend(old(schedule)) ==> SmoothSend(schedule)
        decreases |schedule|, nleft
      {
        var s := Step();
        match s {
          case SendRetry =>
          case SendFailed(errno) =>
            return 0 - (errno as int);
          case SendClosed =>
            return |data| - nleft;
          case Sent(n) =>
            var nwritten := Max(1, Min(n, nleft));
            var done := |data| - nleft;
            wire := wire + data[done..done + nwritten];
            assert data[..done] + data[done..done + nwritten] == data[..done + nwritten];
            nleft := nleft - nwritten;
        }
      }
      assert data[..|data|] == data;
      rc := |data| - nleft;
    }

    /** net_send. */
    method NetSend(data: seq<Byte>) returns (rc: int)
      requires |data| <= 0x7fff_ffff
      modifies this
      ensures SmoothSend(old(schedule)) ==>
        rc == |data| && wire == old(wire) + Header(|data|) + data && SmoothSend(schedule)
      ensures rc > 0 ==> rc == |data| && wire == old(wire) + Header(|data|) + data
    {
      var pktsiz := Header(|data|);
      rc := WriteBytes(pktsiz);
      if rc <= 0 {
        return;
      }
      if rc != 2 {
        return -EINVAL;
      }
      rc := WriteBytes(data);
      if rc <= 0 {
        assert data == [] ==> data[..0] == [];
        return;
      }
      if rc != |data| {
        return -EINVAL;
      }
    }
  }

  class Receiver {
    var wire: seq<Byte>           // what the transport has still to deliver
    var closed: bool              // nothing more will be added to it
    var schedule: seq<RecvStep>

    constructor (wire: seq<Byte>, closed: bool, schedule: seq<RecvStep>)
      ensures this.wire == wire && this.closed == closed && this.schedule == schedule
    {
      this.wire, this.closed, this.schedule := wire, closed, schedule;
    }

    method Step() returns (s: RecvStep)
      modifies `schedule
      ensures s == StepOf(old(schedule)) && schedule == RestOf(old(schedule))
      ensures |schedule| < |old(schedule)| || s == Received(0x7fff_ffff)
      ensures SmoothRecv(old(schedule)) ==> SmoothRecv(schedule) && (s.Received? || s.RecvInterrupted?)
    {
      if schedule == [] {
        return Received(0x7fff_ffff);
      }
      s := schedule[0];
      schedule := schedule[1..];
    }

    /**
     The inner do-while loop of read_nbytes: waits with select and calls recv, which leaves nread.
     An interrupted select jumps to the loop test, which looks at the nread of an EARLIER recv; the
     loop then ends with that stale value unless it happens to be -1.
     */
    method Receive(buf: array<Byte>, ptr: nat, nleft: nat, before: int)
      returns (nread: int, failure: int, ghost stale: bool)
      requires 0 < nleft && ptr + nleft <= buf.Length && before >= 0
      modifies `wire, `schedule, buf
      ensures Round(nread, failure, stale, schedule) == OneRound(old(schedule), |old(wire)|, closed, nleft, before)
      ensures failure == 0 && !stale && nread > 0 ==>
        wire == old(wire)[nread..] && Written(old(buf[..]), buf[..], old(wire), ptr, nread)
      ensures failure != 0 || stale || nread == 0 ==> wire == old(wire) && buf[..] == old(buf[..])
    {
      hide OneRound, Delivered, Written, SmoothRecv;
      nread, failure, stale := before, 0, false;
      var n := 0;
      while true
        modifies `schedule
        invariant nread >= -1
        invariant OneRound(old(schedule), |wire|, closed, nleft, before)
               == OneRound(schedule, |wire|, closed, nleft, nread)
        decreases |schedule|
      {
        RoundStep(schedule, |wire|, closed, nleft, nread);
        var s := Step();
        match s {
          case SelectInterrupted =>
            if nread != -1 {
              stale := true;
              return;
            }
          case SelectFailed(errno) =>
            failure := 0 - (errno as int);
            return;
          case SelectTimedOut =>
            failure := -ETIMEDOUT;
            return;
          case RecvInterrupted =>
            nread := -1;
          case RecvFailed(errno) =>
            failure := 0 - (errno as int);
            return;
          case Received(size) =>
            n := size;
            break;
        }
      }
      if |wire| > 0 {
        nread := Delivered(n, nleft, |wire|);
        assert buf[..] == old(buf[..]);
        Deliver(buf, ptr, nread);
      } else if closed {
        nread := 0;
      } else {
        failure := -ETIMEDOUT;
      }
    }

    method Deliver(buf: array<Byte>, ptr: nat, n: nat)
      requires n <= |wire| && ptr + n <= buf.Length
      modifies this`wire, buf
      ensures wire == old(wire)[n..] && Written(old(buf[..]), buf[..], old(wire), ptr, n)
    {
      for k := 0 to n
        modifies buf
        invariant forall x :: 0 <= x < buf.Length ==>
          buf[x] == if ptr <= x < ptr + k then wire[x - ptr] else old(buf[x])
      {
        buf[ptr + k] := wire[k];
      }
      wire := wire[n..];
    }

    /** read_nbytes: -errno, 0 at the end of the stream, or how much was read. */
    method ReadBytes(buf: array<Byte>, start: nat, nbytes: nat) returns (rc: int, ghost stale: bool)
      requires start + nbytes <= buf.Length
      modifies `wire, `schedule, buf
      ensures var r := ReadAll(old(schedule), |old(wire)|, closed, nbytes);
        && rc == r.rc && stale == r.stale && schedule == r.rest
        && r.taken <= |old(wire)| && wire == old(wire)[r.taken..]
      ensures stale <==> GoesStale(old(schedule), |old(wire)|, nbytes, false)
      ensures rc > 0 && !stale ==>
        && rc == nbytes <= |old(wire)| && wire == old(wire)[nbytes..]
        && buf[..] == old(buf[..start]) + old(wire)[..nbytes] + old(buf[start + nbytes..])
      ensures SmoothRecv(old(schedule)) ==> SmoothRecv(schedule) && !stale
      ensures SmoothRecv(old(schedule)) && |old(wire)| >= nbytes ==> rc == nbytes
      ensures |wire| <= |old(wire)|
      ensures nbytes == 0 ==> rc == 0 && wire == old(wire)
      ensures nbytes > 0 && old(schedule) != [] && old(schedule)[0] == SelectInterrupted ==>
        rc == 0 && wire == old(wire)
    {
      hide *;
      StaleIff(schedule, |wire|, closed, nbytes, nbytes, 0, 0, false);
      if SmoothRecv(schedule) {
        SmoothReading(schedule, |wire|, closed, nbytes, nbytes, 0, 0);
      }
      ReadingStarts(schedule, |wire|, closed, nbytes);
      StartOfReading(schedule, |wire|, closed, nbytes);
      rc, stale := ReadRounds(buf, start, nbytes);
      if rc > 0 && !stale {
        AllWritten(old(buf[..]), buf[..], old(wire), start, nbytes);
        assert old(buf[..])[..start] == old(buf[..start]);
        assert old(buf[..])[start + nbytes..] == old(buf[start + nbytes..]);
      }
    }

    /** The rounds of read_nbytes, until no more is wanted. */
    method ReadRounds(buf: array<Byte>, start: nat, nbytes: nat) returns (rc: int, ghost stale: bool)
      requires start + nbytes <= buf.Length
      modifies `wire, `schedule, buf
      ensures var r := Reading(old(schedule), |old(wire)|, closed, nbytes, nbytes, 0, 0, false);
        && rc == r.rc && stale == r.stale && schedule == r.rest
        && r.taken <= |old(wire)| && wire == old(wire)[r.taken..]
      ensures rc > 0 && !stale ==> rc == nbytes <= |old(wire)| && wire == old(wire)[nbytes..]
      ensures rc > 0 && !stale ==> Written(old(buf[..]), buf[..], old(wire), start, nbytes)
    {
      hide *;
      ghost var b, w, s := buf[..], wire, schedule;
      StartReading(b, w, start, nbytes);
      var nleft, nread: int := nbytes, 0;
      stale := false;
      ghost var taken: nat := 0;
      while nleft > 0
        invariant nleft <= nbytes && nread >= 0
        invariant ReadSoFar(b, buf[..], w, wire, start, nbytes, nleft, taken, stale)
        invariant Reading(s, |w|, closed, nbytes, nbytes, 0, 0, false)
               == Reading(schedule, |wire|, closed, nbytes, nleft, nread, taken, stale)
        decreases |schedule|, nleft
      {
        var failure: int;
        ghost var again: bool;
        NextRound(schedule, |wire|, closed, nbytes, nleft, nread, taken, stale);
        ReadingDone(b, buf[..], w, wire, start, nbytes, nleft, taken, stale);
        ghost var before, unread := buf[..], wire;
        nread, failure, again := Receive(buf, start + (nbytes - nleft), nleft, nread);
        if failure != 0 {
          return failure, stale;
        }
        if nread == 0 {
          return 0, stale || again;
        }
        if again {
          stale := true;
          Uncounted(b, buf[..], w, wire, start, nbytes, nleft - nread, taken);
        } else {
          ReadFurther(b, before, buf[..], w, unread, start, nbytes, nleft, taken, stale, nread);
          taken := taken + nread;
        }
        nleft := nleft - nread;
      }
      ReadingDone(b, buf[..], w, wire, start, nbytes, nleft, taken, stale);
      ReadingOver(schedule, |wire|, closed, nbytes, nleft, nread, taken, stale);
      rc := nbytes - nleft;
    }

    /** The first half of net_recv: how many bytes follow, and whether all of that was received. */
    method ReadLength() returns (rc: int, pktsiz: nat, ghost torn: bool)
      modifies `wire, `schedule
      ensures var r := ReadAll(old(schedule), |old(wire)|, closed, 2);
        && rc == r.rc && torn == (r.rc > 0 && r.stale) && schedule == r.rest
        && r.taken <= |old(wire)| && wire == old(wire)[r.taken..]
      ensures rc > 0 && !torn ==> |old(wire)| >= 2 && wire == old(wire)[2..] && pktsiz == Length(old(wire))
      ensures SmoothRecv(old(schedule)) ==> SmoothRecv(schedule) && !torn && (|old(wire)| >= 2 ==> rc == 2)
    {
      hide *;
      var size := new Byte[2];
      var n, stale := ReadBytes(size, 0, 2);
      rc, pktsiz, torn := n, Length(size[..]), n > 0 && stale;
      if rc > 0 && !torn {
        SameLength(size[..], old(wire));
      }
    }

    /** The second half of net_recv, with a length that fits the buffer. */
    method ReadMessage(buf: array<Byte>, pktsiz: nat) returns (rc: int)
      requires 0 < pktsiz <= buf.Length
      modifies `wire, `schedule, buf
      ensures var r := ReadAll(old(schedule), |old(wire)|, closed, pktsiz);
        && rc == (if r.rc <= 0 || r.rc == pktsiz then r.rc else -EINVAL) && (rc > 0 ==> rc == pktsiz)
        && r.taken <= |old(wire)| && wire == old(wire)[r.taken..]
        && (rc > 0 && !r.stale ==> pktsiz <= |old(wire)| && buf[..pktsiz] == old(wire)[..pktsiz])
      ensures SmoothRecv(old(schedule)) ==>
        SmoothRecv(schedule) && (|old(wire)| >= pktsiz ==> rc == pktsiz && wire == old(wire)[pktsiz..]
                                                           && buf[..pktsiz] == old(wire)[..pktsiz])
    {
      hide ReadAll, GoesStale, SmoothRecv;
      var n, stale := ReadBytes(buf, 0, pktsiz);
      if n <= 0 {
        return n;
      }
      if n != pktsiz {
        return -EINVAL;
      }
      rc := n;
      if !stale {
        assert buf[..pktsiz] == buf[..][..pktsiz];
      }
    }

    /** net_recv: the length of the message now in buf, 0 at the end of a reply or stream, or -errno. */
    method NetRecv(buf: array<Byte>, maxlen: nat) returns (rc: int)
      requires maxlen <= buf.Length
      modifies `wire, `schedule, buf
      ensures !LengthTorn(old(schedule), old(wire), closed) ==>
        var m := Receiving(old(schedule), old(wire), closed, maxlen);
        && rc == m.rc && m.taken <= |old(wire)| && wire == old(wire)[m.taken..]
        && (rc > 0 && RightMessage(m, old(wire), closed) ==>
              rc <= buf.Length && 2 + rc <= |old(wire)| && buf[..rc] == old(wire)[2..2 + rc])
      ensures SmoothRecv(old(schedule)) ==> SmoothRecv(schedule)
      ensures SmoothRecv(old(schedule)) && |old(wire)| >= 2 ==>
        var len := Length(old(wire));
        && (len > maxlen ==> rc == -EINVAL && wire == old(wire)[2..])
        && (len == 0 ==> rc == 0 && wire == old(wire)[2..])
        && (0 < len <= maxlen && |old(wire)| >= 2 + len ==>
              rc == len && buf[..len] == old(wire)[2..2 + len] && wire == old(wire)[2 + len..])
    {
      hide *;
      AfterLength(schedule, wire, closed, maxlen);
      var n, pktsiz, torn := ReadLength();
      if n <= 0 {
        return n;
      }
      if n != 2 {
        return -EINVAL;
      }
      if !torn {
        AfterBody(old(schedule), old(wire), closed, maxlen);
      }
      if pktsiz > maxlen {
        return -EINVAL;
      }
      if pktsiz == 0 {
        return 0;
      }
      if !torn {
        BehindLength(old(wire), schedule, |wire|, closed, pktsiz);
      }
      rc := ReadMessage(buf, pktsiz);
    }
  }

  // ----- messages there and back

  lemma HeaderDecodes(len: nat)
    requires len < 0x1_0000
    ensures Length(Header(len)) == len
  {
  }

  lemma {:induction false} StreamAppend(ms: seq<seq<Byte>>, m: seq<Byte>)
    ensures Stream(ms + [m]) == Stream(ms) + Frame(m)
  {
    if ms == [] {
      assert [] + [m] == [m] && [m][1..] == [];
    } else {
      assert (ms + [m])[0] == ms[0] && (ms + [m])[1..] == ms[1..] + [m];
      StreamAppend(ms[1..], m);
    }
  }

  predicate Sendable(ms: seq<seq<Byte>>, maxlen: nat) {
    forall i :: 0 <= i < |ms| ==> 0 < |ms[i]| <= maxlen && |ms[i]| < 0x1_0000
  }

  /** Sends messages, and then the empty one that ends a reply. */
  method SendAll(s: Sender, ms: seq<seq<Byte>>) returns (ok: bool)
    requires Sendable(ms, 0xffff) && SmoothSend(s.schedule)
    modifies s
    ensures ok && s.wire == old(s.wire) + Stream(ms) + Frame([]) && SmoothSend(s.schedule)
  {
    for i := 0 to |ms|
      invariant SmoothSend(s.schedule) && s.wire == old(s.wire) + Stream(ms[..i])
    {
      StreamAppend(ms[..i], ms[i]);
      assert ms[..i + 1] == ms[..i] + [ms[i]];
      var rc := s.NetSend(ms[i]);
      if rc <= 0 {
        return false;
      }
    }
    assert ms[..|ms|] == ms;
    var rc := s.NetSend([]);
    ok := rc >= 0;
  }

  /** Receives the next message, or the empty one that ends the reply. */
  method ReceiveNext(r: Receiver, buf: array<Byte>, maxlen: nat, ghost ms: seq<seq<Byte>>, ghost rest: seq<Byte>)
    returns (rc: int)
    requires Sendable(ms, maxlen) && SmoothRecv(r.schedule) && maxlen <= buf.Length
    requires r.wire == Stream(ms) + Frame([]) + rest
    modifies r, buf
    ensures SmoothRecv(r.schedule)
    ensures ms == [] ==> rc == 0 && r.wire == rest
    ensures ms != [] ==> 0 < rc == |ms[0]| <= buf.Length && buf[..rc] == ms[0]
    ensures ms != [] ==> r.wire == Stream(ms[1..]) + Frame([]) + rest
  {
    NextMessage(ms, rest);
    rc := r.NetRecv(buf, maxlen);
  }

  /** Receives messages up to the empty one. */
  method ReceiveAll(r: Receiver, maxlen: nat, ghost ms: seq<seq<Byte>>, ghost rest: seq<Byte>)
    returns (got: seq<seq<Byte>>, rc: int)
    requires Sendable(ms, maxlen) && SmoothRecv(r.schedule)
    requires r.wire == Stream(ms) + Frame([]) + rest
    modifies r
    ensures rc == 0 && got == ms && r.wire == rest && SmoothRecv(r.schedule)
  {
    hide Stream, Frame, Length;
    got := [];
    var buf := new Byte[maxlen];
    ghost var left := ms;
    rc := ReceiveNext(r, buf, maxlen, left, rest);
    while rc > 0
      invariant SmoothRecv(r.schedule) && Sendable(left, maxlen) && ms == got + left
      invariant left == [] ==> rc == 0 && r.wire == rest
      invariant left != [] ==> 0 < rc == |left[0]| <= buf.Length && buf[..rc] == left[0]
      invariant left != [] ==> r.wire == Stream(left[1..]) + Frame([]) + rest
      decreases |left|
    {
      got := got + [buf[..rc]];
      left := left[1..];
      rc := ReceiveNext(r, buf, maxlen, left, rest);
    }
  }

  lemma FrameHead(m: seq<Byte>, tail: seq<Byte>)
    requires |m| < 0x1_0000
    ensures var wire := Frame(m) + tail;
      && |wire| >= 2 + |m| && Length(wire) == |m| && wire[2..2 + |m|] == m && wire[2 + |m|..] == tail
  {
    HeaderDecodes(|m|);
    var wire := Frame(m) + tail;
    assert wire[0] == Header(|m|)[0] && wire[1] == Header(|m|)[1];
  }

  /** How a stream of messages starts. */
  lemma NextMessage(ms: seq<seq<Byte>>, rest: seq<Byte>)
    requires Sendable(ms, 0xffff)
    ensures var wire := Stream(ms) + Frame([]) + rest;
      && |wire| >= 2
      && (ms == [] ==> Length(wire) == 0 && wire[2..] == rest)
      && (ms != [] ==> Length(wire) == |ms[0]| && |wire| >= 2 + |ms[0]| && wire[2..2 + |ms[0]|] == ms[0])
      && (ms != [] ==> wire[2 + |ms[0]|..] == Stream(ms[1..]) + Frame([]) + rest)
  {
    hide Frame, Length, Stream;
    var wire := Stream(ms) + Frame([]) + rest;
    FirstFrame(ms);
    if ms == [] {
      FrameHead([], rest);
      assert wire == Frame([]) + rest;
    } else {
      var tail := Stream(ms[1..]) + Frame([]) + rest;
      FrameHead(ms[0], tail);
      Regroup(Frame(ms[0]), Stream(ms[1..]), Frame([]), rest);
    }
  }

  lemma FirstFrame(ms: seq<seq<Byte>>)
    ensures Stream(ms) == if ms == [] then [] else Frame(ms[0]) + Stream(ms[1..])
  {
  }

  lemma Regroup<T>(a: seq<T>, b: seq<T>, c: seq<T>, d: seq<T>)
    ensures a + b + c + d == a + (b + c + d)
  {
  }

  /**
   Whatever the sizes of the transfers and wherever they are interrupted, the messages arrive
   unchanged and in order, and exactly the bytes sent are consumed.
   */
  method Exchange(ms: seq<seq<Byte>>, maxlen: nat, sends: seq<SendStep>, recvs: seq<RecvStep>, rest: seq<Byte>)
    returns (got: seq<seq<Byte>>, unread: seq<Byte>)
    requires Sendable(ms, maxlen) && SmoothSend(sends) && SmoothRecv(recvs)
    ensures got == ms && unread == rest
  {
    var s := new Sender(sends);
    var ok := SendAll(s, ms);
    var r := new Receiver(s.wire + rest, true, recvs);
    var rc: int;
    got, rc := ReceiveAll(r, maxlen, ms, rest);
    unread := r.wire;
  }
}
