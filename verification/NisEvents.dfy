/**
 The event list from the events file to the client's buffer: the server keeps the last 50 records in
 a ring and sends them oldest first; the client puts each in front of those it has.
 */
module NisEvents {
  import opened NisFraming

  const NLE: nat := 50
  const MAXSTRING: nat := 256
  const STATBUF: nat := 4096
  const NEWLINE: Byte := 10

  // ----- the records of an events file

  /** How much fgets takes: up to a newline, or 255 characters. */
  function LineLength(s: seq<Byte>, limit: nat): (n: nat)
    ensures n <= |s| && n <= limit && (s != [] && limit > 0 ==> n > 0)
  {
    if s == [] || limit == 0 then 0 else if s[0] == NEWLINE then 1 else 1 + LineLength(s[1..], limit - 1)
  }

  function Records(file: seq<Byte>): (rs: seq<seq<Byte>>)
    ensures forall i :: 0 <= i < |rs| ==> 0 < |rs[i]| < MAXSTRING
    decreases |file|
  {
    if file == [] then [] else
      var n := LineLength(file, MAXSTRING - 1);
      [file[..n]] + Records(file[n..])
  }

  function Join(ms: seq<seq<Byte>>): seq<Byte> {
    if ms == [] then [] else ms[0] + Join(ms[1..])
  }

  /** The records are the file cut up, nothing more or less. */
  lemma {:induction false} RecordsJoin(file: seq<Byte>)
    ensures Join(Records(file)) == file
    decreases |file|
  {
    if file != [] {
      var n := LineLength(file, MAXSTRING - 1);
      RecordsJoin(file[n..]);
    }
  }

  predicate NulFree(s: seq<Byte>) {
    forall i :: 0 <= i < |s| ==> s[i] != 0
  }

  predicate AllNulFree(ms: seq<seq<Byte>>) {
    forall i :: 0 <= i < |ms| ==> NulFree(ms[i])
  }

  lemma {:induction false} RecordsNulFree(file: seq<Byte>)
    requires NulFree(file)
    ensures AllNulFree(Records(file))
    decreases |file|
  {
    if file != [] {
      RecordsNulFree(file[LineLength(file, MAXSTRING - 1)..]);
    }
  }

  /** strlen. */
  function Strlen(s: seq<Byte>): (n: nat)
    ensures n <= |s| && NulFree(s[..n]) && (n < |s| ==> s[n] == 0)
  {
    if s == [] || s[0] == 0 then 0 else
      assert forall n: nat :: n < |s| ==> s[..n + 1] == [s[0]] + s[1..][..n];
      1 + Strlen(s[1..])
  }

  lemma StrlenNulFree(s: seq<Byte>)
    requires NulFree(s)
    ensures Strlen(s) == |s|
  {
  }

  function LastRecords(rs: seq<seq<Byte>>): seq<seq<Byte>> {
    if |rs| <= NLE then rs else rs[|rs| - NLE..]
  }

  /** Newest first. */
  function NewestFirst(ms: seq<seq<Byte>>): seq<Byte> {
    if ms == [] then [] else ms[|ms| - 1] + NewestFirst(ms[..|ms| - 1])
  }

  // ----- the server

  /** The last of the first n records are in their slots of the ring. */
  predicate InRing(le: seq<seq<Byte>>, rs: seq<seq<Byte>>, n: nat)
    requires |le| == NLE && n <= |rs|
  {
    forall r :: 0 <= r < n && n - NLE <= r ==> le[r % NLE] == rs[r]
  }

  /** Reads the file into a ring of 50 lines; i is the slot the next line would go to. */
  method FillRing(file: seq<Byte>, le: array<seq<Byte>>) returns (nrec: nat, i: nat)
    requires le.Length == NLE
    modifies le
    ensures nrec == |Records(file)| && i == nrec % NLE
    ensures InRing(le[..], Records(file), nrec)
  {
    nrec, i := 0, 0;
    var left := file;
    while left != []
      invariant nrec <= |Records(file)| && Records(file)[nrec..] == Records(left)
      invariant i == nrec % NLE
      invariant InRing(le[..], Records(file), nrec)
      decreases |left|
    {
      hide InRing, Records;
      var n := LineLength(left, MAXSTRING - 1);
      FirstRecord(left);
      assert Records(file)[nrec] == Records(left)[0] && Records(file)[nrec + 1..] == Records(left)[1..];
      Stored(le[..], Records(file), nrec);
      le[i] := left[..n];
      left := left[n..];
      nrec := nrec + 1;
      i := i + 1;
      if i >= NLE {
        i := 0;
      }
    }
  }

  lemma FirstRecord(file: seq<Byte>)
    requires file != []
    ensures var n := LineLength(file, MAXSTRING - 1);
      n > 0 && Records(file) == [file[..n]] + Records(file[n..])
  {
  }

  /** One more record overwrites the one 50 before it. */
  lemma Stored(le: seq<seq<Byte>>, rs: seq<seq<Byte>>, n: nat)
    requires |le| == NLE && n < |rs| && InRing(le, rs, n)
    ensures InRing(le[n % NLE := rs[n]], rs, n + 1)
  {
    SlotsDiffer(n);
  }

  /** The last 49 lines are not in the slot of the next one. */
  lemma SlotsDiffer(n: nat)
    ensures forall r :: 0 <= r < n && n + 1 - NLE <= r ==> r % NLE != n % NLE
  {
    forall r | 0 <= r < n && n + 1 - NLE <= r
      ensures r % NLE != n % NLE
    {
      assert n - r == NLE * (n / NLE - r / NLE) + (n % NLE - r % NLE);
    }
  }

  /** Sends one line of the ring as a C string. */
  method SendLine(s: Sender, line: seq<Byte>) returns (rc: int)
    requires |line| < MAXSTRING
    modifies s
    ensures NulFree(line) && SmoothSend(old(s.schedule)) ==>
      rc == |line| && s.wire == old(s.wire) + Frame(line) && SmoothSend(s.schedule)
  {
    var len := Strlen(line);
    if NulFree(line) {
      StrlenNulFree(line);
      assert line[..len] == line;
    }
    rc := s.NetSend(line[..len]);
  }

  /** Sends the lines of the ring from slot i on; false if one could not be sent. */
  method SendRing(s: Sender, le: array<seq<Byte>>, start: nat, nrec: nat, ghost last: seq<seq<Byte>>) returns (ok: bool)
    requires le.Length == NLE && start < NLE && nrec == |last|
    requires forall j :: 0 <= j < nrec ==> le[(start + j) % NLE] == last[j] && 0 < |last[j]| < MAXSTRING
    modifies s
    ensures AllNulFree(last) && SmoothSend(old(s.schedule)) ==>
      ok && SmoothSend(s.schedule) && s.wire == old(s.wire) + Stream(last)
  {
    hide NulFree, SmoothSend, Frame, Stream;
    var i := start;
    ghost var smooth := AllNulFree(last) && SmoothSend(s.schedule);
    NoMessages();
    for j := 0 to nrec
      modifies s
      invariant i == (start + j) % NLE
      invariant smooth ==> SmoothSend(s.schedule) && s.wire == old(s.wire) + Stream(last[..j])
    {
      StreamAppend(last[..j], last[j]);
      assert last[..j + 1] == last[..j] + [last[j]];
      var rc := SendLine(s, le[i]);
      if rc <= 0 {
        return false;
      }
      i := i + 1;
      if i >= NLE {
        i := 0;
      }
    }
    assert last[..nrec] == last;
    ok := true;
  }

  /** The last records are in the ring from slot i on, where i is 0 unless the ring has wrapped. */
  lemma RingHolds(le: seq<seq<Byte>>, rs: seq<seq<Byte>>, start: nat)
    requires |le| == NLE && start == if |rs| > NLE then |rs| % NLE else 0
    requires InRing(le, rs, |rs|)
    ensures var last := LastRecords(rs);
      forall j :: 0 <= j < |last| ==> le[(start + j) % NLE] == last[j]
  {
    var last := LastRecords(rs);
    forall j | 0 <= j < |last|
      ensures le[(start + j) % NLE] == last[j]
    {
      var r := |rs| - |last| + j;
      assert last[j] == rs[r];
      SameSlot(start + j, r, if |rs| > NLE then 1 - |rs| / NLE else 0);
    }
  }

  lemma SameSlot(a: int, b: int, k: int)
    requires a == b + NLE * k
    ensures a % NLE == b % NLE
  {
  }

  /** output_events: 0, or -1 if something could not be sent. */
  method OutputEvents(s: Sender, file: seq<Byte>) returns (stat: int)
    modifies s
    ensures NulFree(file) && SmoothSend(old(s.schedule)) ==>
      && stat == 0 && SmoothSend(s.schedule)
      && s.wire == old(s.wire) + Stream(LastRecords(Records(file))) + Frame([])
  {
    hide NulFree, SmoothSend, Stream;
    var le := new seq<Byte>[NLE](_ => []);
    var nrec, i := FillRing(file, le);
    if nrec > NLE {
      nrec := NLE;
      i := i - (i / NLE) * NLE;
    } else {
      i := 0;
    }
    ghost var last := LastRecords(Records(file));
    RingHolds(le[..], Records(file), i);
    if NulFree(file) {
      RecordsNulFree(file);
    }
    var ok := SendRing(s, le, i, nrec, last);
    stat := if ok then 0 else -1;
    var rc := s.NetSend([]);
    if rc < 0 {
      stat := -1;
    }
  }

  lemma NoMessages()
    ensures Stream([]) == []
  {
  }

  // ----- the client

  /** The C string at the start of the buffer. */
  ghost predicate Holds(statbuf: array<Byte>, s: seq<Byte>)
    reads statbuf
  {
    && statbuf.Length == STATBUF && |s| < STATBUF && NulFree(s)
    && statbuf[..|s|] == s && statbuf[|s|] == 0
  }

  function Truncated(s: seq<Byte>): seq<Byte> {
    if |s| < STATBUF then s else s[..STATBUF - 1]
  }

  /** memmove to a higher address in the same array: the last byte first. */
  method MoveUp(a: array<Byte>, shift: nat, n: nat)
    requires shift + n <= a.Length
    modifies a
    ensures a[..] == old(a[..shift]) + old(a[..n]) + old(a[shift + n..])
  {
    var k := n;
    while k > 0
      invariant 0 <= k <= n
      invariant forall x :: 0 <= x < a.Length ==>
        a[x] == if shift + k <= x < shift + n then old(a[x - shift]) else old(a[x])
    {
      k := k - 1;
      a[shift + k] := a[k];
    }
  }

  method CopyIn(a: array<Byte>, m: seq<Byte>)
    requires |m| <= a.Length
    modifies a
    ensures a[..] == m + old(a[|m|..])
  {
    for k := 0 to |m|
      invariant forall x :: 0 <= x < a.Length ==> a[x] == if x < k then m[x] else old(a[x])
    {
      a[k] := m[k];
    }
  }

  /** The three copies that put m in front of what the buffer holds. */
  method Insert(statbuf: array<Byte>, m: seq<Byte>)
    requires statbuf.Length == STATBUF && |m| < STATBUF
    modifies statbuf
    ensures statbuf[..] == m + old(statbuf[..])[..STATBUF - 1 - |m|] + [0]
  {
    var len := |m|;
    ghost var was := statbuf[..];
    MoveUp(statbuf, len, STATBUF - len - 1);
    assert statbuf[len..] == was[..STATBUF - 1 - len] + was[STATBUF - 1..];
    CopyIn(statbuf, m);
    assert statbuf[..] == m + was[..STATBUF - 1 - len] + was[STATBUF - 1..];
    statbuf[STATBUF - 1] := 0;
  }

  /** One message goes in front of the others; what no longer fits falls off the end. */
  method PutInFront(statbuf: array<Byte>, buf: array<Byte>, n: nat, ghost s: seq<Byte>)
    requires n < buf.Length && buf != statbuf && n < 500
    requires NulFree(buf[..n]) && Holds(statbuf, Truncated(s)) && NulFree(s)
    modifies statbuf, buf
    ensures Holds(statbuf, Truncated(old(buf[..n]) + s))
    ensures buf[..n] == old(buf[..n])
  {
    hide NulFree, Strlen;
    buf[n] := 0;
    ghost var was := statbuf[..];
    var len := Strlen(buf[..]);
    StrlenAt(buf[..], n);
    if len > STATBUF - 1 {
      len := STATBUF - 1;
    }
    assert buf[..n] == old(buf[..n]);
    Insert(statbuf, buf[..len]);
    FrontText(statbuf[..], was, buf[..n], s);
  }

  /** The buffer after a message was put in front of the text s it held, as far as s fitted. */
  lemma FrontText(now: seq<Byte>, was: seq<Byte>, m: seq<Byte>, s: seq<Byte>)
    requires |was| == STATBUF && |m| < 500 && NulFree(m) && NulFree(s)
    requires was[..|Truncated(s)|] == Truncated(s) && was[|Truncated(s)|] == 0
    requires now == m + was[..STATBUF - 1 - |m|] + [0]
    ensures var w := Truncated(m + s);
      now[..|w|] == w && now[|w|] == 0 && NulFree(w)
  {
    var t, w := Truncated(s), Truncated(m + s);
    if |m| + |t| < STATBUF - 1 {
      assert was[..STATBUF - 1 - |m|][|t|] == 0;
      assert now[|m| + |t|] == 0;
      assert now[..|w|] == m + t;
    } else {
      assert |w| == STATBUF - 1;
      assert was[..STATBUF - 1 - |m|] == s[..STATBUF - 1 - |m|];
      assert now[..|w|] == m + s[..STATBUF - 1 - |m|];
    }
  }

  lemma StrlenAt(s: seq<Byte>, n: nat)
    requires n < |s| && s[n] == 0 && NulFree(s[..n])
    ensures Strlen(s) == n
  {
    var k := Strlen(s);
    assert forall i :: 0 <= i < k ==> s[..k][i] == s[i];
    assert forall i :: 0 <= i < n ==> s[..n][i] == s[i];
  }

  lemma {:induction false} NewestFirstAppend(ms: seq<seq<Byte>>, m: seq<Byte>)
    ensures NewestFirst(ms + [m]) == m + NewestFirst(ms)
  {
    assert (ms + [m])[..|ms|] == ms;
  }

  lemma {:induction false} NewestFirstNulFree(ms: seq<seq<Byte>>)
    requires AllNulFree(ms)
    ensures NulFree(NewestFirst(ms))
  {
    if ms != [] {
      NewestFirstNulFree(ms[..|ms| - 1]);
    }
  }

  /** fetch_events, from the reply on: 1 if the whole reply was read, 0 on an error. */
  method FetchEvents(r: Receiver, statbuf: array<Byte>, ghost ms: seq<seq<Byte>>, ghost rest: seq<Byte>)
    returns (stat: int)
    requires statbuf.Length == STATBUF
    requires Sendable(ms, 499) && AllNulFree(ms) && SmoothRecv(r.schedule)
    requires r.wire == Stream(ms) + Frame([]) + rest
    modifies r, statbuf
    ensures stat == 1 && r.wire == rest && Holds(statbuf, Truncated(NewestFirst(ms)))
  {
    hide NulFree, SmoothRecv, Frame, Stream, Holds, NewestFirst;
    statbuf[0] := 0;
    HoldsNothing(statbuf);
    stat := 1;
    var buf := new Byte[500];
    ghost var done := 0;
    var n := ReceiveNext(r, buf, 499, ms, rest);
    assert ms[0..] == ms && ms[..0] == [];
    while n > 0
      modifies r, statbuf, buf
      invariant done <= |ms| && SmoothRecv(r.schedule)
      invariant Holds(statbuf, Truncated(NewestFirst(ms[..done])))
      invariant done == |ms| ==> n == 0 && r.wire == rest
      invariant done < |ms| ==> 0 < n == |ms[done]| <= 499 && buf[..n] == ms[done]
      invariant done < |ms| ==> r.wire == Stream(ms[done + 1..]) + Frame([]) + rest
      decreases |ms| - done
    {
      Oldest(ms, done);
      PutInFront(statbuf, buf, n, NewestFirst(ms[..done]));
      done := done + 1;
      if done < |ms| {
        assert ms[done..][1..] == ms[done + 1..];
      }
      n := ReceiveNext(r, buf, 499, ms[done..], rest);
    }
    assert ms[..|ms|] == ms;
    if n < 0 {
      stat := 0;
    }
  }

  lemma HoldsNothing(statbuf: array<Byte>)
    requires statbuf.Length == STATBUF && statbuf[0] == 0
    ensures Holds(statbuf, Truncated(NewestFirst([])))
  {
  }

  lemma Oldest(ms: seq<seq<Byte>>, k: nat)
    requires k < |ms| && AllNulFree(ms)
    ensures NewestFirst(ms[..k + 1]) == ms[k] + NewestFirst(ms[..k])
    ensures NulFree(NewestFirst(ms[..k])) && NulFree(ms[k])
  {
    assert ms[..k + 1] == ms[..k] + [ms[k]];
    NewestFirstAppend(ms[..k], ms[k]);
    NewestFirstNulFree(ms[..k]);
  }

  /**
   End to end: for any events file without NUL bytes, and any schedule of short and interrupted
   transfers, the client's buffer holds the last 50 records newest first, cut to 4095 characters,
   and exactly the reply has been consumed.
   */
  method EventsEndToEnd(file: seq<Byte>, sends: seq<SendStep>, recvs: seq<RecvStep>, rest: seq<Byte>,
                        statbuf: array<Byte>)
    returns (served: int, fetched: int, unread: seq<Byte>)
    requires NulFree(file) && SmoothSend(sends) && SmoothRecv(recvs) && statbuf.Length == STATBUF
    modifies statbuf
    ensures served == 0 && fetched == 1 && unread == rest
    ensures Holds(statbuf, Truncated(NewestFirst(LastRecords(Records(file)))))
  {
    hide NulFree, SmoothRecv, SmoothSend, Frame, Stream, Holds, NewestFirst;
    ghost var ms := LastRecords(Records(file));
    RecordsNulFree(file);
    var s := new Sender(sends);
    served := OutputEvents(s, file);
    assert [] + Stream(ms) + Frame([]) + rest == Stream(ms) + Frame([]) + rest;
    var r := new Receiver(s.wire + rest, true, recvs);
    fetched := FetchEvents(r, statbuf, ms, rest);
    unread := r.wire;
  }
}
