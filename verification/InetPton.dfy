/** Presentation addresses to bytes: dotted quads, and IPv6 with its run of zeros expanded in place. */
module InetPton {
  import opened Wrappers

  type Byte = x: int | 0 <= x < 256

  const IN6ADDRSZ: nat := 16

  // ----- what an address means

  function DigitValue(c: char): Option<nat> {
    if '0' <= c <= '9' then Some(c as nat - '0' as nat) else None
  }

  function HexValue(c: char): Option<nat> {
    if '0' <= c <= '9' then Some(c as nat - '0' as nat)
    else if 'a' <= c <= 'f' then Some(c as nat - 'a' as nat + 10)
    else if 'A' <= c <= 'F' then Some(c as nat - 'A' as nat + 10)
    else None
  }

  /** A dotted quad, from character i on: the octets so far, the last of them still growing. */
  function Quad(src: string, i: nat, octets: seq<Byte>, saw: bool): (r: Option<seq<Byte>>)
    requires i <= |src| && 1 <= |octets| <= 4
    ensures r.Some? ==> |r.value| == 4
    decreases |src| - i
  {
    if i == |src| then (if |octets| == 4 && saw then Some(octets) else None)
    else
      var ch, last := src[i], octets[|octets| - 1];
      if DigitValue(ch).Some? then
        var nw := (last as int) * 10 + DigitValue(ch).value;
        if nw > 255 then None else Quad(src, i + 1, octets[..|octets| - 1] + [nw], true)
      else if ch == '.' && saw && |octets| < 4 then Quad(src, i + 1, octets + [0], false)
      else None
  }

  /** The 16 bits of a group, high byte first. */
  function Group(val: nat): seq<Byte>
    requires val < 0x1_0000
  {
    [val / 256, val % 256]
  }

  /**
   From character i on: the bytes so far, where the "::" was, and the group being read.  The result
   is the bytes of the whole address and the place of the "::" among them.
   */
  function Scan(src: string, i: nat, out: seq<Byte>, colon: Option<nat>, saw: bool, val: nat, token: nat)
    : (r: Option<(seq<Byte>, Option<nat>)>)
    requires i <= |src| && token <= |src| && |out| <= IN6ADDRSZ && val < 0x1_0000
    requires colon.Some? ==> colon.value <= |out|
    ensures r.Some? ==> |r.value.0| <= IN6ADDRSZ && (r.value.1.Some? ==> r.value.1.value <= |r.value.0|)
    decreases |src| - i
  {
    if i == |src| then
      if !saw then Some((out, colon))
      else if |out| + 2 > IN6ADDRSZ then None
      else Some((out + Group(val), colon))
    else
      var ch := src[i];
      if HexValue(ch).Some? then
        var v := val * 16 + HexValue(ch).value;
        if v > 0xffff then None else Scan(src, i + 1, out, colon, true, v, token)
      else if ch == ':' then
        if !saw then
          if colon.Some? then None else Scan(src, i + 1, out, Some(|out|), false, val, i + 1)
        else if |out| + 2 > IN6ADDRSZ then None
        else Scan(src, i + 1, out + Group(val), colon, false, 0, i + 1)
      else if ch == '.' && |out| + 4 <= IN6ADDRSZ && Quad(src[token..], 0, [0], false).Some? then
        Some((out + Quad(src[token..], 0, [0], false).value, colon))
      else None
  }

  /**
   The bytes in full: those before "::", zeros, those after it.  When all sixteen bytes are written
   out the zeros overwrite the ones after it.
   */
  function Expand(out: seq<Byte>, colon: Option<nat>): Option<seq<Byte>>
    requires |out| <= IN6ADDRSZ && (colon.Some? ==> colon.value <= |out|)
  {
    match colon
    case None => if |out| == IN6ADDRSZ then Some(out) else None
    case Some(c) =>
      if |out| < IN6ADDRSZ then Some(out[..c] + seq(IN6ADDRSZ - |out|, _ => 0) + out[c..])
      else Some(out[..c] + seq(IN6ADDRSZ - c, _ => 0))
  }

  /** A leading "::" is scanned from its second colon; any other leading colon is wrong. */
  function First(src: string): Option<nat> {
    if src != "" && src[0] == ':' then (if |src| > 1 && src[1] == ':' then Some(1) else None) else Some(0)
  }

  function Parse6(src: string): Option<seq<Byte>> {
    var first := First(src);
    if first.None? then None else
      var r := Scan(src, first.value, [], None, false, 0, first.value);
      if r.None? then None else Expand(r.value.0, r.value.1)
  }

  // ----- the code

  /** One character of a dotted quad. */
  lemma QuadStep(src: string, i: nat, octets: seq<Byte>, saw: bool)
    requires i <= |src| && 1 <= |octets| <= 4
    ensures Quad(src, i, octets, saw)
         == if i == |src| then if |octets| == 4 && saw then Some(octets) else None
            else match DigitValue(src[i])
              case Some(d) =>
                var nw := (octets[|octets| - 1] as int) * 10 + d;
                if nw > 255 then None else Quad(src, i + 1, octets[..|octets| - 1] + [nw], true)
              case None =>
                if src[i] == '.' && saw && |octets| < 4 then Quad(src, i + 1, octets + [0], false) else None
  {
  }

  /** inet_pton4 on src from `start`; dst[offset..] is written only on success. */
  method InetPton4(src: string, start: nat, dst: array<Byte>, offset: nat) returns (ok: bool)
    requires start <= |src| && offset + 4 <= dst.Length
    modifies dst
    ensures ok <==> Quad(src[start..], 0, [0], false).Some?
    ensures ok ==> dst[..] == old(dst[..offset]) + Quad(src[start..], 0, [0], false).value + old(dst[offset + 4..])
    ensures !ok ==> dst[..] == old(dst[..])
  {
    hide Quad;
    var tmp := new Byte[4](_ => 0);
    var sawDigit, octets, tp, i := false, 0, 0, start;
    ghost var s := src[start..];
    assert tmp[..1] == [0];
    while i < |src|
      invariant start <= i <= |src| && tp < 4 && octets == tp + (if sawDigit then 1 else 0)
      invariant Quad(s, 0, [0], false) == Quad(s, i - start, tmp[..tp + 1], sawDigit)
      invariant dst[..] == old(dst[..])
    {
      var ch := src[i];
      assert s[i - start] == ch && tmp[..tp + 1][..tp] == tmp[..tp];
      QuadStep(s, i - start, tmp[..tp + 1], sawDigit);
      i := i + 1;
      if DigitValue(ch).Some? {
        var nw := tmp[tp] as int * 10 + DigitValue(ch).value;
        if nw > 255 {
          return false;
        }
        ghost var was := tmp[..tp];
        tmp[tp] := nw;
        assert tmp[..tp + 1] == was + [nw];
        if !sawDigit {
          octets := octets + 1;
          if octets > 4 {
            return false;
          }
          sawDigit := true;
        }
      } else if ch == '.' && sawDigit {
        if octets == 4 {
          return false;
        }
        tp := tp + 1;
        tmp[tp] := 0;
        assert tmp[..tp + 1] == tmp[..tp] + [0];
        sawDigit := false;
      } else {
        return false;
      }
    }
    QuadStep(s, |s|, tmp[..tp + 1], sawDigit);
    if octets < 4 {
      return false;
    }
    assert tmp[..tp + 1] == tmp[..];
    CopyBytes(dst, offset, tmp[..]);
    ok := true;
  }

  method CopyBytes(dst: array<Byte>, offset: nat, data: seq<Byte>)
    requires offset + |data| <= dst.Length
    modifies dst
    ensures dst[..] == old(dst[..offset]) + data + old(dst[offset + |data|..])
  {
    for k := 0 to |data|
      invariant forall x :: 0 <= x < dst.Length ==>
        dst[x] == if offset <= x < offset + k then data[x - offset] else old(dst[x])
    {
      dst[offset + k] := data[k];
    }
  }

  /** The shift by hand: the bytes from colonp on move to the end, the last one first, leaving zeros. */
  method ShiftToEnd(tmp: array<Byte>, colonp: nat, tp: nat)
    requires tmp.Length == IN6ADDRSZ && colonp <= tp <= IN6ADDRSZ
    requires forall k :: tp <= k < IN6ADDRSZ ==> tmp[k] == 0
    modifies tmp
    ensures Some(tmp[..]) == Expand(old(tmp[..tp]), Some(colonp))
  {
    hide Expand;
    var n := tp - colonp;
    for i := 1 to n + 1
      invariant forall k :: 0 <= k < colonp ==> tmp[k] == old(tmp[k])
      invariant forall k :: colonp <= k < tp - (i - 1) ==> tmp[k] == old(tmp[k])
      invariant tp < IN6ADDRSZ ==>
        forall k :: IN6ADDRSZ - (i - 1) <= k < IN6ADDRSZ ==> tmp[k] == old(tmp[k - (IN6ADDRSZ - tp)])
      invariant forall k ::
        tp - (i - 1) <= k < IN6ADDRSZ && (tp == IN6ADDRSZ || k < IN6ADDRSZ - (i - 1)) ==> tmp[k] == 0
    {
      tmp[IN6ADDRSZ - i] := tmp[colonp + n - i];
      tmp[colonp + n - i] := 0;
    }
    Shifted(old(tmp[..]), tmp[..], colonp, tp);
  }

  lemma Shifted(was: seq<Byte>, now: seq<Byte>, colonp: nat, tp: nat)
    requires |was| == |now| == IN6ADDRSZ && colonp <= tp <= IN6ADDRSZ
    requires forall k :: 0 <= k < colonp ==> now[k] == was[k]
    requires tp < IN6ADDRSZ ==>
      && (forall k :: colonp <= k < IN6ADDRSZ - (tp - colonp) ==> now[k] == 0)
      && (forall k :: IN6ADDRSZ - (tp - colonp) <= k < IN6ADDRSZ ==> now[k] == was[k - (IN6ADDRSZ - tp)])
    requires tp == IN6ADDRSZ ==> forall k :: colonp <= k < IN6ADDRSZ ==> now[k] == 0
    ensures Some(now) == Expand(was[..tp], Some(colonp))
  {
    if tp < IN6ADDRSZ {
      assert now == was[..tp][..colonp] + seq(IN6ADDRSZ - tp, _ => 0) + was[..tp][colonp..];
    } else {
      assert now == was[..tp][..colonp] + seq(IN6ADDRSZ - colonp, _ => 0);
    }
  }

  /** Where the scanner is: the bytes in tmp, the "::", the group being read, and the rest of the text. */
  ghost predicate Scanning(src: string, i: nat, tmp: array<Byte>, tp: nat, colonp: Option<nat>, saw: bool, val: nat,
                           curtok: nat, whole: Option<(seq<Byte>, Option<nat>)>)
    reads tmp
  {
    && i <= |src| && curtok <= |src| && tmp.Length == IN6ADDRSZ && tp <= IN6ADDRSZ && val < 0x1_0000
    && (colonp.Some? ==> colonp.value <= tp)
    && (forall k :: tp <= k < IN6ADDRSZ ==> tmp[k] == 0)
    && whole == Scan(src, i, tmp[..tp], colonp, saw, val, curtok)
  }

  /** Writes a group's two bytes. */
  method PutGroup(tmp: array<Byte>, tp: nat, val: nat)
    requires tp + 2 <= tmp.Length && val < 0x1_0000
    modifies tmp
    ensures tmp[..tp + 2] == old(tmp[..tp]) + Group(val)
    ensures forall k :: tp + 2 <= k < tmp.Length ==> tmp[k] == old(tmp[k])
  {
    tmp[tp] := val / 256;
    tmp[tp + 1] := val % 256;
  }

  /** The text up to the end or a dotted quad: the number of bytes in tmp and where the "::" was. */
  method ScanText(src: string, first: nat, tmp: array<Byte>) returns (ok: bool, tp: nat, colonp: Option<nat>)
    requires first <= |src| && tmp.Length == IN6ADDRSZ && forall k :: 0 <= k < IN6ADDRSZ ==> tmp[k] == 0
    modifies tmp
    ensures var r := Scan(src, first, [], None, false, 0, first);
      && (ok <==> r.Some?)
      && (ok ==> tp <= IN6ADDRSZ && r.value == (tmp[..tp], colonp))
      && (ok ==> forall k :: tp <= k < IN6ADDRSZ ==> tmp[k] == 0)
  {
    tp, colonp := 0, None;
    var i, curtok: nat, saw, val := first, first, false, 0;
    ghost var whole := Scan(src, first, [], None, false, 0, first);
    assert tmp[..0] == [];
    while i < |src|
      invariant Scanning(src, i, tmp, tp, colonp, saw, val, curtok, whole)
      decreases |src| - i
    {
      var ch := src[i];
      i := i + 1;
      var hex := HexValue(ch);
      if hex.Some? {
        val := val * 16 + hex.value;
        if val > 0xffff {
          return false, tp, colonp;
        }
        saw := true;
      } else if ch == ':' {
        curtok := i;
        if !saw {
          if colonp.Some? {
            return false, tp, colonp;
          }
          colonp := Some(tp);
        } else {
          if tp + 2 > IN6ADDRSZ {
            return false, tp, colonp;
          }
          PutGroup(tmp, tp, val);
          tp := tp + 2;
          saw, val := false, 0;
        }
      } else {
        if ch == '.' && tp + 4 <= IN6ADDRSZ {
          ghost var was := tmp[..tp];
          var quad := InetPton4(src, curtok, tmp, tp);
          if quad {
            tp := tp + 4;
            assert tmp[..tp] == was + Quad(src[curtok..], 0, [0], false).value;
            return true, tp, colonp;
          }
        }
        return false, tp, colonp;
      }
    }
    if saw {
      if tp + 2 > IN6ADDRSZ {
        return false, tp, colonp;
      }
      PutGroup(tmp, tp, val);
      tp := tp + 2;
    }
    ok := true;
  }

  /** inet_pton6: dst is written only when the address is accepted. */
  method InetPton6(src: string, dst: array<Byte>) returns (ok: bool)
    requires dst.Length >= IN6ADDRSZ
    modifies dst
    ensures ok <==> Parse6(src).Some?
    ensures ok ==> dst[..IN6ADDRSZ] == Parse6(src).value && dst[IN6ADDRSZ..] == old(dst[IN6ADDRSZ..])
    ensures !ok ==> dst[..] == old(dst[..])
  {
    var tmp := new Byte[IN6ADDRSZ](_ => 0);
    var first := 0;
    if src != "" && src[0] == ':' {
      first := 1;
      if |src| <= 1 || src[1] != ':' {
        return false;
      }
    }
    var tp, colonp;
    ok, tp, colonp := ScanText(src, first, tmp);
    if !ok {
      return false;
    }
    if colonp.Some? {
      ShiftToEnd(tmp, colonp.value, tp);
      tp := IN6ADDRSZ;
    }
    if tp != IN6ADDRSZ {
      return false;
    }
    CopyBytes(dst, 0, tmp[..]);
  }

  // ----- printing and parsing

  function HexDigit(d: nat): (c: char)
    requires d < 16
    ensures HexValue(c) == Some(d)
  {
    "0123456789abcdef"[d]
  }

  function GroupText(hi: Byte, lo: Byte): (s: string)
    ensures |s| == 4
  {
    [HexDigit(hi / 16), HexDigit(hi % 16), HexDigit(lo / 16), HexDigit(lo % 16)]
  }

  /** Groups of four digits with a colon between them. */
  function Groups(bytes: seq<Byte>): string
    requires |bytes| % 2 == 0
  {
    if bytes == [] then ""
    else if |bytes| == 2 then GroupText(bytes[0], bytes[1])
    else GroupText(bytes[0], bytes[1]) + ":" + Groups(bytes[2..])
  }

  /** Four digits are read into one group. */
  lemma ScanDigits(src: string, i: nat, out: seq<Byte>, colon: Option<nat>, token: nat, hi: Byte, lo: Byte)
    requires i + 4 <= |src| && token <= |src| && |out| <= IN6ADDRSZ && (colon.Some? ==> colon.value <= |out|)
    requires src[i..i + 4] == GroupText(hi, lo)
    ensures Scan(src, i, out, colon, false, 0, token) == Scan(src, i + 4, out, colon, true, hi * 256 + lo, token)
  {
    hide Scan;
    var s := src[i..i + 4];
    assert src[i] == s[0] && src[i + 1] == s[1] && src[i + 2] == s[2] && src[i + 3] == s[3];
    var v2 := hi / 16 * 16 + hi % 16;
    var v3 := v2 * 16 + lo / 16;
    ScanHex(src, i, out, colon, false, 0, token, hi / 16);
    ScanHex(src, i + 1, out, colon, true, hi / 16, token, hi % 16);
    ScanHex(src, i + 2, out, colon, true, v2, token, lo / 16);
    ScanHex(src, i + 3, out, colon, true, v3, token, lo % 16);
  }

  /** One hexadecimal digit. */
  lemma ScanHex(src: string, i: nat, out: seq<Byte>, colon: Option<nat>, saw: bool, val: nat, token: nat, d: nat)
    requires i < |src| && token <= |src| && |out| <= IN6ADDRSZ && (colon.Some? ==> colon.value <= |out|)
    requires HexValue(src[i]) == Some(d) && d < 16 && val < 0x1000
    ensures Scan(src, i, out, colon, saw, val, token) == Scan(src, i + 1, out, colon, true, val * 16 + d, token)
  {
    hide HexValue;
  }

  lemma GroupBack(hi: Byte, lo: Byte)
    ensures Group(hi * 256 + lo) == [hi, lo]
  {
  }

  /** A group and the colon after it. */
  lemma ScanGroupColon(src: string, i: nat, out: seq<Byte>, colon: Option<nat>, token: nat, hi: Byte, lo: Byte)
    requires i + 5 <= |src| && token <= |src| && |out| + 2 <= IN6ADDRSZ && (colon.Some? ==> colon.value <= |out|)
    requires src[i..i + 4] == GroupText(hi, lo) && src[i + 4] == ':'
    ensures Scan(src, i, out, colon, false, 0, token) == Scan(src, i + 5, out + [hi, lo], colon, false, 0, i + 5)
  {
    ScanDigits(src, i, out, colon, token, hi, lo);
    GroupBack(hi, lo);
  }

  /** A group at the end of the text. */
  lemma ScanLastGroup(src: string, i: nat, out: seq<Byte>, colon: Option<nat>, token: nat, hi: Byte, lo: Byte)
    requires i + 4 == |src| && token <= |src| && |out| + 2 <= IN6ADDRSZ && (colon.Some? ==> colon.value <= |out|)
    requires src[i..i + 4] == GroupText(hi, lo)
    ensures Scan(src, i, out, colon, false, 0, token) == Some((out + [hi, lo], colon))
  {
    ScanDigits(src, i, out, colon, token, hi, lo);
    GroupBack(hi, lo);
  }

  /** How the text of some groups starts. */
  lemma GroupsStart(bytes: seq<Byte>)
    requires bytes != [] && |bytes| % 2 == 0
    ensures var g := Groups(bytes);
      && |g| >= 4 && g[..4] == GroupText(bytes[0], bytes[1]) && (|bytes| == 2 <==> |g| == 4)
      && (|bytes| > 2 ==> |g| > 5 && g[4] == ':' && g[5..] == Groups(bytes[2..]))
  {
  }

  lemma ScanNothing(src: string, out: seq<Byte>, colon: Option<nat>, token: nat)
    requires token <= |src| && |out| <= IN6ADDRSZ && (colon.Some? ==> colon.value <= |out|)
    ensures Scan(src, |src|, out, colon, false, 0, token) == Some((out, colon))
  {
  }

  /** Groups that end the text. */
  lemma {:induction false} ScanGroups(src: string, i: nat, bytes: seq<Byte>, out: seq<Byte>,
                                      colon: Option<nat>, token: nat)
    requires i <= |src| && token <= |src| && (colon.Some? ==> colon.value <= |out|)
    requires |bytes| % 2 == 0 && |out| + |bytes| <= IN6ADDRSZ && src[i..] == Groups(bytes)
    ensures Scan(src, i, out, colon, false, 0, token) == Some((out + bytes, colon))
    decreases |bytes|
  {
    hide Scan, Groups, GroupText;
    if bytes == [] {
      EmptyGroups();
      assert |src[i..]| == 0 && out + bytes == out;
      ScanNothing(src, out, colon, token);
    } else {
      GroupsStart(bytes);
      assert src[i..i + 4] == src[i..][..4];
      if |bytes| > 2 {
        assert src[i + 4] == src[i..][4] && src[i + 5..] == src[i..][5..];
        ScanGroupColon(src, i, out, colon, token, bytes[0], bytes[1]);
        ScanGroups(src, i + 5, bytes[2..], out + [bytes[0], bytes[1]], colon, i + 5);
        assert out + [bytes[0], bytes[1]] + bytes[2..] == out + bytes;
      } else {
        ScanLastGroup(src, i, out, colon, token, bytes[0], bytes[1]);
        assert bytes == [bytes[0], bytes[1]];
      }
    }
  }

  /** The text has t at index i. */
  predicate HasAt(src: string, i: nat, t: string) {
    i + |t| <= |src| && src[i..i + |t|] == t
  }

  /** Groups followed by a colon and more text. */
  lemma {:induction false} ScanGroupsThen(src: string, i: nat, bytes: seq<Byte>, out: seq<Byte>,
                                          colon: Option<nat>, token: nat)
    requires i <= |src| && token <= |src| && (colon.Some? ==> colon.value <= |out|)
    requires bytes != [] && |bytes| % 2 == 0 && |out| + |bytes| <= IN6ADDRSZ
    requires HasAt(src, i, Groups(bytes)) && i + |Groups(bytes)| < |src| && src[i + |Groups(bytes)|] == ':'
    ensures var j := i + |Groups(bytes)| + 1;
      Scan(src, i, out, colon, false, 0, token) == Scan(src, j, out + bytes, colon, false, 0, j)
    decreases |bytes|
  {
    hide Scan, Groups, GroupText;
    var g := Groups(bytes);
    GroupsStart(bytes);
    assert src[i..i + 4] == src[i..i + |g|][..4];
    if |bytes| > 2 {
      assert src[i + 4] == src[i..i + |g|][4] && src[i + 5..i + |g|] == src[i..i + |g|][5..];
      ScanGroupColon(src, i, out, colon, token, bytes[0], bytes[1]);
      ScanGroupsThen(src, i + 5, bytes[2..], out + [bytes[0], bytes[1]], colon, i + 5);
      assert out + [bytes[0], bytes[1]] + bytes[2..] == out + bytes;
    } else {
      ScanGroupColon(src, i, out, colon, token, bytes[0], bytes[1]);
      assert bytes == [bytes[0], bytes[1]];
    }
  }

  lemma NoLeadingColon(bytes: seq<Byte>, rest: string)
    requires bytes != [] && |bytes| % 2 == 0
    ensures Groups(bytes) + rest != "" && (Groups(bytes) + rest)[0] != ':'
  {
    assert Groups(bytes)[0] == HexDigit(bytes[0] / 16);
  }

  /** Parsing the printed full form gives the bytes back. */
  lemma FullFormRoundTrip(bytes: seq<Byte>)
    requires |bytes| == IN6ADDRSZ
    ensures Parse6(Groups(bytes)) == Some(bytes)
  {
    hide Scan, Groups;
    NoLeadingColon(bytes, "");
    assert Groups(bytes) + "" == Groups(bytes) && Groups(bytes)[0..] == Groups(bytes);
    ScanGroups(Groups(bytes), 0, bytes, [], None, 0);
    assert [] + bytes == bytes;
  }

  /** What is read of a text with one "::". */
  lemma ScanAroundColons(before: seq<Byte>, after: seq<Byte>)
    requires |before| % 2 == 0 && |after| % 2 == 0 && |before| + |after| <= IN6ADDRSZ
    ensures var src := Groups(before) + "::" + Groups(after);
      var first := if before == [] then 1 else 0;
      First(src) == Some(first) && Scan(src, first, [], None, false, 0, first) == Some((before + after, Some(|before|)))
  {
    hide *;
    var src := Groups(before) + "::" + Groups(after);
    if before == [] {
      EmptyGroups();
      assert src[0] == ':' && src[1] == ':' && src[2..] == Groups(after);
      LeadingColons(src);
      ScanColon(src, 1, [], 1);
      ScanGroups(src, 2, after, [], Some(0), 2);
      assert [] + after == before + after;
    } else {
      NoLeadingColon(before, "::" + Groups(after));
      assert src == Groups(before) + ("::" + Groups(after));
      LeadingColons(src);
      ScanGroupsAndColons(src, before, after);
    }
  }

  lemma LeadingColons(src: string)
    requires src != ""
    ensures First(src) == if src[0] != ':' then Some(0) else if |src| > 1 && src[1] == ':' then Some(1) else None
  {
  }

  lemma ScanGroupsAndColons(src: string, before: seq<Byte>, after: seq<Byte>)
    requires before != [] && |before| % 2 == 0 && |after| % 2 == 0 && |before| + |after| <= IN6ADDRSZ
    requires src == Groups(before) + "::" + Groups(after)
    ensures Scan(src, 0, [], None, false, 0, 0) == Some((before + after, Some(|before|)))
  {
    hide Scan, Groups;
    var g := |Groups(before)|;
    assert src[..g] == Groups(before) && src[g] == ':' && src[g + 1] == ':' && src[g + 2..] == Groups(after);
    ScanGroupsThen(src, 0, before, [], None, 0);
    assert [] + before == before;
    ScanColon(src, g + 1, before, g + 1);
    ScanGroups(src, g + 2, after, before, Some(|before|), g + 2);
  }

  /** Parsing groups, "::" and more groups puts the zeros where the "::" stands. */
  lemma CompressedForm(before: seq<Byte>, after: seq<Byte>)
    requires |before| % 2 == 0 && |after| % 2 == 0 && |before| + |after| <= IN6ADDRSZ
    ensures Parse6(Groups(before) + "::" + Groups(after)) == Expand(before + after, Some(|before|))
  {
    hide Scan, Groups, First, Expand;
    ScanAroundColons(before, after);
  }

  lemma EmptyGroups()
    ensures Groups([]) == ""
  {
  }

  lemma ScanColon(src: string, i: nat, out: seq<Byte>, token: nat)
    requires i < |src| && src[i] == ':' && token <= |src| && |out| <= IN6ADDRSZ
    ensures Scan(src, i, out, None, false, 0, token) == Scan(src, i + 1, out, Some(|out|), false, 0, i + 1)
  {
  }
}
