/**
 What the address parsers accept: texts split at their separators, each piece read as a number on its
 own.  The character-by-character readings of the code are proved equal to this.
 */
module InetGrammar {
  import opened Wrappers
  import opened InetPton

  // ----- numbers

  predicate AllDigits(s: string) {
    forall i :: 0 <= i < |s| ==> DigitValue(s[i]).Some?
  }

  predicate AllHex(s: string) {
    forall i :: 0 <= i < |s| ==> HexValue(s[i]).Some?
  }

  function Decimal(s: string): nat
    requires AllDigits(s)
  {
    if s == "" then 0 else Decimal(s[..|s| - 1]) * 10 + DigitValue(s[|s| - 1]).value
  }

  function Hex(s: string): nat
    requires AllHex(s)
  {
    if s == "" then 0 else Hex(s[..|s| - 1]) * 16 + HexValue(s[|s| - 1]).value
  }

  /** A number from 0 to 255 in one or more decimal digits. */
  predicate IsOctet(s: string) {
    s != "" && AllDigits(s) && Decimal(s) <= 255
  }

  /** A number from 0 to 65535 in one or more hexadecimal digits. */
  predicate IsGroup(s: string) {
    s != "" && AllHex(s) && Hex(s) < 0x1_0000
  }

  lemma DecimalNext(s: string, c: char)
    requires AllDigits(s) && DigitValue(c).Some?
    ensures AllDigits(s + [c]) && Decimal(s + [c]) == Decimal(s) * 10 + DigitValue(c).value
  {
    assert (s + [c])[..|s|] == s;
  }

  lemma HexNext(s: string, c: char)
    requires AllHex(s) && HexValue(c).Some?
    ensures AllHex(s + [c]) && Hex(s + [c]) == Hex(s) * 16 + HexValue(c).value
  {
    assert (s + [c])[..|s|] == s;
  }

  lemma {:induction false} DecimalGrows(s: string, n: nat)
    requires AllDigits(s) && n <= |s|
    ensures Decimal(s[..n]) <= Decimal(s)
    decreases |s|
  {
    if n == |s| {
      assert s[..n] == s;
    } else {
      assert s[..|s| - 1][..n] == s[..n];
      DecimalGrows(s[..|s| - 1], n);
    }
  }

  lemma {:induction false} HexGrows(s: string, n: nat)
    requires AllHex(s) && n <= |s|
    ensures Hex(s[..n]) <= Hex(s)
    decreases |s|
  {
    if n == |s| {
      assert s[..n] == s;
    } else {
      assert s[..|s| - 1][..n] == s[..n];
      HexGrows(s[..|s| - 1], n);
    }
  }

  lemma DigitsAreHex(s: string)
    requires AllDigits(s)
    ensures AllHex(s)
  {
    forall i | 0 <= i < |s|
      ensures HexValue(s[i]).Some?
    {
      assert DigitValue(s[i]).Some?;
    }
  }

  lemma EmptyIsZero()
    ensures Hex("") == Decimal("") == 0
  {
  }

  /** The digits of a number below 1000, read as hexadecimal ones. */
  lemma {:induction false} DigitsAsHex(s: string)
    requires AllDigits(s) && AllHex(s) && Decimal(s) <= 999
    ensures Hex(s) == Decimal(s) / 100 * 256 + Decimal(s) / 10 % 10 * 16 + Decimal(s) % 10
  {
    hide AllDigits, AllHex, Decimal, Hex, HexValue;
    EmptyIsZero();
    if s != "" {
      var t, c := s[..|s| - 1], s[|s| - 1];
      assert s == t + [c];
      Shorter(t, c);
      DecimalNext(t, c);
      HexNext(t, c);
      DigitsAsHex(t);
      ShiftDigits(Decimal(t), DigitValue(c).value);
    }
  }

  lemma Shorter(t: string, c: char)
    requires AllDigits(t + [c]) && AllHex(t + [c])
    ensures AllDigits(t) && AllHex(t) && DigitValue(c).Some? && HexValue(c) == DigitValue(c)
  {
    assert forall i :: 0 <= i < |t| ==> t[i] == (t + [c])[i];
    assert (t + [c])[|t|] == c;
  }

  lemma ShiftDigits(n: nat, d: nat)
    requires n <= 99 && d <= 9
    ensures var m := 10 * n + d;
      m / 100 * 256 + m / 10 % 10 * 16 + m % 10 == (n / 100 * 256 + n / 10 % 10 * 16 + n % 10) * 16 + d
  {
    var h, l := n / 10, n % 10;
    assert n == 10 * h + l;
    assert (10 * n + d) / 10 == n;
    assert (10 * n + d) / 100 == h;
  }

  // ----- splitting

  /** Everything before the first c. */
  function Until(s: string, c: char): (k: nat)
    ensures k <= |s| && (k < |s| ==> s[k] == c) && forall i :: 0 <= i < k ==> s[i] != c
  {
    if s == "" || s[0] == c then 0 else 1 + Until(s[1..], c)
  }

  lemma UntilIs(s: string, c: char, k: nat)
    requires k <= |s| && (k < |s| ==> s[k] == c) && forall i :: 0 <= i < k ==> s[i] != c
    ensures Until(s, c) == k
  {
  }

  // ----- dotted quads

  /** What is read so far and what the rest of the text says. */
  function Behind(done: seq<Byte>, r: Option<seq<Byte>>): Option<seq<Byte>> {
    match r
    case None => None
    case Some(bytes) => Some(done + bytes)
  }

  /** n decimal numbers with dots between them. */
  function Dotted(text: string, n: nat): (r: Option<seq<Byte>>)
    requires n >= 1
    ensures r.Some? ==> |r.value| == n
  {
    var k := Until(text, '.');
    if !IsOctet(text[..k]) then None
    else
      var first: Byte := Decimal(text[..k]);
      if n == 1 then (if k == |text| then Some([first]) else None)
      else if k == |text| then None
      else Behind([first], Dotted(text[k + 1..], n - 1))
  }

  /** From any point of a dotted quad on: `cur` is the digits of the current number. */
  lemma {:induction false} QuadIsDotted(src: string, i: nat, done: seq<Byte>, cur: string)
    requires i <= |src| && |done| <= 3 && AllDigits(cur) && Decimal(cur) <= 255
    ensures Quad(src, i, done + [Decimal(cur)], cur != "") == Behind(done, Dotted(cur + src[i..], 4 - |done|))
    decreases |src| - i
  {
    hide Quad, Dotted, Decimal, AllDigits, DigitValue, IsOctet;
    var text, octets := cur + src[i..], done + [Decimal(cur)];
    QuadStep(src, i, octets, cur != "");
    assert octets[..|octets| - 1] == done && octets[|octets| - 1] == Decimal(cur);
    if i == |src| {
      assert text == cur;
      DottedEnds(cur, 4 - |done|);
    } else {
      var c := src[i];
      assert text == cur + ([c] + src[i + 1..]) && text[|cur|] == c;
      if DigitValue(c).Some? {
        DecimalNext(cur, c);
        assert text == (cur + [c]) + src[i + 1..];
        if Decimal(cur + [c]) > 255 {
          TooLarge(cur + [c], src[i + 1..], 4 - |done|);
        } else {
          QuadIsDotted(src, i + 1, done, cur + [c]);
        }
      } else if c == '.' {
        DottedNext(cur, src[i + 1..], 4 - |done|);
        assert text == cur + "." + src[i + 1..];
        if cur != "" && |done| < 3 {
          EmptyNumber();
          QuadIsDotted(src, i + 1, octets, "");
          assert "" + src[i + 1..] == src[i + 1..];
          BehindTwice(done, Decimal(cur), Dotted(src[i + 1..], 3 - |done|));
        }
      } else {
        WrongCharacter(text, |cur|, 4 - |done|);
      }
    }
  }

  lemma BehindTwice(done: seq<Byte>, x: Byte, r: Option<seq<Byte>>)
    ensures Behind(done, Behind([x], r)) == Behind(done + [x], r)
  {
    if r.Some? {
      assert done + ([x] + r.value) == done + [x] + r.value;
    }
  }

  lemma EmptyNumber()
    ensures AllDigits("") && Decimal("") == 0
  {
  }

  lemma DottedEnds(cur: string, n: nat)
    requires n >= 1 && AllDigits(cur) && Decimal(cur) <= 255
    ensures Dotted(cur, n) == if n == 1 && cur != "" then Some([Decimal(cur)]) else None
  {
    UntilIs(cur, '.', |cur|);
    assert cur[..|cur|] == cur;
  }

  lemma DottedNext(cur: string, rest: string, n: nat)
    requires n >= 1 && AllDigits(cur) && Decimal(cur) <= 255
    ensures Dotted(cur + "." + rest, n)
         == if cur == "" || n == 1 then None else Behind([Decimal(cur)], Dotted(rest, n - 1))
  {
    var text := cur + "." + rest;
    UntilIs(text, '.', |cur|);
    assert text[..|cur|] == cur && text[|cur| + 1..] == rest;
  }

  lemma TooLarge(cur: string, rest: string, n: nat)
    requires n >= 1 && AllDigits(cur) && Decimal(cur) > 255
    ensures Dotted(cur + rest, n) == None
  {
    var text := cur + rest;
    var k := Until(text, '.');
    assert text[..|cur|] == cur && forall i :: 0 <= i < |cur| ==> text[i] != '.';
    assert k >= |cur| && text[..k][..|cur|] == cur;
    if AllDigits(text[..k]) {
      DecimalGrows(text[..k], |cur|);
    }
  }

  /** Only digits and dots. */
  lemma {:induction false} WrongCharacter(text: string, i: nat, n: nat)
    requires n >= 1 && i < |text| && DigitValue(text[i]).None? && text[i] != '.'
    ensures Dotted(text, n) == None
    decreases n
  {
    var k := Until(text, '.');
    if i < k {
      assert text[..k][i] == text[i];
    } else if n > 1 && k < |text| {
      assert text[k + 1..][i - k - 1] == text[i];
      WrongCharacter(text[k + 1..], i - k - 1, n - 1);
    }
  }

  /** What inet_pton4 reads is the text split at its dots. */
  lemma QuadReads(src: string)
    ensures Quad(src, 0, [0], false) == Dotted(src, 4)
  {
    hide Quad, Dotted;
    EmptyNumber();
    QuadIsDotted(src, 0, [], "");
    assert [] + [0 as Byte] == [0] && "" + src[0..] == src;
    assert Behind([], Dotted(src, 4)) == Dotted(src, 4) by {
      if Dotted(src, 4).Some? {
        assert [] + Dotted(src, 4).value == Dotted(src, 4).value;
      }
    }
  }

  ghost predicate FourOctets(src: string, a: string, b: string, c: string, d: string) {
    IsOctet(a) && IsOctet(b) && IsOctet(c) && IsOctet(d) && src == a + "." + b + "." + c + "." + d
  }

  /**
   inet_pton4 accepts exactly the texts of four numbers from 0 to 255, in any number of decimal digits,
   with dots between them, and gives their values.
   */
  lemma QuadAccepts(src: string, v: seq<Byte>)
    ensures Quad(src, 0, [0], false) == Some(v)
      <==> exists a, b, c, d :: FourOctets(src, a, b, c, d) && v == [Decimal(a), Decimal(b), Decimal(c), Decimal(d)]
  {
    hide Quad, Dotted, Decimal;
    QuadReads(src);
    if Quad(src, 0, [0], false) == Some(v) {
      var a, b, c, d := DottedParts(src, v);
    }
    if a, b, c, d :| FourOctets(src, a, b, c, d) && v == [Decimal(a), Decimal(b), Decimal(c), Decimal(d)] {
      FourAreDotted(a, b, c, d);
    }
  }

  lemma FourAreDotted(a: string, b: string, c: string, d: string)
    requires IsOctet(a) && IsOctet(b) && IsOctet(c) && IsOctet(d)
    ensures Dotted(a + "." + b + "." + c + "." + d, 4) == Some([Decimal(a), Decimal(b), Decimal(c), Decimal(d)])
  {
    hide Dotted, Decimal;
    assert a + "." + b + "." + c + "." + d == a + "." + (b + "." + (c + "." + d));
    DottedNext(a, b + "." + (c + "." + d), 4);
    DottedNext(b, c + "." + d, 3);
    DottedNext(c, d, 2);
    DottedEnds(d, 1);
    var w, x, y, z: Byte := Decimal(a), Decimal(b), Decimal(c), Decimal(d);
    assert [w] + ([x] + ([y] + [z])) == [w, x, y, z];
  }

  lemma FirstPart(text: string, v: seq<Byte>, n: nat) returns (a: string, rest: string)
    requires n > 1 && Dotted(text, n) == Some(v)
    ensures IsOctet(a) && text == a + "." + rest
    ensures |v| == n && v[0] == Decimal(a) && Dotted(rest, n - 1) == Some(v[1..])
  {
    var k := Until(text, '.');
    a, rest := text[..k], text[k + 1..];
    assert text == text[..k] + [text[k]] + text[k + 1..];
    var r := Dotted(rest, n - 1);
    assert v == [Decimal(a)] + r.value && v[1..] == r.value;
  }

  lemma DottedParts(src: string, v: seq<Byte>) returns (a: string, b: string, c: string, d: string)
    requires Dotted(src, 4) == Some(v)
    ensures FourOctets(src, a, b, c, d) && v == [Decimal(a), Decimal(b), Decimal(c), Decimal(d)]
  {
    hide Decimal, Dotted, IsOctet, AllDigits;
    var r1, r2;
    a, r1 := FirstPart(src, v, 4);
    b, r2 := FirstPart(r1, v[1..], 3);
    c, d := FirstPart(r2, v[2..], 2);
    LastPart(d, v[3..]);
    assert src == a + "." + b + "." + c + "." + d by {
      assert src == a + "." + (b + "." + (c + "." + d));
    }
    OctetsAre(a, b, c, d);
  }

  lemma OctetsAre(a: string, b: string, c: string, d: string)
    requires IsOctet(a) && IsOctet(b) && IsOctet(c) && IsOctet(d)
    ensures AllDigits(a) && AllDigits(b) && AllDigits(c) && AllDigits(d)
  {
  }

  lemma LastPart(text: string, v: seq<Byte>)
    requires Dotted(text, 1) == Some(v)
    ensures IsOctet(text) && v == [Decimal(text)]
  {
    assert text[..|text|] == text;
  }

  // ----- printing

  function DigitChar(d: nat): (c: char)
    requires d < 10
    ensures DigitValue(c) == Some(d)
  {
    "0123456789"[d]
  }

  function DecimalText(n: nat): string {
    if n < 10 then [DigitChar(n)] else DecimalText(n / 10) + [DigitChar(n % 10)]
  }

  lemma {:induction false} DecimalRoundTrip(n: nat)
    ensures DecimalText(n) != "" && AllDigits(DecimalText(n)) && Decimal(DecimalText(n)) == n
  {
    if n < 10 {
      assert DecimalText(n) == "" + [DigitChar(n)];
      DecimalNext("", DigitChar(n));
    } else {
      DecimalRoundTrip(n / 10);
      DecimalNext(DecimalText(n / 10), DigitChar(n % 10));
    }
  }

  /** Parsing a printed dotted quad gives the bytes back. */
  lemma QuadRoundTrip(a: Byte, b: Byte, c: Byte, d: Byte)
    ensures Quad(DecimalText(a) + "." + DecimalText(b) + "." + DecimalText(c) + "." + DecimalText(d), 0, [0], false)
         == Some([a, b, c, d])
  {
    hide Quad, Dotted, Decimal, DecimalText;
    DecimalRoundTrip(a);
    DecimalRoundTrip(b);
    DecimalRoundTrip(c);
    DecimalRoundTrip(d);
    QuadReads(DecimalText(a) + "." + DecimalText(b) + "." + DecimalText(c) + "." + DecimalText(d));
    FourAreDotted(DecimalText(a), DecimalText(b), DecimalText(c), DecimalText(d));
  }

  // ----- IPv6 texts

  /** The bytes so far fit an address, and "::" was found among them. */
  predicate Fits(out: seq<Byte>, colon: Option<nat>) {
    |out| <= IN6ADDRSZ && (colon.Some? ==> colon.value <= |out|)
  }

  function GroupBytes(part: string): (g: seq<Byte>)
    requires IsGroup(part)
    ensures |g| == 2
  {
    Group(Hex(part))
  }

  /**
   From the start of a piece on, with the bytes so far and the place of "::": the text is split at its
   colons, an empty piece is the "::", and the last piece may be a dotted quad.
   */
  function Pieces(text: string, out: seq<Byte>, colon: Option<nat>): (r: Option<(seq<Byte>, Option<nat>)>)
    requires Fits(out, colon)
    ensures r.Some? ==> Fits(r.value.0, r.value.1)
    decreases |text|
  {
    var k := Until(text, ':');
    var part := text[..k];
    if text == "" then Some((out, colon))
    else if part == "" then if colon.Some? then None else Pieces(text[1..], out, Some(|out|))
    else if IsGroup(part) && |out| + 2 <= IN6ADDRSZ then
      if k == |text| then Some((out + GroupBytes(part), colon))
      else Pieces(text[k + 1..], out + GroupBytes(part), colon)
    else if k == |text| && |out| + 4 <= IN6ADDRSZ && Dotted(text, 4).Some? then
      Some((out + Dotted(text, 4).value, colon))
    else None
  }

  /** From any character on: `cur` is the hexadecimal digits of the current piece, which starts at `token`. */
  lemma {:induction false} ScanIsPieces(src: string, i: nat, out: seq<Byte>, colon: Option<nat>, cur: string,
                                        token: nat)
    requires token <= i <= |src| && Fits(out, colon)
    requires cur == src[token..i] && AllHex(cur) && Hex(cur) < 0x1_0000
    ensures Scan(src, i, out, colon, cur != "", Hex(cur), token) == Pieces(src[token..], out, colon)
    decreases |src| - i
  {
    hide Scan, Pieces, Hex, AllHex, Quad, Dotted;
    var text := src[token..];
    assert text[..|cur|] == cur && text[|cur|..] == src[i..];
    ScanStep(src, i, out, colon, cur != "", Hex(cur), token);
    if i == |src| {
      assert text == cur;
      PiecesEnd(cur, out, colon);
    } else {
      var c := src[i];
      assert text[|cur|] == c && text[|cur| + 1..] == src[i + 1..];
      if HexValue(c).Some? {
        HexNext(cur, c);
        assert src[token..i + 1] == cur + [c];
        if Hex(cur + [c]) >= 0x1_0000 {
          assert text == (cur + [c]) + src[i + 1..];
          GroupTooLarge(cur + [c], src[i + 1..], out, colon);
        } else {
          ScanIsPieces(src, i + 1, out, colon, cur + [c], token);
        }
      } else if c == ':' {
        assert src[i + 1..i + 1] == "";
        assert text == cur + ":" + src[i + 1..];
        PiecesNext(cur, src[i + 1..], out, colon);
        NoDigits();
        if cur == "" {
          if colon.None? {
            ScanIsPieces(src, i + 1, out, Some(|out|), "", i + 1);
          }
        } else if |out| + 2 <= IN6ADDRSZ {
          ScanIsPieces(src, i + 1, out + Group(Hex(cur)), colon, "", i + 1);
        }
      } else if c == '.' {
        QuadReads(text);
        PiecesQuad(text, |cur|, out, colon);
      } else {
        PiecesWrong(text, |cur|, out, colon);
      }
    }
  }

  lemma NoDigits()
    ensures AllHex("") && Hex("") == 0
  {
  }

  /** One character of an IPv6 text. */
  lemma ScanStep(src: string, i: nat, out: seq<Byte>, colon: Option<nat>, saw: bool, val: nat, token: nat)
    requires i <= |src| && token <= |src| && Fits(out, colon) && val < 0x1_0000
    ensures Scan(src, i, out, colon, saw, val, token)
         == if i == |src| then
              if !saw then Some((out, colon))
              else if |out| + 2 > IN6ADDRSZ then None else Some((out + Group(val), colon))
            else match HexValue(src[i])
              case Some(d) =>
                if val * 16 + d > 0xffff then None else Scan(src, i + 1, out, colon, true, val * 16 + d, token)
              case None =>
                if src[i] == ':' then
                  if !saw then
                    if colon.Some? then None else Scan(src, i + 1, out, Some(|out|), false, val, i + 1)
                  else if |out| + 2 > IN6ADDRSZ then None
                  else Scan(src, i + 1, out + Group(val), colon, false, 0, i + 1)
                else if src[i] == '.' && |out| + 4 <= IN6ADDRSZ && Quad(src[token..], 0, [0], false).Some? then
                  Some((out + Quad(src[token..], 0, [0], false).value, colon))
                else None
  {
    hide Quad, HexValue;
  }

  lemma PiecesEnd(cur: string, out: seq<Byte>, colon: Option<nat>)
    requires Fits(out, colon) && AllHex(cur) && Hex(cur) < 0x1_0000
    ensures Pieces(cur, out, colon)
         == if cur == "" then Some((out, colon))
            else if |out| + 2 > IN6ADDRSZ then None else Some((out + Group(Hex(cur)), colon))
  {
    UntilIs(cur, ':', |cur|);
    assert cur[..|cur|] == cur;
    if cur != "" {
      HexIsNoQuad(cur);
    }
  }

  lemma HexIsNoQuad(cur: string)
    requires AllHex(cur)
    ensures Dotted(cur, 4) == None
  {
    UntilIs(cur, '.', |cur|);
  }

  lemma PiecesNext(cur: string, rest: string, out: seq<Byte>, colon: Option<nat>)
    requires Fits(out, colon) && AllHex(cur) && Hex(cur) < 0x1_0000
    ensures Pieces(cur + ":" + rest, out, colon)
         == if cur == "" then if colon.Some? then None else Pieces(rest, out, Some(|out|))
            else if |out| + 2 > IN6ADDRSZ then None
            else Pieces(rest, out + Group(Hex(cur)), colon)
  {
    var text := cur + ":" + rest;
    UntilIs(text, ':', |cur|);
    assert text[..|cur|] == cur && text[|cur| + 1..] == rest;
  }

  /** A number that has grown too large stays too large, as a group and as the first number of a quad. */
  lemma GroupTooLarge(cur: string, rest: string, out: seq<Byte>, colon: Option<nat>)
    requires Fits(out, colon) && cur != "" && AllHex(cur) && Hex(cur) >= 0x1_0000
    ensures Pieces(cur + rest, out, colon) == None
  {
    hide Hex, Decimal;
    var text := cur + rest;
    var k := Until(text, ':');
    assert text[..|cur|] == cur && forall i :: 0 <= i < |cur| ==> text[i] == cur[i];
    assert k >= |cur| && text[..k][..|cur|] == cur;
    if AllHex(text[..k]) {
      HexGrows(text[..k], |cur|);
    }
    var m := Until(text, '.');
    assert m >= |cur| && text[..m][..|cur|] == cur;
    if IsOctet(text[..m]) {
      DigitsAreHex(text[..m]);
      DigitsAsHex(text[..m]);
      HexGrows(text[..m], |cur|);
    }
  }

  lemma PiecesQuad(text: string, i: nat, out: seq<Byte>, colon: Option<nat>)
    requires Fits(out, colon) && i < |text| && text[i] == '.' && AllHex(text[..i])
    ensures Pieces(text, out, colon)
         == if |out| + 4 <= IN6ADDRSZ && Dotted(text, 4).Some? then Some((out + Dotted(text, 4).value, colon)) else None
  {
    var k := Until(text, ':');
    assert forall j :: 0 <= j < i ==> HexValue(text[..i][j]).Some? && text[..i][j] == text[j];
    assert k > i && text[..k][i] == '.';
    if k < |text| {
      WrongCharacter(text, k, 4);
    }
  }

  lemma PiecesWrong(text: string, i: nat, out: seq<Byte>, colon: Option<nat>)
    requires Fits(out, colon) && i < |text| && AllHex(text[..i])
    requires text[i] != '.' && text[i] != ':' && HexValue(text[i]).None?
    ensures Pieces(text, out, colon) == None
  {
    var k := Until(text, ':');
    assert forall j :: 0 <= j < i ==> HexValue(text[..i][j]).Some? && text[..i][j] == text[j];
    assert k > i && text[..k][i] == text[i];
    WrongCharacter(text, i, 4);
  }

  /** What inet_pton6 reads is the text split at its colons. */
  lemma ScanReads(src: string, first: nat)
    requires first <= |src|
    ensures Scan(src, first, [], None, false, 0, first) == Pieces(src[first..], [], None)
  {
    hide Scan, Pieces;
    NoDigits();
    assert src[first..first] == "";
    ScanIsPieces(src, first, [], None, "", first);
  }

  // ----- a stray colon

  predicate HasDoubleColon(s: string) {
    exists i :: 0 <= i < |s| - 1 && s[i] == ':' && s[i + 1] == ':'
  }

  /** Where a text starts to be read. */
  function Body(src: string): string
    requires First(src).Some?
  {
    src[First(src).value..]
  }

  lemma Parse6Reads(src: string)
    ensures Parse6(src)
         == if First(src).None? || Pieces(Body(src), [], None).None? then None
            else var r := Pieces(Body(src), [], None).value; Expand(r.0, r.1)
  {
    hide Scan, Pieces, Expand;
    if First(src).Some? {
      ScanReads(src, First(src).value);
    }
  }

  lemma {:induction false} PiecesStep(text: string, out: seq<Byte>, colon: Option<nat>)
    requires Fits(out, colon) && text != ""
    ensures var k := Until(text, ':');
      var part, room := text[..k], if IsGroup(text[..k]) then |out| + 2 <= IN6ADDRSZ else false;
      Pieces(text, out, colon)
      == if part == "" then if colon.Some? then None else Pieces(text[1..], out, Some(|out|))
         else if room then
           if k == |text| then Some((out + GroupBytes(part), colon))
           else Pieces(text[k + 1..], out + GroupBytes(part), colon)
         else if k == |text| && |out| + 4 <= IN6ADDRSZ && Dotted(text, 4).Some? then
           Some((out + Dotted(text, 4).value, colon))
         else None
  {
    hide Dotted;
  }

  lemma NoPieces(out: seq<Byte>, colon: Option<nat>)
    requires Fits(out, colon)
    ensures Pieces("", out, colon) == Some((out, colon))
  {
  }

  lemma GroupHasNoDot(s: string)
    requires IsGroup(s)
    ensures '.' !in s
  {
  }

  lemma QuadHasDot(s: string)
    requires Dotted(s, 4).Some?
    ensures '.' in s && !IsGroup(s)
  {
    if '.' !in s {
      UntilIs(s, '.', |s|);
    }
    if IsGroup(s) {
      GroupHasNoDot(s);
    }
  }

  /** The text ends in "::". */
  function EndsInGap(out: seq<Byte>): Option<(seq<Byte>, Option<nat>)> {
    Some((out, Some(|out|)))
  }

  /** What comes of reading a piece that is followed by a colon: the bytes and the place of "::" to go on with. */
  function AfterPiece(part: string, out: seq<Byte>, colon: Option<nat>): (r: Option<(seq<Byte>, Option<nat>)>)
    requires Fits(out, colon)
    ensures r.Some? ==> Fits(r.value.0, r.value.1)
  {
    if part == "" then if colon.Some? then None else EndsInGap(out)
    else if IsGroup(part) && |out| + 2 <= IN6ADDRSZ then Some((out + GroupBytes(part), colon))
    else None
  }

  lemma PieceThenRest(part: string, rest: string, out: seq<Byte>, colon: Option<nat>)
    requires Fits(out, colon) && ':' !in part
    ensures var next := AfterPiece(part, out, colon);
      Pieces(part + ":" + rest, out, colon)
      == if next.None? then None else Pieces(rest, next.value.0, next.value.1)
  {
    hide Dotted, IsGroup;
    var text := part + ":" + rest;
    UntilIs(text, ':', |part|);
    assert text[..|part|] == part && text[|part| + 1..] == rest && text[0..] == text;
  }

  lemma NotBoth(s: string)
    ensures !(IsGroup(s) && Dotted(s, 4).Some?)
  {
    hide IsGroup, Dotted;
    if Dotted(s, 4).Some? {
      QuadHasDot(s);
    }
  }

  /** A text and a colon after it. */
  lemma {:induction false} PiecesThenColon(text: string, out: seq<Byte>, colon: Option<nat>)
    requires Fits(out, colon) && text != ""
    ensures var r := Pieces(text, out, colon);
      Pieces(text + ":", out, colon)
      == if text[|text| - 1] != ':' then if '.' in text then None else r
         else if r.None? || r.value.1.Some? then None
         else EndsInGap(r.value.0)
    ensures Pieces(text, out, colon).Some? && text[|text| - 1] == ':' ==> '.' !in text
    decreases |text|
  {
    hide Pieces, Dotted, IsGroup, AfterPiece;
    var k := Until(text, ':');
    if k == |text| {
      LastPieceThenColon(text, out, colon);
    } else {
      var part, rest := text[..k], text[k + 1..];
      assert text == part + ":" + rest && text + ":" == part + ":" + (rest + ":");
      PieceThenRest(part, rest, out, colon);
      PieceThenRest(part, rest + ":", out, colon);
      var next := AfterPiece(part, out, colon);
      if next.Some? {
        PieceHasNoDot(part, out, colon);
        assert '.' in text <==> '.' in rest;
        if rest == "" {
          NoPieces(next.value.0, next.value.1);
          assert rest + ":" == ":";
          OneColon(next.value.0, next.value.1);
        } else {
          assert text[|text| - 1] == rest[|rest| - 1];
          PiecesThenColon(rest, next.value.0, next.value.1);
        }
      }
    }
  }

  lemma PieceHasNoDot(part: string, out: seq<Byte>, colon: Option<nat>)
    requires Fits(out, colon) && AfterPiece(part, out, colon).Some?
    ensures '.' !in part
  {
    if part != "" {
      GroupHasNoDot(part);
    }
  }

  lemma OneColon(out: seq<Byte>, colon: Option<nat>)
    requires Fits(out, colon)
    ensures Pieces(":", out, colon) == if colon.Some? then None else EndsInGap(out)
  {
    assert ":"[1..] == "";
  }

  lemma LastPieceThenColon(text: string, out: seq<Byte>, colon: Option<nat>)
    requires Fits(out, colon) && text != "" && Until(text, ':') == |text|
    ensures Pieces(text + ":", out, colon) == if '.' in text then None else Pieces(text, out, colon)
    ensures text[|text| - 1] != ':'
  {
    hide Pieces, Dotted, IsGroup, Until;
    PieceThenRest(text, "", out, colon);
    assert text + ":" + "" == text + ":" && text[..|text|] == text;
    PiecesStep(text, out, colon);
    if IsGroup(text) {
      GroupHasNoDot(text);
      if |out| + 2 <= IN6ADDRSZ {
        NoPieces(out + GroupBytes(text), colon);
      }
    }
    if Dotted(text, 4).Some? {
      QuadHasDot(text);
    }
  }

  /** A "::" is found exactly if the text has one, or begins with the second colon of one. */
  lemma {:induction false} PiecesColon(text: string, out: seq<Byte>, colon: Option<nat>)
    requires Fits(out, colon) && Pieces(text, out, colon).Some?
    ensures Pieces(text, out, colon).value.1.Some?
      <==> colon.Some? || (text != "" && text[0] == ':') || HasDoubleColon(text)
    decreases |text|
  {
    hide Pieces, Dotted, Hex, IsGroup, AllHex;
    if text == "" {
      NoPieces(out, colon);
    } else {
      PiecesStep(text, out, colon);
      var k := Until(text, ':');
      if text[..k] == "" {
        PiecesColon(text[1..], out, Some(|out|));
      } else if k < |text| {
        PiecesColon(text[k + 1..], out + GroupBytes(text[..k]), colon);
        DoubleColonInRest(text, k);
      } else {
        assert !HasDoubleColon(text);
      }
    }
  }

  lemma DoubleColonInRest(text: string, k: nat)
    requires k < |text| && text[k] == ':' && forall i :: 0 <= i < k ==> text[i] != ':'
    ensures HasDoubleColon(text)
      <==> (text[k + 1..] != "" && text[k + 1..][0] == ':') || HasDoubleColon(text[k + 1..])
  {
    var rest := text[k + 1..];
    assert forall i :: 0 <= i < |rest| ==> rest[i] == text[k + 1 + i];
    if HasDoubleColon(text) {
      var i :| 0 <= i < |text| - 1 && text[i] == ':' && text[i + 1] == ':';
      if i > k {
        assert rest[i - k - 1] == ':' && rest[i - k - 1 + 1] == ':';
      }
    }
    if HasDoubleColon(rest) {
      var i :| 0 <= i < |rest| - 1 && rest[i] == ':' && rest[i + 1] == ':';
      assert text[k + 1 + i] == ':' && text[k + 1 + i + 1] == ':';
    }
    if rest != "" && rest[0] == ':' {
      assert text[k] == ':' && text[k + 1] == ':';
    }
  }

  /** A colon after it does not change an accepted text. */
  predicate ColonIsIgnored(src: string)
    requires src != ""
  {
    '.' !in src && (src[|src| - 1] != ':' || !HasDoubleColon(src))
  }

  lemma BodyThenColon(src: string)
    requires First(src).Some? && src != ""
    ensures First(src + ":") == First(src) && Body(src + ":") == Body(src) + ":"
    ensures Body(src) != "" && Body(src)[|Body(src)| - 1] == src[|src| - 1]
    ensures '.' in Body(src) <==> '.' in src
    ensures (Body(src)[0] == ':' || HasDoubleColon(Body(src))) <==> HasDoubleColon(src)
  {
    var body := Body(src);
    if src[0] == ':' {
      assert src == ":" + body && body[0] == ':';
      assert src[0] == ':' && src[0 + 1] == ':';
    } else {
      assert body == src;
    }
  }

  lemma GapAtEnd(out: seq<Byte>)
    requires |out| <= IN6ADDRSZ
    ensures |out| == IN6ADDRSZ ==> Expand(out, Some(|out|)) == Expand(out, None) == Some(out)
    ensures |out| < IN6ADDRSZ ==> Expand(out, None) == None
  {
    assert out[..|out|] == out;
    assert |out| == IN6ADDRSZ ==> out + seq(IN6ADDRSZ - |out|, _ => 0) == out;
  }

  /**
   A text that is accepted is accepted with a colon after it, as the same address, if and only if it
   has no dotted quad and does not end in a colon, or ends in one and has no "::".  A text that a colon
   makes acceptable ends in a colon itself.
   */
  lemma TrailingColonIff(src: string)
    ensures Parse6(src).Some? ==> src != "" && Parse6(src + ":") == if ColonIsIgnored(src) then Parse6(src) else None
    ensures Parse6(src).None? && Parse6(src + ":").Some? ==> src != "" && src[|src| - 1] == ':'
  {
    hide Parse6, Pieces, HasDoubleColon;
    Parse6Reads(src);
    Parse6Reads(src + ":");
    if src == "" {
      assert "" + ":" == ":";
      NoPieces([], None);
    } else if First(src).Some? {
      BodyThenColon(src);
      PiecesThenColon(Body(src), [], None);
      var r := Pieces(Body(src), [], None);
      if r.Some? {
        PiecesColon(Body(src), [], None);
        GapAtEnd(r.value.0);
      }
    } else {
      assert src[0] == ':' && (src + ":")[0] == ':' && (|src| > 1 ==> (src + ":")[1] == src[1]);
    }
  }

  // ----- the texts that are accepted

  /** What may follow the last colon: nothing, a group, or a dotted quad. */
  predicate IsTail(tail: string) {
    tail == "" || IsGroup(tail) || Dotted(tail, 4).Some?
  }

  function TailBytes(tail: string): (b: seq<Byte>)
    requires IsTail(tail)
  {
    if tail == "" then [] else if IsGroup(tail) then GroupBytes(tail) else Dotted(tail, 4).value
  }

  predicate AreGroups(parts: seq<string>) {
    forall i :: 0 <= i < |parts| ==> IsGroup(parts[i])
  }

  /** Groups, each with a colon after it. */
  function Terminated(parts: seq<string>): string {
    if parts == [] then "" else parts[0] + ":" + Terminated(parts[1..])
  }

  function GroupsBytes(parts: seq<string>): (b: seq<Byte>)
    requires AreGroups(parts)
    ensures |b| == 2 * |parts|
  {
    if parts == [] then [] else GroupBytes(parts[0]) + GroupsBytes(parts[1..])
  }

  /** Groups, then possibly "::" and more groups, then a tail. */
  datatype Address = Address(before: seq<string>, gap: bool, after: seq<string>, tail: string)

  predicate HasParts(a: Address) {
    AreGroups(a.before) && AreGroups(a.after) && IsTail(a.tail) && (!a.gap ==> a.after == [])
  }

  predicate IsAddress(a: Address) {
    && HasParts(a)
    && 2 * |a.before| + 2 * |a.after| + |TailBytes(a.tail)| <= IN6ADDRSZ
  }

  function TextOf(a: Address): string {
    if a.gap then (if a.before == [] then ":" else Terminated(a.before)) + ":" + (Terminated(a.after) + a.tail)
    else Terminated(a.before) + a.tail
  }

  /** The bytes of its groups and tail, with zeros for the "::". */
  function AddressBytes(a: Address): Option<seq<Byte>>
    requires IsAddress(a)
  {
    var front := GroupsBytes(a.before);
    Expand(front + (GroupsBytes(a.after) + TailBytes(a.tail)), if a.gap then Some(|front|) else None)
  }

  lemma GroupHasNoColon(s: string)
    requires IsGroup(s)
    ensures ':' !in s && s != "" && s[0] != ':'
  {
  }

  lemma NoGroups()
    ensures AreGroups([]) && GroupsBytes([]) == [] && Terminated([]) == ""
  {
  }

  lemma GroupThenRest(part: string, rest: string, out: seq<Byte>, colon: Option<nat>)
    requires Fits(out, colon) && IsGroup(part) && |out| + 2 <= IN6ADDRSZ
    ensures Pieces(part + ":" + rest, out, colon) == Pieces(rest, out + GroupBytes(part), colon)
  {
    hide Pieces, IsGroup, GroupBytes;
    GroupHasNoColon(part);
    PieceThenRest(part, rest, out, colon);
  }

  lemma FirstGroup(parts: seq<string>, rest: string, out: seq<Byte>)
    requires AreGroups(parts) && parts != []
    ensures IsGroup(parts[0]) && AreGroups(parts[1..])
    ensures Terminated(parts) + rest == parts[0] + ":" + (Terminated(parts[1..]) + rest)
    ensures out + GroupsBytes(parts) == out + GroupBytes(parts[0]) + GroupsBytes(parts[1..])
  {
    hide IsGroup, GroupBytes;
  }

  /** Groups with a colon after each are read one by one. */
  lemma {:induction false} ReadsGroups(parts: seq<string>, rest: string, out: seq<Byte>, colon: Option<nat>)
    requires Fits(out, colon) && AreGroups(parts) && |out| + 2 * |parts| <= IN6ADDRSZ
    ensures Pieces(Terminated(parts) + rest, out, colon) == Pieces(rest, out + GroupsBytes(parts), colon)
    decreases |parts|
  {
    hide Pieces, AreGroups, IsGroup, GroupBytes, Terminated, GroupsBytes;
    if parts == [] {
      NoGroups();
      assert "" + rest == rest && out + [] == out;
    } else {
      FirstGroup(parts, rest, out);
      GroupThenRest(parts[0], Terminated(parts[1..]) + rest, out, colon);
      ReadsGroups(parts[1..], rest, out + GroupBytes(parts[0]), colon);
    }
  }

  lemma ReadsTail(tail: string, out: seq<Byte>, colon: Option<nat>)
    requires Fits(out, colon) && IsTail(tail) && |out| + |TailBytes(tail)| <= IN6ADDRSZ
    ensures Pieces(tail, out, colon) == Some((out + TailBytes(tail), colon))
  {
    hide Dotted, IsGroup;
    if tail == "" {
      assert out + [] == out;
    } else {
      NoColonInTail(tail);
      UntilIs(tail, ':', |tail|);
      assert tail[..|tail|] == tail;
    }
  }

  lemma NoColonInTail(tail: string)
    requires IsTail(tail)
    ensures ':' !in tail
  {
    hide Dotted;
    if ':' in tail {
      var i :| 0 <= i < |tail| && tail[i] == ':';
      WrongCharacter(tail, i, 4);
    }
  }

  /** Every address written this way is accepted, with its value. */
  lemma AddressAccepted(a: Address)
    requires IsAddress(a)
    ensures Parse6(TextOf(a)) == AddressBytes(a)
  {
    hide Parse6, Pieces, IsGroup, Dotted, Expand, IsTail, TailBytes, Terminated, GroupsBytes;
    var src, front, back := TextOf(a), GroupsBytes(a.before), Terminated(a.after) + a.tail;
    var bytes := GroupsBytes(a.after);
    Parse6Reads(src);
    AddressStarts(a);
    assert front + (bytes + TailBytes(a.tail)) == front + bytes + TailBytes(a.tail);
    if a.gap {
      ReadsGroups(a.after, a.tail, front, Some(|front|));
      ReadsTail(a.tail, front + bytes, Some(|front|));
      AfterGap(back, front);
      if a.before == [] {
        assert Body(src) == ":" + back;
        NoGroups();
      } else {
        assert src == Terminated(a.before) + (":" + back);
        ReadsGroups(a.before, ":" + back, [], None);
        assert [] + front == front;
      }
    } else {
      NoGroups();
      ReadsGroups(a.before, a.tail, [], None);
      assert [] + front == front && front + [] == front;
      ReadsTail(a.tail, front, None);
    }
  }

  lemma AfterGap(rest: string, out: seq<Byte>)
    requires |out| <= IN6ADDRSZ
    ensures Pieces(":" + rest, out, None) == Pieces(rest, out, Some(|out|))
  {
    assert (":" + rest)[1..] == rest;
  }

  /** A text of this form starts to be read at its beginning, or at the second colon of a leading "::". */
  lemma AddressStarts(a: Address)
    requires IsAddress(a)
    ensures First(TextOf(a)) == Some(if a.gap && a.before == [] then 1 else 0)
  {
    hide Dotted, IsGroup;
    if a.before != [] {
      GroupHasNoColon(a.before[0]);
      assert TextOf(a)[0] == Terminated(a.before)[0] == a.before[0][0];
    } else if !a.gap {
      assert TextOf(a) == a.tail;
      NoColonInTail(a.tail);
    }
  }

  lemma OneGroupMore(part: string, others: seq<string>, tail: string, out: seq<Byte>, last: seq<Byte>)
    requires IsGroup(part) && AreGroups(others)
    ensures AreGroups([part] + others)
    ensures Terminated([part] + others) + tail == part + ":" + (Terminated(others) + tail)
    ensures out + (GroupsBytes([part] + others) + last) == out + GroupBytes(part) + (GroupsBytes(others) + last)
  {
    hide IsGroup, GroupBytes;
    var parts := [part] + others;
    assert parts[0] == part && parts[1..] == others;
    FirstGroup(parts, tail, out);
  }

  /** Behind a "::", what is read is groups and a tail. */
  lemma {:induction false} ReadAfterGap(text: string, out: seq<Byte>, colon: Option<nat>)
    returns (parts: seq<string>, tail: string)
    requires Fits(out, colon) && colon.Some? && Pieces(text, out, colon).Some?
    ensures AreGroups(parts) && IsTail(tail) && text == Terminated(parts) + tail
    ensures Pieces(text, out, colon) == Some((out + (GroupsBytes(parts) + TailBytes(tail)), colon))
    decreases |text|
  {
    hide Pieces, Dotted, IsGroup, IsTail, AreGroups, GroupBytes, GroupsBytes, TailBytes, Terminated;
    var k := Until(text, ':');
    if k == |text| {
      parts, tail := [], text;
      OnlyTail(text, out, colon);
      NoGroups();
      assert [] + TailBytes(tail) == TailBytes(tail) && "" + tail == tail;
    } else {
      var part, rest := text[..k], text[k + 1..];
      assert text == part + ":" + rest;
      PieceThenRest(part, rest, out, colon);
      var others;
      others, tail := ReadAfterGap(rest, out + GroupBytes(part), colon);
      parts := [part] + others;
      OneGroupMore(part, others, tail, out, TailBytes(tail));
    }
  }

  lemma OnlyTail(text: string, out: seq<Byte>, colon: Option<nat>)
    requires Fits(out, colon) && Pieces(text, out, colon).Some? && Until(text, ':') == |text|
    ensures IsTail(text) && Pieces(text, out, colon) == Some((out + TailBytes(text), colon))
  {
    hide Dotted, IsGroup;
    assert text[..|text|] == text && out + [] == out;
    NotBoth(text);
  }

  /** The text of an address but for the first colon of a leading "::". */
  function BodyOf(a: Address): string {
    if a.gap then Terminated(a.before) + (":" + (Terminated(a.after) + a.tail)) else Terminated(a.before) + a.tail
  }

  /** What reading the address after some bytes gives. */
  function ReadAs(a: Address, out: seq<Byte>): Option<(seq<Byte>, Option<nat>)>
    requires HasParts(a)
  {
    var front := out + GroupsBytes(a.before);
    Some((front + (GroupsBytes(a.after) + TailBytes(a.tail)), if a.gap then Some(|front|) else None))
  }

  /** Before a "::", if there is one, what is read is groups. */
  lemma {:induction false} ReadBeforeGap(text: string, out: seq<Byte>) returns (a: Address)
    requires |out| <= IN6ADDRSZ && Pieces(text, out, None).Some?
    ensures HasParts(a) && text == BodyOf(a) && Pieces(text, out, None) == ReadAs(a, out)
    decreases |text|
  {
    hide Pieces, Dotted, IsGroup, GroupBytes, IsTail, TailBytes, BodyOf, ReadAs, HasParts;
    var k := Until(text, ':');
    if k == |text| {
      OnlyTail(text, out, None);
      a := Address([], false, [], text);
      TailAddress(text, out);
    } else if k == 0 {
      var rest := text[1..];
      assert text == ":" + rest;
      AfterGap(rest, out);
      var parts, tail := ReadAfterGap(rest, out, Some(|out|));
      a := Address([], true, parts, tail);
      GapAddress(parts, tail, out);
    } else {
      var part, rest := text[..k], text[k + 1..];
      assert text == part + ":" + rest;
      PieceThenRest(part, rest, out, None);
      var b := ReadBeforeGap(rest, out + GroupBytes(part));
      a := b.(before := [part] + b.before);
      MoreAddress(part, b, out);
    }
  }

  lemma TailAddress(tail: string, out: seq<Byte>)
    requires IsTail(tail)
    ensures var a := Address([], false, [], tail);
      HasParts(a) && BodyOf(a) == tail && ReadAs(a, out) == Some((out + TailBytes(tail), None))
  {
    hide IsTail, TailBytes;
    assert out + [] + ([] + TailBytes(tail)) == out + TailBytes(tail) && "" + tail == tail;
  }

  lemma GapAddress(parts: seq<string>, tail: string, out: seq<Byte>)
    requires AreGroups(parts) && IsTail(tail)
    ensures var a := Address([], true, parts, tail);
      && HasParts(a) && BodyOf(a) == ":" + (Terminated(parts) + tail)
      && ReadAs(a, out) == Some((out + (GroupsBytes(parts) + TailBytes(tail)), Some(|out|)))
  {
    hide IsTail, TailBytes, IsGroup;
    NoGroups();
    assert out + [] == out;
    assert "" + (":" + (Terminated(parts) + tail)) == ":" + (Terminated(parts) + tail);
  }

  lemma MoreAddress(part: string, b: Address, out: seq<Byte>)
    requires IsGroup(part) && HasParts(b)
    ensures var a := b.(before := [part] + b.before);
      HasParts(a) && BodyOf(a) == part + ":" + BodyOf(b) && ReadAs(a, out) == ReadAs(b, out + GroupBytes(part))
  {
    hide IsTail, TailBytes, IsGroup, GroupBytes, GroupsBytes, Terminated, AreGroups;
    MoreGroups(part, b.before, out);
  }

  lemma MoreGroups(part: string, parts: seq<string>, out: seq<Byte>)
    requires IsGroup(part) && AreGroups(parts)
    ensures AreGroups([part] + parts) && Terminated([part] + parts) == part + ":" + Terminated(parts)
    ensures out + GroupBytes(part) + GroupsBytes(parts) == out + GroupsBytes([part] + parts)
  {
    assert ([part] + parts)[1..] == parts;
  }

  /** Every text that is accepted is such an address, and has its value. */
  lemma AcceptedIsAddress(src: string) returns (a: Address)
    requires Parse6(src).Some?
    ensures IsAddress(a) && src == TextOf(a) && Parse6(src) == AddressBytes(a)
  {
    hide Parse6, Pieces, IsGroup, Dotted, Expand, IsTail, TailBytes, Terminated, GroupsBytes;
    Parse6Reads(src);
    NoGroups();
    a := ReadBeforeGap(Body(src), []);
    var front := GroupsBytes(a.before);
    assert [] + front == front;
    assert |front + (GroupsBytes(a.after) + TailBytes(a.tail))| <= IN6ADDRSZ;
    BodyIsAddress(src, a);
  }

  lemma BodyIsAddress(src: string, a: Address)
    requires First(src).Some? && IsAddress(a) && Body(src) == BodyOf(a)
    ensures src == TextOf(a)
  {
    hide Dotted, IsGroup;
    if a.before != [] {
      GroupHasNoColon(a.before[0]);
      assert Body(src)[0] == Terminated(a.before)[0] == a.before[0][0];
    } else if !a.gap {
      NoColonInTail(a.tail);
      assert Body(src) == a.tail;
    } else {
      assert Body(src)[0] == ':';
    }
    if src != "" && src[0] == ':' {
      assert Body(src)[0] == ':' && src == ":" + Body(src);
    }
  }

  /**
   inet_pton6 accepts exactly the texts made of colon-separated groups with at most one "::" and
   possibly a dotted quad at the end, of sixteen bytes with the zeros for the "::" counted in, or with
   a stray colon at the end, and gives their value.
   */
  lemma Parse6Accepts(src: string, v: seq<Byte>)
    ensures Parse6(src) == Some(v) <==> exists a :: IsAddress(a) && src == TextOf(a) && AddressBytes(a) == Some(v)
  {
    hide Parse6, IsAddress, TextOf, AddressBytes;
    if Parse6(src) == Some(v) {
      var a := AcceptedIsAddress(src);
    }
    if a :| IsAddress(a) && src == TextOf(a) && AddressBytes(a) == Some(v) {
      AddressAccepted(a);
    }
  }

  lemma FullGap(front: seq<Byte>, back: seq<Byte>)
    requires |front| + |back| == IN6ADDRSZ
    ensures Expand(front + back, Some(|front|)) == Some(front + seq(|back|, _ => 0))
  {
  }

  lemma HarmlessIff(front: seq<Byte>, back: seq<Byte>)
    ensures front + seq(|back|, _ => 0) == front + back <==> forall k :: 0 <= k < |back| ==> back[k] == 0
  {
    var zeros: seq<Byte> := seq(|back|, _ => 0);
    assert (front + zeros)[|front|..] == zeros && (front + back)[|front|..] == back;
    assert zeros == back <==> forall k :: 0 <= k < |back| ==> back[k] == zeros[k];
  }

  /**
   A "::" in an address whose sixteen bytes are all written out is not ignored, as the comment on
   the code has it: it clears the bytes after it.  It is harmless exactly when those are zero.
   */
  lemma DoubleColonInFullAddress(a: Address)
    requires IsAddress(a) && a.gap && 2 * |a.before| + 2 * |a.after| + |TailBytes(a.tail)| == IN6ADDRSZ
    ensures var front, back := GroupsBytes(a.before), GroupsBytes(a.after) + TailBytes(a.tail);
      && Parse6(TextOf(a)) == Some(front + seq(|back|, _ => 0))
      && (Parse6(TextOf(a)) == Some(front + back) <==> forall k :: 0 <= k < |back| ==> back[k] == 0)
  {
    hide Parse6, Expand, IsTail, TailBytes, GroupsBytes, TextOf, AreGroups, Terminated;
    AddressAccepted(a);
    var front, back := GroupsBytes(a.before), GroupsBytes(a.after) + TailBytes(a.tail);
    FullGap(front, back);
    HarmlessIff(front, back);
  }
}
