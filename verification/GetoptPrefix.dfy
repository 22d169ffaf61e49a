/**
 The mode prefix of an option string.  The first call drops it, the later ones do not: exactly when
 does that change what a command line means?
 */
module GetoptPrefix {
  import opened Wrappers
  import opened GetoptReference
  import opened Getopt
  import opened GetoptTheorems

  /** Without a prefix every call works with the same option string. */
  lemma StreamWithoutPrefix(cfg: Config, ord: Ordering, args: seq<string>)
    requires |args| >= 1 && Stripped(cfg.optstring) == cfg.optstring
    ensures Stream(cfg, ord, args) == Parse(cfg, ord, args, 1, "")
    ensures StreamStop(cfg, ord, args) == Stop(cfg, ord, args, 1, "")
  {
    hide Parse, Stop, Head;
    assert Fresh(cfg) == cfg;
    ParseHead(cfg, ord, args, 1, "");
    if Head(cfg, ord, args, 1, "").Some? {
      StopHead(cfg, ord, args, 1, "");
    }
  }

  predicate HasPrefix(optstring: string) {
    optstring != "" && (optstring[0] == '-' || optstring[0] == '+')
  }

  /** The option string without its prefix begins with ':'. */
  predicate ColonNext(cfg: Config) {
    |cfg.optstring| > 1 && cfg.optstring[1] == ':'
  }

  /** What an option string says of a character: None if it is no option. */
  function Known(optstring: string, c: char): Option<ArgumentKind> {
    var k := IndexOf(optstring, c);
    if k == |optstring| || c == ':' then None else Some(KindAt(optstring, k))
  }

  /** How an option of some kind is met: what is left of the element, and the next one, decide. */
  datatype Taken = Unknown | Without | With(arg: string) | Lacking

  function Takes(kind: Option<ArgumentKind>, text: string, next: Option<string>): Taken
    requires text != ""
  {
    match kind
    case None => Unknown
    case Some(NoArgument) => Without
    case Some(OptionalArgument) => if |text| > 1 then With(text[1..]) else Without
    case Some(RequiredArgument) =>
      if |text| > 1 then With(text[1..]) else if next.Some? then With(next.value) else Lacking
  }

  /** The prefix character is an option of the full string; only the rest can tell a missing argument by ':'. */
  predicate ShortMisread(cfg: Config, text: string, next: Option<string>)
    requires HasPrefix(cfg.optstring) && text != ""
  {
    var full, rest := Takes(Known(cfg.optstring, text[0]), text, next),
                      Takes(Known(Stripped(cfg.optstring), text[0]), text, next);
    if full == rest then full == Lacking && ColonNext(cfg) else !(full == Lacking && rest == Unknown)
  }

  /** Decoding this option by the full option string gives another result than by the string without its prefix. */
  ghost predicate Misread(cfg: Config, e: string, text: string, next: Option<string>)
    requires |e| >= 2 && text != "" && HasPrefix(cfg.optstring)
  {
    if TriedAsLong(cfg, e) != TriedAsLong(Fresh(cfg), e) then true
    else if !TriedAsLong(cfg, e) then ShortMisread(cfg, text, next)
    else match LongMatch(cfg.longopts.value, text[..NameLength(text)])
      case Ambiguous => false
      case Found(k) =>
        ColonNext(cfg) && cfg.longopts.value[k].hasArg == 1 && NameLength(text) == |text| && next == None
      case NoMatch =>
        && cfg.longOnly && e[1] != '-' && text[0] in cfg.optstring
        && (text[0] !in Stripped(cfg.optstring) || ShortMisread(cfg, text, next))
  }

  /**
   Without long-only options, for a prefix that is not listed again and no ':' after it, exactly the
   prefix characters met as short options are misread.
   */
  lemma PlainMisread(cfg: Config, e: string, text: string, next: Option<string>)
    requires |e| >= 2 && text != "" && HasPrefix(cfg.optstring)
    requires !cfg.longOnly && cfg.optstring[0] !in Stripped(cfg.optstring) && !ColonNext(cfg)
    ensures Misread(cfg, e, text, next) <==> !TriedAsLong(cfg, e) && text[0] == cfg.optstring[0]
  {
    hide LongMatch;
    if text[0] != cfg.optstring[0] {
      IndexAfterPrefix(cfg.optstring, text[0]);
    }
  }

  lemma IndexAfterPrefix(optstring: string, c: char)
    requires HasPrefix(optstring) && c != optstring[0]
    ensures var k := IndexOf(Stripped(optstring), c);
      && IndexOf(optstring, c) == k + 1
      && KindAt(optstring, k + 1) == KindAt(Stripped(optstring), k)
      && (c in optstring <==> c in Stripped(optstring))
  {
    assert optstring == [optstring[0]] + Stripped(optstring);
  }

  /** Short options: the two strings give the same step, or different events. */
  lemma ShortStep(cfg: Config, text: string, next: Option<string>)
    requires HasPrefix(cfg.optstring) && text != ""
    ensures var full, rest := DecodeShort(cfg, text, next), DecodeShort(Fresh(cfg), text, next);
      if ShortMisread(cfg, text, next) then full.event != rest.event else full == rest
  {
    hide IndexOf, KindAt;
    var c := text[0];
    if c != cfg.optstring[0] {
      IndexAfterPrefix(cfg.optstring, c);
    } else {
      assert IndexOf(cfg.optstring, c) == 0;
    }
  }

  /** The text left of a two-character element is its second character. */
  ghost predicate InElement(args: seq<string>, i: nat, text: string)
    requires Position(args, i, text)
  {
    text != "" && |args[i]| == 2 ==> text == args[i][1..]
  }

  /** Every option is read the same by both strings, or gives another event. */
  lemma MisreadStep(cfg: Config, e: string, text: string, next: Option<string>)
    requires |e| >= 2 && text != "" && HasPrefix(cfg.optstring) && e != "--" && (|e| == 2 ==> text == e[1..])
    ensures var full, rest := Decode(cfg, e, text, next), Decode(Fresh(cfg), e, text, next);
      if Misread(cfg, e, text, next) then full.event != rest.event else full == rest
  {
    hide LongMatch, IndexOf, KindAt, ShortMisread, DecodeShort, DecodeLong, NameLength;
    PrefixFirst(cfg.optstring);
    if TriedAsLong(cfg, e) != TriedAsLong(Fresh(cfg), e) {
      OnlyPrefixDiffers(cfg, e, text, next);
    } else if TriedAsLong(cfg, e) {
      LongStep(cfg, e, text, next);
    } else {
      ShortStep(cfg, text, next);
    }
  }

  lemma PrefixFirst(optstring: string)
    requires HasPrefix(optstring)
    ensures forall c :: c in optstring <==> c == optstring[0] || c in Stripped(optstring)
  {
    assert optstring == [optstring[0]] + Stripped(optstring);
  }

  /** Long options: only a missing argument, or falling back on short options, can differ. */
  lemma LongStep(cfg: Config, e: string, text: string, next: Option<string>)
    requires |e| >= 2 && text != "" && HasPrefix(cfg.optstring)
    requires cfg.longopts.Some? && TriedAsLong(cfg, e) && TriedAsLong(Fresh(cfg), e)
    ensures var full, rest := Decode(cfg, e, text, next), Decode(Fresh(cfg), e, text, next);
      if Misread(cfg, e, text, next) then full.event != rest.event else full == rest
  {
    hide LongMatch, ShortMisread, NameLength, DecodeLong, DecodeShort, TriedAsLong;
    PrefixFirst(cfg.optstring);
    var m := LongMatch(cfg.longopts.value, text[..NameLength(text)]);
    if m.Found? {
      FoundStep(cfg, text, next, m.index);
    } else if text[0] in Stripped(cfg.optstring) {
      ShortStep(cfg, text, next);
    } else if text[0] in cfg.optstring {
      PrefixAsOption(cfg, text, next);
    }
  }

  lemma FoundStep(cfg: Config, text: string, next: Option<string>, k: nat)
    requires HasPrefix(cfg.optstring) && cfg.longopts.Some? && k < |cfg.longopts.value|
    ensures var full, rest := DecodeLong(cfg, text, next, k), DecodeLong(Fresh(cfg), text, next, k);
      if ColonNext(cfg) && cfg.longopts.value[k].hasArg == 1 && NameLength(text) == |text| && next == None
      then full.event != rest.event else full == rest
  {
    hide NameLength;
  }

  /** The prefix character decoded as an option of the full string is no report of a wrong option. */
  lemma PrefixAsOption(cfg: Config, text: string, next: Option<string>)
    requires text != "" && HasPrefix(cfg.optstring) && text[0] == cfg.optstring[0]
    ensures var ev := DecodeShort(cfg, text, next).event;
      ev.long == None && (ev.code == text[0] as int || ev.bad == Some(text[0]))
  {
    hide KindAt;
    assert IndexOf(cfg.optstring, text[0]) == 0;
  }

  /** Only the two-character element of the prefix itself is tried as a long option by one string alone. */
  lemma OnlyPrefixDiffers(cfg: Config, e: string, text: string, next: Option<string>)
    requires |e| >= 2 && text != "" && HasPrefix(cfg.optstring) && e != "--" && (|e| == 2 ==> text == e[1..])
    requires TriedAsLong(cfg, e) != TriedAsLong(Fresh(cfg), e)
    ensures Decode(cfg, e, text, next).event != Decode(Fresh(cfg), e, text, next).event
  {
    hide LongMatch, NameLength, DecodeShort;
    PrefixFirst(cfg.optstring);
    assert text == [cfg.optstring[0]] && text[0] !in Stripped(cfg.optstring);
    PrefixAsOption(cfg, text, next);
  }

  // ----- whole command lines

  /** Some option from a position on is misread. */
  ghost predicate Misreads(cfg: Config, ord: Ordering, args: seq<string>, i: nat, text: string)
    requires Position(args, i, text) && HasPrefix(cfg.optstring)
    decreases |args| - i, text == "", |text|
  {
    if text != "" then
      var s := Decode(Fresh(cfg), args[i], text, After(args, i));
      Misread(cfg, args[i], text, After(args, i)) || Misreads(cfg, ord, args, i + s.used, s.rest)
    else if i == |args| || args[i] == "--" then false
    else if IsOperand(args[i]) then ord != RequireOrder && Misreads(cfg, ord, args, i + 1, "")
    else Misreads(cfg, ord, args, i, Start(cfg, args[i]))
  }

  /** From a position on the two strings give the same results, and stop at the same place, iff no option is misread. */
  ghost predicate SameReading(cfg: Config, ord: Ordering, args: seq<string>, i: nat, text: string)
    requires Position(args, i, text) && HasPrefix(cfg.optstring)
  {
    && (Parse(cfg, ord, args, i, text) == Parse(Fresh(cfg), ord, args, i, text) <==> !Misreads(cfg, ord, args, i, text))
    && (!Misreads(cfg, ord, args, i, text) ==> Stop(cfg, ord, args, i, text) == Stop(Fresh(cfg), ord, args, i, text))
  }

  lemma InRest(cfg: Config, args: seq<string>, i: nat, text: string)
    requires Position(args, i, text) && InElement(args, i, text) && text != ""
    ensures i < |args| && |args[i]| >= 2
    ensures var s := Decode(cfg, args[i], text, After(args, i));
      && Position(args, i + s.used, s.rest) && InElement(args, i + s.used, s.rest)
      && (if s.rest == "" then s.used >= 1 else s.used == 0 && |s.rest| < |text|)
  {
    hide DecodeShort, DecodeLong, LongMatch;
  }

  /** One option: misread, or left to what follows. */
  lemma OptionWithPrefix(cfg: Config, ord: Ordering, args: seq<string>, i: nat, text: string)
    requires Position(args, i, text) && InElement(args, i, text) && HasPrefix(cfg.optstring) && text != ""
    requires var s := Decode(Fresh(cfg), args[i], text, After(args, i));
      !Misread(cfg, args[i], text, After(args, i)) ==> SameReading(cfg, ord, args, i + s.used, s.rest)
    ensures SameReading(cfg, ord, args, i, text)
  {
    hide Decode, Misread;
    MisreadStep(cfg, args[i], text, After(args, i));
    var full, s := Decode(cfg, args[i], text, After(args, i)), Decode(Fresh(cfg), args[i], text, After(args, i));
    var a, b := Parse(cfg, ord, args, i + full.used, full.rest), Parse(Fresh(cfg), ord, args, i + s.used, s.rest);
    assert Parse(cfg, ord, args, i, text) == [full.event] + a;
    assert Parse(Fresh(cfg), ord, args, i, text) == [s.event] + b;
    DifferentHeads(full.event, a, s.event, b);
    SameTail(s.event, a, b);
  }

  lemma DifferentHeads<T>(x: T, s: seq<T>, y: T, t: seq<T>)
    ensures x != y ==> [x] + s != [y] + t
  {
    assert ([x] + s)[0] == x && ([y] + t)[0] == y;
  }

  /** From any position on, the two strings read the line alike exactly when no option is misread. */
  lemma {:induction false} ParseWithPrefix(cfg: Config, ord: Ordering, args: seq<string>, i: nat, text: string)
    requires Position(args, i, text) && InElement(args, i, text) && HasPrefix(cfg.optstring)
    ensures SameReading(cfg, ord, args, i, text)
    decreases |args| - i, text == "", |text|
  {
    hide Decode, Misread;
    if text != "" {
      hide *;
      OptionStep(cfg, ord, args, i, text);
      var s := Decode(Fresh(cfg), args[i], text, After(args, i));
      InRest(Fresh(cfg), args, i, text);
      if !Misread(cfg, args[i], text, After(args, i)) {
        ParseWithPrefix(cfg, ord, args, i + s.used, s.rest);
      }
      OptionWithPrefix(cfg, ord, args, i, text);
    } else if i < |args| && args[i] != "--" {
      if IsOperand(args[i]) {
        if ord != RequireOrder {
          ParseWithPrefix(cfg, ord, args, i + 1, "");
          var ev := Event(1, Some(args[i]), None, None);
          SameTail(ev, Parse(cfg, ord, args, i + 1, ""), Parse(Fresh(cfg), ord, args, i + 1, ""));
        }
      } else {
        ParseWithPrefix(cfg, ord, args, i, Start(cfg, args[i]));
      }
    }
  }

  /** The first result leaves off inside the element it came from, or at the start of one. */
  lemma {:induction false} HeadInElement(cfg: Config, ord: Ordering, args: seq<string>, i: nat, text: string)
    requires Position(args, i, text) && InElement(args, i, text) && Head(cfg, ord, args, i, text).Some?
    ensures var h := Head(cfg, ord, args, i, text).value;
      InElement(args, h.at, h.text)
    decreases |args| - i, text == "", |text|
  {
    hide Decode;
    if text == "" && i < |args| && args[i] != "--" {
      if IsOperand(args[i]) {
        if ord == Permute {
          HeadInElement(cfg, ord, args, i + 1, "");
        }
      } else {
        HeadInElement(cfg, ord, args, i, Start(cfg, args[i]));
      }
    }
  }

  /** An option after the first result is misread. */
  ghost predicate MisreadsLater(cfg: Config, ord: Ordering, args: seq<string>)
    requires |args| >= 1 && HasPrefix(cfg.optstring)
  {
    match Head(Fresh(cfg), ord, args, 1, "")
    case None => false
    case Some(h) => Misreads(cfg, ord, args, h.at, h.text)
  }

  /**
   A scan with a prefixed option string is the documented one, by the string without its prefix, if
   and only if no option after the first result is misread.
   */
  lemma PrefixExactly(cfg: Config, ord: Ordering, args: seq<string>)
    requires |args| >= 1 && HasPrefix(cfg.optstring)
    ensures Stream(cfg, ord, args) == Parse(Fresh(cfg), ord, args, 1, "") <==> !MisreadsLater(cfg, ord, args)
    ensures !MisreadsLater(cfg, ord, args) ==> StreamStop(cfg, ord, args) == Stop(Fresh(cfg), ord, args, 1, "")
  {
    hide Parse, Stop, Head, Misreads;
    var first := Fresh(cfg);
    ParseHead(first, ord, args, 1, "");
    if Head(first, ord, args, 1, "").Some? {
      var h := Head(first, ord, args, 1, "").value;
      HeadInElement(first, ord, args, 1, "");
      StopHead(first, ord, args, 1, "");
      ParseWithPrefix(cfg, ord, args, h.at, h.text);
      SameTail(h.event, Parse(cfg, ord, args, h.at, h.text), Parse(first, ord, args, h.at, h.text));
    }
  }

  /** The line does not have the prefix character in an option element, nor the string ':' after its prefix. */
  predicate PrefixUnused(cfg: Config, args: seq<string>)
    requires HasPrefix(cfg.optstring)
  {
    && !ColonNext(cfg)
    && (forall k :: 0 <= k < |args| && !IsOperand(args[k]) && args[k] != "--" ==>
          cfg.optstring[0] !in Start(cfg, args[k]))
  }

  lemma UnusedStep(cfg: Config, e: string, text: string, next: Option<string>)
    requires |e| >= 2 && text != "" && HasPrefix(cfg.optstring) && (|e| == 2 ==> text == e[1..])
    requires !ColonNext(cfg) && cfg.optstring[0] !in text
    ensures !Misread(cfg, e, text, next) && cfg.optstring[0] !in Decode(Fresh(cfg), e, text, next).rest
  {
    hide LongMatch, IndexOf, KindAt;
    IndexAfterPrefix(cfg.optstring, text[0]);
    assert |e| == 2 ==> e[1] != cfg.optstring[0];
  }

  lemma {:induction false} UnusedNotMisread(cfg: Config, ord: Ordering, args: seq<string>, i: nat, text: string)
    requires Position(args, i, text) && InElement(args, i, text)
    requires HasPrefix(cfg.optstring) && PrefixUnused(cfg, args) && cfg.optstring[0] !in text
    ensures !Misreads(cfg, ord, args, i, text)
    decreases |args| - i, text == "", |text|
  {
    hide Decode, Misread;
    if text != "" {
      UnusedStep(cfg, args[i], text, After(args, i));
      var s := Decode(Fresh(cfg), args[i], text, After(args, i));
      UnusedNotMisread(cfg, ord, args, i + s.used, s.rest);
    } else if i < |args| && args[i] != "--" {
      if IsOperand(args[i]) {
        UnusedNotMisread(cfg, ord, args, i + 1, "");
      } else {
        UnusedNotMisread(cfg, ord, args, i, Start(cfg, args[i]));
      }
    }
  }

  lemma {:induction false} UnusedInHead(cfg: Config, ord: Ordering, args: seq<string>, i: nat, text: string)
    requires Position(args, i, text) && InElement(args, i, text)
    requires HasPrefix(cfg.optstring) && PrefixUnused(cfg, args) && cfg.optstring[0] !in text
    ensures var h := Head(Fresh(cfg), ord, args, i, text);
      h.Some? ==> cfg.optstring[0] !in h.value.text
    decreases |args| - i, text == "", |text|
  {
    hide Decode, Misread;
    if text != "" {
      UnusedStep(cfg, args[i], text, After(args, i));
    } else if i < |args| && args[i] != "--" {
      if IsOperand(args[i]) {
        UnusedInHead(cfg, ord, args, i + 1, "");
      } else {
        UnusedInHead(cfg, ord, args, i, Start(cfg, args[i]));
      }
    }
  }

  /** In particular for a line that does not use the prefix character at all. */
  lemma PrefixHarmless(cfg: Config, ord: Ordering, args: seq<string>)
    requires |args| >= 1 && HasPrefix(cfg.optstring) && PrefixUnused(cfg, args)
    ensures Stream(cfg, ord, args) == Parse(Fresh(cfg), ord, args, 1, "")
    ensures StreamStop(cfg, ord, args) == Stop(Fresh(cfg), ord, args, 1, "")
  {
    hide Parse, Stop, Head, Misreads, PrefixUnused;
    PrefixExactly(cfg, ord, args);
    UnusedInHead(cfg, ord, args, 1, "");
    var h := Head(Fresh(cfg), ord, args, 1, "");
    if h.Some? {
      HeadInElement(Fresh(cfg), ord, args, 1, "");
      UnusedNotMisread(cfg, ord, args, h.value.at, h.value.text);
    }
  }

  const PLUS_AB := Config("+ab", None, false)

  /** The second of two one-character options. */
  lemma SecondResult(first: Config, cfg: Config, args: seq<string>)
    requires |args| == 3 && |args[1]| == 2 && args[1][0] == '-' && args[1] != "--"
    requires |args[2]| == 2 && args[2][0] == '-' && args[2] != "--"
    requires Decode(first, args[1], Start(first, args[1]), Some(args[2])).rest == ""
    requires Decode(first, args[1], Start(first, args[1]), Some(args[2])).used == 1
    ensures var h := Head(first, RequireOrder, args, 1, "");
      && h.Some? && h.value.at == 2 && h.value.text == ""
      && Parse(cfg, RequireOrder, args, 2, "") != []
      && Parse(cfg, RequireOrder, args, 2, "")[0] == Decode(cfg, args[2], Start(cfg, args[2]), None).event
  {
    hide Decode;
    assert After(args, 1) == Some(args[2]) && After(args, 2) == None;
  }

  /** It matters: from the second call on "-+" is taken for an option named '+', not for an unknown one. */
  lemma PrefixMisread()
    ensures var args := ["prog", "-a", "-+"];
      Stream(PLUS_AB, RequireOrder, args) != Parse(Fresh(PLUS_AB), RequireOrder, args, 1, "")
  {
    var args, plain := ["prog", "-a", "-+"], Fresh(PLUS_AB);
    assert plain.optstring == "ab";
    assert Start(plain, "-a") == "a" && Start(plain, "-+") == Start(PLUS_AB, "-+") == "+";
    assert Decode(plain, "-a", "a", Some("-+")) == Step(Event('a' as int, None, None, None), "", 1);
    assert Decode(plain, "-+", "+", None) == Step(Event(UNKNOWN, None, None, Some('+')), "", 1);
    assert Decode(PLUS_AB, "-+", "+", None) == Step(Event('+' as int, None, None, None), "", 1);
    SecondResult(plain, plain, args);
    SecondResult(plain, PLUS_AB, args);
    hide *;
    SecondOfTwo(args, plain);
  }

  lemma SecondOfTwo(args: seq<string>, plain: Config)
    requires |args| == 3 && plain == Fresh(PLUS_AB)
    requires Head(plain, RequireOrder, args, 1, "").Some?
    requires var h := Head(plain, RequireOrder, args, 1, "").value;
      && h.at == 2 && h.text == ""
      && Parse(plain, RequireOrder, args, 2, "") != [] && Parse(PLUS_AB, RequireOrder, args, 2, "") != []
      && Parse(plain, RequireOrder, args, 2, "")[0] != Parse(PLUS_AB, RequireOrder, args, 2, "")[0]
    ensures Stream(PLUS_AB, RequireOrder, args) != Parse(plain, RequireOrder, args, 1, "")
  {
    hide Parse, Head, Fresh;
    ParseHead(plain, RequireOrder, args, 1, "");
    assert Stream(PLUS_AB, RequireOrder, args)[1] != Parse(plain, RequireOrder, args, 1, "")[1];
  }
}
