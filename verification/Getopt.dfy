/**
 GNU getopt: a resumable scanner that permutes argv in place while it reads it.
 Every call is proved to return the head of the remaining `Parse` stream of the ORIGINAL command
 line, and the call that ends the scan to leave argv partitioned.
 */
module Getopt {
  import opened Wrappers
  import opened GetoptReference

  // ----- block exchange

  /** s with the adjacent blocks [bottom..middle) and [middle..top) exchanged. */
  ghost function Exchanged<T>(s: seq<T>, bottom: nat, middle: nat, top: nat): seq<T>
    requires bottom <= middle <= top <= |s|
  {
    s[..bottom] + s[middle..top] + s[bottom..middle] + s[top..]
  }

  /** s with the equally long disjoint blocks at i and at j swapped. */
  ghost predicate BlocksSwapped<T>(s: seq<T>, t: seq<T>, i: nat, j: nat, len: nat)
    requires i + len <= j && j + len <= |s| && |t| == |s|
  {
    && (forall k :: i <= k < i + len ==> t[k] == s[k + (j - i)])
    && (forall k :: j <= k < j + len ==> t[k] == s[k - (j - i)])
    && (forall k :: 0 <= k < |s| && !(i <= k < i + len) && !(j <= k < j + len) ==> t[k] == s[k])
  }

  /** Swapping the short bottom block with the far end of the top one leaves a smaller exchange. */
  lemma ExchangeShortBottom<T>(s: seq<T>, t: seq<T>, bottom: nat, middle: nat, top: nat)
    requires bottom <= middle <= top <= |s| == |t| && middle - bottom <= top - middle
    requires BlocksSwapped(s, t, bottom, top - (middle - bottom), middle - bottom)
    ensures Exchanged(t, bottom, middle, top - (middle - bottom)) == Exchanged(s, bottom, middle, top)
  {
    var near := top - (middle - bottom);
    assert t[..bottom] == s[..bottom] && t[middle..near] == s[middle..near];
    assert t[bottom..middle] == s[near..top] && t[near..] == s[bottom..middle] + s[top..];
    assert s[middle..near] + s[near..top] == s[middle..top];
  }

  /** Swapping the short top block with the bottom end of the bottom one leaves a smaller exchange. */
  lemma ExchangeShortTop<T>(s: seq<T>, t: seq<T>, bottom: nat, middle: nat, top: nat)
    requires bottom <= middle <= top <= |s| == |t| && top - middle <= middle - bottom
    requires BlocksSwapped(s, t, bottom, middle, top - middle)
    ensures Exchanged(t, bottom + (top - middle), middle, top) == Exchanged(s, bottom, middle, top)
  {
    var near := bottom + (top - middle);
    assert t[..near] == s[..bottom] + s[middle..top] && t[near..middle] == s[near..middle];
    assert t[middle..top] == s[bottom..near] && t[top..] == s[top..];
    assert s[bottom..near] + s[near..middle] == s[bottom..middle];
  }

  lemma ExchangeNothing<T>(s: seq<T>, bottom: nat, middle: nat, top: nat)
    requires bottom <= middle <= top <= |s| && (bottom == middle || middle == top)
    ensures Exchanged(s, bottom, middle, top) == s
  {
  }

  method SwapBlocks(argv: array<string>, i: nat, j: nat, len: nat)
    requires i + len <= j && j + len <= argv.Length
    modifies argv
    ensures BlocksSwapped(old(argv[..]), argv[..], i, j, len)
  {
    for k := 0 to len
      invariant forall m :: i <= m < i + k ==> argv[m] == old(argv[m + (j - i)])
      invariant forall m :: j <= m < j + k ==> argv[m] == old(argv[m - (j - i)])
      invariant forall m :: 0 <= m < argv.Length && !(i <= m < i + k) && !(j <= m < j + k)
                  ==> argv[m] == old(argv[m])
    {
      var tem := argv[i + k];
      argv[i + k] := argv[j + k];
      argv[j + k] := tem;
    }
  }

  method FindNameEnd(text: string) returns (n: nat)
    ensures n == NameLength(text)
  {
    n := 0;
    while n < |text| && text[n] != '='
      invariant n <= |text| && NameLength(text) == n + NameLength(text[n..])
    {
      n := n + 1;
    }
  }

  method FindChar(s: string, c: char) returns (k: nat)
    ensures k == IndexOf(s, c)
  {
    k := 0;
    while k < |s| && s[k] != c
      invariant k <= |s| && IndexOf(s, c) == k + IndexOf(s[k..], c)
    {
      k := k + 1;
    }
  }

  /** The table search: first exact name, else a unique abbreviation. */
  method FindLong(table: seq<LongOption>, name: string) returns (m: Match)
    ensures m == LongMatch(table, name)
  {
    var found, ambiguous: bool, k := NoMatch, false, 0;
    while k < |table|
      invariant k <= |table|
      invariant forall j :: ExactAt(table, name, j) ==> k <= j
      invariant found.NoMatch? ==> !ambiguous && forall j :: PrefixAt(table, name, j) ==> k <= j
      invariant !found.Ambiguous?
      invariant found.Found? ==> found.index < k && PrefixAt(table, name, found.index)
      invariant found.Found? ==> (ambiguous <==> exists j :: PrefixAt(table, name, j) && found.index < j < k)
      invariant found.Found? ==> forall j :: PrefixAt(table, name, j) ==> found.index <= j
    {
      if name <= table[k].name {
        assert PrefixAt(table, name, k);
        if |name| == |table[k].name| {
          assert ExactAt(table, name, k);
          m := Found(k);
          MatchIsUnique(table, name, m, LongMatch(table, name));
          return;
        } else if found == NoMatch {
          found := Found(k);
        } else {
          ambiguous := true;
        }
      }
      k := k + 1;
    }
    m := if ambiguous then Ambiguous else found;
    MatchIsUnique(table, name, m, LongMatch(table, name));
  }

  /**
   The shape of argv (now `s`) in the middle of a permuting scan: the options found so far surround
   the operands skipped so far, and what is found later completes the two halves of the partition.
   */
  ghost predicate Layout(cfg: Config, args: seq<string>, s: seq<string>, first: nat, last: nat, optind: nat,
                         text: string)
    requires 1 <= first <= last <= optind <= |s| == |args| && Position(args, optind, text)
  {
    && s[..first] + s[last..optind] + Options(cfg, args, optind, text) == [args[0]] + Options(cfg, args, 1, "")
    && s[first..last] + Operands(cfg, args, optind, text) == Operands(cfg, args, 1, "")
  }

  lemma StartLayout(cfg: Config, args: seq<string>)
    requires |args| >= 1
    ensures Layout(cfg, args, args, 1, 1, 1, "")
  {
  }

  /** Exchanging what was passed since the operands puts the options first. */
  lemma LayoutExchanged(cfg: Config, args: seq<string>, s: seq<string>, t: seq<string>,
                        first: nat, last: nat, optind: nat)
    requires 1 <= first <= last <= optind <= |s| == |args|
    requires Layout(cfg, args, s, first, last, optind, "") && t == Exchanged(s, first, last, optind)
    ensures t[optind..] == s[optind..] && |t| == |s|
    ensures Layout(cfg, args, t, first + (optind - last), optind, optind, "")
  {
    var mid := first + (optind - last);
    assert t[..mid] + t[optind..optind] == s[..first] + s[last..optind];
    assert t[mid..optind] == s[first..last];
  }

  lemma LayoutWithoutOperands(cfg: Config, args: seq<string>, s: seq<string>, last: nat, optind: nat)
    requires 1 <= last <= optind <= |s| == |args|
    requires Layout(cfg, args, s, last, last, optind, "")
    ensures Layout(cfg, args, s, optind, optind, optind, "")
  {
    assert s[..optind] + s[optind..optind] == s[..last] + s[last..optind];
    assert s[last..last] == s[optind..optind];
  }

  lemma LayoutSkip(cfg: Config, args: seq<string>, s: seq<string>, first: nat, optind: nat)
    requires 1 <= first <= optind < |s| == |args|
    requires s[optind] == args[optind] && IsOperand(args[optind])
    requires Layout(cfg, args, s, first, optind, optind, "")
    ensures Position(args, optind + 1, "") && Layout(cfg, args, s, first, optind + 1, optind + 1, "")
    ensures Head(cfg, Permute, args, optind, "") == Head(cfg, Permute, args, optind + 1, "")
  {
    hide Decode;
    assert s[optind + 1..optind + 1] == s[optind..optind];
    assert s[first..optind + 1] == s[first..optind] + [args[optind]];
  }

  /** An option that was decoded joins the options after the skipped operands. */
  lemma LayoutOption(cfg: Config, args: seq<string>, s: seq<string>, first: nat, last: nat, i: nat, text: string)
    requires 1 <= first <= last <= i <= |s| == |args| && Position(args, i, text) && text != ""
    requires s[i..] == args[i..] && Layout(cfg, args, s, first, last, i, text)
    ensures var step := Decode(cfg, args[i], text, After(args, i));
      && i + step.used <= |args| && Position(args, i + step.used, step.rest)
      && Layout(cfg, args, s, first, last, i + step.used, step.rest)
  {
    hide *;
    OptionStep(cfg, Permute, args, i, text);
    var step := Decode(cfg, args[i], text, After(args, i));
    var j := i + step.used;
    LayoutMeans(cfg, args, s, first, last, i, text);
    assert args[i..j] == args[i..][..step.used] == s[i..][..step.used] == s[i..j];
    assert s[last..i] + s[i..j] == s[last..j];
    assert s[..first] + s[last..i] + (s[i..j] + Options(cfg, args, j, step.rest))
        == s[..first] + (s[last..i] + s[i..j]) + Options(cfg, args, j, step.rest);
    LayoutMeans(cfg, args, s, first, last, j, step.rest);
  }

  lemma LayoutMeans(cfg: Config, args: seq<string>, s: seq<string>, first: nat, last: nat, i: nat, text: string)
    requires 1 <= first <= last <= i <= |s| == |args| && Position(args, i, text)
    ensures Layout(cfg, args, s, first, last, i, text) <==>
      && s[..first] + s[last..i] + Options(cfg, args, i, text) == [args[0]] + Options(cfg, args, 1, "")
      && s[first..last] + Operands(cfg, args, i, text) == Operands(cfg, args, 1, "")
  {
  }

  /** At the end of the line the layout is the partition. */
  lemma LayoutAtEnd(cfg: Config, args: seq<string>, s: seq<string>, first: nat)
    requires 1 <= first <= |s| == |args| && Layout(cfg, args, s, first, |s|, |s|, "")
    ensures s == Partitioned(cfg, args) && first == 1 + |Options(cfg, args, 1, "")|
  {
    assert s[..first] == s[..first] + s[|s|..];
    assert s == s[..first] + s[first..];
  }

  /** At "--" exchanging it with the skipped operands gives the partition. */
  lemma LayoutAtDashes(cfg: Config, args: seq<string>, s: seq<string>, t: seq<string>, first: nat, optind: nat)
    requires 1 <= first <= optind < |s| == |args| && s[optind..] == args[optind..]
    requires args[optind] == "--" && Layout(cfg, args, s, first, optind, optind, "")
    requires t == Exchanged(s, first, optind, optind + 1)
    ensures t == Partitioned(cfg, args) && first + 1 == 1 + |Options(cfg, args, 1, "")|
  {
    assert args[optind] == s[optind] && args[optind + 1..] == s[optind + 1..];
    assert s[..first] + s[optind..optind] == s[..first];
    assert s[optind..optind + 1] == ["--"];
    calc {
      Partitioned(cfg, args);
      s[..first] + ["--"] + (s[first..optind] + args[optind + 1..]);
      t;
    }
  }

  /** What moving on can find. */
  datatype Advanced = AtEnd | AtOperand(arg: string) | AtOption

  function OrderingFor(cfg: Config, posixlyCorrect: bool): Ordering {
    if cfg.optstring != "" && cfg.optstring[0] == '-' then ReturnInOrder
    else if cfg.optstring != "" && cfg.optstring[0] == '+' then RequireOrder
    else if posixlyCorrect then RequireOrder
    else Permute
  }

  /** The option string without its mode prefix; the C code drops the prefix on the first call only. */
  function Stripped(optstring: string): string {
    if optstring != "" && (optstring[0] == '-' || optstring[0] == '+') then optstring[1..] else optstring
  }

  /** The configuration the first call works with. */
  function Fresh(cfg: Config): Config {
    cfg.(optstring := Stripped(cfg.optstring))
  }

  /** What the calls return one after the other: the first one reads the option string without its prefix. */
  ghost function Stream(cfg: Config, ord: Ordering, args: seq<string>): seq<Event>
    requires |args| >= 1
  {
    match Head(Fresh(cfg), ord, args, 1, "")
    case None => []
    case Some(h) => [h.event] + Parse(cfg, ord, args, h.at, h.text)
  }

  /** Where they leave optind when nothing is permuted. */
  ghost function StreamStop(cfg: Config, ord: Ordering, args: seq<string>): nat
    requires |args| >= 1
  {
    match Head(Fresh(cfg), ord, args, 1, "")
    case None => Stop(Fresh(cfg), ord, args, 1, "")
    case Some(h) => Stop(cfg, ord, args, h.at, h.text)
  }

  /** A permuting scan has no prefix to drop. */
  lemma PlainPermute(cfg: Config, posixlyCorrect: bool)
    ensures OrderingFor(cfg, posixlyCorrect) == Permute ==> Fresh(cfg) == cfg
  {
  }

  class Scanner {
    var optind: int
    var nextchar: string        // "" where the C pointer is null or at the terminator
    var firstNonopt: int
    var lastNonopt: int
    var ordering: Ordering
    var optarg: Option<string>
    var optopt: char

    constructor ()
      ensures optind == 0
    {
      optind, nextchar, firstNonopt, lastNonopt := 0, "", 0, 0;
      ordering, optarg, optopt := Permute, None, '?';
    }

    /** The invariant between calls; args is the command line the scan started from. */
    ghost predicate Scanning(cfg: Config, argv: array<string>, args: seq<string>)
      reads this, argv
    {
      && argv.Length == |args|
      && 1 <= firstNonopt <= lastNonopt <= optind <= argv.Length
      && argv[optind..] == args[optind..]
      && Position(args, optind, nextchar)
      && (if ordering == Permute
          then Layout(cfg, args, argv[..], firstNonopt, lastNonopt, optind, nextchar)
          else argv[..] == args && firstNonopt == lastNonopt)
    }

    /** The state in which EOF is returned, having started the call at position (i, text). */
    ghost predicate Finished(cfg: Config, argv: array<string>, args: seq<string>, i: nat, text: string)
      requires |args| >= 1 && Position(args, i, text)
      reads this, argv
    {
      if ordering == Permute then
        argv[..] == Partitioned(cfg, args) && optind == 1 + |Options(cfg, args, 1, "")|
      else
        argv[..] == args && optind == Stop(cfg, ordering, args, i, text)
    }

    method Exchange(argv: array<string>)
      requires 0 <= firstNonopt <= lastNonopt <= optind <= argv.Length
      modifies argv, `firstNonopt, `lastNonopt
      ensures argv[..] == Exchanged(old(argv[..]), old(firstNonopt), old(lastNonopt), optind)
      ensures firstNonopt == old(firstNonopt) + (optind - old(lastNonopt)) && lastNonopt == optind
    {
      hide *;
      var bottom, middle, top := firstNonopt, lastNonopt, optind;
      while top > middle && middle > bottom
        invariant 0 <= bottom <= middle <= top <= optind
        invariant Exchanged(argv[..], bottom, middle, top)
               == Exchanged(old(argv[..]), firstNonopt, lastNonopt, optind)
        modifies argv
        decreases top - bottom
      {
        ghost var was := argv[..];
        if top - middle > middle - bottom {
          var len := middle - bottom;
          SwapBlocks(argv, bottom, top - len, len);
          ExchangeShortBottom(was, argv[..], bottom, middle, top);
          top := top - len;
        } else {
          var len := top - middle;
          SwapBlocks(argv, bottom, middle, len);
          ExchangeShortTop(was, argv[..], bottom, middle, top);
          bottom := bottom + len;
        }
      }
      ExchangeNothing(argv[..], bottom, middle, top);
      firstNonopt := firstNonopt + (optind - lastNonopt);
      lastNonopt := optind;
    }

    method Initialize(cfg: Config, posixlyCorrect: bool) returns (optstring: string)
      modifies this
      ensures optind == firstNonopt == lastNonopt == 1 && nextchar == ""
      ensures ordering == OrderingFor(cfg, posixlyCorrect) && optstring == Stripped(cfg.optstring)
    {
      optind, firstNonopt, lastNonopt, nextchar := 1, 1, 1, "";
      optstring := cfg.optstring;
      if optstring != "" && optstring[0] == '-' {
        ordering, optstring := ReturnInOrder, optstring[1..];
      } else if optstring != "" && optstring[0] == '+' {
        ordering, optstring := RequireOrder, optstring[1..];
      } else if posixlyCorrect {
        ordering := RequireOrder;
      } else {
        ordering := Permute;
      }
    }

    /** The PERMUTE step: exchange what was passed, then skip operands, extending the skipped range. */
    method Gather(cfg: Config, argv: array<string>, ghost args: seq<string>)
      requires Scanning(cfg, argv, args) && nextchar == "" && ordering == Permute
      modifies argv, `firstNonopt, `lastNonopt, `optind
      ensures Scanning(cfg, argv, args) && lastNonopt == optind && old(optind) <= optind
      ensures optind < argv.Length ==> !IsOperand(argv[optind])
      ensures Head(cfg, Permute, args, old(optind), "") == Head(cfg, Permute, args, optind, "")
    {
      hide *;
      ScanningHere(cfg, argv, args);
      GatherPassed(cfg, argv, args);
      while optind < argv.Length && IsOperand(argv[optind])
        modifies `optind
        invariant 1 <= firstNonopt <= optind <= argv.Length && old(optind) <= optind
        invariant argv[optind..] == args[optind..] && Position(args, optind, "")
        invariant Layout(cfg, args, argv[..], firstNonopt, optind, optind, "")
        invariant Head(cfg, Permute, args, old(optind), "") == Head(cfg, Permute, args, optind, "")
        decreases argv.Length - optind
      {
        assert argv[optind] == args[optind];
        LayoutSkip(cfg, args, argv[..], firstNonopt, optind);
        optind := optind + 1;
      }
      lastNonopt := optind;
      ScanningFrom(cfg, argv, args);
    }

    /** Puts the options scanned since the last operands in front of those operands. */
    method GatherPassed(cfg: Config, argv: array<string>, ghost args: seq<string>)
      requires Scanning(cfg, argv, args) && nextchar == "" && ordering == Permute
      modifies argv, `firstNonopt, `lastNonopt
      ensures 1 <= firstNonopt <= optind && argv[optind..] == args[optind..]
      ensures Layout(cfg, args, argv[..], firstNonopt, optind, optind, "")
    {
      hide *;
      assert Position(args, optind, "") && 1 <= firstNonopt <= lastNonopt <= optind <= argv.Length == |args|
        && argv[optind..] == args[optind..] && Layout(cfg, args, argv[..], firstNonopt, lastNonopt, optind, "")
      by { ScanningHere(cfg, argv, args); }
      ghost var s, first, last := argv[..], firstNonopt, lastNonopt;
      if firstNonopt != lastNonopt && lastNonopt != optind {
        Exchange(argv);
        LayoutExchanged(cfg, args, s, argv[..], first, last, optind);
      } else if lastNonopt != optind {
        firstNonopt := optind;
        LayoutWithoutOperands(cfg, args, s, last, optind);
      }
    }

    /** "--": skipped like an option, exchanged with the operands before it, and the scan is over. */
    method FinishAtDashes(cfg: Config, argv: array<string>, ghost args: seq<string>)
      requires Scanning(cfg, argv, args) && nextchar == ""
      requires ordering == Permute ==> lastNonopt == optind
      requires optind < argv.Length && argv[optind] == "--"
      modifies argv, `firstNonopt, `lastNonopt, `optind
      ensures Finished(cfg, argv, args, old(optind), "")
    {
      ghost var s, first, i := argv[..], firstNonopt, optind;
      assert args[optind] == argv[optind];
      optind := optind + 1;
      if firstNonopt != lastNonopt && lastNonopt != optind {
        Exchange(argv);
        LayoutAtDashes(cfg, args, s, argv[..], first, i);
      } else if firstNonopt == lastNonopt {
        if ordering == Permute {
          ExchangeNothing(s, first, i, i + 1);
          LayoutAtDashes(cfg, args, s, argv[..], first, i);
        }
        firstNonopt := optind;
      }
      lastNonopt := argv.Length;
      optind := argv.Length;
      if firstNonopt != lastNonopt {
        optind := firstNonopt;
      }
    }

    method FinishAtEnd(cfg: Config, argv: array<string>, ghost args: seq<string>)
      requires Scanning(cfg, argv, args) && nextchar == ""
      requires ordering == Permute ==> lastNonopt == optind
      requires optind == argv.Length
      modifies `optind
      ensures Finished(cfg, argv, args, old(optind), "")
    {
      if ordering == Permute {
        LayoutAtEnd(cfg, args, argv[..], firstNonopt);
      }
      if firstNonopt != lastNonopt {
        optind := firstNonopt;
      }
    }

    /** Moves to the next option element: exchanges, skips operands, recognises "--" and the end. */
    method Advance(cfg: Config, argv: array<string>, ghost args: seq<string>) returns (r: Advanced)
      requires Scanning(cfg, argv, args) && nextchar == ""
      modifies argv, `firstNonopt, `lastNonopt, `optind, `nextchar
      ensures r.AtEnd? ==>
        Head(cfg, ordering, args, old(optind), "") == None && Finished(cfg, argv, args, old(optind), "")
      ensures r.AtOperand? ==>
        && Scanning(cfg, argv, args) && nextchar == ""
        && Head(cfg, ordering, args, old(optind), "") == Some(Report(Event(1, Some(r.arg), None, None), optind, ""))
      ensures r.AtOption? ==>
        && Scanning(cfg, argv, args) && nextchar != ""
        && Head(cfg, ordering, args, old(optind), "") == Head(cfg, ordering, args, optind, nextchar)
    {
      if ordering == Permute {
        Gather(cfg, argv, args);
      }
      assert optind < argv.Length ==> argv[optind] == args[optind];
      if optind != argv.Length && argv[optind] == "--" {
        FinishAtDashes(cfg, argv, args);
        return AtEnd;
      }
      if optind == argv.Length {
        FinishAtEnd(cfg, argv, args);
        return AtEnd;
      }
      if IsOperand(argv[optind]) {
        if ordering == RequireOrder {
          return AtEnd;
        }
        r := AtOperand(argv[optind]);
        optind := optind + 1;
        return;
      }
      nextchar := Start(cfg, argv[optind]);
      return AtOption;
    }

    /** Decodes one option of the current element. */
    method DecodeOption(cfg: Config, argv: array<string>, ghost args: seq<string>) returns (ev: Event)
      requires Scanning(cfg, argv, args) && nextchar != ""
      modifies `optind, `nextchar, `optarg, `optopt
      ensures optind >= old(optind)
      ensures Step(ev, nextchar, optind - old(optind))
           == Decode(cfg, args[old(optind)], old(nextchar), After(args, old(optind)))
      ensures optarg == ev.arg && (ev.bad.Some? ==> optopt == ev.bad.value)
    {
      optarg := None;
      var e := argv[optind];
      assert e == args[optind];
      assert After(args, optind).Some? ==> args[optind + 1] == argv[optind + 1];
      if TriedAsLong(cfg, e) {
        var table := cfg.longopts.value;
        var nameend := FindNameEnd(nextchar);
        var m := FindLong(table, nextchar[..nameend]);
        if m == Ambiguous {
          nextchar := "";
          optind := optind + 1;
          return Event(UNKNOWN, None, None, None);
        }
        if m.Found? {
          var row := table[m.index];
          optind := optind + 1;
          if nameend < |nextchar| {
            if row.hasArg != 0 {
              optarg := Some(nextchar[nameend + 1..]);
            } else {
              nextchar := "";
              return Event(UNKNOWN, None, None, None);
            }
          } else if row.hasArg == 1 {
            if optind < argv.Length {
              optarg := Some(argv[optind]);
              optind := optind + 1;
            } else {
              nextchar := "";
              return Event(MissingCode(cfg), None, None, None);
            }
          }
          nextchar := "";
          return Event(if row.hasFlag then 0 else row.val, optarg, Some(m.index), None);
        }
        if !cfg.longOnly || e[1] == '-' || nextchar[0] !in cfg.optstring {
          nextchar := "";
          optind := optind + 1;
          return Event(UNKNOWN, None, None, None);
        }
      }
      ev := DecodeShortOption(cfg, argv, args);
    }

    method DecodeShortOption(cfg: Config, argv: array<string>, ghost args: seq<string>) returns (ev: Event)
      requires Scanning(cfg, argv, args) && nextchar != "" && optarg == None
      modifies `optind, `nextchar, `optarg, `optopt
      ensures optind >= old(optind)
      ensures Step(ev, nextchar, optind - old(optind))
           == DecodeShort(cfg, old(nextchar), After(args, old(optind)))
      ensures optarg == ev.arg && (ev.bad.Some? ==> optopt == ev.bad.value)
    {
      assert After(args, optind).Some? ==> args[optind + 1] == argv[optind + 1];
      var c := nextchar[0];
      nextchar := nextchar[1..];
      var temp := FindChar(cfg.optstring, c);
      if nextchar == "" {
        optind := optind + 1;
      }
      if temp == |cfg.optstring| || c == ':' {
        optopt := c;
        return Event(UNKNOWN, None, None, Some(c));
      }
      var code, bad := c as int, None;
      var kind := KindAt(cfg.optstring, temp);
      if kind == OptionalArgument {
        if nextchar != "" {
          optarg := Some(nextchar);
          optind := optind + 1;
        }
        nextchar := "";
      } else if kind == RequiredArgument {
        if nextchar != "" {
          optarg := Some(nextchar);
          optind := optind + 1;
        } else if optind == argv.Length {
          optopt := c;
          bad := Some(c);
          code := MissingCode(cfg);
        } else {
          optarg := Some(argv[optind]);
          optind := optind + 1;
        }
        nextchar := "";
      }
      return Event(code, optarg, None, bad);
    }

    /** The scan carries on past an option that was decoded. */
    lemma ScanningAfterOption(cfg: Config, argv: array<string>, args: seq<string>,
                              i: nat, first: nat, last: nat, text: string, s: Step)
      requires argv.Length == |args| && 1 <= first <= last <= i < |args|
      requires argv[i..] == args[i..] && text != "" && Position(args, i, text)
      requires s == Decode(cfg, args[i], text, After(args, i))
      requires if ordering == Permute then Layout(cfg, args, argv[..], first, last, i, text)
               else argv[..] == args && first == last
      requires firstNonopt == first && lastNonopt == last && optind == i + s.used && nextchar == s.rest
      ensures Scanning(cfg, argv, args)
    {
      hide *;
      OptionStep(cfg, ordering, args, i, text);
      assert argv[i + s.used..] == argv[i..][s.used..];
      if ordering == Permute {
        LayoutOption(cfg, args, argv[..], first, last, i, text);
      }
      ScanningFrom(cfg, argv, args);
    }

    lemma ScanningFrom(cfg: Config, argv: array<string>, args: seq<string>)
      requires argv.Length == |args| && 1 <= firstNonopt <= lastNonopt <= optind <= argv.Length
      requires argv[optind..] == args[optind..] && Position(args, optind, nextchar)
      requires if ordering == Permute then Layout(cfg, args, argv[..], firstNonopt, lastNonopt, optind, nextchar)
               else argv[..] == args && firstNonopt == lastNonopt
      ensures Scanning(cfg, argv, args)
    {
    }

    lemma ScanningHere(cfg: Config, argv: array<string>, args: seq<string>)
      requires Scanning(cfg, argv, args)
      ensures argv.Length == |args| && 1 <= firstNonopt <= lastNonopt <= optind <= argv.Length
      ensures argv[optind..] == args[optind..] && Position(args, optind, nextchar)
      ensures nextchar != "" ==> optind < |args| && |args[optind]| >= 2
      ensures if ordering == Permute then Layout(cfg, args, argv[..], firstNonopt, lastNonopt, optind, nextchar)
              else argv[..] == args && firstNonopt == lastNonopt
    {
    }

    /** Decodes the next option and stays in the scanning state. */
    method TakeOption(cfg: Config, argv: array<string>, ghost args: seq<string>) returns (ev: Event)
      requires Scanning(cfg, argv, args) && nextchar != ""
      modifies `optind, `nextchar, `optarg, `optopt
      ensures Scanning(cfg, argv, args) && optarg == ev.arg && optind >= 0
      ensures Head(cfg, ordering, args, old(optind), old(nextchar)) == Some(Report(ev, optind, nextchar))
    {
      hide *;
      ScanningHere(cfg, argv, args);
      ghost var i, text := optind, nextchar;
      OptionStep(cfg, ordering, args, i, text);
      ev := DecodeOption(cfg, argv, args);
      ghost var step := Decode(cfg, args[i], text, After(args, i));
      ScanningAfterOption(cfg, argv, args, i, firstNonopt, lastNonopt, text, step);
    }

    /** A call after the first one; None stands for EOF. */
    method Resume(cfg: Config, argv: array<string>, ghost args: seq<string>) returns (r: Option<Event>)
      requires Scanning(cfg, argv, args)
      modifies argv, this
      ensures ordering == old(ordering)
      ensures r.None? ==>
        && Head(cfg, ordering, args, old(optind), old(nextchar)) == None
        && Finished(cfg, argv, args, old(optind), old(nextchar))
      ensures r.Some? ==>
        && Scanning(cfg, argv, args) && optarg == r.value.arg
        && Head(cfg, ordering, args, old(optind), old(nextchar)) == Some(Report(r.value, optind, nextchar))
    {
      optarg := None;
      if nextchar == "" {
        var a := Advance(cfg, argv, args);
        match a {
          case AtEnd => return None;
          case AtOperand(arg) =>
            optarg := Some(arg);
            return Some(Event(1, optarg, None, None));
          case AtOption =>
        }
      }
      var ev := TakeOption(cfg, argv, args);
      return Some(ev);
    }

    // Where the next call starts scanning and the option string it uses; optind == 0 asks for a fresh start.

    ghost function Index(): int
      reads this
    {
      if optind == 0 then 1 else optind
    }

    ghost function Text(): string
      reads this
    {
      if optind == 0 then "" else nextchar
    }

    ghost function Effective(cfg: Config): Config
      reads this
    {
      if optind == 0 then Fresh(cfg) else cfg
    }

    /** One call of getopt; None stands for EOF. */
    method Next(cfg: Config, argv: array<string>, posixlyCorrect: bool, ghost args: seq<string>)
      returns (r: Option<Event>)
      requires argv.Length == |args| >= 1
      requires if optind == 0 then argv[..] == args else Scanning(cfg, argv, args)
      modifies argv, this
      ensures ordering == if old(optind) == 0 then OrderingFor(cfg, posixlyCorrect) else old(ordering)
      ensures r.None? ==>
        && Head(old(Effective(cfg)), ordering, args, old(Index()), old(Text())) == None
        && Finished(old(Effective(cfg)), argv, args, old(Index()), old(Text()))
      ensures r.Some? ==>
        && Scanning(cfg, argv, args) && optarg == r.value.arg
        && Head(old(Effective(cfg)), ordering, args, old(Index()), old(Text()))
           == Some(Report(r.value, optind, nextchar))
    {
      var now := cfg;
      if optind == 0 {
        var optstring := Initialize(cfg, posixlyCorrect);
        now := cfg.(optstring := optstring);
        StartLayout(now, args);
      }
      r := Resume(now, argv, args);
    }

    /** Calls getopt until EOF, as every program does. */
    method ScanAll(cfg: Config, argv: array<string>, posixlyCorrect: bool) returns (events: seq<Event>)
      requires argv.Length >= 1 && optind == 0
      modifies argv, this
      ensures var args, ord := old(argv[..]), OrderingFor(cfg, posixlyCorrect);
        && events == Stream(cfg, ord, args)
        && (ord == Permute ==>
              argv[..] == Partitioned(cfg, args) && optind == 1 + |Options(cfg, args, 1, "")|)
        && (ord != Permute ==> argv[..] == args && optind == StreamStop(cfg, ord, args))
    {
      ghost var args := argv[..];
      PlainPermute(cfg, posixlyCorrect);
      var r := Next(cfg, argv, posixlyCorrect, args);
      events := [];
      if r.Some? {
        events := ScanRest(cfg, argv, args);
        events := [r.value] + events;
      }
    }

    /** The calls after the first one, until EOF. */
    method ScanRest(cfg: Config, argv: array<string>, ghost args: seq<string>) returns (events: seq<Event>)
      requires Scanning(cfg, argv, args)
      modifies argv, this
      ensures ordering == old(ordering)
      ensures events == Parse(cfg, ordering, args, old(optind), old(nextchar))
      ensures Finished(cfg, argv, args, old(optind), old(nextchar))
    {
      hide Parse, Stop, Options, Operands, Partitioned, Layout, Head, Decode;
      ghost var i, text, ord := optind, nextchar, ordering;
      events := [];
      var done := false;
      while !done
        invariant ordering == ord
        invariant !done ==> Scanning(cfg, argv, args) && optind != 0
        invariant !done ==> Parse(cfg, ord, args, i, text) == events + Parse(cfg, ord, args, optind, nextchar)
        invariant !done && ord != Permute ==> Stop(cfg, ord, args, i, text) == Stop(cfg, ord, args, optind, nextchar)
        invariant done ==> Parse(cfg, ord, args, i, text) == events && Finished(cfg, argv, args, i, text)
        decreases !done, |args| - optind, nextchar == "", |nextchar|
      {
        hide Scanning, Finished;
        ghost var j, left := optind, nextchar;
        ScanningHere(cfg, argv, args);
        ParseHead(cfg, ord, args, j, left);
        var r := Next(cfg, argv, false, args);
        if r.Some? {
          StopHead(cfg, ord, args, j, left);
          ScanningHere(cfg, argv, args);
          events := events + [r.value];
        } else {
          done := true;
          FinishedSooner(cfg, argv, args, i, text, j, left);
        }
      }
    }

    /** Finishing from a later position of the same scan is finishing from the earlier one. */
    lemma FinishedSooner(cfg: Config, argv: array<string>, args: seq<string>, i: nat, text: string,
                         j: nat, left: string)
      requires |args| >= 1 && Position(args, i, text) && Position(args, j, left)
      requires Finished(cfg, argv, args, j, left)
      requires ordering != Permute ==> Stop(cfg, ordering, args, i, text) == Stop(cfg, ordering, args, j, left)
      ensures Finished(cfg, argv, args, i, text)
    {
    }
  }
}
