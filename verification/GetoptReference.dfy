/**
 What a command line means, read once from left to right, with no permutation and no state kept
 between calls.  `Parse` is the stream of results, `Options` and `Operands` the two halves of the
 partition that GNU getopt is documented to leave behind.
 */
module GetoptReference {
  import opened Wrappers

  datatype Ordering = RequireOrder | Permute | ReturnInOrder

  /** One row of the long-option table; `hasArg` is 0 (none), 1 (required) or anything else (optional). */
  datatype LongOption = LongOption(name: string, hasArg: int, hasFlag: bool, val: int)

  /** `longopts` is None where the C caller passes a null table. */
  datatype Config = Config(optstring: string, longopts: Option<seq<LongOption>>, longOnly: bool)

  /** What one successful call reports: its result, optarg, *longind, and the optopt it stored. */
  datatype Event = Event(code: int, arg: Option<string>, long: Option<nat>, bad: Option<char>)

  /** One decoding step: the event, the text of the element still to scan, the elements used up. */
  datatype Step = Step(event: Event, rest: string, used: nat)

  predicate IsOperand(e: string) {
    |e| < 2 || e[0] != '-'
  }

  // ----- long options

  datatype Match = NoMatch | Ambiguous | Found(index: nat)

  predicate ExactAt(table: seq<LongOption>, name: string, k: int) {
    0 <= k < |table| && table[k].name == name
  }

  predicate PrefixAt(table: seq<LongOption>, name: string, k: int) {
    0 <= k < |table| && name <= table[k].name
  }

  /** The documented rule: an exact name wins (the first of them); else a unique abbreviation. */
  ghost predicate IsMatch(table: seq<LongOption>, name: string, m: Match) {
    match m
    case Found(k) =>
      || (ExactAt(table, name, k) && forall j :: ExactAt(table, name, j) ==> k <= j)
      || (PrefixAt(table, name, k)
          && (forall j :: !ExactAt(table, name, j))
          && (forall j :: PrefixAt(table, name, j) ==> j == k))
    case Ambiguous =>
      && (forall j :: !ExactAt(table, name, j))
      && exists j, k :: PrefixAt(table, name, j) && PrefixAt(table, name, k) && j < k
    case NoMatch =>
      forall j :: !PrefixAt(table, name, j)
  }

  lemma MatchIsUnique(table: seq<LongOption>, name: string, m: Match, n: Match)
    requires IsMatch(table, name, m) && IsMatch(table, name, n)
    ensures m == n
  {
    forall j | ExactAt(table, name, j) ensures PrefixAt(table, name, j) {}
  }

  /** The smallest index from k on satisfying ExactAt, when there is one. */
  lemma {:induction false} FirstExact(table: seq<LongOption>, name: string, k: nat) returns (first: nat)
    requires ExactAt(table, name, k)
    ensures ExactAt(table, name, first)
    ensures forall j :: ExactAt(table, name, j) ==> first <= j
  {
    if exists j :: ExactAt(table, name, j) && j < k {
      var j :| ExactAt(table, name, j) && j < k;
      first := FirstExact(table, name, j);
    } else {
      first := k;
    }
  }

  lemma MatchExists(table: seq<LongOption>, name: string) returns (m: Match)
    ensures IsMatch(table, name, m)
  {
    if k :| ExactAt(table, name, k) {
      var first := FirstExact(table, name, k);
      m := Found(first);
    } else if j, k :| PrefixAt(table, name, j) && PrefixAt(table, name, k) && j < k {
      m := Ambiguous;
    } else if k :| PrefixAt(table, name, k) {
      m := Found(k);
      forall j | PrefixAt(table, name, j) ensures j == k {
        assert j < k || k < j || j == k;
      }
    } else {
      m := NoMatch;
    }
  }

  ghost function LongMatch(table: seq<LongOption>, name: string): (m: Match)
    ensures IsMatch(table, name, m)
  {
    assert exists m :: IsMatch(table, name, m) by { var m := MatchExists(table, name); }
    var m :| IsMatch(table, name, m);
    m
  }

  /** Length of the option name: everything before the first '='. */
  function NameLength(text: string): (n: nat)
    ensures n <= |text| && (n < |text| ==> text[n] == '=') && '=' !in text[..n]
  {
    if text == "" || text[0] == '=' then 0 else
      assert forall n: nat :: n < |text| ==> text[..n + 1] == [text[0]] + text[1..][..n];
      1 + NameLength(text[1..])
  }

  /** Whether the element e, being scanned, is tried as a long option. */
  predicate TriedAsLong(cfg: Config, e: string)
    requires |e| >= 2
  {
    && cfg.longopts.Some?
    && (e[1] == '-' || (cfg.longOnly && (|e| > 2 || e[1] !in cfg.optstring)))
  }

  /** Where scanning of an option element starts: after "-", or after "--" when long options are in use. */
  function Start(cfg: Config, e: string): (text: string)
    requires !IsOperand(e) && e != "--"
    ensures text != ""
  {
    if cfg.longopts.Some? && e[1] == '-' then
      assert e == [e[0], e[1]] + e[2..];
      e[2..]
    else e[1..]
  }

  /** The code for a missing argument. */
  function MissingCode(cfg: Config): int {
    (if cfg.optstring != "" && cfg.optstring[0] == ':' then ':' else '?') as int
  }

  /** Index of the first occurrence of c in s, or |s|. */
  function IndexOf(s: string, c: char): (k: nat)
    ensures k <= |s| && (k < |s| ==> s[k] == c) && c !in s[..k]
  {
    if s == "" || s[0] == c then 0 else
      assert forall n: nat :: n < |s| ==> s[..n + 1] == [s[0]] + s[1..][..n];
      1 + IndexOf(s[1..], c)
  }

  datatype ArgumentKind = NoArgument | RequiredArgument | OptionalArgument

  /** What optstring says of the option character at index k: "x", "x:" or "x::". */
  function KindAt(optstring: string, k: nat): ArgumentKind {
    if k + 1 < |optstring| && optstring[k + 1] == ':' then
      if k + 2 < |optstring| && optstring[k + 2] == ':' then OptionalArgument else RequiredArgument
    else NoArgument
  }

  const UNKNOWN: int := '?' as int

  ghost function DecodeLong(cfg: Config, text: string, next: Option<string>, k: nat): Step
    requires cfg.longopts.Some? && k < |cfg.longopts.value|
  {
    var row := cfg.longopts.value[k];
    var n := NameLength(text);
    var code := if row.hasFlag then 0 else row.val;
    if n < |text| then
      if row.hasArg != 0 then Step(Event(code, Some(text[n + 1..]), Some(k), None), "", 1)
      else Step(Event(UNKNOWN, None, None, None), "", 1)
    else if row.hasArg == 1 then
      if next.Some? then Step(Event(code, next, Some(k), None), "", 2)
      else Step(Event(MissingCode(cfg), None, None, None), "", 1)
    else Step(Event(code, None, Some(k), None), "", 1)
  }

  function DecodeShort(cfg: Config, text: string, next: Option<string>): Step
    requires text != ""
  {
    var c, rest := text[0], text[1..];
    var k := IndexOf(cfg.optstring, c);
    if k == |cfg.optstring| || c == ':' then
      Step(Event(UNKNOWN, None, None, Some(c)), rest, if rest == "" then 1 else 0)
    else match KindAt(cfg.optstring, k)
      case NoArgument => Step(Event(c as int, None, None, None), rest, if rest == "" then 1 else 0)
      case OptionalArgument => Step(Event(c as int, if rest != "" then Some(rest) else None, None, None), "", 1)
      case RequiredArgument =>
        if rest != "" then Step(Event(c as int, Some(rest), None, None), "", 1)
        else if next.Some? then Step(Event(c as int, next, None, None), "", 2)
        else Step(Event(MissingCode(cfg), None, None, Some(c)), "", 1)
  }

  /** One option of the element e, of which `text` is still to scan; `next` is the element after e. */
  ghost function Decode(cfg: Config, e: string, text: string, next: Option<string>): (s: Step)
    requires |e| >= 2 && text != ""
    ensures s.used <= 2 && (s.used == 2 ==> next.Some?)
    ensures if s.rest == "" then s.used >= 1 else s.used == 0 && |s.rest| < |text|
  {
    if TriedAsLong(cfg, e) then
      match LongMatch(cfg.longopts.value, text[..NameLength(text)])
      case Ambiguous => Step(Event(UNKNOWN, None, None, None), "", 1)
      case Found(k) => DecodeLong(cfg, text, next, k)
      case NoMatch =>
        if !cfg.longOnly || e[1] == '-' || text[0] !in cfg.optstring
        then Step(Event(UNKNOWN, None, None, None), "", 1)
        else DecodeShort(cfg, text, next)
    else DecodeShort(cfg, text, next)
  }

  // ----- whole command lines

  /** A scanning position: the start of element i, or inside element i with `text` left. */
  ghost predicate Position(args: seq<string>, i: nat, text: string) {
    i <= |args| && (text != "" ==> i < |args| && !IsOperand(args[i]) && args[i] != "--")
  }

  function After(args: seq<string>, i: nat): Option<string> {
    if i + 1 < |args| then Some(args[i + 1]) else None
  }

  /** The results still to be returned from a position on. */
  ghost function Parse(cfg: Config, ord: Ordering, args: seq<string>, i: nat, text: string): seq<Event>
    requires Position(args, i, text)
    decreases |args| - i, text == "", |text|
  {
    if text != "" then
      var s := Decode(cfg, args[i], text, After(args, i));
      [s.event] + Parse(cfg, ord, args, i + s.used, s.rest)
    else if i == |args| || args[i] == "--" then []
    else if IsOperand(args[i]) then
      match ord
      case Permute => Parse(cfg, ord, args, i + 1, "")
      case RequireOrder => []
      case ReturnInOrder => [Event(1, Some(args[i]), None, None)] + Parse(cfg, ord, args, i + 1, "")
    else Parse(cfg, ord, args, i, Start(cfg, args[i]))
  }

  /** A result and the position it leaves. */
  datatype Report = Report(event: Event, at: nat, text: string)

  /** Each result moves past an element, or shrinks the text left of the current one, or enters one. */
  predicate Progress(i: int, text: string, j: int, left: string) {
    i < j || (i == j && left != "" && (text == "" || |left| < |text|))
  }

  /** The first of the results still to be returned. */
  ghost function Head(cfg: Config, ord: Ordering, args: seq<string>, i: nat, text: string): (r: Option<Report>)
    requires Position(args, i, text)
    ensures r.Some? ==> Position(args, r.value.at, r.value.text) && Progress(i, text, r.value.at, r.value.text)
    decreases |args| - i, text == "", |text|
  {
    if text != "" then
      var s := Decode(cfg, args[i], text, After(args, i));
      Some(Report(s.event, i + s.used, s.rest))
    else if i == |args| || args[i] == "--" then None
    else if IsOperand(args[i]) then
      match ord
      case Permute => Head(cfg, ord, args, i + 1, "")
      case RequireOrder => None
      case ReturnInOrder => Some(Report(Event(1, Some(args[i]), None, None), i + 1, ""))
    else Head(cfg, ord, args, i, Start(cfg, args[i]))
  }

  /** The stream is its first result and what follows from where that leaves off. */
  lemma {:induction false} ParseHead(cfg: Config, ord: Ordering, args: seq<string>, i: nat, text: string)
    requires Position(args, i, text)
    ensures Parse(cfg, ord, args, i, text)
         == match Head(cfg, ord, args, i, text)
            case None => []
            case Some(h) => [h.event] + Parse(cfg, ord, args, h.at, h.text)
    decreases |args| - i, text == "", |text|
  {
    hide Decode;
    if text == "" && i < |args| && args[i] != "--" {
      if IsOperand(args[i]) {
        ParseHead(cfg, ord, args, i + 1, "");
      } else {
        ParseHead(cfg, ord, args, i, Start(cfg, args[i]));
      }
    }
  }

  /** Where a scan that does not permute stops. */
  ghost function Stop(cfg: Config, ord: Ordering, args: seq<string>, i: nat, text: string): (stop: nat)
    requires Position(args, i, text)
    ensures i <= stop <= |args|
    decreases |args| - i, text == "", |text|
  {
    if text != "" then
      var s := Decode(cfg, args[i], text, After(args, i));
      Stop(cfg, ord, args, i + s.used, s.rest)
    else if i == |args| then i
    else if args[i] == "--" then i + 1
    else if IsOperand(args[i]) then
      if ord == RequireOrder then i else Stop(cfg, ord, args, i + 1, "")
    else Stop(cfg, ord, args, i, Start(cfg, args[i]))
  }

  lemma {:induction false} StopHead(cfg: Config, ord: Ordering, args: seq<string>, i: nat, text: string)
    requires Position(args, i, text) && Head(cfg, ord, args, i, text).Some?
    ensures var h := Head(cfg, ord, args, i, text).value;
      Stop(cfg, ord, args, i, text) == Stop(cfg, ord, args, h.at, h.text)
    decreases |args| - i, text == "", |text|
  {
    hide Decode;
    if text == "" && i < |args| && args[i] != "--" {
      if IsOperand(args[i]) {
        if ord == Permute {
          StopHead(cfg, ord, args, i + 1, "");
        }
      } else {
        StopHead(cfg, ord, args, i, Start(cfg, args[i]));
      }
    }
  }

  /** The option elements from a position on, each with its separate argument, and "--". */
  ghost function Options(cfg: Config, args: seq<string>, i: nat, text: string): seq<string>
    requires Position(args, i, text)
    decreases |args| - i, text == "", |text|
  {
    if text != "" then
      var s := Decode(cfg, args[i], text, After(args, i));
      args[i..i + s.used] + Options(cfg, args, i + s.used, s.rest)
    else if i == |args| then []
    else if args[i] == "--" then ["--"]
    else if IsOperand(args[i]) then Options(cfg, args, i + 1, "")
    else Options(cfg, args, i, Start(cfg, args[i]))
  }

  /** The elements from a position on that are not options, and everything after "--". */
  ghost function Operands(cfg: Config, args: seq<string>, i: nat, text: string): seq<string>
    requires Position(args, i, text)
    decreases |args| - i, text == "", |text|
  {
    if text != "" then
      var s := Decode(cfg, args[i], text, After(args, i));
      Operands(cfg, args, i + s.used, s.rest)
    else if i == |args| then []
    else if args[i] == "--" then args[i + 1..]
    else if IsOperand(args[i]) then [args[i]] + Operands(cfg, args, i + 1, "")
    else Operands(cfg, args, i, Start(cfg, args[i]))
  }

  /** One option unfolded in every reading of the line. */
  lemma OptionStep(cfg: Config, ord: Ordering, args: seq<string>, i: nat, text: string)
    requires Position(args, i, text) && text != ""
    ensures i < |args| && |args[i]| >= 2
    ensures var s := Decode(cfg, args[i], text, After(args, i));
      && i + s.used <= |args| && Position(args, i + s.used, s.rest)
      && (if s.rest == "" then s.used >= 1 else s.used == 0 && |s.rest| < |text|)
      && Head(cfg, ord, args, i, text) == Some(Report(s.event, i + s.used, s.rest))
      && Options(cfg, args, i, text) == args[i..i + s.used] + Options(cfg, args, i + s.used, s.rest)
      && Operands(cfg, args, i, text) == Operands(cfg, args, i + s.used, s.rest)
  {
  }

  /** What GNU getopt is documented to leave in argv. */
  ghost function Partitioned(cfg: Config, args: seq<string>): seq<string>
    requires |args| >= 1
  {
    [args[0]] + Options(cfg, args, 1, "") + Operands(cfg, args, 1, "")
  }
}
