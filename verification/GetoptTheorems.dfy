/** What the partition left behind by a permuting scan is, and when scanning it again is harmless. */
module GetoptTheorems {
  import opened Wrappers
  import opened GetoptReference
  import opened Getopt

  // ----- the partition is stable

  /** The elements of s whose mark in `marks` is b, in order. */
  function Kept<T>(s: seq<T>, marks: seq<bool>, b: bool): seq<T>
    requires |s| == |marks|
  {
    if s == [] then [] else (if marks[0] == b then [s[0]] else []) + Kept(s[1..], marks[1..], b)
  }

  /** Which elements from a position on are options (or their arguments, or "--"). */
  ghost function Marks(cfg: Config, args: seq<string>, i: nat, text: string): (marks: seq<bool>)
    requires Position(args, i, text)
    ensures |marks| == |args| - i
    decreases |args| - i, text == "", |text|
  {
    if text != "" then
      var s := Decode(cfg, args[i], text, After(args, i));
      seq(s.used, _ => true) + Marks(cfg, args, i + s.used, s.rest)
    else if i == |args| then []
    else if args[i] == "--" then [true] + seq(|args| - i - 1, _ => false)
    else if IsOperand(args[i]) then [false] + Marks(cfg, args, i + 1, "")
    else Marks(cfg, args, i, Start(cfg, args[i]))
  }

  lemma {:induction false} KeptAppend<T>(s: seq<T>, t: seq<T>, m: seq<bool>, n: seq<bool>, b: bool)
    requires |s| == |m| && |t| == |n|
    ensures Kept(s + t, m + n, b) == Kept(s, m, b) + Kept(t, n, b)
  {
    hide *;
    KeptStep(s, m, b);
    if s == [] {
      assert s + t == t && m + n == n;
    } else {
      assert (s + t)[1..] == s[1..] + t && (s + t)[0] == s[0];
      assert (m + n)[1..] == m[1..] + n && (m + n)[0] == m[0];
      KeptAppend(s[1..], t, m[1..], n, b);
      KeptStep(s + t, m + n, b);
      Associate(if m[0] == b then [s[0]] else [], Kept(s[1..], m[1..], b), Kept(t, n, b));
    }
  }

  lemma Associate<T>(a: seq<T>, b: seq<T>, c: seq<T>)
    ensures a + (b + c) == a + b + c
  {
  }

  lemma KeptStep<T>(s: seq<T>, m: seq<bool>, b: bool)
    requires |s| == |m|
    ensures Kept(s, m, b) == if s == [] then [] else (if m[0] == b then [s[0]] else []) + Kept(s[1..], m[1..], b)
  {
  }

  lemma {:induction false} KeptUniform<T>(s: seq<T>, m: seq<bool>, b: bool)
    requires |s| == |m| && forall k :: 0 <= k < |m| ==> m[k] == b
    ensures Kept(s, m, b) == s && Kept(s, m, !b) == []
  {
    if s != [] {
      KeptUniform(s[1..], m[1..], b);
    }
  }

  /** Options and Operands are the two halves of the command line cut by one set of marks. */
  lemma {:induction false} StablePartition(cfg: Config, args: seq<string>, i: nat, text: string)
    requires Position(args, i, text)
    ensures var marks := Marks(cfg, args, i, text);
      && Options(cfg, args, i, text) == Kept(args[i..], marks, true)
      && Operands(cfg, args, i, text) == Kept(args[i..], marks, false)
    decreases |args| - i, text == "", |text|
  {
    hide Decode, Kept;
    if text != "" {
      var s := Decode(cfg, args[i], text, After(args, i));
      StablePartition(cfg, args, i + s.used, s.rest);
      assert args[i..] == args[i..i + s.used] + args[i + s.used..];
      var rest := Marks(cfg, args, i + s.used, s.rest);
      AppendMarks(args[i..i + s.used], args[i + s.used..], seq(s.used, _ => true), rest, true);
    } else if i == |args| {
      KeptUniform(args[i..], [], true);
    } else if args[i] == "--" {
      assert args[i..] == ["--"] + args[i + 1..];
      var rest: seq<bool> := seq(|args| - i - 1, _ => false);
      AppendMarks(["--"], args[i + 1..], [true], rest, true);
      KeptUniform(args[i + 1..], rest, false);
    } else if IsOperand(args[i]) {
      StablePartition(cfg, args, i + 1, "");
      assert args[i..] == [args[i]] + args[i + 1..];
      AppendMarks([args[i]], args[i + 1..], [false], Marks(cfg, args, i + 1, ""), false);
    } else {
      StablePartition(cfg, args, i, Start(cfg, args[i]));
    }
  }

  lemma AppendMarks<T>(s: seq<T>, t: seq<T>, m: seq<bool>, n: seq<bool>, b: bool)
    requires |s| == |m| && |t| == |n| && forall k :: 0 <= k < |m| ==> m[k] == b
    ensures Kept(s + t, m + n, b) == s + Kept(t, n, b)
    ensures Kept(s + t, m + n, !b) == Kept(t, n, !b)
  {
    KeptAppend(s, t, m, n, b);
    KeptAppend(s, t, m, n, !b);
    KeptUniform(s, m, b);
  }

  lemma {:induction false} KeptMultiset<T>(s: seq<T>, m: seq<bool>)
    requires |s| == |m|
    ensures multiset(Kept(s, m, true)) + multiset(Kept(s, m, false)) == multiset(s)
  {
    if s != [] {
      KeptMultiset(s[1..], m[1..]);
      assert s == [s[0]] + s[1..];
    }
  }

  /** Nothing is lost or invented: argv ends up a permutation of what it was. */
  lemma PartitionIsPermutation(cfg: Config, args: seq<string>)
    requires |args| >= 1
    ensures multiset(Partitioned(cfg, args)) == multiset(args)
  {
    StablePartition(cfg, args, 1, "");
    KeptMultiset(args[1..], Marks(cfg, args, 1, ""));
    assert args == [args[0]] + args[1..];
  }

  // ----- scanning the permuted line again

  ghost predicate NeedsArgument(cfg: Config, e: string, text: string)
    requires |e| >= 2 && text != ""
  {
    Decode(cfg, e, text, Some("")).used == 2
  }

  /** The last option wants an argument and the line has none left for it. */
  ghost predicate Dangling(cfg: Config, args: seq<string>, i: nat, text: string)
    requires Position(args, i, text)
    decreases |args| - i, text == "", |text|
  {
    if text != "" then
      var s := Decode(cfg, args[i], text, After(args, i));
      || (NeedsArgument(cfg, args[i], text) && After(args, i).None?)
      || Dangling(cfg, args, i + s.used, s.rest)
    else if i == |args| || args[i] == "--" then false
    else if IsOperand(args[i]) then Dangling(cfg, args, i + 1, "")
    else Dangling(cfg, args, i, Start(cfg, args[i]))
  }

  lemma DecodeNext(cfg: Config, e: string, text: string, next: Option<string>, other: Option<string>)
    requires |e| >= 2 && text != ""
    ensures !NeedsArgument(cfg, e, text) ==> Decode(cfg, e, text, next) == Decode(cfg, e, text, other)
    ensures NeedsArgument(cfg, e, text) ==>
      var s := Decode(cfg, e, text, next);
      s.rest == "" && s.event.arg == next && s.used == if next.Some? then 2 else 1
  {
  }

  lemma {:induction false} OptionsHead(cfg: Config, args: seq<string>, i: nat, text: string)
    requires Position(args, i, text) && text != ""
    ensures |Options(cfg, args, i, text)| >= 1 && Options(cfg, args, i, text)[0] == args[i]
    decreases |text|
  {
    var s := Decode(cfg, args[i], text, After(args, i));
    if s.rest != "" {
      OptionsHead(cfg, args, i, s.rest);
    }
  }

  lemma {:induction false} OnlyOperands(cfg: Config, q: seq<string>, j: nat)
    requires j <= |q| && forall k :: j <= k < |q| ==> IsOperand(q[k])
    ensures Parse(cfg, Permute, q, j, "") == []
    decreases |q| - j
  {
    if j < |q| {
      OnlyOperands(cfg, q, j + 1);
    }
  }

  /**
   q is a permuted line from index j on: the options still to come, the operands already skipped,
   the operands still to come.  Scanning q from j gives what scanning args from i gives, exactly
   when no option is left dangling in front of an operand.
   */
  lemma {:induction false} RescanFrom(cfg: Config, args: seq<string>, i: nat, text: string,
                                      q: seq<string>, j: nat, skipped: seq<string>)
    requires Position(args, i, text) && j <= |q|
    requires q[j..] == Options(cfg, args, i, text) + skipped + Operands(cfg, args, i, text)
    requires forall x :: x in skipped ==> IsOperand(x)
    ensures Position(q, j, text)
    ensures Parse(cfg, Permute, q, j, text) == Parse(cfg, Permute, args, i, text)
      <==> !(Dangling(cfg, args, i, text) && skipped + Operands(cfg, args, i, text) != [])
    decreases |args| - i, text == "", |text|
  {
    if text != "" {
      OptionsHead(cfg, args, i, text);
      assert q[j] == q[j..][0] == args[i];
      RescanOption(cfg, args, i, text, q, j, skipped);
    } else if i == |args| {
      assert forall k :: j <= k < |q| ==> q[k] == q[j..][k - j];
      OnlyOperands(cfg, q, j);
    } else if args[i] == "--" {
      assert q[j] == q[j..][0] == "--";
    } else if IsOperand(args[i]) {
      var more := skipped + [args[i]];
      assert Options(cfg, args, i, "") + skipped + Operands(cfg, args, i, "")
          == Options(cfg, args, i + 1, "") + more + Operands(cfg, args, i + 1, "");
      assert skipped + Operands(cfg, args, i, "") == more + Operands(cfg, args, i + 1, "");
      RescanFrom(cfg, args, i + 1, "", q, j, more);
    } else {
      OptionsHead(cfg, args, i, Start(cfg, args[i]));
      assert q[j] == q[j..][0] == args[i];
      RescanFrom(cfg, args, i, Start(cfg, args[i]), q, j, skipped);
    }
  }

  /** An option without its argument: it is the last element, and differs iff an operand now follows it. */
  lemma RescanDangling(cfg: Config, args: seq<string>, i: nat, text: string,
                       q: seq<string>, j: nat, skipped: seq<string>)
    requires Position(args, i, text) && text != "" && j < |q| && q[j] == args[i]
    requires NeedsArgument(cfg, args[i], text) && After(args, i).None?
    requires q[j..] == [args[i]] + skipped && forall x :: x in skipped ==> IsOperand(x)
    ensures Operands(cfg, args, i, text) == [] && Dangling(cfg, args, i, text)
    ensures Parse(cfg, Permute, q, j, text) == Parse(cfg, Permute, args, i, text) <==> skipped == []
  {
    DecodeNext(cfg, args[i], text, After(args, i), After(q, j));
    DecodeNext(cfg, args[i], text, After(q, j), After(args, i));
    if skipped != [] {
      assert q[j + 1] == q[j..][1] == skipped[0];
      assert Parse(cfg, Permute, q, j, text)[0] != Parse(cfg, Permute, args, i, text)[0];
    }
  }

  /** Any other option decodes the same way in both lines. */
  lemma SameDecoding(cfg: Config, args: seq<string>, i: nat, text: string, q: seq<string>, j: nat, tail: seq<string>)
    requires Position(args, i, text) && text != "" && j < |q| && q[j] == args[i]
    requires !(NeedsArgument(cfg, args[i], text) && After(args, i).None?)
    requires var s := Decode(cfg, args[i], text, After(args, i)); q[j..] == args[i..i + s.used] + tail
    ensures Decode(cfg, q[j], text, After(q, j)) == Decode(cfg, args[i], text, After(args, i))
  {
    DecodeNext(cfg, args[i], text, After(args, i), After(q, j));
    if NeedsArgument(cfg, args[i], text) {
      assert q[j + 1] == q[j..][1] == args[i + 1];
    }
  }

  /** One option unfolded in every reading of the line. */
  lemma OneOption(cfg: Config, args: seq<string>, i: nat, text: string)
    requires Position(args, i, text) && text != ""
    ensures var s := Decode(cfg, args[i], text, After(args, i));
      && i + s.used <= |args| && Position(args, i + s.used, s.rest) && (s.used == 0 ==> |s.rest| < |text|)
      && Parse(cfg, Permute, args, i, text) == [s.event] + Parse(cfg, Permute, args, i + s.used, s.rest)
      && Options(cfg, args, i, text) == args[i..i + s.used] + Options(cfg, args, i + s.used, s.rest)
      && Operands(cfg, args, i, text) == Operands(cfg, args, i + s.used, s.rest)
      && (!(NeedsArgument(cfg, args[i], text) && After(args, i).None?) ==>
            Dangling(cfg, args, i, text) == Dangling(cfg, args, i + s.used, s.rest))
      && (NeedsArgument(cfg, args[i], text) && After(args, i).None? ==> Options(cfg, args, i, text) == [args[i]])
  {
    DecodeNext(cfg, args[i], text, After(args, i), None);
  }

  lemma SamePosition(args: seq<string>, i: nat, text: string, q: seq<string>, j: nat)
    requires Position(args, i, text) && text != "" && j < |q| && q[j] == args[i]
    ensures i < |args| && |args[i]| >= 2 && Position(q, j, text)
  {
  }

  lemma {:induction false} RescanOption(cfg: Config, args: seq<string>, i: nat, text: string,
                                        q: seq<string>, j: nat, skipped: seq<string>)
    requires Position(args, i, text) && text != "" && j < |q| && q[j] == args[i]
    requires q[j..] == Options(cfg, args, i, text) + skipped + Operands(cfg, args, i, text)
    requires forall x :: x in skipped ==> IsOperand(x)
    ensures Position(q, j, text)
    ensures Parse(cfg, Permute, q, j, text) == Parse(cfg, Permute, args, i, text)
      <==> !(Dangling(cfg, args, i, text) && skipped + Operands(cfg, args, i, text) != [])
    decreases |args| - i, false, |text|, 0
  {
    hide *;
    SamePosition(args, i, text, q, j);
    OneOption(cfg, args, i, text);
    OneOption(cfg, q, j, text);
    var s := Decode(cfg, args[i], text, After(args, i));
    if NeedsArgument(cfg, args[i], text) && After(args, i) == None {
      assert q[j..] == [args[i]] + skipped by { NothingAfter(cfg, args, i, text); }
      RescanDangling(cfg, args, i, text, q, j, skipped);
    } else {
      var tail := Options(cfg, args, i + s.used, s.rest) + skipped + Operands(cfg, args, i + s.used, s.rest);
      assert q[j..] == args[i..i + s.used] + tail;
      SameDecoding(cfg, args, i, text, q, j, tail);
      assert q[j + s.used..] == q[j..][s.used..] == tail;
      RescanFrom(cfg, args, i + s.used, s.rest, q, j + s.used, skipped);
      SameTail(s.event, Parse(cfg, Permute, q, j + s.used, s.rest), Parse(cfg, Permute, args, i + s.used, s.rest));
    }
  }

  lemma NothingAfter(cfg: Config, args: seq<string>, i: nat, text: string)
    requires Position(args, i, text) && text != "" && After(args, i) == None
    requires NeedsArgument(cfg, args[i], text)
    ensures Operands(cfg, args, i, text) == []
  {
    DecodeNext(cfg, args[i], text, After(args, i), None);
  }

  lemma SameTail<T>(x: T, s: seq<T>, t: seq<T>)
    ensures [x] + s == [x] + t <==> s == t
  {
    assert ([x] + s)[1..] == s && ([x] + t)[1..] == t;
  }

  /**
   The permuted argv means what the original meant, unless the last option lacked its argument and
   there are operands: then the first operand now follows it and is taken for the argument.
   */
  lemma RescanningPartition(cfg: Config, args: seq<string>)
    requires |args| >= 1
    ensures Parse(cfg, Permute, Partitioned(cfg, args), 1, "") == Parse(cfg, Permute, args, 1, "")
      <==> !(Dangling(cfg, args, 1, "") && Operands(cfg, args, 1, "") != [])
  {
    var q := Partitioned(cfg, args);
    assert q[1..] == Options(cfg, args, 1, "") + [] + Operands(cfg, args, 1, "");
    assert [] + Operands(cfg, args, 1, "") == Operands(cfg, args, 1, "");
    RescanFrom(cfg, args, 1, "", q, 1, []);
  }

  const B_WITH_ARGUMENT := Config("b:", None, false)

  /** A line that is not: "-b" at the end lacks its argument, and in the permuted line it takes the operand. */
  lemma RescanDiffers()
    ensures var args := ["prog", "x", "-b"];
      && Partitioned(B_WITH_ARGUMENT, args) == ["prog", "-b", "x"]
      && Parse(B_WITH_ARGUMENT, Permute, Partitioned(B_WITH_ARGUMENT, args), 1, "")
         != Parse(B_WITH_ARGUMENT, Permute, args, 1, "")
  {
    var args := ["prog", "x", "-b"];
    assert Start(B_WITH_ARGUMENT, "-b") == "b" && After(args, 2) == None;
    assert Decode(B_WITH_ARGUMENT, "-b", "b", None).used == 1 && Decode(B_WITH_ARGUMENT, "-b", "b", None).rest == "";
    assert Decode(B_WITH_ARGUMENT, "-b", "b", Some("")).used == 2;
    assert args[2..3] == ["-b"];
    LastOption(B_WITH_ARGUMENT, args);
    RescanningPartition(B_WITH_ARGUMENT, args);
  }

  lemma LastOption(cfg: Config, args: seq<string>)
    requires |args| == 3 && IsOperand(args[1]) && !IsOperand(args[2]) && args[2] != "--"
    requires var s := Decode(cfg, args[2], Start(cfg, args[2]), None); s.used == 1 && s.rest == ""
    ensures Options(cfg, args, 1, "") == [args[2]] && Operands(cfg, args, 1, "") == [args[1]]
    ensures NeedsArgument(cfg, args[2], Start(cfg, args[2])) ==> Dangling(cfg, args, 1, "")
  {
    hide Decode, NeedsArgument;
    assert After(args, 2) == None && args[2..3] == [args[2]];
    var text := Start(cfg, args[2]);
    assert Options(cfg, args, 3, "") == [] && Operands(cfg, args, 3, "") == [];
    assert Options(cfg, args, 2, text) == [args[2]] && Operands(cfg, args, 2, text) == [];
    assert Options(cfg, args, 2, "") == [args[2]] && Operands(cfg, args, 2, "") == [];
    assert NeedsArgument(cfg, args[2], text) ==> Dangling(cfg, args, 2, text) && Dangling(cfg, args, 2, "");
  }
}
