/**
 The resumable descriptor parser.  Each call returns one item; a variable field of n reports is
 spread over n calls by the counters `multi` and `multimax`.
 */
module HidParse {
  import opened Wrappers
  import opened HidReference

  lemma SameUsages(ps: Parser, qs: Parser)
    requires qs.minSet == ps.minSet && qs.usages == ps.usages
    requires qs.cur.locals == ps.cur.locals
    ensures UsagesOf(qs) == UsagesOf(ps)
  {
  }

  lemma NoItems(c: Item, usages: seq<nat>, at: Positions)
    ensures VariableItems(c, usages, 0, 0, at) == []
  {
  }

  lemma Regroup<T>(a: seq<T>, b: seq<T>, c: seq<T>)
    ensures (a + b) + c == [] + (a + (b + c))
  {
  }

  /** The results that hid_get_item passes on. */
  function Wanted(reportId: int, results: seq<Result>): seq<Result> {
    if results == [] then [] else
      (if results[0].Bad? || results[0].item.reportId == reportId || reportId == -1 then [results[0]] else [])
      + Wanted(reportId, results[1..])
  }

  lemma UnfoldDescriptor(kinds: set<Kind>, ps: Parser, bytes: seq<Byte>, p: nat)
    requires p < |bytes| && WellFormed(kinds, ps, bytes, p)
    ensures ShortItemAt(bytes, p) && Defined(kinds, ps, ItemAt(bytes, p))
    ensures var out, q := Apply(kinds, ps, ItemAt(bytes, p)), p + 1 + DataSize(bytes[p]);
      && WellFormed(kinds, out.ps, bytes, q)
      && Interpret(kinds, ps, bytes, p) == out.results + Interpret(kinds, out.ps, bytes, q)
  {
  }

  lemma NothingLeft(kinds: set<Kind>, ps: Parser, bytes: seq<Byte>, p: nat)
    requires p >= |bytes| && WellFormed(kinds, ps, bytes, p)
    ensures Interpret(kinds, ps, bytes, p) == []
  {
  }

  /** The state once the remaining `left` reports of a variable field have been returned. */
  function Finished(c: Item, next: seq<Item>, minset: bool, size: nat, count: int, left: int, at: Positions): Parser {
    Parser(Cleared(FixedMinimum(c, size).(reportCount := count)), next, [], minset, size, None,
           VariableAt(at, c.kind, c.reportSize, left))
  }

  lemma FixedOnce(c: Item, size: nat)
    ensures FixedMinimum(FixedMinimum(c, size), size) == FixedMinimum(c, size)
  {
  }

  /** Returning one item of a variable field leaves the others, and the state after them, as they were. */
  lemma OneItem(c: Item, next: seq<Item>, minset: bool, size: nat, usages: seq<nat>, j: nat, n: int, at: Positions)
    requires j < n && usages != [] && c == FixedMinimum(c, size)
    ensures var c', at' := WithUsage(c, UsageFor(usages, j)), HidReference.Advance(at, c.kind, c.reportSize);
      && c' == FixedMinimum(c', size)
      && VariableItems(c, usages, j, n, at)
         == [Found(c'.(pos := PosOf(at, c.kind)))] + VariableItems(c', usages, j + 1, n, at')
      && Finished(c, next, minset, size, n, n - j, at) == Finished(c', next, minset, size, n, n - (j + 1), at')
  {
    SameItems(c, UsageFor(usages, j), usages, j + 1, n, HidReference.Advance(at, c.kind, c.reportSize));
  }

  /** After the last item nothing of the field is left. */
  lemma FieldOver(c: Item, next: seq<Item>, minset: bool, size: nat, usages: seq<nat>, j: nat, n: int, at: Positions)
    requires j >= n && c == FixedMinimum(c, size)
    ensures VariableItems(c, usages, j, n, at) == []
    ensures Finished(c, next, minset, size, n, n - j, at)
      == Parser(Cleared(c.(reportCount := n)), next, [], minset, size, None, at)
  {
  }

  /** The items of a variable field do not depend on the usage the last one happened to leave behind. */
  lemma {:induction false} SameItems(c: Item, usage: nat, usages: seq<nat>, j: nat, n: int, at: Positions)
    requires j < n ==> usages != []
    ensures VariableItems(WithUsage(c, usage), usages, j, n, at) == VariableItems(c, usages, j, n, at)
    decreases n - j
  {
    if j < n {
      SameItems(c, usage, usages, j + 1, n, HidReference.Advance(at, c.kind, c.reportSize));
    }
  }

  class HidData {
    const bytes: seq<Byte>
    const kinds: set<Kind>
    const reportId: int           // the report wanted, -1 for any
    var p: nat
    var cur: Item
    var next: seq<Item>           // the chain of pushed items, innermost first
    const usages: array<nat>
    var nusage: nat
    var minset: bool
    var logminsize: nat
    var multi: nat
    var multimax: int
    var savedcoll: Option<Item>
    var kindpos: Positions

    /** The state between two descriptor items, when no variable field is being spread out. */
    ghost function Idle(): Parser
      requires nusage <= usages.Length
      reads `nusage, `cur, `next, `minset, `logminsize, `savedcoll, `kindpos, usages
    {
      Parser(cur, next, usages[..nusage], minset, logminsize, savedcoll, kindpos)
    }

    /** The state once the variable field being spread out is finished. */
    ghost function AfterField(): Parser
      reads this
    {
      Finished(cur, next, minset, logminsize, multimax, multimax - multi, kindpos)
    }

    ghost predicate Valid()
      reads this, usages
    {
      && usages.Length == MAXUSAGE && nusage <= MAXUSAGE
      && (savedcoll.Some? ==> savedcoll.value.kind == Collection)
      && (multimax == 0 ==> WellFormed(kinds, Idle(), bytes, p))
      && (multimax != 0 ==>
            && IsData(cur.kind) && cur.reportCount == 1 && WellFormed(kinds, AfterField(), bytes, p)
            && (multi < multimax ==> nusage > 0))
    }

    /** What is left of the variable field, and of the descriptor after it. */
    ghost function Spread(): seq<Result>
      requires Valid() && multimax != 0
      reads this, usages
    {
      VariableItems(FixedMinimum(cur, logminsize), usages[..nusage], multi, multimax, kindpos)
      + Interpret(kinds, AfterField(), bytes, p)
    }

    /** All that the calls still to come will return. */
    ghost function Rest(): seq<Result>
      requires Valid()
      reads this, usages
    {
      if multimax == 0 then Interpret(kinds, Idle(), bytes, p) else Report(savedcoll, cur.reportId) + Spread()
    }

    /** hid_start_parse. */
    constructor (bytes: seq<Byte>, kinds: set<Kind>, reportId: int)
      requires WellFormed(kinds, START, bytes, 0)
      ensures Valid() && fresh(usages)
      ensures this.bytes == bytes && this.kinds == kinds && this.reportId == reportId
      ensures Rest() == Interpret(kinds, START, bytes, 0) && kindpos == START.at
    {
      hide Interpret, WellFormed, HidData.Valid, HidData.Rest, Idle, Spread;
      this.bytes, this.kinds, this.reportId := bytes, kinds, reportId;
      p, cur, next, minset, logminsize := 0, EMPTY, [], false, 0;
      usages := new nat[MAXUSAGE];
      nusage, multi, multimax, savedcoll, kindpos := 0, 0, 0, None, Positions(0, 0, 0);
      new;
      Starts();
    }

    lemma Starts()
      requires usages.Length == MAXUSAGE && WellFormed(kinds, START, bytes, 0)
      requires p == 0 && cur == EMPTY && next == [] && !minset && logminsize == 0
      requires nusage == 0 && multimax == 0 && savedcoll == None && kindpos == START.at
      ensures Valid() && Rest() == Interpret(kinds, START, bytes, 0)
    {
      hide Interpret, WellFormed;
      assert Idle() == START;
    }

    /** The part at `top`: the next item of a variable field, or the end of it. */
    method SpreadField() returns (h: Option<Item>)
      requires Valid() && multimax != 0
      modifies this
      ensures Valid() && p == old(p)
      ensures h.Some? ==> old(Rest()) == [Found(h.value)] + Rest() && At(h.value)
      ensures h.None? ==> multimax == 0 && Rest() == old(Rest())
    {
      hide Interpret, WellFormed, VariableItems, VariableAt;
      if savedcoll.Some? {
        h := Some(savedcoll.value.(reportId := cur.reportId));
        savedcoll := None;
        return;
      }
      FixMinimum();
      if multi < multimax {
        h := SpreadOne();
      } else {
        EndField();
        h := None;
      }
    }

    method FixMinimum()
      requires Valid() && multimax != 0
      modifies `cur
      ensures Valid() && Rest() == old(Rest()) && cur == FixedMinimum(cur, logminsize)
    {
      hide Interpret, WellFormed, VariableItems, VariableAt;
      if cur.logMin >= cur.logMax {
        if logminsize == 1 {
          cur := cur.(logMin := SignedLow(cur.logMin, 1));
        } else if logminsize == 2 {
          cur := cur.(logMin := SignedLow(cur.logMin, 2));
        }
      }
      FixedOnce(old(cur), logminsize);
    }

    method EndField()
      requires Valid() && multimax != 0 && multi >= multimax && savedcoll == None
      requires cur == FixedMinimum(cur, logminsize)
      modifies this
      ensures Valid() && p == old(p) && multimax == 0 && Rest() == old(Rest())
    {
      hide Interpret, WellFormed, FixedMinimum, VariableAt, VariableItems, Finished;
      FieldOver(cur, next, minset, logminsize, usages[..nusage], multi, multimax, kindpos);
      ghost var after := AfterField();
      assert Rest() == Interpret(kinds, after, bytes, p);
      cur := Cleared(cur.(reportCount := multimax));
      multimax := 0;
      nusage := 0;
      assert usages[..0] == [];
      assert Idle() == after;
    }

    /** The position counter of a reported field stands at its end. */
    ghost predicate At(h: Item)
      reads `kindpos
    {
      IsData(h.kind) ==> PosOf(kindpos, h.kind) == Wrap32(h.pos + h.reportSize * h.reportCount)
    }

    method SpreadOne() returns (h: Option<Item>)
      requires Valid() && multimax != 0 && multi < multimax && savedcoll == None
      requires cur == FixedMinimum(cur, logminsize)
      modifies this
      ensures Valid() && p == old(p)
      ensures h.Some? && old(Rest()) == [Found(h.value)] + Rest() && At(h.value)
    {
      hide Interpret, WellFormed, VariableItems, Finished, FixedMinimum, VariableAt;
      OneItem(cur, next, minset, logminsize, usages[..nusage], multi, multimax, kindpos);
      cur := WithUsage(cur, usages[if multi < nusage - 1 then multi else nusage - 1]);
      multi := multi + 1;
      h := Some(cur.(pos := PosOf(kindpos, cur.kind)));
      kindpos := HidReference.Advance(kindpos, cur.kind, cur.reportSize);
    }

    // ----- one descriptor item

    /** The state and the answer r are what handling one descriptor item should lead to. */
    ghost predicate Realises(out: Outcome, r: Option<Result>)
      reads this, usages
    {
      && usages.Length == MAXUSAGE && nusage <= MAXUSAGE
      && (savedcoll.Some? ==> savedcoll.value.kind == Collection)
      && (r.Some? && r.value.Found? ==> At(r.value.item))
      && (if multimax == 0 then Idle() == out.ps && out.results == (if r.Some? then [r.value] else [])
          else
            && r.None? && IsData(cur.kind) && cur.reportCount == 1 && (multi < multimax ==> nusage > 0)
            && AfterField() == out.ps
            && out.results == Report(savedcoll, cur.reportId)
                 + VariableItems(FixedMinimum(cur, logminsize), usages[..nusage], multi, multimax, kindpos))
    }

    ghost predicate Handling()
      reads `nusage, `multimax, `savedcoll
    {
      && usages.Length == MAXUSAGE && nusage <= MAXUSAGE && multimax == 0
      && (savedcoll.Some? ==> savedcoll.value.kind == Collection)
    }

    method AddRange()
      requires usages.Length == MAXUSAGE && nusage <= MAXUSAGE
      requires minset ==> nusage < MAXUSAGE && cur.locals.usageMax < TWO32 - 1
      modifies usages, `nusage, `cur, `minset
      ensures nusage <= MAXUSAGE && usages[..nusage] == old(UsagesOf(Idle()))
      ensures cur == if old(minset) then old(cur).(locals := old(cur).locals.(usageMin := 0, usageMax := 0))
                     else old(cur)
      ensures !minset
    {
      if minset {
        var i := cur.locals.usageMin;
        while i <= cur.locals.usageMax
          invariant nusage < MAXUSAGE && cur == old(cur) && minset
          invariant WithRange(usages[..nusage], i, cur.locals.usageMax) == old(UsagesOf(Idle()))
          decreases cur.locals.usageMax + 1 - i
        {
          ghost var so := usages[..nusage];
          usages[nusage] := i;
          assert usages[..nusage] == so && usages[..nusage + 1] == so + [i];
          if nusage < MAXUSAGE - 1 {
            nusage := nusage + 1;
          }
          i := i + 1;
        }
        cur := cur.(locals := cur.locals.(usageMin := 0, usageMax := 0));
        minset := false;
      }
    }

    method DoField(k: Kind, value: nat) returns (r: Option<Result>)
      requires Handling() && IsData(k) && FieldDefined(kinds, Idle(), k, value)
      modifies this, usages
      ensures Realises(MainField(kinds, old(Idle()), k, value), r) && p == old(p)
    {
      if k !in kinds {
        nusage := 0;
        return None;
      }
      hide *;
      if IsVariable(value) {
        StartVariable(k, value);
        r := None;
      } else {
        r := TakeArray(k, value);
      }
    }

    /** A variable field is spread over the calls to come. */
    method StartVariable(k: Kind, value: nat)
      requires Handling() && IsData(k) && k in kinds && IsVariable(value) && FieldDefined(kinds, Idle(), k, value)
      modifies this, usages
      ensures Realises(MainField(kinds, old(Idle()), k, value), None) && p == old(p)
    {
      hide UsagesOf, VariableItems, VariableAt, FixedMinimum;
      cur := cur.(kind := k, flags := value);
      multimax := cur.reportCount;
      multi := 0;
      cur := cur.(reportCount := 1);
      SameUsages(old(Idle()), Idle());
      AddRange();
      if multimax == 0 {
        NoItems(FixedMinimum(cur, logminsize), usages[..nusage], kindpos);
      }
    }

    /** An array field is returned at once, as a single item. */
    method TakeArray(k: Kind, value: nat) returns (r: Option<Result>)
      requires Handling() && IsData(k) && k in kinds && !IsVariable(value)
      modifies this, usages
      ensures Realises(MainField(kinds, old(Idle()), k, value), r) && p == old(p)
    {
      cur := cur.(kind := k, flags := value);
      if minset {
        cur := WithUsage(cur, cur.locals.usageMin);
      }
      var h := cur.(pos := PosOf(kindpos, k));
      kindpos := HidReference.Advance(kindpos, k, cur.reportSize * cur.reportCount);
      cur := Cleared(cur);
      minset := false;
      r := Some(Found(h));
    }

    method DoMain(tag: nat, value: nat) returns (r: Option<Result>)
      requires Handling() && value < TWO32
      requires tag in {8, 9, 11} ==> FieldDefined(kinds, Idle(), FieldKind(tag), value)
      modifies this, usages
      ensures Realises(MainItem(kinds, old(Idle()), tag, value), r) && p == old(p)
    {
      match tag {
        case 8 => r := DoField(Input, value);
        case 9 => r := DoField(Output, value);
        case 10 =>
          cur := cur.(kind := Collection, collection := Signed32(value), level := cur.level + 1);
          var nc := cur;
          cur := Cleared(cur);
          nusage := 0;
          if savedcoll.Some? {
            r := Some(Found(savedcoll.value.(reportId := nc.reportId)));
          } else {
            r := None;
          }
          savedcoll := Some(nc);
        case 11 => r := DoField(Feature, value);
        case 12 =>
          if savedcoll.Some? {
            r := Some(Found(savedcoll.value.(reportId := cur.reportId)));
            savedcoll := None;
          } else {
            cur := cur.(kind := EndCollection, level := cur.level - 1);
            r := Some(Found(cur));
            nusage := 0;
          }
        case _ => r := Some(Bad(-2));
      }
    }

    method DoGlobal(s: ShortItem) returns (r: Option<Result>)
      requires Handling() && s.value < TWO32 && (s.tag == 11 ==> next != [])
      modifies this
      ensures Realises(GlobalItem(old(Idle()), s), r) && p == old(p)
    {
      r := None;
      var v := Signed32(s.value);
      match s.tag {
        case 0 => cur := cur.(usagePage := Wrap32(s.value * 0x1_0000));
        case 1 => cur := cur.(logMin := v); logminsize := s.size;
        case 2 => cur := cur.(logMax := v);
        case 3 => cur := cur.(physMin := v);
        case 4 => cur := cur.(physMax := v);
        case 5 => cur := cur.(unitExponent := v);
        case 6 => cur := cur.(unit := v);
        case 7 => cur := cur.(reportSize := v);
        case 8 => cur := cur.(reportId := v); kindpos := Positions(0, 0, 0);
        case 9 => cur := cur.(reportCount := v);
        case 10 => next := [cur] + next;
        case 11 => cur, next := next[0], next[1..];
        case _ => r := Some(Bad(-3));
      }
    }

    method AddUsage(usage: nat)
      requires usages.Length == MAXUSAGE && nusage <= MAXUSAGE
      modifies usages, `nusage
      ensures nusage <= MAXUSAGE
      ensures usages[..nusage] == if old(nusage) < MAXUSAGE then old(usages[..nusage]) + [usage]
                                  else old(usages[..nusage])
    {
      if nusage < MAXUSAGE {
        usages[nusage] := usage;
        nusage := nusage + 1;
      }
    }

    method DoLocal(s: ShortItem) returns (r: Option<Result>)
      requires Handling() && s.value < TWO32 && cur.usagePage < TWO32
      modifies this, usages
      ensures Realises(LocalItem(old(Idle()), s), r) && p == old(p)
    {
      hide Or32, Signed32;
      r := None;
      var l, v := cur.locals, Signed32(s.value);
      match s.tag {
        case 0 =>
          cur := WithUsage(cur, Or32(cur.usagePage, s.value));
          AddUsage(cur.locals.usage);
        case 1 =>
          minset := true;
          cur := cur.(locals := l.(usageMin := Or32(cur.usagePage, s.value)));
        case 2 => cur := cur.(locals := l.(usageMax := Or32(cur.usagePage, s.value)));
        case 3 => cur := cur.(locals := l.(designator := v));
        case 4 => cur := cur.(locals := l.(designatorMin := v));
        case 5 => cur := cur.(locals := l.(designatorMax := v));
        case 7 => cur := cur.(locals := l.(text := v));
        case 8 => cur := cur.(locals := l.(textMin := v));
        case 9 => cur := cur.(locals := l.(textMax := v));
        case 10 => cur := cur.(locals := l.(delimiter := v));
        case _ => r := Some(Bad(-4));
      }
    }

    /** Reads the short item at p and handles it. */
    method HandleItem() returns (r: Option<Result>)
      requires Valid() && multimax == 0 && p < |bytes|
      modifies this, usages
      ensures Valid() && p > old(p)
      ensures if r.Some? then old(Rest()) == [r.value] + Rest() && multimax == 0 else old(Rest()) == Rest()
      ensures r.Some? && r.value.Found? ==> At(r.value.item)
    {
      hide *;
      BetweenItems();
      UnfoldDescriptor(kinds, Idle(), bytes, p);
      ghost var out := Apply(kinds, Idle(), ItemAt(bytes, p));
      var s := ReadItem();
      r := Dispatch(s);
      Handled(out, r);
    }

    lemma BetweenItems()
      requires Valid() && multimax == 0
      ensures Handling() && nusage <= usages.Length
      ensures WellFormed(kinds, Idle(), bytes, p) && Rest() == Interpret(kinds, Idle(), bytes, p)
    {
      hide Interpret, WellFormed;
    }

    /** A descriptor item was handled as it should be: the calls to come return what the rest of it says. */
    lemma Handled(out: Outcome, r: Option<Result>)
      requires Realises(out, r) && WellFormed(kinds, out.ps, bytes, p)
      ensures Valid()
      ensures out.results + Interpret(kinds, out.ps, bytes, p) == (if r.Some? then [r.value] else []) + Rest()
      ensures (r.Some? ==> multimax == 0) && (r.Some? && r.value.Found? ==> At(r.value.item))
    {
      hide Interpret, WellFormed, VariableItems, FixedMinimum, At, Finished, Report;
      if multimax != 0 {
        var items := VariableItems(FixedMinimum(cur, logminsize), usages[..nusage], multi, multimax, kindpos);
        Regroup(Report(savedcoll, cur.reportId), items, Interpret(kinds, out.ps, bytes, p));
      }
    }

    /** Splits the prefix byte and assembles the data, low-order byte first. */
    method ReadItem() returns (s: ShortItem)
      requires ShortItemAt(bytes, p)
      modifies `p
      ensures s == ItemAt(bytes, old(p)) && p == old(p) + 1 + DataSize(bytes[old(p)])
    {
      var prefix := bytes[p];
      var size: nat := prefix % 4;
      if size == 3 {
        size := 4;
      }
      var value: nat, data: seq<nat> := 0, bytes[p + 1..p + 1 + size];
      if size >= 1 {
        value := data[0];
      }
      if size >= 2 {
        value := value + 0x100 * data[1];
      }
      if size == 4 {
        value := value + 0x1_0000 * data[2] + 0x100_0000 * data[3];
      }
      s := ShortItem(prefix / 4 % 4, prefix / 16, size, value);
      p := p + 1 + size;
    }

    method Dispatch(s: ShortItem) returns (r: Option<Result>)
      requires Handling() && Defined(kinds, Idle(), s)
      modifies this, usages
      ensures Realises(Apply(kinds, old(Idle()), s), r) && p == old(p)
    {
      hide Realises, MainItem, GlobalItem, LocalItem, FieldDefined;
      match s.itype {
        case 0 => r := DoMain(s.tag, s.value);
        case 1 => r := DoGlobal(s);
        case 2 => r := DoLocal(s);
        case _ => r := Nothing(Bad(-5));
      }
    }

    method Nothing(bad: Result) returns (r: Option<Result>)
      requires Handling() && bad.Bad?
      ensures Realises(Outcome(Idle(), [bad]), r)
    {
      r := Some(bad);
    }

    /** hid_get_item_raw: the next of all the results; None when the descriptor is exhausted. */
    method GetItemRaw() returns (r: Option<Result>)
      requires Valid()
      modifies this, usages
      ensures Valid()
      ensures r.None? ==> old(Rest()) == [] && Rest() == []
      ensures r.Some? ==> old(Rest()) == [r.value] + Rest()
      ensures r.Some? && r.value.Found? ==> At(r.value.item)
    {
      hide Interpret, WellFormed, At;
      r := None;
      while true
        invariant Valid() && Rest() == old(Rest()) && r == None
        decreases |bytes| - p, multimax != 0
      {
        if multimax != 0 {
          var h := SpreadField();
          if h.Some? {
            return Some(Found(h.value));
          }
        }
        if p >= |bytes| {
          NothingLeft(kinds, Idle(), bytes, p);
          return;
        }
        r := HandleItem();
        if r.Some? {
          return;
        }
      }
    }

    /** hid_get_item: skips the items of other reports. */
    method GetItem() returns (r: Option<Result>)
      requires Valid()
      modifies this, usages
      ensures Valid()
      ensures r.None? ==> Wanted(reportId, old(Rest())) == []
      ensures r.Some? ==> Wanted(reportId, old(Rest())) == [r.value] + Wanted(reportId, Rest())
      ensures r.Some? ==> |Rest()| < |old(Rest())|
      ensures r.Some? && r.value.Found? ==> At(r.value.item)
    {
      hide Interpret, WellFormed, At, Valid;
      while true
        invariant Valid() && Wanted(reportId, Rest()) == Wanted(reportId, old(Rest()))
        invariant |Rest()| <= |old(Rest())|
        decreases |Rest()|
      {
        r := GetItemRaw();
        if r.None? || r.value.Bad? || r.value.item.reportId == reportId || reportId == -1 {
          return;
        }
      }
    }
  }
}
