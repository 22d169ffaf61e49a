/**
 Collections in the results of a parse: each opened collection is reported once, but the End Collection
 of one that is still kept back is lost.  Also: descriptors as sequences of items.
 */
module HidCollections {
  import opened Wrappers
  import opened HidReference
  import opened HidLayout
  import opened HidTheorems

  // ----- a descriptor as a sequence of items

  function ItemsOf(bytes: seq<Byte>, p: nat): seq<ShortItem>
    requires AllShort(bytes, p)
    decreases |bytes| - p
  {
    if p >= |bytes| then [] else [ItemAt(bytes, p)] + ItemsOf(bytes, p + 1 + DataSize(bytes[p]))
  }

  function ResultsAll(kinds: set<Kind>, ps: Parser, items: seq<ShortItem>): seq<Result>
    requires AllDefined(kinds, ps, items)
    decreases |items|
  {
    if items == [] then [] else
      Apply(kinds, ps, items[0]).results + ResultsAll(kinds, Apply(kinds, ps, items[0]).ps, items[1..])
  }

  /** The results of a descriptor are those of its items. */
  lemma {:induction false} InterpretItems(kinds: set<Kind>, ps: Parser, bytes: seq<Byte>, p: nat)
    requires WellFormed(kinds, ps, bytes, p)
    ensures AllShort(bytes, p) && AllDefined(kinds, ps, ItemsOf(bytes, p))
    ensures Interpret(kinds, ps, bytes, p) == ResultsAll(kinds, ps, ItemsOf(bytes, p))
    decreases |bytes| - p
  {
    hide Apply, Defined, ItemAt;
    if p < |bytes| {
      var s, q := ItemAt(bytes, p), p + 1 + DataSize(bytes[p]);
      InterpretItems(kinds, Apply(kinds, ps, s).ps, bytes, q);
      assert ItemsOf(bytes, p)[0] == s && ItemsOf(bytes, p)[1..] == ItemsOf(bytes, q);
    }
  }

  // ----- what becomes of collections

  predicate IsOpen(s: ShortItem) {
    s.itype == 0 && s.tag == 10
  }

  predicate IsClose(s: ShortItem) {
    s.itype == 0 && s.tag == 12
  }

  /** A wanted variable field that is not empty reports a collection kept back. */
  predicate ReportsKept(kinds: set<Kind>, ps: Parser, s: ShortItem) {
    && s.itype == 0 && s.tag in {8, 9, 11} && FieldKind(s.tag) in kinds
    && IsVariable(s.value) && ps.cur.reportCount != 0
  }

  function One(b: bool): nat {
    if b then 1 else 0
  }

  /** How many results report an item of kind k. */
  function CountOf(k: Kind, results: seq<Result>): nat {
    if results == [] then 0 else One(results[0].Found? && results[0].item.kind == k) + CountOf(k, results[1..])
  }

  function Opens(items: seq<ShortItem>): nat {
    if items == [] then 0 else One(IsOpen(items[0])) + Opens(items[1..])
  }

  function Closes(items: seq<ShortItem>): nat {
    if items == [] then 0 else One(IsClose(items[0])) + Closes(items[1..])
  }

  /** How many End Collection items find a collection kept back. */
  function Swallowed(kinds: set<Kind>, ps: Parser, items: seq<ShortItem>): nat
    requires AllDefined(kinds, ps, items)
    decreases |items|
  {
    if items == [] then 0 else
      One(IsClose(items[0]) && ps.pending.Some?) + Swallowed(kinds, Apply(kinds, ps, items[0]).ps, items[1..])
  }

  predicate KeptIsCollection(ps: Parser) {
    ps.pending.Some? ==> ps.pending.value.kind == Collection
  }

  lemma KeptByField(kinds: set<Kind>, ps: Parser, k: Kind, value: nat)
    requires FieldDefined(kinds, ps, k, value)
    ensures MainField(kinds, ps, k, value).ps.pending
      == if k in kinds && IsVariable(value) && ps.cur.reportCount != 0 then None else ps.pending
  {
    hide UsagesOf, VariableItems, VariableAt, FixedMinimum, Report, Cleared, Advance;
  }

  lemma KeptByOthers(ps: Parser, s: ShortItem)
    requires s.value < TWO32 && (s.tag == 11 ==> ps.stack != [])
    ensures GlobalItem(ps, s).ps.pending == ps.pending
  {
  }

  /**
   A collection is kept back after an item exactly if the item opens one, or one was kept back before
   and the item neither ends a collection nor is a wanted variable field that is not empty.
   */
  lemma KeptBackStep(kinds: set<Kind>, ps: Parser, s: ShortItem)
    requires Defined(kinds, ps, s)
    ensures Apply(kinds, ps, s).ps.pending.Some?
      <==> IsOpen(s) || (ps.pending.Some? && !IsClose(s) && !ReportsKept(kinds, ps, s))
    ensures KeptIsCollection(ps) ==> KeptIsCollection(Apply(kinds, ps, s).ps)
  {
    hide MainField, GlobalItem, FieldDefined;
    match s.itype {
      case 0 =>
        if s.tag in {8, 9, 11} {
          KeptByField(kinds, ps, FieldKind(s.tag), s.value);
        }
      case 1 => KeptByOthers(ps, s);
      case _ =>
    }
  }

  lemma {:induction false} CountAppend(k: Kind, s: seq<Result>, t: seq<Result>)
    ensures CountOf(k, s + t) == CountOf(k, s) + CountOf(k, t)
  {
    if s == [] {
      assert s + t == t;
    } else {
      assert (s + t)[0] == s[0] && (s + t)[1..] == s[1..] + t;
      CountAppend(k, s[1..], t);
    }
  }

  lemma {:induction false} NoneAmongItems(k: Kind, c: Item, usages: seq<nat>, j: nat, n: int, at: Positions)
    requires c.kind != k && (j < n ==> usages != [])
    ensures CountOf(k, VariableItems(c, usages, j, n, at)) == 0
    decreases n - j
  {
    if j < n {
      var next := Advance(at, c.kind, c.reportSize);
      NoneAmongItems(k, c, usages, j + 1, n, next);
      CountAppend(k, [VariableItem(c, usages, j, at)], VariableItems(c, usages, j + 1, n, next));
    }
  }

  /** A field reports no collection but the one kept back. */
  lemma FieldCounts(kinds: set<Kind>, ps: Parser, k: Kind, value: nat)
    requires IsData(k) && FieldDefined(kinds, ps, k, value) && KeptIsCollection(ps)
    ensures var out := MainField(kinds, ps, k, value);
      && CountOf(Collection, out.results) == One(ps.pending.Some? && out.ps.pending.None?)
      && CountOf(EndCollection, out.results) == 0
  {
    hide UsagesOf, VariableItems, VariableAt;
    if k in kinds && IsVariable(value) && ps.cur.reportCount != 0 {
      var c := ps.cur.(kind := k, flags := value);
      var c1 := c.(reportCount := 1,
                   locals := if ps.minSet then c.locals.(usageMin := 0, usageMax := 0) else c.locals);
      var c2 := FixedMinimum(c1, ps.logMinSize);
      var items := VariableItems(c2, UsagesOf(ps), 0, ps.cur.reportCount, ps.at);
      NoneAmongItems(Collection, c2, UsagesOf(ps), 0, ps.cur.reportCount, ps.at);
      NoneAmongItems(EndCollection, c2, UsagesOf(ps), 0, ps.cur.reportCount, ps.at);
      CountAppend(Collection, Report(ps.pending, c.reportId), items);
      CountAppend(EndCollection, Report(ps.pending, c.reportId), items);
    }
  }

  /** What one item adds to the two counts. */
  lemma StepCounts(kinds: set<Kind>, ps: Parser, s: ShortItem)
    requires Defined(kinds, ps, s) && KeptIsCollection(ps)
    ensures var out := Apply(kinds, ps, s);
      && CountOf(Collection, out.results) + One(out.ps.pending.Some?) == One(ps.pending.Some?) + One(IsOpen(s))
      && CountOf(EndCollection, out.results) == One(IsClose(s) && ps.pending.None?)
  {
    hide MainField, LocalItem, GlobalItem, FieldDefined;
    KeptBackStep(kinds, ps, s);
    match s.itype {
      case 0 =>
        if s.tag in {8, 9, 11} {
          FieldCounts(kinds, ps, FieldKind(s.tag), s.value);
        }
      case 1 => GlobalCounts(ps, s);
      case 2 => LocalCounts(ps, s);
      case _ =>
    }
  }

  lemma GlobalCounts(ps: Parser, s: ShortItem)
    requires s.value < TWO32 && (s.tag == 11 ==> ps.stack != [])
    ensures forall k :: CountOf(k, GlobalItem(ps, s).results) == 0
  {
  }

  lemma LocalCounts(ps: Parser, s: ShortItem)
    requires s.value < TWO32 && ps.cur.usagePage < TWO32
    ensures forall k :: CountOf(k, LocalItem(ps, s).results) == 0
  {
    hide Or32, Signed32;
  }

  /** Every opened collection is reported once, sooner or later; End Collections are reported unless swallowed. */
  lemma {:induction false} CollectionsConserved(kinds: set<Kind>, ps: Parser, items: seq<ShortItem>)
    requires AllDefined(kinds, ps, items) && KeptIsCollection(ps)
    ensures var results := ResultsAll(kinds, ps, items);
      && CountOf(Collection, results) + One(ApplyAll(kinds, ps, items).pending.Some?)
         == One(ps.pending.Some?) + Opens(items)
      && CountOf(EndCollection, results) + Swallowed(kinds, ps, items) == Closes(items)
    decreases |items|
  {
    hide Apply, Defined;
    if items != [] {
      var out := Apply(kinds, ps, items[0]);
      KeptBackStep(kinds, ps, items[0]);
      StepCounts(kinds, ps, items[0]);
      CollectionsConserved(kinds, out.ps, items[1..]);
      CountAppend(Collection, out.results, ResultsAll(kinds, out.ps, items[1..]));
      CountAppend(EndCollection, out.results, ResultsAll(kinds, out.ps, items[1..]));
    }
  }

  /**
   For a descriptor that ends the collections it opens, and ends in the last of them, as many
   collections as End Collections are reported if and only if no End Collection found its collection
   still kept back.
   */
  lemma CollectionsPairIff(kinds: set<Kind>, bytes: seq<Byte>)
    requires WellFormed(kinds, START, bytes, 0) && AllShort(bytes, 0)
    requires var items := ItemsOf(bytes, 0);
      Opens(items) == Closes(items) && items != [] && IsClose(items[|items| - 1])
    ensures var results := Interpret(kinds, START, bytes, 0);
      AllDefined(kinds, START, ItemsOf(bytes, 0)) &&
      (CountOf(Collection, results) == CountOf(EndCollection, results)
       <==> Swallowed(kinds, START, ItemsOf(bytes, 0)) == 0)
  {
    hide Interpret, WellFormed, ItemsOf, AllShort, ResultsAll, Swallowed, Apply, Defined;
    var items := ItemsOf(bytes, 0);
    InterpretItems(kinds, START, bytes, 0);
    CollectionsConserved(kinds, START, items);
    NothingKeptAtEnd(kinds, START, items);
  }

  lemma {:induction false} NothingKeptAtEnd(kinds: set<Kind>, ps: Parser, items: seq<ShortItem>)
    requires AllDefined(kinds, ps, items) && items != [] && IsClose(items[|items| - 1])
    ensures ApplyAll(kinds, ps, items).pending.None?
  {
    hide Apply, Defined;
    var last := |items| - 1;
    assert items == items[..last] + [items[last]];
    ApplyAppend(kinds, ps, items[..last], items[last]);
    KeptBackStep(kinds, ApplyAll(kinds, ps, items[..last]), items[last]);
  }

  /** A collection with nothing in it: it is reported, its End Collection is not. */
  lemma EmptyCollection()
    ensures var results := ResultsAll({Input}, START, [ShortItem(0, 10, 1, 1), ShortItem(0, 12, 0, 0)]);
      CountOf(Collection, results) == 1 && CountOf(EndCollection, results) == 0
  {
    var items := [ShortItem(0, 10, 1, 1), ShortItem(0, 12, 0, 0)];
    assert items[1..] == [items[1]] && items[1..][1..] == [];
    CollectionsConserved({Input}, START, items);
  }

  /** A variable field declared with report count 0, and again: the second time it is reported, of count 1. */
  lemma ZeroCountReported()
    ensures var usage, field := ShortItem(2, 0, 1, 1), ShortItem(0, 8, 1, 2);
      && AllDefined({Input}, START, [usage, field, usage, field])
      && |ResultsAll({Input}, START, [usage, field, usage, field])| == 1
  {
    hide Or32;
    var usage, field := ShortItem(2, 0, 1, 1), ShortItem(0, 8, 1, 2);
    var items := [usage, field, usage, field];
    assert items[1..] == [field, usage, field] && items[1..][1..] == [usage, field];
    assert [usage, field][1..] == [field] && [field][1..] == [];
    var ps1 := Apply({Input}, START, usage).ps;
    assert Defined({Input}, START, usage) && |ps1.usages| == 1 && Apply({Input}, START, usage).results == [];
    ZeroCountField(ps1);
    var ps2 := Apply({Input}, ps1, field).ps;
    var ps3 := Apply({Input}, ps2, usage).ps;
    assert Defined({Input}, ps2, usage) && Apply({Input}, ps2, usage).results == [] && |ps3.usages| == 2;
    OneItemField(ps3);
    var ps4 := Apply({Input}, ps3, field).ps;
    hide *;
    TwoItems({Input}, START, usage, field, [usage, field]);
    TwoItems({Input}, ps2, usage, field, []);
    assert [usage, field] + [usage, field] == items && [usage, field] + [] == [usage, field];
    NoMore({Input}, ps4);
  }

  /** Two items and what follows them. */
  lemma TwoItems(kinds: set<Kind>, ps: Parser, s: ShortItem, t: ShortItem, rest: seq<ShortItem>)
    requires Defined(kinds, ps, s) && Defined(kinds, Apply(kinds, ps, s).ps, t)
    ensures var ps1 := Apply(kinds, ps, s).ps;
      var ps2 := Apply(kinds, ps1, t).ps;
      AllDefined(kinds, ps2, rest) ==>
        && AllDefined(kinds, ps, [s, t] + rest)
        && ResultsAll(kinds, ps, [s, t] + rest)
           == Apply(kinds, ps, s).results + (Apply(kinds, ps1, t).results + ResultsAll(kinds, ps2, rest))
  {
    hide Apply, Defined;
    var items := [s, t] + rest;
    assert items[0] == s && items[1..] == [t] + rest && ([t] + rest)[0] == t && ([t] + rest)[1..] == rest;
  }

  lemma NoMore(kinds: set<Kind>, ps: Parser)
    ensures AllDefined(kinds, ps, []) && ResultsAll(kinds, ps, []) == []
  {
  }

  lemma ZeroCountField(ps: Parser)
    requires ps.cur.reportCount == 0 && ps.cur.usagePage < TWO32 && ps.usages != [] && !ps.minSet
    ensures var field := ShortItem(0, 8, 1, 2);
      && Defined({Input}, ps, field) && Apply({Input}, ps, field).results == []
      && Apply({Input}, ps, field).ps
         == ps.(cur := ps.cur.(kind := Input, flags := 2, reportCount := 1), minSet := false)
  {
  }

  lemma OneItemField(ps: Parser)
    requires ps.cur.reportCount == 1 && ps.cur.usagePage < TWO32 && ps.usages != [] && !ps.minSet && ps.pending == None
    ensures var field := ShortItem(0, 8, 1, 2);
      Defined({Input}, ps, field) && |Apply({Input}, ps, field).results| == 1
  {
  }
}
