/** What the parse of a descriptor amounts to: fields that tile their report, report sizes, Push and Pop. */
module HidTheorems {
  import opened HidReference
  import opened HidParse
  import opened HidLayout

  // ----- variable fields

  /** A variable field of n reports is n items side by side; the j-th takes the j-th usage, or the last. */
  lemma {:induction false} VariableFieldItem(c: Item, usages: seq<nat>, i: nat, n: nat, at: Positions, j: nat)
    requires IsData(c.kind) && usages != [] && i <= j < n && PosOf(at, c.kind) < TWO32
    ensures var items := VariableItems(c, usages, i, n, at);
      && |items| == n - i
      && items[j - i] == Found(WithUsage(c, usages[if j < |usages| then j else |usages| - 1])
                                 .(pos := Wrap32(PosOf(at, c.kind) + (j - i) * c.reportSize)))
    decreases n - i
  {
    hide *;
    var at' := Advance(at, c.kind, c.reportSize);
    FirstItem(c, usages, i, n, at);
    if i < j {
      VariableFieldItem(c, usages, i + 1, n, at', j);
      WrapStep(PosOf(at, c.kind), c.reportSize, j - i - 1);
    } else {
      VariableCount(c, usages, i + 1, n, at');
      assert Wrap32(PosOf(at, c.kind) + (j - i) * c.reportSize) == PosOf(at, c.kind) by {
        NoWrap(PosOf(at, c.kind), c.reportSize);
      }
    }
  }

  /** The first item of a row, and where the next one is put. */
  lemma FirstItem(c: Item, usages: seq<nat>, i: nat, n: nat, at: Positions)
    requires IsData(c.kind) && usages != [] && i < n
    ensures var at' := Advance(at, c.kind, c.reportSize);
      && VariableItems(c, usages, i, n, at)
         == [VariableItem(c, usages, i, at)] + VariableItems(c, usages, i + 1, n, at')
      && PosOf(at', c.kind) == Wrap32(PosOf(at, c.kind) + c.reportSize) < TWO32
      && VariableItem(c, usages, i, at)
         == Found(WithUsage(c, usages[if i < |usages| then i else |usages| - 1]).(pos := PosOf(at, c.kind)))
  {
  }

  lemma {:induction false} VariableCount(c: Item, usages: seq<nat>, i: nat, n: nat, at: Positions)
    requires i <= n && (i < n ==> usages != [])
    ensures |VariableItems(c, usages, i, n, at)| == n - i
    decreases n - i
  {
    hide VariableItem, Advance;
    if i < n {
      VariableCount(c, usages, i + 1, n, Advance(at, c.kind, c.reportSize));
    }
  }

  lemma NoWrap(pos: nat, size: int)
    requires pos < TWO32
    ensures Wrap32(pos + 0 * size) == pos
  {
  }

  lemma WrapStep(pos: nat, size: int, k: nat)
    ensures Wrap32(Wrap32(pos + size) + k * size) == Wrap32(pos + (k + 1) * size)
  {
    assert pos + (k + 1) * size == pos + size + k * size;
    WrapTwice(pos + size, k * size);
  }

  lemma WrapTwice(x: int, y: int)
    ensures Wrap32(Wrap32(x) + y) == Wrap32(x + y)
  {
  }

  // ----- the fields tile the report

  /** y begins where x ends, or at zero if it belongs to a later section. */
  predicate Follows(x: Placed, y: Placed) {
    && x.section <= y.section
    && y.slot.pos == if y.section == x.section then Wrap32(x.slot.pos + x.slot.bits) else 0
  }

  /** Slots of one section follow each other without gap or overlap; a new section starts at zero. */
  predicate Tiles(s: seq<Placed>) {
    forall i :: 0 < i < |s| ==> Follows(s[i - 1], s[i])
  }

  /** How a layout read from r starts. */
  predicate StartsAt(s: seq<Placed>, r: Reader) {
    s != [] ==> r.section <= s[0].section && s[0].slot.pos == if s[0].section == r.section then r.at else 0
  }

  /** The slots of one item, and the reader after them, continue from r. */
  predicate Continues(s: seq<Placed>, r: Reader, r': Reader) {
    && (forall i :: 0 <= i < |s| ==> s[i].section == r.section)
    && Tiles(s) && StartsAt(s, r)
    && (s == [] && r'.section == r.section ==> r'.at == r.at)
    && (s != [] ==> r'.section == r.section && r'.at == Wrap32(s[|s| - 1].slot.pos + s[|s| - 1].slot.bits))
    && (r'.section != r.section ==> r'.section > r.section && r'.at == 0)
  }

  lemma {:induction false} RowContinues(r: Reader, n: int)
    ensures Continues(Row(r, n), r, AfterRow(r, n))
    decreases n
  {
    if n > 0 {
      RowContinues(r.(at := Wrap32(r.at + r.now.size)), n - 1);
    }
  }

  lemma ItemContinues(k: Kind, r: Reader, s: ShortItem)
    requires IsData(k) && s.value < TWO32
    ensures Continues(Slots(k, r, s), r, ReadItem(k, r, s))
  {
    if IsField(k, s) && IsVariable(s.value) {
      RowContinues(r, r.now.count);
    }
  }

  /** The last slot of one item is followed by the first slot of the rest. */
  lemma Seam(s: seq<Placed>, t: seq<Placed>, r: Reader, r': Reader)
    requires Continues(s, r, r') && StartsAt(t, r') && s != [] && t != []
    ensures Follows(s[|s| - 1], t[0])
  {
    hide Wrap32;
  }

  lemma TilesAppend(s: seq<Placed>, t: seq<Placed>, r: Reader, r': Reader)
    requires Continues(s, r, r') && Tiles(t) && StartsAt(t, r')
    ensures Tiles(s + t) && StartsAt(s + t, r)
  {
    hide Follows, Wrap32;
    if s != [] && t != [] {
      Seam(s, t, r, r');
    }
    var u := s + t;
    forall i | 0 < i < |u|
      ensures Follows(u[i - 1], u[i])
    {
      assert i < |s| ==> Follows(s[i - 1], s[i]);
      assert i > |s| ==> Follows(t[i - |s| - 1], t[i - |s|]);
    }
    assert s == [] ==> u == t;
  }

  /**
   Between two Report ID items the fields of one kind tile the report: each begins where the one
   before it ends, and the first after a Report ID begins at bit 0.
   */
  lemma {:induction false} LayoutTiles(k: Kind, r: Reader, bytes: seq<Byte>, p: nat)
    requires IsData(k) && AllShort(bytes, p)
    ensures Tiles(Layout(k, r, bytes, p)) && StartsAt(Layout(k, r, bytes, p), r)
    decreases |bytes| - p
  {
    hide Continues, ReadItem, Slots, ItemAt;
    if p < |bytes| {
      var s, q := ItemAt(bytes, p), p + 1 + DataSize(bytes[p]);
      LayoutTiles(k, ReadItem(k, r, s), bytes, q);
      ItemContinues(k, r, s);
      TilesAppend(Slots(k, r, s), Layout(k, ReadItem(k, r, s), bytes, q), r, ReadItem(k, r, s));
    }
  }

  /** The bits of the slots of slot i's section, up to and including slot i. */
  function BitsUpTo(s: seq<Placed>, i: nat): int
    requires i < |s|
  {
    s[i].slot.bits + if i > 0 && s[i - 1].section == s[i].section then BitsUpTo(s, i - 1) else 0
  }

  /** Each slot ends at the sum of the sizes of the fields of its section so far. */
  lemma {:induction false} SlotEndsAtSum(s: seq<Placed>, i: nat)
    requires i < |s| && Tiles(s) && s[0].slot.pos == 0
    ensures Wrap32(s[i].slot.pos + s[i].slot.bits) == Wrap32(BitsUpTo(s, i))
  {
    if i > 0 && s[i - 1].section == s[i].section {
      SlotEndsAtSum(s, i - 1);
      WrapTwice(s[i - 1].slot.pos + s[i - 1].slot.bits, s[i].slot.bits);
      WrapTwice(BitsUpTo(s, i - 1), s[i].slot.bits);
    }
  }

  /**
   What the parser returns for one kind tiles the report: item i lies right behind item i - 1, or at
   bit 0 if a Report ID item came between, and ends at the sum of the sizes since that Report ID.
   */
  lemma ResultsTile(kinds: set<Kind>, k: Kind, bytes: seq<Byte>)
    requires IsData(k) && k in kinds && WellFormed(kinds, START, bytes, 0) && NoEmptyField(kinds, START, bytes, 0)
    ensures AllShort(bytes, 0)
    ensures var slots, s := SlotsOf(k, Interpret(kinds, START, bytes, 0)), Layout(k, FIRST, bytes, 0);
      && |slots| == |s|
      && forall i :: 0 <= i < |slots| ==>
           && slots[i].pos == (if i > 0 && s[i - 1].section == s[i].section
                               then Wrap32(slots[i - 1].pos + slots[i - 1].bits) else 0)
           && Wrap32(slots[i].pos + slots[i].bits) == Wrap32(BitsUpTo(s, i))
  {
    hide Interpret, Layout, WellFormed, NoEmptyField, AllShort, SlotsOf, BitsUpTo, Wrap32, Agree;
    StartAgrees(k);
    ResultsFollowLayout(kinds, k, START, FIRST, bytes, 0);
    LayoutTiles(k, FIRST, bytes, 0);
    var s := Layout(k, FIRST, bytes, 0);
    StartsAtZero(s);
    forall i | 0 <= i < |s|
      ensures s[i].slot.pos == if i > 0 && s[i - 1].section == s[i].section
                               then Wrap32(s[i - 1].slot.pos + s[i - 1].slot.bits) else 0
      ensures Wrap32(s[i].slot.pos + s[i].slot.bits) == Wrap32(BitsUpTo(s, i))
    {
      assert i > 0 ==> Follows(s[i - 1], s[i]);
      SlotEndsAtSum(s, i);
    }
  }

  // ----- report sizes

  /** Where the last slot of the report ends; `otherwise` if it has none. */
  function EndOf(id: int, slots: seq<Slot>, otherwise: nat): (end: nat)
    requires otherwise < TWO32
    ensures end < TWO32
  {
    if slots == [] then otherwise
    else EndOf(id, slots[1..], if slots[0].id == id then Wrap32(slots[0].pos + slots[0].bits) else otherwise)
  }

  predicate NoneBad(results: seq<Result>) {
    forall i :: 0 <= i < |results| ==> results[i].Found?
  }

  /** C division truncates toward zero. */
  function BytesFor(bits: nat): int
    requires bits < TWO32
  {
    var n := Signed32(bits) + 7;
    if n >= 0 then n / 8 else -(-n / 8)
  }

  predicate IsWanted(id: int, result: Result) {
    result.Bad? || result.item.reportId == id || id == -1
  }

  /** One more reported item moves the end if it is a field of the report. */
  lemma EndOfFirst(k: Kind, id: int, results: seq<Result>, otherwise: nat)
    requires results != [] && otherwise < TWO32
    ensures var h := results[0];
      EndOf(id, SlotsOf(k, results), otherwise)
      == EndOf(id, SlotsOf(k, results[1..]),
               if h.Found? && h.item.kind == k && h.item.reportId == id
               then Wrap32(h.item.pos + h.item.reportSize * h.item.reportCount) else otherwise)
  {
    var h, rest := results[0], SlotsOf(k, results[1..]);
    if h.Found? && h.item.kind == k {
      assert SlotsOf(k, results) == [SlotOf(h.item)] + rest;
      assert ([SlotOf(h.item)] + rest)[1..] == rest;
    } else {
      assert SlotsOf(k, results) == rest;
    }
  }

  lemma {:induction false} OnlyWantedCount(k: Kind, id: int, results: seq<Result>, otherwise: nat)
    requires otherwise < TWO32
    ensures EndOf(id, SlotsOf(k, Wanted(id, results)), otherwise) == EndOf(id, SlotsOf(k, results), otherwise)
  {
    if results != [] {
      var h := results[0];
      var now := if h.Found? && h.item.kind == k && h.item.reportId == id
                 then Wrap32(h.item.pos + h.item.reportSize * h.item.reportCount) else otherwise;
      EndOfFirst(k, id, results, otherwise);
      OnlyWantedCount(k, id, results[1..], now);
      if IsWanted(id, h) {
        assert Wanted(id, results) == [h] + Wanted(id, results[1..]);
        EndOfFirst(k, id, Wanted(id, results), otherwise);
      } else {
        assert Wanted(id, results) == Wanted(id, results[1..]);
      }
    }
  }

  lemma {:induction false} WantedGood(id: int, results: seq<Result>)
    requires NoneBad(results)
    ensures NoneBad(Wanted(id, results))
  {
    if results != [] {
      WantedGood(id, results[1..]);
    }
  }

  lemma EndOfNothing(k: Kind, id: int, otherwise: nat)
    requires otherwise < TWO32
    ensures EndOf(id, SlotsOf(k, []), otherwise) == otherwise
  {
  }

  /** The position counter right after an item of the report and kind, as it stood before otherwise. */
  method Measured(d: HidData, h: Item, k: Kind, id: int, bits: nat) returns (end: nat)
    requires IsData(k) && d.At(h) && bits < TWO32
    ensures end == if h.kind == k && h.reportId == id then Wrap32(h.pos + h.reportSize * h.reportCount) else bits
    ensures end < TWO32
  {
    if h.reportId == id && h.kind == k {
      end := PosOf(d.kindpos, k);
    } else {
      end := bits;
    }
  }

  /** hid_report_size: the end of the last field of the report, in whole bytes. */
  method ReportSize(bytes: seq<Byte>, k: Kind, id: int) returns (size: int)
    requires IsData(k) && WellFormed({k}, START, bytes, 0) && NoneBad(Interpret({k}, START, bytes, 0))
    ensures size == BytesFor(EndOf(id, SlotsOf(k, Interpret({k}, START, bytes, 0)), 0))
  {
    hide Interpret, WellFormed, HidData.Valid, HidData.Rest, HidData.At, Wanted, SlotsOf, EndOf, Wrap32, BytesFor;
    ghost var all := Interpret({k}, START, bytes, 0);
    var bits: nat := 0;
    var d := new HidData(bytes, {k}, id);
    ghost var rest := Wanted(id, d.Rest());
    WantedGood(id, all);
    var r := d.GetItem();
    while r.Some?
      invariant d.Valid() && fresh(d) && fresh(d.usages) && d.reportId == id && bits < TWO32
      invariant NoneBad(rest) && EndOf(id, SlotsOf(k, rest), bits) == EndOf(id, SlotsOf(k, Wanted(id, all)), 0)
      invariant r.None? ==> rest == []
      invariant r.Some? ==> rest == [r.value] + Wanted(id, d.Rest())
      invariant r.Some? && r.value.Found? ==> d.At(r.value.item)
      decreases |rest|
    {
      assert rest[0] == r.value && rest[1..] == Wanted(id, d.Rest());
      EndOfFirst(k, id, rest, bits);
      bits := Measured(d, r.value.item, k, id, bits);
      rest := rest[1..];
      r := d.GetItem();
    }
    EndOfNothing(k, id, bits);
    OnlyWantedCount(k, id, all, 0);
    size := BytesFor(bits);
  }

  /** The total size of the fields of the report. */
  function TotalBits(id: int, s: seq<Placed>): int {
    if s == [] then 0
    else TotalBits(id, s[..|s| - 1]) + if s[|s| - 1].slot.id == id then s[|s| - 1].slot.bits else 0
  }

  /** The fields of the report, and no others of the kind, make up one section. */
  predicate OneSection(id: int, s: seq<Placed>, section: nat) {
    forall i :: 0 <= i < |s| ==> (s[i].slot.id == id <==> s[i].section == section)
  }

  lemma {:induction false} EndOfAppend(id: int, s: seq<Slot>, x: Slot, otherwise: nat)
    requires otherwise < TWO32
    ensures EndOf(id, s + [x], otherwise) == if x.id == id then Wrap32(x.pos + x.bits) else EndOf(id, s, otherwise)
  {
    if s == [] {
      assert s + [x] == [x];
    } else {
      assert (s + [x])[1..] == s[1..] + [x];
      EndOfAppend(id, s[1..], x, if s[0].id == id then Wrap32(s[0].pos + s[0].bits) else otherwise);
    }
  }

  lemma {:induction false} SectionSum(id: int, s: seq<Placed>, section: nat, i: nat)
    requires i < |s| && Tiles(s) && OneSection(id, s, section) && s[i].section == section
    ensures BitsUpTo(s, i) == TotalBits(id, s[..i + 1])
    decreases i
  {
    assert s[..i + 1][..i] == s[..i];
    if i > 0 && s[i - 1].section == section {
      SectionSum(id, s, section, i - 1);
    } else {
      NothingBefore(id, s, section, i);
    }
  }

  lemma {:induction false} NothingBefore(id: int, s: seq<Placed>, section: nat, i: nat)
    requires i < |s| && Tiles(s) && OneSection(id, s, section) && (i > 0 ==> s[i - 1].section < section)
    ensures TotalBits(id, s[..i]) == 0
    decreases i
  {
    if i > 0 {
      assert s[..i][..i - 1] == s[..i - 1];
      NothingBefore(id, s, section, i - 1);
    }
  }

  /** The end of the last field of a report that is one section is the total size of its fields. */
  lemma {:induction false} EndIsTotal(id: int, s: seq<Placed>, section: nat, n: nat)
    requires n <= |s| && Tiles(s) && (s != [] ==> s[0].slot.pos == 0) && OneSection(id, s, section)
    ensures EndOf(id, Unplaced(s[..n]), 0) == Wrap32(TotalBits(id, s[..n]))
  {
    if n > 0 {
      assert s[..n] == s[..n - 1] + [s[n - 1]] && s[..n][..n - 1] == s[..n - 1];
      UnplacedAppend(s[..n - 1], [s[n - 1]]);
      assert Unplaced([s[n - 1]]) == [s[n - 1].slot];
      EndOfAppend(id, Unplaced(s[..n - 1]), s[n - 1].slot, 0);
      EndIsTotal(id, s, section, n - 1);
      if s[n - 1].slot.id == id {
        SlotEndsAtSum(s, n - 1);
        SectionSum(id, s, section, n - 1);
      }
    }
  }

  /**
   What hid_report_size computes for a report whose fields are one section of the descriptor: the
   sum of Report Size times Report Count over its fields, rounded up to whole bytes.
   */
  lemma ReportSizeIsTotal(bytes: seq<Byte>, k: Kind, id: int, section: nat)
    requires IsData(k) && WellFormed({k}, START, bytes, 0) && NoEmptyField({k}, START, bytes, 0)
    requires AllShort(bytes, 0) && OneSection(id, Layout(k, FIRST, bytes, 0), section)
    requires 0 <= TotalBits(id, Layout(k, FIRST, bytes, 0)) < 0x7fff_fff8
    ensures var total := TotalBits(id, Layout(k, FIRST, bytes, 0));
      var size := BytesFor(EndOf(id, SlotsOf(k, Interpret({k}, START, bytes, 0)), 0));
      total <= 8 * size < total + 8
  {
    hide Interpret, Layout, WellFormed, NoEmptyField, AllShort, Tiles, StartsAt, Agree, SlotsOf, EndOf,
         TotalBits, OneSection;
    var s := Layout(k, FIRST, bytes, 0);
    StartAgrees(k);
    ResultsFollowLayout({k}, k, START, FIRST, bytes, 0);
    LayoutTiles(k, FIRST, bytes, 0);
    StartsAtZero(s);
    EndIsTotal(id, s, section, |s|);
    assert s[..|s|] == s;
  }

  lemma StartAgrees(k: Kind)
    requires IsData(k)
    ensures Agree(k, START, FIRST)
  {
  }

  lemma StartsAtZero(s: seq<Placed>)
    requires StartsAt(s, FIRST)
    ensures s != [] ==> s[0].slot.pos == 0
  {
  }

  /** A field leaves Report Count as it found it, unless it is a wanted variable field of count 0: that leaves 1. */
  lemma CountRestored(kinds: set<Kind>, ps: Parser, k: Kind, value: nat)
    requires FieldDefined(kinds, ps, k, value)
    ensures var count := MainField(kinds, ps, k, value).ps.cur.reportCount;
      && (count == ps.cur.reportCount <==> !(k in kinds && IsVariable(value) && ps.cur.reportCount == 0))
      && (count != ps.cur.reportCount ==> count == 1)
  {
    hide UsagesOf, VariableItems, VariableAt;
  }

  // ----- Push and Pop

  predicate IsPush(s: ShortItem) {
    s.itype == 1 && s.tag == 10
  }

  predicate IsPop(s: ShortItem) {
    s.itype == 1 && s.tag == 11
  }

  predicate AllDefined(kinds: set<Kind>, ps: Parser, items: seq<ShortItem>)
    decreases |items|
  {
    items == [] || (Defined(kinds, ps, items[0]) && AllDefined(kinds, Apply(kinds, ps, items[0]).ps, items[1..]))
  }

  function ApplyAll(kinds: set<Kind>, ps: Parser, items: seq<ShortItem>): Parser
    requires AllDefined(kinds, ps, items)
    decreases |items|
  {
    if items == [] then ps else ApplyAll(kinds, Apply(kinds, ps, items[0]).ps, items[1..])
  }

  /** Every Pop has its Push among the items, `open` of them being open at the start, and none is open at the end. */
  predicate Nested(items: seq<ShortItem>, open: nat) {
    if items == [] then open == 0
    else if IsPush(items[0]) then Nested(items[1..], open + 1)
    else if IsPop(items[0]) then open > 0 && Nested(items[1..], open - 1)
    else Nested(items[1..], open)
  }

  /** Only Push and Pop touch the stack. */
  lemma StackStep(kinds: set<Kind>, ps: Parser, s: ShortItem)
    requires Defined(kinds, ps, s)
    ensures Apply(kinds, ps, s).ps.stack
         == if IsPush(s) then [ps.cur] + ps.stack else if IsPop(s) then ps.stack[1..] else ps.stack
    ensures IsPop(s) ==> Apply(kinds, ps, s).ps.cur == ps.stack[0]
  {
    hide UsagesOf, VariableItems, VariableAt, Or32;
  }

  lemma {:induction false} NestedKeepsStack(kinds: set<Kind>, ps: Parser, items: seq<ShortItem>, open: nat)
    requires AllDefined(kinds, ps, items) && Nested(items, open) && open <= |ps.stack|
    ensures ApplyAll(kinds, ps, items).stack == ps.stack[open..]
    decreases |items|
  {
    if items != [] {
      StackStep(kinds, ps, items[0]);
      var next := Apply(kinds, ps, items[0]).ps;
      var open' := if IsPush(items[0]) then open + 1 else if IsPop(items[0]) then open - 1 else open;
      NestedKeepsStack(kinds, next, items[1..], open');
    }
  }

  lemma {:induction false} ApplyAppend(kinds: set<Kind>, ps: Parser, items: seq<ShortItem>, last: ShortItem)
    requires AllDefined(kinds, ps, items + [last])
    ensures AllDefined(kinds, ps, items) && Defined(kinds, ApplyAll(kinds, ps, items), last)
    ensures ApplyAll(kinds, ps, items + [last]) == Apply(kinds, ApplyAll(kinds, ps, items), last).ps
    decreases |items|
  {
    hide Apply, Defined;
    if items == [] {
      assert items + [last] == [last] && [last][1..] == [];
    } else {
      assert (items + [last])[0] == items[0] && (items + [last])[1..] == items[1..] + [last];
      ApplyAppend(kinds, Apply(kinds, ps, items[0]).ps, items[1..], last);
    }
  }

  /** Push, any properly nested items, Pop: the item state is what it was, whatever came between. */
  lemma PushPopRestores(kinds: set<Kind>, ps: Parser, items: seq<ShortItem>, push: ShortItem, pop: ShortItem)
    requires IsPush(push) && IsPop(pop) && Nested(items, 0)
    requires AllDefined(kinds, ps, [push] + items + [pop])
    ensures var after := ApplyAll(kinds, ps, [push] + items + [pop]);
      after.cur == ps.cur && after.stack == ps.stack
  {
    hide Apply, Defined;
    var all := [push] + items;
    ApplyAppend(kinds, ps, all, pop);
    assert all[0] == push && all[1..] == items;
    var pushed := Apply(kinds, ps, push).ps;
    StackStep(kinds, ps, push);
    NestedKeepsStack(kinds, pushed, items, 0);
    StackStep(kinds, ApplyAll(kinds, ps, all), pop);
  }
}
