/**
 A direct reading of section 6.2.2 of the USB HID 1.11 class definition: only Report Size, Report
 Count, Report ID, Push, Pop and the main items of one kind matter, and each field follows the one
 before it.  The parser's results are proved to be laid out this way.
 */
module HidLayout {
  import opened Wrappers
  import opened HidReference

  /** Where a reported item lies in its report. */
  datatype Slot = Slot(id: int, pos: nat, bits: int)

  /** A slot and the number of Report ID items before it. */
  datatype Placed = Placed(slot: Slot, section: nat)

  datatype Globals = Globals(size: int, count: int, id: int)

  datatype Reader = Reader(now: Globals, stack: seq<Globals>, at: nat, section: nat)

  const FIRST := Reader(Globals(0, 0, 0), [], 0, 0)

  function TagOf(k: Kind): nat
    requires IsData(k)
  {
    match k case Input => 8 case Output => 9 case _ => 11
  }

  /** n slots of the same size side by side. */
  function Row(r: Reader, n: int): seq<Placed>
    decreases n
  {
    if n <= 0 then [] else
      [Placed(Slot(r.now.id, r.at, r.now.size), r.section)] + Row(r.(at := Wrap32(r.at + r.now.size)), n - 1)
  }

  function AfterRow(r: Reader, n: int): Reader
    decreases n
  {
    if n <= 0 then r else AfterRow(r.(at := Wrap32(r.at + r.now.size)), n - 1)
  }

  function ReadGlobal(r: Reader, s: ShortItem): Reader
    requires s.value < TWO32
  {
    var v := Signed32(s.value);
    match s.tag
    case 7 => r.(now := r.now.(size := v))
    case 8 => r.(now := r.now.(id := v), at := 0, section := r.section + 1)
    case 9 => r.(now := r.now.(count := v))
    case 10 => r.(stack := [r.now] + r.stack)
    case 11 => if r.stack == [] then r else r.(now := r.stack[0], stack := r.stack[1..])
    case _ => r
  }

  /** A field of the kind read: one slot for a whole array, or one for each report of a variable. */
  predicate IsField(k: Kind, s: ShortItem)
    requires IsData(k)
  {
    s.itype == 0 && s.tag == TagOf(k)
  }

  function Slots(k: Kind, r: Reader, s: ShortItem): seq<Placed>
    requires IsData(k)
  {
    if !IsField(k, s) then []
    else if IsVariable(s.value) then Row(r, r.now.count)
    else [Placed(Slot(r.now.id, r.at, r.now.size * r.now.count), r.section)]
  }

  function ReadItem(k: Kind, r: Reader, s: ShortItem): Reader
    requires IsData(k) && s.value < TWO32
  {
    if s.itype == 1 then ReadGlobal(r, s)
    else if !IsField(k, s) then r
    else if IsVariable(s.value) then AfterRow(r, r.now.count)
    else r.(at := Wrap32(r.at + r.now.size * r.now.count))
  }

  /** Every item of the rest of the descriptor is a short item that fits. */
  predicate AllShort(bytes: seq<Byte>, p: nat)
    decreases |bytes| - p
  {
    p >= |bytes| || (ShortItemAt(bytes, p) && AllShort(bytes, p + 1 + DataSize(bytes[p])))
  }

  function Layout(k: Kind, r: Reader, bytes: seq<Byte>, p: nat): seq<Placed>
    requires IsData(k) && AllShort(bytes, p)
    decreases |bytes| - p
  {
    if p >= |bytes| then [] else
      var s := ItemAt(bytes, p);
      Slots(k, r, s) + Layout(k, ReadItem(k, r, s), bytes, p + 1 + DataSize(bytes[p]))
  }

  /** Wherever a wanted variable field is declared, its report count is not zero. */
  predicate NoEmptyField(kinds: set<Kind>, ps: Parser, bytes: seq<Byte>, p: nat)
    requires WellFormed(kinds, ps, bytes, p)
    decreases |bytes| - p
  {
    p >= |bytes| ||
    var s := ItemAt(bytes, p);
    && CountNotZero(kinds, ps, s)
    && NoEmptyField(kinds, Apply(kinds, ps, s).ps, bytes, p + 1 + DataSize(bytes[p]))
  }

  // ----- the parser's results as slots

  function SlotOf(h: Item): Slot {
    Slot(h.reportId, h.pos, h.reportSize * h.reportCount)
  }

  /** A result of the kind shows one slot, any other none. */
  function Shown(k: Kind, result: Result): seq<Slot> {
    if result.Found? && result.item.kind == k then [SlotOf(result.item)] else []
  }

  /** The slots of the reported items of kind k. */
  function SlotsOf(k: Kind, results: seq<Result>): seq<Slot> {
    if results == [] then [] else Shown(k, results[0]) + SlotsOf(k, results[1..])
  }

  function Unplaced(ps: seq<Placed>): seq<Slot> {
    seq(|ps|, i requires 0 <= i < |ps| => ps[i].slot)
  }

  function GlobalsOf(c: Item): Globals {
    Globals(c.reportSize, c.reportCount, c.reportId)
  }

  /** The reader sees the same globals and position as the parser. */
  ghost predicate Agree(k: Kind, ps: Parser, r: Reader) {
    && r.now == GlobalsOf(ps.cur) && r.at == PosOf(ps.at, k)
    && |r.stack| == |ps.stack| && (forall i :: 0 <= i < |r.stack| ==> r.stack[i] == GlobalsOf(ps.stack[i]))
    && (ps.pending.Some? ==> ps.pending.value.kind == Collection)
  }

  lemma {:induction false} SlotsAppend(k: Kind, s: seq<Result>, t: seq<Result>)
    ensures SlotsOf(k, s + t) == SlotsOf(k, s) + SlotsOf(k, t)
  {
    hide SlotsOf;
    NoSlots(k);
    if s == [] {
      assert s + t == t && [] + SlotsOf(k, t) == SlotsOf(k, t);
    } else {
      assert (s + t)[0] == s[0] && (s + t)[1..] == s[1..] + t;
      FirstSlot(k, s);
      FirstSlot(k, s + t);
      SlotsAppend(k, s[1..], t);
    }
  }

  lemma NoSlots(k: Kind)
    ensures SlotsOf(k, []) == Unplaced([]) == []
  {
  }

  lemma FirstSlot(k: Kind, results: seq<Result>)
    requires results != []
    ensures SlotsOf(k, results) == Shown(k, results[0]) + SlotsOf(k, results[1..])
  {
  }

  lemma UnplacedAppend(s: seq<Placed>, t: seq<Placed>)
    ensures Unplaced(s + t) == Unplaced(s) + Unplaced(t)
  {
  }

  /** The items of a variable field of the kind read are a row of slots. */
  lemma {:induction false} VariableIsRow(k: Kind, c: Item, usages: seq<nat>, j: nat, n: int, at: Positions, r: Reader)
    requires IsData(k) && c.kind == k && c.reportCount == 1 && (j < n ==> usages != [])
    requires r.now.id == c.reportId && r.now.size == c.reportSize && r.at == PosOf(at, k)
    ensures SlotsOf(k, VariableItems(c, usages, j, n, at)) == Unplaced(Row(r, n - j))
    ensures AfterRow(r, n - j).at == PosOf(VariableAt(at, k, c.reportSize, n - j), k)
    decreases n - j
  {
    hide SlotsOf, Unplaced;
    NoSlots(k);
    if j < n {
      var at', r' := Advance(at, k, c.reportSize), r.(at := Wrap32(r.at + r.now.size));
      VariableIsRow(k, c, usages, j + 1, n, at', r');
      var rest := VariableItems(c, usages, j + 1, n, at');
      var item, slot := VariableItem(c, usages, j, at), Placed(Slot(r.now.id, r.at, r.now.size), r.section);
      SlotsAppend(k, [item], rest);
      UnplacedAppend([slot], Row(r', n - j - 1));
      OneSlot(k, item, slot);
    }
  }

  lemma OneSlot(k: Kind, result: Result, placed: Placed)
    requires result.Found? && result.item.kind == k && SlotOf(result.item) == placed.slot
    ensures SlotsOf(k, [result]) == Unplaced([placed])
  {
    NoSlots(k);
    assert [result][1..] == [];
    assert SlotsOf(k, [result]) == [SlotOf(result.item)] + SlotsOf(k, []);
    assert Unplaced([placed]) == [placed.slot];
  }

  /** The items of a variable field of another kind do not show. */
  lemma {:induction false} OtherKind(k: Kind, c: Item, usages: seq<nat>, j: nat, n: int, at: Positions)
    requires c.kind != k && (j < n ==> usages != [])
    ensures SlotsOf(k, VariableItems(c, usages, j, n, at)) == []
    decreases n - j
  {
    if j < n {
      OtherKind(k, c, usages, j + 1, n, Advance(at, c.kind, c.reportSize));
      var rest := VariableItems(c, usages, j + 1, n, Advance(at, c.kind, c.reportSize));
      SlotsAppend(k, [VariableItem(c, usages, j, at)], rest);
    }
  }

  lemma {:induction false} OtherPosition(at: Positions, k: Kind, other: Kind, size: int, n: int)
    requires k != other
    ensures PosOf(VariableAt(at, other, size, n), k) == PosOf(at, k)
    decreases n
  {
    if n > 0 {
      OtherPosition(Advance(at, other, size), k, other, size, n - 1);
    }
  }

  lemma {:induction false} AfterRowKeeps(r: Reader, n: int)
    ensures AfterRow(r, n) == r.(at := AfterRow(r, n).at)
    decreases n
  {
    if n > 0 {
      AfterRowKeeps(r.(at := Wrap32(r.at + r.now.size)), n - 1);
    }
  }

  lemma VariableAgrees(kinds: set<Kind>, k: Kind, ps: Parser, kind: Kind, value: nat, r: Reader)
    requires IsData(k) && IsData(kind) && kind in kinds && FieldDefined(kinds, ps, kind, value) && Agree(k, ps, r)
    requires IsVariable(value) && ps.cur.reportCount != 0
    ensures var out, n := MainField(kinds, ps, kind, value), ps.cur.reportCount;
      && SlotsOf(k, out.results) == (if kind == k then Unplaced(Row(r, n)) else [])
      && Agree(k, out.ps, if kind == k then AfterRow(r, n) else r)
  {
    hide UsagesOf, SlotsOf, Unplaced, Row, AfterRow, VariableItems, VariableAt, Report;
    var c, n := ps.cur.(kind := kind, flags := value), ps.cur.reportCount;
    var c1 := c.(reportCount := 1,
                 locals := if ps.minSet then c.locals.(usageMin := 0, usageMax := 0) else c.locals);
    var c2 := FixedMinimum(c1, ps.logMinSize);
    SlotsAppend(k, Report(ps.pending, c.reportId), VariableItems(c2, UsagesOf(ps), 0, n, ps.at));
    NoSlotInReport(k, ps.pending, c.reportId);
    AfterRowKeeps(r, n);
    if kind == k {
      VariableIsRow(k, c2, UsagesOf(ps), 0, n, ps.at, r);
    } else {
      OtherKind(k, c2, UsagesOf(ps), 0, n, ps.at);
      OtherPosition(ps.at, k, kind, c.reportSize, n);
    }
  }

  lemma NoSlotInReport(k: Kind, pending: Option<Item>, id: int)
    requires IsData(k) && (pending.Some? ==> pending.value.kind == Collection)
    ensures SlotsOf(k, Report(pending, id)) == []
  {
  }

  lemma ArrayAgrees(kinds: set<Kind>, k: Kind, ps: Parser, kind: Kind, value: nat, r: Reader)
    requires IsData(k) && IsData(kind) && kind in kinds && !IsVariable(value) && Agree(k, ps, r)
    ensures var out := MainField(kinds, ps, kind, value);
      var bits := r.now.size * r.now.count;
      && SlotsOf(k, out.results) == (if kind == k then [Slot(r.now.id, r.at, bits)] else [])
      && Agree(k, out.ps, if kind == k then r.(at := Wrap32(r.at + bits)) else r)
  {
  }

  lemma FieldAgrees(kinds: set<Kind>, k: Kind, ps: Parser, kind: Kind, s: ShortItem, r: Reader)
    requires IsData(k) && IsData(kind) && k in kinds && Agree(k, ps, r)
    requires s.itype == 0 && s.tag == TagOf(kind) && s.value < TWO32 && FieldDefined(kinds, ps, kind, s.value)
    requires kind in kinds && IsVariable(s.value) ==> ps.cur.reportCount != 0
    ensures var out := MainField(kinds, ps, kind, s.value);
      && SlotsOf(k, out.results) == Unplaced(Slots(k, r, s))
      && Agree(k, out.ps, ReadItem(k, r, s))
  {
    if kind in kinds {
      if IsVariable(s.value) {
        hide MainField, Agree, FieldDefined;
        CountsMatch(k, ps, r);
        VariableAgrees(kinds, k, ps, kind, s.value, r);
      } else {
        hide MainField, Agree, FieldDefined;
        ArrayAgrees(kinds, k, ps, kind, s.value, r);
      }
    }
  }

  lemma CountsMatch(k: Kind, ps: Parser, r: Reader)
    requires Agree(k, ps, r)
    ensures r.now.count == ps.cur.reportCount
  {
  }

  /** Report counts that the layout of k depends on: those of wanted variable fields. */
  predicate CountNotZero(kinds: set<Kind>, ps: Parser, s: ShortItem) {
    s.itype == 0 && s.tag in {8, 9, 11} && FieldKind(s.tag) in kinds && IsVariable(s.value) ==> ps.cur.reportCount != 0
  }

  lemma GlobalAgrees(k: Kind, ps: Parser, s: ShortItem, r: Reader)
    requires IsData(k) && s.itype == 1 && s.value < TWO32 && (s.tag == 11 ==> ps.stack != []) && Agree(k, ps, r)
    ensures SlotsOf(k, GlobalItem(ps, s).results) == [] && Agree(k, GlobalItem(ps, s).ps, ReadGlobal(r, s))
  {
  }

  lemma LocalAgrees(k: Kind, ps: Parser, s: ShortItem, r: Reader)
    requires IsData(k) && s.value < TWO32 && ps.cur.usagePage < TWO32 && Agree(k, ps, r)
    ensures SlotsOf(k, LocalItem(ps, s).results) == [] && Agree(k, LocalItem(ps, s).ps, r)
  {
    hide Or32, Signed32;
  }

  lemma CollectionAgrees(k: Kind, ps: Parser, value: nat, r: Reader)
    requires IsData(k) && value < TWO32 && Agree(k, ps, r)
    ensures SlotsOf(k, OpenCollection(ps, value).results) == [] && Agree(k, OpenCollection(ps, value).ps, r)
    ensures SlotsOf(k, CloseCollection(ps).results) == [] && Agree(k, CloseCollection(ps).ps, r)
  {
  }

  lemma ItemAgrees(kinds: set<Kind>, k: Kind, ps: Parser, s: ShortItem, r: Reader)
    requires IsData(k) && k in kinds && Agree(k, ps, r) && Defined(kinds, ps, s) && CountNotZero(kinds, ps, s)
    ensures var out := Apply(kinds, ps, s);
      && SlotsOf(k, out.results) == Unplaced(Slots(k, r, s))
      && Agree(k, out.ps, ReadItem(k, r, s))
  {
    hide MainField, Agree, FieldDefined, GlobalItem, LocalItem, OpenCollection, CloseCollection, ReadGlobal;
    match s.itype {
      case 0 =>
        if s.tag in {8, 9, 11} {
          FieldAgrees(kinds, k, ps, FieldKind(s.tag), s, r);
        } else {
          CollectionAgrees(k, ps, s.value, r);
        }
      case 1 => GlobalAgrees(k, ps, s, r);
      case 2 => LocalAgrees(k, ps, s, r);
      case _ =>
    }
  }

  /**
   The items the parser reports for one kind lie where the direct reading of the descriptor puts
   them, item for item, provided no wanted variable field has a report count of zero.
   */
  lemma {:induction false} ResultsFollowLayout(kinds: set<Kind>, k: Kind, ps: Parser, r: Reader,
                                               bytes: seq<Byte>, p: nat)
    requires IsData(k) && k in kinds && Agree(k, ps, r)
    requires WellFormed(kinds, ps, bytes, p) && NoEmptyField(kinds, ps, bytes, p)
    ensures AllShort(bytes, p)
    ensures SlotsOf(k, Interpret(kinds, ps, bytes, p)) == Unplaced(Layout(k, r, bytes, p))
    decreases |bytes| - p
  {
    hide Agree, Apply, Defined, ItemAt, ReadItem, Slots, CountNotZero;
    if p < |bytes| {
      var s, q := ItemAt(bytes, p), p + 1 + DataSize(bytes[p]);
      var out := Apply(kinds, ps, s);
      ItemAgrees(kinds, k, ps, s, r);
      ResultsFollowLayout(kinds, k, out.ps, ReadItem(k, r, s), bytes, q);
      SlotsAppend(k, out.results, Interpret(kinds, out.ps, bytes, q));
      UnplacedAppend(Slots(k, r, s), Layout(k, ReadItem(k, r, s), bytes, q));
    }
  }
}
