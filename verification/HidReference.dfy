/**
 What a HID report descriptor says: the stream of short items of section 6.2.2 of the USB HID 1.11
 class definition, and the results a parse of them reports, each main item expanded at once.
 */
module HidReference {
  import opened Wrappers

  type Byte = x: nat | x < 256

  datatype Kind = Input | Output | Feature | Collection | EndCollection

  /** hid_item_t without its link; positions and usages are unsigned, the other numbers signed. */
  datatype Item = Item(usagePage: nat, logMin: int, logMax: int, physMin: int, physMax: int, unitExponent: int,
                       unit: int, reportSize: int, reportId: int, reportCount: int, locals: Locals,
                       collection: int, level: int, kind: Kind, flags: nat, pos: nat)

  /** The fields that hid_clear_local resets. */
  datatype Locals = Locals(usage: nat, usageMin: nat, usageMax: nat, designator: int, designatorMin: int,
                           designatorMax: int, text: int, textMin: int, textMax: int, delimiter: int)

  const NO_LOCALS := Locals(0, 0, 0, 0, 0, 0, 0, 0, 0, 0)
  const EMPTY := Item(0, 0, 0, 0, 0, 0, 0, 0, 0, 0, NO_LOCALS, 0, 0, Input, 0, 0)

  datatype Result = Found(item: Item) | Bad(code: int)

  const MAXUSAGE: nat := 100
  const TWO32: nat := 0x1_0000_0000

  // ----- short items

  datatype ShortItem = ShortItem(itype: nat, tag: nat, size: nat, value: nat)

  function DataSize(prefix: Byte): nat {
    if prefix % 4 == 3 then 4 else prefix % 4
  }

  /** A short item starts at p and fits in the descriptor. */
  predicate ShortItemAt(bytes: seq<Byte>, p: nat) {
    p < |bytes| && bytes[p] != 0xfe && p + 1 + DataSize(bytes[p]) <= |bytes|
  }

  /** Little-endian. */
  function Value(data: seq<Byte>): (v: nat)
    requires |data| <= 4
    ensures |data| <= 2 ==> v < 0x1_0000
    ensures v < TWO32
  {
    Digit(data, 0) + 0x100 * Digit(data, 1) + 0x1_0000 * Digit(data, 2) + 0x100_0000 * Digit(data, 3)
  }

  function Digit(data: seq<Byte>, i: nat): (d: nat)
    ensures d < 256 && (i >= |data| ==> d == 0)
  {
    if i < |data| then data[i] else 0
  }

  function ItemAt(bytes: seq<Byte>, p: nat): (s: ShortItem)
    requires ShortItemAt(bytes, p)
    ensures s.size <= 4 && s.size != 3 && s.value < TWO32 && s.itype < 4 && s.tag < 16
  {
    var size := DataSize(bytes[p]);
    ShortItem(bytes[p] / 4 % 4, bytes[p] / 16, size, Value(bytes[p + 1..p + 1 + size]))
  }

  // ----- C arithmetic

  /** An unsigned 32-bit value assigned to an int. */
  function Signed32(v: nat): int
    requires v < TWO32
  {
    if v < 0x8000_0000 then v else v - TWO32
  }

  function Wrap32(v: int): nat {
    v % TWO32
  }

  /** A cast to signed char or signed short. */
  function SignedLow(v: int, size: nat): int {
    if size == 1 then (if v % 0x100 < 0x80 then v % 0x100 else v % 0x100 - 0x100)
    else if size == 2 then (if v % 0x1_0000 < 0x8000 then v % 0x1_0000 else v % 0x1_0000 - 0x1_0000)
    else v
  }

  function Or32(x: nat, y: nat): nat
    requires x < TWO32 && y < TWO32
  {
    ((x as bv32) | (y as bv32)) as nat
  }

  // ----- the parser between two items

  datatype Positions = Positions(input: nat, output: nat, feature: nat)

  function PosOf(at: Positions, k: Kind): nat {
    match k case Input => at.input case Output => at.output case Feature => at.feature case _ => 0
  }

  function Advance(at: Positions, k: Kind, bits: int): Positions {
    match k
    case Input => at.(input := Wrap32(at.input + bits))
    case Output => at.(output := Wrap32(at.output + bits))
    case Feature => at.(feature := Wrap32(at.feature + bits))
    case _ => at
  }

  predicate IsData(k: Kind) {
    k == Input || k == Output || k == Feature
  }

  datatype Parser = Parser(cur: Item, stack: seq<Item>, usages: seq<nat>, minSet: bool, logMinSize: nat,
                           pending: Option<Item>, at: Positions)

  const START := Parser(EMPTY, [], [], false, 0, None, Positions(0, 0, 0))

  function WithUsage(c: Item, usage: nat): Item {
    c.(locals := c.locals.(usage := usage))
  }

  function Cleared(c: Item): Item {
    c.(locals := NO_LOCALS)
  }

  /** REPORT_SAVED_COLL: the collection kept back until its report ID is known. */
  function Report(pending: Option<Item>, id: int): seq<Result> {
    if pending.Some? then [Found(pending.value.(reportId := id))] else []
  }

  /** The usages named by a minimum and a maximum, added while there is room for one more after them. */
  function WithRange(usages: seq<nat>, low: nat, high: nat): seq<nat>
    decreases high + 1 - low
  {
    if low > high then usages
    else WithRange(if |usages| < MAXUSAGE - 1 then usages + [low] else usages, low + 1, high)
  }

  function UsagesOf(ps: Parser): seq<nat> {
    if ps.minSet then WithRange(ps.usages, ps.cur.locals.usageMin, ps.cur.locals.usageMax) else ps.usages
  }

  /** A logical minimum not below the maximum is taken to be a sign-less encoding of a negative one. */
  function FixedMinimum(c: Item, size: nat): Item {
    if c.logMin >= c.logMax then c.(logMin := SignedLow(c.logMin, size)) else c
  }

  predicate IsVariable(flags: nat) {
    flags / 2 % 2 == 1
  }

  /** The j-th usage, or the last one when there are not so many. */
  function UsageFor(usages: seq<nat>, j: nat): nat
    requires usages != []
  {
    usages[if j < |usages| then j else |usages| - 1]
  }

  function VariableItem(c: Item, usages: seq<nat>, j: nat, at: Positions): Result
    requires usages != []
  {
    Found(WithUsage(c, UsageFor(usages, j)).(pos := PosOf(at, c.kind)))
  }

  /** The items from the j-th to the n-th of a variable field, side by side from the current position. */
  function VariableItems(c: Item, usages: seq<nat>, j: nat, n: int, at: Positions): seq<Result>
    requires j < n ==> usages != []
    decreases n - j
  {
    if j >= n then [] else
      [VariableItem(c, usages, j, at)] + VariableItems(c, usages, j + 1, n, Advance(at, c.kind, c.reportSize))
  }

  function VariableAt(at: Positions, k: Kind, size: int, n: int): Positions
    decreases n
  {
    if n <= 0 then at else VariableAt(Advance(at, k, size), k, size, n - 1)
  }

  datatype Outcome = Outcome(ps: Parser, results: seq<Result>)

  // ----- one item of each type

  /** Input, Output or Feature: the field it declares, if its kind is wanted. */
  function MainField(kinds: set<Kind>, ps: Parser, k: Kind, value: nat): Outcome
    requires FieldDefined(kinds, ps, k, value)
  {
    if k !in kinds then Outcome(ps.(usages := []), [])
    else
      var c := ps.cur.(kind := k, flags := value);
      if IsVariable(value) then
        var n, usages := c.reportCount, UsagesOf(ps);
        var c1 := c.(reportCount := 1,
                     locals := if ps.minSet then c.locals.(usageMin := 0, usageMax := 0) else c.locals);
        if n == 0 then Outcome(ps.(cur := c1, usages := usages, minSet := false), [])
        else
          var c2 := FixedMinimum(c1, ps.logMinSize);
          Outcome(ps.(cur := Cleared(c2.(reportCount := n)), usages := [], minSet := false, pending := None,
                      at := VariableAt(ps.at, k, c.reportSize, n)),
                  Report(ps.pending, c.reportId) + VariableItems(c2, usages, 0, n, ps.at))
      else
        var c1 := if ps.minSet then WithUsage(c, c.locals.usageMin) else c;
        Outcome(ps.(cur := Cleared(c1), minSet := false, at := Advance(ps.at, k, c.reportSize * c.reportCount)),
                [Found(c1.(pos := PosOf(ps.at, k)))])
  }

  /** What the C code needs not to read or write outside its usage array, nor loop for ever. */
  predicate FieldDefined(kinds: set<Kind>, ps: Parser, k: Kind, value: nat) {
    k in kinds && IsVariable(value) ==>
      && (ps.minSet ==> |ps.usages| < MAXUSAGE && ps.cur.locals.usageMax < TWO32 - 1)
      && (ps.cur.reportCount > 0 ==> UsagesOf(ps) != [])
  }

  function OpenCollection(ps: Parser, value: nat): Outcome
    requires value < TWO32
  {
    var c := ps.cur.(kind := Collection, collection := Signed32(value), level := ps.cur.level + 1);
    Outcome(ps.(cur := Cleared(c), usages := [], pending := Some(c)), Report(ps.pending, c.reportId))
  }

  /** An End Collection that finds a collection kept back reports that one and is itself forgotten. */
  function CloseCollection(ps: Parser): Outcome {
    if ps.pending.Some? then Outcome(ps.(pending := None), Report(ps.pending, ps.cur.reportId))
    else
      var c := ps.cur.(kind := EndCollection, level := ps.cur.level - 1);
      Outcome(ps.(cur := c, usages := []), [Found(c)])
  }

  function MainItem(kinds: set<Kind>, ps: Parser, tag: nat, value: nat): Outcome
    requires value < TWO32 && (tag in {8, 9, 11} ==> FieldDefined(kinds, ps, FieldKind(tag), value))
  {
    match tag
    case 8 => MainField(kinds, ps, Input, value)
    case 9 => MainField(kinds, ps, Output, value)
    case 10 => OpenCollection(ps, value)
    case 11 => MainField(kinds, ps, Feature, value)
    case 12 => CloseCollection(ps)
    case _ => Outcome(ps, [Bad(-2)])
  }

  function FieldKind(tag: nat): Kind {
    if tag == 8 then Input else if tag == 9 then Output else Feature
  }

  function GlobalItem(ps: Parser, s: ShortItem): Outcome
    requires s.value < TWO32 && (s.tag == 11 ==> ps.stack != [])
  {
    var c, v := ps.cur, Signed32(s.value);
    match s.tag
    case 0 => Outcome(ps.(cur := c.(usagePage := Wrap32(s.value * 0x1_0000))), [])
    case 1 => Outcome(ps.(cur := c.(logMin := v), logMinSize := s.size), [])
    case 2 => Outcome(ps.(cur := c.(logMax := v)), [])
    case 3 => Outcome(ps.(cur := c.(physMin := v)), [])
    case 4 => Outcome(ps.(cur := c.(physMax := v)), [])
    case 5 => Outcome(ps.(cur := c.(unitExponent := v)), [])
    case 6 => Outcome(ps.(cur := c.(unit := v)), [])
    case 7 => Outcome(ps.(cur := c.(reportSize := v)), [])
    case 8 => Outcome(ps.(cur := c.(reportId := v), at := Positions(0, 0, 0)), [])
    case 9 => Outcome(ps.(cur := c.(reportCount := v)), [])
    case 10 => Outcome(ps.(stack := [c] + ps.stack), [])
    case 11 => Outcome(ps.(cur := ps.stack[0], stack := ps.stack[1..]), [])
    case _ => Outcome(ps, [Bad(-3)])
  }

  function LocalItem(ps: Parser, s: ShortItem): Outcome
    requires s.value < TWO32 && ps.cur.usagePage < TWO32
  {
    var c, l, v := ps.cur, ps.cur.locals, Signed32(s.value);
    var full := Or32(c.usagePage, s.value);
    match s.tag
    case 0 => Outcome(ps.(cur := WithUsage(c, full),
                          usages := if |ps.usages| < MAXUSAGE then ps.usages + [full] else ps.usages), [])
    case 1 => Outcome(ps.(cur := c.(locals := l.(usageMin := full)), minSet := true), [])
    case 2 => Outcome(ps.(cur := c.(locals := l.(usageMax := full))), [])
    case 3 => Outcome(ps.(cur := c.(locals := l.(designator := v))), [])
    case 4 => Outcome(ps.(cur := c.(locals := l.(designatorMin := v))), [])
    case 5 => Outcome(ps.(cur := c.(locals := l.(designatorMax := v))), [])
    case 7 => Outcome(ps.(cur := c.(locals := l.(text := v))), [])
    case 8 => Outcome(ps.(cur := c.(locals := l.(textMin := v))), [])
    case 9 => Outcome(ps.(cur := c.(locals := l.(textMax := v))), [])
    case 10 => Outcome(ps.(cur := c.(locals := l.(delimiter := v))), [])
    case _ => Outcome(ps, [Bad(-4)])
  }

  predicate Defined(kinds: set<Kind>, ps: Parser, s: ShortItem) {
    && s.value < TWO32 && ps.cur.usagePage < TWO32
    && (s.itype == 0 && s.tag in {8, 9, 11} ==> FieldDefined(kinds, ps, FieldKind(s.tag), s.value))
    && (s.itype == 1 && s.tag == 11 ==> ps.stack != [])
  }

  function Apply(kinds: set<Kind>, ps: Parser, s: ShortItem): Outcome
    requires Defined(kinds, ps, s)
  {
    match s.itype
    case 0 => MainItem(kinds, ps, s.tag, s.value)
    case 1 => GlobalItem(ps, s)
    case 2 => LocalItem(ps, s)
    case _ => Outcome(ps, [Bad(-5)])
  }

  // ----- whole descriptors

  /** From p on the descriptor consists of short items the parser can handle. */
  predicate WellFormed(kinds: set<Kind>, ps: Parser, bytes: seq<Byte>, p: nat)
    decreases |bytes| - p
  {
    p >= |bytes|
    || (ShortItemAt(bytes, p) && Defined(kinds, ps, ItemAt(bytes, p))
        && WellFormed(kinds, Apply(kinds, ps, ItemAt(bytes, p)).ps, bytes, p + 1 + DataSize(bytes[p])))
  }

  /** Everything a parse reports from p on. */
  function Interpret(kinds: set<Kind>, ps: Parser, bytes: seq<Byte>, p: nat): seq<Result>
    requires WellFormed(kinds, ps, bytes, p)
    decreases |bytes| - p
  {
    if p >= |bytes| then []
    else
      var out := Apply(kinds, ps, ItemAt(bytes, p));
      out.results + Interpret(kinds, out.ps, bytes, p + 1 + DataSize(bytes[p]))
  }
}
