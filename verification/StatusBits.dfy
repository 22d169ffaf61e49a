/** The getter, setter and change-detector patterns on a 32-bit status word. */
module StatusWord {
  /** The getter pattern of the status word. */
  predicate Has(word: bv32, m: bv32) {
    Field(word, m) == m
  }

  function Field(word: bv32, m: bv32): bv32 {
    word & m
  }

  /** The setter pattern and the clearer pattern. */
  function With(word: bv32, m: bv32): bv32 {
    word | m
  }

  function Without(word: bv32, m: bv32): bv32 {
    word & !m
  }

  /** The change-detector pattern. */
  predicate Differs(word: bv32, prev: bv32, m: bv32) {
    (word ^ prev) & m == m
  }

  /** A driver that keeps the bits of `local` and replaces the others. */
  function Merged(word: bv32, update: bv32, local: bv32): bv32 {
    (word & local) | (update & !local)
  }

  predicate Apart(m: bv32, n: bv32) {
    m & n == 0
  }

  predicate Within(m: bv32, n: bv32) {
    m & n == m
  }

  /** Exactly one bit of m is set. */
  predicate PowerOfTwo(m: bv32) {
    m != 0 && m & (m - 1) == 0
  }

  lemma DiffersInOneBit(word: bv32, prev: bv32, m: bv32)
    requires PowerOfTwo(m)
    ensures Differs(word, prev, m) <==> Has(word, m) != Has(prev, m)
  {
  }

  lemma OneBitsApart(m: bv32, n: bv32)
    requires PowerOfTwo(m) && PowerOfTwo(n) && m != n
    ensures Apart(m, n)
  {
  }

  lemma MaskSelf(word: bv32, m: bv32)
    requires m != 0
    ensures Has(With(word, m), m) && !Has(Without(word, m), m)
  {
  }

  lemma WithOther(word: bv32, m: bv32, n: bv32)
    requires Apart(m, n)
    ensures Field(With(word, m), n) == Field(word, n)
  {
  }

  lemma WithoutOther(word: bv32, m: bv32, n: bv32)
    requires Apart(m, n)
    ensures Field(Without(word, m), n) == Field(word, n)
  {
  }

  lemma MergeLocal(word: bv32, update: bv32, local: bv32, m: bv32)
    requires Within(m, local)
    ensures Field(Merged(word, update, local), m) == Field(word, m)
  {
  }

  lemma MergeOther(word: bv32, update: bv32, local: bv32, m: bv32)
    requires Apart(m, local)
    ensures Field(Merged(word, update, local), m) == Field(update, m)
  {
  }
}

/** The UPS status word: one mask per flag, and what the word's setters and getters mean as a set of flags. */
module StatusBits {
  import opened StatusWord

  datatype Bit =
    | Calibration | Trim | Boost | Online | OnBatt | Overload | BattLow | ReplaceBatt
    | CommLost | Shutdown | Slave | SlaveDown | OnBattMsg | FastPoll
    | ShutLoad | ShutBtime | ShutLtime | ShutEmerg | ShutRemote | Plugged | BattPresent

  function Mask(b: Bit): bv32 {
    match b
    case Calibration => 0x00000001
    case Trim => 0x00000002
    case Boost => 0x00000004
    case Online => 0x00000008
    case OnBatt => 0x00000010
    case Overload => 0x00000020
    case BattLow => 0x00000040
    case ReplaceBatt => 0x00000080
    case CommLost => 0x00000100
    case Shutdown => 0x00000200
    case Slave => 0x00000400
    case SlaveDown => 0x00000800
    case OnBattMsg => 0x00020000
    case FastPoll => 0x00040000
    case ShutLoad => 0x00080000
    case ShutBtime => 0x00100000
    case ShutLtime => 0x00200000
    case ShutEmerg => 0x00400000
    case ShutRemote => 0x00800000
    case Plugged => 0x01000000
    case BattPresent => 0x04000000
  }

  /** The flags the drivers must leave alone. */
  const LOCAL: set<Bit> :=
    {CommLost, Shutdown, Slave, SlaveDown, OnBattMsg, FastPoll, Plugged, ShutLoad, ShutBtime, ShutLtime, ShutEmerg}

  const LOCAL_MASK: bv32 := 0x017E0F00

  ghost function Flags(word: bv32): set<Bit> {
    set b: Bit | Has(word, Mask(b))
  }

  /** Different flags have different masks. */
  lemma MaskInjective(b: Bit, c: Bit)
    requires Mask(b) == Mask(c)
    ensures b == c
  {
  }

  lemma Disjoint(b: Bit, c: Bit)
    requires b != c
    ensures Apart(Mask(b), Mask(c))
  {
    hide Mask, PowerOfTwo, Apart;
    if Mask(b) == Mask(c) {
      MaskInjective(b, c);
    }
    OneBit(b);
    OneBit(c);
    OneBitsApart(Mask(b), Mask(c));
  }

  lemma SetAndClearOne(word: bv32, b: Bit, c: Bit)
    ensures Has(With(word, Mask(b)), Mask(c)) <==> Has(word, Mask(c)) || c == b
    ensures Has(Without(word, Mask(b)), Mask(c)) <==> Has(word, Mask(c)) && c != b
  {
    hide Mask, With, Without, Field, Apart;
    NonZero(b);
    if c == b {
      MaskSelf(word, Mask(b));
    } else {
      Disjoint(b, c);
      WithOther(word, Mask(b), Mask(c));
      WithoutOther(word, Mask(b), Mask(c));
    }
  }

  /** The setter pattern adds one flag, the clearer removes one, and neither touches another. */
  lemma SetAndClear(word: bv32, b: Bit)
    ensures Flags(With(word, Mask(b))) == Flags(word) + {b}
    ensures Flags(Without(word, Mask(b))) == Flags(word) - {b}
  {
    hide Mask, Has, Field, With, Without, Differs, Merged;
    forall c: Bit {
      SetAndClearOne(word, b, c);
    }
  }

  lemma NonZero(b: Bit)
    ensures Mask(b) != 0
  {
  }

  /** The change detector compares one flag of two words. */
  lemma ChangedFlag(word: bv32, prev: bv32, b: Bit)
    ensures Differs(word, prev, Mask(b)) <==> (b in Flags(word)) != (b in Flags(prev))
  {
    hide Mask, Has, Field, With, Without, Differs, Merged;
    SingleBit(word, prev, b);
  }

  lemma SingleBit(word: bv32, prev: bv32, b: Bit)
    ensures Differs(word, prev, Mask(b)) <==> Has(word, Mask(b)) != Has(prev, Mask(b))
  {
    OneBit(b);
    hide Mask;
    DiffersInOneBit(word, prev, Mask(b));
  }

  lemma OneBit(b: Bit)
    ensures PowerOfTwo(Mask(b))
  {
  }

  lemma DriverUpdateOne(word: bv32, update: bv32, b: Bit)
    ensures Has(Merged(word, update, LOCAL_MASK), Mask(b))
      <==> if b in LOCAL then Has(word, Mask(b)) else Has(update, Mask(b))
  {
    hide Mask, Merged, Field, Apart, Within;
    LocalMask(b);
    if b in LOCAL {
      MergeLocal(word, update, LOCAL_MASK, Mask(b));
    } else {
      MergeOther(word, update, LOCAL_MASK, Mask(b));
    }
  }

  lemma LocalMask(b: Bit)
    ensures if b in LOCAL then Within(Mask(b), LOCAL_MASK) else Apart(Mask(b), LOCAL_MASK)
  {
    match b {
      case Calibration => case Trim => case Boost => case Online => case OnBatt => case Overload =>
      case BattLow => case ReplaceBatt => case CommLost => case Shutdown => case Slave => case SlaveDown =>
      case OnBattMsg => case FastPoll => case ShutLoad => case ShutBtime => case ShutLtime => case ShutEmerg =>
      case ShutRemote => case Plugged => case BattPresent =>
    }
  }

  /** A driver that keeps the local bits and replaces the others: what a pass sees. */
  lemma DriverUpdate(word: bv32, update: bv32)
    ensures Flags(Merged(word, update, LOCAL_MASK)) == Flags(word) * LOCAL + (Flags(update) - LOCAL)
  {
    hide Mask, Has, Field, With, Without, Differs, Merged;
    forall b: Bit {
      DriverUpdateOne(word, update, b);
    }
  }

  /** set_online and clear_online keep the two supply flags opposite. */
  lemma OnlineOffline(word: bv32)
    ensures Flags(Without(With(word, Mask(Online)), Mask(OnBatt))) == Flags(word) + {Online} - {OnBatt}
    ensures Flags(Without(With(word, Mask(OnBatt)), Mask(Online))) == Flags(word) + {OnBatt} - {Online}
  {
    hide *;
    SetAndClear(word, Online);
    SetAndClear(With(word, Mask(Online)), OnBatt);
    SetAndClear(word, OnBatt);
    SetAndClear(With(word, Mask(OnBatt)), Online);
  }
}
