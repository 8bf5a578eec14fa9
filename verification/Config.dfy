/** The configuration block in RAM and its stored copy in EEPROM (src/cfg.c). */
module Config {
  import opened Bytes
  import opened Crc
  import CrcDetection

  const SIZE: nat := 26           // sizeof(config_t)
  const CRC_AT: nat := 25
  const PARMS: nat := 2           // first byte after the header
  const TYPE_2: nat := 2
  const MAX_PARMID: nat := 13

  type Block = b: seq<Byte> | |b| == SIZE witness seq(SIZE, _ => ZERO)

  function Word(n: nat): seq<Byte>
    requires n < 0x1_0000
  {
    [ToByte(n % 256), ToByte(n / 256)]
  }

  /** Defaults by parameter: vscale, shuntmax, shuntmin, shunttime, temphi, templo; all others are zero. */
  function DefaultOf(id: nat): (n: nat)
    ensures n < 0x1_0000
    ensures (id == 1 || id == 11 || id == 12) ==> n < 256
  {
    if id == 2 then 4400 else if id == 8 then 4100 else if id == 9 then 4000 else if id == 10 then 300
    else if id == 11 then 50 else if id == 12 then 40 else 0
  }

  /** Byte `i` of the default parameters, little-endian. */
  function DefaultByte(i: nat): (n: nat)
    ensures n < 256
  {
    if i == 0 then DefaultOf(1)
    else if i <= 18 then
      if i % 2 == 1 then DefaultOf((i + 3) / 2) % 256 else DefaultOf((i + 3) / 2) / 256
    else if i == 19 then DefaultOf(11)
    else if i == 20 then DefaultOf(12)
    else if i % 2 == 1 then DefaultOf(13) % 256 else DefaultOf(13) / 256
  }

  function Defaults(): (d: seq<Byte>)
    ensures |d| == CRC_AT - PARMS
  {
    seq(CRC_AT - PARMS, i requires 0 <= i => ToByte(DefaultByte(i)))
  }

  /** The parameters proper: everything between the header and the CRC. */
  function Parms(b: Block): seq<Byte> {
    b[PARMS..CRC_AT]
  }

  predicate HeaderOk(b: Block) {
    FromByte(b[1]) == TYPE_2 && FromByte(b[0]) == SIZE
  }

  predicate ValidBlock(b: Block) {
    HeaderOk(b) && Checked(b)
  }

  /** The block with all parameters replaced; header and CRC are left as they are. */
  function Filled(b: Block, parms: seq<Byte>): (b': Block)
    requires |parms| == CRC_AT - PARMS
    ensures Parms(b') == parms
  {
    b[..PARMS] + parms + b[CRC_AT..]
  }

  /** What `cfg_load` makes of a stored block. */
  function Load(ee: Block): (ram: Block)
    ensures Parms(ram) == if ValidBlock(ee) then Parms(ee) else Defaults()
  {
    if ValidBlock(ee) then ee else Filled(ee, Defaults())
  }

  /** Header and parameters as they are stored, without the CRC. */
  function Stamped(ram: Block): (s: seq<Byte>)
    ensures |s| == CRC_AT
  {
    [ToByte(SIZE), ToByte(TYPE_2)] + Parms(ram)
  }

  /** The block `cfg_commit` writes. */
  function Committed(ram: Block): (b: Block)
    ensures ValidBlock(b) && Parms(b) == Parms(ram)
  {
    var b := Stamped(ram) + [Fold(ZERO, Stamped(ram))];
    assert b[..CRC_AT] == Stamped(ram);
    b
  }

  /** The block written for a reset: its CRC is forced to be wrong. */
  function Spoiled(ram: Block): (b: Block)
    ensures !ValidBlock(b)
  {
    var b := Stamped(ram) + [Not(Fold(ZERO, Stamped(ram)))];
    assert b[..CRC_AT] == Stamped(ram);
    assert b[CRC_AT][0] != Fold(ZERO, Stamped(ram))[0];
    b
  }

  // ---------------------------------------------------------------- parameters

  /** Index and size of each parameter in the block. */
  const PARMTABLE: seq<(nat, nat)> := [
    (0, 0), (2, 1), (3, 2), (5, 2), (7, 2), (9, 2), (11, 2), (13, 2),
    (15, 2), (17, 2), (19, 2), (21, 1), (22, 1), (23, 2)]

  function ParmIndex(id: nat): nat
    requires 1 <= id
  {
    if id == 1 then 2 else if id <= 11 then 2 * id - 1 else if id == 12 then 22 else 23
  }

  function ParmCount(id: nat): nat {
    if id == 1 || id == 11 || id == 12 then 1 else 2
  }

  lemma ParmTableEntry(id: nat)
    requires 1 <= id <= MAX_PARMID
    ensures |PARMTABLE| == MAX_PARMID + 1 && PARMTABLE[id] == (ParmIndex(id), ParmCount(id))
  {}

  predicate LegitId(id: nat) {
    1 <= id <= MAX_PARMID
  }

  /** The bytes of one parameter. */
  function Slot(b: Block, id: nat): seq<Byte>
    requires LegitId(id)
  {
    b[ParmIndex(id)..ParmIndex(id) + ParmCount(id)]
  }

  predicate SetAccepted(len: nat, value: seq<Byte>)
    requires |value| >= 1
  {
    LegitId(FromByte(value[0])) && len == ParmCount(FromByte(value[0])) + 1
  }

  /** The block with the parameter's bytes replaced. */
  function Put(b: Block, id: nat, v: seq<Byte>): Block
    requires LegitId(id) && |v| == ParmCount(id)
  {
    b[..ParmIndex(id)] + v + b[ParmIndex(id) + ParmCount(id)..]
  }

  lemma PutSlot(b: Block, id: nat, v: seq<Byte>, other: nat)
    requires LegitId(id) && |v| == ParmCount(id) && LegitId(other)
    ensures Slot(Put(b, id, v), other) == if other == id then v else Slot(b, other)
  {
    PutBytes(b, id, v);
    if other == id {
      forall j | 0 <= j < |v| ensures Slot(Put(b, id, v), id)[j] == v[j] {
        assert Slot(Put(b, id, v), id)[j] == Put(b, id, v)[ParmIndex(id) + j];
      }
    } else {
      SlotsDisjoint(id, other);
      forall j | 0 <= j < ParmCount(other) ensures Slot(Put(b, id, v), other)[j] == Slot(b, other)[j] {
        assert Slot(Put(b, id, v), other)[j] == Put(b, id, v)[ParmIndex(other) + j];
      }
    }
  }

  lemma SlotsDisjoint(id: nat, other: nat)
    requires LegitId(id) && LegitId(other) && id != other
    ensures ParmIndex(id) + ParmCount(id) <= ParmIndex(other) || ParmIndex(other) + ParmCount(other) <= ParmIndex(id)
  {}

  lemma PutBytes(b: Block, id: nat, v: seq<Byte>)
    requires LegitId(id) && |v| == ParmCount(id)
    ensures forall k :: 0 <= k < SIZE ==>
                          Put(b, id, v)[k] == var j := k - ParmIndex(id); if 0 <= j < |v| then v[j] else b[k]
  {}

  // ---------------------------------------------------------------- RAM and EEPROM together

  datatype Store = Store(ram: Block, ee: Block)

  function PowerOn(ee: Block): Store {
    Store(Load(ee), ee)
  }

  /** `cfg_set`: refused, or written to RAM and through to EEPROM. */
  function Set(s: Store, len: nat, value: seq<Byte>): (Store, bool)
    requires |value| >= 1 && len <= |value|
  {
    if !SetAccepted(len, value) then (s, false)
    else
      var b := Committed(Put(s.ram, FromByte(value[0]), value[1..len]));
      (Store(b, b), true)
  }

  /** `cfg_store` */
  function Commit(s: Store): Store {
    Store(Committed(s.ram), Committed(s.ram))
  }

  /** `cfg_reset` */
  function Reset(s: Store): Store {
    PowerOn(Spoiled(s.ram))
  }

  /** `cfg_get`, given the length of the caller's buffer. */
  function Get(ram: Block, len: nat, id: nat): Option<seq<Byte>> {
    if !LegitId(id) || ParmCount(id) >= len then None else Some(Slot(ram, id))
  }

  datatype Op = SetOp(len: nat, value: seq<Byte>) | StoreOp | ResetOp | PowerCycle

  predicate Callable(op: Op) {
    op.SetOp? ==> |op.value| >= 1 && op.len <= |op.value|
  }

  function Apply(s: Store, op: Op): Store
    requires Callable(op)
  {
    match op
    case SetOp(len, value) => Set(s, len, value).0
    case StoreOp => Commit(s)
    case ResetOp => Reset(s)
    case PowerCycle => PowerOn(s.ee)
  }

  function Run(s: Store, ops: seq<Op>): Store
    requires forall op :: op in ops ==> Callable(op)
    decreases |ops|
  {
    if ops == [] then s else Run(Apply(s, ops[0]), ops[1..])
  }

  /** The parameters in RAM are what a power cycle would bring back. */
  predicate WriteThrough(s: Store) {
    Parms(s.ram) == Parms(Load(s.ee)) && (ValidBlock(s.ee) ==> s.ram == s.ee)
  }

  lemma OpKeepsWriteThrough(s: Store, op: Op)
    requires WriteThrough(s) && Callable(op)
    ensures WriteThrough(Apply(s, op))
  {
    match op
    case SetOp(len, value) =>
    case StoreOp =>
    case ResetOp =>
    case PowerCycle =>
  }

  lemma {:induction false} AlwaysWriteThrough(s: Store, ops: seq<Op>)
    requires WriteThrough(s)
    requires forall op :: op in ops ==> Callable(op)
    ensures WriteThrough(Run(s, ops))
    decreases |ops|
  {
    if ops != [] {
      OpKeepsWriteThrough(s, ops[0]);
      AlwaysWriteThrough(Apply(s, ops[0]), ops[1..]);
    }
  }

  /** From any EEPROM contents at power-on: after any run, a power cycle changes no parameter. */
  lemma PowerCycleLosesNothing(ee: Block, ops: seq<Op>, id: nat, len: nat)
    requires forall op :: op in ops ==> Callable(op)
    ensures var s := Run(PowerOn(ee), ops);
            Parms(PowerOn(s.ee).ram) == Parms(s.ram) && Get(PowerOn(s.ee).ram, len, id) == Get(s.ram, len, id)
  {
    AlwaysWriteThrough(PowerOn(ee), ops);
    var s := Run(PowerOn(ee), ops);
    if LegitId(id) {
      SlotOfParms(PowerOn(s.ee).ram, s.ram, id);
    }
  }

  lemma SlotOfParms(a: Block, b: Block, id: nat)
    requires LegitId(id) && Parms(a) == Parms(b)
    ensures Slot(a, id) == Slot(b, id)
  {
    var n := ParmCount(id);
    forall j | 0 <= j < n ensures Slot(a, id)[j] == Slot(b, id)[j] {
      var k := ParmIndex(id) + j;
      assert a[k] == Parms(a)[k - PARMS] == Parms(b)[k - PARMS] == b[k];
    }
  }

  /** A successful set is read back by get; every other parameter is as before; a refused set changes nothing. */
  lemma SetThenGet(s: Store, len: nat, value: seq<Byte>, id: nat)
    requires |value| >= 1 && len <= |value| && LegitId(id)
    ensures var (s', ok) := Set(s, len, value);
            && (ok <==> LegitId(FromByte(value[0])) && len == ParmCount(FromByte(value[0])) + 1)
            && (!ok ==> s' == s)
            && (ok ==> Get(s'.ram, 12, id) ==
                       if id == FromByte(value[0]) then Some(value[1..len]) else Get(s.ram, 12, id))
            && (ok ==> s'.ee == s'.ram && ValidBlock(s'.ee))
  {
    if SetAccepted(len, value) {
      var k := FromByte(value[0]);
      var b := Put(s.ram, k, value[1..len]);
      PutSlot(s.ram, k, value[1..len], id);
      SlotOfParms(Committed(b), b, id);
    }
  }

  lemma DefaultBytes(id: nat)
    requires LegitId(id)
    ensures var k := ParmIndex(id) - PARMS;
            if ParmCount(id) == 1 then DefaultByte(k) == DefaultOf(id)
            else DefaultByte(k) == DefaultOf(id) % 256 && DefaultByte(k + 1) == DefaultOf(id) / 256
  {
    if 2 <= id <= 10 {
      assert ParmIndex(id) - PARMS == 2 * id - 3;
    }
  }

  lemma DefaultSlot(b: Block, id: nat)
    requires LegitId(id) && Parms(b) == Defaults()
    ensures Slot(b, id) == if ParmCount(id) == 1 then [ToByte(DefaultOf(id))] else Word(DefaultOf(id))
  {
    var k := ParmIndex(id);
    DefaultBytes(id);
    assert b[k] == Parms(b)[k - PARMS] == ToByte(DefaultByte(k - PARMS));
    if ParmCount(id) == 2 {
      assert b[k + 1] == Parms(b)[k + 1 - PARMS] == ToByte(DefaultByte(k + 1 - PARMS));
      assert Slot(b, id) == [b[k], b[k + 1]];
    } else {
      assert Slot(b, id) == [b[k]];
    }
  }

  /** After a factory reset every parameter reads back its default, now and after a power cycle. */
  lemma ResetGivesDefaults(s: Store, id: nat)
    requires LegitId(id)
    ensures var d := if ParmCount(id) == 1 then [ToByte(DefaultOf(id))] else Word(DefaultOf(id));
            Get(Reset(s).ram, 12, id) == Some(d) && Get(PowerOn(Reset(s).ee).ram, 12, id) == Some(d)
  {
    DefaultSlot(Reset(s).ram, id);
    DefaultSlot(PowerOn(Reset(s).ee).ram, id);
  }

  /** A stored block is loaded exactly if it says it has 26 bytes and is of type 2, and its last byte is its CRC. */
  lemma LoadIff(ee: Block)
    ensures if FromByte(ee[0]) == 26 && FromByte(ee[1]) == 2 && Fold(ZERO, ee[..25]) == ee[25]
            then Load(ee) == ee else Parms(Load(ee)) == Defaults()
  {}

  /** The defaults in numbers: unassigned, 4400, 4100 and 4000 mV, 300 s, 50 and 40 degrees, and zero. */
  lemma DefaultValues(b: Block)
    requires Parms(b) == Defaults()
    ensures Slot(b, 1) == [ToByte(0)] && Slot(b, 2) == Word(4400)
    ensures forall id :: 3 <= id <= 7 ==> Slot(b, id) == Word(0)
    ensures Slot(b, 8) == Word(4100) && Slot(b, 9) == Word(4000) && Slot(b, 10) == Word(300)
    ensures Slot(b, 11) == [ToByte(50)] && Slot(b, 12) == [ToByte(40)] && Slot(b, 13) == Word(0)
  {
    DefaultSlot(b, 1);
    DefaultSlot(b, 2);
    forall id | 3 <= id <= 7 ensures Slot(b, id) == Word(0) {
      DefaultSlot(b, id);
    }
    DefaultSlot(b, 8);
    DefaultSlot(b, 9);
    DefaultSlot(b, 10);
    DefaultSlot(b, 11);
    DefaultSlot(b, 12);
    DefaultSlot(b, 13);
  }

  /** The parameters lie in the block in the order of their IDs, without gaps, and fill it between header and CRC. */
  lemma ParmsArePacked(id: nat)
    requires LegitId(id)
    ensures ParmIndex(1) == PARMS && ParmIndex(MAX_PARMID) + ParmCount(MAX_PARMID) == CRC_AT
    ensures id < MAX_PARMID ==> ParmIndex(id + 1) == ParmIndex(id) + ParmCount(id)
  {}

  /** Exactly when there is an answer, and that it is the parameter's bytes. */
  lemma GetIff(ram: Block, len: nat, id: nat)
    ensures Get(ram, len, id).Some? <==> 1 <= id <= 13 && len > ParmCount(id)
    ensures Get(ram, len, id).Some? ==> Get(ram, len, id).value == Slot(ram, id)
  {}

  /** Storing changes no parameter and leaves a valid block. */
  lemma StoreKeepsParameters(s: Store)
    ensures Parms(Commit(s).ram) == Parms(s.ram) && Commit(s).ee == Commit(s).ram && ValidBlock(Commit(s).ee)
  {}

  /** Any change to a single byte of a valid stored block loads the defaults. */
  lemma CorruptByteLoadsDefaults(ee: Block, bad: Block, k: nat)
    requires ValidBlock(ee) && k < SIZE && bad[k] != ee[k]
    requires forall i :: 0 <= i < SIZE && i != k ==> bad[i] == ee[i]
    ensures Parms(Load(bad)) == Defaults()
  {
    CrcDetection.OneByteDetected(ee, bad, k);
  }

  /** A block left by a set that was cut short: each byte is still the stored one, or already the new one. */
  predicate CutShort(s: Store, len: nat, value: seq<Byte>, torn: Block)
    requires |value| >= 1 && len <= |value|
  {
    forall i :: 0 <= i < SIZE ==> torn[i] == s.ee[i] || torn[i] == Set(s, len, value).0.ee[i]
  }

  predicate OldNewOrInvalid(s: Store, len: nat, value: seq<Byte>, torn: Block)
    requires |value| >= 1 && len <= |value|
  {
    torn == s.ee || torn == Set(s, len, value).0.ee || !ValidBlock(torn)
  }

  /** No set cut short leaves a mixture that loads. */
  ghost predicate SetsAreAtomic(s: Store) {
    forall len: nat, value: seq<Byte>, torn: Block | |value| >= 1 && len <= |value| && CutShort(s, len, value, torn) ::
      OldNewOrInvalid(s, len, value, torn)
  }

  /**
   Power loss in the middle of a set, whichever bytes had been written: no mixture of old and new loads, if and only
   if the stored block was valid. It is not valid after a factory reset, until the next set or store.
   */
  lemma SetsAreAtomicIff(s: Store)
    requires WriteThrough(s)
    ensures SetsAreAtomic(s) <==> ValidBlock(s.ee)
  {
    if ValidBlock(s.ee) {
      forall len: nat, value: seq<Byte>, torn: Block | |value| >= 1 && len <= |value| && CutShort(s, len, value, torn)
        ensures OldNewOrInvalid(s, len, value, torn)
      {
        TornSetIsAtomic(s, len, value, torn);
      }
    } else {
      EscapingSetTears(s);
      assert !OldNewOrInvalid(s, 3, Escaping(s.ee), Torn(s));
    }
  }

  /** The escaping set with everything but `vscale` written. */
  function Torn(s: Store): Block {
    Set(s, 3, Escaping(s.ee)).0.ee[VSCALE := s.ee[VSCALE]][VSCALE + 1 := s.ee[VSCALE + 1]]
  }

  lemma EscapingSetTears(s: Store)
    ensures CutShort(s, 3, Escaping(s.ee), Torn(s))
    ensures ValidBlock(Torn(s)) && Torn(s) != Set(s, 3, Escaping(s.ee)).0.ee
  {
    var b := Set(s, 3, Escaping(s.ee)).0.ee;
    SetVscale(s, Escaping(s.ee));
    XorChanges(s.ee[VSCALE]);
    assert Torn(s)[VSCALE] != b[VSCALE];
    MixtureLoads(b, Torn(s), VSCALE);
  }

  lemma XorChanges(x: Byte)
    ensures Xor(x, CrcDetection.G_HIGH) != x
  {
    assert Xor(x, CrcDetection.G_HIGH)[7] != x[7];
  }

  const VSCALE: nat := 3

  /** A value for `vscale` that differs from the stored one in the generator's pattern. */
  function Escaping(ee: Block): (value: seq<Byte>)
    ensures |value| == 3 && SetAccepted(3, value) && FromByte(value[0]) == 2
  {
    [ToByte(2), Xor(ee[VSCALE], CrcDetection.G_HIGH), Xor(ee[VSCALE + 1], CrcDetection.G_LOW)]
  }

  lemma SetVscale(s: Store, value: seq<Byte>)
    requires |value| == 3 && FromByte(value[0]) == 2
    ensures var b := Set(s, 3, value).0.ee;
            && ValidBlock(b) && b[VSCALE] == value[1] && b[VSCALE + 1] == value[2]
            && forall k :: PARMS <= k < CRC_AT && k != VSCALE && k != VSCALE + 1 ==> b[k] == s.ram[k]
  {
    PutBytes(s.ram, 2, value[1..3]);
    CommittedKeeps(Put(s.ram, 2, value[1..3]));
  }

  /** Two adjacent parameter bytes taken back by the generator's pattern: the block still checks. */
  lemma MixtureLoads(b: Block, torn: Block, i: nat)
    requires ValidBlock(b) && PARMS <= i && i + 1 < CRC_AT
    requires b[i] == Xor(torn[i], CrcDetection.G_HIGH) && b[i + 1] == Xor(torn[i + 1], CrcDetection.G_LOW)
    requires forall k :: 0 <= k < SIZE && k != i && k != i + 1 ==> torn[k] == b[k]
    ensures ValidBlock(torn)
  {
    XorTwice(torn[i], CrcDetection.G_HIGH);
    XorTwice(torn[i + 1], CrcDetection.G_LOW);
    CrcDetection.GeneratorEscapes(b, torn, i);
  }

  lemma XorTwice(x: Byte, g: Byte)
    ensures Xor(Xor(x, g), g) == x
  {}

  /**
   The failure at its simplest. A node with all parameters at their defaults but `vscale` is reset and then given
   the escaping value: if power fails when only the CRC byte has been written, the node comes back with the
   parameters from before the reset.
   */
  lemma TornSetUndoesReset(s0: Store)
    requires forall k :: PARMS <= k < CRC_AT && k != VSCALE && k != VSCALE + 1 ==> s0.ram[k] == Defaults()[k - PARMS]
    ensures var s := Reset(s0);
            var b := Set(s, 3, Escaping(s0.ram)).0.ee;
            var torn := s.ee[CRC_AT := b[CRC_AT]];
            && WriteThrough(s) && CutShort(s, 3, Escaping(s0.ram), torn) && torn != b
            && ValidBlock(torn) && Parms(PowerOn(torn).ram) == Parms(s0.ram)
  {
    var s := Reset(s0);
    var b := Set(s, 3, Escaping(s0.ram)).0.ee;
    var torn := s.ee[CRC_AT := b[CRC_AT]];
    ResetBytes(s0);
    SetVscale(s, Escaping(s0.ram));
    SameHeader(Committed(s0.ram), b);
    XorChanges(s0.ram[VSCALE]);
    assert torn[VSCALE] != b[VSCALE];
    MixtureLoads(b, torn, VSCALE);
    ParmsBytes(torn, s0.ram);
  }

  lemma ParmsBytes(a: Block, b: Block)
    requires forall k :: PARMS <= k < CRC_AT ==> a[k] == b[k]
    ensures Parms(a) == Parms(b)
  {}

  /** After a reset the stored bytes are still the old ones, the CRC apart, and RAM holds the defaults. */
  lemma ResetBytes(s0: Store)
    ensures var s := Reset(s0);
            && WriteThrough(s)
            && (forall k :: PARMS <= k < CRC_AT ==> s.ee[k] == s0.ram[k] && s.ram[k] == Defaults()[k - PARMS])
            && s.ee[0] == Committed(s0.ram)[0] && s.ee[1] == Committed(s0.ram)[1]
  {
    var s := Reset(s0);
    forall k | PARMS <= k < CRC_AT ensures s.ee[k] == s0.ram[k] && s.ram[k] == Defaults()[k - PARMS] {
      assert s.ee[k] == Stamped(s0.ram)[k] == Parms(s0.ram)[k - PARMS];
      assert s.ram[k] == Parms(s.ram)[k - PARMS];
    }
  }

  /** From a valid block: the torn block is the old one, the new one, or invalid. */
  lemma TornSetIsAtomic(s: Store, len: nat, value: seq<Byte>, torn: Block)
    requires WriteThrough(s) && ValidBlock(s.ee)
    requires |value| >= 1 && len <= |value| && CutShort(s, len, value, torn)
    ensures OldNewOrInvalid(s, len, value, torn)
  {
    var old_, new_ := s.ee, Set(s, len, value).0.ee;
    if SetAccepted(len, value) {
      var id := FromByte(value[0]);
      SetTouches(s, len, value);
      MixIsOldNewOrInvalid(old_, new_, torn, ParmIndex(id));
    }
  }

  /** A set changes at most two adjacent parameter bytes and the CRC of a valid block. */
  lemma SetTouches(s: Store, len: nat, value: seq<Byte>)
    requires ValidBlock(s.ee) && s.ram == s.ee
    requires |value| >= 1 && len <= |value| && SetAccepted(len, value)
    ensures var b, i := Set(s, len, value).0.ee, ParmIndex(FromByte(value[0]));
            forall k :: 0 <= k < CRC_AT && k != i && k != i + 1 ==> b[k] == s.ee[k]
  {
    var id := FromByte(value[0]);
    var p := Put(s.ram, id, value[1..len]);
    PutBytes(s.ram, id, value[1..len]);
    CommittedKeeps(p);
    SameHeader(Committed(p), s.ee);
  }

  lemma CommittedKeeps(b: Block)
    ensures forall k :: PARMS <= k < CRC_AT ==> Committed(b)[k] == b[k]
  {
    forall k | PARMS <= k < CRC_AT ensures Committed(b)[k] == b[k] {
      assert Committed(b)[k] == Parms(Committed(b))[k - PARMS] == Parms(b)[k - PARMS] == b[k];
    }
  }

  lemma SameHeader(a: Block, b: Block)
    requires HeaderOk(a) && HeaderOk(b)
    ensures a[0] == b[0] && a[1] == b[1]
  {
    FromByteInjective(a[0], b[0]);
    FromByteInjective(a[1], b[1]);
  }

  lemma MixIsOldNewOrInvalid(a: Block, b: Block, m: Block, i: nat)
    requires ValidBlock(a) && ValidBlock(b) && PARMS <= i && i + 1 < SIZE
    requires forall k :: 0 <= k < CRC_AT && k != i && k != i + 1 ==> a[k] == b[k]
    requires forall k :: 0 <= k < SIZE ==> m[k] == a[k] || m[k] == b[k]
    ensures m == a || m == b || !ValidBlock(m)
  {
    if k :| 0 <= k < SIZE && OnlyDiffersAt(a, m, k) {
      CrcDetection.OneByteDetected(a, m, k);
    } else if k :| 0 <= k < SIZE && OnlyDiffersAt(b, m, k) {
      CrcDetection.OneByteDetected(b, m, k);
    } else {
      assert !OnlyDiffersAt(a, m, i) && !OnlyDiffersAt(a, m, i + 1) && !OnlyDiffersAt(a, m, CRC_AT);
      assert !OnlyDiffersAt(b, m, i) && !OnlyDiffersAt(b, m, i + 1) && !OnlyDiffersAt(b, m, CRC_AT);
    }
  }

  predicate OnlyDiffersAt(a: Block, m: Block, k: nat)
    requires k < SIZE
  {
    m[k] != a[k] && forall j :: 0 <= j < SIZE && j != k ==> a[j] == m[j]
  }
}
