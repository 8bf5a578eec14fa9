/** The configuration module itself (src/cfg.c): the RAM block and the EEPROM, overwritten in place. */
module ConfigModule {
  import opened Bytes
  import opened Crc
  import opened Config

  class CfgModule {
    const parms: array<Byte>    // g_cfg_parms
    const eeprom: array<Byte>   // the block at address 0

    ghost predicate Valid() {
      parms.Length == SIZE && eeprom.Length == SIZE && parms != eeprom
    }

    ghost function View(): Store
      requires Valid()
      reads parms, eeprom
    {
      Store(parms[..], eeprom[..])
    }

    constructor (stored: Block)
      ensures Valid() && fresh(parms) && fresh(eeprom)
      ensures eeprom[..] == stored
    {
      parms := new Byte[SIZE](_ => ZERO);
      eeprom := new Byte[SIZE](i requires 0 <= i < SIZE => stored[i]);
    }

    /**
     Covers as many bytes as the block's own length field says, less one. A length beyond the block makes
     it read the memory behind, given here as `beyond`.
     */
    method ComputeCrc(beyond: seq<Byte>) returns (crc: Byte)
      requires Valid() && |beyond| == 256
      ensures FromByte(parms[0]) == 0 ==> crc == ZERO
      ensures FromByte(parms[0]) > 0 ==> crc == Fold(ZERO, (parms[..] + beyond)[..FromByte(parms[0]) - 1])
    {
      var len: int := FromByte(parms[0]);
      var memory := parms[..] + beyond;
      crc := ZERO;
      var idx: int := 0;
      while idx < len - 1
        invariant 0 <= idx && (len > 0 ==> idx <= len - 1) && (len == 0 ==> idx == 0)
        invariant crc == Fold(ZERO, memory[..idx])
      {
        FoldSnoc(ZERO, memory[..idx], memory[idx]);
        assert memory[..idx + 1] == memory[..idx] + [memory[idx]];
        crc := Crc8CcittUpdate(crc, memory[idx]);
        idx := idx + 1;
      }
    }

    /** `eeprom_read_block` */
    method ReadBlock()
      requires Valid()
      modifies parms
      ensures View() == Store(old(eeprom[..]), old(eeprom[..]))
    {
      for i := 0 to SIZE
        invariant parms[..i] == eeprom[..i] && eeprom[..] == old(eeprom[..])
      {
        parms[i] := eeprom[i];
      }
      assert parms[..SIZE] == parms[..] && eeprom[..SIZE] == eeprom[..];
    }

    /** `eeprom_update_block` */
    method UpdateBlock()
      requires Valid()
      modifies eeprom
      ensures View() == Store(old(parms[..]), old(parms[..]))
    {
      for i := 0 to SIZE
        invariant eeprom[..i] == parms[..i] && parms[..] == old(parms[..])
      {
        eeprom[i] := parms[i];
      }
      assert parms[..SIZE] == parms[..] && eeprom[..SIZE] == eeprom[..];
    }

    method PopulateDefaults()
      requires Valid()
      modifies parms
      ensures parms[..] == Filled(old(parms[..]), Defaults()) && eeprom[..] == old(eeprom[..])
    {
      for i := 0 to CRC_AT - PARMS
        invariant forall k :: 0 <= k < i ==> parms[PARMS + k] == Defaults()[k]
        invariant forall k :: 0 <= k < SIZE && !(PARMS <= k < PARMS + i) ==> parms[k] == old(parms[k])
        invariant eeprom[..] == old(eeprom[..])
      {
        parms[PARMS + i] := ToByte(DefaultByte(i));
      }
      FilledBytes(old(parms[..]), parms[..], Defaults());
    }

    method CfgLoad(beyond: seq<Byte>) returns (loaded: bool)
      requires Valid() && |beyond| == 256
      modifies parms
      ensures View() == PowerOn(old(eeprom[..])) && loaded == ValidBlock(eeprom[..])
    {
      ReadBlock();
      var crc := ComputeCrc(beyond);
      assert (parms[..] + beyond)[..CRC_AT] == parms[..][..CRC_AT];
      if FromByte(parms[1]) == TYPE_2 && FromByte(parms[0]) == SIZE {
        if crc == parms[CRC_AT] {
          return true;
        }
      }
      PopulateDefaults();
      return false;
    }

    /** Size and type go into the header. */
    method StampHeader()
      requires Valid()
      modifies parms
      ensures parms[..CRC_AT] == Stamped(old(parms[..])) && eeprom[..] == old(eeprom[..])
    {
      parms[0] := ToByte(SIZE);
      parms[1] := ToByte(TYPE_2);
    }

    /** The block in RAM as it is to be stored: header, and a CRC that is right, or for a reset wrong. */
    method Stamp(reset: bool, beyond: seq<Byte>)
      requires Valid() && |beyond| == 256
      modifies parms
      ensures parms[..] == (if reset then Spoiled(old(parms[..])) else Committed(old(parms[..])))
      ensures eeprom[..] == old(eeprom[..])
    {
      ghost var s := Stamped(parms[..]);
      StampHeader();
      assert parms[0] == s[0];
      var crc := ComputeCrc(beyond);
      assert (parms[..] + beyond)[..CRC_AT] == s;
      parms[CRC_AT] := if reset then Not(crc) else crc;
      assert parms[..CRC_AT] == s;
      assert parms[..] == s + [parms[CRC_AT]];
    }

    method CfgCommit(reset: bool, beyond: seq<Byte>)
      requires Valid() && |beyond| == 256
      modifies parms, eeprom
      ensures View() == if reset then Reset(old(View())) else Commit(old(View()))
    {
      Stamp(reset, beyond);
      UpdateBlock();
      if reset {
        var _ := CfgLoad(beyond);
      }
    }

    method CfgStore(beyond: seq<Byte>)
      requires Valid() && |beyond| == 256
      modifies parms, eeprom
      ensures View() == Commit(old(View()))
    {
      CfgCommit(false, beyond);
    }

    method CfgReset(beyond: seq<Byte>)
      requires Valid() && |beyond| == 256
      modifies parms, eeprom
      ensures View() == Reset(old(View()))
    {
      CfgCommit(true, beyond);
    }

    method CfgSet(len: nat, value: seq<Byte>, beyond: seq<Byte>) returns (ok: bool)
      requires Valid() && |beyond| == 256 && |value| >= 1 && len <= |value|
      modifies parms, eeprom
      ensures (View(), ok) == Set(old(View()), len, value)
    {
      var id := FromByte(value[0]);
      if id < 1 || id > MAX_PARMID {
        return false;
      }
      ParmTableEntry(id);
      var (idx, cnt) := PARMTABLE[id];
      if cnt != len - 1 {
        return false;
      }
      parms[idx] := value[1];
      if cnt == 2 {
        parms[idx + 1] := value[2];
      }
      assert parms[..] == Put(old(parms[..]), id, value[1..len]);
      CfgStore(beyond);
      return true;
    }

    /** The first byte of the buffer holds the parameter ID; the value goes behind it. */
    method CfgGet(len: nat, buf: array<Byte>) returns (n: nat)
      requires Valid() && 1 <= len == buf.Length && buf != parms && buf != eeprom
      modifies buf
      ensures View() == old(View()) && buf[0] == old(buf[0])
      ensures var r := Get(parms[..], len, FromByte(buf[0]));
              if r.None? then n == 0 && buf[..] == old(buf[..])
              else n == |r.value| + 1 && buf[1..n] == r.value && buf[n..] == old(buf[..])[n..]
    {
      var id := FromByte(buf[0]);
      if id < 1 || id > MAX_PARMID {
        return 0;
      }
      ParmTableEntry(id);
      var (idx, cnt) := PARMTABLE[id];
      if cnt >= len {
        return 0;
      }
      buf[1] := parms[idx];
      if cnt == 2 {
        buf[2] := parms[idx + 1];
      }
      return cnt + 1;
    }
  }

  lemma FilledBytes(b: Block, b': Block, parms: seq<Byte>)
    requires |parms| == CRC_AT - PARMS
    requires forall k :: 0 <= k < |parms| ==> b'[PARMS + k] == parms[k]
    requires forall k :: 0 <= k < SIZE && !(PARMS <= k < CRC_AT) ==> b'[k] == b[k]
    ensures b' == Filled(b, parms)
  {
    assert forall k :: PARMS <= k < CRC_AT ==> b'[k] == parms[k - PARMS];
  }
}
