/** The two incremental software engines (crates/protocol/src/crc.rs).  The ghost field
    `fed` is everything passed to `Update` since the last reset; both engines report the
    one-shot checksum of it, however it was cut into calls. */
module CrcEngines {
  import Crc16
  import Crc32

  class SoftwareCrc16Ccitt {
    var state: bv16
    ghost var fed: seq<bv8>

    ghost predicate Valid()
      reads this
    {
      state == Crc16.Update(Crc16.INIT, fed)
    }

    constructor ()
      ensures Valid() && fed == []
    {
      state := Crc16.INIT;
      fed := [];
    }

    method Reset()
      modifies this
      ensures Valid() && fed == []
    {
      state := Crc16.INIT;
      fed := [];
    }

    method Update(data: seq<bv8>)
      requires Valid()
      modifies this
      ensures Valid() && fed == old(fed) + data
    {
      Crc16.UpdateConcat(Crc16.INIT, fed, data);
      state := Crc16.Absorb(state, data);
      fed := fed + data;
    }

    method Finalize() returns (crc: bv16)
      requires Valid()
      ensures crc == Crc16.Checksum(fed)
    {
      crc := state;
    }
  }

  class SoftwareCrc32Reflected {
    var state: bv32
    ghost var fed: seq<bv8>

    ghost predicate Valid()
      reads this
    {
      state == Crc32.Update(Crc32.INIT, fed)
    }

    constructor ()
      ensures Valid() && fed == []
    {
      state := Crc32.INIT;
      fed := [];
    }

    method Reset()
      modifies this
      ensures Valid() && fed == []
    {
      state := Crc32.INIT;
      fed := [];
    }

    method Update(data: seq<bv8>)
      requires Valid()
      modifies this
      ensures Valid() && fed == old(fed) + data
    {
      Crc32.UpdateConcat(Crc32.INIT, fed, data);
      state := Crc32.Absorb(state, data);
      fed := fed + data;
    }

    method Finalize() returns (crc: bv32)
      requires Valid()
      ensures crc == Crc32.Checksum(fed)
    {
      crc := state ^ Crc32.XOROUT;
    }
  }
}
