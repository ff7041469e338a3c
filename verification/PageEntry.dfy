/** Raw x86-64 page-table entries: a page-aligned 52-bit address or'ed with flag bits. */
module PageEntry {
  import opened Prelude

  /** The address takes bits 12 to 51; every other bit is a flag. */
  function Pack(address: bv64, flags: bv64): Option<bv64> {
    if address & 0xfff != 0 || address >= 0x0010_0000_0000_0000 then None else Some(address | flags)
  }

  function AddressOf(raw: bv64): bv64 {
    raw & 0x000f_ffff_ffff_f000
  }

  function FlagsOf(raw: bv64): bv64 {
    raw & 0xfff0_0000_0000_0fff
  }

  /** Address and flags can be read back from an entry exactly when no flag is an
      address bit; then different pairs make different entries. */
  lemma PackReadsBack(address: bv64, flags: bv64)
    requires Pack(address, flags).Some?
    ensures AddressOf(Pack(address, flags).value) == address && FlagsOf(Pack(address, flags).value) == flags
            <==> flags & 0x000f_ffff_ffff_f000 == 0
  {
    FlagsSplit(address, flags);
    if flags & 0x000f_ffff_ffff_f000 == 0 {
      AddressSurvives(address, flags);
    }
  }

  lemma AddressSurvives(address: bv64, flags: bv64)
    requires flags & 0x000f_ffff_ffff_f000 == 0 && address & 0xfff == 0 && address < 0x0010_0000_0000_0000
    ensures (address | flags) & 0x000f_ffff_ffff_f000 == address
  {
  }

  lemma FlagsSplit(address: bv64, flags: bv64)
    requires address & 0xfff == 0 && address < 0x0010_0000_0000_0000
    ensures (address | flags) & 0xfff0_0000_0000_0fff == flags <==> flags & 0x000f_ffff_ffff_f000 == 0
  {
  }

  /** Clearing the user bit takes user access away and keeps the address. */
  lemma StripUser(raw: bv64)
    ensures (raw & 0xffff_ffff_ffff_fffb) & 4 == 0
    ensures AddressOf(raw & 0xffff_ffff_ffff_fffb) == AddressOf(raw)
  {
  }
}
